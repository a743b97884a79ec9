/** Borderless table extraction: OCR tokens are filtered and given derived
    geometry, rows and columns come from clustering token centres, vertical
    ruling lines may split a column, and tokens sharing a (row, column) are
    merged into one cell of a rectangular grid whose first row is the header. */
module Borderless {
  import opened Common
  import opened PyStr

  /** A surviving token: stripped text, its box and the derived centre and far edges. */
  datatype TextBox = TextBox(
    text: string, left: int, top: int, width: int, height: int,
    yMiddle: int, y2: int, xMiddle: int, x2: int)

  /** A ruling-line segment as the line detector reports it. */
  datatype Line = Line(x1: int, y1: int, x2: int, y2: int)

  /** A token with its row and column index. */
  datatype Placed = Placed(box: TextBox, row: nat, column: nat)

  /** One record of aggregate_text_boxes: all tokens of one (column, row) pair. */
  datatype Aggregated = Aggregated(
    left: int, top: int, width: int, height: int, text: string, row: nat, column: nat)

  const OcrTextConfidenceThreshold: real := 0.6
  const MaxDistRows: int := 10
  const MaxDistColumns: int := 60

  // ---------------------------------------------------------------------------
  // get_text_boxes: filtering and derived fields
  // ---------------------------------------------------------------------------

  /** int(conf) exceeds the threshold. */
  predicate Confident(r: OcrRow) {
    TruncReal(r.conf) as real > OcrTextConfidenceThreshold
  }

  /** A token is kept when it is confident and its stripped text is not empty. */
  predicate Survives(r: OcrRow) {
    Confident(r) && r.text.Some? && !IsBlank(r.text.value)
  }

  /** `x.strip()` raises AttributeError on the NaN of an empty text cell that
      passed the confidence filter. */
  predicate StripFails(rows: seq<OcrRow>) {
    exists i :: 0 <= i < |rows| && Confident(rows[i]) && rows[i].text.None?
  }

  /** int(h / 2): true division followed by truncation toward zero. */
  function Half(h: int): (n: int)
    ensures h >= 0 ==> n == h / 2
  {
    var n := TruncReal(h as real / 2.0);
    assert h >= 0 ==> 2 * n <= h < 2 * n + 2 by {
      if h >= 0 {
        assert n as real <= h as real / 2.0 < n as real + 1.0;
      }
    }
    n
  }

  /** The derived fields agree with the box: far edges, and centres halfway
      across for non-negative extents. */
  predicate Geometry(b: TextBox) {
    b.y2 == b.top + b.height && b.x2 == b.left + b.width
    && (b.height >= 0 ==> b.yMiddle == b.top + b.height / 2 && b.top <= b.yMiddle <= b.y2)
    && (b.width >= 0 ==> b.xMiddle == b.left + b.width / 2 && b.left <= b.xMiddle <= b.x2)
  }

  /** The kept token with its text stripped and its centre and far edges
      computed (only rows with a text cell are kept). */
  function Derive(r: OcrRow): (b: TextBox)
    ensures r.text.Some? ==> b.text == Strip(r.text.value) && (!IsBlank(r.text.value) ==> Trimmed(b.text))
    ensures b.left == r.left && b.top == r.top && b.width == r.width && b.height == r.height
    ensures Geometry(b)
  {
    var text := if r.text.Some? then r.text.value else "";
    StripEmpty(text);
    TextBox(Strip(text), r.left, r.top, r.width, r.height,
            r.top + Half(r.height), r.top + r.height,
            r.left + Half(r.width), r.left + r.width)
  }

  /** A box as get_text_boxes leaves it: non-empty stripped text and consistent geometry. */
  predicate Clean(b: TextBox) {
    Trimmed(b.text) && Geometry(b)
  }

  /** The kept rows of the OCR frame with their derived fields, in order. */
  function GetTextBoxes(rows: seq<OcrRow>): (boxes: seq<TextBox>)
    ensures |boxes| <= |rows|
  {
    Map(Derive, Filter(Survives, rows))
  }

  /** Every box has non-empty stripped text and consistent derived geometry. */
  lemma GetTextBoxesClean(rows: seq<OcrRow>)
    ensures forall k :: 0 <= k < |GetTextBoxes(rows)| ==> Clean(GetTextBoxes(rows)[k])
  {
    var kept := Filter(Survives, rows);
    forall k | 0 <= k < |kept|
      ensures Clean(Derive(kept[k]))
    {
      FilterMembers(Survives, rows, kept[k]);
    }
  }

  /** Filtering works token by token: the boxes of a concatenation are the
      boxes of each part, in order. */
  lemma GetTextBoxesAppend(a: seq<OcrRow>, b: seq<OcrRow>)
    ensures GetTextBoxes(a + b) == GetTextBoxes(a) + GetTextBoxes(b)
  {
    FilterAppend(Survives, a, b);
    MapAppend(Derive, Filter(Survives, a), Filter(Survives, b));
  }

  /** Every kept token appears among the boxes. */
  lemma SurvivorKept(rows: seq<OcrRow>, i: nat)
    requires i < |rows| && Survives(rows[i])
    ensures Derive(rows[i]) in GetTextBoxes(rows)
  {
    var kept := Filter(Survives, rows);
    FilterMembers(Survives, rows, rows[i]);
    var j :| 0 <= j < |kept| && kept[j] == rows[i];
    assert GetTextBoxes(rows)[j] == Derive(rows[i]);
  }

  /** Every box comes from a kept token. */
  lemma BoxFromSurvivor(rows: seq<OcrRow>, b: TextBox)
    requires b in GetTextBoxes(rows)
    ensures exists i :: 0 <= i < |rows| && Survives(rows[i]) && b == Derive(rows[i])
  {
    var kept := Filter(Survives, rows);
    var j :| 0 <= j < |kept| && GetTextBoxes(rows)[j] == b;
    FilterMembers(Survives, rows, kept[j]);
    var i :| 0 <= i < |rows| && rows[i] == kept[j];
  }

  /** int(conf) > 0.6 holds exactly for confidences of at least 1, so the
      sentinel -1 and every confidence below 1 are dropped. */
  lemma ConfidenceCutoff(conf: real)
    ensures TruncReal(conf) as real > OcrTextConfidenceThreshold <==> conf >= 1.0
  {
  }

  // ---------------------------------------------------------------------------
  // get_clustering_indexes: relabelling cluster ids by first appearance
  // ---------------------------------------------------------------------------

  /** The distinct values of s in order of first appearance (the key order of a
      Python dict filled from s). */
  function Dedup<T(==,!new)>(s: seq<T>): (d: seq<T>)
    ensures forall x :: x in d <==> x in s
    ensures Distinct(d)
    ensures |d| <= |s|
  {
    if s == [] then []
    else
      var init := Dedup(s[..|s| - 1]);
      assert forall x :: x in s <==> x in s[..|s| - 1] || x == s[|s| - 1];
      if s[|s| - 1] in init then init else init + [s[|s| - 1]]
  }

  /** The distinct values of a prefix come first among the distinct values of the whole. */
  lemma {:induction false} DedupPrefix<T(!new)>(s: seq<T>, i: nat)
    requires i <= |s|
    ensures Dedup(s[..i]) <= Dedup(s)
  {
    if i < |s| {
      var init := s[..|s| - 1];
      assert s[..i] == init[..i];
      DedupPrefix(init, i);
    } else {
      assert s[..i] == s;
    }
  }

  /** The numbering every output of ClusteringIndexes satisfies: each id is
      numbered by its position among the distinct ids. */
  predicate NumbersByPosition(clusters: seq<int>, indexes: seq<nat>) {
    |indexes| == |clusters| &&
    forall i :: 0 <= i < |clusters| ==> indexes[i] < |Dedup(clusters)| && Dedup(clusters)[indexes[i]] == clusters[i]
  }

  /** Equal numbers mean equal cluster ids. */
  lemma RelabelInjective(clusters: seq<int>, indexes: seq<nat>)
    requires NumbersByPosition(clusters, indexes)
    ensures forall i, j :: 0 <= i < |clusters| && 0 <= j < |clusters| ==>
      (indexes[i] == indexes[j] <==> clusters[i] == clusters[j])
  {
    var keys := Dedup(clusters);
    forall i, j | 0 <= i < |clusters| && 0 <= j < |clusters| && clusters[i] == clusters[j]
      ensures indexes[i] == indexes[j]
    {
      assert keys[indexes[i]] == keys[indexes[j]];
    }
  }

  /** Every number below the count of distinct ids is used. */
  lemma RelabelOnto(clusters: seq<int>, indexes: seq<nat>)
    requires NumbersByPosition(clusters, indexes)
    ensures forall v :: 0 <= v < |Dedup(clusters)| ==> v in indexes
  {
    var keys := Dedup(clusters);
    forall v | 0 <= v < |keys|
      ensures v in indexes
    {
      assert keys[v] in clusters;
      var i :| 0 <= i < |clusters| && clusters[i] == keys[v];
      assert keys[indexes[i]] == keys[v];
    }
  }

  /** A first occurrence gets the count of distinct ids before it. */
  lemma RelabelFirst(clusters: seq<int>, indexes: seq<nat>, i: nat)
    requires NumbersByPosition(clusters, indexes)
    requires i < |clusters| && clusters[i] !in clusters[..i]
    ensures indexes[i] == |Dedup(clusters[..i])|
  {
    var keys := Dedup(clusters);
    var before := Dedup(clusters[..i]);
    DedupPrefix(clusters, i + 1);
    assert clusters[..i + 1][..i] == clusters[..i];
    assert Dedup(clusters[..i + 1]) == before + [clusters[i]];
    assert keys[|before|] == clusters[i];
  }

  /** The keys of clusters_with_list_data: each cluster id once, in order of
      first appearance (the lists it collects are never read). */
  method ClusterKeys(clusters: seq<int>) returns (keys: seq<int>)
    ensures keys == Dedup(clusters)
  {
    keys := [];
    for i := 0 to |clusters|
      invariant keys == Dedup(clusters[..i])
    {
      assert clusters[..i + 1][..i] == clusters[..i];
      if clusters[i] !in keys {
        keys := keys + [clusters[i]];
      }
    }
    assert clusters[..|clusters|] == clusters;
  }

  /** clusters_to_indexes: each key mapped to its position. */
  method NumberKeys(keys: seq<int>) returns (clustersToIndexes: map<int, nat>)
    requires Distinct(keys)
    ensures forall j :: 0 <= j < |keys| ==> keys[j] in clustersToIndexes && clustersToIndexes[keys[j]] == j
  {
    clustersToIndexes := map[];
    for k := 0 to |keys|
      invariant forall j :: 0 <= j < k ==> keys[j] in clustersToIndexes && clustersToIndexes[keys[j]] == j
    {
      clustersToIndexes := clustersToIndexes[keys[k] := k];
    }
  }

  method ClusteringIndexes(clusters: seq<int>) returns (indexes: seq<nat>)
    ensures |indexes| == |clusters|
    ensures forall i :: 0 <= i < |clusters| ==>
      indexes[i] < |Dedup(clusters)| && Dedup(clusters)[indexes[i]] == clusters[i]
    ensures forall i, j :: 0 <= i < |clusters| && 0 <= j < |clusters| ==>
      (indexes[i] == indexes[j] <==> clusters[i] == clusters[j])
    ensures forall v :: 0 <= v < |Dedup(clusters)| ==> v in indexes
    ensures forall i :: 0 <= i < |clusters| && clusters[i] !in clusters[..i] ==>
      indexes[i] == |Dedup(clusters[..i])|
  {
    var keys := ClusterKeys(clusters);
    var clustersToIndexes := NumberKeys(keys);
    indexes := [];
    for i := 0 to |clusters|
      invariant |indexes| == i
      invariant forall j :: 0 <= j < i ==> indexes[j] < |keys| && keys[indexes[j]] == clusters[j]
    {
      assert clusters[i] in keys;
      var j :| 0 <= j < |keys| && keys[j] == clusters[i];
      indexes := indexes + [clustersToIndexes[clusters[i]]];
    }
    RelabelInjective(clusters, indexes);
    RelabelOnto(clusters, indexes);
    forall i | 0 <= i < |clusters| && clusters[i] !in clusters[..i]
      ensures indexes[i] == |Dedup(clusters[..i])|
    {
      RelabelFirst(clusters, indexes, i);
    }
  }

  // ---------------------------------------------------------------------------
  // split_columns_on_vert_lines: the column shift a vertical line causes
  // ---------------------------------------------------------------------------

  // The row and column of a token and of an aggregated record, projected
  // with Map where the maxima are taken.

  function RowOf(p: Placed): nat { p.row }

  function ColumnOf(p: Placed): nat { p.column }

  function RecordRow(a: Aggregated): nat { a.row }

  function RecordColumn(a: Aggregated): nat { a.column }

  /** df["left"] of the column group c. */
  function ColumnLefts(cells: seq<Placed>, c: nat): (s: seq<int>)
    ensures forall k :: 0 <= k < |cells| && cells[k].column == c ==> cells[k].box.left in s
  {
    if cells == [] then []
    else
      var last := cells[|cells| - 1];
      var init := ColumnLefts(cells[..|cells| - 1], c);
      assert forall k :: 0 <= k < |cells| - 1 ==> cells[..|cells| - 1][k] == cells[k];
      if last.column == c then init + [last.box.left] else init
  }

  /** df["x2"] of the column group c. */
  function ColumnRights(cells: seq<Placed>, c: nat): (s: seq<int>)
    ensures forall k :: 0 <= k < |cells| && cells[k].column == c ==> cells[k].box.x2 in s
  {
    if cells == [] then []
    else
      var last := cells[|cells| - 1];
      var init := ColumnRights(cells[..|cells| - 1], c);
      assert forall k :: 0 <= k < |cells| - 1 ==> cells[..|cells| - 1][k] == cells[k];
      if last.column == c then init + [last.box.x2] else init
  }

  /** A line at x1 falls inside column group c: min(left) < x1 <= max(x2). */
  predicate LineSplits(cells: seq<Placed>, c: nat, x1: int) {
    var lefts := ColumnLefts(cells, c);
    var rights := ColumnRights(cells, c);
    lefts != [] && rights != [] && Min(lefts) < x1 <= Max(rights)
  }

  /** Line number no would move token k: it splits k's group and k reaches the line. */
  predicate Moves(cells: seq<Placed>, lines: seq<Line>, k: nat, no: nat)
    requires k < |cells| && no < |lines|
  {
    LineSplits(cells, cells[k].column, lines[no].x1) && cells[k].box.x2 >= lines[no].x1
  }

  /** The highest-numbered line among the first n that moves token k. */
  function LastMove(cells: seq<Placed>, lines: seq<Line>, k: nat, n: nat): (r: Option<nat>)
    requires k < |cells| && n <= |lines|
    ensures r.Some? ==> r.value < n && Moves(cells, lines, k, r.value)
    ensures r.Some? ==> forall m :: r.value < m < n ==> !Moves(cells, lines, k, m)
    ensures r.None? ==> forall m :: 0 <= m < n ==> !Moves(cells, lines, k, m)
  {
    if n == 0 then None
    else if Moves(cells, lines, k, n - 1) then Some(n - 1)
    else LastMove(cells, lines, k, n - 1)
  }

  /** The column the loop computes for token k after the first n lines. */
  function IntendedColumn(cells: seq<Placed>, lines: seq<Line>, k: nat, n: nat): nat
    requires k < |cells| && n <= |lines|
  {
    match LastMove(cells, lines, k, n)
    case None => cells[k].column
    case Some(no) => cells[k].column + no + 1
  }

  /** A token is moved only by a line it reaches, and then to its original
      column plus the number of the last such line plus one. */
  lemma IntendedColumnRule(cells: seq<Placed>, lines: seq<Line>, k: nat)
    requires k < |cells|
    ensures IntendedColumn(cells, lines, k, |lines|) != cells[k].column ==>
      exists no :: 0 <= no < |lines| && cells[k].box.x2 >= lines[no].x1
        && IntendedColumn(cells, lines, k, |lines|) == cells[k].column + no + 1
        && forall m :: no < m < |lines| ==> !Moves(cells, lines, k, m)
    ensures (forall no :: 0 <= no < |lines| ==> cells[k].box.x2 < lines[no].x1) ==>
      IntendedColumn(cells, lines, k, |lines|) == cells[k].column
  {
    var r := LastMove(cells, lines, k, |lines|);
    if r.Some? {
      assert Moves(cells, lines, k, r.value);
    }
  }

  /** Line no either moves token k, to its original column plus no + 1, or
      leaves the column the earlier lines gave it. */
  lemma IntendedStep(cells: seq<Placed>, lines: seq<Line>, k: nat, no: nat)
    requires k < |cells| && no < |lines|
    ensures IntendedColumn(cells, lines, k, no + 1) ==
      if Moves(cells, lines, k, no) then cells[k].column + no + 1 else IntendedColumn(cells, lines, k, no)
  {
  }

  /** One pass of the innermost loops: line no against the column group c.
      The tokens of c get the column line no gives them; no other token changes. */
  method SplitGroup(cells: seq<Placed>, vertLines: seq<Line>, no: nat, c: nat, intended: seq<nat>)
    returns (updated: seq<nat>)
    requires no < |vertLines| && |intended| == |cells|
    requires exists owner :: 0 <= owner < |cells| && cells[owner].column == c
    requires forall k :: 0 <= k < |cells| && cells[k].column == c ==> intended[k] == IntendedColumn(cells, vertLines, k, no)
    ensures |updated| == |cells|
    ensures forall k :: 0 <= k < |cells| ==>
      updated[k] == if cells[k].column == c then IntendedColumn(cells, vertLines, k, no + 1) else intended[k]
  {
    updated := intended;
    var x1 := vertLines[no].x1;
    var left := Min(ColumnLefts(cells, c));
    var right := Max(ColumnRights(cells, c));
    assert (x1 > left && x1 <= right) == LineSplits(cells, c, x1);
    if x1 > left && x1 <= right {
      for k := 0 to |cells|
        invariant |updated| == |cells|
        invariant forall j :: 0 <= j < |cells| ==>
          updated[j] == if cells[j].column == c && j < k then IntendedColumn(cells, vertLines, j, no + 1) else intended[j]
      {
        if cells[k].column == c {
          IntendedStep(cells, vertLines, k, no);
          if cells[k].box.x2 >= x1 {
            updated := updated[k := cells[k].column + no + 1];
          }
        }
      }
    } else {
      forall j | 0 <= j < |cells| && cells[j].column == c
        ensures IntendedColumn(cells, vertLines, j, no + 1) == IntendedColumn(cells, vertLines, j, no)
      {
        IntendedStep(cells, vertLines, j, no);
      }
    }
  }

  /** One pass of the middle loop: line no against every column group. */
  method SplitLine(cells: seq<Placed>, vertLines: seq<Line>, no: nat, groups: seq<nat>, intended: seq<nat>)
    returns (updated: seq<nat>)
    requires no < |vertLines| && |intended| == |cells|
    requires Distinct(groups)
    requires forall g :: 0 <= g < |groups| ==> exists owner :: 0 <= owner < |cells| && cells[owner].column == groups[g]
    requires forall k :: 0 <= k < |cells| ==> cells[k].column in groups
    requires forall k :: 0 <= k < |cells| ==> intended[k] == IntendedColumn(cells, vertLines, k, no)
    ensures |updated| == |cells|
    ensures forall k :: 0 <= k < |cells| ==> updated[k] == IntendedColumn(cells, vertLines, k, no + 1)
  {
    updated := intended;
    for g := 0 to |groups|
      invariant |updated| == |cells|
      invariant forall k :: 0 <= k < |cells| ==>
        updated[k] == IntendedColumn(cells, vertLines, k, if cells[k].column in groups[..g] then no + 1 else no)
    {
      assert forall k :: 0 <= k < |cells| ==>
        (cells[k].column in groups[..g + 1] <==> cells[k].column in groups[..g] || cells[k].column == groups[g]) by {
        assert groups[..g + 1] == groups[..g] + [groups[g]];
      }
      assert groups[g] !in groups[..g];
      updated := SplitGroup(cells, vertLines, no, groups[g], updated);
    }
    assert groups[..|groups|] == groups;
  }

  /** Returns the frame unchanged and the column each token was meant to get:
      the write at line 100 addresses the row label 'column' and the column
      label row.name, so it adds a new row instead of updating the token. */
  method SplitColumnsOnVertLines(cells: seq<Placed>, vertLines: seq<Line>)
    returns (out: seq<Placed>, intended: seq<nat>)
    ensures out == cells
    ensures |intended| == |cells|
    ensures forall k :: 0 <= k < |cells| ==> intended[k] == IntendedColumn(cells, vertLines, k, |vertLines|)
  {
    out := cells;
    // the column groups, taken once before the loop (pandas sorts them; the
    // groups are disjoint, so their order does not affect the result)
    var groups := Dedup(Map(ColumnOf, cells));
    forall g | 0 <= g < |groups|
      ensures exists owner :: 0 <= owner < |cells| && cells[owner].column == groups[g]
    {
      assert groups[g] in Map(ColumnOf, cells);
    }
    assert forall k :: 0 <= k < |cells| ==> Map(ColumnOf, cells)[k] in groups;
    intended := Map(ColumnOf, cells);
    for no := 0 to |vertLines|
      invariant |intended| == |cells|
      invariant forall k :: 0 <= k < |cells| ==> intended[k] == IntendedColumn(cells, vertLines, k, no)
    {
      intended := SplitLine(cells, vertLines, no, groups, intended);
    }
  }

  // ---------------------------------------------------------------------------
  // aggregate_text_boxes: one record per (column, row) pair
  // ---------------------------------------------------------------------------

  function KeyOf(p: Placed): (nat, nat) {
    (p.column, p.row)
  }

  function KeysOf(cells: seq<Placed>): (ks: seq<(nat, nat)>)
    ensures |ks| == |cells|
    ensures forall k :: 0 <= k < |cells| ==> ks[k] == KeyOf(cells[k])
  {
    seq(|cells|, k requires 0 <= k < |cells| => KeyOf(cells[k]))
  }

  /** The lexicographic order pandas groupby sorts (column, row) keys in. */
  predicate KeyBefore(a: (nat, nat), b: (nat, nat)) {
    a.0 < b.0 || (a.0 == b.0 && a.1 < b.1)
  }

  predicate StrictlySorted(keys: seq<(nat, nat)>) {
    forall i, j :: 0 <= i < j < |keys| ==> KeyBefore(keys[i], keys[j])
  }

  function InsertKey(key: (nat, nat), keys: seq<(nat, nat)>): (r: seq<(nat, nat)>)
    requires StrictlySorted(keys)
    ensures StrictlySorted(r)
    ensures forall x :: x in r <==> x in keys || x == key
  {
    if keys == [] then [key]
    else if key == keys[0] then keys
    else if KeyBefore(key, keys[0]) then [key] + keys
    else
      assert forall x :: x in keys <==> x == keys[0] || x in keys[1..];
      assert KeyBefore(keys[0], key);
      var rest := InsertKey(key, keys[1..]);
      assert forall x :: x in rest ==> KeyBefore(keys[0], x);
      [keys[0]] + rest
  }

  /** The distinct (column, row) keys of the tokens, in sorted order. */
  function GroupKeys(cells: seq<Placed>): (keys: seq<(nat, nat)>)
    ensures StrictlySorted(keys)
    ensures forall x :: x in keys <==> x in KeysOf(cells)
  {
    if cells == [] then []
    else
      var init := cells[..|cells| - 1];
      assert forall x :: x in KeysOf(cells) <==> x in KeysOf(init) || x == KeyOf(cells[|cells| - 1]) by {
        assert KeysOf(cells) == KeysOf(init) + [KeyOf(cells[|cells| - 1])];
      }
      InsertKey(KeyOf(cells[|cells| - 1]), GroupKeys(init))
  }

  lemma SortedKeysDistinct(keys: seq<(nat, nat)>)
    requires StrictlySorted(keys)
    ensures Distinct(keys)
  {
  }

  /** The tokens with the given key, in input order (one groupby group). */
  function Members(cells: seq<Placed>, key: (nat, nat)): (m: seq<Placed>)
    ensures |m| <= |cells|
  {
    if cells == [] then []
    else
      var last := cells[|cells| - 1];
      Members(cells[..|cells| - 1], key) + if KeyOf(last) == key then [last] else []
  }

  /** A group holds exactly the tokens with its key. */
  lemma {:induction false} MembersSpec(cells: seq<Placed>, key: (nat, nat))
    ensures forall p :: p in Members(cells, key) <==> p in cells && KeyOf(p) == key
  {
    if cells != [] {
      var init, last := cells[..|cells| - 1], cells[|cells| - 1];
      MembersSpec(init, key);
      assert cells == init + [last];
    }
  }

  /** A group is empty exactly when no token has its key. */
  lemma MembersEmpty(cells: seq<Placed>, key: (nat, nat))
    ensures Members(cells, key) == [] <==> key !in KeysOf(cells)
  {
    MembersSpec(cells, key);
    var m := Members(cells, key);
    if m != [] {
      assert m[0] in m;
      var k :| 0 <= k < |cells| && cells[k] == m[0];
      assert KeysOf(cells)[k] == key;
    }
    if key in KeysOf(cells) {
      var k :| 0 <= k < |cells| && KeysOf(cells)[k] == key;
      assert cells[k] in m;
    }
  }

  function Texts(m: seq<Placed>): (ts: seq<string>)
    ensures |ts| == |m|
    ensures forall i :: 0 <= i < |m| ==> ts[i] == m[i].box.text
  {
    seq(|m|, i requires 0 <= i < |m| => m[i].box.text)
  }

  function Tops(m: seq<Placed>): seq<int> {
    seq(|m|, i requires 0 <= i < |m| => m[i].box.top)
  }

  function Widths(m: seq<Placed>): seq<int> {
    seq(|m|, i requires 0 <= i < |m| => m[i].box.width)
  }

  function Heights(m: seq<Placed>): seq<int> {
    seq(|m|, i requires 0 <= i < |m| => m[i].box.height)
  }

  /** The concatenation of " " + t over the texts, in order. */
  function SpaceJoined(texts: seq<string>): string {
    if texts == [] then "" else SpaceJoined(texts[..|texts| - 1]) + " " + texts[|texts| - 1]
  }

  /** a is the aggregate of the group m: the first member's left, the least top,
      the summed width, the greatest height and the space-joined text. */
  predicate Summarises(a: Aggregated, m: seq<Placed>) {
    m != [] && a.left == m[0].box.left && a.top == Min(Tops(m)) && a.width == Sum(Widths(m))
    && a.height == Max(Heights(m)) && a.text == SpaceJoined(Texts(m))
  }

  /** The record of one group: one pass of the loop over the groups. */
  method AggregateGroup(df: seq<Placed>) returns (a: Aggregated)
    requires df != []
    ensures Summarises(a, df)
    ensures (a.column, a.row) == KeyOf(df[0])
  {
    var left := df[0].box.left;
    var top := Min(Tops(df));
    var width := Sum(Widths(df));
    var height := Max(Heights(df));
    var text := "";
    var column := df[0].column;
    var row := df[0].row;
    for e := 0 to |df|
      invariant text == SpaceJoined(Texts(df)[..e])
    {
      assert Texts(df)[..e + 1][..e] == Texts(df)[..e];
      text := text + " " + df[e].box.text;
    }
    assert Texts(df)[..|df|] == Texts(df);
    a := Aggregated(left, top, width, height, text, row, column);
  }

  method AggregateTextBoxes(cells: seq<Placed>) returns (agg: seq<Aggregated>)
    ensures |agg| == |GroupKeys(cells)|
    ensures forall i :: 0 <= i < |agg| ==> (agg[i].column, agg[i].row) == GroupKeys(cells)[i]
    ensures forall i :: 0 <= i < |agg| ==> Summarises(agg[i], Members(cells, (agg[i].column, agg[i].row)))
  {
    var grouped := GroupKeys(cells);
    agg := [];
    for g := 0 to |grouped|
      invariant |agg| == g
      invariant forall i :: 0 <= i < g ==> (agg[i].column, agg[i].row) == grouped[i]
      invariant forall i :: 0 <= i < g ==> Summarises(agg[i], Members(cells, (agg[i].column, agg[i].row)))
    {
      var df := Members(cells, grouped[g]);
      MembersEmpty(cells, grouped[g]);
      MembersSpec(cells, grouped[g]);
      assert df[0] in df;
      var record := AggregateGroup(df);
      agg := agg + [record];
    }
  }

  // ---------------------------------------------------------------------------
  // text_boxes_to_table: the rectangular grid and its header
  // ---------------------------------------------------------------------------

  /** The first aggregated record at row i, column j (the .loc lookup with .iloc[0]). */
  function Lookup(agg: seq<Aggregated>, i: int, j: int): (r: Option<Aggregated>)
    ensures r.Some? ==> r.value in agg && r.value.row == i && r.value.column == j
    ensures r.None? ==> forall a :: a in agg ==> !(a.row == i && a.column == j)
  {
    if agg == [] then None
    else if agg[0].row == i && agg[0].column == j then Some(agg[0])
    else Lookup(agg[1..], i, j)
  }

  /** Grid cell (i, j): the stripped aggregated text of the tokens at row i and
      column j, or None when there are none. */
  function GridCell(cells: seq<Placed>, i: nat, j: nat): Cell {
    var m := Members(cells, (j, i));
    if m == [] then None else Some(Strip(SpaceJoined(Texts(m))))
  }

  /** Each token lies in exactly one grid cell: the one at its own row and column. */
  lemma TokenInOneCell(cells: seq<Placed>, k: nat)
    requires k < |cells|
    ensures GridCell(cells, cells[k].row, cells[k].column).Some?
    ensures forall i: nat, j: nat :: cells[k] in Members(cells, (j, i)) <==> i == cells[k].row && j == cells[k].column
  {
    forall i: nat, j: nat
      ensures cells[k] in Members(cells, (j, i)) <==> i == cells[k].row && j == cells[k].column
    {
      MembersSpec(cells, (j, i));
    }
    MembersSpec(cells, KeyOf(cells[k]));
  }

  /** Keys of the aggregated records are exactly the tokens' keys, so their
      row and column maxima agree with the tokens'. */
  lemma AggregatedMaxima(cells: seq<Placed>, agg: seq<Aggregated>)
    requires cells != []
    requires |agg| == |GroupKeys(cells)|
    requires forall i :: 0 <= i < |agg| ==> (agg[i].column, agg[i].row) == GroupKeys(cells)[i]
    ensures agg != []
    ensures Max(Map(RecordRow, agg)) == Max(Map(RowOf, cells)) && Max(Map(RecordColumn, agg)) == Max(Map(ColumnOf, cells))
  {
    assert KeyOf(cells[0]) in KeysOf(cells);
    forall x | x in Map(RecordRow, agg) ensures x in Map(RowOf, cells) {
      var i :| 0 <= i < |agg| && Map(RecordRow, agg)[i] == x;
      assert GroupKeys(cells)[i] in KeysOf(cells);
      var k :| 0 <= k < |cells| && KeysOf(cells)[k] == GroupKeys(cells)[i];
      assert Map(RowOf, cells)[k] == x;
    }
    forall x | x in Map(RowOf, cells) ensures x in Map(RecordRow, agg) {
      var k :| 0 <= k < |cells| && Map(RowOf, cells)[k] == x;
      assert KeysOf(cells)[k] in GroupKeys(cells);
      var i :| 0 <= i < |agg| && GroupKeys(cells)[i] == KeysOf(cells)[k];
      assert Map(RecordRow, agg)[i] == x;
    }
    forall x | x in Map(RecordColumn, agg) ensures x in Map(ColumnOf, cells) {
      var i :| 0 <= i < |agg| && Map(RecordColumn, agg)[i] == x;
      assert GroupKeys(cells)[i] in KeysOf(cells);
      var k :| 0 <= k < |cells| && KeysOf(cells)[k] == GroupKeys(cells)[i];
      assert Map(ColumnOf, cells)[k] == x;
    }
    forall x | x in Map(ColumnOf, cells) ensures x in Map(RecordColumn, agg) {
      var k :| 0 <= k < |cells| && Map(ColumnOf, cells)[k] == x;
      assert KeysOf(cells)[k] in GroupKeys(cells);
      var i :| 0 <= i < |agg| && GroupKeys(cells)[i] == KeysOf(cells)[k];
      assert Map(RecordColumn, agg)[i] == x;
    }
    MaxOfSameValues(Map(RecordRow, agg), Map(RowOf, cells));
    MaxOfSameValues(Map(RecordColumn, agg), Map(ColumnOf, cells));
  }

  /** The lookup in the aggregated records yields exactly the grid cell. */
  lemma LookupIsGridCell(cells: seq<Placed>, agg: seq<Aggregated>, i: nat, j: nat)
    requires |agg| == |GroupKeys(cells)|
    requires forall t :: 0 <= t < |agg| ==> (agg[t].column, agg[t].row) == GroupKeys(cells)[t]
    requires forall t :: 0 <= t < |agg| ==> Summarises(agg[t], Members(cells, (agg[t].column, agg[t].row)))
    ensures GridCell(cells, i, j) == match Lookup(agg, i, j) case None => None case Some(a) => Some(Strip(a.text))
  {
    var m := Members(cells, (j, i));
    MembersEmpty(cells, (j, i));
    match Lookup(agg, i, j)
    case None =>
    case Some(a) =>
      var t :| 0 <= t < |agg| && agg[t] == a;
      assert Summarises(agg[t], m);
  }

  /** What the loop appends for (i, j): None when no record matches, else the
      stripped text of the first match. */
  function AggCell(agg: seq<Aggregated>, i: nat, j: nat): Cell {
    match Lookup(agg, i, j)
    case None => None
    case Some(a) => Some(Strip(a.text))
  }

  /** Row i of the grid as the loop builds it. */
  function AggRow(agg: seq<Aggregated>, i: nat, amountColumns: nat): (row: seq<Cell>)
    ensures |row| == amountColumns
    ensures forall j :: 0 <= j < amountColumns ==> row[j] == AggCell(agg, i, j)
  {
    seq(amountColumns, j requires 0 <= j < amountColumns => AggCell(agg, i, j))
  }

  /** One pass of the inner loop of text_boxes_to_table: row i of the grid. */
  method GridRow(agg: seq<Aggregated>, i: nat, amountColumns: nat) returns (row: seq<Cell>)
    ensures row == AggRow(agg, i, amountColumns)
  {
    row := [];
    for j := 0 to amountColumns
      invariant |row| == j
      invariant forall b :: 0 <= b < j ==> row[b] == AggCell(agg, i, b)
    {
      var result := Lookup(agg, i, j);
      if result.None? {
        row := row + [None];
      } else {
        row := row + [Some(Strip(result.value.text))];
      }
    }
    assert row == AggRow(agg, i, amountColumns);
  }

  /** The outer loop of text_boxes_to_table: the rows of the grid. */
  method GridRows(agg: seq<Aggregated>, amountRows: nat, amountColumns: nat) returns (data: seq<seq<Cell>>)
    ensures |data| == amountRows
    ensures forall a :: 0 <= a < amountRows ==> data[a] == AggRow(agg, a, amountColumns)
  {
    data := [];
    for i := 0 to amountRows
      invariant |data| == i
      invariant forall a :: 0 <= a < i ==> data[a] == AggRow(agg, a, amountColumns)
    {
      var row := GridRow(agg, i, amountColumns);
      data := data + [row];
    }
  }

  /** Rows built from the aggregated records are the grid of the tokens. */
  lemma GridOfAggregates(cells: seq<Placed>, agg: seq<Aggregated>, data: seq<seq<Cell>>, amountColumns: nat)
    requires |agg| == |GroupKeys(cells)|
    requires forall t :: 0 <= t < |agg| ==> (agg[t].column, agg[t].row) == GroupKeys(cells)[t]
    requires forall t :: 0 <= t < |agg| ==> Summarises(agg[t], Members(cells, (agg[t].column, agg[t].row)))
    requires forall a :: 0 <= a < |data| ==> data[a] == AggRow(agg, a, amountColumns)
    ensures forall a :: 0 <= a < |data| ==> |data[a]| == amountColumns
    ensures forall a, b :: 0 <= a < |data| && 0 <= b < amountColumns ==> data[a][b] == GridCell(cells, a, b)
  {
    forall a, b | 0 <= a < |data| && 0 <= b < amountColumns
      ensures data[a][b] == GridCell(cells, a, b)
    {
      assert data[a] == AggRow(agg, a, amountColumns);
      LookupIsGridCell(cells, agg, a, b);
    }
  }

  /** f is the table built from the tokens: one column per column index, the
      header from row 0 and a data row for each row from 1 to the largest, each
      cell the stripped text of the tokens placed there, or None. */
  predicate IsGridOf(f: Frame, cells: seq<Placed>) {
    && cells != [] && Rectangular(f)
    && |f.columns| == Max(Map(ColumnOf, cells)) + 1 && |f.rows| == Max(Map(RowOf, cells))
    && (forall j :: 0 <= j < |f.columns| ==> f.columns[j] == GridCell(cells, 0, j))
    && (forall i, j :: 0 <= i < |f.rows| && 0 <= j < |f.columns| ==> f.rows[i][j] == GridCell(cells, i + 1, j))
  }

  method TextBoxesToTable(cells: seq<Placed>) returns (r: Result<Frame>)
    ensures r.Err? <==> cells == []
    ensures r.Err? ==> r.error == ValueError
    ensures r.Ok? ==> IsGridOf(r.value, cells)
  {
    var agg := AggregateTextBoxes(cells);
    if cells == [] {
      // int(NaN): the maximum row of an empty frame is NaN
      return Err(ValueError);
    }
    AggregatedMaxima(cells, agg);
    var amountRows: nat := Max(Map(RecordRow, agg)) + 1;
    var amountColumns: nat := Max(Map(RecordColumn, agg)) + 1;
    var data := GridRows(agg, amountRows, amountColumns);
    GridOfAggregates(cells, agg, data, amountColumns);
    r := Ok(Frame(data[0], data[1..]));
  }

  // ---------------------------------------------------------------------------
  // get_borderless_table: the whole borderless pipeline
  // ---------------------------------------------------------------------------

  function YMiddles(boxes: seq<TextBox>): seq<int> {
    seq(|boxes|, k requires 0 <= k < |boxes| => boxes[k].yMiddle)
  }

  function XMiddles(boxes: seq<TextBox>): seq<int> {
    seq(|boxes|, k requires 0 <= k < |boxes| => boxes[k].xMiddle)
  }

  function Place(boxes: seq<TextBox>, rows: seq<nat>, columns: seq<nat>): (cells: seq<Placed>)
    requires |rows| == |boxes| && |columns| == |boxes|
    ensures |cells| == |boxes|
    ensures forall k :: 0 <= k < |boxes| ==> cells[k] == Placed(boxes[k], rows[k], columns[k])
  {
    seq(|boxes|, k requires 0 <= k < |boxes| => Placed(boxes[k], rows[k], columns[k]))
  }

  /** scipy's fclusterdata(points, t, criterion='distance'), with fcluster
      giving one cluster id per point: the linkage it builds refuses the empty
      distance matrix of a single point with ValueError. */
  function FClusterData(fcluster: (seq<int>, int) -> seq<int>, points: seq<int>, t: int): (r: Result<seq<int>>)
    requires forall points, t :: |fcluster(points, t)| == |points|
    ensures r.Err? <==> |points| < 2
    ensures r.Err? ==> r.error == ValueError
    ensures r.Ok? ==> |r.value| == |points|
  {
    if |points| < 2 then Err(ValueError) else Ok(fcluster(points, t))
  }

  /** assign_rows: the row of every token from the clustering of the y
      centres; an empty frame has no y_middle column. */
  method ClusterRows(boxes: seq<TextBox>, fcluster: (seq<int>, int) -> seq<int>) returns (r: Result<seq<nat>>)
    requires forall points, t :: |fcluster(points, t)| == |points|
    ensures r.Err? <==> |boxes| < 2
    ensures r.Err? ==> r.error == if boxes == [] then KeyError else ValueError
    ensures r.Ok? ==> NumbersByPosition(fcluster(YMiddles(boxes), MaxDistRows), r.value)
  {
    if boxes == [] {
      return Err(KeyError);
    }
    var clusters := FClusterData(fcluster, YMiddles(boxes), MaxDistRows);
    if clusters.Err? {
      return Err(clusters.error);
    }
    var indexes := ClusteringIndexes(clusters.value);
    r := Ok(indexes);
  }

  /** assign_columns: the column of every token from the clustering of the x
      centres; an empty frame has no x_middle column. */
  method ClusterColumns(boxes: seq<TextBox>, fcluster: (seq<int>, int) -> seq<int>) returns (r: Result<seq<nat>>)
    requires forall points, t :: |fcluster(points, t)| == |points|
    ensures r.Err? <==> |boxes| < 2
    ensures r.Err? ==> r.error == if boxes == [] then KeyError else ValueError
    ensures r.Ok? ==> NumbersByPosition(fcluster(XMiddles(boxes), MaxDistColumns), r.value)
  {
    if boxes == [] {
      return Err(KeyError);
    }
    var clusters := FClusterData(fcluster, XMiddles(boxes), MaxDistColumns);
    if clusters.Err? {
      return Err(clusters.error);
    }
    var indexes := ClusteringIndexes(clusters.value);
    r := Ok(indexes);
  }

  /** get_borderless_table: the tokens, their rows and columns from the
      clustering of their centres, the vertical-line split, then the grid.
      cells are the placed tokens the grid is built from. */
  method GetBorderlessTable(ocr: seq<OcrRow>, fcluster: (seq<int>, int) -> seq<int>, vertLines: seq<Line>)
    returns (r: Result<Frame>, ghost cells: seq<Placed>)
    requires forall points, t :: |fcluster(points, t)| == |points|
    ensures r.Err? <==> StripFails(ocr) || |GetTextBoxes(ocr)| < 2
    ensures StripFails(ocr) ==> r == Err(AttributeError)
    ensures !StripFails(ocr) && GetTextBoxes(ocr) == [] ==> r == Err(KeyError)
    ensures !StripFails(ocr) && |GetTextBoxes(ocr)| == 1 ==> r == Err(ValueError)
    ensures r.Ok? ==> |cells| == |GetTextBoxes(ocr)| && forall k :: 0 <= k < |cells| ==> cells[k].box == GetTextBoxes(ocr)[k]
    ensures r.Ok? ==> NumbersByPosition(fcluster(YMiddles(GetTextBoxes(ocr)), MaxDistRows), Map(RowOf, cells))
    ensures r.Ok? ==> NumbersByPosition(fcluster(XMiddles(GetTextBoxes(ocr)), MaxDistColumns), Map(ColumnOf, cells))
    ensures r.Ok? ==> IsGridOf(r.value, cells)
  {
    if StripFails(ocr) {
      return Err(AttributeError), [];
    }
    var boxes := GetTextBoxes(ocr);
    var rows := ClusterRows(boxes, fcluster);
    if rows.Err? {
      return Err(rows.error), [];
    }
    var columns := ClusterColumns(boxes, fcluster);
    var placed := Place(boxes, rows.value, columns.value);
    assert Map(RowOf, placed) == rows.value && Map(ColumnOf, placed) == columns.value;
    var split, _ := SplitColumnsOnVertLines(placed, vertLines);
    r := TextBoxesToTable(split);
    cells := split;
  }
}
