/** Merging the tables found on the pages of one form component: blank cells
    become missing, empty rows go, similar column names are unified by a
    fuzzy scorer, and the rows are stacked under the unified header. */
module TableMerge {
  import opened Common

  /** The fuzzy scorer behind process.extract: a score from 0 to 100 for a
      query against a choice. */
  type Scorer = (Label, Label) -> nat

  /** A best score strictly above this means the name is already known. */
  const MatchThreshold: nat := 96

  // ---------------------------------------------------------------- cleaning

  /** replace([" ", ""], NaN) on one cell. */
  function CleanCell(c: Cell): (d: Cell)
    ensures d.None? <==> c.None? || c == Some(" ") || c == Some("")
    ensures d.Some? ==> d == c
  {
    if c == Some(" ") || c == Some("") then None else c
  }

  function CleanRow(row: seq<Cell>): (r: seq<Cell>)
    ensures |r| == |row|
    ensures forall k :: 0 <= k < |row| ==> r[k] == CleanCell(row[k])
  {
    Map(CleanCell, row)
  }

  /** dropna(how='all') keeps a row iff some cell is present. */
  predicate HasData(row: seq<Cell>) {
    exists k :: 0 <= k < |row| && row[k].Some?
  }

  /** clean_dataframe: blank cells become missing, then the rows with no data
      are dropped; the columns are never touched. */
  function CleanDataframe(df: Frame): (r: Frame)
    ensures r.columns == df.columns
    ensures |r.rows| <= |df.rows|
  {
    Frame(df.columns, Filter(HasData, Map(CleanRow, df.rows)))
  }

  /** A row survives cleaning iff it is the cleaned form of an input row and
      still holds some data. */
  lemma CleanDataframeRows(df: Frame, x: seq<Cell>)
    ensures x in CleanDataframe(df).rows <==>
      (exists i :: 0 <= i < |df.rows| && x == CleanRow(df.rows[i])) && HasData(x)
  {
    var cleaned := Map(CleanRow, df.rows);
    FilterMembers(HasData, cleaned, x);
    if x in cleaned {
      var i :| 0 <= i < |cleaned| && cleaned[i] == x;
      assert x == CleanRow(df.rows[i]);
    }
  }

  /** Cleaning works row by row, so the rows keep their order: cleaning a
      frame whose rows are a + b gives the cleaned a followed by the cleaned b. */
  lemma CleanDataframeAppend(columns: seq<Label>, a: seq<seq<Cell>>, b: seq<seq<Cell>>)
    ensures CleanDataframe(Frame(columns, a + b)).rows
         == CleanDataframe(Frame(columns, a)).rows + CleanDataframe(Frame(columns, b)).rows
  {
    MapAppend(CleanRow, a, b);
    FilterAppend(HasData, Map(CleanRow, a), Map(CleanRow, b));
  }

  /** Alone, a row is dropped iff it has no data once cleaned. */
  lemma CleanDataframeSingle(columns: seq<Label>, row: seq<Cell>)
    ensures CleanDataframe(Frame(columns, [row])).rows
         == if HasData(CleanRow(row)) then [CleanRow(row)] else []
  {
    assert [row][..0] == [];
  }

  /** Every row of a DataFrame keeps one cell per column. */
  lemma CleanDataframeRectangular(df: Frame)
    requires Rectangular(df)
    ensures Rectangular(CleanDataframe(df))
  {
    var r := CleanDataframe(df);
    forall i | 0 <= i < |r.rows|
      ensures |r.rows[i]| == |r.columns|
    {
      CleanDataframeRows(df, r.rows[i]);
    }
  }

  lemma CleanRowIdempotent(row: seq<Cell>)
    ensures CleanRow(CleanRow(row)) == CleanRow(row)
  {
  }

  lemma {:induction false} KeptRowsClean(rows: seq<seq<Cell>>)
    ensures Filter(HasData, Map(CleanRow, Filter(HasData, Map(CleanRow, rows))))
         == Filter(HasData, Map(CleanRow, rows))
  {
    if rows != [] {
      var init, last := rows[..|rows| - 1], rows[|rows| - 1];
      assert rows == init + [last];
      KeptRowsClean(init);
      MapAppend(CleanRow, init, [last]);
      var kept := Filter(HasData, Map(CleanRow, init));
      var tail := Filter(HasData, Map(CleanRow, [last]));
      FilterAppend(HasData, Map(CleanRow, init), Map(CleanRow, [last]));
      CleanRowIdempotent(last);
      assert Map(CleanRow, [last])[..0] == [];
      assert Map(CleanRow, tail) == tail;
      MapAppend(CleanRow, kept, tail);
      FilterAppend(HasData, Map(CleanRow, kept), tail);
      assert Filter(HasData, tail) == tail;
    }
  }

  /** Cleaning a cleaned frame changes nothing. */
  lemma CleanDataframeIdempotent(df: Frame)
    ensures CleanDataframe(CleanDataframe(df)) == CleanDataframe(df)
  {
    KeptRowsClean(df.rows);
  }

  // ------------------------------------------------------ canonical columns

  /** process.extract(query, names)[0]: the best-scoring name, the earliest
      one on ties (the sort behind it is stable). */
  function BestIndex(scorer: Scorer, query: Label, names: seq<Label>): (i: nat)
    requires names != []
    ensures i < |names|
    ensures forall j :: 0 <= j < |names| ==> scorer(query, names[j]) <= scorer(query, names[i])
    ensures forall j :: 0 <= j < i ==> scorer(query, names[j]) < scorer(query, names[i])
  {
    if |names| == 1 then 0
    else
      var best := BestIndex(scorer, query, names[..|names| - 1]);
      if scorer(query, names[|names| - 1]) > scorer(query, names[best]) then |names| - 1 else best
  }

  /** The canonical column names found so far and the translation from every
      name seen to its canonical name. */
  datatype Canon = Canon(names: seq<Label>, translator: map<Label, Label>)

  /** True iff no known name scores above the threshold against name. */
  predicate IsNewName(scorer: Scorer, names: seq<Label>, name: Label) {
    forall j :: 0 <= j < |names| ==> scorer(name, names[j]) <= MatchThreshold
  }

  /** process.extract gives up at once on an empty choice list, and
      otherwise runs fuzzywuzzy's default processor, a regular-expression
      substitution, over the query: a missing (None) name raises TypeError
      once some name is known. The choices are turned into strings before
      they are processed, so a None that is already a canonical name is
      scored as the string "None" (the scorer's business) and raises
      nothing. */
  predicate QueryRaises(c: Canon, name: Label) {
    c.names != [] && name.None?
  }

  /** One pass of the inner loop of merge_dataframes, for one column name,
      when its query does not raise. */
  function Step(scorer: Scorer, c: Canon, name: Label): (d: Canon)
    ensures d.translator.Keys == c.translator.Keys + {name}
    ensures forall k :: k in c.translator && k != name ==> d.translator[k] == c.translator[k]
    ensures IsNewName(scorer, c.names, name) ==>
      d.names == c.names + [name] && d.translator[name] == name
    ensures !IsNewName(scorer, c.names, name) ==>
      d.names == c.names && d.translator[name] == c.names[BestIndex(scorer, name, c.names)]
  {
    if c.names == [] then Canon(c.names + [name], c.translator[name := name])
    else
      var best := BestIndex(scorer, name, c.names);
      if scorer(name, c.names[best]) > MatchThreshold then Canon(c.names, c.translator[name := c.names[best]])
      else Canon(c.names + [name], c.translator[name := name])
  }

  /** The state after the inner loop has seen the given names, in order. */
  function Canonicalise(scorer: Scorer, labels: seq<Label>): Canon {
    if labels == [] then Canon([], map[])
    else Step(scorer, Canonicalise(scorer, labels[..|labels| - 1]), labels[|labels| - 1])
  }

  lemma CanonicaliseSnoc(scorer: Scorer, labels: seq<Label>, name: Label)
    ensures Canonicalise(scorer, labels + [name]) == Step(scorer, Canonicalise(scorer, labels), name)
  {
    assert (labels + [name])[..|labels|] == labels;
  }

  lemma CanonicaliseExtend(scorer: Scorer, seen: seq<Label>, columns: seq<Label>, k: nat)
    requires k < |columns|
    ensures Canonicalise(scorer, seen + columns[..k + 1])
         == Step(scorer, Canonicalise(scorer, seen + columns[..k]), columns[k])
  {
    assert seen + columns[..k + 1] == (seen + columns[..k]) + [columns[k]];
    CanonicaliseSnoc(scorer, seen + columns[..k], columns[k]);
  }

  /** Every name seen has a translation, every translation is a canonical
      name, and every canonical name was seen. */
  predicate WellFormed(c: Canon, labels: seq<Label>) {
    && c.translator.Keys == Seen(labels)
    && (forall l :: l in c.translator ==> c.translator[l] in c.names)
    && (forall j :: 0 <= j < |c.names| ==> c.names[j] in labels)
  }

  function Seen(labels: seq<Label>): set<Label> {
    set l | l in labels
  }

  /** One step keeps the translator total on what was seen and inside the
      canonical list. */
  lemma StepWellFormed(scorer: Scorer, c: Canon, seen: seq<Label>, name: Label)
    requires WellFormed(c, seen)
    ensures WellFormed(Step(scorer, c, name), seen + [name])
  {
    var d := Step(scorer, c, name);
    assert Seen(seen + [name]) == Seen(seen) + {name};
    forall j | 0 <= j < |d.names| ensures d.names[j] in seen + [name] {
      if j < |c.names| {
        assert d.names[j] == c.names[j];
      }
    }
    forall l | l in d.translator ensures d.translator[l] in d.names {
      if l != name {
        assert d.translator[l] == c.translator[l];
      }
    }
  }

  lemma {:induction false} CanonicaliseWellFormed(scorer: Scorer, labels: seq<Label>)
    ensures WellFormed(Canonicalise(scorer, labels), labels)
  {
    if labels != [] {
      var init, last := labels[..|labels| - 1], labels[|labels| - 1];
      LastSplit(labels);
      CanonicaliseWellFormed(scorer, init);
      StepWellFormed(scorer, Canonicalise(scorer, init), init, last);
    }
  }

  /** The canonical list only grows: an earlier state's list is a prefix of a
      later one's. */
  lemma {:induction false} CanonicaliseGrows(scorer: Scorer, labels: seq<Label>, more: seq<Label>)
    ensures Canonicalise(scorer, labels).names <= Canonicalise(scorer, labels + more).names
  {
    if more != [] {
      var init, last := more[..|more| - 1], more[|more| - 1];
      CanonicaliseGrows(scorer, labels, init);
      var c := Canonicalise(scorer, labels + init);
      assert c.names <= Step(scorer, c, last).names;
      ConcatSnoc(labels, more);
      CanonicaliseSnoc(scorer, labels + init, last);
    } else {
      assert labels + more == labels;
    }
  }

  /** Some name is known exactly once some name has been examined. */
  lemma CanonicaliseEmpty(scorer: Scorer, labels: seq<Label>)
    ensures Canonicalise(scorer, labels).names == [] <==> labels == []
  {
    if labels != [] {
      CanonicaliseFirst(scorer, labels);
    }
  }

  /** Some name after the first is missing: its query raises. */
  predicate LabelsRaise(labels: seq<Label>) {
    exists k :: 0 < k < |labels| && labels[k].None?
  }

  lemma LabelsRaiseSnoc(labels: seq<Label>, name: Label)
    ensures LabelsRaise(labels + [name]) <==> LabelsRaise(labels) || (labels != [] && name.None?)
  {
    var s := labels + [name];
    if LabelsRaise(labels) {
      var k :| 0 < k < |labels| && labels[k].None?;
      assert s[k] == labels[k];
    }
    if LabelsRaise(s) {
      var k :| 0 < k < |s| && s[k].None?;
      if k < |labels| {
        assert labels[k] == s[k];
      }
    }
    if labels != [] && name.None? {
      assert s[|labels|] == name;
    }
  }

  lemma LabelsRaisePrefix(labels: seq<Label>, more: seq<Label>)
    requires LabelsRaise(labels)
    ensures LabelsRaise(labels + more)
  {
    var k :| 0 < k < |labels| && labels[k].None?;
    assert (labels + more)[k] == labels[k];
  }

  /** The query of the name at position k of labels raises exactly when a
      name came before it and it is missing. */
  lemma QueryRaisesAt(scorer: Scorer, labels: seq<Label>, k: nat)
    requires k < |labels|
    ensures QueryRaises(Canonicalise(scorer, labels[..k]), labels[k]) <==> k > 0 && labels[k].None?
  {
    CanonicaliseEmpty(scorer, labels[..k]);
  }

  /** The first name examined always becomes the first canonical name. */
  lemma CanonicaliseFirst(scorer: Scorer, labels: seq<Label>)
    requires labels != []
    ensures Canonicalise(scorer, labels).names != []
    ensures Canonicalise(scorer, labels).names[0] == labels[0]
  {
    assert labels == [labels[0]] + labels[1..];
    assert [labels[0]][..0] == [];
    CanonicaliseGrows(scorer, [labels[0]], labels[1..]);
  }

  /** When the scorer gives every name 100 against itself, no name is
      appended twice. */
  lemma {:induction false} CanonicaliseDistinct(scorer: Scorer, labels: seq<Label>)
    requires forall a :: scorer(a, a) == 100
    ensures Distinct(Canonicalise(scorer, labels).names)
  {
    if labels != [] {
      var init, last := labels[..|labels| - 1], labels[|labels| - 1];
      CanonicaliseDistinct(scorer, init);
      var c := Canonicalise(scorer, init);
      if IsNewName(scorer, c.names, last) {
      }
    }
  }

  /** All column names of the frames, frame by frame. */
  function Labels(frames: seq<Frame>): seq<Label> {
    if frames == [] then [] else Labels(frames[..|frames| - 1]) + frames[|frames| - 1].columns
  }

  lemma {:induction false} LabelsContain(frames: seq<Frame>, d: nat, k: nat)
    requires d < |frames| && k < |frames[d].columns|
    ensures frames[d].columns[k] in Labels(frames)
  {
    if d < |frames| - 1 {
      LabelsContain(frames[..|frames| - 1], d, k);
    }
  }

  lemma {:induction false} LabelsAppend(a: seq<Frame>, b: seq<Frame>)
    ensures Labels(a + b) == Labels(a) + Labels(b)
  {
    if b != [] {
      var init, last := b[..|b| - 1], b[|b| - 1];
      LabelsAppend(a, init);
      assert (a + b)[..|a + b| - 1] == a + init;
    } else {
      assert a + b == a;
    }
  }

  lemma LabelsPrefix(frames: seq<Frame>, d: nat)
    requires d < |frames|
    ensures Labels(frames[..d + 1]) == Labels(frames[..d]) + frames[d].columns
  {
    assert frames[..d + 1][..d] == frames[..d];
  }

  /** Cleaning keeps every header. */
  lemma {:induction false} LabelsOfCleaned(frames: seq<Frame>)
    ensures Labels(Map(CleanDataframe, frames)) == Labels(frames)
  {
    if frames != [] {
      LabelsOfCleaned(frames[..|frames| - 1]);
      assert Map(CleanDataframe, frames)[..|frames| - 1] == Map(CleanDataframe, frames[..|frames| - 1]);
    }
  }

  /** The body of the inner loop: process.extract, then either map the name
      to its best match or append it. */
  method AddColumnName(scorer: Scorer, names: seq<Label>, translator: map<Label, Label>, name: Label)
    returns (r: Result<Canon>)
    ensures r.Err? <==> QueryRaises(Canon(names, translator), name)
    ensures r.Err? ==> r.error == TypeError
    ensures r.Ok? ==> r.value == Step(scorer, Canon(names, translator), name)
  {
    if names == [] {
      // process.extract over no choices returns nothing
      r := Ok(Canon(names + [name], translator[name := name]));
    } else if name.None? {
      // the default processor's regular expression refuses None
      r := Err(TypeError);
    } else {
      var best := BestIndex(scorer, name, names);
      if scorer(name, names[best]) > MatchThreshold {
        r := Ok(Canon(names, translator[name := names[best]]));
      } else {
        r := Ok(Canon(names + [name], translator[name := name]));
      }
    }
  }

  /** One more name of a header raises exactly when its query does. */
  lemma ExtendRaises(scorer: Scorer, seen: seq<Label>, columns: seq<Label>, k: nat)
    requires k < |columns|
    ensures Canonicalise(scorer, seen + columns[..k + 1])
         == Step(scorer, Canonicalise(scorer, seen + columns[..k]), columns[k])
    ensures LabelsRaise(seen + columns[..k + 1]) <==>
      LabelsRaise(seen + columns[..k]) || QueryRaises(Canonicalise(scorer, seen + columns[..k]), columns[k])
  {
    var done := seen + columns[..k];
    assert seen + columns[..k + 1] == done + [columns[k]];
    CanonicaliseExtend(scorer, seen, columns, k);
    CanonicaliseEmpty(scorer, done);
    LabelsRaiseSnoc(done, columns[k]);
  }

  lemma PrefixRaises(seen: seq<Label>, columns: seq<Label>, k: nat)
    requires k < |columns| && LabelsRaise(seen + columns[..k + 1])
    ensures LabelsRaise(seen + columns)
  {
    assert seen + columns == (seen + columns[..k + 1]) + columns[k + 1..];
    LabelsRaisePrefix(seen + columns[..k + 1], columns[k + 1..]);
  }

  /** The inner loop over one frame's header. */
  method AddFrameColumns(scorer: Scorer, names: seq<Label>, translator: map<Label, Label>,
                         ghost seen: seq<Label>, columns: seq<Label>)
    returns (r: Result<Canon>)
    requires Canon(names, translator) == Canonicalise(scorer, seen) && !LabelsRaise(seen)
    ensures r.Err? <==> LabelsRaise(seen + columns)
    ensures r.Err? ==> r.error == TypeError
    ensures r.Ok? ==> r.value == Canonicalise(scorer, seen + columns)
  {
    var c := Canon(names, translator);
    assert seen + columns[..0] == seen;
    for k := 0 to |columns|
      invariant c == Canonicalise(scorer, seen + columns[..k])
      invariant !LabelsRaise(seen + columns[..k])
    {
      ExtendRaises(scorer, seen, columns, k);
      r := AddColumnName(scorer, c.names, c.translator, columns[k]);
      if r.Err? {
        PrefixRaises(seen, columns, k);
        return;
      }
      c := r.value;
    }
    assert columns[..|columns|] == columns;
    r := Ok(c);
  }

  /** The two nested loops over the headers that build column_names and
      column_translator. */
  method CanonicalColumns(scorer: Scorer, frames: seq<Frame>) returns (r: Result<Canon>)
    ensures r.Err? <==> LabelsRaise(Labels(frames))
    ensures r.Err? ==> r.error == TypeError
    ensures r.Ok? ==> r.value == Canonicalise(scorer, Labels(frames))
  {
    var c := Canon([], map[]);
    for d := 0 to |frames|
      invariant c == Canonicalise(scorer, Labels(frames[..d]))
      invariant !LabelsRaise(Labels(frames[..d]))
    {
      LabelsPrefix(frames, d);
      r := AddFrameColumns(scorer, c.names, c.translator, Labels(frames[..d]), frames[d].columns);
      if r.Err? {
        assert frames == frames[..d + 1] + frames[d + 1..];
        LabelsAppend(frames[..d + 1], frames[d + 1..]);
        LabelsRaisePrefix(Labels(frames[..d + 1]), Labels(frames[d + 1..]));
        return;
      }
      c := r.value;
    }
    assert frames[..|frames|] == frames;
    r := Ok(c);
  }

  // ---------------------------------------------------------------- output

  /** The header rewritten through the translator, position by position. */
  function Translate(translator: map<Label, Label>, columns: seq<Label>): (r: seq<Label>)
    requires forall k :: 0 <= k < |columns| ==> columns[k] in translator
    ensures |r| == |columns|
    ensures forall k :: 0 <= k < |columns| ==> r[k] == translator[columns[k]]
  {
    seq(|columns|, k requires 0 <= k < |columns| => translator[columns[k]])
  }

  /** The loop that builds merged_columns. */
  method TranslateColumns(translator: map<Label, Label>, columns: seq<Label>) returns (merged: seq<Label>)
    requires forall k :: 0 <= k < |columns| ==> columns[k] in translator
    ensures merged == Translate(translator, columns)
  {
    merged := [];
    for k := 0 to |columns|
      invariant merged == Translate(translator, columns[..k])
    {
      merged := merged + [translator[columns[k]]];
    }
    assert columns[..|columns|] == columns;
  }

  /** Where a name sits in a header (its first place). */
  function IndexOf(s: seq<Label>, x: Label): (i: nat)
    requires x in s
    ensures i < |s| && s[i] == x
    ensures forall j :: 0 <= j < i ==> s[j] != x
  {
    if s[0] == x then 0 else 1 + IndexOf(s[1..], x)
  }

  /** A row laid out under names, as pd.concat aligns columns by name: each
      name takes the cell of the same name, or is missing where the frame
      has no such column. */
  function AlignRow(names: seq<Label>, columns: seq<Label>, row: seq<Cell>): (r: seq<Cell>)
    requires |row| == |columns|
    ensures |r| == |names|
    ensures forall j :: 0 <= j < |names| && names[j] !in columns ==> r[j] == None
  {
    seq(|names|, j requires 0 <= j < |names| =>
      if names[j] in columns then row[IndexOf(columns, names[j])] else None)
  }

  /** With a header free of repeats, no cell whose name is a name is lost:
      it lands under that name. */
  lemma AlignRowKeepsCells(names: seq<Label>, columns: seq<Label>, row: seq<Cell>, k: nat)
    requires |row| == |columns| && Distinct(columns)
    requires k < |columns| && columns[k] in names
    ensures AlignRow(names, columns, row)[IndexOf(names, columns[k])] == row[k]
  {
    var j := IndexOf(names, columns[k]);
    assert IndexOf(columns, names[j]) == k;
  }

  function AlignedRows(names: seq<Label>, f: Frame): (rows: seq<seq<Cell>>)
    requires Rectangular(f)
    ensures |rows| == |f.rows|
    ensures forall i :: 0 <= i < |f.rows| ==> rows[i] == AlignRow(names, f.columns, f.rows[i])
  {
    seq(|f.rows|, i requires 0 <= i < |f.rows| => AlignRow(names, f.columns, f.rows[i]))
  }

  predicate AllRectangular(frames: seq<Frame>) {
    forall i :: 0 <= i < |frames| ==> Rectangular(frames[i])
  }

  /** The rows of the frames, stacked in input order under names. */
  function Stacked(names: seq<Label>, frames: seq<Frame>): seq<seq<Cell>>
    requires AllRectangular(frames)
  {
    if frames == [] then []
    else Stacked(names, frames[..|frames| - 1]) + AlignedRows(names, frames[|frames| - 1])
  }

  lemma StackedPrefix(names: seq<Label>, frames: seq<Frame>, d: nat)
    requires AllRectangular(frames) && d < |frames|
    ensures Stacked(names, frames[..d + 1]) == Stacked(names, frames[..d]) + AlignedRows(names, frames[d])
  {
    assert frames[..d + 1][..d] == frames[..d];
  }

  function RowCount(frames: seq<Frame>): nat {
    if frames == [] then 0 else RowCount(frames[..|frames| - 1]) + |frames[|frames| - 1].rows|
  }

  /** The stack holds exactly as many rows as the frames together, each one
      cell per name. */
  lemma {:induction false} StackedShape(names: seq<Label>, frames: seq<Frame>)
    requires AllRectangular(frames)
    ensures |Stacked(names, frames)| == RowCount(frames)
    ensures forall i :: 0 <= i < |Stacked(names, frames)| ==> |Stacked(names, frames)[i]| == |names|
  {
    if frames != [] {
      StackedShape(names, frames[..|frames| - 1]);
    }
  }

  /** Every column name of the header has a translation. */
  predicate Covers(translator: map<Label, Label>, columns: seq<Label>) {
    forall k :: 0 <= k < |columns| ==> columns[k] in translator
  }

  predicate CoversAll(translator: map<Label, Label>, frames: seq<Frame>) {
    forall d :: 0 <= d < |frames| ==> Covers(translator, frames[d].columns)
  }

  /** df.columns = merged_columns for every frame. */
  function RenameAll(translator: map<Label, Label>, frames: seq<Frame>): (r: seq<Frame>)
    requires CoversAll(translator, frames)
    ensures |r| == |frames|
    ensures forall d :: 0 <= d < |frames| ==>
      r[d] == Frame(Translate(translator, frames[d].columns), frames[d].rows)
    ensures AllRectangular(frames) ==> AllRectangular(r)
  {
    seq(|frames|, d requires 0 <= d < |frames| =>
      Frame(Translate(translator, frames[d].columns), frames[d].rows))
  }

  /** No header repeats a column name. */
  predicate HeadersDistinct(frames: seq<Frame>) {
    forall d :: 0 <= d < |frames| ==> Distinct(frames[d].columns)
  }

  /** The final loop of merge_dataframes: rename each frame in place, then
      concatenate it under names. pd.concat refuses to align a header that
      repeats a name. */
  method StackFrames(names: seq<Label>, translator: map<Label, Label>, cleaned: seq<Frame>)
    returns (r: Result<Frame>, updated: seq<Frame>)
    requires AllRectangular(cleaned) && CoversAll(translator, cleaned)
    ensures |updated| == |cleaned|
    ensures forall d :: 0 <= d < |cleaned| ==> updated[d].rows == cleaned[d].rows
    ensures r.Err? <==> cleaned != [] && (!Distinct(names) || !HeadersDistinct(RenameAll(translator, cleaned)))
    ensures r.Err? ==> r.error == InvalidIndexError
    ensures r.Ok? ==> updated == RenameAll(translator, cleaned)
    ensures r.Ok? ==> r.value == Frame(names, Stacked(names, updated))
  {
    ghost var renamed := RenameAll(translator, cleaned);
    var merged := Frame(names, []);
    updated := cleaned;
    for d := 0 to |cleaned|
      invariant |updated| == |cleaned|
      invariant forall e :: 0 <= e < d ==> updated[e] == renamed[e]
      invariant forall e :: d <= e < |cleaned| ==> updated[e] == cleaned[e]
      invariant d > 0 ==> Distinct(names)
      invariant HeadersDistinct(renamed[..d])
      invariant merged == Frame(names, Stacked(names, renamed[..d]))
    {
      var mergedColumns := TranslateColumns(translator, cleaned[d].columns);
      var df := Frame(mergedColumns, cleaned[d].rows);
      updated := updated[d := df];
      if !Distinct(names) || !Distinct(mergedColumns) {
        r := Err(InvalidIndexError);
        assert !Distinct(names) || !Distinct(renamed[d].columns) by {
          assert mergedColumns == renamed[d].columns;
        }
        return;
      }
      StackedPrefix(names, renamed, d);
      merged := Frame(names, merged.rows + AlignedRows(names, df));
    }
    assert renamed[..|cleaned|] == renamed;
    assert updated == renamed;
    r := Ok(merged);
  }

  /** Every header of the cleaned frames is covered by the translator the
      first loops build. */
  lemma TranslatorCovers(scorer: Scorer, frames: seq<Frame>)
    ensures CoversAll(Canonicalise(scorer, Labels(frames)).translator, frames)
  {
    CanonicaliseWellFormed(scorer, Labels(frames));
    forall d, k | 0 <= d < |frames| && 0 <= k < |frames[d].columns| {
      LabelsContain(frames, d, k);
    }
  }

  /** The frames as the caller holds them after a successful merge: cleaned
      in place and their headers rewritten. */
  function Renamed(scorer: Scorer, frames: seq<Frame>): (r: seq<Frame>)
    ensures |r| == |frames|
  {
    var cleaned := Map(CleanDataframe, frames);
    TranslatorCovers(scorer, cleaned);
    RenameAll(Canonicalise(scorer, Labels(cleaned)).translator, cleaned)
  }

  /** The cleaned, renamed frames keep one cell per column. */
  lemma RenamedRectangular(scorer: Scorer, frames: seq<Frame>)
    requires AllRectangular(frames)
    ensures AllRectangular(Renamed(scorer, frames))
  {
    var cleaned := Map(CleanDataframe, frames);
    forall d | 0 <= d < |frames| ensures Rectangular(cleaned[d]) {
      CleanDataframeRectangular(frames[d]);
    }
  }

  /** What merge_dataframes returns: the fuzzy match's TypeError for a
      missing name after the first, otherwise the cleaned, renamed rows of
      every frame stacked under the canonical names, or the concatenation's
      error when a header repeats a name. */
  function MergeResult(scorer: Scorer, frames: seq<Frame>): Result<Frame>
    requires AllRectangular(frames)
  {
    RenamedRectangular(scorer, frames);
    if LabelsRaise(Labels(frames)) then Err(TypeError)
    else if !Distinct(Canonicalise(scorer, Labels(frames)).names) || !HeadersDistinct(Renamed(scorer, frames)) then
      Err(InvalidIndexError)
    else
      Ok(Frame(Canonicalise(scorer, Labels(frames)).names,
               Stacked(Canonicalise(scorer, Labels(frames)).names, Renamed(scorer, frames))))
  }

  /** merge_dataframes. The result has the canonical names as its header and
      the cleaned rows of every frame, in input order, aligned under it. A
      repeated column name makes the concatenation fail. The second result
      is the list of frames as the caller sees them afterwards. A missing
      name after the first raises TypeError in the fuzzy match, after the
      frames were cleaned and before any is renamed. */
  method MergeDataframes(scorer: Scorer, frames: seq<Frame>) returns (r: Result<Frame>, updated: seq<Frame>)
    requires AllRectangular(frames)
    ensures |updated| == |frames|
    ensures forall d :: 0 <= d < |frames| ==> updated[d].rows == CleanDataframe(frames[d]).rows
    ensures r.Err? <==>
      LabelsRaise(Labels(frames)) ||
      !Distinct(Canonicalise(scorer, Labels(frames)).names) || !HeadersDistinct(Renamed(scorer, frames))
    ensures LabelsRaise(Labels(frames)) ==> r == Err(TypeError) && updated == Map(CleanDataframe, frames)
    ensures r.Err? && !LabelsRaise(Labels(frames)) ==> r.error == InvalidIndexError
    ensures r.Ok? ==> updated == Renamed(scorer, frames) && AllRectangular(updated)
    ensures r.Ok? ==> r.value == Frame(Canonicalise(scorer, Labels(frames)).names, Stacked(r.value.columns, updated))
    ensures r == MergeResult(scorer, frames)
  {
    var cleaned := Map(CleanDataframe, frames);
    forall d | 0 <= d < |frames| ensures Rectangular(cleaned[d]) {
      CleanDataframeRectangular(frames[d]);
    }
    LabelsOfCleaned(frames);
    var canon := CanonicalColumns(scorer, cleaned);
    if canon.Err? {
      return Err(TypeError), cleaned;
    }
    TranslatorCovers(scorer, cleaned);
    r, updated := StackFrames(canon.value.names, canon.value.translator, cleaned);
  }
}
