/** The earlier bordered-table extractor: cell boxes found in the ruling-line
    image are sorted, grouped into rows by their y coordinate, and the boxes
    of every row are put into column buckets by their distance to the centres
    of the last row's boxes. */
module BorderedLegacy {
  import opened Common
  import opened PyStr

  /** cv2.boundingRect: x, y, width, height. */
  datatype Rect = Rect(x: int, y: int, w: int, h: int)

  // ------------------------------------------------------------ stable sort

  /** a has to come strictly before b: a smaller key, or a larger one when
      sorting in reverse. */
  predicate Precedes<T>(key: T -> int, reverse: bool, a: T, b: T) {
    if reverse then key(a) > key(b) else key(a) < key(b)
  }

  /** No element strictly precedes an element placed before it. */
  predicate Ordered<T>(key: T -> int, reverse: bool, s: seq<T>) {
    forall a, b :: 0 <= a < b < |s| ==> !Precedes(key, reverse, s[b], s[a])
  }

  /** x placed before the first element it strictly precedes, so that equal
      keys keep their order. */
  function Insert<T(==)>(key: T -> int, reverse: bool, x: T, t: seq<T>): (r: seq<T>)
    ensures |r| == |t| + 1
    ensures multiset(r) == multiset(t) + multiset{x}
  {
    if t == [] then [x]
    else if Precedes(key, reverse, x, t[0]) then [x] + t
    else
      assert t == [t[0]] + t[1..];
      [t[0]] + Insert(key, reverse, x, t[1..])
  }

  lemma {:induction false} InsertOrdered<T>(key: T -> int, reverse: bool, x: T, t: seq<T>)
    requires Ordered(key, reverse, t)
    ensures Ordered(key, reverse, Insert(key, reverse, x, t))
  {
    if t != [] && !Precedes(key, reverse, x, t[0]) {
      InsertOrdered(key, reverse, x, t[1..]);
      var r := Insert(key, reverse, x, t);
      var rest := Insert(key, reverse, x, t[1..]);
      assert r == [t[0]] + rest;
      forall k | 0 <= k < |rest| ensures !Precedes(key, reverse, rest[k], t[0]) {
        assert rest[k] in multiset(rest);
        assert rest[k] == x || rest[k] in t[1..];
      }
    }
  }

  /** sorted(s, key=key, reverse=reverse): Python's sort is stable, also in
      reverse. */
  function SortBy<T(==)>(key: T -> int, reverse: bool, s: seq<T>): (r: seq<T>)
    ensures |r| == |s|
    ensures multiset(r) == multiset(s)
  {
    if s == [] then []
    else
      LastSplit(s);
      Insert(key, reverse, s[|s| - 1], SortBy(key, reverse, s[..|s| - 1]))
  }

  lemma {:induction false} SortByOrdered<T>(key: T -> int, reverse: bool, s: seq<T>)
    ensures Ordered(key, reverse, SortBy(key, reverse, s))
  {
    if s != [] {
      SortByOrdered(key, reverse, s[..|s| - 1]);
      InsertOrdered(key, reverse, s[|s| - 1], SortBy(key, reverse, s[..|s| - 1]));
    }
  }

  /** The test for the elements whose key is k. */
  function KeyIs<T>(key: T -> int, k: int): T -> bool {
    (x: T) => key(x) == k
  }

  /** x placed in front of an ordered sequence it strictly precedes: no
      element there shares its key. */
  lemma InsertFrontStable<T>(key: T -> int, reverse: bool, x: T, t: seq<T>, k: int)
    requires Ordered(key, reverse, t) && t != [] && Precedes(key, reverse, x, t[0])
    ensures Filter(KeyIs(key, k), [x] + t) == Filter(KeyIs(key, k), t) + if key(x) == k then [x] else []
  {
    var p := KeyIs(key, k);
    FilterAppend(p, [x], t);
    FilterSingle(p, x);
    if key(x) == k {
      forall y | y in t
        ensures !p(y)
      {
        var i :| 0 <= i < |t| && t[i] == y;
        assert i > 0 ==> !Precedes(key, reverse, t[i], t[0]);
      }
      FilterNone(p, t);
    }
  }

  /** The tail of an ordered sequence is ordered. */
  lemma OrderedTail<T>(key: T -> int, reverse: bool, t: seq<T>)
    requires Ordered(key, reverse, t) && t != []
    ensures Ordered(key, reverse, t[1..])
  {
    var rest := t[1..];
    forall a, b | 0 <= a < b < |rest|
      ensures !Precedes(key, reverse, rest[b], rest[a])
    {
      assert rest[a] == t[a + 1] && rest[b] == t[b + 1];
    }
  }

  /** In an ordered sequence x goes after every element with its own key, so
      the elements of each key keep their order and x comes last among its own. */
  lemma {:induction false} InsertStable<T>(key: T -> int, reverse: bool, x: T, t: seq<T>, k: int)
    requires Ordered(key, reverse, t)
    ensures Filter(KeyIs(key, k), Insert(key, reverse, x, t)) == Filter(KeyIs(key, k), t) + if key(x) == k then [x] else []
  {
    var p := KeyIs(key, k);
    if t == [] {
      FilterSingle(p, x);
    } else if Precedes(key, reverse, x, t[0]) {
      InsertFrontStable(key, reverse, x, t, k);
    } else {
      var rest := t[1..];
      OrderedTail(key, reverse, t);
      InsertStable(key, reverse, x, rest, k);
      FilterAppend(p, [t[0]], Insert(key, reverse, x, rest));
      FilterAppend(p, [t[0]], rest);
      assert t == [t[0]] + rest;
    }
  }

  /** sorted is stable: the elements of each key come out in their input order. */
  lemma {:induction false} SortByStable<T>(key: T -> int, reverse: bool, s: seq<T>, k: int)
    ensures Filter(KeyIs(key, k), SortBy(key, reverse, s)) == Filter(KeyIs(key, k), s)
  {
    if s != [] {
      var init := s[..|s| - 1];
      SortByStable(key, reverse, init, k);
      SortByOrdered(key, reverse, init);
      InsertStable(key, reverse, s[|s| - 1], SortBy(key, reverse, init), k);
    }
  }

  // ---------------------------------------------------------- sort_contours

  /** The index sort_contours sorts on: y (1) for the vertical orders, x (0) otherwise. */
  function SortIndex(order: string): (i: nat)
    ensures i == 1 <==> order == "top-to-bottom" || order == "bottom-to-top"
    ensures i == 0 || i == 1
  {
    if order == "top-to-bottom" || order == "bottom-to-top" then 1 else 0
  }

  function SortReverse(order: string): bool {
    order == "right-to-left" || order == "bottom-to-top"
  }

  /** boundingBox[i]: x for index 0, y for index 1. */
  function Coordinate(b: Rect, i: nat): int {
    if i == 1 then b.y else b.x
  }

  function PairKey<C>(i: nat): ((C, Rect)) -> int {
    (p: (C, Rect)) => Coordinate(p.1, i)
  }

  /** zip(cnts, boundingBoxes). */
  function Paired<C>(cnts: seq<C>, boundingRect: C -> Rect): (r: seq<(C, Rect)>)
    ensures |r| == |cnts|
    ensures forall k :: 0 <= k < |cnts| ==> r[k] == (cnts[k], boundingRect(cnts[k]))
  {
    seq(|cnts|, k requires 0 <= k < |cnts| => (cnts[k], boundingRect(cnts[k])))
  }

  function Firsts<C>(s: seq<(C, Rect)>): (r: seq<C>)
    ensures |r| == |s| && forall k :: 0 <= k < |s| ==> r[k] == s[k].0
  {
    seq(|s|, k requires 0 <= k < |s| => s[k].0)
  }

  function Seconds<C>(s: seq<(C, Rect)>): (r: seq<Rect>)
    ensures |r| == |s| && forall k :: 0 <= k < |s| ==> r[k] == s[k].1
  {
    seq(|s|, k requires 0 <= k < |s| => s[k].1)
  }

  /** sort_contours: contours and their bounding boxes sorted together on
      the chosen coordinate. The final unpacking of zip(*...) fails on an
      empty contour list. */
  function SortContours<C(==)>(cnts: seq<C>, boundingRect: C -> Rect, order: string): (r: Result<(seq<C>, seq<Rect>)>)
    ensures r.Err? <==> cnts == []
    ensures r.Err? ==> r.error == ValueError
    ensures r.Ok? ==> |r.value.0| == |cnts| && |r.value.1| == |cnts|
  {
    if cnts == [] then Err(ValueError)
    else
      var sorted := SortBy(PairKey(SortIndex(order)), SortReverse(order), Paired(cnts, boundingRect));
      Ok((Firsts(sorted), Seconds(sorted)))
  }

  /** zip(cnts, boxes) of two lists of one length. */
  function Zip<C>(cnts: seq<C>, boxes: seq<Rect>): (r: seq<(C, Rect)>)
    requires |cnts| == |boxes|
    ensures |r| == |cnts| && forall k :: 0 <= k < |cnts| ==> r[k] == (cnts[k], boxes[k])
  {
    seq(|cnts|, k requires 0 <= k < |cnts| => (cnts[k], boxes[k]))
  }

  /** The sorted (contour, box) pairs are a permutation of the input pairs,
      every box is still its contour's box, and the boxes are ordered on the
      chosen coordinate, descending exactly for the right-to-left and
      bottom-to-top orders. */
  lemma SortContoursSpec<C>(cnts: seq<C>, boundingRect: C -> Rect, order: string)
    requires cnts != []
    ensures var r := SortContours(cnts, boundingRect, order).value;
      && multiset(Zip(r.0, r.1)) == multiset(Paired(cnts, boundingRect))
      && (forall k :: 0 <= k < |r.0| ==> r.1[k] == boundingRect(r.0[k]))
      && (forall a, b :: 0 <= a < b < |r.1| ==>
            if SortReverse(order) then Coordinate(r.1[a], SortIndex(order)) >= Coordinate(r.1[b], SortIndex(order))
            else Coordinate(r.1[a], SortIndex(order)) <= Coordinate(r.1[b], SortIndex(order)))
  {
    var pairs := Paired(cnts, boundingRect);
    var key, reverse := PairKey<C>(SortIndex(order)), SortReverse(order);
    var sorted := SortBy(key, reverse, pairs);
    SortByOrdered(key, reverse, pairs);
    forall k | 0 <= k < |sorted| ensures sorted[k].1 == boundingRect(sorted[k].0) {
      assert sorted[k] in multiset(pairs);
    }
    assert Zip(Firsts(sorted), Seconds(sorted)) == sorted;
  }

  // ------------------------------------------------------- boxes and rows

  /** np.mean of the box heights. */
  function MeanHeight(boxes: seq<Rect>): real
    requires boxes != []
  {
    Sum(Heights(boxes)) as real / |boxes| as real
  }

  function Heights(boxes: seq<Rect>): (hs: seq<int>)
    ensures |hs| == |boxes| && forall k :: 0 <= k < |boxes| ==> hs[k] == boxes[k].h
  {
    seq(|boxes|, k requires 0 <= k < |boxes| => boxes[k].h)
  }

  const MaxCellWidth := 1000
  const MaxCellHeight := 500

  /** A box small enough to be a cell. */
  predicate IsCell(b: Rect) {
    b.w < MaxCellWidth && b.h < MaxCellHeight
  }

  /** A box stays in the row of the box just before it iff its y is at most
      that box's y plus half the mean height. */
  predicate Joins(previous: Rect, b: Rect, half: real) {
    b.y as real <= previous.y as real + half
  }

  /** The boxes cut into maximal runs in which every box joins the one before it. */
  function Runs(s: seq<Rect>, half: real): (r: seq<seq<Rect>>)
    ensures s == [] <==> r == []
  {
    if s == [] then []
    else if |s| == 1 then [[s[0]]]
    else
      var r := Runs(s[..|s| - 1], half);
      if Joins(s[|s| - 2], s[|s| - 1], half) then r[..|r| - 1] + [r[|r| - 1] + [s[|s| - 1]]]
      else r + [[s[|s| - 1]]]
  }

  /** The runs hold the boxes in order, none lost and none repeated. */
  lemma {:induction false} RunsFlatten(s: seq<Rect>, half: real)
    ensures Flatten(Runs(s, half)) == s
  {
    if |s| == 1 {
      assert Runs(s, half) == [] + [[s[0]]];
      FlattenSnoc([], [s[0]]);
    } else if |s| > 1 {
      var r := Runs(s[..|s| - 1], half);
      RunsFlatten(s[..|s| - 1], half);
      LastSplit(s);
      LastSplit(r);
      var front, last := r[..|r| - 1], r[|r| - 1];
      if Joins(s[|s| - 2], s[|s| - 1], half) {
        FlattenSnoc(front, last);
        FlattenSnoc(front, last + [s[|s| - 1]]);
      } else {
        FlattenSnoc(r, [s[|s| - 1]]);
      }
    }
  }

  /** Adding a box either extends the final run or starts a new one. */
  lemma RunsSnoc(s: seq<Rect>, x: Rect, half: real)
    requires s != []
    ensures Runs(s + [x], half) ==
      if Joins(s[|s| - 1], x, half) then Runs(s, half)[..|Runs(s, half)| - 1] + [Runs(s, half)[|Runs(s, half)| - 1] + [x]]
      else Runs(s, half) + [[x]]
  {
    assert (s + [x])[..|s|] == s;
  }

  /** Every run has a box. */
  lemma {:induction false} RunsNonEmpty(s: seq<Rect>, half: real)
    ensures forall k :: 0 <= k < |Runs(s, half)| ==> Runs(s, half)[k] != []
  {
    if |s| > 1 {
      RunsNonEmpty(s[..|s| - 1], half);
    }
  }

  /** Inside a run every box joins the box just before it: the test chains
      from the previous box, not from the first box of the row. */
  lemma {:induction false} RunsChained(s: seq<Rect>, half: real)
    ensures forall k, j :: 0 <= k < |Runs(s, half)| && 0 < j < |Runs(s, half)[k]| ==>
      Joins(Runs(s, half)[k][j - 1], Runs(s, half)[k][j], half)
  {
    if |s| > 1 {
      var init, x := s[..|s| - 1], s[|s| - 1];
      var r, R := Runs(init, half), Runs(s, half);
      RunsChained(init, half);
      var n := |r|;
      if Joins(s[|s| - 2], x, half) {
        forall k, j | 0 <= k < |R| && 0 < j < |R[k]| ensures Joins(R[k][j - 1], R[k][j], half) {
          if k < n - 1 {
            assert R[k] == r[k];
          } else if j < |r[n - 1]| {
            assert R[k][j - 1] == r[n - 1][j - 1] && R[k][j] == r[n - 1][j];
          } else {
            assert R[k][j - 1] == s[|s| - 2];
          }
        }
      } else {
        forall k, j | 0 <= k < |R| && 0 < j < |R[k]| ensures Joins(R[k][j - 1], R[k][j], half) {
          assert k < n;
          assert R[k] == r[k];
        }
      }
    }
  }

  /** The first box of a run does not join the last box of the run before. */
  lemma {:induction false} RunsBroken(s: seq<Rect>, half: real)
    ensures forall k :: 0 <= k < |Runs(s, half)| ==> Runs(s, half)[k] != []
    ensures forall k :: 0 < k < |Runs(s, half)| ==>
      !Joins(Runs(s, half)[k - 1][|Runs(s, half)[k - 1]| - 1], Runs(s, half)[k][0], half)
  {
    RunsNonEmpty(s, half);
    if |s| > 1 {
      var init, x := s[..|s| - 1], s[|s| - 1];
      var r, R := Runs(init, half), Runs(s, half);
      RunsBroken(init, half);
      RunsNonEmpty(init, half);
      var n := |r|;
      if Joins(s[|s| - 2], x, half) {
        forall k | 0 < k < |R| ensures !Joins(R[k - 1][|R[k - 1]| - 1], R[k][0], half) {
          assert R[k - 1] == r[k - 1];
          assert R[k][0] == r[k][0];
        }
      } else {
        forall k | 0 < k < |R| ensures !Joins(R[k - 1][|R[k - 1]| - 1], R[k][0], half) {
          assert R[k - 1] == r[k - 1];
          if k == n {
            assert R[k][0] == x;
          } else {
            assert R[k] == r[k];
          }
        }
      }
    }
  }

  /** The row list the grouping loop emits: every run except a final run of
      one box (the loop only appends the current row when a later box breaks
      it, or when the final box joins it). */
  function EmittedRows(s: seq<Rect>, half: real): (rows: seq<seq<Rect>>)
  {
    if s != [] && |Runs(s, half)[|Runs(s, half)| - 1]| == 1 then Runs(s, half)[..|Runs(s, half)| - 1] else Runs(s, half)
  }

  /** The final run is a single box iff there is one box or the final box
      does not join the one before it. */
  lemma LastRunSingle(s: seq<Rect>, half: real)
    requires s != []
    ensures |Runs(s, half)[|Runs(s, half)| - 1]| == 1 <==> |s| == 1 || !Joins(s[|s| - 2], s[|s| - 1], half)
  {
    if |s| > 1 {
      var r := Runs(s[..|s| - 1], half);
      assert r[|r| - 1] != [];
    }
  }

  /** Rows are missing only for fewer than two boxes. */
  lemma EmittedRowsEmpty(s: seq<Rect>, half: real)
    ensures EmittedRows(s, half) == [] <==> |s| <= 1
  {
    if |s| > 1 {
      LastRunSingle(s, half);
      var r := Runs(s[..|s| - 1], half);
      if !Joins(s[|s| - 2], s[|s| - 1], half) {
        assert |Runs(s, half)| == |r| + 1;
      }
    }
  }

  /** Every emitted row has a box. */
  lemma LastRowNonEmpty(s: seq<Rect>, half: real, rows: seq<seq<Rect>>)
    requires rows == EmittedRows(s, half)
    ensures rows != [] ==> rows[|rows| - 1] != []
  {
    RunsNonEmpty(s, half);
    if rows != [] {
      assert rows[|rows| - 1] == Runs(s, half)[|rows| - 1];
    }
  }

  /** The runs of the first n boxes, built box by box as the loop does. */
  function RunsTo(s: seq<Rect>, n: nat, half: real): (r: seq<seq<Rect>>)
    requires n <= |s|
    ensures n == 0 <==> r == []
  {
    if n == 0 then []
    else if n == 1 then [[s[0]]]
    else if Joins(s[n - 2], s[n - 1], half) then
      RunsTo(s, n - 1, half)[..|RunsTo(s, n - 1, half)| - 1] + [RunsTo(s, n - 1, half)[|RunsTo(s, n - 1, half)| - 1] + [s[n - 1]]]
    else RunsTo(s, n - 1, half) + [[s[n - 1]]]
  }

  /** One more box, built box by box or on the prefix, gives the same runs. */
  lemma RunsToPrefixStep(s: seq<Rect>, n: nat, half: real)
    requires 1 < n <= |s|
    requires RunsTo(s, n - 1, half) == Runs(s[..n - 1], half)
    ensures RunsTo(s, n, half) == Runs(s[..n], half)
  {
    assert s[..n] == s[..n - 1] + [s[n - 1]];
    RunsSnoc(s[..n - 1], s[n - 1], half);
    assert s[..n - 1][n - 2] == s[n - 2];
  }

  /** Built box by box, the runs of the first n boxes are the runs of that prefix. */
  lemma {:induction false} RunsToPrefix(s: seq<Rect>, n: nat, half: real)
    requires n <= |s|
    ensures RunsTo(s, n, half) == Runs(s[..n], half)
  {
    if n > 1 {
      RunsToPrefix(s, n - 1, half);
      RunsToPrefixStep(s, n, half);
    } else if n == 1 {
      assert s[..1] == [s[0]];
    }
  }

  /** After the loop: a last run of one box was never appended, a longer
      one was. */
  lemma GroupRowsDone(boxes: seq<Rect>, mean: real, row: seq<seq<Rect>>, column: seq<Rect>, appendedLast: bool)
    requires boxes == [] ==> row == []
    requires boxes != [] ==> RunsTo(boxes, |boxes|, mean / 2.0) == if appendedLast then row else row + [column]
    requires appendedLast <==> |boxes| >= 2 && Joins(boxes[|boxes| - 2], boxes[|boxes| - 1], mean / 2.0)
    ensures row == EmittedRows(boxes, mean / 2.0)
  {
    var half := mean / 2.0;
    RunsToPrefix(boxes, |boxes|, half);
    assert boxes[..|boxes|] == boxes;
    if boxes != [] {
      LastRunSingle(boxes, half);
      if !appendedLast {
        assert (row + [column])[..|row|] == row;
      }
    }
  }

  /** What the loop of lines 132-147 knows after i boxes: the runs of those
      boxes are the rows emitted so far and the open `column`, unless the
      last box closed the final row. */
  ghost predicate Grouped(boxes: seq<Rect>, half: real, i: nat, row: seq<seq<Rect>>, column: seq<Rect>,
                          previous: Rect, appendedLast: bool)
    requires i <= |boxes|
  {
    && (i == 0 ==> row == [] && column == [] && !appendedLast)
    && (0 < i ==> previous == boxes[i - 1])
    && (0 < i ==> RunsTo(boxes, i, half) == if appendedLast then row else row + [column])
    && (appendedLast <==> i == |boxes| && i >= 2 && Joins(boxes[i - 2], boxes[i - 1], half))
  }

  /** The first box opens the first row. */
  lemma GroupedFirst(boxes: seq<Rect>, half: real, i: nat, row: seq<seq<Rect>>, column: seq<Rect>,
                     previous: Rect, appendedLast: bool)
    requires i == 0 < |boxes| && Grouped(boxes, half, i, row, column, previous, appendedLast)
    ensures Grouped(boxes, half, i + 1, row, column + [boxes[i]], boxes[i], appendedLast)
  {
    assert column + [boxes[0]] == [boxes[0]];
    assert row + [column + [boxes[0]]] == [[boxes[0]]];
  }

  /** A box that joins the one before it extends the open row, which is
      emitted when the box is the last one. */
  lemma GroupedJoin(boxes: seq<Rect>, half: real, i: nat, row: seq<seq<Rect>>, column: seq<Rect>,
                    previous: Rect, appendedLast: bool)
    requires 0 < i < |boxes| && Grouped(boxes, half, i, row, column, previous, appendedLast)
    requires Joins(previous, boxes[i], half)
    ensures i == |boxes| - 1 ==> Grouped(boxes, half, i + 1, row + [column + [boxes[i]]], column + [boxes[i]], boxes[i], true)
    ensures i < |boxes| - 1 ==> Grouped(boxes, half, i + 1, row, column + [boxes[i]], boxes[i], false)
  {
    assert (row + [column])[..|row|] == row;
  }

  /** A box that does not join the one before it closes the open row and
      opens a new one. */
  lemma GroupedBreak(boxes: seq<Rect>, half: real, i: nat, row: seq<seq<Rect>>, column: seq<Rect>,
                     previous: Rect, appendedLast: bool)
    requires 0 < i < |boxes| && Grouped(boxes, half, i, row, column, previous, appendedLast)
    requires !Joins(previous, boxes[i], half)
    ensures Grouped(boxes, half, i + 1, row + [column], [] + [boxes[i]], boxes[i], false)
  {
    assert [] + [boxes[i]] == [boxes[i]];
  }

  /** The loop of lines 132-147: `column` is the row being built and
      `previous` the last box seen. */
  method GroupRows(boxes: seq<Rect>, mean: real) returns (row: seq<seq<Rect>>)
    ensures row == EmittedRows(boxes, mean / 2.0)
  {
    row := [];
    var column: seq<Rect> := [];
    var previous: Rect := Rect(0, 0, 0, 0);
    ghost var appendedLast := false;
    for i := 0 to |boxes|
      invariant Grouped(boxes, mean / 2.0, i, row, column, previous, appendedLast)
    {
      if i == 0 {
        GroupedFirst(boxes, mean / 2.0, i, row, column, previous, appendedLast);
        column := column + [boxes[i]];
        previous := boxes[i];
      } else if boxes[i].y as real <= previous.y as real + mean / 2.0 {
        GroupedJoin(boxes, mean / 2.0, i, row, column, previous, appendedLast);
        column := column + [boxes[i]];
        previous := boxes[i];
        if i == |boxes| - 1 {
          row := row + [column];
          appendedLast := true;
        }
      } else {
        GroupedBreak(boxes, mean / 2.0, i, row, column, previous, appendedLast);
        row := row + [column];
        column := [];
        previous := boxes[i];
        column := column + [boxes[i]];
        appendedLast := false;
      }
    }
    GroupRowsDone(boxes, mean, row, column, appendedLast);
  }

  /** The loop of lines 150-153. Its comparison `countcol > countcol` never
      holds, so countcol is the length of the last row; it stays unbound
      when there is no row. */
  method CountCol(row: seq<seq<Rect>>) returns (countcol: Option<nat>)
    ensures row == [] <==> countcol.None?
    ensures row != [] ==> countcol == Some(|row[|row| - 1]|)
  {
    countcol := None;
    for i := 0 to |row|
      invariant i == 0 <==> countcol.None?
      invariant i > 0 ==> countcol == Some(|row[i - 1]|)
    {
      var n := |row[i]|;
      if n > n {
        n := n;
      }
      countcol := Some(n);
    }
  }

  // ----------------------------------------------------- centres and buckets

  /** int(x + w / 2): the truncated horizontal midpoint. */
  function Centre(b: Rect): int {
    TruncReal(b.x as real + b.w as real / 2.0)
  }

  function Identity(v: int): int {
    v
  }

  /** The sorted midpoints of a row's boxes: the bucket centres. */
  function Centres(last: seq<Rect>): (c: seq<int>)
    ensures |c| == |last|
  {
    SortBy(Identity, false, Map(Centre, last))
  }

  /** The centres are ascending and are exactly the midpoints, with their
      multiplicities. */
  lemma CentresSpec(last: seq<Rect>)
    ensures multiset(Centres(last)) == multiset(Map(Centre, last))
    ensures forall a, b :: 0 <= a < b < |Centres(last)| ==> Centres(last)[a] <= Centres(last)[b]
  {
    SortByOrdered(Identity, false, Map(Centre, last));
  }

  /** x + w / 4, the point of a box compared with the centres. */
  function Quarter(b: Rect): real {
    b.x as real + b.w as real / 4.0
  }

  function Distance(c: int, v: real): (d: real)
    ensures d >= 0.0
  {
    if c as real >= v then c as real - v else v - c as real
  }

  /** list(diff).index(min(diff)): the first centre nearest to v. */
  function Nearest(centres: seq<int>, v: real): (k: nat)
    requires centres != []
    ensures k < |centres|
    ensures forall j :: 0 <= j < |centres| ==> Distance(centres[k], v) <= Distance(centres[j], v)
    ensures forall j :: 0 <= j < k ==> Distance(centres[j], v) > Distance(centres[k], v)
  {
    if |centres| == 1 then 0
    else
      var best := Nearest(centres[..|centres| - 1], v);
      if Distance(centres[|centres| - 1], v) < Distance(centres[best], v) then |centres| - 1 else best
  }

  /** The bucket a box goes into. */
  function BucketOf(centres: seq<int>, b: Rect): nat {
    if centres == [] then 0 else Nearest(centres, Quarter(b))
  }

  function InBucket(centres: seq<int>, k: nat): Rect -> bool {
    b => BucketOf(centres, b) == k
  }

  /** The countcol buckets of one row: bucket k holds, in row order, the
      boxes whose nearest centre is centre k. */
  function Buckets(row: seq<Rect>, centres: seq<int>, countcol: nat): (lis: seq<seq<Rect>>)
    ensures |lis| == countcol
    ensures forall k :: 0 <= k < countcol ==> lis[k] == Filter(InBucket(centres, k), row)
  {
    seq(countcol, k requires 0 <= k < countcol => Filter(InBucket(centres, k), row))
  }

  /** Every box of the row lands in exactly one bucket, the one of its nearest centre. */
  lemma BucketsPlaceEveryBox(row: seq<Rect>, centres: seq<int>, countcol: nat, j: nat, k: nat)
    requires centres != [] && |centres| <= countcol && j < |row| && k < countcol
    ensures row[j] in Buckets(row, centres, countcol)[k] <==> k == Nearest(centres, Quarter(row[j]))
  {
    FilterMembers(InBucket(centres, k), row, row[j]);
  }

  /** The loop of lines 164-171 for one row. */
  method BucketRow(row: seq<Rect>, centres: seq<int>, countcol: nat) returns (lis: seq<seq<Rect>>)
    requires centres != [] && |centres| <= countcol
    ensures lis == Buckets(row, centres, countcol)
  {
    lis := [];
    for k := 0 to countcol
      invariant |lis| == k && forall m :: 0 <= m < k ==> lis[m] == []
    {
      lis := lis + [[]];
    }
    for j := 0 to |row|
      invariant |lis| == countcol
      invariant forall m :: 0 <= m < countcol ==> lis[m] == Filter(InBucket(centres, m), row[..j])
    {
      var indexing := Nearest(centres, Quarter(row[j]));
      LastSplit(row[..j + 1]);
      assert row[..j + 1][..j] == row[..j];
      lis := lis[indexing := lis[indexing] + [row[j]]];
    }
    assert row[..|row|] == row;
  }

  /** The buckets of every row, against the centres of the last row. */
  function FinalBoxes(rows: seq<seq<Rect>>, centres: seq<int>, countcol: nat): (f: seq<seq<seq<Rect>>>)
    ensures |f| == |rows|
    ensures forall i :: 0 <= i < |rows| ==> f[i] == Buckets(rows[i], centres, countcol)
  {
    seq(|rows|, i requires 0 <= i < |rows| => Buckets(rows[i], centres, countcol))
  }

  /** The loop of lines 162-172. */
  method BucketRows(rows: seq<seq<Rect>>, centres: seq<int>, countcol: nat) returns (finalboxes: seq<seq<seq<Rect>>>)
    requires centres != [] && |centres| <= countcol
    ensures finalboxes == FinalBoxes(rows, centres, countcol)
  {
    finalboxes := [];
    for i := 0 to |rows|
      invariant finalboxes == FinalBoxes(rows[..i], centres, countcol)
    {
      var lis := BucketRow(rows[i], centres, countcol);
      finalboxes := finalboxes + [lis];
    }
    assert rows[..|rows|] == rows;
  }

  // ------------------------------------------------------------ cell text

  /** The OCR text of one box; a second reading with page segmentation mode
      3 replaces an empty first one. */
  function ReadBox(ocr: Rect -> string, ocrPsm3: Rect -> string, b: Rect): string {
    var out := ocr(b);
    if |out| == 0 then ocrPsm3(b) else out
  }

  /** inner: " " + text for every box, in order. */
  function Inner(ocr: Rect -> string, ocrPsm3: Rect -> string, bucket: seq<Rect>): string {
    if bucket == [] then ""
    else Inner(ocr, ocrPsm3, bucket[..|bucket| - 1]) + " " + ReadBox(ocr, ocrPsm3, bucket[|bucket| - 1])
  }

  /** The text of a cell: a single space for an empty bucket, else the
      stripped readings joined by spaces. */
  function CellText(ocr: Rect -> string, ocrPsm3: Rect -> string, bucket: seq<Rect>): (t: string)
    ensures bucket == [] ==> t == " "
    ensures bucket != [] ==> t == [] || Trimmed(t)
  {
    if bucket == [] then " " else Strip(Inner(ocr, ocrPsm3, bucket))
  }

  /** The texts of one row's buckets. */
  function CellRow(ocr: Rect -> string, ocrPsm3: Rect -> string, lis: seq<seq<Rect>>): (cells: seq<string>)
    ensures |cells| == |lis|
    ensures forall j :: 0 <= j < |lis| ==> cells[j] == CellText(ocr, ocrPsm3, lis[j])
  {
    seq(|lis|, j requires 0 <= j < |lis| => CellText(ocr, ocrPsm3, lis[j]))
  }

  function CellGrid(ocr: Rect -> string, ocrPsm3: Rect -> string, finalboxes: seq<seq<seq<Rect>>>): (g: seq<seq<string>>)
    ensures |g| == |finalboxes|
    ensures forall i :: 0 <= i < |g| ==> g[i] == CellRow(ocr, ocrPsm3, finalboxes[i])
  {
    seq(|finalboxes|, i requires 0 <= i < |finalboxes| => CellRow(ocr, ocrPsm3, finalboxes[i]))
  }

  /** The loop of lines 190-205 for one bucket. */
  method ReadBucket(ocr: Rect -> string, ocrPsm3: Rect -> string, bucket: seq<Rect>) returns (inner: string)
    ensures inner == Inner(ocr, ocrPsm3, bucket)
  {
    inner := "";
    for k := 0 to |bucket|
      invariant inner == Inner(ocr, ocrPsm3, bucket[..k])
    {
      var out := ocr(bucket[k]);
      if |out| == 0 {
        out := ocrPsm3(bucket[k]);
      }
      assert bucket[..k + 1][..k] == bucket[..k];
      inner := inner + " " + out;
    }
    assert bucket[..|bucket|] == bucket;
  }

  /** The loop of lines 184-206 for one row: one text per bucket, appended to outer. */
  method AppendRowCells(ocr: Rect -> string, ocrPsm3: Rect -> string, outer: seq<string>, lis: seq<seq<Rect>>)
    returns (outer': seq<string>)
    ensures outer' == outer + CellRow(ocr, ocrPsm3, lis)
  {
    outer' := outer;
    for j := 0 to |lis|
      invariant outer' == outer + CellRow(ocr, ocrPsm3, lis)[..j]
    {
      var text: string;
      if |lis[j]| == 0 {
        text := " ";
      } else {
        var inner := ReadBucket(ocr, ocrPsm3, lis[j]);
        text := Strip(inner);
      }
      assert CellRow(ocr, ocrPsm3, lis)[..j + 1] == CellRow(ocr, ocrPsm3, lis)[..j] + [text];
      outer' := outer' + [text];
    }
    assert CellRow(ocr, ocrPsm3, lis)[..|lis|] == CellRow(ocr, ocrPsm3, lis);
  }

  /** The loop of lines 182-206: the cell texts, row after row, in one list. */
  method OuterCells(ocr: Rect -> string, ocrPsm3: Rect -> string, finalboxes: seq<seq<seq<Rect>>>) returns (outer: seq<string>)
    ensures outer == Flatten(CellGrid(ocr, ocrPsm3, finalboxes))
  {
    ghost var grid := CellGrid(ocr, ocrPsm3, finalboxes);
    outer := [];
    for i := 0 to |finalboxes|
      invariant outer == Flatten(grid[..i])
    {
      outer := AppendRowCells(ocr, ocrPsm3, outer, finalboxes[i]);
      assert grid[..i + 1] == grid[..i] + [grid[i]];
      FlattenSnoc(grid[..i], grid[i]);
    }
    assert grid[..|finalboxes|] == grid;
  }

  /** arr.reshape(rows, cols): consecutive runs of cols cells. */
  function Reshape(flat: seq<string>, rows: nat, cols: nat): (g: seq<seq<string>>)
    requires |flat| == rows * cols
    ensures |g| == rows
    ensures forall i :: 0 <= i < rows ==> |g[i]| == cols
  {
    if rows == 0 then []
    else
      assert |flat| == (rows - 1) * cols + cols;
      Reshape(flat[..(rows - 1) * cols], rows - 1, cols) + [flat[(rows - 1) * cols..]]
  }

  /** Reshaping the flattened rows of a grid, all of one width, gives the grid back. */
  lemma {:induction false} ReshapeFlatten(g: seq<seq<string>>, cols: nat)
    requires forall i :: 0 <= i < |g| ==> |g[i]| == cols
    ensures |Flatten(g)| == |g| * cols
    ensures Reshape(Flatten(g), |g|, cols) == g
  {
    if g != [] {
      var front := g[..|g| - 1];
      ReshapeFlatten(front, cols);
      assert Flatten(g) == Flatten(front) + g[|g| - 1];
      assert |Flatten(g)| == (|g| - 1) * cols + cols;
      LastSplit(g);
    }
  }

  /** The filter of lines 120-124, in sorted order. */
  method KeepCells(boundingBoxes: seq<Rect>) returns (box: seq<Rect>)
    ensures box == Filter(IsCell, boundingBoxes)
  {
    box := [];
    for c := 0 to |boundingBoxes|
      invariant box == Filter(IsCell, boundingBoxes[..c])
    {
      LastSplit(boundingBoxes[..c + 1]);
      assert boundingBoxes[..c + 1][..c] == boundingBoxes[..c];
      if boundingBoxes[c].w < MaxCellWidth && boundingBoxes[c].h < MaxCellHeight {
        box := box + [boundingBoxes[c]];
      }
    }
    assert boundingBoxes[..|boundingBoxes|] == boundingBoxes;
  }

  /** Lines 156-210 once there is a row: centres of the last row, buckets,
      cell texts, reshape. */
  method GridOfRows(ocr: Rect -> string, ocrPsm3: Rect -> string, row: seq<seq<Rect>>, countcol: nat)
    returns (grid: seq<seq<string>>)
    requires row != [] && |row[|row| - 1]| == countcol && countcol > 0
    ensures grid == CellGrid(ocr, ocrPsm3, FinalBoxes(row, Centres(row[|row| - 1]), countcol))
    ensures |grid| == |row| && forall i :: 0 <= i < |grid| ==> |grid[i]| == countcol
  {
    var center := Centres(row[|row| - 1]);
    var finalboxes := BucketRows(row, center, countcol);
    var outer := OuterCells(ocr, ocrPsm3, finalboxes);
    ghost var cells := CellGrid(ocr, ocrPsm3, finalboxes);
    ReshapeFlatten(cells, countcol);
    grid := Reshape(outer, |row|, countcol);
  }

  // ---------------------------------------------------------------- pipeline

  /** The grid the rows give: with no row, the error the centre list meets
      (a loop index never bound when no box was kept, a missing row 0 when
      one was); otherwise the cell texts of every row's buckets, against the
      centres of the last row and as many buckets as it has boxes. */
  function RowsGrid(kept: seq<Rect>, rows: seq<seq<Rect>>, ocr: Rect -> string, ocrPsm3: Rect -> string)
    : (r: Result<seq<seq<string>>>)
  {
    if rows == [] then Err(if kept == [] then UnboundLocalError else IndexError)
    else Ok(CellGrid(ocr, ocrPsm3, FinalBoxes(rows, Centres(rows[|rows| - 1]), |rows[|rows| - 1]|)))
  }

  /** What lines 114-210 compute from the sorted boxes: the mean height, the
      cell filter, the rows, countcol (the last row's length) and the grid. */
  function GridOf(boundingBoxes: seq<Rect>, ocr: Rect -> string, ocrPsm3: Rect -> string): Result<seq<seq<string>>>
    requires boundingBoxes != []
  {
    RowsGrid(Filter(IsCell, boundingBoxes), EmittedRows(Filter(IsCell, boundingBoxes), MeanHeight(boundingBoxes) / 2.0), ocr, ocrPsm3)
  }

  /** The extraction fails exactly when at most one box is small enough to be
      a cell: with none the loop index is unbound, with one row 0 is missing. */
  lemma GridOfFails(boundingBoxes: seq<Rect>, ocr: Rect -> string, ocrPsm3: Rect -> string)
    requires boundingBoxes != []
    ensures GridOf(boundingBoxes, ocr, ocrPsm3).Err? <==> |Filter(IsCell, boundingBoxes)| <= 1
    ensures Filter(IsCell, boundingBoxes) == [] ==> GridOf(boundingBoxes, ocr, ocrPsm3) == Err(UnboundLocalError)
    ensures |Filter(IsCell, boundingBoxes)| == 1 ==> GridOf(boundingBoxes, ocr, ocrPsm3) == Err(IndexError)
  {
    EmittedRowsEmpty(Filter(IsCell, boundingBoxes), MeanHeight(boundingBoxes) / 2.0);
  }

  /** The grid has one line per row and, in every line, one cell per box of
      the last row: the text of the bucket of that row and centre, " " for an
      empty bucket. */
  lemma RowsGridShape(kept: seq<Rect>, rows: seq<seq<Rect>>, ocr: Rect -> string, ocrPsm3: Rect -> string)
    requires RowsGrid(kept, rows, ocr, ocrPsm3).Ok?
    ensures var grid := RowsGrid(kept, rows, ocr, ocrPsm3).value;
      var last := rows[|rows| - 1];
      && |grid| == |rows|
      && (forall i :: 0 <= i < |grid| ==> |grid[i]| == |last|)
      && (forall i, k :: 0 <= i < |grid| && 0 <= k < |grid[i]| ==>
            grid[i][k] == CellText(ocr, ocrPsm3, Buckets(rows[i], Centres(last), |last|)[k]))
  {
  }

  /** GridOf, on the boxes kept and the rows grouped. */
  lemma GridOfRowsOf(boundingBoxes: seq<Rect>, box: seq<Rect>, row: seq<seq<Rect>>, ocr: Rect -> string, ocrPsm3: Rect -> string)
    requires boundingBoxes != [] && box == Filter(IsCell, boundingBoxes)
    requires row == EmittedRows(box, MeanHeight(boundingBoxes) / 2.0)
    ensures GridOf(boundingBoxes, ocr, ocrPsm3) == RowsGrid(box, row, ocr, ocrPsm3)
  {
  }

  /** Lines 150-210 once the rows are grouped: countcol, then the error
      with no row, else the grid. */
  method GridFromRows(ocr: Rect -> string, ocrPsm3: Rect -> string, box: seq<Rect>, row: seq<seq<Rect>>)
    returns (r: Result<seq<seq<string>>>)
    requires row != [] ==> row[|row| - 1] != []
    ensures r == RowsGrid(box, row, ocr, ocrPsm3)
  {
    var countcol := CountCol(row);
    if row == [] {
      // range(len(row[i])): i is unbound with no box, row[0] is missing with one
      return Err(if box == [] then UnboundLocalError else IndexError);
    }
    var grid := GridOfRows(ocr, ocrPsm3, row, countcol.value);
    r := Ok(grid);
  }

  /** Lines 114-210 on the sorted boxes. */
  method GridOfBoxes(boundingBoxes: seq<Rect>, ocr: Rect -> string, ocrPsm3: Rect -> string)
    returns (r: Result<seq<seq<string>>>)
    requires boundingBoxes != []
    ensures r == GridOf(boundingBoxes, ocr, ocrPsm3)
  {
    var mean := MeanHeight(boundingBoxes);
    var box := KeepCells(boundingBoxes);
    var row := GroupRows(box, mean);
    LastRowNonEmpty(box, mean / 2.0, row);
    GridOfRowsOf(boundingBoxes, box, row, ocr, ocrPsm3);
    r := GridFromRows(ocr, ocrPsm3, box, row);
  }

  /** The pure part of the legacy extractor, from the contour sort to the
      reshaped grid of cell texts (the frame's cells, with pandas' default
      integer column labels). With no contour the sort's unpacking fails. */
  method BorderedGrid<C(==)>(contours: seq<C>, boundingRect: C -> Rect,
                             ocr: Rect -> string, ocrPsm3: Rect -> string)
    returns (r: Result<seq<seq<string>>>)
    ensures contours == [] ==> r == Err(ValueError)
    ensures contours != [] ==> r == GridOf(SortContours(contours, boundingRect, "top-to-bottom").value.1, ocr, ocrPsm3)
  {
    var sorted := SortContours(contours, boundingRect, "top-to-bottom");
    if sorted.Err? {
      return Err(sorted.error);
    }
    r := GridOfBoxes(sorted.value.1, ocr, ocrPsm3);
  }
}
