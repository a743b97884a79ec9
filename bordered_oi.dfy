/** Bordered table extraction: ruling lines cut the page into row and column
    ranges, and each token is given the first range whose far edge reaches it. */
module BorderedOI {
  import opened Common
  import opened Borderless

  /** Consecutive line positions paired into ranges: n positions give n - 1
      ranges, range i running from position i to position i + 1. */
  function Ranges(positions: seq<int>): (r: seq<(int, int)>)
    ensures |r| == if |positions| == 0 then 0 else |positions| - 1
    ensures forall i :: 0 <= i < |r| ==> r[i] == (positions[i], positions[i + 1])
  {
    if |positions| == 0 then []
    else seq(|positions| - 1, i requires 0 <= i < |positions| - 1 => (positions[i], positions[i + 1]))
  }

  /** The y1 of every horizontal line, in order. */
  function Ys(lines: seq<Line>): (ys: seq<int>)
    ensures |ys| == |lines|
    ensures forall i :: 0 <= i < |lines| ==> ys[i] == lines[i].y1
  {
    seq(|lines|, i requires 0 <= i < |lines| => lines[i].y1)
  }

  /** The x1 of every vertical line, in order. */
  function Xs(lines: seq<Line>): (xs: seq<int>)
    ensures |xs| == |lines|
    ensures forall i :: 0 <= i < |lines| ==> xs[i] == lines[i].x1
  {
    seq(|lines|, i requires 0 <= i < |lines| => lines[i].x1)
  }

  /** The first range whose upper bound is at least v; the lower bounds are
      never looked at. */
  function FirstFit(ranges: seq<(int, int)>, v: int): (r: Option<nat>)
    ensures r.Some? ==> r.value < |ranges| && v <= ranges[r.value].1
    ensures r.Some? ==> forall j :: 0 <= j < r.value ==> ranges[j].1 < v
    ensures r.None? ==> forall j :: 0 <= j < |ranges| ==> ranges[j].1 < v
  {
    if ranges == [] then None
    else
      match FirstFit(ranges[..|ranges| - 1], v)
      case Some(i) => Some(i)
      case None => if v <= ranges[|ranges| - 1].1 then Some(|ranges| - 1) else None
  }

  /** The range a token lands in: the first fit, or the last range when none fits. */
  function RangeOf(ranges: seq<(int, int)>, v: int): (i: nat)
    requires ranges != []
    ensures i < |ranges|
  {
    match FirstFit(ranges, v)
    case Some(i) => i
    case None => |ranges| - 1
  }

  /** A lower edge never lands in a later range than a higher one. */
  lemma RangeOfMonotone(ranges: seq<(int, int)>, v: int, w: int)
    requires ranges != [] && v <= w
    ensures RangeOf(ranges, v) <= RangeOf(ranges, w)
  {
  }

  /** Only the upper bounds decide: ranges that agree on them place every
      token alike. */
  lemma {:induction false} RangeOfIgnoresLowerBounds(a: seq<(int, int)>, b: seq<(int, int)>, v: int)
    requires |a| == |b|
    requires forall i :: 0 <= i < |a| ==> a[i].1 == b[i].1
    ensures FirstFit(a, v) == FirstFit(b, v)
  {
    if a != [] {
      RangeOfIgnoresLowerBounds(a[..|a| - 1], b[..|b| - 1], v);
    }
  }

  /** A token below the first line and not below the last lies strictly below
      the top of its range and not below its bottom, whatever the line order. */
  lemma TokenInsideItsRange(positions: seq<int>, v: int)
    requires |positions| >= 2
    requires positions[0] < v <= positions[|positions| - 1]
    ensures positions[RangeOf(Ranges(positions), v)] < v <= positions[RangeOf(Ranges(positions), v) + 1]
  {
    var ranges := Ranges(positions);
    var i := RangeOf(ranges, v);
    assert ranges[|ranges| - 1].1 == positions[|positions| - 1];
    assert FirstFit(ranges, v).Some?;
    if i > 0 {
      assert ranges[i - 1].1 < v;
    }
  }

  /** assign_rows: the row of every token, from its bottom edge y2. With fewer
      than two lines there is no range and the fall-back reads the loop index
      before any loop has bound it. */
  method AssignRows(horizLines: seq<Line>, boxes: seq<TextBox>) returns (r: Result<seq<nat>>)
    ensures r.Err? <==> |horizLines| < 2 && boxes != []
    ensures r.Err? ==> r.error == UnboundLocalError
    ensures r.Ok? ==> |r.value| == |boxes|
    ensures r.Ok? && |horizLines| >= 2 ==> forall k :: 0 <= k < |boxes| ==>
      r.value[k] == RangeOf(Ranges(Ys(horizLines)), boxes[k].y2)
  {
    ghost var spec := Ranges(Ys(horizLines));
    var rowRanges: seq<(int, int)> := [];
    // Python's `index`: None until a loop binds it, then it keeps its last value
    var index: Option<nat> := None;
    var n := if |horizLines| == 0 then 0 else |horizLines| - 1;
    for i := 0 to n
      invariant rowRanges == spec[..i]
      invariant index == if i == 0 then None else Some(i - 1)
    {
      index := Some(i);
      rowRanges := rowRanges + [(horizLines[i].y1, horizLines[i + 1].y1)];
    }
    assert rowRanges == spec;
    var rowIndexes: seq<nat> := [];
    for b := 0 to |boxes|
      invariant |rowIndexes| == b
      invariant index.None? <==> n == 0
      invariant n == 0 ==> b == 0
      invariant n > 0 ==> forall k :: 0 <= k < b ==> rowIndexes[k] == RangeOf(spec, boxes[k].y2)
    {
      var top := boxes[b].y2;
      var matched := false;
      for i := 0 to |rowRanges|
        invariant index.None? <==> n == 0
        invariant i > 0 ==> index == Some(i - 1)
        invariant forall j :: 0 <= j < i ==> rowRanges[j].1 < top
        invariant !matched && |rowIndexes| == b
      {
        index := Some(i);
        if top <= rowRanges[i].1 {
          rowIndexes := rowIndexes + [i];
          matched := true;
          break;
        }
      }
      // the for-else branch: no range matched
      if !matched {
        if index.None? {
          return Err(UnboundLocalError);
        }
        rowIndexes := rowIndexes + [index.value];
      }
    }
    r := Ok(rowIndexes);
  }

  /** assign_columns: the column of every token, from its right edge x2. The
      index starts at 0 for every token, so with fewer than two lines every
      token gets column 0. */
  method AssignColumns(vertLines: seq<Line>, boxes: seq<TextBox>) returns (columns: seq<nat>)
    ensures |columns| == |boxes|
    ensures |vertLines| < 2 ==> forall k :: 0 <= k < |boxes| ==> columns[k] == 0
    ensures |vertLines| >= 2 ==> forall k :: 0 <= k < |boxes| ==>
      columns[k] == RangeOf(Ranges(Xs(vertLines)), boxes[k].x2)
  {
    ghost var spec := Ranges(Xs(vertLines));
    var columnRanges: seq<(int, int)> := [];
    var n := if |vertLines| == 0 then 0 else |vertLines| - 1;
    for i := 0 to n
      invariant columnRanges == spec[..i]
    {
      columnRanges := columnRanges + [(vertLines[i].x1, vertLines[i + 1].x1)];
    }
    assert columnRanges == spec;
    columns := [];
    for b := 0 to |boxes|
      invariant |columns| == b
      invariant n == 0 ==> forall k :: 0 <= k < b ==> columns[k] == 0
      invariant n > 0 ==> forall k :: 0 <= k < b ==> columns[k] == RangeOf(spec, boxes[k].x2)
    {
      var left := boxes[b].x2;
      var wasAppended := false;
      var index: nat := 0;
      for i := 0 to |columnRanges|
        invariant i > 0 ==> index == i - 1
        invariant i == 0 ==> index == 0
        invariant forall j :: 0 <= j < i ==> columnRanges[j].1 < left
        invariant !wasAppended && |columns| == b
      {
        index := i;
        if left <= columnRanges[i].1 {
          columns := columns + [i];
          wasAppended := true;
          break;
        }
      }
      if !wasAppended {
        columns := columns + [index];
      }
    }
  }

  /** The rows assign_rows gives when there are at least two lines. */
  function LineRows(horizLines: seq<Line>, boxes: seq<TextBox>): (rows: seq<nat>)
    requires |horizLines| >= 2
    ensures |rows| == |boxes|
  {
    seq(|boxes|, k requires 0 <= k < |boxes| => RangeOf(Ranges(Ys(horizLines)), boxes[k].y2))
  }

  /** The columns assign_columns gives: 0 throughout with fewer than two lines. */
  function LineColumns(vertLines: seq<Line>, boxes: seq<TextBox>): (columns: seq<nat>)
    ensures |columns| == |boxes|
  {
    seq(|boxes|, k requires 0 <= k < |boxes| =>
      if |vertLines| < 2 then 0 else RangeOf(Ranges(Xs(vertLines)), boxes[k].x2))
  }

  /** get_bordered_table_OI: tokens, then rows and columns from the ruling
      lines, then the grid. The line lists are what the line detector returns. */
  method GetBorderedTableOI(ocr: seq<OcrRow>, horizLines: seq<Line>, vertLines: seq<Line>)
    returns (r: Result<Frame>)
    ensures r.Err? <==> StripFails(ocr) || GetTextBoxes(ocr) == [] || |horizLines| < 2
    ensures StripFails(ocr) ==> r == Err(AttributeError)
    ensures r.Err? && !StripFails(ocr) && GetTextBoxes(ocr) == [] ==> r.error == KeyError
    ensures r.Err? && !StripFails(ocr) && GetTextBoxes(ocr) != [] ==> r.error == UnboundLocalError
    ensures r.Ok? ==> |horizLines| >= 2 && IsGridOf(r.value,
      Place(GetTextBoxes(ocr), LineRows(horizLines, GetTextBoxes(ocr)), LineColumns(vertLines, GetTextBoxes(ocr))))
  {
    if StripFails(ocr) {
      return Err(AttributeError);
    }
    var boxes := GetTextBoxes(ocr);
    if boxes == [] {
      // text_boxes["y2"]: the derived columns exist only for a non-empty frame
      return Err(KeyError);
    }
    var rows := AssignRows(horizLines, boxes);
    if rows.Err? {
      return Err(rows.error);
    }
    var columns := AssignColumns(vertLines, boxes);
    assert rows.value == LineRows(horizLines, boxes);
    assert columns == LineColumns(vertLines, boxes);
    var cells := Place(boxes, rows.value, columns);
    r := TextBoxesToTable(cells);
  }
}
