/** Values shared by every part of the model: optional values, the Python
    exceptions the code raises, dynamically typed arguments and data frames. */
module Common {

  datatype Option<T> = None | Some(value: T)

  /** The Python exception classes raised by the modelled code. */
  datatype PyError =
    | TypeError
    | ValueError
    | KeyError
    | IndexError
    | UnboundLocalError
    | AttributeError
    | FileNotFoundError
    | InvalidIndexError
    | Exception

  /** A value, or the exception raised instead of returning one. */
  datatype Result<T> = Ok(value: T) | Err(error: PyError)

  /** What a validator does: return normally, or raise. */
  datatype Outcome = Pass | Fail(error: PyError)

  /** A dynamically typed Python argument (the kinds the modelled code tells apart). */
  datatype PyObj = PyNone | PyBool(b: bool) | PyInt(i: int) | PyStr(s: string)

  /** Python truthiness. */
  predicate Truthy(v: PyObj) {
    match v
    case PyNone => false
    case PyBool(b) => b
    case PyInt(i) => i != 0
    case PyStr(s) => s != ""
  }

  /** A data-frame cell; None stands for NaN or None. */
  type Cell = Option<string>

  /** A column label; a header promoted from a grid row may hold None. */
  type Label = Option<string>

  /** A pandas DataFrame: its column labels and its rows, in order. */
  datatype Frame = Frame(columns: seq<Label>, rows: seq<seq<Cell>>)

  /** One row of a Tesseract image_to_data frame, the columns the core reads:
      the text cell (None for the NaN pandas gives an empty cell), the
      confidence (-1 for layout rows) and the box. */
  datatype OcrRow = OcrRow(text: Option<string>, conf: real, left: int, top: int, width: int, height: int)

  /** Every row has one cell per column (true of every DataFrame). */
  predicate Rectangular(f: Frame) {
    forall r :: 0 <= r < |f.rows| ==> |f.rows[r]| == |f.columns|
  }

  /** No value occurs twice. */
  predicate Distinct<T(==)>(s: seq<T>) {
    forall i, j :: 0 <= i < j < |s| ==> s[i] != s[j]
  }

  /** The smallest element (pandas Series.min). */
  function Min(s: seq<int>): (m: int)
    requires s != []
    ensures m in s
    ensures forall k :: 0 <= k < |s| ==> m <= s[k]
  {
    if |s| == 1 then s[0]
    else
      var rest := Min(s[..|s| - 1]);
      if s[|s| - 1] < rest then s[|s| - 1] else rest
  }

  /** The largest element (pandas Series.max). */
  function Max(s: seq<int>): (m: int)
    requires s != []
    ensures m in s
    ensures forall k :: 0 <= k < |s| ==> s[k] <= m
  {
    if |s| == 1 then s[0]
    else
      var rest := Max(s[..|s| - 1]);
      if s[|s| - 1] > rest then s[|s| - 1] else rest
  }

  /** Two sequences holding the same values have the same maximum. */
  lemma MaxOfSameValues(a: seq<int>, b: seq<int>)
    requires a != [] && b != []
    requires forall x :: x in a <==> x in b
    ensures Max(a) == Max(b)
  {
    var ma, mb := Max(a), Max(b);
    assert ma in b;
    assert mb in a;
  }

  function Sum(s: seq<int>): int {
    if s == [] then 0 else Sum(s[..|s| - 1]) + s[|s| - 1]
  }

  /** A non-empty sequence is its front followed by its last element. */
  lemma LastSplit<T>(s: seq<T>)
    requires s != []
    ensures s == s[..|s| - 1] + [s[|s| - 1]]
  {
  }

  /** The elements satisfying p, in order (a boolean-mask selection). */
  function Filter<T>(p: T -> bool, s: seq<T>): (r: seq<T>)
    ensures |r| <= |s|
  {
    if s == [] then [] else Filter(p, s[..|s| - 1]) + if p(s[|s| - 1]) then [s[|s| - 1]] else []
  }

  /** The selection holds exactly the elements that satisfy p. */
  lemma {:induction false} FilterMembers<T>(p: T -> bool, s: seq<T>, x: T)
    ensures x in Filter(p, s) <==> x in s && p(x)
  {
    if s != [] {
      var init, last := s[..|s| - 1], s[|s| - 1];
      FilterMembers(p, init, x);
      assert s == init + [last];
    }
  }

  lemma FilterSingle<T>(p: T -> bool, x: T)
    ensures Filter(p, [x]) == if p(x) then [x] else []
  {
    assert [x][..0] == [];
  }

  /** Nothing is selected when no element satisfies p. */
  lemma FilterNone<T>(p: T -> bool, s: seq<T>)
    requires forall x :: x in s ==> !p(x)
    ensures Filter(p, s) == []
  {
    if Filter(p, s) != [] {
      FilterMembers(p, s, Filter(p, s)[0]);
    }
  }

  /** f applied to every element, in order. */
  function Map<T, U>(f: T -> U, s: seq<T>): (r: seq<U>)
    ensures |r| == |s|
    ensures forall k :: 0 <= k < |s| ==> r[k] == f(s[k])
  {
    seq(|s|, k requires 0 <= k < |s| => f(s[k]))
  }

  lemma {:induction false} FilterAppend<T>(p: T -> bool, a: seq<T>, b: seq<T>)
    ensures Filter(p, a + b) == Filter(p, a) + Filter(p, b)
  {
    if b == [] {
      assert a + b == a;
    } else {
      FilterAppend(p, a, b[..|b| - 1]);
      assert (a + b)[..|a + b| - 1] == a + b[..|b| - 1];
    }
  }

  lemma MapAppend<T, U>(f: T -> U, a: seq<T>, b: seq<T>)
    ensures Map(f, a + b) == Map(f, a) + Map(f, b)
  {
  }

  /** Splitting off the last element of the second operand. */
  lemma ConcatSnoc<T>(a: seq<T>, b: seq<T>)
    requires b != []
    ensures a + b == (a + b[..|b| - 1]) + [b[|b| - 1]]
  {
    LastSplit(b);
  }

  /** The front of a sequence with one element appended is the sequence. */
  lemma SnocFront<T>(s: seq<T>, x: T)
    ensures (s + [x])[..|s|] == s && (s + [x])[|s|] == x
  {
  }

  /** A prefix one element longer is the shorter prefix with that element appended. */
  lemma PrefixSnoc<T>(s: seq<T>, k: int)
    requires 0 <= k < |s|
    ensures s[..k + 1] == s[..k] + [s[k]] && s[..k + 1][..k] == s[..k]
  {
  }

  /** The sequences one after another (a flattened list of lists). */
  function Flatten<T>(s: seq<seq<T>>): (r: seq<T>)
  {
    if s == [] then [] else Flatten(s[..|s| - 1]) + s[|s| - 1]
  }

  lemma FlattenSnoc<T>(s: seq<seq<T>>, x: seq<T>)
    ensures Flatten(s + [x]) == Flatten(s) + x
  {
    assert (s + [x])[..|s|] == s;
  }
}
