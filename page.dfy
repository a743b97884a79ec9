/** One scanned page of a form: its OCR data, the text stitched from it, its
    page index and the tables extracted from it. */
module Pages {
  import opened Common
  import opened PyStr
  import opened Validation

  /** str() of a text cell. */
  function TextValue(e: OcrRow): string {
    match e.text
    case None => "nan"
    case Some(s) => s
  }

  /** Rows whose confidence is -1 (layout rows, not words) are dropped. */
  predicate Readable(e: OcrRow) {
    e.conf != -1.0
  }

  /** What one value adds to the page text: a whitespace-only value as it is,
      anything else followed by one space. */
  function Piece(v: string): string {
    if IsSpaceString(v) then v else v + " "
  }

  /** The page text before the final strip. */
  function Stitched(values: seq<string>): string {
    if values == [] then "" else Stitched(values[..|values| - 1]) + Piece(values[|values| - 1])
  }

  /** The text values of the readable rows, in frame order. */
  function Values(entries: seq<OcrRow>): (vs: seq<string>)
    ensures |vs| <= |entries|
  {
    Map(TextValue, Filter(Readable, entries))
  }

  /** ocr_dataframe_to_text: the readable values stitched together, stripped. */
  function PageText(entries: seq<OcrRow>): (t: string)
    ensures t == [] || Trimmed(t)
  {
    Strip(Stitched(Values(entries)))
  }

  /** A row with confidence -1 contributes nothing, wherever it sits. */
  lemma PageTextIgnoresUnreadable(a: seq<OcrRow>, e: OcrRow, b: seq<OcrRow>)
    requires e.conf == -1.0
    ensures PageText(a + [e] + b) == PageText(a + b)
  {
    FilterAppend(Readable, a + [e], b);
    FilterAppend(Readable, a, [e]);
    FilterAppend(Readable, a, b);
    assert [e][..0] == [];
    assert Filter(Readable, [e]) == [];
    assert Filter(Readable, a + [e]) == Filter(Readable, a);
  }

  /** The words joined by single spaces. */
  function JoinWords(words: seq<string>): string {
    if words == [] then ""
    else if |words| == 1 then words[0]
    else JoinWords(words[..|words| - 1]) + " " + words[|words| - 1]
  }

  /** Trimmed words join to a trimmed string: it starts with the first
      word and ends with the last. */
  lemma {:induction false} JoinWordsTrimmed(words: seq<string>)
    requires words != []
    requires forall k :: 0 <= k < |words| ==> Trimmed(words[k])
    ensures Trimmed(JoinWords(words))
  {
    if |words| > 1 {
      var init, last := words[..|words| - 1], words[|words| - 1];
      JoinWordsTrimmed(init);
      assert Trimmed(last);
      var j := JoinWords(init) + " " + last;
      assert j[0] == JoinWords(init)[0];
      assert j[|j| - 1] == last[|last| - 1];
    }
  }

  /** Trimmed words stitch to their join plus one trailing space. */
  lemma {:induction false} StitchedWords(words: seq<string>)
    requires words != []
    requires forall k :: 0 <= k < |words| ==> Trimmed(words[k])
    ensures Stitched(words) == JoinWords(words) + " "
  {
    var last := words[|words| - 1];
    assert !IsSpaceString(last) by {
      assert !IsSpace(last[0]);
    }
    if |words| > 1 {
      StitchedWords(words[..|words| - 1]);
    } else {
      assert words[..0] == [];
    }
  }

  /** When every readable value is a word with no whitespace at its ends, the
      page text is those words separated by single spaces. */
  lemma PageTextJoinsWords(entries: seq<OcrRow>)
    requires forall k :: 0 <= k < |Values(entries)| ==> Trimmed(Values(entries)[k])
    ensures PageText(entries) == JoinWords(Values(entries))
  {
    var words := Values(entries);
    if words != [] {
      StitchedWords(words);
      JoinWordsTrimmed(words);
      var j := JoinWords(words);
      assert (j + " ")[..|j|] == j;
      StripTrimmed(j);
    }
  }

  /** Whitespace-only values stitch to whitespace. */
  lemma {:induction false} StitchedBlank(values: seq<string>)
    requires forall k :: 0 <= k < |values| ==> IsSpaceString(values[k])
    ensures IsBlank(Stitched(values))
  {
    if values != [] {
      StitchedBlank(values[..|values| - 1]);
    }
  }

  /** A page whose readable values are all whitespace has no text. */
  lemma BlankPageHasNoText(entries: seq<OcrRow>)
    requires forall k :: 0 <= k < |Values(entries)| ==> IsSpaceString(Values(entries)[k])
    ensures PageText(entries) == ""
  {
    StitchedBlank(Values(entries));
    StripEmpty(Stitched(Values(entries)));
  }

  /** int() of the index values a page is given. */
  function IntOf(v: PyObj): (r: Result<int>)
    ensures v.PyInt? ==> r == Ok(v.i)
    ensures v.PyNone? ==> r == Err(TypeError)
  {
    match v
    case PyNone => Err(TypeError)
    case PyBool(b) => Ok(if b then 1 else 0)
    case PyInt(i) => Ok(i)
    case PyStr(s) => match ParseInt(s) case Some(i) => Ok(i) case None => Err(ValueError)
  }

  /** The index setter's test: an int (bool is a subclass of int) or None. */
  predicate IndexAccepted(v: PyObj) {
    v.PyInt? || v.PyBool? || v.PyNone?
  }

  /** `int(index) if index else index`, then the setter: a falsy index is kept
      as it is, a truthy one is converted. */
  function InitIndex(index: PyObj): (r: Result<PyObj>)
    ensures r.Ok? ==> IndexAccepted(r.value)
    ensures r.Ok? && Truthy(index) ==> r.value.PyInt?
    ensures !Truthy(index) ==> (r.Ok? <==> !index.PyStr?)
  {
    var converted := if Truthy(index) then (match IntOf(index) case Ok(i) => Ok(PyInt(i)) case Err(e) => Err(e)) else Ok(index);
    match converted
    case Err(e) => Err(e)
    case Ok(v) => if IndexAccepted(v) then Ok(v) else Err(TypeError)
  }

  /** An int index is stored unchanged, zero included. */
  lemma InitIndexOfInt(i: int)
    ensures InitIndex(PyInt(i)) == Ok(PyInt(i))
  {
  }

  /** An index read back from a file name, str(i), is stored as the int i. */
  lemma InitIndexOfDigits(i: int)
    ensures InitIndex(PyStr(IntToString(i))) == Ok(PyInt(i))
  {
    IntStringRoundTrip(i);
  }

  /** The empty string is falsy, so it reaches the setter unconverted and is
      refused. */
  lemma InitIndexOfEmptyString()
    ensures InitIndex(PyStr("")) == Err(TypeError)
  {
  }

  /** The guard of extract_tables, then the settings check. */
  function ExtractTablesCheck(useCascadeTabNet: PyObj, tableType: PyObj, extractionMethod: PyObj): (o: Outcome)
    ensures o.Pass? ==> useCascadeTabNet.PyBool? && tableType.PyStr? && tableType.s in TableTypes
  {
    if extractionMethod != PyStr("custom") then Fail(ValueError)
    else ValidateExtractTablesSettings(useCascadeTabNet, tableType, extractionMethod)
  }

  /** Extraction goes ahead exactly for the "custom" method with accepted
      settings; any other method is refused with ValueError whatever the
      settings, before they are looked at. */
  lemma ExtractTablesCheckSpec(useCascadeTabNet: PyObj, tableType: PyObj, extractionMethod: PyObj)
    ensures extractionMethod != PyStr("custom") ==> ExtractTablesCheck(useCascadeTabNet, tableType, extractionMethod) == Fail(ValueError)
    ensures ExtractTablesCheck(useCascadeTabNet, tableType, extractionMethod).Pass? <==>
      && extractionMethod == PyStr("custom")
      && (|| (useCascadeTabNet.PyBool? && (tableType == PyStr("bordered") || tableType == PyStr("borderless")))
          || (useCascadeTabNet == PyBool(true) && tableType == PyStr("detect")))
  {
    SettingsAccepted(useCascadeTabNet, tableType, extractionMethod);
  }

  /** What table_extraction.extract_tables returns, or raises, for a page
      image, its OCR frame and settings that passed the checks. */
  type Extractor = (string, seq<OcrRow>, bool, string) -> Result<seq<Frame>>

  /** A NineNinetyPage. The image is known by its path; the OCR frame is what
      Tesseract, or the saved data file, gave. */
  class NineNinetyPage {
    const imagePath: string
    const dataPath: Option<string>
    /** The parent form given at construction, by identity. */
    const parent: Option<nat>
    const ocrDataframe: seq<OcrRow>
    var index: PyObj
    var tables: Option<seq<Frame>>

    constructor (imagePath: string, dataPath: Option<string>, parent: Option<nat>, index: PyObj, ocrDataframe: seq<OcrRow>)
      ensures this.imagePath == imagePath && this.dataPath == dataPath && this.parent == parent
      ensures this.index == index && this.ocrDataframe == ocrDataframe && this.tables == None
    {
      this.imagePath := imagePath;
      this.dataPath := dataPath;
      this.parent := parent;
      this.ocrDataframe := ocrDataframe;
      this.index := index;
      this.tables := None;
    }

    /** The parent_nineninetyform getter as written: it returns the data path. */
    function ParentAsWritten(): Option<string> {
      dataPath
    }

    /** The parent_nineninetyform getter as intended: the form given at construction. */
    function ParentNineNinetyForm(): Option<nat> {
      parent
    }

    /** The index setter. */
    method SetIndex(value: PyObj) returns (o: Outcome)
      modifies this
      ensures o.Pass? <==> IndexAccepted(value)
      ensures o.Pass? ==> index == value
      ensures o.Fail? ==> o.error == TypeError && index == old(index)
      ensures tables == old(tables)
    {
      if value.PyInt? || value.PyBool? || value.PyNone? {
        index := value;
        o := Pass;
      } else {
        o := Fail(TypeError);
      }
    }

    /** ocr_dataframe_to_text. */
    method OcrDataframeToText() returns (pageText: string)
      ensures pageText == PageText(ocrDataframe)
    {
      var truncDataframe := Filter(Readable, ocrDataframe);
      ghost var values := Values(ocrDataframe);
      pageText := "";
      for k := 0 to |truncDataframe|
        invariant pageText == Stitched(values[..k])
      {
        var value := TextValue(truncDataframe[k]);
        assert values[..k + 1] == values[..k] + [value];
        if IsSpaceString(value) {
          pageText := pageText + value;
        } else {
          pageText := pageText + value + " ";
        }
      }
      assert values[..|truncDataframe|] == values;
      pageText := Strip(pageText);
    }

    /** extract_tables: the guard, the settings check, then the extraction,
        whose result is stored and returned; an extraction that raises
        leaves the stored tables as they were. */
    method ExtractTables(useCascadeTabNet: PyObj, tableType: PyObj, extractionMethod: PyObj, extractor: Extractor)
      returns (r: Result<seq<Frame>>)
      modifies this
      ensures ExtractTablesCheck(useCascadeTabNet, tableType, extractionMethod).Fail? ==>
        r == Err(ExtractTablesCheck(useCascadeTabNet, tableType, extractionMethod).error) && tables == old(tables)
      ensures ExtractTablesCheck(useCascadeTabNet, tableType, extractionMethod).Pass? ==>
        && useCascadeTabNet.PyBool? && tableType.PyStr?
        && r == extractor(imagePath, ocrDataframe, useCascadeTabNet.b, tableType.s)
        && tables == if r.Ok? then Some(r.value) else old(tables)
      ensures index == old(index)
    {
      if extractionMethod != PyStr("custom") {
        return Err(ValueError);
      }
      var settings := ValidateExtractTablesSettings(useCascadeTabNet, tableType, extractionMethod);
      if settings.Fail? {
        return Err(settings.error);
      }
      var result := extractor(imagePath, ocrDataframe, useCascadeTabNet.b, tableType.s);
      if result.Err? {
        return result;
      }
      tables := Some(result.value);
      r := result;
    }
  }

  /** The fields of a page that its methods change. */
  datatype PageFields = PageFields(index: PyObj, tables: Option<seq<Frame>>)

  /** What extract_tables gives for page p once the settings have passed. */
  function PageResult(p: NineNinetyPage, useCascadeTabNet: bool, tableType: string, extractor: Extractor)
    : Result<seq<Frame>>
  {
    extractor(p.imagePath, p.ocrDataframe, useCascadeTabNet, tableType)
  }

  /** Page p holds the tables its extraction gave, for settings that passed the checks. */
  predicate HasExtractedTables(p: NineNinetyPage, useCascadeTabNet: bool, tableType: string, extractor: Extractor)
    reads p
  {
    PageResult(p, useCascadeTabNet, tableType, extractor).Ok?
    && p.tables == Some(PageResult(p, useCascadeTabNet, tableType, extractor).value)
  }

  /** The NineNinetyPage constructor: the image path must name a file, a
      non-empty data path must name a file, and the index goes through the
      conversion and the setter. isFile stands for the file system. */
  method NewPage(imagePath: string, dataPath: Option<string>, parent: Option<nat>, index: PyObj,
                 ocrDataframe: seq<OcrRow>, isFile: string -> bool)
    returns (r: Result<NineNinetyPage>)
    ensures !isFile(imagePath) ==> r == Err(FileNotFoundError)
    ensures isFile(imagePath) && dataPath.Some? && dataPath.value != "" && !isFile(dataPath.value) ==>
      r == Err(FileNotFoundError)
    ensures r.Ok? <==>
      isFile(imagePath) && (dataPath.None? || dataPath.value == "" || isFile(dataPath.value)) && InitIndex(index).Ok?
    ensures r.Err? && isFile(imagePath) && (dataPath.None? || dataPath.value == "" || isFile(dataPath.value)) ==>
      r == Err(InitIndex(index).error)
    ensures r.Ok? ==> fresh(r.value) && r.value.index == InitIndex(index).value
    ensures r.Ok? ==> r.value.dataPath == dataPath && r.value.parent == parent && r.value.tables == None
    ensures r.Ok? ==> r.value.ParentNineNinetyForm() == parent
    ensures r.Ok? ==> r.value.imagePath == imagePath && r.value.ocrDataframe == ocrDataframe
  {
    if !isFile(imagePath) {
      return Err(FileNotFoundError);
    }
    if dataPath.Some? && dataPath.value != "" && !isFile(dataPath.value) {
      return Err(FileNotFoundError);
    }
    var stored := InitIndex(index);
    if stored.Err? {
      return Err(stored.error);
    }
    var page := new NineNinetyPage(imagePath, dataPath, parent, stored.value, ocrDataframe);
    r := Ok(page);
  }

  /** A page made with a parent form and no data file: the getter as written
      answers None, although the page has a parent. */
  method ParentGetterCounterexample() returns (page: NineNinetyPage)
    ensures page.parent == Some(0) && page.dataPath == None
    ensures page.ParentAsWritten() == None && page.ParentNineNinetyForm() == Some(0)
  {
    page := new NineNinetyPage("page_0.png", None, Some(0), PyInt(0), []);
  }
}
