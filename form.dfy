/** A scanned IRS Form 990: its pdf, its form type, its pages and the form
    components (schedules and parts) found among them, from which tables are
    extracted and optionally merged. */
module Forms {
  import opened Common
  import opened PyStr
  import opened Validation
  import opened Pages
  import opened TableMerge

  /** The form types that can be processed. */
  const ValidFormTypes: set<string> := {"990", "990PF"}

  /** The form components each form type can be searched for, by their IRSx
      names (the descriptions the source attaches are not modelled). */
  const ValidFormComponents: map<string, set<string>> := map[
    "990" := {"SkdIRcpntTbl", "SkdIGrntsOthrAsstTIndvInUS", "SkdJRltdOrgOffcrTrstKyEmpl"},
    "990PF" := {"PFGrntOrCntrApprvFrFt", "PFGrntOrCntrbtnPdDrYr"}
  ]

  /** The phrases that identify a page of each form component. */
  const FormComponentSearchPhrases: map<string, map<string, seq<string>>> := map[
    "990" := map[
      "Frm990PrtVIISctnA" := ["Section A. Officers, Directors, Trustees"],
      "CntrctrCmpnstn" := ["Section B. Independent Contractors"],
      "SkdIRcpntTbl" := [
        "Part II Grants and Other Assistance to Domestic Organizations and Domestic Governments",
        "Grants to Organizations and Governments in the U.S.",
        "Grants and Other Assistance to Governments and Organizations in the United States. Complete if",
        "Schedule I (Form 990) Part II, Line 1"],
      "SkdIGrntsOthrAsstTIndvInUS" := [
        "Grants and Other Assistance to Domestic Individuals. Complete if",
        "Grants and Other Assistance to Individuals in the United States. Complete if"],
      "SkdJRltdOrgOffcrTrstKyEmpl" := [
        "For each Individual whose compensation must be reported in Schedule J",
        "Part II - Officers, Directors"]
    ],
    "990PF" := map[
      "PFOffcrDrTrstKyEmpl" := ["List all officers, directors, trustees, foundation managers"],
      "PFCmpnstnHghstPdEmpl" := ["Compensation of five highest-paid employees"],
      "PFCmpnstnOfHghstPdCntrct" := ["Five highest-paid independent contractors for professional services"],
      "PFGrntOrCntrApprvFrFt" := [
        "Contributions Approved for Future Payment",
        "Grants and Contributions Paid During the Year or Approved for Future Payment",
        "Grants Approved for Future Payment"],
      "PFGrntOrCntrbtnPdDrYr" := [
        "Grants and Contributions Paid During the Year",
        "Grants Paid Calendar Year"]
    ]
  ]

  /** Every form type that can be processed has its components listed, and
      every listed component has a non-empty list of search phrases, so the
      phrase lookup after the component check cannot fail. */
  lemma ComponentsHavePhrases()
    ensures ValidFormComponents.Keys == ValidFormTypes
    ensures forall t :: t in ValidFormTypes ==> t in FormComponentSearchPhrases
    ensures forall t, c :: t in ValidFormComponents && c in ValidFormComponents[t] ==>
      c in FormComponentSearchPhrases[t] && FormComponentSearchPhrases[t][c] != []
  {
  }

  // ---------------------------------------------------------------------------
  // The form type
  // ---------------------------------------------------------------------------

  /** The constructor's standardisation: "990-PF" becomes "990PF", anything
      else is passed on as it is. */
  function NormaliseFormType(formType: PyObj): (v: PyObj)
    ensures formType != PyStr("990-PF") ==> v == formType
  {
    if formType == PyStr("990-PF") then PyStr("990PF") else formType
  }

  /** The form_type setter's check: str() of the value must be a valid form type. */
  function FormTypeOf(value: PyObj): (r: Result<string>)
    ensures r.Ok? <==> Str(value) in ValidFormTypes
    ensures r.Ok? ==> r.value in ValidFormTypes
    ensures r.Err? ==> r.error == ValueError
  {
    if Str(value) !in ValidFormTypes then Err(ValueError) else Ok(Str(value))
  }

  lemma NineNinetyString()
    ensures IntToString(990) == "990"
  {
    assert NatToString(99) == "99";
  }

  /** str(i) is "990" only for 990 and is never "990PF". */
  lemma IntFormType(i: int)
    ensures IntToString(i) == "990" <==> i == 990
    ensures IntToString(i) != "990PF"
  {
    NineNinetyString();
    if IntToString(i) == "990" {
      IntStringRoundTrip(i);
      IntStringRoundTrip(990);
    }
    if i < 0 {
      assert IntToString(i)[0] == '-';
    } else {
      assert |IntToString(i)| != 5 || IsDigit(IntToString(i)[3]);
    }
  }

  /** The setter accepts exactly "990", "990PF" and the int 990. */
  lemma FormTypeAccepted(value: PyObj)
    ensures FormTypeOf(value).Ok? <==> value == PyStr("990") || value == PyStr("990PF") || value == PyInt(990)
  {
    if value.PyInt? {
      IntFormType(value.i);
    }
  }

  /** With the constructor's standardisation in front, "990-PF" is accepted
      too and stored as "990PF". */
  lemma NormalisedFormTypeAccepted(formType: PyObj)
    ensures FormTypeOf(NormaliseFormType(formType)).Ok? <==>
      formType in {PyStr("990"), PyStr("990PF"), PyStr("990-PF"), PyInt(990)}
    ensures formType == PyStr("990-PF") ==> FormTypeOf(NormaliseFormType(formType)) == Ok("990PF")
  {
    FormTypeAccepted(NormaliseFormType(formType));
  }

  /** The setter on its own does not standardise: "990-PF" set after
      construction is refused. */
  lemma SetterRefusesHyphenated()
    ensures FormTypeOf(PyStr("990-PF")) == Err(ValueError)
  {
  }

  // ---------------------------------------------------------------------------
  // The pdf path
  // ---------------------------------------------------------------------------

  /** The last component of a path: what follows its last "/". */
  function FileName(path: string): (name: string)
    ensures |name| <= |path|
    ensures forall k :: 0 <= k < |name| ==> name[k] != '/'
    ensures name == path[|path| - |name|..]
  {
    if path == [] || path[|path| - 1] == '/' then []
    else FileName(path[..|path| - 1]) + [path[|path| - 1]]
  }

  /** The position of the last occurrence of c, or -1 (str.rfind). */
  function RFind(s: string, c: char): (i: int)
    ensures -1 <= i < |s|
    ensures i >= 0 ==> s[i] == c
    ensures forall k :: i < k < |s| ==> s[k] != c
  {
    if s == [] then -1
    else if s[|s| - 1] == c then |s| - 1
    else RFind(s[..|s| - 1], c)
  }

  /** The suffix of a file name: from its last dot on, provided that dot is
      neither the first nor the last character; otherwise empty. */
  function Suffix(name: string): string {
    if 0 < RFind(name, '.') < |name| - 1 then name[RFind(name, '.')..] else ""
  }

  /** A name has the suffix ".pdf" exactly when it ends with ".pdf" and has
      something before it: ".pdf" on its own is a hidden file with no suffix. */
  lemma PdfSuffix(name: string)
    ensures Suffix(name) == ".pdf" <==> |name| > 4 && name[|name| - 4..] == ".pdf"
  {
    var i := RFind(name, '.');
    if |name| > 4 && name[|name| - 4..] == ".pdf" {
      assert name[|name| - 4] == '.';
      assert i == |name| - 4;
    }
    if Suffix(name) == ".pdf" {
      assert name[i..] == ".pdf";
      assert |name| - i == 4;
    }
  }

  /** The pdf_file_path setter: the suffix is checked before the file's
      existence. isFile stands for the file system. */
  function PdfPathCheck(path: string, isFile: string -> bool): (o: Outcome)
    ensures Suffix(FileName(path)) != ".pdf" ==> o == Fail(ValueError)
    ensures o.Pass? <==> |FileName(path)| > 4 && path[|path| - 4..] == ".pdf" && isFile(path)
    ensures o.Fail? && Suffix(FileName(path)) == ".pdf" ==> o.error == FileNotFoundError
  {
    PdfSuffix(FileName(path));
    if Suffix(FileName(path)) != ".pdf" then Fail(ValueError)
    else if !isFile(path) then Fail(FileNotFoundError)
    else Pass
  }

  /** The attributes NineNinetyForm.__init__ gives every instance. */
  const FormAttributes: set<string> :=
    {"pdf_file_path", "form_type", "org_name", "tax_period", "form_components", "pages"}

  /** The page-attribute check never fires on a form, since construction
      sets pages (to None). */
  lemma FormHasPagesAttribute()
    ensures ValidatePageAttribute(FormAttributes) == Pass
  {
  }

  // ---------------------------------------------------------------------------
  // Phrase matching and the component search
  // ---------------------------------------------------------------------------

  /** fuzzysearch.find_near_matches(phrase, text, max_l_dist) found something. */
  type NearMatch = (string, string, nat) -> bool

  /** phrase_match's default Levenshtein distance. */
  const DefaultMaxLDist: nat := 4

  /** Some phrase, lowercased, has a near match in the lowercased text. */
  predicate PhraseDetected(phrases: seq<string>, text: string, maxLDist: nat, nearMatch: NearMatch) {
    exists k :: 0 <= k < |phrases| && nearMatch(Lower(phrases[k]), Lower(text), maxLDist)
  }

  /** Adding phrases can only find more: a list detects a text exactly when
      one of its parts does. */
  lemma PhraseDetectedAppend(a: seq<string>, b: seq<string>, text: string, maxLDist: nat, nearMatch: NearMatch)
    ensures PhraseDetected(a + b, text, maxLDist, nearMatch) <==>
      PhraseDetected(a, text, maxLDist, nearMatch) || PhraseDetected(b, text, maxLDist, nearMatch)
  {
    if PhraseDetected(a + b, text, maxLDist, nearMatch) {
      var k :| 0 <= k < |a + b| && nearMatch(Lower((a + b)[k]), Lower(text), maxLDist);
      if k >= |a| {
        assert (a + b)[k] == b[k - |a|];
      }
    }
    if PhraseDetected(a, text, maxLDist, nearMatch) {
      var k :| 0 <= k < |a| && nearMatch(Lower(a[k]), Lower(text), maxLDist);
      assert (a + b)[k] == a[k];
      assert nearMatch(Lower((a + b)[k]), Lower(text), maxLDist);
    }
    if PhraseDetected(b, text, maxLDist, nearMatch) {
      var k :| 0 <= k < |b| && nearMatch(Lower(b[k]), Lower(text), maxLDist);
      assert (a + b)[|a| + k] == b[k];
      assert nearMatch(Lower((a + b)[|a| + k]), Lower(text), maxLDist);
    }
  }

  /** Matching ignores case on both sides. */
  lemma PhraseDetectedIgnoresCase(phrases: seq<string>, text: string, maxLDist: nat, nearMatch: NearMatch)
    ensures PhraseDetected(phrases, Lower(text), maxLDist, nearMatch) == PhraseDetected(phrases, text, maxLDist, nearMatch)
  {
    LowerIdempotent(text);
  }

  /** A page belongs to a component when its text matches one of the
      component's phrases at the default distance. */
  predicate Mentions(page: NineNinetyPage, phrases: seq<string>, nearMatch: NearMatch) {
    PhraseDetected(phrases, PageText(page.ocrDataframe), DefaultMaxLDist, nearMatch)
  }

  /** The pages that mention one of the phrases, in page order. */
  function MatchingPages(pages: seq<NineNinetyPage>, phrases: seq<string>, nearMatch: NearMatch): (r: seq<NineNinetyPage>)
    ensures |r| <= |pages|
  {
    Filter(p => Mentions(p, phrases, nearMatch), pages)
  }

  /** A page is found exactly when it is one of the pages and mentions a phrase. */
  lemma MatchingPagesMembers(pages: seq<NineNinetyPage>, phrases: seq<string>, nearMatch: NearMatch, p: NineNinetyPage)
    ensures p in MatchingPages(pages, phrases, nearMatch) <==> p in pages && Mentions(p, phrases, nearMatch)
  {
    FilterMembers(q => Mentions(q, phrases, nearMatch), pages, p);
  }

  /** One more page is found exactly when it mentions a phrase. */
  lemma MatchingPagesStep(pages: seq<NineNinetyPage>, k: nat, phrases: seq<string>, nearMatch: NearMatch)
    requires k < |pages|
    ensures MatchingPages(pages[..k + 1], phrases, nearMatch) ==
      MatchingPages(pages[..k], phrases, nearMatch) + if Mentions(pages[k], phrases, nearMatch) then [pages[k]] else []
  {
    assert pages[..k + 1][..k] == pages[..k];
  }

  /** Searching the pages of two runs is searching each run, in order. */
  lemma MatchingPagesAppend(a: seq<NineNinetyPage>, b: seq<NineNinetyPage>, phrases: seq<string>, nearMatch: NearMatch)
    ensures MatchingPages(a + b, phrases, nearMatch) == MatchingPages(a, phrases, nearMatch) + MatchingPages(b, phrases, nearMatch)
  {
    FilterAppend(q => Mentions(q, phrases, nearMatch), a, b);
  }

  /** What search_form gives for a component, before it is stored: an
      unknown component is refused, a form without pages cannot be iterated,
      and otherwise the pages that mention one of the component's phrases. */
  function SearchResult(formType: string, pages: Option<seq<NineNinetyPage>>, formComponent: string, nearMatch: NearMatch)
    : (r: Result<seq<NineNinetyPage>>)
    requires formType in ValidFormTypes
    ensures r.Ok? ==> pages.Some? && forall p :: p in r.value ==> p in pages.value
  {
    ComponentsHavePhrases();
    if formComponent !in ValidFormComponents[formType] then Err(Exception)
    else if pages.None? then Err(TypeError)
    else
      var found := MatchingPages(pages.value, FormComponentSearchPhrases[formType][formComponent], nearMatch);
      assert forall p :: p in found ==> p in pages.value by {
        forall p | p in found ensures p in pages.value {
          MatchingPagesMembers(pages.value, FormComponentSearchPhrases[formType][formComponent], nearMatch, p);
        }
      }
      Ok(found)
  }

  // ---------------------------------------------------------------------------
  // Tables of a component
  // ---------------------------------------------------------------------------

  /** Every table the extractor returns has one cell per column. */
  ghost predicate ExtractorRectangular(extractor: Extractor) {
    forall image, ocr, useCascadeTabNet, tableType :: extractor(image, ocr, useCascadeTabNet, tableType).Ok? ==>
      AllRectangular(extractor(image, ocr, useCascadeTabNet, tableType).value)
  }

  /** The tables of each page, one page after another; the first page whose
      extraction raises ends the loop with its error. */
  function PageFrames(pages: seq<NineNinetyPage>, useCascadeTabNet: bool, tableType: string, extractor: Extractor)
    : Result<seq<Frame>>
  {
    if pages == [] then Ok([])
    else
      match PageFrames(pages[..|pages| - 1], useCascadeTabNet, tableType, extractor)
      case Err(e) => Err(e)
      case Ok(frames) =>
        match PageResult(pages[|pages| - 1], useCascadeTabNet, tableType, extractor)
        case Err(e) => Err(e)
        case Ok(more) => Ok(frames + more)
  }

  /** The position of the first page whose extraction raises, or the number
      of pages when none does. */
  function FirstFailure(pages: seq<NineNinetyPage>, useCascadeTabNet: bool, tableType: string, extractor: Extractor)
    : (k: nat)
    ensures k <= |pages|
    ensures forall i :: 0 <= i < k ==> PageResult(pages[i], useCascadeTabNet, tableType, extractor).Ok?
    ensures k < |pages| ==> PageResult(pages[k], useCascadeTabNet, tableType, extractor).Err?
  {
    if pages == [] || PageResult(pages[0], useCascadeTabNet, tableType, extractor).Err? then 0
    else 1 + FirstFailure(pages[1..], useCascadeTabNet, tableType, extractor)
  }

  /** Those three facts determine the first failure. */
  lemma FirstFailureIs(pages: seq<NineNinetyPage>, useCascadeTabNet: bool, tableType: string, extractor: Extractor, k: nat)
    requires k <= |pages|
    requires forall i :: 0 <= i < k ==> PageResult(pages[i], useCascadeTabNet, tableType, extractor).Ok?
    requires k < |pages| ==> PageResult(pages[k], useCascadeTabNet, tableType, extractor).Err?
    ensures FirstFailure(pages, useCascadeTabNet, tableType, extractor) == k
  {
  }

  /** The loop over the pages fails exactly when some page's extraction
      raises, and then with the error of the first such page. */
  lemma {:induction false} PageFramesFirstFailure(pages: seq<NineNinetyPage>, useCascadeTabNet: bool, tableType: string,
                                                  extractor: Extractor)
    ensures PageFrames(pages, useCascadeTabNet, tableType, extractor).Err?
      <==> FirstFailure(pages, useCascadeTabNet, tableType, extractor) < |pages|
    ensures PageFrames(pages, useCascadeTabNet, tableType, extractor).Err? ==>
      PageFrames(pages, useCascadeTabNet, tableType, extractor).error
      == PageResult(pages[FirstFailure(pages, useCascadeTabNet, tableType, extractor)], useCascadeTabNet, tableType,
                    extractor).error
  {
    if pages != [] {
      var n := |pages| - 1;
      var init := pages[..n];
      PageFramesFirstFailure(init, useCascadeTabNet, tableType, extractor);
      var f := FirstFailure(init, useCascadeTabNet, tableType, extractor);
      assert forall i :: 0 <= i < n ==> init[i] == pages[i];
      if f < n {
        FirstFailureIs(pages, useCascadeTabNet, tableType, extractor, f);
      } else if PageResult(pages[n], useCascadeTabNet, tableType, extractor).Err? {
        FirstFailureIs(pages, useCascadeTabNet, tableType, extractor, n);
      } else {
        FirstFailureIs(pages, useCascadeTabNet, tableType, extractor, n + 1);
      }
    }
  }

  /** The tables of two runs of pages are the tables of the first run
      followed by those of the second, unless one of the runs raises, the
      first run first. */
  lemma {:induction false} PageFramesAppend(a: seq<NineNinetyPage>, b: seq<NineNinetyPage>,
                                            useCascadeTabNet: bool, tableType: string, extractor: Extractor)
    ensures PageFrames(a + b, useCascadeTabNet, tableType, extractor)
      == if PageFrames(a, useCascadeTabNet, tableType, extractor).Err? then PageFrames(a, useCascadeTabNet, tableType, extractor)
         else if PageFrames(b, useCascadeTabNet, tableType, extractor).Err? then PageFrames(b, useCascadeTabNet, tableType, extractor)
         else Ok(PageFrames(a, useCascadeTabNet, tableType, extractor).value + PageFrames(b, useCascadeTabNet, tableType, extractor).value)
  {
    if b == [] {
      assert a + b == a;
      var fa := PageFrames(a, useCascadeTabNet, tableType, extractor);
      assert fa.Ok? ==> fa.value + [] == fa.value;
    } else {
      var front, last := b[..|b| - 1], b[|b| - 1];
      PageFramesAppend(a, front, useCascadeTabNet, tableType, extractor);
      ConcatSnoc(a, b);
      SnocFront(a + front, last);
      var fa := PageFrames(a, useCascadeTabNet, tableType, extractor);
      var ff := PageFrames(front, useCascadeTabNet, tableType, extractor);
      var fl := PageResult(last, useCascadeTabNet, tableType, extractor);
      if fa.Ok? && ff.Ok? && fl.Ok? {
        assert fa.value + ff.value + fl.value == fa.value + (ff.value + fl.value);
      }
    }
  }

  /** The tables of extractors that always give rectangular frames are rectangular. */
  lemma {:induction false} PageFramesRectangular(pages: seq<NineNinetyPage>, useCascadeTabNet: bool, tableType: string, extractor: Extractor)
    requires ExtractorRectangular(extractor)
    ensures PageFrames(pages, useCascadeTabNet, tableType, extractor).Ok? ==>
      AllRectangular(PageFrames(pages, useCascadeTabNet, tableType, extractor).value)
  {
    if pages != [] {
      var p := pages[|pages| - 1];
      PageFramesRectangular(pages[..|pages| - 1], useCascadeTabNet, tableType, extractor);
      assert PageResult(p, useCascadeTabNet, tableType, extractor).Ok? ==>
        AllRectangular(PageResult(p, useCascadeTabNet, tableType, extractor).value);
    }
  }

  /** The loop of extract_component_tables over the component's pages. Each
      page runs the extract_tables checks, which depend only on the settings:
      with no pages nothing is checked, otherwise the first page raises or
      the pages' tables are collected until an extraction raises. */
  function TablesOf(pages: seq<NineNinetyPage>, useCascadeTabNet: PyObj, tableType: PyObj, extractionMethod: PyObj,
                    extractor: Extractor): (r: Result<seq<Frame>>)
    requires ExtractorRectangular(extractor)
    ensures r.Ok? ==> AllRectangular(r.value)
  {
    if pages == [] then Ok([])
    else
      match ExtractTablesCheck(useCascadeTabNet, tableType, extractionMethod)
      case Fail(e) => Err(e)
      case Pass =>
        PageFramesRectangular(pages, useCascadeTabNet.b, tableType.s, extractor);
        PageFrames(pages, useCascadeTabNet.b, tableType.s, extractor)
  }

  /** The pages whose tables the loop stores: none when the settings are
      refused, else those before the first page whose extraction raises. */
  function Worked(pages: seq<NineNinetyPage>, useCascadeTabNet: PyObj, tableType: PyObj, extractionMethod: PyObj,
                  extractor: Extractor): seq<NineNinetyPage>
  {
    match ExtractTablesCheck(useCascadeTabNet, tableType, extractionMethod)
    case Fail(_) => []
    case Pass => pages[..FirstFailure(pages, useCascadeTabNet.b, tableType.s, extractor)]
  }

  /** The loop stopped at page k, by the checks' refusal or by that page's
      extraction raising e: the stored pages are those before k, and the
      result is e. */
  lemma StoppedAt(pages: seq<NineNinetyPage>, k: nat, e: PyError, useCascadeTabNet: PyObj, tableType: PyObj,
                  extractionMethod: PyObj, extractor: Extractor)
    requires ExtractorRectangular(extractor)
    requires k < |pages|
    requires k > 0 ==> ExtractTablesCheck(useCascadeTabNet, tableType, extractionMethod).Pass?
    requires k > 0 ==> PageFrames(pages[..k], useCascadeTabNet.b, tableType.s, extractor).Ok?
    requires ExtractTablesCheck(useCascadeTabNet, tableType, extractionMethod).Fail? ==>
      e == ExtractTablesCheck(useCascadeTabNet, tableType, extractionMethod).error
    requires ExtractTablesCheck(useCascadeTabNet, tableType, extractionMethod).Pass? ==>
      PageResult(pages[k], useCascadeTabNet.b, tableType.s, extractor) == Err(e)
    ensures Worked(pages, useCascadeTabNet, tableType, extractionMethod, extractor) == pages[..k]
    ensures TablesOf(pages, useCascadeTabNet, tableType, extractionMethod, extractor) == Err(e)
  {
    if ExtractTablesCheck(useCascadeTabNet, tableType, extractionMethod).Pass? {
      var u, t := useCascadeTabNet.b, tableType.s;
      PageFramesFirstFailure(pages[..k], u, t, extractor);
      assert forall i :: 0 <= i < k ==> pages[..k][i] == pages[i];
      FirstFailureIs(pages, u, t, extractor, k);
      PageFramesFirstFailure(pages, u, t, extractor);
    }
  }

  /** The loop ran over every page: all of them are stored. */
  lemma WorkedAll(pages: seq<NineNinetyPage>, useCascadeTabNet: PyObj, tableType: PyObj, extractionMethod: PyObj,
                  extractor: Extractor)
    requires pages != [] ==> ExtractTablesCheck(useCascadeTabNet, tableType, extractionMethod).Pass?
    requires pages != [] ==> PageFrames(pages, useCascadeTabNet.b, tableType.s, extractor).Ok?
    ensures Worked(pages, useCascadeTabNet, tableType, extractionMethod, extractor) == pages
  {
    if pages != [] {
      PageFramesFirstFailure(pages, useCascadeTabNet.b, tableType.s, extractor);
    }
  }

  /** What extract_component_tables returns: the list of tables, or the one
      merged table. */
  datatype ComponentTables = Tables(frames: seq<Frame>) | Merged(frame: Frame)

  /** extract_component_tables after the component's pages are known: the
      tables of those pages, merged when asked for. */
  function ComponentTablesOf(selected: Result<seq<NineNinetyPage>>, merge: bool, useCascadeTabNet: PyObj,
                             tableType: PyObj, extractionMethod: PyObj, extractor: Extractor, scorer: Scorer)
    : Result<ComponentTables>
    requires ExtractorRectangular(extractor)
  {
    match selected
    case Err(e) => Err(e)
    case Ok(pages) =>
      match TablesOf(pages, useCascadeTabNet, tableType, extractionMethod, extractor)
      case Err(e) => Err(e)
      case Ok(frames) =>
        if !merge then Ok(Tables(frames))
        else match MergeResult(scorer, frames) case Err(e) => Err(e) case Ok(f) => Ok(Merged(f))
  }

  /** A successful extraction is merged exactly when merging was asked for. */
  lemma MergedOnlyWhenAsked(selected: Result<seq<NineNinetyPage>>, merge: bool, useCascadeTabNet: PyObj,
                            tableType: PyObj, extractionMethod: PyObj, extractor: Extractor, scorer: Scorer)
    requires ExtractorRectangular(extractor)
    ensures ComponentTablesOf(selected, merge, useCascadeTabNet, tableType, extractionMethod, extractor, scorer).Ok? ==>
      (ComponentTablesOf(selected, merge, useCascadeTabNet, tableType, extractionMethod, extractor, scorer).value.Merged? <==> merge)
  {
  }

  /** With no component pages nothing is extracted and no setting is
      checked: the result is the empty list, or the empty merged table. */
  lemma NoPagesNoTables(merge: bool, useCascadeTabNet: PyObj, tableType: PyObj, extractionMethod: PyObj,
                        extractor: Extractor, scorer: Scorer)
    requires ExtractorRectangular(extractor)
    ensures ComponentTablesOf(Ok([]), merge, useCascadeTabNet, tableType, extractionMethod, extractor, scorer)
      == Ok(if merge then Merged(Frame([], [])) else Tables([]))
  {
    assert Labels([]) == [];
    assert Canonicalise(scorer, []).names == [];
    assert Renamed(scorer, []) == [];
  }

  /** Settings the checks refuse make the extraction fail, with the checks'
      error, as soon as there is a page. */
  lemma RefusedSettingsFail(pages: seq<NineNinetyPage>, merge: bool, useCascadeTabNet: PyObj, tableType: PyObj,
                            extractionMethod: PyObj, extractor: Extractor, scorer: Scorer)
    requires ExtractorRectangular(extractor)
    requires pages != [] && ExtractTablesCheck(useCascadeTabNet, tableType, extractionMethod).Fail?
    ensures ComponentTablesOf(Ok(pages), merge, useCascadeTabNet, tableType, extractionMethod, extractor, scorer)
      == Err(ExtractTablesCheck(useCascadeTabNet, tableType, extractionMethod).error)
  {
  }

  /** With accepted settings, a page whose extraction raises makes the
      extraction fail with its error, unless an earlier page raised first. */
  lemma FailingPageFails(pages: seq<NineNinetyPage>, merge: bool, useCascadeTabNet: PyObj, tableType: PyObj,
                         extractionMethod: PyObj, extractor: Extractor, scorer: Scorer)
    requires ExtractorRectangular(extractor)
    requires ExtractTablesCheck(useCascadeTabNet, tableType, extractionMethod).Pass?
    requires FirstFailure(pages, useCascadeTabNet.b, tableType.s, extractor) < |pages|
    ensures ComponentTablesOf(Ok(pages), merge, useCascadeTabNet, tableType, extractionMethod, extractor, scorer)
      == Err(PageResult(pages[FirstFailure(pages, useCascadeTabNet.b, tableType.s, extractor)],
                        useCascadeTabNet.b, tableType.s, extractor).error)
  {
    PageFramesFirstFailure(pages, useCascadeTabNet.b, tableType.s, extractor);
  }

  /** The index and tables of each page held, as they stand. */
  function PageState(held: set<NineNinetyPage>): (m: map<NineNinetyPage, PageFields>)
    reads held
    ensures m.Keys == held
  {
    map p | p in held :: PageFields(p.index, p.tables)
  }

  /** What the extract_tables calls on pages leave behind, against the
      pages' state before: no index changes; a page not among those stored
      keeps its tables, and so does every page when the settings are refused;
      otherwise every stored page holds the tables its extraction gave. */
  predicate TablesStored(before: map<NineNinetyPage, PageFields>, pages: seq<NineNinetyPage>, useCascadeTabNet: PyObj,
                         tableType: PyObj, extractionMethod: PyObj, extractor: Extractor)
    reads before.Keys, set p | p in pages
  {
    && (forall p :: p in before ==> p.index == before[p].index)
    && (forall p :: p in before && p !in pages ==> p.tables == before[p].tables)
    && (ExtractTablesCheck(useCascadeTabNet, tableType, extractionMethod).Fail? ==>
          forall p :: p in before ==> p.tables == before[p].tables)
    && (ExtractTablesCheck(useCascadeTabNet, tableType, extractionMethod).Pass? ==>
          forall p :: p in pages ==> HasExtractedTables(p, useCascadeTabNet.b, tableType.s, extractor))
  }

  /** The pages of a selection, none for a failed one. */
  function PagesOf(selected: Result<seq<NineNinetyPage>>): seq<NineNinetyPage> {
    if selected.Ok? then selected.value else []
  }

  class NineNinetyForm {
    var pdfFilePath: string
    const orgName: PyObj
    /** str() of the tax period given. */
    const taxPeriod: string
    var formType: string
    /** The pages found for each component searched for. */
    var formComponents: map<string, seq<NineNinetyPage>>
    /** The form's pages, once extracted or loaded. */
    var pages: Option<seq<NineNinetyPage>>

    /** The setter keeps the form type valid. */
    predicate Valid()
      reads this
    {
      formType in ValidFormTypes
    }

    constructor (pdfFilePath: string, formType: string, orgName: PyObj, taxPeriod: string)
      requires formType in ValidFormTypes
      ensures Valid()
      ensures this.pdfFilePath == pdfFilePath && this.formType == formType
      ensures this.orgName == orgName && this.taxPeriod == taxPeriod
      ensures formComponents == map[] && pages == None
    {
      this.pdfFilePath := pdfFilePath;
      this.formType := formType;
      this.orgName := orgName;
      this.taxPeriod := taxPeriod;
      formComponents := map[];
      pages := None;
    }

    /** Every page the form holds, in its page list or under a component. */
    function Held(): set<NineNinetyPage>
      reads this
    {
      (if pages.Some? then set p | p in pages.value else {})
        + (set c, p | c in formComponents && p in formComponents[c] :: p)
    }

    /** The form_type setter. */
    method SetFormType(value: PyObj) returns (o: Outcome)
      modifies this
      ensures o.Pass? <==> FormTypeOf(value).Ok?
      ensures o.Pass? ==> formType == FormTypeOf(value).value
      ensures o.Fail? ==> o.error == ValueError && formType == old(formType)
      ensures Valid() == (o.Pass? || old(Valid()))
      ensures pdfFilePath == old(pdfFilePath) && formComponents == old(formComponents) && pages == old(pages)
    {
      var formType := Str(value);
      if formType !in ValidFormTypes {
        return Fail(ValueError);
      }
      this.formType := formType;
      o := Pass;
    }

    /** The pdf_file_path setter. */
    method SetPdfFilePath(value: string, isFile: string -> bool) returns (o: Outcome)
      modifies this
      ensures o == PdfPathCheck(value, isFile)
      ensures pdfFilePath == if o.Pass? then value else old(pdfFilePath)
      ensures formType == old(formType) && formComponents == old(formComponents) && pages == old(pages)
    {
      PdfSuffix(FileName(value));
      if Suffix(FileName(value)) != ".pdf" {
        return Fail(ValueError);
      }
      if !isFile(value) {
        return Fail(FileNotFoundError);
      }
      pdfFilePath := value;
      o := Pass;
    }

    /** The last step of extract_pages and load_pages: the pages are stored. */
    method StorePages(pages: seq<NineNinetyPage>)
      modifies this
      ensures this.pages == Some(pages)
      ensures formType == old(formType) && formComponents == old(formComponents) && pdfFilePath == old(pdfFilePath)
    {
      this.pages := Some(pages);
    }

    /** phrase_match: the phrases are tried in order and the first near match
        ends the search. */
    static method PhraseMatch(phraseList: seq<string>, pageText: string, maxLDist: nat, nearMatch: NearMatch)
      returns (detectedPhrase: bool)
      ensures detectedPhrase <==> PhraseDetected(phraseList, pageText, maxLDist, nearMatch)
    {
      detectedPhrase := false;
      for k := 0 to |phraseList|
        invariant forall j :: 0 <= j < k ==> !nearMatch(Lower(phraseList[j]), Lower(pageText), maxLDist)
      {
        if nearMatch(Lower(phraseList[k]), Lower(pageText), maxLDist) {
          detectedPhrase := true;
          break;
        }
      }
    }

    /** The loop of search_form over the pages. */
    static method MatchPages(pages: seq<NineNinetyPage>, searchPhrases: seq<string>, nearMatch: NearMatch)
      returns (found: seq<NineNinetyPage>)
      ensures found == MatchingPages(pages, searchPhrases, nearMatch)
    {
      found := [];
      for k := 0 to |pages|
        invariant found == MatchingPages(pages[..k], searchPhrases, nearMatch)
      {
        var page := pages[k];
        var pageText := page.OcrDataframeToText();
        var isPhraseDetected := PhraseMatch(searchPhrases, pageText, DefaultMaxLDist, nearMatch);
        MatchingPagesStep(pages, k, searchPhrases, nearMatch);
        if isPhraseDetected {
          found := found + [page];
        }
      }
      assert pages[..|pages|] == pages;
    }

    /** search_form: the found pages are stored under the component,
        replacing what was there. */
    method SearchForm(formComponent: string, nearMatch: NearMatch) returns (r: Result<seq<NineNinetyPage>>)
      requires Valid()
      modifies this
      ensures r == SearchResult(old(formType), old(pages), formComponent, nearMatch)
      ensures formComponents == if r.Ok? then old(formComponents)[formComponent := r.value] else old(formComponents)
      ensures formType == old(formType) && pages == old(pages) && pdfFilePath == old(pdfFilePath)
    {
      ComponentsHavePhrases();
      var valid := ValidateFormComponent(formComponent, ValidFormComponents[formType]);
      if valid.Fail? {
        return Err(valid.error);
      }
      // validate_page_attribute(self) passes on every form
      FormHasPagesAttribute();
      if pages.None? {
        // iterating over None
        return Err(TypeError);
      }
      var searchPhrases := FormComponentSearchPhrases[formType][formComponent];
      var found := MatchPages(pages.value, searchPhrases, nearMatch);
      formComponents := formComponents[formComponent := found];
      r := Ok(found);
    }

    /** The pages extract_component_tables works on: those stored for the
        component, or else what a search gives. */
    function SelectedPages(formComponent: string, nearMatch: NearMatch): Result<seq<NineNinetyPage>>
      reads this
      requires Valid()
    {
      if formComponent in formComponents then Ok(formComponents[formComponent])
      else SearchResult(formType, pages, formComponent, nearMatch)
    }

    /** One pass of the loop of extract_component_tables: page.extract_tables,
        with what it leaves on the pages stored so far; a page whose
        extraction raises is not stored. */
    static method ExtractPageTables(page: NineNinetyPage, useCascadeTabNet: PyObj, tableType: PyObj,
                                    extractionMethod: PyObj, extractor: Extractor,
                                    ghost before: map<NineNinetyPage, PageFields>, ghost done: seq<NineNinetyPage>)
      returns (r: Result<seq<Frame>>)
      requires page in before && forall p :: p in done ==> p in before
      requires TablesStored(before, done, useCascadeTabNet, tableType, extractionMethod, extractor)
      modifies page
      ensures ExtractTablesCheck(useCascadeTabNet, tableType, extractionMethod).Fail? ==>
        r == Err(ExtractTablesCheck(useCascadeTabNet, tableType, extractionMethod).error)
        && TablesStored(before, done, useCascadeTabNet, tableType, extractionMethod, extractor)
      ensures ExtractTablesCheck(useCascadeTabNet, tableType, extractionMethod).Pass? ==>
        r == PageResult(page, useCascadeTabNet.b, tableType.s, extractor)
        && TablesStored(before, if r.Ok? then done + [page] else done, useCascadeTabNet, tableType, extractionMethod,
                        extractor)
    {
      r := page.ExtractTables(useCascadeTabNet, tableType, extractionMethod, extractor);
    }

    /** The loop of extract_component_tables: every page's tables, in page
        order, until a page raises. */
    static method CollectTables(componentPages: seq<NineNinetyPage>, useCascadeTabNet: PyObj, tableType: PyObj,
                         extractionMethod: PyObj, extractor: Extractor, ghost before: map<NineNinetyPage, PageFields>)
      returns (r: Result<seq<Frame>>)
      requires ExtractorRectangular(extractor)
      requires forall p :: p in componentPages ==> p in before
      requires TablesStored(before, [], useCascadeTabNet, tableType, extractionMethod, extractor)
      modifies before.Keys
      ensures r == TablesOf(componentPages, useCascadeTabNet, tableType, extractionMethod, extractor)
      ensures TablesStored(before, Worked(componentPages, useCascadeTabNet, tableType, extractionMethod, extractor),
                           useCascadeTabNet, tableType, extractionMethod, extractor)
    {
      var componentTableDataframes: seq<Frame> := [];
      for k := 0 to |componentPages|
        invariant k > 0 ==> ExtractTablesCheck(useCascadeTabNet, tableType, extractionMethod).Pass?
        invariant TablesStored(before, componentPages[..k], useCascadeTabNet, tableType, extractionMethod, extractor)
        invariant k > 0 ==>
          PageFrames(componentPages[..k], useCascadeTabNet.b, tableType.s, extractor) == Ok(componentTableDataframes)
        invariant k == 0 ==> componentTableDataframes == []
      {
        var page := componentPages[k];
        var dataframeList := ExtractPageTables(page, useCascadeTabNet, tableType, extractionMethod, extractor, before,
                                               componentPages[..k]);
        if dataframeList.Err? {
          StoppedAt(componentPages, k, dataframeList.error, useCascadeTabNet, tableType, extractionMethod, extractor);
          return Err(dataframeList.error);
        }
        PrefixSnoc(componentPages, k);
        componentTableDataframes := componentTableDataframes + dataframeList.value;
      }
      assert componentPages[..|componentPages|] == componentPages;
      WorkedAll(componentPages, useCascadeTabNet, tableType, extractionMethod, extractor);
      r := Ok(componentTableDataframes);
    }

    /** The first step of extract_component_tables: the component's stored
        pages, or else a search, which stores what it finds. */
    method ComponentPages(formComponent: string, nearMatch: NearMatch) returns (selected: Result<seq<NineNinetyPage>>)
      requires Valid()
      modifies this
      ensures selected == old(SelectedPages(formComponent, nearMatch))
      ensures selected.Ok? ==> forall p :: p in selected.value ==> p in old(Held())
      ensures formComponents == if formComponent !in old(formComponents) && selected.Ok?
        then old(formComponents)[formComponent := selected.value] else old(formComponents)
      ensures formType == old(formType) && pages == old(pages) && pdfFilePath == old(pdfFilePath)
    {
      if formComponent !in formComponents {
        selected := SearchForm(formComponent, nearMatch);
      } else {
        selected := Ok(formComponents[formComponent]);
      }
    }

    /** The rest of extract_component_tables once the pages are selected: the
        search's error, or their tables, merged when asked for. */
    static method TablesFromPages(selected: Result<seq<NineNinetyPage>>, merge: bool, useCascadeTabNet: PyObj,
                                  tableType: PyObj, extractionMethod: PyObj, extractor: Extractor, scorer: Scorer,
                                  ghost held: set<NineNinetyPage>)
      returns (r: Result<ComponentTables>)
      requires ExtractorRectangular(extractor)
      requires forall p :: p in PagesOf(selected) ==> p in held
      modifies held
      ensures r == ComponentTablesOf(selected, merge, useCascadeTabNet, tableType, extractionMethod,
                                     extractor, scorer)
      ensures TablesStored(old(PageState(held)),
                           Worked(PagesOf(selected), useCascadeTabNet, tableType, extractionMethod, extractor),
                           useCascadeTabNet, tableType, extractionMethod, extractor)
    {
      if selected.Err? {
        // the search raised
        return Err(selected.error);
      }
      var componentPages := selected.value;
      var tables := CollectTables(componentPages, useCascadeTabNet, tableType, extractionMethod, extractor, PageState(held));
      if tables.Err? {
        return Err(tables.error);
      }
      if !merge {
        return Ok(Tables(tables.value));
      }
      var merged, updated := MergeDataframes(scorer, tables.value);
      if merged.Err? {
        return Err(merged.error);
      }
      r := Ok(Merged(merged.value));
    }

    /** extract_component_tables: reuse the component's stored pages or search
        for them, collect every page's tables, and merge them when asked. */
    method ExtractComponentTables(formComponent: string, merge: bool, useCascadeTabNet: PyObj, tableType: PyObj,
                                  extractionMethod: PyObj, nearMatch: NearMatch, extractor: Extractor, scorer: Scorer)
      returns (r: Result<ComponentTables>, ghost selected: Result<seq<NineNinetyPage>>)
      requires Valid()
      requires ExtractorRectangular(extractor)
      modifies this, Held()
      ensures selected == old(SelectedPages(formComponent, nearMatch))
      ensures r == ComponentTablesOf(selected, merge, useCascadeTabNet, tableType, extractionMethod, extractor, scorer)
      ensures formComponents == if formComponent !in old(formComponents) && selected.Ok?
        then old(formComponents)[formComponent := selected.value] else old(formComponents)
      ensures formType == old(formType) && pages == old(pages) && pdfFilePath == old(pdfFilePath)
      ensures TablesStored(old(PageState(Held())),
                           Worked(PagesOf(selected), useCascadeTabNet, tableType, extractionMethod, extractor),
                           useCascadeTabNet, tableType, extractionMethod, extractor)
    {
      ghost var held := Held();
      ghost var before := PageState(held);
      var componentPages := ComponentPages(formComponent, nearMatch);
      selected := componentPages;
      // the search changed only the form: the pages are as they were
      assert PageState(held) == before;
      r := TablesFromPages(componentPages, merge, useCascadeTabNet, tableType, extractionMethod, extractor,
                           scorer, held);
    }
  }

  /** NineNinetyForm.__init__: the pdf path is set and checked first, then
      the form type, standardised, goes through its setter. */
  method NewForm(pdfPath: string, formType: PyObj, orgName: PyObj, taxPeriod: PyObj, isFile: string -> bool)
    returns (r: Result<NineNinetyForm>)
    ensures PdfPathCheck(pdfPath, isFile).Fail? ==> r == Err(PdfPathCheck(pdfPath, isFile).error)
    ensures PdfPathCheck(pdfPath, isFile).Pass? && FormTypeOf(NormaliseFormType(formType)).Err? ==> r == Err(ValueError)
    ensures r.Ok? <==> PdfPathCheck(pdfPath, isFile).Pass? && FormTypeOf(NormaliseFormType(formType)).Ok?
    ensures r.Ok? ==> fresh(r.value) && r.value.Valid()
    ensures r.Ok? ==> r.value.pdfFilePath == pdfPath && r.value.formType == FormTypeOf(NormaliseFormType(formType)).value
    ensures r.Ok? ==> r.value.orgName == orgName && r.value.taxPeriod == Str(taxPeriod)
    ensures r.Ok? ==> r.value.formComponents == map[] && r.value.pages == None
  {
    var path := PdfPathCheck(pdfPath, isFile);
    if path.Fail? {
      return Err(path.error);
    }
    var stored := FormTypeOf(NormaliseFormType(formType));
    if stored.Err? {
      return Err(stored.error);
    }
    var form := new NineNinetyForm(pdfPath, stored.value, orgName, Str(taxPeriod));
    r := Ok(form);
  }
}
