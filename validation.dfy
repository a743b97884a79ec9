/** The argument checks run before pages are extracted, loaded or searched
    and before tables are extracted. Each either passes or raises. */
module Validation {
  import opened Common

  /** The file formats page data can be saved in. */
  const SaveTypes: set<string> := {"csv", "pickle"}

  /** The table kinds the extractor knows; "detect" leaves the choice to the
      detector. */
  const TableTypes: set<string> := {"bordered", "borderless", "detect"}

  /** validate_extract_pages_save_path: the save path must be an existing
      directory. Whether it is one belongs to the file system, so the test is
      a parameter. */
  function ValidateSavePath(savePath: string, isDir: string -> bool): (o: Outcome)
    ensures o.Pass? <==> isDir(savePath)
    ensures o.Fail? ==> o.error == Exception
  {
    if !isDir(savePath) then Fail(Exception) else Pass
  }

  /** validate_extract_pages_save_type. */
  function ValidateSaveType(saveType: string): (o: Outcome)
    ensures o.Pass? <==> saveType in SaveTypes
    ensures o.Fail? ==> o.error == ValueError
  {
    if saveType != "csv" && saveType != "pickle" then Fail(ValueError) else Pass
  }

  /** validate_load_pages_list_length: one page index per data file. */
  function ValidateListLength<A, B>(dataPaths: seq<A>, pageIndexes: seq<B>): (o: Outcome)
    ensures o.Pass? <==> |dataPaths| == |pageIndexes|
    ensures o.Fail? ==> o.error == Exception
  {
    if |dataPaths| != |pageIndexes| then Fail(Exception) else Pass
  }

  /** `table_type in ("bordered", "borderless", "detect")`: only a str can be
      equal to one of them. */
  predicate KnownTableType(tableType: PyObj) {
    tableType.PyStr? && tableType.s in TableTypes
  }

  /** validate_extract_tables_settings. The extraction method is not looked at. */
  function ValidateExtractTablesSettings(useCascadeTabNet: PyObj, tableType: PyObj, extractionMethod: PyObj): (o: Outcome)
    ensures !useCascadeTabNet.PyBool? ==> o == Fail(TypeError)
    ensures useCascadeTabNet.PyBool? && !KnownTableType(tableType) ==> o == Fail(ValueError)
    ensures useCascadeTabNet.PyBool? && KnownTableType(tableType) ==>
      (o.Fail? <==> !useCascadeTabNet.b && tableType.s == "detect")
    ensures o.Fail? && useCascadeTabNet.PyBool? && KnownTableType(tableType) ==> o.error == Exception
  {
    if !useCascadeTabNet.PyBool? then Fail(TypeError)
    else if !(tableType == PyStr("bordered") || tableType == PyStr("borderless") || tableType == PyStr("detect")) then
      Fail(ValueError)
    else if !Truthy(useCascadeTabNet) && tableType == PyStr("detect") then Fail(Exception)
    else Pass
  }

  /** The settings that pass are exactly a bool flag with "bordered" or
      "borderless", and True with "detect". */
  lemma SettingsAccepted(useCascadeTabNet: PyObj, tableType: PyObj, extractionMethod: PyObj)
    ensures ValidateExtractTablesSettings(useCascadeTabNet, tableType, extractionMethod).Pass? <==>
      || (useCascadeTabNet.PyBool? && (tableType == PyStr("bordered") || tableType == PyStr("borderless")))
      || (useCascadeTabNet == PyBool(true) && tableType == PyStr("detect"))
  {
  }

  /** "detect" is refused exactly when the detector is switched off. */
  lemma DetectNeedsCascadeTabNet(useCascadeTabNet: bool, extractionMethod: PyObj)
    ensures ValidateExtractTablesSettings(PyBool(useCascadeTabNet), PyStr("detect"), extractionMethod).Fail?
      <==> !useCascadeTabNet
  {
    assert KnownTableType(PyStr("detect"));
  }

  /** validate_form_component: the component must be one of the given keys. */
  function ValidateFormComponent(formComponent: string, validFormComponents: set<string>): (o: Outcome)
    ensures o.Pass? <==> formComponent in validFormComponents
    ensures o.Fail? ==> o.error == Exception
  {
    if formComponent !in validFormComponents then Fail(Exception) else Pass
  }

  /** validate_page_attribute: hasattr(obj, "pages"), over the names of the
      object's attributes. */
  function ValidatePageAttribute(attributes: set<string>): (o: Outcome)
    ensures o.Pass? <==> "pages" in attributes
    ensures o.Fail? ==> o.error == AttributeError
  {
    if "pages" !in attributes then Fail(AttributeError) else Pass
  }
}
