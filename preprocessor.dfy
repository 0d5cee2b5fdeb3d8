/** utils/preprocessor.py: the keyword table and the chat tables of one folder,
    after the spreadsheet or CSV file has been read and validated. */
module Preprocessor {
  import opened Wrappers
  import opened KeywordRules
  import opened Frames

  /** `get_keyword_df`: `None` when `KeywordSchemaRaw.validate` rejected the
      rows (given here as `None`), otherwise the table with its headers and
      resolved `required_keyword` column. */
  method GetKeywordDf(validated: Option<seq<RawRule>>) returns (r: Option<seq<KeywordRule>>)
    ensures r.None? <==> validated.None?
    ensures r.Some? ==> |r.value| == |validated.value|
    ensures r.Some? ==> forall i :: 0 <= i < |r.value| ==>
      && r.value[i].brand == validated.value[i].brand
      && r.value[i].product == validated.value[i].product
      && r.value[i].keyword == validated.value[i].keyword
      && r.value[i].requiredProduct == validated.value[i].requiredProduct
      && r.value[i].header == validated.value[i].brand + "_" + validated.value[i].product
      && r.value[i].requiredKeyword == RequiredKeyword(validated.value[i].requiredProduct, r.value)
  {
    if validated.None? {
      return None;
    }
    var table := BuildKeywordTable(validated.value);
    return Some(table);
  }

  /** `get_chat_df`: empty cells become "", then every row is stamped with
      the file name as `Source` and with an empty `Group` and `Reason`. */
  function GetChatDf(raw: Frame, fileName: string): (f: Frame)
    ensures |f.rows| == |raw.rows|
    ensures forall i :: 0 <= i < |f.rows| ==>
      Get(f.rows[i], "Source") == Str(fileName)
      && Get(f.rows[i], "Group") == Str("")
      && Get(f.rows[i], "Reason") == Str("")
    ensures forall i, c :: 0 <= i < |f.rows| && c in raw.columns && c !in {"Source", "Group", "Reason"} ==>
      Get(f.rows[i], c) == if Get(raw.rows[i], c) == Missing then Str("") else Get(raw.rows[i], c)
    ensures WellFormed(raw) ==> WellFormed(f)
  {
    var filled := FillNa(raw, Str(""));
    AssignColumn(AssignColumn(AssignColumn(filled, "Source", Str(fileName)), "Group", Str("")), "Reason", Str(""))
  }
}
