/** utils/dataloader.py: chat tables of one folder and their combination.
    Its `get_keyword_df` and `_get_required_kw` are the shared
    `KeywordRules.BuildKeywordTable` and `KeywordRules.RequiredKeyword`. */
module UtilsDataLoader {
  import opened Wrappers
  import opened Seqs
  import opened Frames

  /** The columns `_combine_chat` keeps, in this order. */
  const ChatColumns: seq<string> :=
    ["Source", "Date1", "Date2", "Time", "userPhone", "quotedMessage",
     "messageBody", "mediaType", "mediaCaption", "Reason"]

  /** `_create_chat_df`: `None` when the file could not be read (`read` is
      `None`), otherwise every row stamped with the file name as `Source`
      and an empty `Reason`; no other cell changes. */
  function CreateChatDf(read: Option<Frame>, fileName: string): (r: Option<Frame>)
    ensures r.None? <==> read.None?
    ensures r.Some? ==> |r.value.rows| == |read.value.rows|
    ensures r.Some? ==> forall i :: 0 <= i < |r.value.rows| ==>
      Get(r.value.rows[i], "Source") == Str(fileName) && Get(r.value.rows[i], "Reason") == Str("")
    ensures r.Some? ==> forall i, c :: 0 <= i < |r.value.rows| && c != "Source" && c != "Reason" ==>
      Get(r.value.rows[i], c) == Get(read.value.rows[i], c)
  {
    match read
    case None => None
    case Some(f) => Some(AssignColumn(AssignColumn(f, "Source", Str(fileName)), "Reason", Str("")))
  }

  /** What `_create_chat_df` gives for each file, in directory order. */
  function CreatedAll(files: seq<(string, Option<Frame>)>): seq<Option<Frame>>
    decreases |files|
  {
    if files == [] then []
    else
      var last := files[|files| - 1];
      CreatedAll(files[..|files| - 1]) + [CreateChatDf(last.1, last.0)]
  }

  /** The entry for each file is that file's `_create_chat_df`. */
  lemma {:induction false} CreatedAllAt(files: seq<(string, Option<Frame>)>, i: int)
    requires 0 <= i < |files|
    ensures |CreatedAll(files)| == |files|
    ensures CreatedAll(files)[i] == CreateChatDf(files[i].1, files[i].0)
    decreases |files|
  {
    var init := files[..|files| - 1];
    if i < |files| - 1 {
      CreatedAllAt(init, i);
    } else if init != [] {
      CreatedAllAt(init, 0);
    }
  }

  /** One more file: its table, if it could be read, goes last. */
  lemma CreatedStep(files: seq<(string, Option<Frame>)>, k: int)
    requires 0 <= k < |files|
    ensures var df := CreateChatDf(files[k].1, files[k].0);
      Present(CreatedAll(files[..k + 1])) == Present(CreatedAll(files[..k])) + (if df.Some? then [df.value] else [])
  {
    var df := CreateChatDf(files[k].1, files[k].0);
    assert files[..k + 1][..k] == files[..k];
    PresentConcat(CreatedAll(files[..k]), [df]);
    assert [df][1..] == [];
  }

  /** `_get_chat_df_folder`: the readable files' tables, in directory order.
      Each entry of `files` is a file name with what reading it produced. */
  method ChatDfFolder(files: seq<(string, Option<Frame>)>) returns (frames: seq<Frame>)
    ensures frames == Present(CreatedAll(files))
  {
    frames := [];
    for k := 0 to |files|
      invariant frames == Present(CreatedAll(files[..k]))
    {
      var df := CreateChatDf(files[k].1, files[k].0);
      CreatedStep(files, k);
      if df.Some? {
        frames := frames + [df.value];
      }
    }
    assert files[..|files|] == files;
  }

  /** `_combine_chat`: the rows of all tables in order, projected onto
      `ChatColumns` (absent columns read as missing). `pd.concat` rejects an
      empty list, which the caller never passes. */
  function CombineChat(frames: seq<Frame>): (f: Frame)
    requires frames != []
    ensures f.columns == ChatColumns
    ensures WellFormed(f)
    ensures |f.rows| == TotalRows(frames)
  {
    CombineRowCount(frames, ChatColumns);
    CombineProjected(frames, ChatColumns)
  }
}
