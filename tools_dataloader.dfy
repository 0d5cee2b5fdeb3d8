/** tools/dataloader.py: a loader object that accumulates the chat tables of
    the `chats` folder in its `chats` field. Its `get_keyword_df` and
    `_get_required_kw` are the shared `KeywordRules.BuildKeywordTable` and
    `KeywordRules.RequiredKeyword`. */
module ToolsDataLoader {
  import opened Wrappers
  import opened Seqs
  import opened Frames

  /** The columns `combine_chat` keeps, in this order. */
  const ChatColumns: seq<string> :=
    ["Source", "Date1", "Date2", "Time", "UserPhone", "UserName", "QuotedMessage",
     "MessageBody", "MediaType", "MediaCaption", "Reason"]

  /** `_get_chat_df`: `None` when the file could not be read, otherwise
      every row stamped with the file name as `Source` (no `Reason` here). */
  function GetChatDf(read: Option<Frame>, fileName: string): (r: Option<Frame>)
    ensures r.None? <==> read.None?
    ensures r.Some? ==> |r.value.rows| == |read.value.rows|
    ensures r.Some? ==> forall i :: 0 <= i < |r.value.rows| ==> Get(r.value.rows[i], "Source") == Str(fileName)
    ensures r.Some? ==> forall i, c :: 0 <= i < |r.value.rows| && c != "Source" ==>
      Get(r.value.rows[i], c) == Get(read.value.rows[i], c)
  {
    match read
    case None => None
    case Some(f) => Some(AssignColumn(f, "Source", Str(fileName)))
  }

  /** What `_get_chat_df` gives for each file, in directory order. */
  function LoadedAll(files: seq<(string, Option<Frame>)>): seq<Option<Frame>>
    decreases |files|
  {
    if files == [] then []
    else
      var last := files[|files| - 1];
      LoadedAll(files[..|files| - 1]) + [GetChatDf(last.1, last.0)]
  }

  /** The entry for each file is that file's `_get_chat_df`. */
  lemma {:induction false} LoadedAllAt(files: seq<(string, Option<Frame>)>, i: int)
    requires 0 <= i < |files|
    ensures |LoadedAll(files)| == |files|
    ensures LoadedAll(files)[i] == GetChatDf(files[i].1, files[i].0)
    decreases |files|
  {
    var init := files[..|files| - 1];
    if i < |files| - 1 {
      LoadedAllAt(init, i);
    } else if init != [] {
      LoadedAllAt(init, 0);
    }
  }

  /** One more file: its table, if it could be read, goes last. */
  lemma LoadedStep(files: seq<(string, Option<Frame>)>, k: int)
    requires 0 <= k < |files|
    ensures var df := GetChatDf(files[k].1, files[k].0);
      Present(LoadedAll(files[..k + 1])) == Present(LoadedAll(files[..k])) + (if df.Some? then [df.value] else [])
  {
    var df := GetChatDf(files[k].1, files[k].0);
    assert files[..k + 1][..k] == files[..k];
    PresentConcat(LoadedAll(files[..k]), [df]);
    assert [df][1..] == [];
  }

  class DataLoader {
    var chats: seq<Frame>

    constructor ()
      ensures chats == []
    {
      chats := [];
    }

    /** `get_chat_df_all`: appends the table of every readable file, in
        directory order, to `chats`. */
    method GetChatDfAll(files: seq<(string, Option<Frame>)>)
      modifies this
      ensures chats == old(chats) + Present(LoadedAll(files))
    {
      for k := 0 to |files|
        invariant chats == old(chats) + Present(LoadedAll(files[..k]))
      {
        var df := GetChatDf(files[k].1, files[k].0);
        LoadedStep(files, k);
        if df.Some? {
          chats := chats + [df.value];
        }
      }
      assert files[..|files|] == files;
    }

    /** `combine_chat`: `None` when nothing was loaded, otherwise the rows of
        all loaded tables in order, projected onto `ChatColumns`. */
    function CombineChat(): (r: Option<Frame>)
      reads this
      ensures r.None? <==> chats == []
      ensures r.Some? ==> r.value.columns == ChatColumns && WellFormed(r.value)
      ensures r.Some? ==> |r.value.rows| == TotalRows(chats)
    {
      if |chats| == 0 then None
      else
        CombineRowCount(chats, ChatColumns);
        Some(CombineProjected(chats, ChatColumns))
    }
  }
}
