# Keyword tagging engine of ai-listening, in Dafny

ai-listening reads exported chat logs and a spreadsheet of keyword rules.
It tags every chat message with the product labels whose keywords the
message mentions, and then asks a language model for the sentiment of each
tagged message. This project models the core of that pipeline and proves
what it computes.

- **Keyword table** (`KeywordRules`). Each rule has a brand, a product, a
  keyword and a comma-separated list of required products. The label
  ("header") of a rule is `brand_product`. Each rule's required keyword is
  resolved to the `|`-joined keywords of every rule whose product is in
  its list. The three loaders do this the same way.
- **Chat tables** (`Frames`, `Preprocessor`, `UtilsDataLoader`,
  `ToolsDataLoader`). Each table is stamped with its file name in `Source`.
  The preprocessor and utils/dataloader.py also add an empty `Reason`
  (the preprocessor an empty `Group` too). tools/dataloader.py adds no
  `Reason`: that column only appears, filled with the missing value, when
  the tables are projected. The tables of a folder are concatenated and
  projected onto a fixed column list.
- **Tagging** (`Tagging`, `TaggingProperties`, and the `ChatProcessor`
  class in `ChatProcessing`). Each label is a 0/1 column. A rule matches a
  message when the message is present, contains the keyword without regard
  to case, and contains one of the `|` alternatives of the required
  keyword, when there is one. Specific labels are tagged first. A generic
  label (one whose name contains `generic`) is only evaluated on rows where
  none of its sibling specific labels is set.
- **Sentiment** (`Sentiment`, `ChatProcessor.CheckSentiment`). Cells
  holding 0 become `""`. Each row holding 1 is sent to the analyzer. On
  success the cell becomes the returned sentiment; otherwise it stays 1.
  Either way, `header: reason\n` is appended to the row's `Reason`.
- **Keyword filter** (`Aho`). An Aho-Corasick automaton is built over a
  keyword list. A text passes when the keywords found in it meet the
  required, exclude and include lists.

## How the model is built

- Chat tables that the source updates in place are objects:
  `ChatProcessing.ChatFrame` and `ToolsDataLoader.DataLoader`. The same
  holds for the automaton (`Aho.Automaton`) and the keyword table during
  its fill loop (`KeywordRules.FillRequiredKeywords`, an `array`).
- Each method is proved equal to a specification function. The properties
  the source promises are lemmas about those functions:
  - `TagSpec` for tagging;
  - `SentimentPass` for the sentiment step;
  - `ProcessSpec` for `process_chat_df`: as written (`ChatProcessor.ProcessChatDf`,
    tagging through `_tag_keywords`) and with the corrected tagging
    (`ChatProcessor.ProcessChatDfIntended`).
- A label cell is an integer or a string, modelled as `Cell`. The source's
  `cell | int(mask)` on Python integers is written out exactly (`OrBit`).
- The language-model analyzer is a parameter: a function from one call
  (the label, the row it is made for and the user prompt) to either a reply
  or a raised error. Each tagged row is a call of its own, so rows holding
  the same message may get different replies
  (`ChatProcessing.DuplicateMessagesAnsweredApart`). Awaiting the tasks with
  `gather` is modelled as making one call for each sent row, in row order.
- File reading is a parameter too. A file is given as its name and either
  the frame it yields or `None` when it cannot be read.

Where the code and its older test file (test_main.py) disagree, the model
follows the code. A generic label is recognised by the lower-case
substring `generic` (utils/chatprocessor.py:40). The tests use labels
such as `BrandA_Generic`, which the current code treats as specific
labels. The tests also call methods the current class no longer has.

## Model

| member | source | states |
|---|---|---|
| KeywordRules.HeaderNotChatColumn | utils/preprocessor.py:25 | a label always holds "_", so it is never one of the chat columns `messageBody`, `Reason`, `Source`, `Group` |
| KeywordRules.HeaderRoundTrip | utils/preprocessor.py:25 | when brand and product hold no "_", splitting the label on "_" gives back exactly `[brand, product]` |
| KeywordRules.RequiredProducts | utils/preprocessor.py:38 | the comma-split, stripped product names of a `required_product` cell; there is always at least one name |
| KeywordRules.KeywordsOfProductsMembers | utils/preprocessor.py:39 | a keyword is collected exactly when some row whose product (not brand) is one of the names has that keyword |
| KeywordRules.KeywordsOfProductsConcat | utils/preprocessor.py:39 | the collected keywords keep table row order, with duplicates: collecting over two halves of a table concatenates the two results |
| KeywordRules.KeywordsOfProductsFrame | utils/dataloader.py:62 | the collected keywords depend only on the product and keyword columns |
| KeywordRules.RequiredKeywordFrame | utils/dataloader.py:59-63 | the required keyword of a cell depends only on the table's product and keyword columns, so the fill loop never reads what it writes |
| KeywordRules.RequiredKeywordEmpty | utils/preprocessor.py:37-40 | the joined result is "" exactly when nothing was collected or only one empty keyword was |
| KeywordRules.RequiredKeywordEmptyIffNoProduct | tools/dataloader.py:56-59 | with no empty keyword in the table, the result is "" exactly when no row's product is one of the names |
| KeywordRules.BlankRequiredProduct | utils/preprocessor.py:19 | a blank `required_product` (after `fillna("")`) names only the empty product |
| KeywordRules.RequiredKeywordAlternatives | utils/preprocessor.py:40 | splitting the required keyword on the pipe character gives back the collected keywords, when there are some and none holds a pipe |
| KeywordRules.ResolveAll | utils/preprocessor.py:29-31 | the fill loop's result keeps one rule per row |
| KeywordRules.ResolveRowKeepsProducts | utils/preprocessor.py:29-31 | one fill step writes only the row's `required_keyword`; every product and keyword is unchanged |
| KeywordRules.ResolveRowsCommute | tools/dataloader.py:51-53 | two fill steps give the same table in either order, so the loop's result does not depend on the index order |
| KeywordRules.ResolveAllIdempotent | utils/dataloader.py:54-56 | running the fill loop on a filled table changes nothing |
| KeywordRules.FillRequiredKeywords | utils/preprocessor.py:29-31 | the in-place loop over the table's array leaves every row resolved against the table as it was |
| KeywordRules.BuildKeywordTable | utils/preprocessor.py:25-31 | each rule keeps its row's fields, gets the label `brand_product`, and gets the required keyword resolved against the finished table |
| Preprocessor.GetKeywordDf | utils/preprocessor.py:14-34 | `None` exactly when validation failed; otherwise one rule per raw row, labelled and resolved |
| Preprocessor.GetChatDf | utils/preprocessor.py:79-92 | one row per raw row, with `Source` set to the file name, `Group` and `Reason` set to "", and every other missing cell set to "" |
| Frames.AssignColumn | utils/dataloader.py:95-96 | assigning a column sets that cell in every row, keeps the column list when the column exists and otherwise appends the new name last, and changes no other cell |
| Frames.FillNa | utils/preprocessor.py:83 | every missing cell of the listed columns becomes the fill value; present cells are unchanged |
| Frames.Project | utils/dataloader.py:104-118 | `reindex` keeps exactly the listed columns, with a missing cell for a column the row lacks |
| Frames.CombineProjected | utils/dataloader.py:104-118 | the combined frame has exactly the listed columns and is well formed |
| Frames.ConcatRowsAppend | utils/dataloader.py:104 | concatenating frames keeps the rows of each input in order |
| Frames.CombineAppend | utils/dataloader.py:104-118 | combining two lists of frames gives the rows of the first list, then those of the second |
| Frames.CombineSingle | utils/dataloader.py:104-118 | combining one frame keeps each of its rows' cells in the listed columns |
| Frames.CombineRowCount | utils/dataloader.py:104-118 | combining yields exactly one row per input row |
| UtilsDataLoader.CreateChatDf | utils/dataloader.py:87-98 | `None` exactly when the file could not be read; otherwise every row gets `Source` = file name and `Reason` = "", and no other cell changes |
| UtilsDataLoader.ChatDfFolder | utils/dataloader.py:77-85 | the loop keeps exactly the readable files' tables, in directory order |
| UtilsDataLoader.CreatedAllAt | utils/dataloader.py:81-82 | the per-file outcomes the loop filters are, file by file, that file's `_create_chat_df` |
| UtilsDataLoader.CombineChat | utils/dataloader.py:100-120 | exactly the ten listed columns in the listed order, one row per input row |
| ToolsDataLoader.GetChatDf | tools/dataloader.py:61-70 | `None` exactly when the file could not be read; otherwise every row gets `Source` = file name, and no other cell changes |
| ToolsDataLoader.DataLoader.GetChatDfAll | tools/dataloader.py:72-77 | `chats` grows by exactly the readable files' tables, in directory order |
| ToolsDataLoader.LoadedAllAt | tools/dataloader.py:74-75 | the per-file outcomes the loop filters are, file by file, that file's `_get_chat_df` |
| ToolsDataLoader.DataLoader.CombineChat | tools/dataloader.py:79-99 | `None` exactly when no table was loaded; otherwise the eleven listed columns, one row per loaded row |
| Seqs.Dedup | utils/chatprocessor.py:36 | `unique()`: no duplicates, and exactly the values that occur |
| Seqs.DedupPrefix | utils/chatprocessor.py:36 | more rows never reorder the labels seen so far: first-appearance order |
| Text.Split | utils/preprocessor.py:38 | no separator occurs in any piece, and there is always at least one piece |
| Text.JoinSplit | utils/preprocessor.py:38-40 | joining the pieces of a split with the separator gives back the string |
| Text.SplitJoin | utils/chatprocessor.py:268 | splitting a pipe-join gives back the pieces when no piece holds a pipe |
| Text.JoinEmpty | utils/preprocessor.py:40 | a join is "" exactly when there is nothing to join or one empty piece |
| Text.Strip | utils/preprocessor.py:38 | the result is the text between a white-space prefix and a white-space suffix of the input, and neither starts nor ends with white space |
| Text.StripUnpadded | utils/preprocessor.py:38 | a text that neither starts nor ends with white space is left unchanged |
| Text.StripPadding | utils/preprocessor.py:38 | white space on either side of a product name does not change its stripped form |
| Text.StripIdempotent | utils/preprocessor.py:38 | stripping twice is stripping once |
| Text.Lower | utils/chatprocessor.py:84 | `case=False` compares ASCII-lower-cased characters, one for one |
| Tagging.UniqueHeaders | utils/chatprocessor.py:34-36 | the labels have no duplicates, and a value is a label exactly when some rule has it |
| Tagging.HeadersPartition | utils/chatprocessor.py:38-44 | generic and specific labels partition the labels (as multisets); a label is generic exactly when it contains "generic"; neither list has duplicates |
| Tagging.RulesOf | utils/chatprocessor.py:54-55 | exactly the rules whose label is `header` |
| Tagging.RulesOfLabel | utils/chatprocessor.py:54-55 | every label of the table has at least one rule |
| Tagging.Siblings | utils/chatprocessor.py:62-63 | exactly the specific labels containing the generic label with "_generic" removed |
| Tagging.MatchEdgeCases | utils/chatprocessor.py:84-91 | a missing message never matches (`na=False`); an empty keyword with no requirement matches every message |
| Tagging.RuleMatchesResolved | utils/chatprocessor.py:84-91 | a rule with a resolved requirement matches exactly when the message has its keyword and the keyword of some rule for one of the required products |
| Tagging.SimpleKeywords | utils/chatprocessor.py:129-131 | exactly the keywords of the rules without a required keyword |
| Tagging.SimpleComplexSplit | utils/chatprocessor.py:128-157 | some rule matches exactly when a simple keyword hits or some complex rule matches, so the vectorised split loses no rule |
| Tagging.ColumnOr | utils/chatprocessor.py:165-167 | untargeted rows are unchanged; a 1 stays 1; a targeted 0 becomes 1 exactly when the mask is set |
| Tagging.Zeroes | utils/chatprocessor.py:161-162 | a new label column: one cell per row, each holding 0 |
| Tagging.VecUpdate | utils/chatprocessor.py:110-169 | a label without rules leaves the table alone; otherwise only that label's column is written (created as 0s if absent), and integer columns stay integer; that its cells stay 0/1 is `Tagging.ColumnOr` |
| Tagging.LastUpdate | utils/chatprocessor.py:76-98 | only the label's column is written, and integer columns stay integer; that its cells stay 0/1 is `Tagging.ColumnOr` |
| Tagging.SingleRuleAgreement | utils/chatprocessor.py:83-98 | for a label with exactly one rule, `_apply_mask` and `_apply_mask_vec` write the same column |
| Tagging.SkipMask | utils/chatprocessor.py:64 | one entry per row: whether some sibling column is truthy there |
| Tagging.SpecificPass | utils/chatprocessor.py:58-59 | the specific pass writes only its labels' columns, keeps the row count and keeps integer columns integer (0/1 cells: `TaggingProperties.TagSpecMonotone`) |
| Tagging.GenericPass | utils/chatprocessor.py:61-66 | the generic pass writes only its labels' columns, keeps the row count and keeps integer columns integer (0/1 cells: `TaggingProperties.TagSpecMonotone`) |
| Tagging.TagSpec | utils/chatprocessor.py:57-67 | tagging keeps the columns, keeps every label column integer, and changes no column that is not a label; that a 0 ends as 0 or 1 and a 1 stays 1 is `TaggingProperties.TagSpecMonotone` |
| TaggingProperties.SpecificPassClosed | utils/chatprocessor.py:58-59 | after the specific pass, each specific label holds its own mask ORed once into its old column, whatever the other labels |
| TaggingProperties.GenericPassClosed | utils/chatprocessor.py:61-66 | after the generic pass, each generic label holds its own mask ORed into its old column on the rows no sibling has set |
| TaggingProperties.SpecificOrderIrrelevant | utils/chatprocessor.py:58-59 | the specific labels can be tagged in any order |
| TaggingProperties.GenericOrderIrrelevant | utils/chatprocessor.py:61-66 | the generic labels read only specific columns, so they can be tagged in any order |
| TaggingProperties.SpecificAfterTag | utils/chatprocessor.py:57-59 | after tagging, a specific label holds its old column ORed with its mask; the generic pass does not touch it |
| TaggingProperties.GenericAfterTag | utils/chatprocessor.py:61-66 | after tagging, a generic label holds the column the generic pass derives from the specific pass's result |
| TaggingProperties.IntendedSpecificTag | utils/chatprocessor.py:124-126 | intended tagging: a specific label's 0 cell becomes 1 exactly when ANY of its rules matches the message |
| TaggingProperties.AsWrittenSpecificTag | utils/chatprocessor.py:83-98 | tagging as written: a specific label's cell reflects only the label's last rule |
| TaggingProperties.GenericTag | utils/chatprocessor.py:61-66 | a generic label's cell keeps its old value when a sibling is set after tagging; otherwise it is ORed with whether one of its rules matches |
| TaggingProperties.GenericWithoutSiblings | utils/chatprocessor.py:61-66 | a generic label without siblings turns a 0 into 1 exactly when one of its rules matches |
| TaggingProperties.TagSpecMonotone | utils/chatprocessor.py:93-98 | tagging never clears a flag: a 1 stays 1, and a 0 ends as 0 or 1 |
| TaggingProperties.TagSpecIdempotent | utils/chatprocessor.py:57-67 | tagging a tagged table again changes nothing, as written and as intended |
| TaggingProperties.AgreeWithSingleRules | utils/chatprocessor.py:58-59 | when every specific label has exactly one rule, the as-written and intended tagging agree |
| TaggingProperties.SingleRuleMask | utils/chatprocessor.py:83-91 | with one rule, the last rule's mask is the mask of any rule |
| TaggingProperties.LastRuleCounterexample | utils/chatprocessor.py:83-98 | one label with rules "a" and "b" and the message "a": the label's rules match, yet tagging as written leaves 0, while intended tagging sets 1 |
| Sentiment.WrapAnalyze | utils/chatprocessor.py:240-253 | the label and row travel with the reply; a raised error becomes a failed reply with sentiment "I" and the error's text as reason |
| Sentiment.ZeroToString | utils/chatprocessor.py:178-184 | every 0 becomes "" and every other cell stays |
| Sentiment.SentIndices | utils/chatprocessor.py:195-205 | a row is sent exactly when its cell is 1, in increasing row order |
| Sentiment.Results | utils/chatprocessor.py:206-215 | one result per sent row, in the order sent, each carrying the label, the row and the reply of that row's own analyzer call |
| Sentiment.RepliesPerRow | utils/chatprocessor.py:206-213 | each row is a separate analyzer call, so two rows can be given different replies whatever their messages |
| Sentiment.MergeClosed | utils/chatprocessor.py:217-227 | merging replies for distinct rows gives each sent row its sentiment (on success) and exactly one appended line; rows not sent are unchanged |
| Sentiment.HeaderSentimentCells | utils/chatprocessor.py:186-227 | per cell: 0 becomes "" with reason unchanged; 1 becomes the sentiment on success or stays 1, with `header: reason\n` appended; other cells unchanged |
| Sentiment.HeaderSentimentClosed | utils/chatprocessor.py:186-227 | the label's step turns its column into the sentiment column and appends its line to each tagged row's reason |
| Sentiment.MergeMatchesStep | utils/chatprocessor.py:188-227 | zero-to-string followed by the result loop performs exactly the sentiment step for that label |
| Sentiment.SentimentStep | utils/chatprocessor.py:188-227 | a label's step writes only that label's column and keeps every reason's row |
| Sentiment.SentimentPass | utils/chatprocessor.py:187-228 | the pass over the labels writes only their columns and keeps the row count |
| Sentiment.SentimentPassColumns | utils/chatprocessor.py:187-227 | over distinct labels, each label ends with its own sentiment column |
| Sentiment.SentimentPassReasons | utils/chatprocessor.py:187-227 | each row's reason is its old reason followed by one line per label that tagged it, in label order |
| ChatProcessing.WithZeroColumns | utils/chatprocessor.py:171-176 | every label column is all 0, and every other column is kept |
| ChatProcessing.ChatProcessor.AddHeaderColumns | utils/chatprocessor.py:171-176 | the loop sets a 0 column for each label and changes nothing else |
| ChatProcessing.ChatProcessor.ApplyMask | utils/chatprocessor.py:69-100 | raises exactly when the label has no rule, changing nothing; otherwise ORs the last rule's mask into the label's column |
| ChatProcessing.ChatProcessor.CombinedMask | utils/chatprocessor.py:138-157 | the alternation of simple keywords ORed with each complex rule is exactly "some rule matches" |
| ChatProcessing.ChatProcessor.ApplyMaskVec | utils/chatprocessor.py:103-169 | the in-place update is exactly `VecUpdate` |
| ChatProcessing.ChatProcessor.TagGeneric | utils/chatprocessor.py:61-66 | the loop over generic labels computes exactly the generic pass |
| ChatProcessing.ChatProcessor.TagKeywords | utils/chatprocessor.py:57-67 | `_tag_keywords` as written computes exactly tagging that keeps only each specific label's last rule |
| ChatProcessing.ChatProcessor.TagKeywordsIntended | utils/chatprocessor.py:57-67 | the corrected `_tag_keywords` computes exactly tagging that ORs all of each label's rules |
| ChatProcessing.ChatProcessor.TaggedRows | utils/chatprocessor.py:195-205 | the loop collects exactly the rows holding 1, in order |
| ChatProcessing.ChatProcessor.MergeReplies | utils/chatprocessor.py:217-227 | the result loop computes exactly the merge of the replies, writing only the label's column and `Reason` |
| ChatProcessing.ChatProcessor.CheckHeader | utils/chatprocessor.py:188-227 | one label's zero-to-string, send and merge perform exactly the sentiment step |
| ChatProcessing.ChatProcessor.CheckSentiment | utils/chatprocessor.py:186-228 | the loop over labels performs exactly the sentiment pass; it raises exactly when there is no label |
| ChatProcessing.ChatProcessor.GetKeywordsForPrompt | utils/chatprocessor.py:262-271 | a word is listed exactly when it is the keyword of one of the label's rules or one alternative of its required keyword |
| ChatProcessing.ChatProcessor.ProcessChatDf | utils/chatprocessor.py:46-52 | the whole step as written equals zero columns, then tagging through `_tag_keywords` (last rule only for specific labels), then sentiment; it raises exactly when there is no label |
| ChatProcessing.ChatProcessor.ProcessChatDfIntended | utils/chatprocessor.py:46-52 | the same step with the corrected tagging, where a specific label counts any of its rules; it raises exactly when there is no label |
| ChatProcessing.ProcessedColumn | utils/chatprocessor.py:46-52 | after processing, as written or corrected, each label column is the sentiment column of what that tagging left there |
| ChatProcessing.ProcessedSpecificCellAsWritten | utils/chatprocessor.py:46-52 | after processing as written, a specific label's cell is "" when the label's last rule does not match; otherwise the sentiment, or 1 when analysis failed |
| ChatProcessing.ProcessedSpecificCell | utils/chatprocessor.py:46-52 | after processing with the corrected tagging, a specific label's cell is "" when no rule matches; otherwise the sentiment, or 1 when analysis failed |
| ChatProcessing.ProcessedGenericCell | utils/chatprocessor.py:61-66 | after processing, as written or corrected, a generic label's cell is "" when a sibling was tagged by that tagging or no rule matches; otherwise the sentiment, or 1 when analysis failed |
| ChatProcessing.ProcessedReason | utils/chatprocessor.py:224-226 | after processing, as written or corrected, each row's reason is its old reason followed by one line per label that tagged it, in label order |
| ChatProcessing.DuplicateMessagesAnsweredApart | utils/chatprocessor.py:206-213 | two tagged rows holding the same message can end with different sentiments, since each is a call of its own |
| ChatProcessing.ProcessLastRuleCounterexample | utils/chatprocessor.py:46-52 | one label with rules "a" and "b" and the message "a": as written the processed cell is "" and no reason is added; corrected, the analyzer's answer is recorded and its reason line appended |
| Aho.Automaton.AddWord | tools/aho.py:6 | a new key is appended; a key already present only gets its value replaced |
| Aho.Automaton.Found | tools/aho.py:14 | a keyword is found exactly when it was added, is not empty and occurs in the text |
| Aho.BuildAutomaton | tools/aho.py:3-8 | the automaton holds exactly the distinct keywords, in order |
| Aho.BuiltAutomatonFinds | tools/aho.py:3-8 | the built automaton finds a keyword exactly when it was among the keywords, is not empty and occurs in the text |
| Aho.MatchesKeywordAho | tools/aho.py:10-35 | the three checks with early returns compute exactly the conjunction: something required is found (when required is not empty), nothing excluded is found, and something included is found (when include is not empty) |
| Aho.EmptyConfigAccepts | tools/aho.py:35 | with all three lists empty, every text passes |
| Aho.OnlyAddedKeywordsMatter | tools/aho.py:3-8 | configurations that agree on the added keywords judge every text alike |
| Aho.UnaddedRequiredFails | tools/aho.py:12-18 | when required is not empty but none of its keywords was added, no text passes |

## Left out

- `_run_async_check` and the asyncio machinery (semaphore, `sleep(1)`, `gather`) are not modelled. This is concurrency. Results are modelled as coming back in the order sent, which is what `gather` guarantees.
- The language-model client (utils/ai.py, tools/ai.py) is not modelled; it is network I/O. The analyzer is a parameter.
- `_add_keywords_for_system_prompt` is left out. It serialises the keyword table to JSON and calls `system_prompt_insert_keywords`, which replaces the analyzer's system prompt with one listing the table; every later `analyze` call in `process_chat_df` uses that prompt. The analyzer parameter stands for the analyzer after that call.
- `save_result` and `output_to_xlsx` are left out (Excel output). So are `get_chat_df_dict`, `get_chat_dfs` and directory iteration. A folder is given as its list of files.
- utils/merger.py, utils/loader.py and main.py are not part of this model. They are file handling and command-line wiring.
- pandera validation (utils/validator.py) is not modelled: validated tables are given. `Preprocessor.GetKeywordDf` receives the validator's verdict as an `Option`.
- Regular expressions are not modelled beyond literal keywords and `|` alternation in required keywords. A keyword is matched as plain text, including where the source passes it unescaped to `str.contains`.
- Case folding is ASCII lower-casing only; Unicode case folding is not modelled.
- ChatProcessing.ChatProcessor.GetKeywordsForPrompt: returns the set of words. The `", ".join(set(...))` order depends on Python's set iteration order, so it is not modelled.
- Aho.Automaton.Found: `make_automaton` and the trie are abstracted to "the added, non-empty keys occurring in the text", each listed once. `iter` reports every occurrence with its end position; the checks only ask whether a keyword occurs, so positions and repeats are not modelled.
- ChatProcessing.ChatFrame: holds only the columns the processor reads or writes (`messageBody`, `Reason`, the label columns). The other chat columns pass through untouched.
- A keyword-table read failure in the two `DataLoader.get_keyword_df` versions is not modelled. There, `keywords` is unbound and the next line raises.
- The `df is None` branches of `Preprocessor.get_keyword_df` and `get_chat_df` are not modelled separately. The loaders raise rather than return `None`, so those branches are never reached.

## Findings

| source | as written | input that shows it | evidently intended | confidence | as-written member | corrected member |
|---|---|---|---|---|---|---|
| utils/chatprocessor.py:58-59, 83-98 | `_tag_keywords` tags specific labels with `_apply_mask`, whose loop overwrites `final_mask` for each rule, so only the label's last rule counts | one label `B_P` with rules `a` and `b`, message `"a"`: the label stays 0 | a label is tagged when ANY of its rules matches, as `_apply_mask_vec` and the comment at lines 125-126 say | not executed | TaggingProperties.LastRuleCounterexample | TaggingProperties.IntendedSpecificTag |

`ChatProcessing.ChatProcessor.TagKeywords` models the tagging as written.
`ChatProcessing.ChatProcessor.TagKeywordsIntended` is the corrected
tagging. `ChatProcessing.ChatProcessor.ProcessChatDf` is the pipeline as
written and `ChatProcessing.ChatProcessor.ProcessChatDfIntended` the
corrected one; `ChatProcessing.ProcessLastRuleCounterexample` shows the
same input through both pipelines.
