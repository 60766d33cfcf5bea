# Kanban board and chat assistant: a verified model of the client logic

This project models, in Dafny, the sequential logic of a small kanban web client with an AI chat
panel. It covers three parts:

- **The streaming reply decoder of the chat panel.** `sendMessage` reads the assistant's reply
  as a stream of Server-Sent Events (WHATWG HTML Standard, section 9.2, "Server-sent events"),
  classifying its lines in its own simpler way.
  - It keeps a text buffer that grows by one decoded chunk at a time.
  - It cuts `\n`-terminated lines off the front of the buffer and drops one trailing `\r` from
    each.
  - It ignores comment, blank and non-`data: ` lines.
  - It stops at the `[DONE]` payload.
  - Any other payload is parsed as JSON. A non-empty `choices[0].delta.content` is appended to
    the reply, which is shown as the trailing assistant message.
  - When a payload does not parse, the line is put back in front of the buffer and the pass
    ends.
- **The task-list transitions of the `useTasks` hook**, applied after each remote call answers:
  - the position a new task is given, and appending the inserted row;
  - the id-targeted merge of an update;
  - the removal of a task;
  - the move rule;
  - the per-column view sorted by position.
- **The board's drag handlers**: the card being dragged, and the rule that turns a drop into a
  move request. A column under the pointer takes precedence over a task card.

Files and modules:

| file | module | contents |
|---|---|---|
| `types.dfy` | `Types` | statuses, priorities, the task and chat-message records, the columns, the priority labels |
| `js_string.dfy` | `JsString` | `indexOf` of one character and `trim`, with the ECMAScript whitespace set |
| `chat_stream.dfy` | `ChatStream` | the decoder as functions: line classification, one scan pass (`Scan`), the read loop over chunks (`Decode`), the message upsert |
| `chat_stream_props.dfy` | `ChatStreamProps` | a line-level reading of the whole input (`Lines`, `Fragments`, `Ending`, `Unread`) and the theorems that tie the decoder to it |
| `ai_chat_panel.dfy` | `AIChatPanel` | the imperative code: the inner loop as a method with loop invariants, and the panel class whose `SendMessage` runs the outer loop |
| `use_tasks.dfy` | `UseTasks` | the list transitions as functions, their lemmas, and the `TaskStore` class holding `tasks` |
| `kanban_board.dfy` | `KanbanBoard` | the drop rule, its lemmas, and the `Board` class holding `activeTask` |

The JSON step is a parameter, `parse: string -> ParseResult`:
- `ParseFail` stands for `JSON.parse` or the property chain throwing, or the conversion of
  the content to a string throwing.
- `Parsed(content)` carries the content when it is a string (see "## Left out" for other
  contents).

The network reader is a sequence of already-decoded chunks. Each remote call of the hook is
represented only by its outcome.

The central theorems of the decoder:
- `ChatStreamProps.ChunkBoundaryIndependence`: reading the chunks one at a time gives the same
  reply, messages and sentinel outcome as one pass over their concatenation. When that pass
  drains, the buffer holds exactly the text after the last `\n`.
- `ChatStreamProps.ReplyIsFragmentsOfCompleteLines`: the reply is the in-order concatenation of
  the non-empty fragments of the complete lines, up to the sentinel or the first payload that
  does not parse.

`AIChatPanel.DrainLines` and `AIChatPanel.ChatPanel.SendMessage` are proved against those
functions.

## Model

| member | source | states |
|---|---|---|
| `Types.EachStatusHasOneColumn` | src/lib/types.ts:22-27 | every status has exactly one column in `COLUMNS` |
| `Types.StatusIdInjective` | src/lib/types.ts:1 | the four status strings are distinct, so a column id names one status |
| `Types.ColumnsInWorkflowOrder` | src/lib/types.ts:22-27 | `COLUMNS` lists backlog, todo, in progress, done, in that order, each once |
| `Types.PriorityLabelsDistinct` | src/lib/types.ts:29-33 | `PRIORITY_LABELS` gives every priority a non-empty label, and no two share one |
| `Types.StatusId` | src/lib/types.ts:1 | the string of each status; `Types.StatusIdInjective` proves no two statuses share one |
| `Types.PriorityLabel` | src/lib/types.ts:29-33 | the `PRIORITY_LABELS` entry of each priority; `Types.PriorityLabelsDistinct` proves the labels non-empty and distinct |
| `JsString.IndexOf` | src/components/chat/AIChatPanel.tsx:63 | `indexOf` is -1 exactly when the character is absent, otherwise an index into the string |
| `JsString.IndexOfFirst` | src/components/chat/AIChatPanel.tsx:63 | a found index holds the character and no earlier position does |
| `JsString.IndexOfAppend` | src/components/chat/AIChatPanel.tsx:60 | appending text after an occurrence does not move the first occurrence |
| `JsString.IndexOfAfter` | src/components/chat/AIChatPanel.tsx:85 | in `line + "\n" + rest` with no `\n` in `line`, the first `\n` is at `line.length` |
| `JsString.IsWhitespace` | src/components/chat/AIChatPanel.tsx:67 | the characters `trim()` removes: the ECMAScript WhiteSpace and LineTerminator code points; `JsString.TrimShape` characterises `trim()` through it |
| `JsString.TrimStart` | src/components/chat/AIChatPanel.tsx:67 | leading half of `trim()`; `JsString.TrimStartShape` characterises it |
| `JsString.TrimEnd` | src/components/chat/AIChatPanel.tsx:67 | trailing half of `trim()`; `JsString.TrimEndShape` characterises it |
| `JsString.Trim` | src/components/chat/AIChatPanel.tsx:67-69 | `String.prototype.trim`; `JsString.TrimShape` and `JsString.TrimIsInfix` characterise it |
| `JsString.TrimStartShape` | src/components/chat/AIChatPanel.tsx:67 | leading trim leaves a suffix that starts with a non-whitespace character, and removes only whitespace |
| `JsString.TrimEndShape` | src/components/chat/AIChatPanel.tsx:67 | trailing trim leaves a prefix that ends with a non-whitespace character, and removes only whitespace |
| `JsString.TrimShape` | src/components/chat/AIChatPanel.tsx:67 | `trim()` is empty exactly for all-whitespace input; otherwise it neither starts nor ends with whitespace |
| `JsString.TrimIsInfix` | src/components/chat/AIChatPanel.tsx:69 | the trimmed string is a substring of the input and only whitespace lies around it |
| `JsString.TrimIgnoresTrailingWhitespace` | src/components/chat/AIChatPanel.tsx:66-69 | one more whitespace character at the end (such as a `\r`) does not change what `trim()` returns |
| `JsString.TrimStartAllWhitespace` | src/components/chat/AIChatPanel.tsx:67 | leading trim removes all of an all-whitespace string |
| `JsString.TrimStartAppend` | src/components/chat/AIChatPanel.tsx:67 | leading trim of a string followed by whitespace: empty if the string is all whitespace, otherwise the trimmed string followed by that whitespace |
| `ChatStream.StripCRShape` | src/components/chat/AIChatPanel.tsx:66 | the CR strip removes one character exactly when the line ends in `\r`, and that character only |
| `ChatStream.StripCR` | src/components/chat/AIChatPanel.tsx:66 | dropping one trailing `\r`; `ChatStream.StripCRShape` characterises it |
| `ChatStream.Classify` | src/components/chat/AIChatPanel.tsx:67-70 | the comment, blank, prefix and `[DONE]` tests on a line; `ChatStream.ClassifyMeaning` characterises it |
| `ChatStream.ClassifyMeaning` | src/components/chat/AIChatPanel.tsx:67-70 | a line is ignored exactly when it lacks the `data: ` prefix; it is the sentinel exactly when its trimmed payload is `[DONE]`; otherwise its payload is the trimmed rest of the line |
| `ChatStream.DataLineIsNeitherCommentNorBlank` | src/components/chat/AIChatPanel.tsx:67-68 | a line with the `data: ` prefix is neither a comment nor blank, so those tests never decide more than the prefix test |
| `ChatStream.UpsertShape` | src/components/chat/AIChatPanel.tsx:76-82 | after the update the last message is the assistant's, holding the reply; after a trailing assistant message the length is the same and earlier messages are untouched; otherwise exactly one message is appended |
| `ChatStream.UpsertAssistant` | src/components/chat/AIChatPanel.tsx:76-82 | the `setMessages` updater; `ChatStream.UpsertShape` characterises it and `ChatStreamProps.UpsertAbsorbs` shows repeated updates collapse |
| `ChatStream.ActMeaning` | src/components/chat/AIChatPanel.tsx:66-87 | the effect of one line: a line without the prefix is skipped; `[DONE]` finishes; a payload that does not parse fails; a parsed payload appends its content when it is a non-empty string and is skipped otherwise |
| `ChatStream.Act` | src/components/chat/AIChatPanel.tsx:66-87 | the effect of one complete line; `ChatStream.ActMeaning` characterises it |
| `ChatStream.Scan` | src/components/chat/AIChatPanel.tsx:63-88 | one pass of the inner loop; `ChatStreamProps.ScanReadsLines` ties it to the line-level reading, and `AIChatPanel.DrainLines` implements it |
| `ChatStream.Decode` | src/components/chat/AIChatPanel.tsx:57-89 | the outer read loop over the chunks; `ChatStreamProps.ChunkBoundaryIndependence` and `ChatStreamProps.ReplyIsFragmentsOfCompleteLines` characterise it, and `AIChatPanel.ChatPanel.SendMessage` implements it |
| `ChatStream.Start` | src/components/chat/AIChatPanel.tsx:28-33 | the reading state when the request starts: the messages shown with the user message, an empty `assistantSoFar`, and (at lines 54-55) an empty `textBuffer` and `streamDone` false; `AIChatPanel.ChatPanel.SendMessage` starts the outer loop from it |
| `ChatStream.AfterPass` | src/components/chat/AIChatPanel.tsx:57-70 | the state the outer loop sees after one pass, with `streamDone` set exactly when the pass saw `[DONE]`; `AIChatPanel.DrainLines` ends in it |
| `ChatStreamProps.NoNewlineInLines` | src/components/chat/AIChatPanel.tsx:63-65 | no extracted line and no unterminated tail contains `\n` |
| `ChatStreamProps.NoNewlineInCompleteLines` | src/components/chat/AIChatPanel.tsx:63-65 | no extracted line contains `\n` |
| `ChatStreamProps.NoNewlineInTail` | src/components/chat/AIChatPanel.tsx:63 | the text after the last `\n` contains no `\n` |
| `ChatStreamProps.SplitAtNewline` | src/components/chat/AIChatPanel.tsx:64-65 | at the `\n` position, line + `"\n"` + new buffer is the old buffer |
| `ChatStreamProps.LinesThenTail` | src/components/chat/AIChatPanel.tsx:63-65 | the buffer is its complete lines, each followed by `\n`, then the unterminated tail |
| `ChatStreamProps.SplitTerminated` | src/components/chat/AIChatPanel.tsx:63-65 | conversely, `\n`-free lines and a `\n`-free tail split back into exactly those lines and that tail |
| `ChatStreamProps.Lines` | src/components/chat/AIChatPanel.tsx:63-65 | the complete lines of a text, the line-level reading's input; `ChatStreamProps.LinesThenTail` and `ChatStreamProps.SplitTerminated` characterise it |
| `ChatStreamProps.Unterminated` | src/components/chat/AIChatPanel.tsx:63 | the text after the last `\n`; the same lemmas characterise it |
| `ChatStreamProps.UnterminatedTextAddsNoLine` | src/components/chat/AIChatPanel.tsx:63 | text without `\n` added at the end adds no complete line |
| `ChatStreamProps.FragmentsAppend` | src/components/chat/AIChatPanel.tsx:63-88 | reading stops at the first line that finishes or fails; after lines that do neither, the following lines are read on |
| `ChatStreamProps.Fragments` | src/components/chat/AIChatPanel.tsx:74-75 | the content the complete lines contribute, up to the first that finishes or fails; `ChatStreamProps.FragmentsAppend` characterises it |
| `ChatStreamProps.Ending` | src/components/chat/AIChatPanel.tsx:70-87 | how reading the complete lines ends; `ChatStreamProps.FragmentsAppend` characterises it |
| `ChatStreamProps.Unread` | src/components/chat/AIChatPanel.tsx:63-87 | what reading the complete lines leaves in the buffer; `ChatStreamProps.UnreadWhenDrained` and `ChatStreamProps.UnreadWhenStalled` characterise it |
| `ChatStreamProps.StopAt` | src/components/chat/AIChatPanel.tsx:63-87 | the index of the first complete line that finishes or fails; `ChatStreamProps.UnreadWhenStalled` characterises it |
| `ChatStreamProps.UnreadWhenDrained` | src/components/chat/AIChatPanel.tsx:63 | when no complete line finishes or fails, only the unterminated tail is left |
| `ChatStreamProps.UnreadWhenStalled` | src/components/chat/AIChatPanel.tsx:84-87 | when a line fails, it is the first line that stops the reading, and what is left is that line without its `\r`, its `\n`, the lines after it and the tail |
| `ChatStreamProps.IgnoredLineAddsNothing` | src/components/chat/AIChatPanel.tsx:67-68 | a skipped line anywhere among the others changes neither the fragments nor how reading ends |
| `ChatStreamProps.SentinelLineEndsReply` | src/components/chat/AIChatPanel.tsx:70 | after a sentinel line no later line contributes a fragment, and reading ends at the sentinel |
| `ChatStreamProps.ScanReadsLines` | src/components/chat/AIChatPanel.tsx:63-88 | one scan pass grows the reply by exactly the fragments of the buffer's complete lines up to the first stopping line, ends as those lines say, and leaves unread what `Unread` says |
| `ChatStreamProps.FinishReadsLines` | src/components/chat/AIChatPanel.tsx:70 | a first sentinel line adds nothing, ends the pass at the sentinel and leaves the lines after it and the tail |
| `ChatStreamProps.FailReadsLines` | src/components/chat/AIChatPanel.tsx:84-87 | a first line that does not parse adds nothing, stalls the pass and leaves that line without its `\r`, then the lines after it and the tail |
| `ChatStreamProps.FirstLineThenRest` | src/components/chat/AIChatPanel.tsx:63-65 | the first complete line is the text before the first `\n`, and the text after it is the remaining complete lines, terminated, then the same tail |
| `ChatStreamProps.SkipReadsLines` | src/components/chat/AIChatPanel.tsx:67-68 | after a skipped first line the pass reads the remaining lines |
| `ChatStreamProps.AppendReadsLines` | src/components/chat/AIChatPanel.tsx:74-75 | after a first line with a fragment the reply holds that fragment, then those of the remaining lines |
| `ChatStreamProps.ConcatCons` | src/components/chat/AIChatPanel.tsx:75 | the concatenation of fragments is the first fragment followed by the concatenation of the rest (a one-step unfolding of `Concat`, used as a proof step) |
| `ChatStreamProps.UpsertAbsorbs` | src/components/chat/AIChatPanel.tsx:76-82 | two updates in a row leave what the later one alone leaves, so a later `assistantSoFar` read by an earlier queued update changes nothing |
| `ChatStreamProps.ShowsLongerReply` | src/components/chat/AIChatPanel.tsx:75-82 | when the messages show the reply, appending a non-empty fragment and updating shows the longer reply |
| `ChatStreamProps.AppendedFragmentIsNonEmpty` | src/components/chat/AIChatPanel.tsx:74 | a line that appends, appends a non-empty fragment |
| `ChatStreamProps.ScanShowsReply` | src/components/chat/AIChatPanel.tsx:74-82 | after a pass the messages are the request's messages with the reply as one trailing assistant message once it is non-empty |
| `ChatStreamProps.SkipShowsReply` | src/components/chat/AIChatPanel.tsx:67-68 | the same, through a skipped first line |
| `ChatStreamProps.AppendShowsReply` | src/components/chat/AIChatPanel.tsx:75-82 | the same, through a first line that appends a fragment |
| `ChatStreamProps.DecodeShowsReply` | src/components/chat/AIChatPanel.tsx:57-89 | the same holds through the whole read loop |
| `ChatStreamProps.DataPayloadStripCR` | src/components/chat/AIChatPanel.tsx:66-69 | stripping a `\r` changes neither whether a line has the `data: ` prefix nor its trimmed payload |
| `ChatStreamProps.ClassifyIgnoresSecondStrip` | src/components/chat/AIChatPanel.tsx:85 | a line put back after a failure is classified as it was when first read |
| `ChatStreamProps.ActIgnoresSecondStrip` | src/components/chat/AIChatPanel.tsx:85 | a line put back after a failure has the same effect when read again |
| `ChatStreamProps.StallRestoresLine` | src/components/chat/AIChatPanel.tsx:84-87 | a pass that stops on a payload that does not parse leaves the first complete line that stops the reading, which is that failing line, without its `\r`, then its `\n`, the complete lines after it and the unterminated tail; the buffer's first line therefore fails again |
| `ChatStreamProps.DrainedLeavesTail` | src/components/chat/AIChatPanel.tsx:63-65 | a pass that drains leaves exactly the text after the last `\n` of its buffer |
| `ChatStreamProps.ScanSkips` | src/components/chat/AIChatPanel.tsx:67-68 | a skipped first line is removed and the pass goes on with reply and messages unchanged (a one-step unfolding of `Scan`, used as a proof step) |
| `ChatStreamProps.ScanAppends` | src/components/chat/AIChatPanel.tsx:74-82 | a first line with content is removed; the pass goes on with the fragment appended and shown (a one-step unfolding of `Scan`, used as a proof step) |
| `ChatStreamProps.ScanFinishes` | src/components/chat/AIChatPanel.tsx:70 | a first sentinel line is removed and the pass ends at the sentinel with reply and messages unchanged (a one-step unfolding of `Scan`, used as a proof step) |
| `ChatStreamProps.ScanDrains` | src/components/chat/AIChatPanel.tsx:63 | without a `\n` the pass ends at once, with the buffer as it is (a one-step unfolding of `Scan`, used as a proof step) |
| `ChatStreamProps.ScanFails` | src/components/chat/AIChatPanel.tsx:84-87 | a first line that does not parse is put back, CR-stripped, with its `\n`, and the pass ends (a one-step unfolding of `Scan`, used as a proof step) |
| `ChatStreamProps.RestoredLineFailsFirst` | src/components/chat/AIChatPanel.tsx:85 | the buffer built on a failure starts with a complete line that fails again |
| `ChatStreamProps.FailingLineStallsAgain` | src/components/chat/AIChatPanel.tsx:84-87 | a buffer whose first line fails stalls again at once, adding nothing and leaving a failing first line |
| `ChatStreamProps.ScanAppend` | src/components/chat/AIChatPanel.tsx:60-63 | text appended to the buffer is read after its complete lines: a drained pass continues on the leftover text; a stopped pass stops the same way, with the appended text left unread |
| `ChatStreamProps.DrainedScanAppend` | src/components/chat/AIChatPanel.tsx:60-63 | a pass that drains, then a pass over the leftover text with more text appended, equals one pass over the buffer with that text appended |
| `ChatStreamProps.DrainedSkipAppend` | src/components/chat/AIChatPanel.tsx:67-68 | the same, through a skipped first line |
| `ChatStreamProps.DrainedAppendAppend` | src/components/chat/AIChatPanel.tsx:74-82 | the same, through a first line that appends |
| `ChatStreamProps.ScanSkipsAppended` | src/components/chat/AIChatPanel.tsx:60-68 | a skipped first line is skipped the same way when more text follows |
| `ChatStreamProps.ScanAppendsAppended` | src/components/chat/AIChatPanel.tsx:60-82 | a first line that appends does the same when more text follows |
| `ChatStreamProps.StoppedScanAppend` | src/components/chat/AIChatPanel.tsx:60-87 | a pass that stops at the sentinel or a failure stops the same way with more text appended, which stays unread |
| `ChatStreamProps.StoppedSkipAppend` | src/components/chat/AIChatPanel.tsx:67-68 | the same, through a skipped first line |
| `ChatStreamProps.StoppedAppendAppend` | src/components/chat/AIChatPanel.tsx:74-82 | the same, through a first line that appends |
| `ChatStreamProps.StoppedFailAppend` | src/components/chat/AIChatPanel.tsx:84-87 | a failing first line is put back the same way with more text appended after the rest |
| `ChatStreamProps.AppendKeepsFirstLine` | src/components/chat/AIChatPanel.tsx:60-65 | appending to a buffer with a `\n` keeps its first line, and appends to what follows it |
| `ChatStreamProps.FailsFirstAppend` | src/components/chat/AIChatPanel.tsx:60 | a buffer whose first line fails still does once a chunk is appended |
| `ChatStreamProps.ReachedAfterChunk` | src/components/chat/AIChatPanel.tsx:57-63 | one more chunk keeps the loop's state in agreement with one pass over all the text so far on the reply, the messages and whether the sentinel was seen; the buffer is the text after the last `\n` when that pass drains, and starts with a failing line when it stalls |
| `ChatStreamProps.SentinelStaysReached` | src/components/chat/AIChatPanel.tsx:57 | after the sentinel, the state still agrees with one pass over all the text, with more text added, on the reply, the messages and the sentinel |
| `ChatStreamProps.DecodeReached` | src/components/chat/AIChatPanel.tsx:57-89 | the read loop over any chunks ends in agreement with one pass over all the text on the reply, the messages and whether the sentinel was seen; the buffer is the text after the last `\n` when that pass drains, and starts with a failing line when it stalls |
| `ChatStreamProps.ChunkBoundaryIndependence` | src/components/chat/AIChatPanel.tsx:57-89 | reading the chunks one at a time gives the reply, messages and sentinel outcome of one pass over their concatenation; when that pass drains, the buffer holds exactly the text after the last `\n` |
| `ChatStreamProps.SameTextSameReply` | src/components/chat/AIChatPanel.tsx:57-89 | two deliveries of the same text, cut into chunks in any way, give the same reply, messages and sentinel outcome |
| `ChatStreamProps.ReplyIsFragmentsOfCompleteLines` | src/components/chat/AIChatPanel.tsx:57-89 | the reply is the in-order concatenation of the fragments of the complete lines up to the sentinel or first failure; the messages show it as one trailing assistant message once non-empty |
| `ChatStreamProps.ConcatAppend` | src/components/chat/AIChatPanel.tsx:60 | concatenating two runs of chunks concatenates their texts |
| `ChatStreamProps.UnterminatedTailDropped` | src/components/chat/AIChatPanel.tsx:58-59 | unterminated text at the end of the stream adds nothing to the reply and does not reach the sentinel |
| `ChatStreamProps.DecodeAppend` | src/components/chat/AIChatPanel.tsx:57-60 | reading two runs of chunks is reading the first, then the second from where it left off |
| `ChatStreamProps.SentinelEndsDecoding` | src/components/chat/AIChatPanel.tsx:57 | once the sentinel is seen no later chunk is read: the state stays as it was |
| `ChatStreamProps.StallFreezesReply` | src/components/chat/AIChatPanel.tsx:84-87 | once a payload fails to parse, the reply and messages never change again and the sentinel is never reached, whatever text follows |
| `AIChatPanel.DrainLines` | src/components/chat/AIChatPanel.tsx:62-88 | the inner loop ends in the buffer, reply, messages and `streamDone` of one scan pass over its starting state |
| `AIChatPanel.IgnoredLineIsSkipped` | src/components/chat/AIChatPanel.tsx:67-68 | a comment, blank or non-`data: ` line is a skipping step of the pass |
| `AIChatPanel.SentinelLineFinishes` | src/components/chat/AIChatPanel.tsx:70 | a `[DONE]` payload ends the pass at the sentinel |
| `AIChatPanel.PayloadLineFails` | src/components/chat/AIChatPanel.tsx:84-86 | a payload that does not parse ends the pass with the line put back |
| `AIChatPanel.PayloadLineAppends` | src/components/chat/AIChatPanel.tsx:73-82 | a non-empty content is appended to the reply, which is then shown |
| `AIChatPanel.EmptyPayloadIsSkipped` | src/components/chat/AIChatPanel.tsx:73-74 | an absent or empty content is a skipping step |
| `AIChatPanel.ChatPanel.constructor` | src/components/chat/AIChatPanel.tsx:13-15 | the panel starts with no messages, an empty input and no request in flight |
| `AIChatPanel.ChatPanel.SetInput` | src/components/chat/AIChatPanel.tsx:176 | typing sets the input and nothing else |
| `AIChatPanel.ChatPanel.SendMessage` | src/components/chat/AIChatPanel.tsx:25-89 | nothing changes while the trimmed input is empty or a request is in flight; otherwise the input is cleared and the messages become the earlier ones, then the trimmed input as a user message, then the assistant's reply made of the fragments of the complete lines received, when non-empty |
| `UseTasks.InStatusAppend` | src/hooks/useTasks.ts:34 | the status filter distributes over concatenation, so it keeps relative order |
| `UseTasks.InStatusMembers` | src/hooks/useTasks.ts:34 | the status filter keeps exactly the tasks of that status, as often as they occur |
| `UseTasks.InStatus` | src/hooks/useTasks.ts:34 | the filter on status, also at lines 72 and 77; `UseTasks.InStatusAppend` and `UseTasks.InStatusMembers` characterise it |
| `UseTasks.WithoutIdAppend` | src/hooks/useTasks.ts:64 | the delete filter distributes over concatenation, so the other tasks keep their relative order |
| `UseTasks.WithoutIdMembers` | src/hooks/useTasks.ts:64 | after deletion no task has the id and every other task remains, as often as before |
| `UseTasks.WithoutId` | src/hooks/useTasks.ts:64 | the delete filter; `UseTasks.WithoutIdAppend` and `UseTasks.WithoutIdMembers` characterise it |
| `UseTasks.FindMeaning` | src/hooks/useTasks.ts:69 | `find` fails exactly when no task has the id, and otherwise gives the first task that has it |
| `UseTasks.Find` | src/hooks/useTasks.ts:69 | `tasks.find` by id; `UseTasks.FindMeaning` characterises it |
| `UseTasks.AppendedRowEndsItsColumn` | src/hooks/useTasks.ts:34-46 | the appended row comes after every task of its status in list order (before the per-column sort), at the index equal to the position it was given |
| `UseTasks.AddAfterDeleteCanSortFirst` | src/hooks/useTasks.ts:34-35 | after a delete leaves a gap, a task added with the column count as position sorts ahead of an older task of that column |
| `UseTasks.MoveCanSortFirst` | src/hooks/useTasks.ts:72-77 | a task moved into a column whose positions lie above its count sorts ahead of the tasks already there |
| `UseTasks.AppendedRowLeavesOtherColumns` | src/hooks/useTasks.ts:46 | appending a row leaves every other column as it was |
| `UseTasks.MergeShape` | src/hooks/useTasks.ts:55 | each supplied field takes its new value and each absent one keeps the task's; id, owner and timestamps never change |
| `UseTasks.MergeEmptyAndTwice` | src/hooks/useTasks.ts:55 | an empty update changes nothing, and two updates merge as the later fields over the earlier ones |
| `UseTasks.Merge` | src/hooks/useTasks.ts:55 | the spread `{ ...t, ...updates }`; `UseTasks.MergeShape` and `UseTasks.MergeEmptyAndTwice` characterise it |
| `UseTasks.UpdatedShape` | src/hooks/useTasks.ts:55 | the update keeps length and order; tasks with another id are untouched and the task with the id gets the merge |
| `UseTasks.UpdateOfMissingIdChangesNothing` | src/hooks/useTasks.ts:55 | an update for an id no task has leaves the list as it was |
| `UseTasks.Updated` | src/hooks/useTasks.ts:55 | the id-targeted map; `UseTasks.UpdatedShape` and `UseTasks.UpdateOfMissingIdChangesNothing` characterise it |
| `UseTasks.MovedTaskShape` | src/hooks/useTasks.ts:72-73 | a moved task takes the new status and, as position, the count of the tasks in that status before the move, with every other field kept |
| `UseTasks.MoveUpdates` | src/hooks/useTasks.ts:72-73 | the update `moveTask` sends; `UseTasks.MovedTaskShape` characterises it |
| `UseTasks.SortedCons` | src/hooks/useTasks.ts:77 | a task no later than every task of a sorted list, put in front, keeps it sorted |
| `UseTasks.InsertKeepsLowerBound` | src/hooks/useTasks.ts:77 | inserting a task keeps a lower bound on positions that the task respects |
| `UseTasks.InsertByPositionSorted` | src/hooks/useTasks.ts:77 | inserting into a sorted list keeps it sorted |
| `UseTasks.InsertByPositionPermutes` | src/hooks/useTasks.ts:77 | inserting adds exactly the inserted task |
| `UseTasks.SortByPositionShape` | src/hooks/useTasks.ts:77 | the sort orders by position and is a permutation of its input |
| `UseTasks.InsertByPosition` | src/hooks/useTasks.ts:77 | one insertion step of the sort; `UseTasks.InsertByPositionSorted` and `UseTasks.InsertByPositionPermutes` characterise it |
| `UseTasks.SortByPosition` | src/hooks/useTasks.ts:77 | `.sort((a, b) => a.position - b.position)`; `UseTasks.SortByPositionShape` characterises it |
| `UseTasks.TasksByStatusShape` | src/hooks/useTasks.ts:76-77 | a column's view is sorted by position and holds exactly the tasks of that status, each as often as in the list |
| `UseTasks.TasksByStatus` | src/hooks/useTasks.ts:76-77 | `getTasksByStatus`; `UseTasks.TasksByStatusShape` characterises it |
| `UseTasks.TaskStore.constructor` | src/hooks/useTasks.ts:23 | the store holds the list it is given: the list `fetchTasks` stores, or (at line 7) the empty list the state starts with |
| `UseTasks.TaskStore.AddTask` | src/hooks/useTasks.ts:30-47 | without a user nothing is sent or changed; otherwise the row is sent with the default status `todo` unless given, and with position equal to the number of tasks in that status; a returned row is appended and nothing else changes; on error or no row the list is unchanged |
| `UseTasks.TaskStore.UpdateTask` | src/hooks/useTasks.ts:50-57 | on success the list becomes the id-targeted merge; on failure it is unchanged |
| `UseTasks.TaskStore.DeleteTask` | src/hooks/useTasks.ts:59-66 | on success the tasks with the id are removed; on failure the list is unchanged |
| `UseTasks.TaskStore.MoveTask` | src/hooks/useTasks.ts:68-74 | nothing happens when no task has the id or it already has the status; otherwise the update sets the status and the count of the tasks in it as position, applied only on success |
| `KanbanBoard.ColumnWithIdMeaning` | src/components/kanban/KanbanBoard.tsx:31 | an id matches a column exactly when it is the id of a status, and then it matches that status's column |
| `KanbanBoard.ColumnWithId` | src/components/kanban/KanbanBoard.tsx:31 | `COLUMNS.some(c => c.id === overId)`, with the matching status; `KanbanBoard.ColumnWithIdMeaning` characterises it |
| `KanbanBoard.DropStatusMeaning` | src/components/kanban/KanbanBoard.tsx:22-41 | no target requests nothing; a column id requests that column even when a task has the same id; otherwise a task id requests that task's status; anything else requests nothing |
| `KanbanBoard.DropOnItselfStays` | src/components/kanban/KanbanBoard.tsx:37-40 | a card dropped on itself away from a column requests the status it already has |
| `KanbanBoard.DropStatus` | src/components/kanban/KanbanBoard.tsx:25-40 | the status a drop requests; `KanbanBoard.DropStatusMeaning` and `KanbanBoard.DropOnItselfStays` characterise it |
| `KanbanBoard.Board.constructor` | src/components/kanban/KanbanBoard.tsx:11 | the board starts with no active task |
| `KanbanBoard.Board.HandleDragStart` | src/components/kanban/KanbanBoard.tsx:17-20 | the active task is set only when the dragged id names a task; otherwise it stays as it was |
| `KanbanBoard.Board.HandleDragEnd` | src/components/kanban/KanbanBoard.tsx:22-41 | the active task is always cleared; the requested move is the drop rule's; with no request the list is unchanged, otherwise the move rule is applied |

## Notes on the code

- **A payload that does not parse is not transient.** Its line was cut at a `\n`, so it is
  complete. The code puts it back without its trailing `\r`, and every later pass reads it first
  and fails the same way.
  - `ChatStreamProps.ActIgnoresSecondStrip` shows that the line put back has the same effect
    when read again.
  - `ChatStreamProps.FailingLineStallsAgain` and `ChatStreamProps.StallFreezesReply` prove that
    the reply then never changes and the sentinel is never reached.
  - The stream is still read to its end. The code has no bound on this, and neither does the
    model.
- **Position = count does not put a task last in its sorted column.** Positions are never
  renumbered, so a delete or a move out of a column leaves gaps, and the count can be below a
  position still in use. `UseTasks.AddAfterDeleteCanSortFirst` and `UseTasks.MoveCanSortFirst`
  give an add and a move whose task is shown first in the column. The append itself keeps list
  order (`UseTasks.AppendedRowEndsItsColumn`).
- **An empty content string** is treated like an absent content (`if (content)`).
- **At the end of the stream after a failure** nothing is reported. The reply assembled so far
  stays shown.
- The comment test and the blank test never decide anything the `data: ` prefix test does not:
  a line with the prefix is neither a comment nor blank. The model keeps all three tests in the
  order the code has them (`AIChatPanel.DrainLines`), and `ChatStream.Classify` does the same.
- `setMessages` updaters that run inside one pass of the inner loop, with no `await` between
  them, are committed together. `AIChatPanel.DrainLines` therefore hands back the messages of
  one pass, and `SendMessage` stores them after each pass.
  - `ChatStreamProps.UpsertAbsorbs` shows why this makes no difference: the updaters read the
    latest `assistantSoFar`, and a run of updates leaves what the last one alone leaves.

## Left out

- `fetch`, the request headers and body, the HTTP status check and its error message, and the
  missing-body check (src/components/chat/AIChatPanel.tsx:36-50): these are network code. The
  model starts from the decoded chunks of a successful response.
- `resp.body.getReader()` and `TextDecoder` (src/components/chat/AIChatPanel.tsx:52-53,60): the
  chunks are already-decoded strings, so UTF-8 carry-over across chunks is not modelled.
- Errors thrown by `reader.read()` mid-stream, `console.error` and the toast
  (src/components/chat/AIChatPanel.tsx:90-92): network failures and UI notifications.
- `JSON.parse` and `parsed.choices?.[0]?.delta?.content`: an abstract total function. It
  stands for a string content, an absent or falsy content, and a truthy non-string content
  taken as its string form. A truthy content whose string form is empty (such as `[]`, `[""]`
  or `[null]`) still passes `if (content)` (src/components/chat/AIChatPanel.tsx:74), so the code
  runs the message update of :76-82 and can show an empty assistant message. The model treats
  such a content as skipped.
- `ChatStream.ActMeaning`, `ChatStreamProps.ReplyIsFragmentsOfCompleteLines` and
  `AIChatPanel.ChatPanel.SendMessage`: these hold for string and falsy contents. They do not
  cover the empty assistant message that a truthy content with an empty string form can show.
- Strings are sequences of Unicode scalar values; JavaScript strings are UTF-16 code units.
  This matters to neither `indexOf("\n")` nor `trim` nor `startsWith`.
- The `open` toggle, the scroll effect, the Enter-key binding and all rendering of the chat
  panel and the board: UI only.
- `fetchTasks` (src/hooks/useTasks.ts:11-28): a remote query.
  - `supabase.auth.getUser` is the parameter `user` of `AddTask`.
  - The insert is its `InsertOutcome`.
  - An update or delete is a boolean `ok`.
- Asynchrony:
  - Interleaving between `await`s is not modelled: each transition is atomic.
  - `addTask` and `moveTask` read a possibly stale `tasks` closure. The model reads the
    current list.
  - `handleDragEnd` does not await `moveTask`. The model applies the move before the handler
    returns.
  - `AIChatPanel.ChatPanel.SendMessage` runs to completion in one step. No reachable state of the
    model has `isLoading` set between calls, so the guard's in-flight half never fires. The model
    does not capture a second send while a reply is being read.
- `TaskUpdates`: a key present in `updates` with the value `undefined` would overwrite the
  field with `undefined` in the spread. The model has only absent and present keys.
- Task positions are JavaScript numbers. The model uses integers, which is exact for the
  counts the code assigns.
- `UseTasks.TasksByStatusShape`: states sortedness and the permutation of the status filter,
  not the stability of `Array.prototype.sort`. The modelled insertion sort is stable, but that
  is not proved.
- `Auth.tsx`, `Index.tsx`, `TaskCard.tsx` and `KanbanColumn.tsx` are not part of this model:
  forms, routing and rendering. Their only logic is a status filter for a menu and trimming a
  title before `addTask`.
- dnd-kit sensors, collision detection and the drag overlay: library behaviour. The drop target
  is a parameter of `HandleDragEnd`.
