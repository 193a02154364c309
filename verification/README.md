# Verified models of the Bullpen client

Dafny models of the stateful and algorithmic parts of the Bullpen client and of the
model crate beside it, with proofs of what they promise. `dafny verify dfyconfig.toml`
checks everything. Paths in the table are relative to the root of the repository.

| module | what it models |
|---|---|
| `Text`, `LineSplit`, `FrameReader` | the byte buffer that both event streams extend, split on newlines and drain |
| `SendPane` | one send from a conversation: streamed events become messages and a live bubble |
| `MarkdownTree`, `SafeLinks` | two recursive readers sharing one iterator over markdown events, and the link filter |
| `Base64` | the encoder, against a decoder for section 4 of RFC 4648 |
| `Generations`, `ShortRuns`, `Settling`, `SchedulePreview`, `ModelPicker` | debounced asynchronous tasks racing over one 32-bit counter |
| `EventHub`, `StreamTasks` | subscribers, the running flag and the stream tasks of the shared change stream |
| `WindowsPath`, `LocalRead`, `PathNames`, `Refusals` | the nine-step guarded read of a local file |
| `StripMarkdown`, `SpokenFences`, `SpokenText`, `SpokenTargets`, `SpokenLines` | the rewriting loops and the line cleanup that turn markdown into something to read aloud |
| `Avatar` | hue spacing (`Int32` is the arithmetic it shares with `WindowGeometry`) |
| `Ladder` | the settings that choose models, and the price floor under unattended runs |
| `Catalog` | the hour-long caches under concurrent callers, and the verdict on a pin |
| `SkillList` | the sorted skills library under save and delete |
| `WindowGeometry` | saved window geometry, its guard and its fallback |

Code that changes state is modelled by classes and methods with loops, each tied by its
postcondition to a function; the theorems are lemmas about those functions, over every
input, every chunking, every interleaving or every reachable state. Asynchronous code is
a transition system whose steps are the stretches between two awaits. Decoders, parsers
and the server are parameters, so nothing is assumed about them.

Some things the code's own documentation says are not quite so, and the models follow
the code:

- An event stream line is dispatched on its own. Fields over several `data:` lines and
  the dispatch on a blank line, as in section 9.2.6 of the WHATWG HTML standard, do not
  exist here.
- Clearing a schedule field does not supersede the request in flight, so its verdict can
  appear under an empty field (`SchedulePreview.EmptiedFieldShowsExactly`).
- The shared change stream is not always one stream: a subscription right after the last
  drop starts a second one, which then stays (`EventHub.ReviveLeavesTwo`,
  `EventHub.TasksSurvive`).
- A dropped subscriber can still be called once: a round of callbacks collects its
  listeners before it calls the first (`EventHub.DroppedIsStillCalled`).
- The link filter is described as dropping script and data links. It looks at the trimmed
  text only, while a URL parser also ignores control characters around a link and tabs and
  line breaks inside it (section 4.4 of the WHATWG URL standard), so such a link passes
  (`MarkdownTree.TabbedSchemePasses`).
- Which targets are read aloud is a matter of brackets. A link's target is deleted
  (`SpokenTargets.LinkTargetIsDeleted`); an image's is read aloud unless some bracket before
  it is left open (`SpokenTargets.ImageTargetIsSpokenExactly`), and in an image inside a link
  it is the link's target that is read aloud (`SpokenTargets.LinkedImageSwapsTargets`).
- The price floor is described as one that cannot be configured away. No configuration
  gets a premium-looking name under it, but making the cheap constant itself the premium
  target gets that target under it (`Ladder.FloorCanBeThePremiumTarget`).
- Sections are described as never landing on near-identical colours by accident. They
  never share a hue up to 15 of them (`Avatar.FifteenIsTheLimit`), but bots of two sections
  can come within 360/n - 23 degrees of each other (`Avatar.SectionsComeThatNear`), which
  is a single degree for 15.
- A save that gives one skill the name of another can leave two rows of that name, or two
  rows of one id (`SkillList.OneSaveCanDuplicateAName`, `SkillList.OneSaveCanDuplicateAnId`).

## Model

| member | source | states |
|---|---|---|
| `LineSplit.SplitReconstructs` | crates/client/src/api.rs:292-295 | The lines drained from a buffer, each with its newline, followed by what stays in the buffer, are exactly the bytes that were in it. |
| `LineSplit.SplitIsQuiet` | crates/client/src/api.rs:294-296 | No drained line holds a newline, and the leftover holds none: it is exactly what follows the last newline. |
| `LineSplit.SplitIsUnique` | crates/client/src/api.rs:294-296 | Any other way to decompose the bytes into newline-free lines and a newline-free rest is the same decomposition, so splitting also inverts joining. |
| `LineSplit.SplitAppend` | crates/client/src/api.rs:291-313 | Splitting a first part and carrying its leftover into the second yields the same lines and the same leftover as splitting both together. |
| `LineSplit.ChunkInvariance` | crates/client/src/api.rs:291-313 | For every starting buffer and every cutting of a byte sequence into chunks, repeated calls give the events and the final buffer of one call on the whole sequence. |
| `LineSplit.ChunkInvarianceExactly` | crates/client/src/api.rs:291-313 | The only exception: with no chunk at all, chunk invariance holds if and only if the buffer holds no complete line yet. |
| `LineSplit.CuttingIsInvisible` | crates/client/src/api.rs:291-313 | Two non-empty cuttings of the same bytes cannot be told apart by events or leftover. |
| `LineSplit.UnterminatedLineIsHeldBack` | crates/client/src/api.rs:294-312 | Bytes without a final newline keep back exactly the event of their last line, and one newline releases it. |
| `FrameReader.Feed` | crates/client/src/api.rs:291-313 | The drain loop on the caller's buffer returns the events of all complete lines in order and leaves exactly the bytes after the last newline. |
| `FrameReader.LineReadsExactly` | crates/client/src/api.rs:296-310 | A line yields an event if and only if, without a carriage return at its end, it decodes to `data:` followed by, between whitespace, a non-empty trimmed text that parses to that event; and no line yields more than one. |
| `FrameReader.ReturnAndPrefix` | crates/client/src/api.rs:297-303 | Of a line with a carriage return at its end everything before that one return is read, of any other line all of it; and a line that does not decode to the prefix yields nothing. |
| `FrameReader.ReadLine` | crates/client/src/api.rs:295-310 | The loop body finds exactly what the line carries: every event found is the parse of a trimmed text behind the prefix. |
| `SendPane.ReplayClosedForm` | crates/client/src/thread.rs:223-263 | After any events of one send: the text assembled is the concatenation of all deltas, earlier messages are untouched, one message is added per ending event, and the bubble shows the assembled text exactly when a delta came after the last ending. |
| `SendPane.PostedContent` | crates/client/src/thread.rs:234-261 | Every message pushed on `Done` or `Error` is the assistant's, carries the concatenation of all delta texts before it, at its place in order, with the model of the one or the error of the other. |
| `SendPane.SendIgnoresChunking` | crates/client/src/thread.rs:222-263 | The messages and the bubble a send ends with depend only on the concatenated bytes of the reply. |
| `SendPane.SecondAnswerRepeatsFirst` | crates/client/src/thread.rs:223-246 | Because the text is never reset, a second ending on one stream posts the first answer's text again in front of its own. |
| `SendPane.Pane.OnEvent` | crates/client/src/thread.rs:229-262 | The event closure changes the text, the messages and the bubble as the replay function says, and nothing else. |
| `SendPane.Pane.Receive` | crates/client/src/api.rs:875-882 | The chunk loop, through the real buffer, has the effect of the events of the concatenated bytes. |
| `SendPane.Pane.Send` | crates/client/src/thread.rs:206-285 | A whole send, refused, acknowledged, streamed or broken off: the final messages, bubble, error, sending flag and refresh counter, in terms of the concatenated bytes only. |
| `MarkdownTree.ReadersStopTogether` | crates/client/src/markdown.rs:50-101 | On every finite event stream, balanced or not, the building and the collapsing reader stop at the same position. |
| `MarkdownTree.ReadersStopExactlyThere` | crates/client/src/markdown.rs:42-49 | That position is just past the first end that no start since the reader began is matched with, or the end of the stream; there is only one such position. |
| `MarkdownTree.CollectIsTextOfRender` | crates/client/src/markdown.rs:84-101 | Collapsing a span yields exactly the text that the nodes built from the same events would show. |
| `MarkdownTree.ReadOverForest` | crates/client/src/markdown.rs:50-101 | Both readers walk over any printed forest in front of any further events: the rendered forest (or its text) in order, and then whatever they make of the rest. |
| `MarkdownTree.PrintThenBuild` | crates/client/src/markdown.rs:45-49 | A printed forest, an end and anything behind it reads back as exactly the rendered forest, leaving the rest unread: the nesting argument of the comment, for every forest. |
| `MarkdownTree.PrintThenBuildTop` | crates/client/src/markdown.rs:50-82 | At top level the whole printed stream is consumed. |
| `MarkdownTree.ForestReadsBack` | crates/client/src/markdown.rs:50-149 | From the nodes of any forest the forest can be read back up to what rendering drops: raw HTML and unknown leaves, levels of deep headings and their attributes, kinds of quotes, languages of code blocks, where lists start, column alignments, which row heads a table, unsafe links and how links were referenced, names of unknown tags, and the inner structure of an image's text. |
| `MarkdownTree.RenderAlikeExactly` | crates/client/src/markdown.rs:50-149 | Those losses are exact: two forests render to the same nodes if and only if they are equal once the losses are taken off. |
| `MarkdownTree.EventsReadBack` | crates/client/src/markdown.rs:50-149 | The same from printed events through the reader and back to the tree. |
| `SafeLinks.SafeHrefIsInert` | crates/client/src/markdown.rs:154-165 | The filter's result always passes the filter's own test, a link that passes only loses surrounding whitespace, and filtering twice is filtering once. |
| `SafeLinks.SchemeIsBlanked` | crates/client/src/markdown.rs:154-162 | A script or data scheme in any mixture of cases, whatever follows it and whatever whitespace surrounds the link, leaves an empty link. |
| `SafeLinks.OnlySchemesAreBlanked` | crates/client/src/markdown.rs:154-165 | A link that does not come out as it was, trimmed, comes out empty and began with one of the three schemes. |
| `SafeLinks.SafeHrefIsLiveExactly` | crates/client/src/markdown.rs:151-165 | What the filter returns still opens a script or data scheme, for a URL parser that drops leading and trailing controls and all tabs and line breaks, if and only if the trimmed link does and has a control character or a space before its first colon. |
| `SafeLinks.WithoutControlsItIsDead` | crates/client/src/markdown.rs:151-165 | On links without control characters, once trimmed, the filter's test is exactly that of the URL parser, and nothing live passes. |
| `MarkdownTree.TabbedSchemePasses` | crates/client/src/markdown.rs:154-165 | The exception: a link with a tab inside its scheme passes unchanged, is live, and is rendered as it stands. |
| `MarkdownTree.LinksAreFiltered` | crates/client/src/markdown.rs:50-165 | Whatever holds of the filtered destinations of any event stream holds of every link and image source anywhere in what is built from it. |
| `MarkdownTree.RenderedLinksAreInert` | crates/client/src/markdown.rs:50-165 | No event stream, well formed or not, builds a node anywhere in the tree whose link or image source fails the filter's own test. |
| `MarkdownTree.RenderedLinksAreLiveOnlyIfMissed` | crates/client/src/markdown.rs:50-165 | A rendered link or image source is live only where it is, trimmed, a live destination of the stream with a control character or a space before its first colon. |
| `MarkdownTree.WithoutControlsNoLinkIsLive` | crates/client/src/markdown.rs:50-165 | Where no destination of the stream holds a control character once trimmed, no rendered link or image source is live. |
| `MarkdownTree.CollectText` | crates/client/src/markdown.rs:87-101 | The recursive method over the shared iterator returns the collapsed text and leaves the iterator where the specification says. |
| `MarkdownTree.RenderSeq` | crates/client/src/markdown.rs:50-82 | The recursive method over the shared iterator returns the nodes and leaves the iterator where the specification says. |
| `Base64.StandardIsSound` | crates/client/src/vm_card.rs:362 | The 64 symbols are distinct, none is the padding character, and position and symbol determine each other. |
| `Base64.AlphabetAt` | crates/client/src/vm_card.rs:362 | The symbol at each of the 64 positions, by its code point: capitals, small letters, digits, plus and slash. |
| `Base64.TestVectors` | crates/client/src/vm_card.rs:361-383 | The test vectors of section 10 of RFC 4648 for one, two and three bytes. |
| `Base64.EncodeDecodes` | crates/client/src/vm_card.rs:361-383 | A decoder written from section 4 of RFC 4648 gives every byte sequence back from its encoding. |
| `Base64.DecodeEncodes` | crates/client/src/vm_card.rs:361-383 | The decoder accepts nothing but encodings. |
| `Base64.DecodesExactly` | crates/client/src/vm_card.rs:361-383 | A string decodes to some bytes if and only if it is the standard encoding of them. |
| `Base64.StandardIsInjective` | crates/client/src/vm_card.rs:361-383 | Different byte sequences have different encodings. |
| `Base64.EncodedLength` | crates/client/src/vm_card.rs:363 | The length is exactly four times the number of bytes over three, rounded up. |
| `Base64.StandardPadding` | crates/client/src/vm_card.rs:371-380 | `=` stands exactly at the last (3 - n mod 3) mod 3 positions. |
| `Base64.EncodeAppend` | crates/client/src/vm_card.rs:364-381 | Encoding distributes over concatenation when the first part's length is a multiple of three. |
| `Base64.PackBits` | crates/client/src/vm_card.rs:365-380 | The shifts and masks cut three bytes into four groups of six bits without loss. |
| `Base64.EncodeInto` | crates/client/src/vm_card.rs:365-380 | The loop body appends the four symbols of one chunk. |
| `Base64.Base64Encode` | crates/client/src/vm_card.rs:361-383 | The chunk loop computes the standard encoding. |
| `Generations.AcceptsExactly` | crates/client/src/routines_editor.rs:176-187 | A task passes the generation test if and only if the number of effect runs since its own is a multiple of 2^32. |
| `Generations.OnlyNewestPasses` | crates/client/src/routines_editor.rs:176-187 | While no task outlives a full turn of the counter, only the newest task passes and no two tasks in flight share a generation. |
| `ShortRuns.ShortRunsStayFresh` | crates/client/src/routines_editor.rs:169-187 | Whatever machine steps the counter at most once per step: a run of fewer than 2^32 steps never has a task that outlives a full turn. |
| `SchedulePreview.RunKeepsInv` | crates/client/src/routines_editor.rs:168-221 | The invariant tying task, text and preview together holds in every interleaving of edits, effect runs, timer expiries and answers. |
| `SchedulePreview.OnlyLatestIsWritten` | crates/client/src/routines_editor.rs:179-189 | A preview is only ever written by the newest task, and is the answer about the latest non-empty text an effect saw. |
| `SchedulePreview.QuietShowsCurrentVerdict` | crates/client/src/routines_editor.rs:170-190 | From the start, in every interleaving: with nothing pending and the field left on screen and not blank, the preview is the verdict on exactly the text last put in, trimmed. |
| `SchedulePreview.ShortRunsShowCurrentVerdict` | crates/client/src/routines_editor.rs:169-190 | In every run of fewer than 2^32 steps the results above hold without further condition. |
| `SchedulePreview.ClearedFieldShowsStaleVerdict` | crates/client/src/routines_editor.rs:172-175 | Clearing the field takes the preview down but does not bump the counter: from the clearing effect on, left alone, it ends up showing a verdict if and only if the newest task was still in flight, and then on the deleted text. |
| `SchedulePreview.EmptiedFieldShowsExactly` | crates/client/src/routines_editor.rs:170-206 | Over every run from the start that ends with no effect due and the field off screen or blank: the last effect run cleared it, and a preview is shown if and only if the newest task was answered since; once nothing is pending, if and only if that task was still in flight at the clearing. It is the verdict on the deleted text. |
| `SchedulePreview.EveryTaskCanEnd` | crates/client/src/routines_editor.rs:179-189 | From any state, timers and answers alone, whatever the server says, bring every task to its end. |
| `SchedulePreview.WrapAcceptsStaleAnswer` | crates/client/src/routines_editor.rs:169-188 | The counter's width matters exactly there: an answer that arrives after n further effect runs is wrongly shown if and only if n is a multiple of 2^32. |
| `SchedulePreview.PreviewField.Effect` | crates/client/src/routines_editor.rs:194-221 | The effect body is the effect step of the interleaving. |
| `SchedulePreview.PreviewField.TimerExpires` | crates/client/src/routines_editor.rs:211-215 | Waking from the sleep: a superseded task stops, any other sends its request. |
| `SchedulePreview.PreviewField.ServerAnswers` | crates/client/src/routines_editor.rs:215-219 | The answer is written only if the task's generation is still the counter's. |
| `ModelPicker.RunKeepsInv` | crates/client/src/settings.rs:347-384 | The invariant tying loading flag, current task, list and error together holds in every interleaving. |
| `ModelPicker.LoadingMeansCurrentTask` | crates/client/src/settings.rs:357-384 | After the first effect run with the picker open, `loading` is up if and only if some task carrying the current generation is still pending. |
| `ModelPicker.OnlyNewestWrites` | crates/client/src/settings.rs:365-382 | The list and the error are only ever written by the task that is current at that moment, which also takes `loading` down; what is shown then answers the latest request. |
| `ModelPicker.QuietShowsCurrentAnswer` | crates/client/src/settings.rs:349-384 | An open picker with nothing pending shows the outcome of the request for exactly the query last typed and the scope last chosen. |
| `ModelPicker.ShownExactly` | crates/client/src/settings.rs:349-384 | Over every fresh run: the list is the last one a newest task was answered with, so an error leaves it standing; the error is the last one, unless a fetch has begun since; nothing else touches either. |
| `ModelPicker.ClosedPickerAsksNothing` | crates/client/src/settings.rs:349-352 | While the picker stays closed no effect run asks for anything or moves the counter. |
| `ModelPicker.EveryTaskCanEnd` | crates/client/src/settings.rs:361-382 | From any state, timers and answers alone bring every task to its end. |
| `ModelPicker.ShortRunsShowCurrentAnswer` | crates/client/src/settings.rs:347-384 | In every run of fewer than 2^32 steps the loading flag means a current task, and a quiet open picker shows what its own query and scope got. |
| `ModelPicker.WrapAcceptsStaleAnswer` | crates/client/src/settings.rs:347-374 | A first request unanswered for n further effect runs puts its list under another query and takes `loading` down if and only if n is a multiple of 2^32. |
| `ModelPicker.PickerField.Effect` | crates/client/src/settings.rs:349-360 | The effect body is the effect step of the interleaving. |
| `ModelPicker.PickerField.TimerExpires` | crates/client/src/settings.rs:361-365 | Waking from the debounce: a superseded task stops, any other sends its request. |
| `ModelPicker.PickerField.ServerAnswers` | crates/client/src/settings.rs:365-382 | Success and failure are both written only by the current task. |
| `EventHub.RunKeepsInv` | crates/client/src/events.rs:104-146 | The subscription invariant holds after every interleaving of subscribe, drop and task steps. |
| `EventHub.FlagMeansSubscribed` | crates/client/src/events.rs:104-146 | In every reachable state `RUNNING` is up exactly when `LISTENERS` is non-empty, and then at least one stream task is alive. |
| `EventHub.HearsExactlyItsRounds` | crates/client/src/events.rs:110-141 | In every interleaving a callback hears exactly the kinds of the rounds that began while it was subscribed, in order; the last may still be owed to it. |
| `EventHub.DroppedHearsItsRound` | crates/client/src/events.rs:110-132 | A dropped id never comes back, and its callback still hears exactly the kind of the round that had already collected it, if any. |
| `EventHub.DroppedHearsNoMoreExactly` | crates/client/src/events.rs:110-132 | A dropped callback hears nothing more, whatever happens, if and only if no round under way still owes it a call. |
| `EventHub.DroppedIsStillCalled` | crates/client/src/events.rs:110-115 | Whenever a round begins for two subscribers and the first one's callback drops the second, the second is called after its drop. |
| `EventHub.DroppedIsStillCalledAtFirst` | crates/client/src/events.rs:110-146 | And that state is reached from the start with two subscriptions, one connection and one chunk. |
| `EventHub.DropIsItsOwn` | crates/client/src/events.rs:123-141 | Whatever happens between a subscription and its drop, its id is never handed out again in between, and the drop removes that listener and touches no other, no task and no round. |
| `EventHub.AtMostOneExactly` | crates/client/src/events.rs:142-144 | At most one stream task is alive throughout a run if and only if no subscription in it raises the flag while an old task is still alive. |
| `EventHub.ReviveLeavesTwo` | crates/client/src/events.rs:124-146 | Subscribe, drop, subscribe leaves two stream tasks for one subscriber. |
| `EventHub.TasksSurvive` | crates/client/src/events.rs:194-235 | And it does not heal: while nobody drops, no stream task ever ends. |
| `EventHub.RoundsAreStreams` | crates/client/src/events.rs:200-227 | In every interleaving the rounds of one task are, in order, the kinds decoded from its chunks; those not yet announced are still in its queue. |
| `EventHub.ReceptionIsHeard` | crates/client/src/events.rs:110-115 | In every interleaving, with other subscribers coming and going, a subscriber that stays hears one sequence of rounds that holds, for every task, exactly the kinds decoded from its chunks in order, and within a connection those of its whole bytes, however they were cut. |
| `EventHub.TurnCanEnd` | crates/client/src/events.rs:209-227 | From every reachable state the chunk being delivered can be finished by calling whoever is left and going on. |
| `StreamTasks.DeadStreamIsRetried` | crates/client/src/events.rs:194-235 | While somebody is subscribed, a task that is queued, connecting, waiting after a failure or holding half a line gets by its own steps alone, at most three, to receive on an empty buffer, and nothing else changes. |
| `StreamTasks.EveryTaskReceivesAgain` | crates/client/src/events.rs:194-235 | After any run that leaves somebody subscribed, every task alive can still get there, while nobody subscribes or drops. |
| `StreamTasks.FailedAttemptIsForgotten` | crates/client/src/events.rs:199-235 | Waking up and failing to connect leaves everything exactly as it was: the same attempt stands open again. |
| `StreamTasks.OffLineReceivesNothing` | crates/client/src/events.rs:199-206 | Until a new connection succeeds a task that is not connected receives no chunk. |
| `StreamTasks.LoweredFlagStopsTasks` | crates/client/src/events.rs:196-231 | Once the flag is down and nobody subscribes, no task gets to its next wait: it stands still, delivers one last chunk or has ended. |
| `StreamTasks.EveryTaskCanEnd` | crates/client/src/events.rs:196-231 | And with the flag down one step of its own ends each task. |
| `EventHub.Hub.SubscribeEvents` | crates/client/src/events.rs:135-146 | A subscription gets the next id and starts a task exactly when the flag was down. |
| `EventHub.Hub.DropHandle` | crates/client/src/events.rs:123-132 | Dropping a handle removes its listener and lowers the flag when none is left. |
| `EventHub.Hub.CheckFlag` | crates/client/src/events.rs:196-205 | A task that finds the flag down ends, any other goes on. |
| `EventHub.Hub.TopOfLoop` | crates/client/src/events.rs:194-199 | At the top of its loop a task ends or starts a connection. |
| `EventHub.Hub.ConnectReturns` | crates/client/src/events.rs:199-205 | A connection begins with an empty buffer; without one the task waits to try again; in both cases only if the flag is still up. |
| `EventHub.Hub.StreamEnds` | crates/client/src/events.rs:206-235 | When the stream ends the task waits to try again, or ends. |
| `EventHub.Hub.ChunkArrives` | crates/client/src/events.rs:206-226 | A chunk extends and drains the connection's own buffer; its kinds are delivered in order. |
| `EventHub.Hub.Notify` | crates/client/src/events.rs:110-112 | A round collects everyone subscribed at its beginning; with no kind left the task looks at the flag and reads on. |
| `EventHub.Hub.CallListener` | crates/client/src/events.rs:112-114 | One callback of a round is called with its kind, subscribed or not. |
| `LocalRead.AllowedShapeHasOneColon` | crates/client/src/local_read.rs:243-267 | A path of allowed shape has exactly one colon, behind its drive letter, at index 1 typed or 5 resolved. |
| `LocalRead.CredentialShapeIsNormal` | crates/client/src/local_read.rs:286-324 | All nine patterns together give the same answer on a path and on its normal form; what they match is `PathNames.CredentialShapedExactly`. |
| `LocalRead.SameIdentitySameShape` | crates/client/src/local_read.rs:308-328 | Two paths of the same identity are credential-shaped together or not at all. |
| `LocalRead.CallsAreOrdered` | crates/client/src/local_read.rs:330-401 | For every filesystem and request the calls made are a prefix of canonicalize(typed), metadata(resolved), read(resolved), and there is a call at all exactly when the typed path passes steps 1 to 3. |
| `LocalRead.ReadsExactly` | crates/client/src/local_read.rs:334-406 | A read succeeds with an outcome if and only if both forms have allowed shape, the typed one is not credential-shaped, both normalise alike, the metadata says a regular file within the limit and the bytes returned are exactly the bytes read, within the limit; step 6 is not needed in this condition. |
| `LocalRead.NothingCredentialShapedIsRead` | crates/client/src/local_read.rs:344-379 | Whatever is read, neither the typed nor the resolved path matches one of the nine patterns. |
| `LocalRead.StepSixOnlyOnDivergence` | crates/client/src/local_read.rs:363-379 | Step 6 fires only on a path that step 7 would refuse too, and step 7's message never concerns a credential-shaped path. |
| `LocalRead.TwoForms` | crates/client/src/local_read.rs:256-328 | On every drive, the typed and the verbatim form of a rooted path have one identity, and their shapes differ only in how the rest of the path is split. |
| `LocalRead.ShapesDifferExactly` | crates/client/src/local_read.rs:243-328 | Over all pairs of paths of one identity, the two shape verdicts differ if and only if one path is verbatim and the other is not, they name a drive, and they are not rooted or have, without a second colon, a device name that only splitting at slashes lays bare. |
| `LocalRead.StepFiveExactly` | crates/client/src/local_read.rs:344-379 | Of the pairs that steps 1 to 3 and step 7 let through, step 5 refuses exactly those typed verbatim, resolved plain, with a device name between separators of either kind. |
| `LocalRead.StepFiveDecides` | crates/client/src/local_read.rs:359-361 | Step 5 is not implied by step 7: a concrete pair of paths with the same identity of which one is of allowed shape and the other is not. |
| `LocalRead.SizeMessage` | crates/client/src/local_read.rs:214-218 | The message about a file over the limit names a limit of 25 and a size whose digits read back as at least 26. |
| `LocalRead.TooLargeNamesALargerSize` | crates/client/src/local_read.rs:214-218 | So does every size refusal of the pipeline, whether the metadata or the byte count caused it. |
| `PathNames.ComponentsExactly` | crates/client/src/local_read.rs:269-277 | The names a path is cut into are exactly its stretches without a separator that a separator or an end of the path bounds at either side. |
| `PathNames.ShapeAllowedExactly` | crates/client/src/local_read.rs:243-280 | For every path, the shape is allowed if and only if it begins with a drive, plain or verbatim, has no further colon, and none of the names behind the drive is a device, bare or with anything behind a dot, in either case. |
| `PathNames.OtherPrefixIsRefused` | crates/client/src/local_read.rs:246-253 | Every path that does not begin with a drive is refused for its prefix. |
| `PathNames.ShareIsAbsolute` | crates/client/src/local_read.rs:340-342 | A path that names a server and a share is absolute, so it is refused for its prefix and not as relative. |
| `PathNames.IdentityExactly` | crates/client/src/local_read.rs:319-328 | Two paths are taken for one file if and only if, without a verbatim prefix, they are the same but for the case of letters. |
| `PathNames.CredentialShapedExactly` | crates/client/src/local_read.rs:286-310 | For every path, the nine patterns match if and only if one of its names, cut at both separators and in either case, is `.ssh`, `.bullpen`, `.aws` or `.gnupg`, or begins with `.env.` or `id_` and an algorithm and a dot; or the last name is `.env`, `id_` and an algorithm, a credentials or secret(s) file of six kinds, or `shadow`, or ends like one of seven kinds of key. |
| `PathNames.NoNamedCredentialIsRead` | crates/client/src/local_read.rs:344-379 | So whatever is read, neither the typed nor the resolved path has such a name. |
| `PathNames.AdmittedExactly` | crates/client/src/local_read.rs:334-350 | The filesystem is asked about a typed path if and only if it is rooted on a drive, or verbatim, has no further colon, and has no name that is a device or names a credential. |
| `Refusals.TypedPathRefusals` | crates/client/src/local_read.rs:334-350 | Exactly when each of the refusals that cost no call is given: empty, not absolute, a shape, a credential name. |
| `Refusals.ResolvedPathRefusals` | crates/client/src/local_read.rs:352-379 | Exactly when an admitted path is refused as not found, for its resolved shape, or as somewhere else on disk. |
| `Refusals.FileRefusals` | crates/client/src/local_read.rs:381-406 | Exactly when a file that is reached is refused as not found, a folder, not a file, too large by its size or by what it holds and with which number, or unreadable and with which error. |
| `StripMarkdown.StripFences` | crates/client/src/voice.rs:59-65 | The fence loop terminates with the result of a single pass from left to right, whose closed form is `SpokenFences.ProseIsKept`, and no pair of fences remains. |
| `StripMarkdown.RestartIsHarmless` | crates/client/src/voice.rs:59-61 | Searching from the start again after a replacement finds nothing the replacement created. |
| `SpokenFences.BlockIsTaken` | crates/client/src/voice.rs:59-65 | Prose without a fence, a block without a fence inside, neither ending in a backtick, and any rest: the prose stays, the block becomes one space, and the rest is stripped by itself. |
| `SpokenFences.ProseIsKept` | crates/client/src/voice.rs:59-65 | Of prose and blocks by turns, with a tail in which no block is closed, exactly the prose and the tail are left, in order, with one space for each block. |
| `SpokenFences.EveryTextIsSections` | crates/client/src/voice.rs:59-65 | Every text is of that form. |
| `StripMarkdown.StripTicks` | crates/client/src/voice.rs:66-73 | The single-backtick loop terminates with the closed form: all other characters in order, every backtick removed except the last one when their count is odd. |
| `StripMarkdown.AtMostOneTickLeft` | crates/client/src/voice.rs:66-73 | At most one backtick is left, exactly when their number was odd, and every other character is still there in order. |
| `StripMarkdown.LastTickDecides` | crates/client/src/voice.rs:66-73 | Cut at its last backtick, a text keeps that one exactly when the number before it is even, and loses all others. |
| `StripMarkdown.FirstLinkFindsAny` | crates/client/src/voice.rs:75-86 | Looking only at the first bracket misses nothing: the loop finds a link whenever there is one. |
| `StripMarkdown.NoLinkRemains` | crates/client/src/voice.rs:75-86 | After the link pass no bracketed label with a target is left anywhere. |
| `StripMarkdown.LinksOnlyDeleted` | crates/client/src/voice.rs:75-86 | The link pass only deletes characters: its result is a subsequence of its input. |
| `StripMarkdown.StripLinks` | crates/client/src/voice.rs:75-86 | The loop terminates, leaves no link and has only deleted. |
| `SpokenText.HeadingSurvivesOnlyQuoted` | crates/client/src/voice.rs:88-94 | A cleaned line starts with a heading marker exactly when one quote marker stood between it and the line's leading hashes and whitespace. |
| `SpokenText.CleanLine` | crates/client/src/voice.rs:88-94 | The hash loop terminates and computes the cleaned line. |
| `SpokenText.SpokenOnlyDeletes` | crates/client/src/voice.rs:66-98 | After the fences everything only deletes: what is read aloud is a subsequence of the text without fences and paired backticks. |
| `SpokenText.SpokenIsClean` | crates/client/src/voice.rs:57-99 | What is read aloud holds no fence, no bracketed link and at most one backtick, even where the line cleanup brings text together. |
| `SpokenText.StripAll` | crates/client/src/voice.rs:57-99 | The passes in their order compute what is spoken, and so text without fence or link and with at most one backtick. |
| `SpokenLines.LineIsCleaned` | crates/client/src/voice.rs:88-94 | A line loses the whitespace and hashes in front of it, in any mixture, and nothing else. |
| `SpokenLines.QuotedLineIsCleaned` | crates/client/src/voice.rs:88-94 | Or up to one quote marker and the whitespace behind it. |
| `SpokenLines.LinesAreRead` | crates/client/src/voice.rs:87 | The lines of a text are those it was written from with newlines, or returns and newlines, behind them; a last line without an ending counts unless it is empty. |
| `SpokenLines.EveryTextIsLines` | crates/client/src/voice.rs:87 | And every text is written in that way. |
| `SpokenLines.PlainAnswerIsSpoken` | crates/client/src/voice.rs:57-99 | An answer without backticks and brackets is spoken line by line, every line cleaned by itself, in order and apart, and the whole trimmed. |
| `SpokenLines.CodeBlocksAreSilent` | crates/client/src/voice.rs:57-99 | An answer with code blocks is spoken as its prose is, with a space for each block. |
| `SpokenTargets.HeadFirst` | crates/client/src/voice.rs:75-86 | The link pass over a text gives the same as the pass over what it makes of any head of it, followed by the rest. |
| `SpokenTargets.TargetSurvivesExactly` | crates/client/src/voice.rs:75-86 | In the link pass a target survives, behind what the pass makes of the text before it, if and only if that leaves no bracket open. |
| `SpokenTargets.TargetIsDeleted` | crates/client/src/voice.rs:75-86 | Where it leaves a bracket open, the target is deleted up to its first closing parenthesis, and the pass goes on as if it had never been there. |
| `SpokenTargets.TargetIsSpokenExactly` | crates/client/src/voice.rs:74-86 | Through the image and the link pass, for any text in front and behind: a target is left in the text if and only if what the passes make of the text before it leaves no bracket open. |
| `SpokenTargets.ImageTargetIsSpokenExactly` | crates/client/src/voice.rs:74-86 | An image's own bracket is deleted with its mark, so its target is left if and only if no bracket before it is left open, and is deleted otherwise. |
| `SpokenTargets.LinkTargetIsDeleted` | crates/client/src/voice.rs:74-86 | For any text in front and behind, a link's target is left only if the passes close the link's own bracket before they come to it, which a name without a closing parenthesis cannot do; otherwise it is deleted. |
| `SpokenTargets.LinkIsSpokenByName` | crates/client/src/voice.rs:74-86 | Where nothing is left open before it, a link leaves exactly its name. |
| `SpokenTargets.LinkedImageSwapsTargets` | crates/client/src/voice.rs:74-86 | An image inside a link is the other way round: the image's target is deleted and the link's own is left. |
| `SpokenTargets.ImageIsSpokenWithTarget` | crates/client/src/voice.rs:57-99 | An answer that is one image is read aloud with its target. |
| `Avatar.Spin` | crates/client/src/avatar.rs:25-31 | The loop computes the remainder modulo 360 of the whole base-31 polynomial of the bytes, without ever leaving 64 bits. |
| `Int32.TruncatesTowardZero` | crates/client/src/avatar.rs:36-43 | Division and remainder here belong together and round toward zero, as the program's operators do. |
| `Avatar.PolynomialAppend` | crates/client/src/avatar.rs:25-31 | In that polynomial the bytes behind count as they are and those in front by 31 to the number of bytes behind. |
| `Avatar.ListedHueExactly` | crates/client/src/avatar.rs:36-43 | The hue in a listed section is the section's share of the wheel turned by -12 to 11 degrees, around the wheel. |
| `Avatar.UnlistedHueExactly` | crates/client/src/avatar.rs:36-43 | Without a section, or in one that is not listed, it turns around 220. |
| `Avatar.HueIsOnTheWheel` | crates/client/src/avatar.rs:36-43 | Every hue is between 0 and 359, whatever the sections and the name. |
| `Avatar.SectionsNeverShare` | crates/client/src/avatar.rs:33-43 | With at most 15 sections, two bots of different listed sections never get the same hue, whatever their names. |
| `Avatar.FifteenIsTheLimit` | crates/client/src/avatar.rs:33-43 | Whenever the first two sections differ, all names in all different sections are told apart if and only if there are at most 15 sections. |
| `Avatar.SectionsStayApart` | crates/client/src/avatar.rs:33-43 | For every number of sections, two bots of different listed sections are at least 360/n - 23 degrees apart around the wheel. |
| `Avatar.SectionsComeThatNear` | crates/client/src/avatar.rs:33-43 | And that distance is reached in the first two sections, or zero where it is negative. |
| `Ladder.SettingsRemember` | crates/model/src/ladder.rs:107-157 | After any sequence of setter calls every getter reads the last stored write to its own key, or what it read before. |
| `Ladder.GettersReadTheirKeys` | crates/model/src/ladder.rs:107-157 | Each of the six getters reads what a setter stored under its own key, and nothing stored under another. |
| `Ladder.LadderAsItComes` | crates/model/src/ladder.rs:107-152 | Before any setting is made the ladder is the six built-in models. |
| `Ladder.PremiumByName` | crates/model/src/ladder.rs:159-163 | A name looks premium if and only if one of six words stands somewhere in it, in either case. |
| `Ladder.CheapIsNotPremium` | crates/model/src/ladder.rs:160-163 | The cheap constant matches none of the premium markers. |
| `Ladder.NoPremiumNameUnattended` | crates/model/src/ladder.rs:165-200 | Whatever the settings hold, no routine, webhook, goal or room run gets a model that looks premium. |
| `Ladder.FloorExactly` | crates/model/src/ladder.rs:187-244 | An unattended run gets a model that is neither premium by name nor the configured premium target, except exactly when the premium target is the cheap constant and the run falls all the way down to it. |
| `Ladder.FloorCanBeThePremiumTarget` | crates/model/src/ladder.rs:229-244 | That exception exists: a configuration in which a routine gets the premium target. |
| `Ladder.FloorAfterSetters` | crates/model/src/ladder.rs:107-244 | After any sequence of setter calls, stored or lost, none of which makes the cheap constant the premium target, the floor holds for every unattended run. |
| `Ladder.FloorIsIdempotent` | crates/model/src/ladder.rs:187-200 | Applying the floor twice is applying it once, in every configuration. |
| `Ladder.UnattendedTakesFirstAllowed` | crates/model/src/ladder.rs:187-244 | An unattended run gets the first allowed model of the requested one and the default, else the cheap constant; a room round leaves the requested one out, so a member's pin does not matter. |
| `Ladder.UnattendedCallExactly` | crates/model/src/ladder.rs:187-227 | Floor, routing and image lift together: an unattended call keeps the guarantee exactly when it is lifted onto an allowed vision rung, or is not lifted and the floor holds. |
| `Ladder.VisionRungKeepsTheFloor` | crates/model/src/ladder.rs:202-227 | With a vision rung that is not premium the composition keeps the floor's guarantee. |
| `Ladder.RungExactly` | crates/model/src/ladder.rs:259-277 | The rung of every model, whatever the settings make coincide: the highest it is configured on, and for a model on none the top or the bottom, by its name. |
| `Ladder.RoutesExactly` | crates/model/src/routing.rs:387-432 | A turn is routed if and only if a person asked in a conversation, routing is on, the classifier says work and the reasoning rung is higher; and then to the reasoning model. |
| `Ladder.ConversationsNeverFall` | crates/model/src/ladder.rs:187-277 | Over a whole call of a conversation, floor, routing and image lift together, the model is the requested one or one on a strictly higher rung. |
| `Ladder.Settings.SetPremiumModel` | crates/model/src/ladder.rs:138-141 | The setter answers with its argument whether or not the write was stored, and touches only its own key. |
| `Ladder.Settings.SetDefaultModel` | crates/model/src/ladder.rs:114-117 | The same for the default model. |
| `Ladder.Settings.SetMidModel` | crates/model/src/ladder.rs:126-129 | The same for the middle rung. |
| `Ladder.Settings.SetTier1Model` | crates/model/src/ladder.rs:154-157 | The same for each of the three specialists, under its own key. |
| `Catalog.OnlyFetchedValues` | crates/model/src/catalog.rs:221-280 | In every interleaving of callers, whatever holds of every successful fetch for its key holds of everything cached and everything answered. |
| `Catalog.EveryCallerIsAnswered` | crates/model/src/catalog.rs:221-280 | Over every run from the start, each caller is answered like this and not otherwise: with the cached entry if that is fresh when it asks; else the first reply to its own fetch decides, a failure is answered at once with the error and a value, once stored, with exactly that value. No caller is answered twice. |
| `Catalog.FetchIsAnswered` | crates/model/src/catalog.rs:230-236 | The same from any state for a caller whose fetch is under way. |
| `Catalog.ErrorsAreFailedFetches` | crates/model/src/catalog.rs:221-280 | A run answers an error if and only if one of its fetches failed. |
| `Catalog.SteadyUpstream` | crates/model/src/catalog.rs:221-280 | Against an upstream that does not change, every successful answer is the uncached answer, and as long as no fetch fails every answer is. |
| `Catalog.SteadyGet` | crates/model/src/catalog.rs:239-242 | And so is every lookup of a model by its id. |
| `Catalog.GetFindsTheFirst` | crates/model/src/catalog.rs:241 | Of several models with one id the lookup finds the first. |
| `Catalog.ServedForAnHour` | crates/model/src/catalog.rs:222-230 | Once stored, an entry is served for less than an hour whatever else happens: it stays fresh and no call begins a fetch of its key. |
| `Catalog.OutageKeepsCache` | crates/model/src/catalog.rs:221-280 | While every fetch fails, the cache stays exactly as it was and every success is an entry of it stored less than an hour ago. |
| `Catalog.AnswersAreRecent` | crates/model/src/catalog.rs:222-236 | If no fetch takes longer than some limit, every success answers a fetch begun less than an hour and that limit before. |
| `Catalog.SlowFetchOverwritesNewer` | crates/model/src/catalog.rs:230-236 | A slow fetch stored late replaces a newer list: a run of two callers that shows it. |
| `Catalog.CacheMovesForwardExactly` | crates/model/src/catalog.rs:222-236 | Over every run the cache moves only to answers asked for later if and only if no fetch of a key is stored after one of that key that was asked for strictly later. |
| `Catalog.MovesForwardExactly` | crates/model/src/catalog.rs:222-236 | The same from any state, with what was cached to begin with. |
| `Catalog.CacheMovesForward` | crates/model/src/catalog.rs:222-236 | Fetches of one key that do not overlap are enough for that. |
| `Catalog.TtlCache.Look` | crates/model/src/catalog.rs:222-230 | The first lock: answered from the cache exactly when the entry is less than an hour old. |
| `Catalog.TtlCache.ReplyArrives` | crates/model/src/catalog.rs:230 | A failed fetch is answered and forgotten, a successful one is held for the second lock. |
| `Catalog.TtlCache.Put` | crates/model/src/catalog.rs:231-236 | The second lock: what was fetched replaces the entry and is the answer to the caller that fetched it. |
| `Catalog.RefusedExactly` | crates/model/src/catalog.rs:378-440 | A pin is refused if and only if it is a batch variant or not listed or the list failed, or a routine would run on it and it is free or has a single known provider. |
| `Catalog.FineExactly` | crates/model/src/catalog.rs:378-440 | It passes without a word if and only if it is listed, can call tools, and is neither a batch nor a free variant nor known to have a single provider. |
| `Catalog.ReasonsExactly` | crates/model/src/catalog.rs:378-440 | And exactly when each of the eight reasons is given, two of them only under a routine. |
| `Catalog.VerdictsOnlyHarden` | crates/model/src/catalog.rs:378-440 | Neither a routine nor a detail that could be fetched ever makes the verdict on a pin milder. |
| `SkillList.StableSortIsUnique` | crates/client/src/settings.rs:1699 | Being sorted by name and keeping the order within each name determines a list, so the sorting used here is the stable sort. |
| `SkillList.NameLeExactly` | crates/client/src/settings.rs:1699 | The order of names: a prefix first, else by the first character where they differ. |
| `SkillList.SaveExchangesOneRow` | crates/client/src/settings.rs:1688-1701 | After a save the list is sorted and holds the saved summary; one row was exchanged for it, or it was added, and every other row is unchanged. |
| `SkillList.SavedSkillIsListed` | crates/client/src/settings.rs:1666-1701 | After a save the list shows the saved skill with every field, and of its body the size. |
| `SkillList.NamesStayDistinctExactly` | crates/client/src/settings.rs:1691-1698 | A save keeps the names distinct if and only if no row other than the replaced one has the saved name. |
| `SkillList.IdsStayDistinctExactly` | crates/client/src/settings.rs:1691-1698 | A save keeps the ids distinct if and only if no row other than the replaced one has the saved id. |
| `SkillList.OneSaveCanDuplicateAName` | crates/client/src/settings.rs:1691-1696 | Saving the first of two skills under the second one's name leaves two rows of that name. |
| `SkillList.OneSaveCanDuplicateAnId` | crates/client/src/settings.rs:1691-1696 | Saving the second of two skills under the first one's name replaces the first row and leaves two rows of the second one's id. |
| `SkillList.SaveThenDeleteExactly` | crates/client/src/settings.rs:1680-1701 | Deleting the saved name right afterwards gives a sorted list back if and only if the save matched no row. |
| `SkillList.SavingTwiceIsSavingOnce` | crates/client/src/settings.rs:1688-1701 | When at most one row matches, saving the same skill again changes nothing. |
| `SkillList.DeleteCommutesWithSort` | crates/client/src/settings.rs:1680-1699 | Deleting a name and sorting can be done in either order. |
| `SkillList.WithoutNamed` | crates/client/src/settings.rs:1680-1686 | Deleting a name removes all its rows and leaves those of every other name, in order. |
| `SkillList.SkillsListAfterSave` | crates/client/src/settings.rs:1688-1701 | The search, in-place assignment or push, and sort compute the list the results above speak of. |
| `SkillList.SkillsListAfterDelete` | crates/client/src/settings.rs:1680-1686 | The rows of every other name remain, in order. |
| `WindowGeometry.UsableExactly` | crates/client/src/window_state.rs:55-83 | A saved rectangle is accepted, unchanged, if and only if some 160 by 40 rectangle lies inside both it and one monitor. |
| `WindowGeometry.MoreMonitors` | crates/client/src/window_state.rs:66-73 | Acceptance is monotone in the monitors. |
| `WindowGeometry.CentredInside` | crates/client/src/desktop.rs:236-246 | With 32-bit arithmetic, a window that fits its monitor is put in its middle, to within one pixel. |
| `WindowGeometry.CentredOutside` | crates/client/src/desktop.rs:236-246 | A window larger than its monitor stands out at both sides, alike to within one pixel. |
| `WindowGeometry.FallbackGoesToThePrimary` | crates/client/src/desktop.rs:205-258 | Without a geometry that can be trusted the window keeps its size and goes to the middle of the primary monitor, else of the first one, else nowhere, and its size and where it then is are recorded. |
| `WindowGeometry.FallbackIsUsableExactly` | crates/client/src/desktop.rs:236-257 | The recorded fallback geometry of a window that fits its listed monitor is accepted next time if and only if the window is at least 160 by 40. |
| `WindowGeometry.FallbackIsStable` | crates/client/src/desktop.rs:205-258 | First launch, save, second launch: the same place and size, whatever the second window was built with. |
| `WindowGeometry.RecordIsCurrent` | crates/client/src/desktop.rs:161-173 | The remembered geometry is the last position and the last size since the window was placed. |
| `WindowGeometry.PlacingStartsOver` | crates/client/src/desktop.rs:137-173 | Whatever was remembered before, placing the window starts the record over. |
| `WindowGeometry.UnseededIgnoresEvents` | crates/client/src/desktop.rs:119-180 | Before the window is placed, no event is remembered and nothing is written. |
| `WindowGeometry.FileIsLastClose` | crates/client/src/desktop.rs:174-180 | The file holds the geometry at the last close request, whatever happened since. |
| `WindowGeometry.UnwritableFileStays` | crates/client/src/desktop.rs:174-180 | Without a place for the file nothing is written. |
| `WindowGeometry.SessionIsRestoredExactly` | crates/client/src/desktop.rs:137-258 | What the window looked like at its last close is what the next launch asks the window for and records, if and only if that is still reachable on the monitors of that day; a place or size that came from an event is asked for to the pixel. |
| `WindowGeometry.Window.Restore` | crates/client/src/desktop.rs:205-258 | The calls made on the window in order leave it at the place and size, and return the geometry, that the launch function says. |
| `WindowGeometry.Tracker.OnWindow` | crates/client/src/desktop.rs:137-140 | Placing the window seeds the record with the geometry applied. |
| `WindowGeometry.Tracker.OnEvent` | crates/client/src/desktop.rs:157-182 | Each window event updates the record or the file as the fold says. |

## Left out

- Rendering, styles, modals, tray and menus: user interface.
- The HTTP helpers and the transport: every response is a parameter.
- JSON parsing, lossy UTF-8 decoding, the markdown tokeniser and the regular expression engine: parameters, or written out as explicit predicates for the nine fixed patterns.
- URL parsing beyond its first step and the scheme: what a browser does with an inert link is not modelled.
- The order in which a round calls its listeners is left open, as the hash map leaves it; a callback is a step of its own, in which anyone may subscribe and drop.
- Message ids and timestamps of posted messages: clocks.
- The refetch of a conversation that can replace its messages while a send is running: the pane model covers one send on its own.
- The browser variant of the change stream, which receives whole messages instead of bytes.
- `is_live`, `next_frame` and `run_cycle` of the machine card: single expressions over their inputs.
- The text tables, tab titles, byte formatting and similar one-line helpers: they would only add easy members.
- Overflow of the 64-bit subscription id and of the 64-bit byte counts: out of reach of any run.
- Overflow of the 32-bit generation counter is modelled as wrap-around, as in a release build; a debug build stops there instead.
- The number of avatar sections is not cut to 32 bits.
- Case folding in `LocalRead` and `Ladder` is the ASCII one; characters outside ASCII are left as they are.
- Strings are sequences of characters, so byte offsets into them are character offsets here; a path that is not valid Unicode is not modelled.
- The path parser covers the prefix kinds that the shape rule distinguishes; other platforms' paths are not modelled.
- Window coordinates are reals and integers; infinities, not-a-number and rounding of floating point are not modelled, and a geometry is taken to survive its file unchanged.
- One reading of the settings is consistent: a store that fails one read of a key and answers the next within one call is not modelled.
- The wording of pin verdicts: each message is one constructor.
- Prices in the catalogue: floating point.
- Waiting for the cache locks is not a step of its own; taking a lock and the work under it are one step.
- `skills_save_outcome`: it passes the saved list on, or nothing.
