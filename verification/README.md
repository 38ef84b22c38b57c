# tpctl: verified model of the checkpointed pane stream

tpctl lets an agent read a tmux pane incrementally: each pane's output is a stream, a
checkpoint token names an offset in it, `read` returns what came after a token, and `wait`
blocks until the text after a token matches, or until the pane has been idle. This project
models the parts of the daemon and the command line that decide those promises, and proves
them for every input, every run and every interleaving.

| file | what it models |
|---|---|
| `RingBuffer.dfy` | the per-pane byte ring, a class over an array, against the unbounded stream |
| `StoreSpec.dfy`, `Store.dfy` | the store's critical sections as functions, and the class that performs them in place |
| `EventLog.dfy` | the store's history as a log of events: exactly-once reads, linearizability, eviction |
| `AnsiStrip.dfy`, `Normalize.dfy` | escape-sequence removal as a scanner and as a transducer; text normalization |
| `Sentinel.dfy`, `MatchStability.dfy` | the sentinel matcher, and when its answer survives more output |
| `Quiescence.dfy` | the quiescence loop with its Read, its timers and its nondeterministic select |
| `WaitProtocol.dfy`, `WaitInvariant.dfy`, `WaitTheorems.dfy`, `WaitQuiescence.dfy`, `WaitError.dfy` | any number of concurrent waits, one mutex section per step |
| `Drain.dfy`, `Subscription.dfy` | the controller's event loop; the pane-diff and server-loss detector |
| `Arguments.dfy`, `ReorderArgs.dfy`, `GlobalFlags.dfy`, `ShellQuote.dfy` | argument reordering, global flags, shell quoting |

## Conventions and assumptions

- A store's buffers at an instant are the replay of a prefix of its event log. `Emit` steps
  append to the log; `Replay(log[..k])` is the store "at instant k".
- Bytes are integers below 256, offsets are unbounded integers, time is the clock's integer
  nanoseconds. Wait deadlines and quiet windows are arbitrary; the ring's capacity is a
  parameter above zero.
- A token is a datatype (instance, pane, offset, mint time), or malformed, or empty: that
  encoding and decoding are inverse is taken from the base64 and JSON libraries.
- `EventLog.Kept(log[a..b], id)` says that pane `id` is not forgotten between a and b. Where a
  theorem needs it, it is in its `requires`: Append, NewToken and Ensure make a forgotten pane
  anew, at offset 0.
- In `Quiescence.AwaitQuiet` a loop iteration takes no time, and an event at instant t is
  visible to an iteration at t. The events are any history of the store, Forgets and
  re-creations included. The protocol modules do without this: there an event may fall
  between any two steps, and `WaitQuiescence.IdleMeansQuietIff` says what success then means.
- In `SpawnLock` a ping succeeds exactly when a daemon is listening on the socket file at the
  path. Closing a listener unlinks the path first and closes the descriptor in a later step,
  as Go's Unix listener does; from the unlink on the daemon is on its way out and does not
  count as live, since nobody can reach it any more. A run is
  "polite" if a client lets go of the lock only once its daemon has bound or exited, daemons
  are started only under the lock, and no closing daemon removes a live daemon's socket file.

## What turned out not to hold

Each of these is a property one would expect; the model keeps the code as it is, a lemma
gives a failing case, and another says exactly when the property does hold.

- A sentinel's exit code can be cut short: `12` read between its digits is reported as `1`
  (`MatchStability.CutCodeMisreported`). A report is final iff the match ends strictly before
  the end of the text read (`MatchStability.ReportIsFinalIff`).
- A token outlives its pane: if the id is forgotten and created again, the old token is
  honoured once the new stream is long enough, and skips its beginning
  (`EventLog.StaleTokenSkipsABirth`, `EventLog.TokenOutlivesForgetIff`). For the same reason
  "evicted" is not always final (`EventLog.EvictedThenReadable`,
  `EventLog.EvictionIsFinalIff`).
- A pane can be quiet by the specification's formula (`docs/specs/tpctl-v1.md:649-653`) and
  the wait still not succeed: every iteration reads first, so once more than a capacity of
  output has followed the token the wait ends INVALID_AFTER
  (`Quiescence.QuietPaneRefused`). It does so iff that is the case by the earlier of the
  first quiet instant and the deadline (`Quiescence.EndsAtFirstQuiet`,
  `Quiescence.EndsWithoutQuiet`).
- A quiescence wait can succeed though the pane is busy by that formula throughout: output
  falling between the look for the last append and the clock reading goes unseen, and the
  token handed out is past it (`WaitQuiescence.BusyPaneReportedQuiet`). The condition does
  hold at the clock reading iff no append that falls there is younger than the window
  (`WaitQuiescence.IdleMeansQuietIff`).
- A quiescence wait can succeed on a pane that has just been destroyed, and its fresh token
  makes the pane known again (`WaitQuiescence.RevivalHappens`,
  `WaitQuiescence.MintRevivesIff`).
- Appending in two parts records the time that appending at once records, unless the second
  part is empty and the first is not (`RingBuffer.AppendInTwoParts`).
- Reordering arguments twice is not the identity when the last flag lacks its value; then the
  inserted `--` becomes that value (`ReorderArgs.LonelyPaneFlag`,
  `ReorderArgs.ReorderingIdempotentIff`).
- The spawn lock alone does not exclude a second daemon: a client that gives up after two
  seconds releases it whatever became of its daemon (`SpawnLock.TwoDaemons`). Giving up is
  safe iff that daemon has bound or exited (`SpawnLock.GivingUpIsSafeIff`).
- A daemon on its way out removes the socket path a second time; if a successor has bound in
  between, it becomes unreachable while alive and the next client starts another
  (`SpawnLock.SuccessorOrphaned`). The removal is safe iff nobody answers at the path by then
  (`SpawnLock.LateRemovalIsSafeIff`).

Where code and comment disagree the model follows the code: a comment in
`internal/controller/wait.go:129-131` says a pane destroyed during a wait surfaces as
PANE_NOT_FOUND, the code reports PANE_CLOSED; and the store's "evicted" error
(`internal/store/token.go:35-37`) is also what an offset beyond the head gets.

## Model

| member | source | states |
|---|---|---|
| `RingBuffer.SlotShift` | internal/store/buffer.go:76-84 | Offsets less than a capacity apart have distinct slots, found by at most one subtraction |
| `RingBuffer.Buffer.Append` | internal/store/buffer.go:57-88 | Appending any amount, oversize included, extends the ghost stream by exactly p, moves end by its length, keeps start at max(0, end - capacity) and every retained byte in its slot; the timestamp moves only when bytes were added |
| `RingBuffer.Buffer.WrittenHolds` | internal/store/buffer.go:76-87 | A circular write from the new bytes' own slot keeps every byte still within a capacity of the head |
| `RingBuffer.Buffer.Read` | internal/store/buffer.go:93-111 | Succeeds iff start <= after <= end, and returns the stream from `after`, wrapped or not |
| `RingBuffer.Buffer.SameStreamSameReads` | internal/store/buffer.go:8-26 | Two rings that carried one stream agree on start, end and every retained slot, and a successful read is what those slots hold |
| `RingBuffer.AppendInTwoParts` | internal/store/buffer.go:57-88 | Appending p then q leaves the stream, start, end and retained slots that appending p + q leaves, and the same timestamp iff q is non-empty, or p is empty too, or both calls saw one time |
| `Store.Store.Append` | internal/store/store.go:106-123 | One critical section: the pane's stream grows by p (created if missing), every watcher of the pane has a full channel after, nothing else changes; empty p changes nothing |
| `Store.Store.Forget` | internal/store/store.go:88-101 | Removes exactly this pane's buffer and fills exactly its watchers' channels |
| `Store.Store.Signal` | internal/store/store.go:92-100 | The non-blocking sends fill each empty channel of the pane and leave full ones and other panes' alone |
| `Store.Store.Watch` | internal/store/store.go:128-133 | Registers a fresh watcher with an empty channel and disturbs no other |
| `Store.Store.Cancel` | internal/store/store.go:133-142 | Splicing removes exactly this watcher; cancelling an unknown one changes nothing |
| `Store.Store.NewToken` | internal/store/store.go:149-154 | The token names this instance, this pane and the head of its stream; a missing buffer is created empty, an existing one kept, no channel touched |
| `Store.Store.Read` | internal/store/store.go:191-224 | Without interference the two sections are the atomic read, and every answer is fixed on the request's fields: unknown pane, then decoding, instance, pane and retained offset, in this order, else the stream from the offset and a token at its head carrying the clock's time |
| `EventLog.StreamGrows` | internal/store/store.go:106-123 | While a pane is not forgotten its stream is extended by exactly the data events, in order |
| `EventLog.StreamOfLife` | internal/store/store.go:58-65 | At any instant a pane's stream is the data since its last Forget, and it is known iff something has created it since |
| `EventLog.LostMeansForgotten` | internal/store/store.go:88-91 | A pane known at one instant and unknown at a later one was forgotten in between |
| `EventLog.ReadLinearizable` | internal/store/store.go:191-224 | Whatever happens while the lock is released, Read returns what an atomic read at some instant within the call returns; PaneUnknown iff the pane is unknown there, so a token error is reported only for a known pane |
| `EventLog.TwoSectionAnswers` | internal/store/store.go:191-224 | With events between the sections: bytes only for a decoded token of this instance and pane; PaneUnknown iff the pane is unknown at the first section, or at the second for such a token; and for a pane known at both, each token fault iff it is the first |
| `EventLog.ExactlyOnce` | internal/store/store.go:149-224 | From a token at the head, feeding each next into the following two-section read, with events between reads and between sections, the outputs concatenate to exactly the data between the token and the last read, and the last token is again at the head |
| `EventLog.RefusedIffLagging` | internal/store/buffer.go:93-96 | A reader is refused iff more than a capacity of data has passed its token, and otherwise gets all of it |
| `EventLog.EvictionIsFinalIff` | internal/store/store.go:219-222 | An "evicted" verdict holds for the rest of the buffer's life iff the offset is below the window; otherwise more output makes the token readable |
| `EventLog.TokenOutlivesForgetIff` | internal/store/store.go:58-65 | A token from before the pane's last Forget is honoured iff the data since that Forget has a window covering its offset, and then yields that data's tail |
| `EventLog.EvictedThenReadable` | internal/store/store.go:219-222 | Failing case: a token from a two-byte life is "evicted" on the one-byte rebirth, and readable after one more byte |
| `EventLog.StaleTokenSkipsABirth` | internal/store/store.go:208-223 | Failing case: a one-byte life, a two-byte rebirth, and the old token skips the first new byte |
| `AnsiStrip.OutSplit` | internal/textnorm/normalize.go:71-141 | strip(a + b) is strip(a) followed by the transducer's output on b from the state a leaves |
| `AnsiStrip.StripIsPrefix` | internal/textnorm/normalize.go:71-141 | More input never changes or withdraws text already let through |
| `AnsiStrip.NoEscapeOut` | internal/textnorm/normalize.go:78-139 | No ESC byte ever gets out, from any state |
| `AnsiStrip.StripANSI` | internal/textnorm/normalize.go:71-141 | The lookahead scanner, fast path included, equals the byte-at-a-time transducer on every input |
| `AnsiStrip.SkipCsi` | internal/textnorm/normalize.go:89-100 | The three CSI scans stop where the transducer is back in ground state |
| `AnsiStrip.SkipString` | internal/textnorm/normalize.go:101-124 | The lookahead for ST (and BEL for OSC) agrees with the transducer, lone ESCs and unterminated strings included |
| `AnsiStrip.SkipEscape` | internal/textnorm/normalize.go:125-138 | Other escapes: intermediates then a final byte, or the offending byte read again as text |
| `AnsiStrip.StripKeepsExactlyText` | internal/textnorm/normalize.go:60-141 | Read by the code table of ECMA-48 (sections 5.4 and 5.6), as text bytes, control sequences, control strings (unterminated ones and lone ESCs inside included), escape sequences and sequences broken off by the next byte or the end, an input is stripped to exactly its text bytes |
| `AnsiStrip.EveryInputIsAStream` | internal/textnorm/normalize.go:60-141 | And every byte string can be so read |
| `AnsiStrip.StripIdempotent` | internal/textnorm/normalize.go:71-74 | Stripping twice is stripping once |
| `AnsiStrip.MatchInputGrows` | internal/textnorm/normalize.go:52-58 | The match input of a longer stream extends the match input of its prefix |
| `AnsiStrip.DropsOnlyCR` | internal/textnorm/normalize.go:54-56 | Carriage returns, byte 0x0D, and nothing else are taken out |
| `AnsiStrip.StripANSIAndCR` | internal/textnorm/normalize.go:52-58 | The procedure computes the match input: stripped, then without carriage returns |
| `Normalize.Normalize` | internal/textnorm/normalize.go:19-33 | The two in-place loops compute the normal form |
| `Normalize.SplitJoin` | internal/textnorm/normalize.go:25-32 | Splitting undoes joining for lines without line feeds |
| `Normalize.NormalMeans` | internal/textnorm/normalize.go:19-33 | Of the stripped text's lines the result has the first n, each cut back over spaces and tabs only and ending in none, the last of them not empty; the lines after them are blank |
| `Normalize.EmptyIffAllBlank` | internal/textnorm/normalize.go:29-31 | The result is empty iff every line holds only spaces and tabs |
| `Normalize.NormalForm` | internal/textnorm/normalize.go:9-18 | The result has no ESC, no CR, no line ending in a space or tab and no empty last line |
| `Normalize.NormalIdempotent` | internal/textnorm/normalize.go:19-33 | Normalizing twice changes nothing, and neither does stripping first |
| `Sentinel.FirstFromIsLeftmost` | internal/waiter/sentinel.go:36-65 | Complete and leftmost: a sentinel with none before it, overlapping occurrences counted, is the one reported; and no report iff there is none |
| `Sentinel.FirstSentinelIff` | internal/waiter/sentinel.go:25-65 | Byte for byte: a report is made iff `__DONE__:<token>:` stands in the text before a maximal run of digits denoting at most 2^63 - 1, none before it; it gives that text, that number and that end |
| `Sentinel.NoSentinelIff` | internal/waiter/sentinel.go:39-43 | No report iff no such place exists |
| `Sentinel.FirstFromStart` | internal/waiter/sentinel.go:48-57 | Sound: what is reported stands in the buffer, with nothing valid before it |
| `Sentinel.MatchSentinel` | internal/waiter/sentinel.go:36-65 | The search terminates and returns the first valid sentinel with its text, value and end |
| `MatchStability.StrictMatchIsFinal` | internal/controller/wait.go:146-156 | A match ending strictly inside the stripped text is found again, identical, in every longer read |
| `MatchStability.ReportIsFinalIff` | internal/controller/wait.go:146-156 | A reported sentinel is the same for all longer streams iff it ends strictly before the end of the text; otherwise some raw bytes, whatever escape is open, change it |
| `MatchStability.CutCodeMisreported` | internal/waiter/sentinel.go:46-57 | Failing case: a stream cut between the digits of 12 gives exit code 1, the next byte makes it 12 |
| `Quiescence.AwaitQuiet` | internal/controller/wait.go:128-205 | Over any history of the store, the select loop ends as iterating at every instant would: at the first instant from registration on at which its Read is refused, with that error's code (PANE_CLOSED only after a successful Read), or the pane is quiet, with a token at the head; and times out only if there is none before the deadline, whichever ready arms are taken |
| `Quiescence.FailureCodes` | internal/controller/wait.go:132-143 | Over any history, a failed wait's code: PANE_NOT_FOUND iff the pane was unknown at registration, else PANE_CLOSED iff it is unknown at the end, then forgotten in between, else INVALID_AFTER |
| `Quiescence.EndsAtFirstQuiet` | internal/controller/wait.go:132-180 | On a pane that lives on, if the specification's condition first holds at q before the deadline: INVALID_AFTER iff by q more than a capacity has passed the token, else success at q |
| `Quiescence.EndsWithoutQuiet` | internal/controller/wait.go:132-204 | If it holds nowhere up to the deadline: INVALID_AFTER if more than a capacity has passed the token before the deadline, TIMEOUT if not by then |
| `Quiescence.SatisfiedToken` | internal/controller/wait.go:176-180 | A success's token names this store and pane, stands after all output since the old token, and carries the time of the success |
| `Quiescence.QuietIsSpecQuiet` | internal/controller/wait.go:168-175 | For a pane that lives on, the program's condition holds iff the window has passed since the checkpoint and since every output after it |
| `Quiescence.QuietPaneRefused` | internal/controller/wait.go:132-141 | Failing case: quiet by the specification from before registration, and every way the loop can end is INVALID_AFTER |
| `Quiescence.NextWake` | internal/controller/wait.go:182-195 | No instant at which an iteration would end the wait is slept through |
| `Quiescence.OverallLastIsEnough` | internal/controller/wait.go:168-173 | Comparing with the pane's overall last append equals comparing with the last append after the checkpoint only, for a clock that does not go back |
| `WaitInvariant.StepKeeps` | internal/controller/wait.go:111-218 | Every step of every goroutine keeps every wait's invariant: registration, currency of its read, linearizable reads, loop only past failed matches, justified outcome |
| `WaitInvariant.Always` | internal/controller/wait.go:111-218 | Hence every state of every run satisfies it |
| `WaitTheorems.NoLostWakeup` | internal/controller/wait.go:111-143 | A wait parked in select with an empty channel has read its pane's present state: no Append or Forget since, an atomic read now would give the same bytes, and they contain no match |
| `WaitTheorems.PaneNotFoundMeans` | internal/controller/wait.go:233-240 | PANE_NOT_FOUND only when the wait's first and only Read found no pane |
| `WaitTheorems.PaneClosedMeans` | internal/controller/wait.go:133-143 | PANE_CLOSED only after an earlier successful Read of the same wait, then a Forget of the pane, then a Read finding it gone |
| `WaitTheorems.TimeoutMeans` | internal/controller/wait.go:207-214 | TIMEOUT only past the deadline and only if in no Read the wait made a sentinel stood, or the pattern matched |
| `WaitTheorems.InvalidAfterMeans` | internal/controller/wait.go:241-249 | INVALID_AFTER only on a known pane, for a faulty token or an offset not retained; after an earlier successful Read only because since then output put more than a capacity after the token, or the pane was forgotten and made again |
| `WaitTheorems.MatchIff` | internal/controller/wait.go:145-166 | A wait past a successful last Read ends in a match iff the first sentinel of that Read's stripped text, or the pattern's result on it, is that match, with the number the digits denote (none for a regex) and the Read's own next token; no earlier Read contained one |
| `WaitTheorems.HowItEnded` | internal/controller/wait.go:186-217 | On every run, a wait ends interrupted iff its select took the context's arm, and TIMEOUT iff it took the deadline's, at the deadline or later |
| `WaitTheorems.StartedAtRegistration` | internal/controller/wait.go:114-118 | The deadline counts from the clock of the step that registered the watcher |
| `WaitTheorems.RejectedIff` | internal/controller/wait.go:45-109 | MISSING_AFTER iff the request has no checkpoint, INVALID_ARGS iff it has one and its timeout, token, window or pattern is unusable; both without registering or reading |
| `WaitTheorems.DestroyedPaneEndsClosed` | internal/controller/wait.go:123-143 | Over whole runs, from the Forget until the id is created again, a looping wait only goes round or ends PANE_CLOSED, TIMEOUT or interrupted; it never reports success |
| `WaitTheorems.Splice` | internal/controller/wait.go:132-166 | The bytes a successful wait scanned followed by a later read from its next are the stream after the original token |
| `WaitTheorems.SentinelIgnoresChunking` | internal/controller/wait.go:146-156 | Of two reads of one token in one life of the pane, if in the earlier the first sentinel stands at [i, end) strictly inside the text, so it does in the later, with the same bytes |
| `WaitQuiescence.ClockOrder` | internal/store/buffer.go:62 | On every run the appends after any state carry times between that state's clock and the present, in order |
| `WaitQuiescence.MintedInOrderOnRuns` | internal/store/store.go:149-154 | Hence a token minted in a state carries a time between the appends before it and those after it, in every later log of the run |
| `WaitQuiescence.IdleMeansQuietIff` | internal/controller/wait.go:167-180 | On every run, under any interleaving, quiescence succeeds only if the pane, as looked at, had been idle by the specification for the window at the clock reading; as it was at the clock reading itself, iff no append between the two is younger than the window |
| `WaitQuiescence.ParkedMeansBusy` | internal/controller/wait.go:174-185 | A quiescence wait parks only if the specification counted the pane busy as of the look, and its timer is set for the first instant at which those outputs would no longer keep it so |
| `WaitQuiescence.BusyPaneReportedQuiet` | internal/controller/wait.go:171-180 | Failing case: a run in which the pane is busy by the specification in every state and the wait succeeds, its token past the unseen byte |
| `WaitQuiescence.MintRevivesIff` | internal/controller/wait.go:175-180 | On every run, the token of a quiescence success leaves the known panes as they were, and marks the end of the pane's stream, iff the pane was not left forgotten after the wait's last Read; otherwise it creates the pane anew, with offset 0 |
| `WaitQuiescence.RevivalHappens` | internal/controller/wait.go:174-180 | Failing case: a run in which a wait succeeds on a destroyed pane and makes it known again |
| `Drain.Controller.Drain` | internal/controller/controller.go:79-91 | Any subscription leaves the store as the fold of its events, and the loss channel is closed exactly once if any event reports loss, else never |
| `Drain.DrainingReplays` | internal/controller/controller.go:79-91 | The events drained are the Append and Forget events of the store's history |
| `Drain.DrainedStream` | internal/controller/controller.go:81-90 | A pane's stream is its data since its last Closed event, ServerLost events counting for nothing; it is known iff that is not empty, and its last append is the time of the last of it |
| `Drain.DrainedWindow` | internal/controller/controller.go:81-90 | Its buffer holds the last min(capacity, n) of those n bytes and refuses every other offset |
| `Subscription.Subscription.Sync` | internal/tmuxctl/subscribe_unix.go:78-124 | One poll: the failure counter and one-shot loss, or exactly the new startable panes attached and exactly the vanished ones closed, each once, in any map order; a send that loses to a cancelled context is recorded as not sent, and ends the closing there |
| `Subscription.LostExactlyOnThirdFailure` | internal/tmuxctl/subscribe_unix.go:79-94 | Over any polls, ServerLost has been sent once if the first poll to complete three failures in a row has been and its send went through, and otherwise never |
| `Subscription.LiveContext` | internal/tmuxctl/subscribe_unix.go:95-123 | With a live context every Closed and ServerLost event of the whole run has been sent, and after a successful poll exactly the seen panes that were tracked or could be started are tracked; a failed poll changes none |
| `Subscription.AttachAndCloseAlternate` | internal/tmuxctl/subscribe_unix.go:101-123 | Per pane, tracker starts and stops strictly alternate from a start, sends that do not go through included, and a pane is tracked iff it was started last |
| `ShellQuote.Quote` | internal/tmuxctl/subscribe_unix.go:226-238 | The loop computes the quoted form |
| `ShellQuote.QuotedReadsBack` | internal/tmuxctl/subscribe_unix.go:223-238 | Read by the quoting rules of section 2.2 of the POSIX Shell Command Language, the quoted form is one word equal to s with every byte quoted, whatever follows it |
| `SpawnLock.StepKeeps` | internal/ipc/autospawn.go:27-77 | Every polite step of any client or daemon keeps: one lock holder, a starting daemon belongs to the polling holder and excludes live ones, a bound daemon owns the path |
| `SpawnLock.OneDaemon` | internal/ipc/autospawn.go:20-78 | Over every polite run of any number of clients, at most one daemon is ever live, it answers at the path, and whoever connected did so to a daemon bound at some time of the run |
| `SpawnLock.FastPath` | internal/ipc/autospawn.go:27-30 | With a daemon listening at the path, a new client's first call connects it to that daemon and changes nothing else |
| `SpawnLock.HolderConnects` | internal/ipc/autospawn.go:45-47 | Likewise at the second and the readiness ping: the lock's holder connects, starts no daemon and lets the lock go |
| `SpawnLock.FailsOnlyByGivingUp` | internal/ipc/autospawn.go:40-77 | Over every polite run, a client fails only by giving up or being killed |
| `SpawnLock.OutsiderYields` | internal/ipc/server.go:38-43 | A daemon started while another listens exits on its dial, leaving the path alone |
| `SpawnLock.WaysOut` | internal/ipc/server.go:87-100 | An orderly exit frees the path when the listener closes and leaves it free; a killed daemon leaves its socket file, and nobody answers there |
| `SpawnLock.BindsAlone` | internal/ipc/server.go:37-57 | With nobody answering, a daemon that has not yet bound can go on through dial, remove and bind until it does |
| `SpawnLock.Serves` | internal/ipc/autospawn.go:27-76 | With the lock free and nobody answering, a new client can run through ping, lock, second ping, spawn and readiness polling to a connection with the daemon it started, the lock free again |
| `SpawnLock.GivingUpIsSafeIff` | internal/ipc/autospawn.go:69-77 | In any state politely reached, giving up on readiness keeps a second daemon out for the rest of the run iff the spawned daemon has bound or exited |
| `SpawnLock.TwoDaemons` | internal/ipc/autospawn.go:40-77 | Failing case: the first client gives up early, and two daemons are live |
| `SpawnLock.LateRemovalIsSafeIff` | internal/ipc/server.go:89-100 | In any state politely reached, the second removal of the socket path on the way out keeps a second daemon out for the rest of the run iff nobody answers at the path |
| `SpawnLock.SuccessorOrphaned` | internal/ipc/server.go:97-98 | Failing case: a client starts a successor while a daemon closes, the late removal takes the successor's socket file, and a third daemon joins it |
| `ReorderArgs.ParseIsFaithful` | internal/cli/app.go:203-229 | Every argument list has a reading as flags, flags with values, positionals and an ending that renders back to it |
| `ReorderArgs.ParseIsUnique` | internal/cli/app.go:203-229 | That reading is the only one |
| `ReorderArgs.ReorderArgs` | internal/cli/app.go:203-235 | The loop puts out the flags with their values in order, one --, the positionals in order |
| `ReorderArgs.InterleavingIrrelevant` | internal/cli/app.go:193-202 | However complete flag groups and positionals are interleaved, with or without -- and literals, the output depends only on the groups and the positionals |
| `ReorderArgs.ReorderedWritten` | internal/cli/app.go:203-235 | For `--name=value`, `--name` with and without a value, `-letters` and arguments in any order, and any ending: the flag groups in order, a flag lacking its value, one `--`, the arguments, and what followed `--` |
| `ReorderArgs.EveryListIsWritten` | internal/cli/app.go:203-229 | And every argument list is so written |
| `ReorderArgs.ReorderingIdempotentIff` | internal/cli/app.go:216-234 | Reordering twice equals reordering once iff the arguments do not end in a flag lacking its value |
| `ReorderArgs.LonelyPaneFlag` | internal/cli/app.go:216-234 | Failing case: a lone --pane gains -- as its value on the next reading |
| `GlobalFlags.ExtractGlobals` | internal/cli/app.go:121-173 | The loop's four results are those of the recursive reading |
| `GlobalFlags.ExtractedWritten` | internal/cli/app.go:121-173 | For the spellings of help, version and the socket flags, joined or with a value, in any order before something else: the socket flags in order, whether help and version occur, and what is left; a socket flag lacking its value at the very end is kept |
| `GlobalFlags.EveryListIsWritten` | internal/cli/app.go:121-173 | And every argument list is so written |
| `GlobalFlags.SocketFlagsEitherSide` | internal/cli/app.go:55-86 | Socket flags before the subcommand, just after it, or split between give the same subcommand and the same arguments |

## Left out

- tmux subprocess calls, FIFOs and the pipe reader goroutine: the adapter is an arbitrary event sequence (`Drain`) or arbitrary poll results (`Subscription`).
- `subscription.run`'s ticker and teardown: the polls are any sequence.
- Base64 and JSON inside tokens, random instance ids, 64-bit offset overflow.
- RE2: a pattern is an arbitrary function, and nothing is claimed about regex matches surviving more output.
- `Wait` and `EnsureDaemon` as single procedures: they are step relations, because their promises are about what happens between their steps; only the quiescence loop is also a procedure.
- The readiness loop's 25 ms sleeps and the two-second constant: giving up is a step that may happen at any time while polling.
- Regex and sentinel waits' liveness: a full channel makes the signal arm ready, but which ready arm a select takes, and when, is left open.
- The list, send, snapshot and read handlers, help texts, exit codes, JSON responses, socket path hashing, daemon stop and signals: thin plumbing.
