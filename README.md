# AnsiHtmlOutputStream console-note state machine, in Dafny

This project models the byte-level state machine of the ansicolor plugin's
`AnsiHtmlOutputStream` (`src/main/java/hudson/plugins/ansicolor/AnsiHtmlOutputStream.java`).
The stream receives log bytes one at a time. Jenkins embeds console notes in the log, each one
framed by two fixed byte markers, `ConsoleNote.PREAMBLE` and `ConsoleNote.POSTAMBLE`. The stream
hands ordinary bytes to the jansi ANSI decoder (`super.write`). It writes each complete marker
straight to the current sink as one block, so the decoder never sees it. When a partial match
fails, it replays the matched prefix through the decoder. Before every hand-off and every block
write it asks `processor.isWritingEnabled()` once, and that answer points the inherited `out`
field at the real log stream or at `NULL_STREAM`.

The project has three modules:

- `Events` (`events.dfy`) is the log of what the stream does:
  - `InitTags` is a `processor.initTags()` call;
  - `Decoded(b, sink)` is one byte handed to the decoder while `out` points at `sink`;
  - `Block(bytes, sink)` is a marker written straight to `sink`;
  - `Finish` is a `processor.finish()` call;
  - `SuperClose(sink)` is the superclass `close()`.

  It also defines the flattening `Bytes` of a log, the counts `HandOffs` and `InitCalls`, the
  gating predicate `Gated`, and their append lemmas.
- `AmbleMachine` and `AmbleProperties` (`amble_machine.dfy`) are the pure specification:
  - `State` is the Java `State` enum;
  - `Step` is one call of `write(int)`;
  - `Collect` is one call of `collectAmbleCharacter`;
  - `Feed` / `Run` fold `Step` over an input;
  - lemmas state what one call and what a whole input do.

  The two marker constants and the answers of `isWritingEnabled()` are an `Env`. A gate
  `nat -> bool` maps the number of the query to its answer. The machine counts queries in
  `queries`.
- `AnsiHtml` (`ansi_html_output_stream.dfy`) holds the class `AnsiHtmlOutputStream<T>`. Its
  mutable fields are `state`, `amblePos`, `out`, the query counter and the event log. Its methods
  mirror the Java methods statement by statement and are proved against `Step` and `Collect`.
  The invariant `Valid()` says three things:
  - the object is in the state `Run` reaches on every byte written so far (the ghost field
    `input`);
  - its log is `Run`'s log with the `close()` events interleaved;
  - `Routed()`: `out` points where the latest answer of `isWritingEnabled()` said, or at the
    log stream before any query. The `SuperClose(out)` event of `Close` depends on this.

### How the recursion is handled

Java's `write(int)` re-enters itself from `collectAmbleCharacter` (line 163). The model splits
this call in two:

- The public `Write` records the byte in `input`.
- `Dispatch` is the body of `write(int)`, and it is what `CollectAmbleCharacter` calls back.

Mutual recursion needs a decreasing measure. Here it is `(if Mismatches(..) then 1 else 0, 1/0)`.
The re-dispatched byte is handled from DATA or NOTE, where it is only compared with the marker's
first byte, so it cannot mismatch again. The ghost `depth` results record this: the nesting of
`write(int)` frames is 2 after a mismatch and 1 otherwise.

### Byte domain

Bytes are the integers 0..255. Java compares an `int` with a signed `byte` at lines 123, 132 and
154. For marker bytes below 128 that comparison is exact, and the Jenkins markers are ASCII.
`Env` accepts any marker bytes in 0..255, so the lemmas quantify over a superset of the Jenkins
markers. For a marker byte of 128 or more, the Java result would depend on whether the caller
passes sign-extended values; the model compares the unsigned values.

## Model

| member | source | states |
|---|---|---|
| Events.Route | src/main/java/hudson/plugins/ansicolor/AnsiHtmlOutputStream.java:176-184 | `out` is the log stream exactly when `isWritingEnabled()` answered true, otherwise `NULL_STREAM` |
| AmbleMachine.Step | src/main/java/hudson/plugins/ansicolor/AnsiHtmlOutputStream.java:115-149 | after a call of `write(int)` the mode/cursor invariant holds again (cursor 0 in DATA/NOTE, strictly inside the marker while matching), and the mode is never INIT again |
| AmbleMachine.Collect | src/main/java/hudson/plugins/ansicolor/AnsiHtmlOutputStream.java:151-172 | after `collectAmbleCharacter` the mode/cursor invariant holds, whichever of mismatch, full match or advance happened |
| AmbleMachine.Forward | src/main/java/hudson/plugins/ansicolor/AnsiHtmlOutputStream.java:176-179 | `processAndwriteToOutputStream`: exactly one query is made, and exactly one event follows, a decoder hand-off (`super.write`, not a block) of the byte and nothing else, to the sink that query's answer chose; mode and cursor are untouched |
| AmbleMachine.Replay | src/main/java/hudson/plugins/ansicolor/AnsiHtmlOutputStream.java:156-158 | the replay loop makes one decoder hand-off per replayed byte; what those hand-offs carry and where they go is stated by `ReplayFacts` |
| AmbleMachine.StepSound | src/main/java/hudson/plugins/ansicolor/AnsiHtmlOutputStream.java:115-172 | one `write(int)`: the bytes handed on, followed by the new pending prefix, are the old pending prefix followed by the byte; every hand-off follows its own query, in query order, with no close events; `initTags()` runs once and first exactly when the mode was INIT |
| AmbleMachine.CollectSound | src/main/java/hudson/plugins/ansicolor/AnsiHtmlOutputStream.java:151-172 | one `collectAmbleCharacter`: the matched prefix and the byte are handed on or stay pending, in order, each hand-off after its own query, and `initTags()` does not run |
| AmbleMachine.ReplayFacts | src/main/java/hudson/plugins/ansicolor/AnsiHtmlOutputStream.java:156-158 | the replay loop hands on exactly the replayed bytes, one query and one hand-off each, in order |
| AmbleMachine.ReplaySnoc | src/main/java/hudson/plugins/ansicolor/AnsiHtmlOutputStream.java:156-158 | one more loop iteration appends one decoder hand-off after the next query |
| AmbleMachine.Feed | src/main/java/hudson/plugins/ansicolor/AnsiHtmlOutputStream.java:115-149 | successive `write(int)` calls keep the mode/cursor invariant |
| AmbleProperties.OrdinaryByte | src/main/java/hudson/plugins/ansicolor/AnsiHtmlOutputStream.java:122-139 | in DATA (NOTE), a byte other than the first byte of the preamble (postamble) makes exactly one decoder hand-off after one query, and mode and cursor stay as they were |
| AmbleProperties.TriggerByte | src/main/java/hudson/plugins/ansicolor/AnsiHtmlOutputStream.java:122-135 | the first byte of the awaited marker enters PREAMBLE (POSTAMBLE) at cursor 1 with nothing handed on, or writes a one-byte marker at once as a block and flips the mode |
| AmbleProperties.FirstByte | src/main/java/hudson/plugins/ansicolor/AnsiHtmlOutputStream.java:116-119 | the first call runs `initTags()` and then does exactly what DATA does with the byte |
| AmbleProperties.Advance | src/main/java/hudson/plugins/ansicolor/AnsiHtmlOutputStream.java:169-171 | a matching byte short of the marker's end only moves the cursor on |
| AmbleProperties.FullMatch | src/main/java/hudson/plugins/ansicolor/AnsiHtmlOutputStream.java:164-168 | the last marker byte writes the whole marker as one block to the sink chosen by one query, flips PREAMBLE to NOTE and POSTAMBLE to DATA, and resets the cursor to 0 |
| AmbleProperties.Mismatch | src/main/java/hudson/plugins/ansicolor/AnsiHtmlOutputStream.java:154-163 | a mismatch first replays the matched prefix in order, then reverts PREAMBLE to DATA and POSTAMBLE to NOTE with the cursor at 0, then re-dispatches the rejected byte once; that re-dispatch hands on at most one event |
| AmbleProperties.FeedLossless | src/main/java/hudson/plugins/ansicolor/AnsiHtmlOutputStream.java:115-172 | over any input: the bytes handed on, followed by the pending prefix, are the starting pending prefix followed by the input (nothing lost, duplicated or reordered) |
| AmbleProperties.FeedLogged | src/main/java/hudson/plugins/ansicolor/AnsiHtmlOutputStream.java:176-184 | over any input: every hand-off goes where its own query said, queries are numbered on from the start count, one per hand-off, and no close event occurs |
| AmbleProperties.FeedInit | src/main/java/hudson/plugins/ansicolor/AnsiHtmlOutputStream.java:116-119 | over any nonempty input the mode leaves INIT, and `initTags()` runs once, as the first event, exactly when the start mode was INIT |
| AmbleProperties.RunLossless | src/main/java/hudson/plugins/ansicolor/AnsiHtmlOutputStream.java:115-172 | for a fresh stream, the flattened log followed by the pending prefix is the whole input |
| AmbleProperties.RunCursor | src/main/java/hudson/plugins/ansicolor/AnsiHtmlOutputStream.java:154-171 | between calls, the cursor is 0 outside a marker and in `1..|marker|-1` inside one, and the last `amblePos` input bytes are the marker's first `amblePos` |
| AmbleProperties.RunGated | src/main/java/hudson/plugins/ansicolor/AnsiHtmlOutputStream.java:176-184 | for a fresh stream, the k-th hand-off goes where the k-th answer of `isWritingEnabled()` said, and queries equal hand-offs in number |
| AmbleProperties.RunInitOnce | src/main/java/hudson/plugins/ansicolor/AnsiHtmlOutputStream.java:116-119 | `initTags()` runs exactly once if anything was written and never otherwise, and comes first; the mode is INIT exactly while nothing was written |
| AmbleProperties.FeedAppend | src/main/java/hudson/plugins/ansicolor/AnsiHtmlOutputStream.java:115-149 | writing two inputs one after the other is writing their concatenation |
| AmbleProperties.FeedOne | src/main/java/hudson/plugins/ansicolor/AnsiHtmlOutputStream.java:115-149 | writing one byte is one call of `write(int)` |
| AmbleProperties.FeedPlain | src/main/java/hudson/plugins/ansicolor/AnsiHtmlOutputStream.java:122-139 | input without the awaited marker's first byte is handed to the decoder byte for byte, in order, one query each, and the mode does not change |
| AmbleProperties.RunPlain | src/main/java/hudson/plugins/ansicolor/AnsiHtmlOutputStream.java:115-130 | a fresh stream given nonempty input without the preamble's first byte runs `initTags()`, then hands every byte on in order, and the bytes handed on are the input |
| AmbleProperties.FeedAmblePrefix | src/main/java/hudson/plugins/ansicolor/AnsiHtmlOutputStream.java:122-171 | after the first k bytes of the awaited marker (k short of its length), the machine accumulates at cursor k and has handed nothing on |
| AmbleProperties.FeedAmble | src/main/java/hudson/plugins/ansicolor/AnsiHtmlOutputStream.java:122-168 | a whole marker written in DATA or NOTE becomes one block write after one query, and flips the mode |
| AmbleProperties.FeedAmbleLong | src/main/java/hudson/plugins/ansicolor/AnsiHtmlOutputStream.java:122-171 | for a marker of two bytes or more, written whole in DATA or NOTE: its prefix accumulates and its last byte writes it as one block after one query, flipping the mode |
| AmbleProperties.PreambleThenPayload | src/main/java/hudson/plugins/ansicolor/AnsiHtmlOutputStream.java:122-139 | the preamble is one block; a payload without the postamble's first byte then goes byte for byte through the decoder in NOTE |
| AmbleProperties.MarkerPassThrough | src/main/java/hudson/plugins/ansicolor/AnsiHtmlOutputStream.java:115-184 | for a payload without the postamble's first byte, preamble + payload + postamble becomes exactly: a block, the payload's hand-offs, a block; the bytes handed on are that same sequence, and the stream is back in DATA |
| AmbleProperties.NoteBytes | src/main/java/hudson/plugins/ansicolor/AnsiHtmlOutputStream.java:164-184 | the events of a note hand on preamble, payload and postamble, in that order |
| AmbleProperties.OverlapMissed | src/main/java/hudson/plugins/ansicolor/AnsiHtmlOutputStream.java:151-163 | matching restarts only at the rejected byte: with preamble [1, 1, 2], input [1, 1, 1, 2] contains the preamble, yet all four bytes go to the decoder and no note begins |
| AnsiHtml.AnsiHtmlOutputStream.constructor | src/main/java/hudson/plugins/ansicolor/AnsiHtmlOutputStream.java:78-91 | a new stream is in INIT at cursor 0, `out` is the log stream, nothing has happened yet, and `openTags` is a copy of `tagsToOpen` |
| AnsiHtml.AnsiHtmlOutputStream.GetOpenTags | src/main/java/hudson/plugins/ansicolor/AnsiHtmlOutputStream.java:108-111 | returns the open tags; nothing in the class changes them after construction |
| AnsiHtml.AnsiHtmlOutputStream.Write | src/main/java/hudson/plugins/ansicolor/AnsiHtmlOutputStream.java:115-149 | the object keeps its invariant; the byte is appended to what was written, and the log grows by exactly what `Step` produces from the old state |
| AnsiHtml.AnsiHtmlOutputStream.Dispatch | src/main/java/hudson/plugins/ansicolor/AnsiHtmlOutputStream.java:115-149 | the body of `write(int)` moves the fields to `Step`'s new state and appends `Step`'s events; it opens 2 nested `write(int)` frames after a mismatch and 1 otherwise |
| AnsiHtml.AnsiHtmlOutputStream.CollectAmbleCharacter | src/main/java/hudson/plugins/ansicolor/AnsiHtmlOutputStream.java:151-172 | moves the fields to `Collect`'s new state and appends `Collect`'s events; it re-enters `write(int)` only on a mismatch |
| AnsiHtml.AnsiHtmlOutputStream.ReplayPrefix | src/main/java/hudson/plugins/ansicolor/AnsiHtmlOutputStream.java:156-158 | the replay loop appends one decoder hand-off per matched byte, in order, each after its own query |
| AnsiHtml.AnsiHtmlOutputStream.ProcessAndWrite | src/main/java/hudson/plugins/ansicolor/AnsiHtmlOutputStream.java:176-179 | asks the gate once, points `out` where it said, and hands the byte to the decoder writing to `out` |
| AnsiHtml.AnsiHtmlOutputStream.WriteToOutputStream | src/main/java/hudson/plugins/ansicolor/AnsiHtmlOutputStream.java:181-184 | asks the gate once, points `out` where it said, and writes the block to `out` |
| AnsiHtml.AnsiHtmlOutputStream.Close | src/main/java/hudson/plugins/ansicolor/AnsiHtmlOutputStream.java:187-190 | `finish()` and then the superclass `close()`, nothing else; the invariant is kept, so a pending marker prefix stays unwritten |
| AnsiHtml.StreamLossless | src/main/java/hudson/plugins/ansicolor/AnsiHtmlOutputStream.java:115-190 | for any reachable stream, the flattened log followed by the pending prefix is everything written, even after `close()` |
| AnsiHtml.StreamGated | src/main/java/hudson/plugins/ansicolor/AnsiHtmlOutputStream.java:176-184 | for any reachable stream, each hand-off went where its own query said, and the gate was asked exactly once per hand-off |
| AnsiHtml.StreamInitOnce | src/main/java/hudson/plugins/ansicolor/AnsiHtmlOutputStream.java:116-119 | for any reachable stream, `initTags()` ran once if anything was written and never otherwise, and the mode is INIT exactly until the first write |
| AnsiHtml.StreamCursor | src/main/java/hudson/plugins/ansicolor/AnsiHtmlOutputStream.java:154-171 | for any reachable stream, mode and `amblePos` agree, and the bytes being matched are the latest ones written |

## Left out

- The jansi `AnsiOutputStream` superclass is not part of this model. That covers SGR parsing, its buffering of escape sequences, the `AnsiToHtmlProcessor` callbacks, `AnsiColorMap` and the `Emitter`. `super.write(b)` is modelled only as a `Decoded` event and `super.close()` only as a `SuperClose` event.
- `processor.isWritingEnabled()` is foreign code. It is a parameter: a gate function from the number of the query to its answer.
- `logdebug` (lines 97-104) and the colour fields (lines 63-65) are unused and are not modelled.
- The second, four-argument constructor (lines 93-95) only passes an empty tag list. It is the main constructor with `tagsToOpen == []`.
- `NullStream` and the real `OutputStream` are append-only sinks: each event records which one `out` pointed at.
- `IOException` propagation is not modelled. The code does no recovery, and every write here succeeds.
- Writes after `close()` are not refused. Java would hand them to a closed stream; the model keeps running the state machine.
- `GetOpenTags` returns an immutable sequence. Java's fresh `ArrayList` copy, and the aliasing it avoids, have no counterpart.
- Marker detection is only as good as the code's: matching restarts at the rejected byte, not KMP-style. `OverlapMissed` shows a self-overlapping marker being missed.
- Four behaviours of the code a caller might not expect; the model follows the code:
  - `close()` does not flush a marker prefix that is still pending (`StreamLossless` holds after `close()` too).
  - `initTags()` does not run on a stream that was never written to (`StreamInitOnce`).
  - `finish()` runs once per `close()` call, so twice if `close()` is called twice.
  - `close()` hands the superclass `close()` whatever `out` points at, and that is `NULL_STREAM` when the latest `isWritingEnabled()` answer was false (`Close` logs `SuperClose(out)`). If the superclass closes `out`, as a `FilterOutputStream` does, the log stream is then left open. The superclass is not part of this model, so this depends on its behaviour.
