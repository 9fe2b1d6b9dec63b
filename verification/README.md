# Ready Up: a verified model of its protocol and data paths

This project models the parts of Ready Up, a Counter-Strike 2 server add-on, that carry state across
crashes, connections and clients, and proves what they promise.

- **The fleet link.** The outbound reliable stream is a bounded spool on disk that numbers messages, drops
  compactable ones under pressure, takes cumulative acks and starts a new stream after a loss (`Spool`,
  `SpoolLaws`, `SpoolFiles`, `SpoolCrashes`, `RecordText`). The inbound tracker accepts in order and acknowledges a finished
  prefix (`RxTracker`). The session merges stored and ephemeral messages onto one wire and never sends an ack
  that the disk does not hold (`WireOrder`, `Link`). All of it together, against a platform that takes what
  comes next: `Delivery`.
- **Demo streaming.** A file that grows and is rewritten in place is sent in windowed chunks, compared by
  fingerprint and completed (`DemoCopy`, `DemoStream`, `DemoRuns`, `DemoFinish`), with the streaming SHA-256 (`Sha256`).
- **Status stream.** JSON merge patches (RFC 7386) and a bounded, resumable event ring (`MergePatch`,
  `MergePatchLaws`, `StatusParts`, `StatusHub`), judged by what clients get to see, which is prints
  (`PrintedState`).
- **Text.** The JSON parser and printer (RFC 8259; `JsonValue`, `JsonText`, `JsonParser`, `JsonRoundTrip`,
  `JsonPrefix`, `JsonEscapes`, `JsonNumbers`, `JsonLayout`) and the message envelope (`Envelope`).
- **Smaller algorithms.** The chat splitter (`SaySplit`), the one-row edit distance (`EditDistance`) and
  deathmatch scoring (`Deathmatch`).

Classes follow the source's objects: their methods have its loops and branches, and are proved against
functions on plain values, about which the laws are proved. The peers outside the repository (the platform,
the status clients, the file system) are ghost state: a wire, two files, a byte buffer with frames in flight.

`Basics` holds what the modules share. `dafny verify dfyconfig.toml` checks everything.

## What is shown false

- Merge patches cannot carry new null members: a patched state equals the goal exactly when every null of the
  goal was already null (`MergePatchLaws.PatchCorrect`, `MergePatchLaws.NullIsLost`).
- A compaction drop, a refusal and a rotation can lose the gap flag in a crash, and a message refused after a
  drop can even lead to a reused number (`SpoolCrashes.DropThenCrash`, `SpoolCrashes.RotateThenCrash`, each with the exact condition, and
  `SpoolCrashes.StoredThenHole`, `SpoolCrashes.RefusedThenReused`, `SpoolCrashes.RotationThenHole`).
- An inbound message that reuses one of the last 10000 ids stops the stream (`RxTracker.TwoUnderOneId`,
  `RxTracker.RepeatedIdBlocks`); exactly those do (`RxTracker.AcceptedExactlyWhen`).
- Two high surrogate halves in a row, each escaped, become bytes that are no UTF-8 (`JsonEscapes.LoneHalves`); no
  other sequence of escapes does (`JsonEscapes.EscapedText`).
- A snapshot does not tell `healthy`: a client learns it only when it changes (`StatusHub.Hub.SnapshotFrame`).
- `Last-Event-ID: 0` can be answered as a resume without any state (`StatusHub.ResumeFromZero`).
- The chat splitter never returns on some malformed texts (`SaySplit.SplitSay`, `SaySplit.StuckStart`); dropping control
  characters can create such a text (`SaySplit.JoinedRuns`).
- A demo sender that takes an offset beyond what was compared since the final pass can complete a wrong copy,
  in a run where the platform tells the truth throughout (`DemoRuns.CompletesWrongCopy`); which offsets do that
  is `DemoCopy.SkipExactly`. The checksum then catches it.
- A payload nested exactly 64 deep is stored but unreadable after a restart (`RecordText.CanonicalKept`).

## Reading `trusted`

`DemoStream` carries a ghost flag `trusted`. It never restricts a step; each step's contract says when it
survives. It ends when an ack moves the sender to an offset that the platform will not hold once all frames
in flight have arrived, that is not a chunk boundary (or the end), or that lies past what was compared or
sent since the final pass; when the file changes after the final pass; or when a lost frame was to overwrite
bytes the platform kept. It begins again when the platform answers a restart with an empty copy. Safety
(marks, window, absorbing phases, deletion) holds without it.

## Model

| member | source | states |
|---|---|---|
| JsonRoundTrip.RoundTrip | plugins/fleet/fleet_json.cpp:289-377 | For every double-free value, parsing its dump gives the value back exactly when no object repeats a key and the nesting is within the limit (both directions) |
| JsonRoundTrip.ParseDump | plugins/fleet/fleet_json.cpp:208-284 | At any place of any text that holds a dump, the parser reads exactly that value and stops exactly at its end |
| JsonRoundTrip.ParseTooDeep | plugins/fleet/fleet_json.cpp:208-210 | A dump nested deeper than the limit is refused wherever it stands |
| JsonRoundTrip.ParsedShape | plugins/fleet/fleet_json.cpp:208-284 | Whatever parses has unique keys and a nesting within the limit (a repeated key replaces the earlier one) |
| JsonRoundTrip.Canonical | plugins/fleet/fleet_json.cpp:289-377 | Printing and parsing again is a fixed point for anything that was parsed from any text |
| JsonRoundTrip.DumpInjective | plugins/fleet/fleet_json.cpp:332-377 | Different double-free values never print the same, repeated keys and all |
| JsonRoundTrip.DumpUnique | plugins/fleet/fleet_json.cpp:332-377 | At one place of a text there is at most one printed double-free value |
| JsonRoundTrip.DumpNoControl | plugins/fleet/fleet_json.cpp:307-371 | A dump has no byte below 0x20, so it is one line |
| JsonPrefix.PrefixFails | plugins/fleet/fleet_json.cpp:208-305 | No proper prefix of a printed object parses, at any nesting limit |
| JsonPrefix.SameVal | plugins/fleet/fleet_json.cpp:208-284 | The parser's decisions depend only on what it has read: a value that ended inside a text, or an object to the text's end, is read the same, value and all, in every text that holds the first one at any place |
| JsonPrefix.CutFails | plugins/fleet/fleet_json.cpp:208-305 | If a text that opens with a brace is an object to its very end, or no value, no proper prefix of it parses |
| JsonPrefix.DeeperVal | plugins/fleet/fleet_json.cpp:208-209 | Only the distance to the nesting limit matters |
| JsonParser.ParseText | plugins/fleet/fleet_json.cpp:289-305 | The cursor parser, loops and all, accepts exactly the texts of the grammar functions and returns their value |
| JsonParser.Parser.ReadVal | plugins/fleet/fleet_json.cpp:208-284 | One value from the cursor on: same verdict, value and end position as the recursive grammar; on failure nothing is returned |
| JsonParser.Parser.ReadMembers | plugins/fleet/fleet_json.cpp:213-242 | The member loop of an object computes the grammar's object, later members replacing earlier ones of the same key |
| JsonParser.Parser.ReadItems | plugins/fleet/fleet_json.cpp:243-266 | The item loop of an array computes the grammar's array |
| JsonParser.Parser.ReadStr | plugins/fleet/fleet_json.cpp:117-168 | The string loop: escapes, surrogate pairs and lone surrogates, raw bytes kept, control bytes refused |
| JsonParser.Parser.ReadUnicode | plugins/fleet/fleet_json.cpp:140-161 | One \u escape with an optional second half |
| JsonParser.Parser.ReadHex4 | plugins/fleet/fleet_json.cpp:103-116 | Four hex digits, any case |
| JsonParser.Parser.ReadNum | plugins/fleet/fleet_json.cpp:169-207 | An exact integer when it is written as one and fits 64 bits, a decimal value otherwise |
| JsonParser.Parser.Lex | plugins/fleet/fleet_json.cpp:169-190 | Where the digits, fraction and exponent of a number end, or that it is malformed |
| JsonParser.AppendQuoted | plugins/fleet/fleet_json.cpp:307-330 | The byte loop appends exactly the quoted form |
| JsonEscapes.EveryScalar | plugins/fleet/fleet_json.cpp:85-165 | Every text of Unicode scalar values, written as escapes with hex digits of either case (a surrogate pair above U+FFFF), is read as a string whose UTF-8 decoding is exactly that text |
| JsonEscapes.EscapedText | plugins/fleet/fleet_json.cpp:140-161 | Any sequence of code units in escapes is read as UTF-8 if and only if no high half directly follows another, and then as the code points, a half alone being U+FFFD |
| JsonEscapes.LoneHalves | plugins/fleet/fleet_json.cpp:140-161 | A half alone is U+FFFD; an input family that is not: two high halves give bytes that are no UTF-8 |
| JsonEscapes.EncodeDecodes | plugins/fleet/fleet_json.cpp:85-102 | What is written for code points is undone by a decoder after section 3 of RFC 3629, exactly for scalar values |
| JsonEscapes.PointsOfUtf16 | plugins/fleet/fleet_json.cpp:144-160 | Joining halves is the inverse of UTF-16 (section 2.1 of RFC 2781) |
| JsonEscapes.ShortEscapes | plugins/fleet/fleet_json.cpp:130-139 | Which two-character escapes there are and what each means; any other letter is refused |
| JsonLayout.LayoutFree | plugins/fleet/fleet_json.cpp:208-305 | A double-free value spelled with any whitespace between any of its tokens parses to that value, exactly when nothing but whitespace follows it |
| JsonLayout.ReadSpelled | plugins/fleet/fleet_json.cpp:208-284 | Wherever the whitespace is, the recursive descent reads the spelled value and stops at its end |
| JsonNumbers.NumberReads | plugins/fleet/fleet_json.cpp:169-207 | Every spelling of a number, with sign, fraction, exponent in either case and exponent sign, is read as its worth: digits moved by the exponent and the places; an integer exactly when written as one and within 64 bits |
| Envelope.EnvelopeRoundTrip | plugins/fleet/fleet_proto.cpp:143-225 | Decoding an encoded envelope gives it back exactly when it is deliverable: valid type, non-negative optional numbers, an object payload with unique keys, nesting and size within the limits (both directions) |
| Envelope.EncodeIsDump | plugins/fleet/fleet_proto.cpp:143-177 | The hand-written text of an envelope is the dump of one object |
| Envelope.RawIsEncode | plugins/fleet/fleet_proto.cpp:179-186 | Splicing in a payload's dump as text is the same as encoding the payload |
| Envelope.FromFields | plugins/fleet/fleet_proto.cpp:188-225 | Field by field: what a decoder makes of the members an encoder writes, absent ones included |
| Envelope.IsValidType | plugins/fleet/fleet_proto.cpp:124-140 | The loop accepts exactly the dotted names of at most 64 characters in which every segment is non-empty and starts with a lower-case letter |
| SpoolLaws.RunSafe | plugins/fleet/fleet_spool.cpp:175-260 | From any numbered state and through any sequence of appends, acks, rotations and inbound marks: numbers are increasing and above the ack, bytes is the sum of the sizes, a bounded spool stays bounded; and if no gap flag meant exactly the numbers acked+1..last at the start, it does at the end |
| SpoolLaws.LossIsFlagged | plugins/fleet/fleet_spool.cpp:175-246 | Over every run without a rotation, any drop or refusal leaves the gap flag up, and a stored critical record leaves only by an ack |
| SpoolLaws.AppendKeeps | plugins/fleet/fleet_spool.cpp:189-232 | One append keeps the numbering and the soundness of the gap flag; without a loss it adds exactly one record under the next number |
| SpoolLaws.AppendBounded | plugins/fleet/fleet_spool.cpp:189-232 | Count and bytes never pass twice the limits, and above the limits only critical records are stored |
| SpoolLaws.KeptCut | plugins/fleet/fleet_spool.cpp:204-212 | What compaction drops are the compactable records of a prefix, oldest first, and no more than needed: nothing if the message fits or nothing can go; otherwise up to the least cut after which it fits and at most nine tenths of both limits are used, or everything that can go |
| SpoolLaws.RefusedExactly | plugins/fleet/fleet_spool.cpp:213-221 | A message is refused exactly when what compaction keeps leaves no room for it, and it is not critical or would pass twice a limit |
| SpoolLaws.KeptMembers | plugins/fleet/fleet_spool.cpp:175-187 | Compaction invents nothing and never drops a critical record |
| SpoolLaws.AckKeeps | plugins/fleet/fleet_spool.cpp:234-246 | An ack removes exactly the records up to it and keeps the numbering and the soundness of the gap flag |
| SpoolLaws.RotateKeeps | plugins/fleet/fleet_spool.cpp:248-260 | A new stream has the same contents in the same order, numbered 1..n, nothing acked, no gap and a sound flag, whatever the flag was worth before |
| SpoolFiles.FollowsRecovers | plugins/fleet/fleet_spool.cpp:51-149 | Files that follow the memory, with stale meta and with or without a torn last line, are recovered to a sound, hole-free spool: every unacked record in order, before them only acked ones, the exact next number |
| SpoolFiles.CrashImages | plugins/fleet/fleet_spool.cpp:166-232 | Every state of the two files during an append recovers to the spool before it or after it |
| SpoolFiles.ShrinkImages | plugins/fleet/fleet_spool.cpp:242-245 | Every state of the two files while the log is shortened recovers to the current spool |
| SpoolFiles.OpenImages | plugins/fleet/fleet_spool.cpp:51-91 | A crash while opening with a sane meta file is recovered to what the opening had found |
| SpoolFiles.OpenFresh | plugins/fleet/fleet_spool.cpp:61-91 | A crash while opening without a usable meta file: the next opening finds the same records and numbers, under its own stream id |
| SpoolFiles.RecoverCore | plugins/fleet/fleet_spool.cpp:51-149 | Whatever the log holds, a restart begins with increasing numbers above the ack and below the next |
| SpoolFiles.GapExactly | plugins/fleet/fleet_spool.cpp:61-149 | When a restart takes something for lost: with a meta file exactly when its flag is set or some line is no record, has no type or does not count on; without one exactly when there is any record |
| SpoolFiles.CrashThenOpen | plugins/fleet/fleet_spool.cpp:51-91 | A reopened spool gives out no number twice and holds every unacked record, whatever new stream id was at hand |
| SpoolCrashes.DropThenCrash | plugins/fleet/fleet_spool.cpp:189-232 | False without a condition: the log is rewritten before the flag reaches the meta file. After any append, stored or refused, a crash is recovered exactly when nothing had to be dropped (it fits, or nothing can go), and the numbers hold (flagged, or without a hole and a reused number) exactly when nothing had to be dropped or the meta file already had the flag; the flag itself, of a refusal too, survives exactly when it is in the meta file |
| SpoolCrashes.StoredThenHole | plugins/fleet/fleet_spool.cpp:222-231 | An input: a stored message after a drop, and a restart with a missing number and no flag |
| SpoolCrashes.RefusedThenReused | plugins/fleet/fleet_spool.cpp:213-221 | An input: a refused message after a drop, and a restart that gives out number 2 a second time in the same stream without a flag |
| SpoolCrashes.RotateThenCrash | plugins/fleet/fleet_spool.cpp:248-260 | False without a condition: a crash between the two writes of a rotation is recovered with a sound gap flag, and the numbers hold, exactly when the records already carried 1..n |
| SpoolCrashes.RotationThenHole | plugins/fleet/fleet_spool.cpp:248-260 | An input: a new stream that starts with number 2 and no flag |
| SpoolFiles.Store.Open | plugins/fleet/fleet_spool.cpp:51-91 | Opening computes the recovered state and writes both files to match it; the one other state a crash may leave is named and recovers to the same |
| SpoolFiles.Store.Load | plugins/fleet/fleet_spool.cpp:59-73 | Loading meta and log and dropping acked records is the recovery function, with and without a meta file |
| SpoolFiles.Store.LoadMeta | plugins/fleet/fleet_spool.cpp:93-107 | Accepted exactly with a stream id; numbers below their floor are raised to it |
| SpoolFiles.ReadLog | plugins/fleet/fleet_spool.cpp:109-149 | The line loop keeps the readable records in increasing order, sums their sizes and notes anything unreadable |
| SpoolFiles.Store.Append | plugins/fleet/fleet_spool.cpp:189-232 | The method with its two loops and two files computes the append function and leaves exactly the named files; while nothing has to be dropped, the files before, with a torn line and after are all recovered |
| SpoolFiles.Store.Compact | plugins/fleet/fleet_spool.cpp:204-212 | The two drop loops keep exactly the records the specification keeps, and count and flag what they dropped |
| SpoolFiles.Store.DropOneCompactable | plugins/fleet/fleet_spool.cpp:175-187 | Drops the oldest compactable record, or reports that there is none |
| SpoolFiles.Store.AckUpTo | plugins/fleet/fleet_spool.cpp:234-246 | Computes the ack function; afterwards the log is rewritten or within its waste bounds (64 KiB when empty, else 1 MiB or twice the records plus 1 MiB), and it is rewritten only above them, meta file first; the three states of the files on the way are all recovered |
| SpoolFiles.Store.RotateIfGap | plugins/fleet/fleet_spool.cpp:248-260 | Computes the rotation function and leaves both files matching it |
| SpoolFiles.Store.SetRxSeq | plugins/fleet/fleet_spool.cpp:262-266 | Only the inbound mark changes, and only in memory |
| SpoolFiles.Store.FlushMeta | plugins/fleet/fleet_spool.cpp:268-280 | The meta file holds the memory's numbers afterwards |
| SpoolFiles.Store.MaybeFlush | plugins/fleet/fleet_spool.cpp:282-286 | Writes the meta file exactly when something changed and a second has passed, and keeps the invariant |
| SpoolFiles.Store.Rewrite | plugins/fleet/fleet_spool.cpp:151-164 | The log holds exactly the records in memory afterwards |
| RecordText.LineReadsBack | plugins/fleet/fleet_spool.cpp:16-37 | A line of any one-line payload text that is an object reads back as its record with the payload printed canonically; cut short at any byte it reads as unreadable; and it holds no newline |
| RecordText.CutAppend | plugins/fleet/fleet_spool.cpp:109-173 | A crash at any byte of an append leaves a log text that reads as the old records, the old records and one unreadable line, or all records (only the newline missing) |
| RecordText.AnyByteRecovers | plugins/fleet/fleet_spool.cpp:109-173 | Any byte of an append: the text left in the log recovers to the spool before the message, or after it once all but the newline is there |
| RecordText.CanonicalKept | plugins/fleet/fleet_spool.cpp:16-37 | A canonical payload is kept exactly below nesting 64, and at 64, which a sender may use, its line is unreadable: a line adds one level (both directions) |
| RecordText.LineParses | plugins/fleet/fleet_spool.cpp:122-125 | The line of any storable record parses to its members, to the very end |
| RecordText.ReadLog | plugins/fleet/fleet_spool.cpp:109-149 | A log of any number of storable records followed by any text is read as those records and then the text |
| RecordText.ReadText | plugins/fleet/fleet_spool.cpp:112-121 | The newline loop reads exactly the non-empty lines, the last one with or without its newline |
| RecordText.LineIsDump | plugins/fleet/fleet_spool.cpp:16-37 | The hand-written line is the dump of one object |
| RxTracker.RunSound | plugins/fleet/fleet_proto.cpp:376-422 | Over every interleaving of messages, resends and finished handlers: accepted numbers are n+1, n+2, ... once each, pending is exactly (processed, received], processed is the longest prefix of finished messages |
| RxTracker.AcceptsExactlyNext | plugins/fleet/fleet_proto.cpp:394-402 | With one id per message, after any run the next message in order and no other is accepted |
| RxTracker.AcceptedExactlyWhen | plugins/fleet/fleet_proto.cpp:383-402 | After any run the next message in order is accepted if and only if it has no id or one that is not among the last 10000 noted: an id may be used again once 10000 others came after it |
| RxTracker.RunWindow | plugins/fleet/fleet_proto.cpp:383-392 | Over every run the remembered ids are exactly the last 10000 noted |
| RxTracker.RepeatedIdBlocks | plugins/fleet/fleet_proto.cpp:394-402 | Otherwise the stream stops: after any run, a next message under an id still in the window changes nothing, however often it is sent |
| RxTracker.TwoUnderOneId | plugins/fleet/fleet_proto.cpp:394-402 | An input: message 2 under the id of message 1 is never accepted |
| RxTracker.RunIds | plugins/fleet/fleet_proto.cpp:383-409 | Every remembered id is that of an accepted or an ephemeral message |
| RxTracker.AdvanceSound | plugins/fleet/fleet_proto.cpp:415-419 | The processed mark stops at the first unfinished message and removes exactly what it passes |
| RxTracker.Tracker.Reset | plugins/fleet/fleet_proto.cpp:376-381 | Nothing pending, both marks at the given number (at least 0), ids kept |
| RxTracker.Tracker.OnReliable | plugins/fleet/fleet_proto.cpp:394-402 | The three verdicts and the state each leaves |
| RxTracker.Tracker.RememberId | plugins/fleet/fleet_proto.cpp:383-392 | A window of the last 10000 ids |
| RxTracker.Tracker.OnEphemeralId | plugins/fleet/fleet_proto.cpp:404-409 | New exactly when the id is empty or not remembered |
| RxTracker.Tracker.MarkDone | plugins/fleet/fleet_proto.cpp:411-422 | The loop moves the mark over the finished prefix; true exactly when it moved |
| RxTracker.Tracker.OnAckSent | plugins/fleet/fleet_proto.cpp:435-439 | The last sent ack never goes back |
| WireOrder.QueueOrder | plugins/fleet/fleet_client.cpp:390-409 | When nothing is refused or compacted, merging what a drain left gives the older unsent records and then the queue, reliable and ephemeral messages exactly as queued, with the numbers they were given |
| WireOrder.MergeKeepsRecords | plugins/fleet/fleet_client.cpp:1054-1061 | Merging never reorders or loses a record |
| WireOrder.DrainKeeps | plugins/fleet/fleet_client.cpp:390-409 | Draining any queue keeps the spool's invariant, and no ephemeral message waits for a number not yet given |
| Link.Client.constructor | plugins/fleet/fleet_client.cpp:130-136 | The inbound count resumes from the spool, from any log and any meta file; the client is sound unless the meta file contradicts itself |
| Link.Client.Restart | plugins/fleet/fleet_client.cpp:130-136 | Across any number of sessions and crashes, with the log in any state whatever: no message whose ack was ever sent, in this or an earlier life of the process, is accepted again, and the restarted client is sound again |
| Link.AckedIsRemembered | plugins/fleet/fleet_client.cpp:883-904 | Whatever a crash leaves of the log, the inbound count a restart loads covers every ack ever put on a wire |
| Link.Client.Persist | plugins/fleet/fleet_client.cpp:886-892 | The processed count is in the meta file before it is acknowledged |
| Link.Client.Send | plugins/fleet/fleet_client.cpp:883-904 | One frame with a durable ack on it, or a broken session; reliable numbers stay increasing |
| Link.Client.SendMerged | plugins/fleet/fleet_client.cpp:1053-1061 | The nested loops send the merge of unsent records and waiting messages; a failing socket leaves exactly a prefix of it on the wire |
| Link.Client.SendWaiting | plugins/fleet/fleet_client.cpp:1056-1061 | The ephemeral messages that belong before the next record, and no others, go first |
| Link.Client.DrainOutbox | plugins/fleet/fleet_client.cpp:390-409 | The queue moves into the spool and the waiting list as the drain function says |
| Link.Client.Pass | plugins/fleet/fleet_client.cpp:1050-1061 | Wire order equals queue order: an unbroken pass without loss adds the older unsent records and then the queue in order; afterwards nothing stored is unsent |
| Link.Client.StartSession | plugins/fleet/fleet_client.cpp:930-1023 | A session opens with a new stream if something was lost, greets, answers early pings, replays exactly the unacked records (numbered from the resume point on without a hole, unless an earlier crash hid a loss), and adds a snapshot exactly on a reset or a new stream |
| Link.Client.Resume | plugins/fleet/fleet_client.cpp:996-1018 | What the platform has is dropped and the rest sent in order |
| Link.Client.Receive | plugins/fleet/fleet_client.cpp:1193-1325 | Verdict, inbox, acks and replies of an inbound reliable message in each case |
| Link.Client.ReceiveEphemeral | plugins/fleet/fleet_client.cpp:1193-1270 | Inbound messages without a number: acks count, pings are always answered, requests and game messages only under a new id, the rest is ignored |
| Link.Client.AckIfDue | plugins/fleet/fleet_client.cpp:1088-1091 | A standalone ack goes out exactly when a repeat asked for it or it is due; afterwards fewer than 32 messages and less than a second of them are unacknowledged |
| Link.Client.FinishAll | plugins/fleet/fleet_client.cpp:1081-1087 | Finished messages are marked in the order reported |
| Delivery.EveryRun | plugins/fleet/fleet_client.cpp:930-1061 | End to end, over every interleaving of offered messages (stored, compacting or refused), sessions, rotations, sends, arrivals, acks, disconnects and survived crashes: the platform has a beginning of the stream, each message once and in order; every message ever accepted was dropped by compaction, has arrived or is still in the spool, and a critical one is never dropped |
| Delivery.Keeps | plugins/fleet/fleet_client.cpp:930-1061 | One event keeps that, together with: spool and wire hold the given records under their numbers, and without a lost number the wire goes on without a hole from what the platform has |
| Delivery.CatchesUp | plugins/fleet/fleet_client.cpp:930-1061 | From every reachable state a session that holds brings the platform the whole stream, and then nothing accepted is missing but what compaction had dropped; every critical message has arrived |
| Delivery.AllDelivered | plugins/fleet/fleet_client.cpp:1012-1018 | Once all was sent and nothing is in flight, the platform has every given record |
| Delivery.OfferThenCrash | plugins/fleet/fleet_spool.cpp:189-232 | Which crashes the end-to-end claim covers: right after an append it is survived exactly when nothing had to be dropped, or the meta file already had the flag and the numbers go on, which they do after a stored message |
| Delivery.FlushedSurvives | plugins/fleet/fleet_spool.cpp:268-280 | Once both files hold the memory, a crash is survived, lost numbers and all |
| MergePatchLaws.PatchCorrect | libs/readyup/status_snapshot.cpp:345-394 | There is no patch exactly when the states are equal; applied, a patch gives the goal up to null members, and gives it exactly if and only if every null member of the goal was null before |
| MergePatchLaws.NullIsLost | libs/readyup/status_snapshot.cpp:345-394 | An input: from {} to {a: null} the patched state is not the goal |
| MergePatchLaws.PatchFollows | libs/readyup/status_snapshot.cpp:376-394 | A copy that differs from the sender's state only in null members still does after the patch |
| MergePatchLaws.ApplyDiff | libs/readyup/status_snapshot.cpp:345-394 | On trees: applying the difference gives the goal without its null members |
| MergePatchLaws.ApplyRespectsStrip | libs/readyup/status_snapshot.cpp:376-394 | Applying a patch respects equality up to null members |
| MergePatchLaws.ApplyDiffExact | libs/readyup/status_snapshot.cpp:345-394 | On trees: the result is the goal exactly when the goal's nulls are kept |
| MergePatchLaws.NullsKeptIff | libs/readyup/status_snapshot.cpp:345-394 | The recursive condition is the one on paths: every path to a null member of the goal leads to a null in the old state |
| MergePatchLaws.EqualMeansSame | libs/readyup/status_snapshot.cpp:107-126 | The comparison loop is equality up to member order, for values with unique keys |
| MergePatchLaws.DiffMeans | libs/readyup/status_snapshot.cpp:345-374 | The two member loops of the diff compute the difference of trees, and no patch exactly for equal states |
| MergePatchLaws.ApplyMeans | libs/readyup/status_snapshot.cpp:376-394 | The two member loops of the apply compute the application of trees and keep keys unique |
| StatusHub.Hub.Process | libs/readyup/status_snapshot.cpp:447-506 | One patch event if the state changed, one status event if anything else did; over every run, doubles included, every snapshot ever taken, with the later events applied, gives the current state as it is printed (up to null members; the state itself if no state ever held a double) and the current platform, update_safe, summary, versions and selftest, and healthy once an event named it |
| StatusHub.Hub.Publish | libs/readyup/status_snapshot.cpp:467-497 | One submission appends exactly the patch to the new state, if it prints and compares differently, and then the changed parts, if any; every client follows |
| PrintedState.SamePrint | libs/readyup/status_snapshot.cpp:456-477 | States that print the same look the same to every client: equal texts have equal members, items and number tokens, repeated keys and doubles included |
| PrintedState.PrintsAlike | libs/readyup/status_snapshot.cpp:60-105 | At one place of a text, two printed values have the same members, items and number tokens and the same end |
| PrintedState.SeenApply | libs/readyup/status_snapshot.cpp:376-394 | A client that applies printed patches to a printed state ends up with the print of the patched state |
| PrintedState.ViewFollows | libs/readyup/status_snapshot.cpp:345-394 | A client that sees the sender's state as printed still does after the patch |
| StatusHub.Hub.PublishState | libs/readyup/status_snapshot.cpp:467-477 | A patch event exactly when the state prints and compares differently, with the next revision |
| StatusHub.Hub.PublishStatus | libs/readyup/status_snapshot.cpp:478-497 | A status event with exactly the parts that changed, in order |
| StatusHub.Hub.SnapshotFrame | libs/readyup/status_snapshot.cpp:535-547 | A snapshot tells the current revision, state and parts, all but healthy |
| StatusParts.ChangedTell | libs/readyup/status_snapshot.cpp:478-497 | A status event tells the new value of every part it names, and every part it leaves out prints as before |
| StatusParts.WordStatus | libs/readyup/status_snapshot.cpp:478-497 | The last word of any stretch of events up to now on any part is the current one, and stays so with every submission |
| StatusParts.ResumedKnows | libs/readyup/status_snapshot.cpp:549-569 | A client that got events up to a point and then all from an earlier one again knows the current parts |
| StatusHub.Hub.Append | libs/readyup/status_snapshot.cpp:431-445 | The ring after an event is the longest tail of the whole history with at most cap patches and 2*cap events |
| StatusHub.Hub.DropOld | libs/readyup/status_snapshot.cpp:437-444 | The drop loop with its running count computes the trim |
| StatusHub.TrimLongest | libs/readyup/status_snapshot.cpp:437-444 | What is kept is the longest tail with at most cap patches and 2*cap events |
| StatusHub.TrimPush | libs/readyup/status_snapshot.cpp:431-445 | Trimming after every event keeps what trimming once at the end would keep |
| StatusHub.Hub.Submit | libs/readyup/status_snapshot.cpp:420-424 | The latest submission waits; nothing else changes |
| StatusHub.Hub.FramesAfter | libs/readyup/status_snapshot.cpp:549-557 | Every later frame, or false and nothing: never a part |
| StatusHub.Hub.SeqForRev | libs/readyup/status_snapshot.cpp:559-569 | The first event in the ring with the revision, or that there is none |
| StatusHub.Resume | core/src/readyup/status_server.cpp:403-418 | A resume from revision r >= 1 brings exactly the patches r+1..rev, and in every run each client at r, even one that gets status events again, ends with the current state as printed (its values if no state ever held a double) and the current parts |
| StatusHub.ResumeFromZero | core/src/readyup/status_server.cpp:403-418 | A run in which Last-Event-ID 0 is answered as a resume with no frames, although revision 0 is no revision |
| StatusHub.RevsAfter | libs/readyup/status_snapshot.cpp:549-569 | The patches after any event have consecutive revisions up to the current one |
| StatusHub.ResumeExact | libs/readyup/status_snapshot.cpp:549-569 | Continuing from the ring is the same as having applied every frame |
| Sha256.Hasher.Update | plugins/fleet/fleet_demo.cpp:96-119 | After any sequence of updates the state is the fold of the block function over the full blocks of everything given, the remainder buffered: how the input was split does not matter |
| Sha256.Hasher.Finish | plugins/fleet/fleet_demo.cpp:121-129 | The zero loop ends, and the digest is the fold over the padded message |
| Sha256.FoldSplit | plugins/fleet/fleet_demo.cpp:96-119 | Only the chaining value and the remainder of what came before matter |
| Sha256.PaddedBlocks | plugins/fleet/fleet_demo.cpp:121-129 | The padding fills whole blocks with the fewest zero bytes and ends in the bit length (section 5.1.1 of FIPS 180-4) |
| DemoStream.CopyCorrect | plugins/fleet/fleet_demo.cpp:359-392 | Demo copy correctness: when demo.end is queued in a trusted run, the bytes the platform holds when it arrives have the hashed file's length, and are that file exactly unless one of their own chunks collides with the file's in its fingerprint; the digest sent is then the digest of the copy |
| DemoCopy.Seal | plugins/fleet/fleet_demo.cpp:359-392 | The final pass: every sent chunk left out of the rewrites is already in the platform's copy (up to its fingerprint) |
| DemoCopy.SendFull | plugins/fleet/fleet_demo.cpp:513-520 | While recording, a full chunk keeps every known fingerprint true of the copy, for any rewriting of the file in between |
| DemoCopy.SendSealed | plugins/fleet/fleet_demo.cpp:513-520 | After the final pass a chunk makes the copy right at its place and nowhere worse |
| DemoCopy.SendRewrite | plugins/fleet/fleet_demo.cpp:522-526 | A changed chunk, sent again, may be struck off the list |
| DemoCopy.LoseEnd | plugins/fleet/fleet_demo.cpp:342-347 | A copy cut short by the platform stays sound |
| DemoCopy.Finished | plugins/fleet/fleet_demo.cpp:521-535 | Everything sent and nothing left to send again: the copy has every chunk |
| DemoCopy.CompleteMeansEqual | plugins/fleet/fleet_demo.cpp:359-392 | A copy with the right length and fingerprints is the file exactly if and only if no chunk collides |
| DemoCopy.DeliverSplit | plugins/fleet/fleet_demo.cpp:494-510 | The platform may take frames one by one or later: it ends up with the same bytes |
| DemoCopy.Fingerprint | plugins/fleet/fleet_demo.cpp:163-171 | The byte loop computes the FNV-1a fingerprint, never 0 |
| DemoCopy.OneByteShows | plugins/fleet/fleet_demo.cpp:163-171 | A single changed byte, anywhere, always changes the hash: each step is injective |
| DemoCopy.SkipExactly | plugins/fleet/fleet_demo.cpp:342-347 | How exact the condition on acks is: from any sound copy and any boundary the platform has, going on from there completes the copy exactly when every chunk skipped without a check is right already or will be sent again |
| DemoRuns.CompletesWrongCopy | plugins/fleet/fleet_demo.cpp:281-535 | A run in which every ack is true and the sender still queues demo.end over a wrong copy: asked again while a chunk waits, rewritten file, full lane at the final pass, late ack |
| DemoRuns.TrueAck | plugins/fleet/fleet_demo.cpp:329-347 | An ack of exactly what the platform has |
| DemoFinish.Completes | plugins/fleet/fleet_demo.cpp:281-535 | Transfers finish: from every trusted state in which the recording is over, the file stays as last seen and the platform has what was sent, ticks and truthful acks lead to demo.end, Done and, after the keep time, to the local file gone; the platform then has the file exactly unless chunks collide |
| DemoFinish.HandOver | plugins/fleet/fleet_demo.cpp:394-535 | The ticks up to demo.end terminate, and the copy is complete; a copy of unchanged bytes becomes exactly the file |
| DemoFinish.Progress | plugins/fleet/fleet_demo.cpp:489-535 | Each pass sends more bytes, or strikes off chunks to send again, or queues demo.end |
| DemoFinish.Stored | plugins/fleet/fleet_demo.cpp:348-405 | A complete ack at the final size makes the stream Done, and after the keep time the file is deleted |
| DemoFinish.FreshDemo | plugins/fleet/fleet_demo.cpp:206-535 | Any file of allowed size, chunk size and configuration: a new stream of it ends with exactly that file on the platform and none here |
| DemoStream.Streamer.constructor | plugins/fleet/fleet_demo.cpp:206-210 | A new stream is safe, sound and trusted; the window is at least a chunk |
| DemoStream.Streamer.ApplyAck | plugins/fleet/fleet_demo.cpp:281-357 | The exact state after every ack; it keeps 0 <= acked <= sent and the window; finished streams ignore it; a stream becomes Done exactly by a complete ack without error at the final size; trust ends exactly when the sender is moved to an offset the platform cannot have or the copy cannot continue from, and begins again with the answer to a restart |
| DemoStream.Streamer.OnError | plugins/fleet/fleet_demo.cpp:292-328 | What each error code does to the stream |
| DemoStream.Streamer.Resume | plugins/fleet/fleet_demo.cpp:332-341 | The answer to demo.begin sets both marks and starts streaming |
| DemoStream.Streamer.Advance | plugins/fleet/fleet_demo.cpp:342-347 | An ack while streaming; below the last one the sender goes back |
| DemoStream.Streamer.SessionLost | plugins/fleet/fleet_demo.cpp:457-462 | A lost session keeps the copy sound unless a lost frame was to overwrite bytes the platform kept |
| DemoStream.Streamer.FinalPass | plugins/fleet/fleet_demo.cpp:359-392 | The size, the digest of exactly the sealed bytes, and the list of exactly the changed chunks; the copy stays sound |
| DemoStream.Streamer.Scan | plugins/fleet/fleet_demo.cpp:366-384 | The read loop hashes the whole file and lists exactly the sent chunks that are unknown or changed |
| DemoStream.Streamer.SendChunk | plugins/fleet/fleet_demo.cpp:495-511 | A chunk of the file goes onto the lane and its fingerprint into the table, or nothing changes |
| DemoStream.Streamer.SendNext | plugins/fleet/fleet_demo.cpp:513-520 | The next chunk goes out exactly when recording, window, file and lane allow, and the copy stays sound |
| DemoStream.Streamer.SendAhead | plugins/fleet/fleet_demo.cpp:512-520 | The chunk loop queues exactly the file's bytes from the old mark to the new one, the window and the copy hold throughout, and it stops only at the end, after 16 chunks, or when the next chunk may not or cannot be sent |
| DemoStream.Streamer.SendChanged | plugins/fleet/fleet_demo.cpp:522-527 | The rewrite loop queues exactly the listed chunks it strikes off, until the list is empty, the budget is used up, or the file or the lane refuses |
| DemoStream.Streamer.SendEnd | plugins/fleet/fleet_demo.cpp:528-535 | demo.end with the sealed size and digest, only over a complete copy; repeated only after the retry time |
| DemoStream.Streamer.StreamOn | plugins/fleet/fleet_demo.cpp:489-535 | One pass of the stream phase, exactly: the final pass when the recording has settled and the file can be read, the chunks from the old mark to the new one, the changed chunks, at most one demo.end, and why each loop stopped |
| DemoStream.Streamer.Work | plugins/fleet/fleet_demo.cpp:394-535 | The exact state and frames after a tick; transfer safety over all runs: Done, Refused and Failed are absorbing, the file is deleted only in Done under a confirmed full copy of its size and after the keep time, at most the window is in flight |
| DemoStream.Streamer.Expire | plugins/fleet/fleet_demo.cpp:395-405 | The local copy goes exactly when the keep time is over and its size is the stored one |
| DemoStream.Streamer.Vanished | plugins/fleet/fleet_demo.cpp:409-420 | A vanished file fails the stream, a late one only after a minute |
| DemoStream.Streamer.Observe | plugins/fleet/fleet_demo.cpp:421-454 | The exact state after a look at the file: another inode or a shorter file starts over from 0, too large is refused, a recording that stalled for the configured time counts as stopped; after it the sender is within the file |
| DemoStream.Streamer.CheckSession | plugins/fleet/fleet_demo.cpp:458-468 | A new session or a silent platform means asking again |
| DemoStream.Streamer.AnnounceIt | plugins/fleet/fleet_demo.cpp:469-486 | demo.begin is sent exactly when the growing pause is over |
| DemoStream.BackoffDoubles | plugins/fleet/fleet_demo.cpp:469-486 | The pause before the next demo.begin is 5 s, then doubles up to its maximum |
| EditDistance.Compute | plugins/essentials/essentials_rules.cpp:277-290 | The one-row array loop computes the recursive Levenshtein distance, for all strings |
| EditDistance.NextRow | plugins/essentials/essentials_rules.cpp:280-288 | One sweep turns the distances of a prefix into those of the next, in place |
| EditDistance.Reaches | plugins/essentials/essentials_rules.cpp:277-290 | Some sequence of edits turns the one string into the other at that cost |
| EditDistance.Cheapest | plugins/essentials/essentials_rules.cpp:277-290 | No sequence of edits is cheaper |
| EditDistance.StripsPrefix | plugins/essentials/essentials_rules.cpp:272-275 | A prefix of two or three characters and its underscore are stripped |
| EditDistance.StripsNothingElse | plugins/essentials/essentials_rules.cpp:272-275 | Every other name is left as it is |
| EditDistance.Closest | plugins/essentials/essentials_rules.cpp:338-356 | The answers are exactly the maps at the least distance if that is at most max(1, len/3); a single answer is strictly the closest |
| SaySplit.SplitSay | plugins/fleet/fleet_cmds.cpp:154-180 | At most 3 lines of at most 190 bytes, in order pieces of the clean text with only spaces between; each ends at the last late space, or is as long as characters allow, or is the rest; no piece ends inside a character; with fewer lines nothing but spaces is left out; it hangs if and only if one of the rests the loop reaches before its third line is stuck, never without a run of 190 continuation bytes among the visible ones |
| SaySplit.LinesSpell | plugins/fleet/fleet_cmds.cpp:154-180 | Spaces aside, the lines joined are the start of the clean text |
| SaySplit.Step | plugins/fleet/fleet_cmds.cpp:166-178 | One round makes progress exactly when the text is not stuck, and leaves a stuck text as it was; a text too long for a line is cut at its last space if that leaves at least 95 bytes, and otherwise at the last boundary within 190 bytes |
| SaySplit.StuckStart | plugins/fleet/fleet_cmds.cpp:166-178 | Every text of at most 570 visible bytes that is stuck from its first character on is one of those on which the splitter hangs |
| SaySplit.WellFormedSafe | plugins/fleet/fleet_cmds.cpp:154-180 | No valid UTF-8 text (section 3 of RFC 3629) has a long run, so none hangs it |
| SaySplit.JoinedRuns | plugins/fleet/fleet_cmds.cpp:144-152 | The run must be looked for after dropping control characters: a text without one on which the splitter hangs |
| SaySplit.Utf8Cut | plugins/fleet/fleet_cmds.cpp:136-141 | The longest cut at a character boundary, 0 if there is none |
| SaySplit.Sanitize | plugins/fleet/fleet_cmds.cpp:144-152 | Without control characters, and the longest such start that splits no character |
| SaySplit.VisibleBytes | plugins/fleet/fleet_cmds.cpp:144-152 | Exactly the bytes below 0x20 and 0x7f are dropped |
| Deathmatch.EveryGame | plugins/deathmatch/dm_rules.cpp:336-373 | Every game under fixed settings, for any events: no score passes the kill limit, a kill-limit ending is no draw and its winner is the player (or team) of the last counted kill with exactly the limit, team kills add up to the players' kills, kills never outnumber deaths |
| Deathmatch.NextRuled | plugins/deathmatch/deathmatch_plugin.cpp:530-543 | One death, sighting or tick keeps all that |
| Deathmatch.EndRight | plugins/deathmatch/dm_rules.cpp:336-373 | The end is declared as soon as the limit is reached, for the one who reached it |
| Deathmatch.EndByClock | plugins/deathmatch/dm_rules.cpp:336-373 | While nobody is at the limit only the clock can end the game |
| Deathmatch.ClockWinner | plugins/deathmatch/dm_rules.cpp:336-373 | Who wins by the clock: a draw exactly when nobody has strictly the most kills, otherwise the one who has; in team mode the team with more kills, a draw exactly when they are equal |
| Deathmatch.LimitHolds | plugins/deathmatch/dm_rules.cpp:336-345 | Each mode has its own kill limit, and in every game nobody, or no team, passes it |
| Deathmatch.ScoresCount | plugins/deathmatch/dm_rules.cpp:245-261 | In every game, up to and with the event that ends it, a player's kills and deaths are exactly the kills and deaths that happened; suicides and team kills count for nobody |
| Deathmatch.EventScores | plugins/deathmatch/dm_rules.cpp:245-261 | One death changes kills, deaths, headshots and ranking time of nobody but the killer and the victim |
| Deathmatch.RankedKeeps | plugins/deathmatch/dm_rules.cpp:263-272 | The ranking is the same players, nobody above someone who outranks them |
| Deathmatch.RankedBy | plugins/deathmatch/dm_rules.cpp:263-272 | The ranking goes by kills, then fewer deaths, then the earlier last kill |
| Deathmatch.Leader | plugins/deathmatch/dm_rules.cpp:263-272 | The first of the ranking has the most kills |
| Deathmatch.KilledTallied | plugins/deathmatch/dm_rules.cpp:245-261 | A death keeps one entry per player and the sums |
| Deathmatch.Scoreboard.Get | plugins/deathmatch/dm_rules.cpp:222-229 | The search loop finds the player's entry or appends one |
| Deathmatch.Scoreboard.SeePlayer | plugins/deathmatch/dm_rules.cpp:238-243 | Name and team change only when given |
| Deathmatch.Scoreboard.OnKill | plugins/deathmatch/dm_rules.cpp:245-261 | The board after a death, and that a kill counted: not off, a victim, another attacker, and in team mode the other team's |

## Left out

- Doubles: values are `real`, the printer's `%.17g` / `%.10g` is a parameter, `strtod` rounding is not modelled (so `JsonParser.Parser.ReadNum` gives the exact decimal value); round trips are stated for values without doubles, and the status stream is judged by its prints. A double that is not finite (printed as null) does not occur. A double outside the 64-bit range converted to an integer is undefined in the source and taken as the least integer.
- JsonParser.Parser.ReadNum: gives the exact decimal value of a double, not the rounded one.
- Parser error texts and offsets; the second JSON parser of libs/readyup/status_snapshot.cpp (its values and its equality are modelled, its text parser is not).
- Sockets, TLS, libcurl, threads, locks, wake-ups, enrollment and credentials. The network thread is a sequence of method calls; `Link.Client.sendable` says when the socket fails.
- Link.Client.StartSession: heartbeat settings and the wait for the welcome are not modelled; the welcome's resume point and the early pings are inputs.
- The checks a message passes before it is queued (plugins/fleet/fleet_client.cpp:207-232), other than that its payload is an object on one line.
- The bulk lane inside the client (one message per pass, byte limit): `DemoStream` takes the number of frames it accepts as an input and its first-in first-out order as given.
- Failing file writes and fsync: writes succeed, the meta file is replaced as a whole, a crash can cut an append anywhere. The text of meta.json is not modelled.
- Delivery.EveryRun: the platform is a step relation (it takes the next number of a stream, discards others, knows nothing of a new stream), and crashes that `Delivery.Survives` excludes are not covered: those after a drop or inside a rotation, under the exact conditions above. A message may arrive a second time under a new stream's number; the receiver tells by its id.
- Crash soundness of the gap flag across a compaction drop or a rotation is not claimed beyond the exact conditions above.
- Limits in the spool are compared in exact arithmetic (`0.9` as a rational), not in doubles.
- Documentation and code disagree in two places and the code is followed: docs/FLEET.md section 6.5 lists seven critical message types, the code has eleven; the comment on the type check (plugins/fleet/fleet_proto.h:38) lets later segments start with a digit or underscore, the loop does not.
- SSE text framing, the text of snapshot and status bodies, HTTP; the ring stores frames as values.
- Saving and loading demo streams, several streams at once, the file name check, Base64 and the JSON text of demo messages; a session's frames reach the platform in order or are lost from some frame on.
- DemoFinish.Completes: starts when the platform has exactly what was sent; a platform that lost or kept more is covered by safety (`DemoStream.CopyCorrect`), not by this progress.
- DemoStream.CopyCorrect: FNV-1a is not assumed free of collisions; a colliding pair of chunks is the stated exception. The SHA-256 compression function and the hex form of the digest are parameters.
- DemoStream.Streamer.PeerRestarts: a restarted copy is assumed to start empty, with nothing of the old copy still in flight.
- Map name resolution before the fuzzy stage (exact, prefix and substring stages, the list of at most five suggestions).
- Deathmatch settings changes during a game, weapon rounds, save and load of the board; times are exact numbers.
- HUD, engine hooks, map votes, records, installers and the other plugins: easier or foreign code.
