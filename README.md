# Cluster alerting pass of EFAK, modelled in Dafny

EFAK (Eagle For Apache Kafka) runs a scheduled job, `AlertClusterSubTask`, that checks
cluster alarm targets and notifies an alarm group when one changes state. This project
models the job's core, `AlertClusterSubTask.Cluster`:

- **`cluster()`** walks the alarm targets in list order. It stops at the first disabled
  target. Every other target gets a breach verdict:
  - a **topic** is in breach when its storage capacity is above its threshold;
  - a **producer** is in breach when today's throughput is outside a `"low,high"` speed
    range, which is parsed from text;
  - a **node** target is in breach when at least one of its `host:port` entries fails
    its TCP probe.

  The verdict drives a per-target state machine over `alarmTimes` (a Java `int` counter)
  and `isNormal` (`"Y"` or `"N"`). A breach **fires** when the cap allows it
  (`alarmTimes < alarmMaxTimes` or the cap is `-1`). A good reading on an `"N"` target
  **recovers** it. Otherwise nothing happens. A changed record is written back before any
  notice is sent. A failed send is swallowed.
- **`sendAlarmClusterError` / `sendAlarmClusterNormal`** compose the notice: title,
  content, status and the `current(n), max(m)` counter. They send it by mail, DingDing or
  WeChat, as the group's channel says.

The model has five modules:

- `JavaText` holds the Java library behaviour the pass depends on: `String.split` with one
  separator character, `Long.parseLong` / `Integer.parseInt`, decimal rendering of numbers
  and `List.toString`.
- `AlarmModel` holds the records.
- `AlarmState` holds the fire/recover rule.
- `Breach` holds the three breach rules and the node-probing loop. `PartitionServers` is
  that loop, proved against the `NodePartition` function.
- `Notification` holds notice composition.

`AlertPass` holds the pass itself. `Step` specifies one target and `RunPass` the whole
pass. `Cluster` is the imperative loop over an array of records. It writes each record
back in place and collects a trace of events: `Persisted(record)` for a write-back and
`SendAttempt(delivery, ok)` for a send. Its postcondition ties the final array, the trace
and the way the pass ended to `RunPass`. That postcondition uses `old`, because the
method updates the array in place. The properties of the pass are lemmas about `RunPass`
and `Step`.

Everything the pass learns from outside a target's record comes in as a `Reading`:
- the notification group, absent when the lookup finds none;
- the topic capacity, absent when the metrics call throws;
- the throughput rows;
- the TCP probe, as a function from an entry's position in the list, the host and the
  port to reachable, unreachable or failed;
- whether the outbound send goes through.

The byte-size formatter `StrUtils.stringify` is a function parameter.

Behaviour of the code worth knowing:
- A disabled target ends the whole pass (`break`); it is not skipped.
- A node entry without a usable port, or whose probe throws, lands in neither list.
- Every node entry is probed by a call of its own, so an entry listed twice is probed
  twice and the two answers may differ.
- A speed text with two parts, one of which is not a `long`, throws out of the pass.
  Only text that does not split into exactly two parts defaults to `0,0`.
- A node entry made only of `:` characters splits into no parts. Indexing the host then
  throws outside the guarded block and ends the pass.

## Model

| member | source | states |
|---|---|---|
| JavaText.JavaSplit | efak-web/src/main/java/org/smartloli/kafka/eagle/web/quartz/shard/task/sub/AlertClusterSubTask.java:113-165 | Definition of Java's `String.split` on one character: the fields between separators, trailing empty fields dropped. No field holds the separator, and text without it is one field. The split lemmas below state its cases. |
| JavaText.JoinSplitAll | efak-web/src/main/java/org/smartloli/kafka/eagle/web/quartz/shard/task/sub/AlertClusterSubTask.java:113 | Splitting on a character and joining the fields with it again gives back the text. |
| JavaText.SplitAllJoin | efak-web/src/main/java/org/smartloli/kafka/eagle/web/quartz/shard/task/sub/AlertClusterSubTask.java:113 | Joining separator-free fields and splitting again gives back exactly those fields. |
| JavaText.JavaSplitTwo | efak-web/src/main/java/org/smartloli/kafka/eagle/web/quartz/shard/task/sub/AlertClusterSubTask.java:113 | `a,b` with separator-free parts and non-empty `b` splits into exactly `[a, b]`. |
| JavaText.JavaSplitOnlySeparators | efak-web/src/main/java/org/smartloli/kafka/eagle/web/quartz/shard/task/sub/AlertClusterSubTask.java:162 | Text made only of the separator splits into no fields at all, so `split(":")[0]` throws. |
| JavaText.JavaSplitEmpty | efak-web/src/main/java/org/smartloli/kafka/eagle/web/quartz/shard/task/sub/AlertClusterSubTask.java:162 | Splitting gives no fields exactly when the text is non-empty and made only of the separator. |
| JavaText.ParseLong | efak-web/src/main/java/org/smartloli/kafka/eagle/web/quartz/shard/task/sub/AlertClusterSubTask.java:117-118 | Definition of `Long.parseLong`: an optional sign, then ASCII digits whose value is in the 64-bit range; anything else is None, standing for `NumberFormatException`. |
| JavaText.ParseInt | efak-web/src/main/java/org/smartloli/kafka/eagle/web/quartz/shard/task/sub/AlertClusterSubTask.java:165 | Definition of `Integer.parseInt`: as `ParseLong`, with the 32-bit range. |
| JavaText.IntToString | efak-web/src/main/java/org/smartloli/kafka/eagle/web/quartz/shard/task/sub/AlertClusterSubTask.java:132 | Definition of the decimal rendering of a number (`+` on a string, lines 132, 220 and 228): non-empty, digits and `-` only. `ParseIntToString` proves it reads back. |
| JavaText.ParseIntToString | efak-web/src/main/java/org/smartloli/kafka/eagle/web/quartz/shard/task/sub/AlertClusterSubTask.java:117-118 | Parsing the decimal rendering of an in-range number gives the number back. |
| JavaText.ParseRejectsMalformed | efak-web/src/main/java/org/smartloli/kafka/eagle/web/quartz/shard/task/sub/AlertClusterSubTask.java:117-118 | The empty text, a lone sign and text with a non-digit after the first character are rejected, as `NumberFormatException`. |
| JavaText.ListToString | efak-web/src/main/java/org/smartloli/kafka/eagle/web/quartz/shard/task/sub/AlertClusterSubTask.java:181-193 | A list renders in brackets: `[]` when empty, `[x]` for one element. |
| JavaText.ListToStringCons | efak-web/src/main/java/org/smartloli/kafka/eagle/web/quartz/shard/task/sub/AlertClusterSubTask.java:181-193 | From two elements on, the rendering is `[`, the first element, `, `, then the rest of the list rendered without its opening `[`. |
| JavaText.ListRoundTrip | efak-web/src/main/java/org/smartloli/kafka/eagle/web/quartz/shard/task/sub/AlertClusterSubTask.java:181-193 | Elements that are non-empty and hold no `,` read back from the rendering as exactly the list, in order, with `, ` between them. |
| AlarmState.CapAllows | efak-web/src/main/java/org/smartloli/kafka/eagle/web/quartz/shard/task/sub/AlertClusterSubTask.java:87 | Definition: firing is allowed below the cap, or always when the cap is `-1`. |
| AlarmState.Decide | efak-web/src/main/java/org/smartloli/kafka/eagle/web/quartz/shard/task/sub/AlertClusterSubTask.java:87-109 | Definition: fire on a breach the cap allows, else recover on a good verdict when the flag is `N`, else stay. The AlarmState lemmas below state its cases. |
| AlarmState.Apply | efak-web/src/main/java/org/smartloli/kafka/eagle/web/quartz/shard/task/sub/AlertClusterSubTask.java:88-100 | Definition: firing sets counter+1 as a Java `int` and `N`; recovering sets counter 0 and `Y`; staying keeps the record. |
| AlarmState.Inc32 | efak-web/src/main/java/org/smartloli/kafka/eagle/web/quartz/shard/task/sub/AlertClusterSubTask.java:88 | The counter increment is Java `int` arithmetic: the low 32 bits of the exact sum read as two's complement, so 2147483647 wraps to -2147483648. The result is never the old value. |
| AlarmState.FireEdge | efak-web/src/main/java/org/smartloli/kafka/eagle/web/quartz/shard/task/sub/AlertClusterSubTask.java:87-89 | A target fires exactly on a breach the cap allows; firing increments the counter, sets `N` and changes nothing else. |
| AlarmState.CapSuppression | efak-web/src/main/java/org/smartloli/kafka/eagle/web/quartz/shard/task/sub/AlertClusterSubTask.java:87-96 | At a finite cap that has been reached, a continuing breach leaves the record unchanged. |
| AlarmState.UnlimitedNeverSuppressed | efak-web/src/main/java/org/smartloli/kafka/eagle/web/quartz/shard/task/sub/AlertClusterSubTask.java:87 | With the cap at `-1`, every breach fires. |
| AlarmState.RecoverEdge | efak-web/src/main/java/org/smartloli/kafka/eagle/web/quartz/shard/task/sub/AlertClusterSubTask.java:96-100 | A recovering verdict resets an `N` target to counter 0 and `Y`; on any other flag it does nothing. |
| AlarmState.RecoverIdempotent | efak-web/src/main/java/org/smartloli/kafka/eagle/web/quartz/shard/task/sub/AlertClusterSubTask.java:96-108 | After a recovery, the same verdict again does nothing. |
| AlarmState.NeitherKeepsState | efak-web/src/main/java/org/smartloli/kafka/eagle/web/quartz/shard/task/sub/AlertClusterSubTask.java:87-109 | A verdict that is neither a breach nor a recovery leaves the state alone. |
| AlarmState.DecideKeepsBound | efak-web/src/main/java/org/smartloli/kafka/eagle/web/quartz/shard/task/sub/AlertClusterSubTask.java:87-88 | A counter within `0..alarmMaxTimes` stays within it after any transition. |
| AlarmState.TransitionChangesRecord | efak-web/src/main/java/org/smartloli/kafka/eagle/web/quartz/shard/task/sub/AlertClusterSubTask.java:87-102 | A transition happens exactly when the record changes. |
| Breach.RealCapacity | efak-web/src/main/java/org/smartloli/kafka/eagle/web/quartz/shard/task/sub/AlertClusterSubTask.java:77-82 | Definition: the measured capacity, or 0 when the metrics call throws. |
| Breach.TopicVerdict | efak-web/src/main/java/org/smartloli/kafka/eagle/web/quartz/shard/task/sub/AlertClusterSubTask.java:87-96 | Definition: breach when the capacity is above the threshold, recovery when it is below. |
| Breach.TopicBoundary | efak-web/src/main/java/org/smartloli/kafka/eagle/web/quartz/shard/task/sub/AlertClusterSubTask.java:87-96 | At exactly the threshold the topic rule neither fires nor recovers. |
| Breach.SpeedRange | efak-web/src/main/java/org/smartloli/kafka/eagle/web/quartz/shard/task/sub/AlertClusterSubTask.java:113-119 | Definition: the speed text split at `,`; two parts parse as `long`s or throw; any other number of parts reads as `(0, 0)`. The three SpeedRange lemmas state its cases. |
| Breach.SpeedRangeRoundTrip | efak-web/src/main/java/org/smartloli/kafka/eagle/web/quartz/shard/task/sub/AlertClusterSubTask.java:113-119 | A range written as `low,high` reads back as `(low, high)`. |
| Breach.SpeedRangeDefault | efak-web/src/main/java/org/smartloli/kafka/eagle/web/quartz/shard/task/sub/AlertClusterSubTask.java:113-119 | Speed text that does not split into exactly two parts reads as `(0, 0)`. |
| Breach.SpeedRangeUnparsable | efak-web/src/main/java/org/smartloli/kafka/eagle/web/quartz/shard/task/sub/AlertClusterSubTask.java:117-118 | Two parts, one of which is not a `long`, make the speed unreadable, so the pass ends. |
| Breach.RealSpeed | efak-web/src/main/java/org/smartloli/kafka/eagle/web/quartz/shard/task/sub/AlertClusterSubTask.java:125-128 | Definition: the first throughput row's value, or 0 when there is none. |
| Breach.ProducerVerdict | efak-web/src/main/java/org/smartloli/kafka/eagle/web/quartz/shard/task/sub/AlertClusterSubTask.java:134-143 | Definition: breach outside `[low, high]`, recovery inside it. |
| Breach.ProducerRule | efak-web/src/main/java/org/smartloli/kafka/eagle/web/quartz/shard/task/sub/AlertClusterSubTask.java:134-143 | A producer is in breach exactly when it is not recovered; both range ends recover; an inverted range never recovers. |
| Breach.ClassifyEntry | efak-web/src/main/java/org/smartloli/kafka/eagle/web/quartz/shard/task/sub/AlertClusterSubTask.java:162-174 | Definition: split the entry at `:`; no parts ends the pass; one part, or a port that is not an `int`, passes it over; otherwise the probe at its position picks down, up or passed over. |
| Breach.ClassifyFatal | efak-web/src/main/java/org/smartloli/kafka/eagle/web/quartz/shard/task/sub/AlertClusterSubTask.java:162 | An entry ends the pass exactly when it is non-empty and made only of `:`. |
| Breach.NodePartition | efak-web/src/main/java/org/smartloli/kafka/eagle/web/quartz/shard/task/sub/AlertClusterSubTask.java:158-175 | Definition: the error and normal lists, each in entry order, or the end of the pass when some entry ends it. |
| Breach.OnlyMembership | efak-web/src/main/java/org/smartloli/kafka/eagle/web/quartz/shard/task/sub/AlertClusterSubTask.java:161-175 | A text is in a class's list exactly when some entry at some position has that text and falls in that class when probed there. |
| Breach.OnlyCounts | efak-web/src/main/java/org/smartloli/kafka/eagle/web/quartz/shard/task/sub/AlertClusterSubTask.java:161-175 | When no entry ends the pass, the unreachable, reachable and passed-over lists together hold every entry, copy by copy (equal as multisets). |
| Breach.OnlyLengths | efak-web/src/main/java/org/smartloli/kafka/eagle/web/quartz/shard/task/sub/AlertClusterSubTask.java:161-175 | The three lists together are exactly as long as the entry list. |
| Breach.PartitionExactlyOne | efak-web/src/main/java/org/smartloli/kafka/eagle/web/quartz/shard/task/sub/AlertClusterSubTask.java:164-171 | The entry at each position whose probe answers is in the list of its answer. When no other entry has its text, it is in exactly one of the two lists. |
| Breach.ProbeEntry | efak-web/src/main/java/org/smartloli/kafka/eagle/web/quartz/shard/task/sub/AlertClusterSubTask.java:162-174 | One turn of the loop (split, port parse, probe) files the entry exactly as `ClassifyEntry` says. |
| Breach.PartitionServers | efak-web/src/main/java/org/smartloli/kafka/eagle/web/quartz/shard/task/sub/AlertClusterSubTask.java:158-175 | The probing loop ends the pass exactly when some entry ends it, which by `ClassifyFatal` is an entry made only of `:`. Otherwise it returns the in-order lists of unreachable and reachable entries. |
| Breach.NodeVerdict | efak-web/src/main/java/org/smartloli/kafka/eagle/web/quartz/shard/task/sub/AlertClusterSubTask.java:176-185 | Definition: breach when some server is in the error list, recovery when none is. |
| Breach.Evaluate | efak-web/src/main/java/org/smartloli/kafka/eagle/web/quartz/shard/task/sub/AlertClusterSubTask.java:73-185 | Definition: per target kind, the breach/recovery verdict and the notice details, or the end of the pass when the speed text or a node entry throws. |
| Breach.EvaluateExclusive | efak-web/src/main/java/org/smartloli/kafka/eagle/web/quartz/shard/task/sub/AlertClusterSubTask.java:87-96 | For every kind of target, a breach rules out recovery. |
| Breach.EvaluateFailsOnlyOnMalformedText | efak-web/src/main/java/org/smartloli/kafka/eagle/web/quartz/shard/task/sub/AlertClusterSubTask.java:73-175 | Evaluation throws exactly on an unreadable speed range or on a node entry that ends the pass, which by `ClassifyFatal` is one of bare `:`s. A failed metrics call reads as capacity 0, and no throughput row reads as speed 0. |
| Breach.ClassifyHostPort | efak-web/src/main/java/org/smartloli/kafka/eagle/web/quartz/shard/task/sub/AlertClusterSubTask.java:162-171 | `host:port` with an int port is probed at that host and port, and the answer picks its list. |
| Breach.ClassifyUnusablePort | efak-web/src/main/java/org/smartloli/kafka/eagle/web/quartz/shard/task/sub/AlertClusterSubTask.java:162-174 | An entry without a port, or with a port that is not an int, is passed over without ending the pass. |
| Breach.TwoNodesOneDown | efak-web/src/main/java/org/smartloli/kafka/eagle/web/quartz/shard/task/sub/AlertClusterSubTask.java:158-176 | For `h1:p,h2:p` where only the probe of `h2` (second position) answers, the partition is `([h1:p], [h2:p])` and the target is in breach. |
| Breach.DuplicateProbedTwice | efak-web/src/main/java/org/smartloli/kafka/eagle/web/quartz/shard/task/sub/AlertClusterSubTask.java:161-171 | A node listed twice is probed once per copy. When the two probes disagree, its text is in both lists. |
| Notification.Content | efak-web/src/main/java/org/smartloli/kafka/eagle/web/quartz/shard/task/sub/AlertClusterSubTask.java:209-222 | Definition: the edge-and-kind keyword, then the topic and both capacities (via `stringify`), the topic and both speeds, or the bracketed server list. |
| Notification.Counter | efak-web/src/main/java/org/smartloli/kafka/eagle/web/quartz/shard/task/sub/AlertClusterSubTask.java:228 | Definition: `current(n), max(m)` with the counter and the cap in decimal. |
| Notification.Message | efak-web/src/main/java/org/smartloli/kafka/eagle/web/quartz/shard/task/sub/AlertClusterSubTask.java:205-228 | Definition: the notice fields, with WeChat's backticked title and coloured content and status. |
| Notification.Compose | efak-web/src/main/java/org/smartloli/kafka/eagle/web/quartz/shard/task/sub/AlertClusterSubTask.java:203-293 | Definition: a mail, DingDing or WeChat post of the message by the group's channel, or no send for any other channel. |
| Notification.ComposeChannels | efak-web/src/main/java/org/smartloli/kafka/eagle/web/quartz/shard/task/sub/AlertClusterSubTask.java:204-293 | Mail, DingDing and WeChat each make one send and any other channel none. The mail carries the group's address and URL, the message title and the JSON-or-plain body choice. |
| Notification.PlainMessage | efak-web/src/main/java/org/smartloli/kafka/eagle/web/quartz/shard/task/sub/AlertClusterSubTask.java:204-228 | Titles are `EFAK - Alert Cluster Error` and `EFAK - Alert Cluster Notice`; statuses are `PROBLEM` and `NORMAL`. The counter shows the post-transition counter and the cap. |
| Notification.SameFactsAcrossChannels | efak-web/src/main/java/org/smartloli/kafka/eagle/web/quartz/shard/task/sub/AlertClusterSubTask.java:266-290 | Mail and DingDing carry the same message. WeChat carries it with the title in backticks plus a newline, and content and status in the edge's font colour. |
| Notification.EdgesDistinguishable | efak-web/src/main/java/org/smartloli/kafka/eagle/web/quartz/shard/task/sub/AlertClusterSubTask.java:296-383 | Error and recovery notices differ in title, status and WeChat colour. |
| Notification.KeywordsDistinct | efak-web/src/main/java/org/smartloli/kafka/eagle/web/quartz/shard/task/sub/AlertClusterSubTask.java:209-222 | No two (edge, kind) pairs share a content keyword. |
| Notification.ContentOpensWithKeyword | efak-web/src/main/java/org/smartloli/kafka/eagle/web/quartz/shard/task/sub/AlertClusterSubTask.java:214-222 | The content opens with its edge-and-kind keyword. |
| Notification.CounterRoundTrip | efak-web/src/main/java/org/smartloli/kafka/eagle/web/quartz/shard/task/sub/AlertClusterSubTask.java:228 | The counter text `current(n), max(m)` reads back as `(n, m)`. |
| AlertPass.Notify | efak-web/src/main/java/org/smartloli/kafka/eagle/web/quartz/shard/task/sub/AlertClusterSubTask.java:91-95 | Definition: one send attempt of the composed notice, carrying whether it went through; none without a group or a known channel. |
| AlertPass.Finish | efak-web/src/main/java/org/smartloli/kafka/eagle/web/quartz/shard/task/sub/AlertClusterSubTask.java:87-109 | Definition: apply the decided transition; on a change, write the record back, then notify. |
| AlertPass.Step | efak-web/src/main/java/org/smartloli/kafka/eagle/web/quartz/shard/task/sub/AlertClusterSubTask.java:73-199 | Definition: evaluate one enabled target, then finish it; a throw ends the pass. |
| AlertPass.EvaluateTarget | efak-web/src/main/java/org/smartloli/kafka/eagle/web/quartz/shard/task/sub/AlertClusterSubTask.java:73-175 | The evaluation half of the loop body computes exactly `Evaluate`. |
| AlertPass.EvaluateTask | efak-web/src/main/java/org/smartloli/kafka/eagle/web/quartz/shard/task/sub/AlertClusterSubTask.java:68-198 | The loop body for one enabled target computes exactly `Step`. |
| AlertPass.StepEvents | efak-web/src/main/java/org/smartloli/kafka/eagle/web/quartz/shard/task/sub/AlertClusterSubTask.java:87-95 | A step emits events exactly when it changes the record. The first event writes the new record back, and at most one send follows it, showing the new counter. |
| AlertPass.StepFires | efak-web/src/main/java/org/smartloli/kafka/eagle/web/quartz/shard/task/sub/AlertClusterSubTask.java:87-95 | On an allowed breach the record becomes counter+1 and `N` and is written, then the error notice is attempted; the send's outcome does not change the record. |
| AlertPass.StepRecovers | efak-web/src/main/java/org/smartloli/kafka/eagle/web/quartz/shard/task/sub/AlertClusterSubTask.java:96-108 | A recovering reading resets an `N` target, writes it, then attempts the normal notice; on a `Y` target it does nothing. |
| AlertPass.StepTopicAtThreshold | efak-web/src/main/java/org/smartloli/kafka/eagle/web/quartz/shard/task/sub/AlertClusterSubTask.java:87-109 | A topic reading exactly at its threshold changes nothing and sends nothing. |
| AlertPass.StepRecoverIdempotent | efak-web/src/main/java/org/smartloli/kafka/eagle/web/quartz/shard/task/sub/AlertClusterSubTask.java:96-108 | The same good reading again, on the recovered record, changes nothing and sends nothing. |
| AlertPass.StepSilentAtCap | efak-web/src/main/java/org/smartloli/kafka/eagle/web/quartz/shard/task/sub/AlertClusterSubTask.java:87-185 | At a reached finite cap, a continuing breach of any kind of target changes nothing and sends nothing. |
| AlertPass.StepKeepsBound | efak-web/src/main/java/org/smartloli/kafka/eagle/web/quartz/shard/task/sub/AlertClusterSubTask.java:87-88 | A counter within a finite cap stays within it after a step. |
| AlertPass.StepUnlimitedWraps | efak-web/src/main/java/org/smartloli/kafka/eagle/web/quartz/shard/task/sub/AlertClusterSubTask.java:87-88 | With the cap at `-1`, the firing after 2147483647 wraps the counter to -2147483648. |
| AlertPass.TopicScenario | efak-web/src/main/java/org/smartloli/kafka/eagle/web/quartz/shard/task/sub/AlertClusterSubTask.java:73-109 | Threshold 1000, counter 0, cap 3: reading 1500 fires to counter 1 with a PROBLEM mail naming both capacities. Reading 900 then recovers it to 0 with a NORMAL mail. |
| AlertPass.RunFrom | efak-web/src/main/java/org/smartloli/kafka/eagle/web/quartz/shard/task/sub/AlertClusterSubTask.java:64-200 | Definition: the walk from position i, stopping at the end, at a disabled target or at a throw; it keeps one record per target. |
| AlertPass.RunPass | efak-web/src/main/java/org/smartloli/kafka/eagle/web/quartz/shard/task/sub/AlertClusterSubTask.java:62-201 | Definition: the walk over all targets from the first, with an empty trace. |
| AlertPass.RunFromEnd | efak-web/src/main/java/org/smartloli/kafka/eagle/web/quartz/shard/task/sub/AlertClusterSubTask.java:64-67 | The pass stops after the last target, at a disabled target, or at one whose evaluation throws. Targets outside the walked stretch are left unchanged. |
| AlertPass.RunFromStepped | efak-web/src/main/java/org/smartloli/kafka/eagle/web/quartz/shard/task/sub/AlertClusterSubTask.java:64-200 | Every target the pass walked past was enabled, evaluated without throwing, and holds its own step's record. |
| AlertPass.RunFromTrace | efak-web/src/main/java/org/smartloli/kafka/eagle/web/quartz/shard/task/sub/AlertClusterSubTask.java:64-200 | The pass's events are those of the targets it walked, in list order. |
| AlertPass.FirstDisabledEndsPass | efak-web/src/main/java/org/smartloli/kafka/eagle/web/quartz/shard/task/sub/AlertClusterSubTask.java:64-67 | When no earlier target throws, the pass ends at the first disabled target and leaves it and all later targets unchanged. |
| AlertPass.ReadingsAfterDisabledUnused | efak-web/src/main/java/org/smartloli/kafka/eagle/web/quartz/shard/task/sub/AlertClusterSubTask.java:64-67 | Targets at and after a disabled one are not evaluated: what is read for them makes no difference to the pass. |
| AlertPass.StepIgnoresSendOutcome | efak-web/src/main/java/org/smartloli/kafka/eagle/web/quartz/shard/task/sub/AlertClusterSubTask.java:91-95 | A target's evaluation and new record do not depend on whether its send goes through. |
| AlertPass.SendOutcomeIrrelevant | efak-web/src/main/java/org/smartloli/kafka/eagle/web/quartz/shard/task/sub/AlertClusterSubTask.java:91-95 | Failed sends change neither any record nor where the pass ends. |
| AlertPass.PassKeepsBound | efak-web/src/main/java/org/smartloli/kafka/eagle/web/quartz/shard/task/sub/AlertClusterSubTask.java:87-88 | Each target whose counter starts within its own finite cap is within it after the pass, whatever the other targets' caps (an unlimited `-1` cap included). |
| AlertPass.PassSendsFollowPersists | efak-web/src/main/java/org/smartloli/kafka/eagle/web/quartz/shard/task/sub/AlertClusterSubTask.java:90-92 | In the pass's trace, every send comes right after the write of the record it reports and shows that record's counter. So there is no send without a state change, and the write comes first. |
| AlertPass.Cluster | efak-web/src/main/java/org/smartloli/kafka/eagle/web/quartz/shard/task/sub/AlertClusterSubTask.java:62-201 | The in-place pass over the record array leaves the array, the trace and the way it ended exactly as `RunPass` specifies for the original records. |

## Left out

- Database access is not modelled. Loading the targets and looking up the notification
  group are inputs. Writing a record back is a `Persisted` event. A write that fails is
  not modelled.
- Outbound sends over mail, DingDing and WeChat are `SendAttempt` events carrying the
  composed message.
- The rendering methods `toMail`, `toMailJSON`, `toDingDingMarkDown` and
  `toWeChatMarkDown` are not part of this model. The delivery carries the message.
- The TCP probe, the topic-capacity metric and the throughput query are network or
  database calls. They are oracle inputs in each `Reading`.
- The target's JSON config and the detail's JSON round trip are modelled as parsed
  datatypes. A config that fastjson cannot read, or that lacks a field, is not modelled.
  Neither is a null `isNormal`.
- `JSONUtils.isJsonObject` on the group's URL is a boolean input.
- `StrUtils.stringify` is a function parameter. The message date from `CalendarUtils` is
  omitted.
- The values of the `KConstants` constants are not part of this model. The enable flag is
  a boolean. The target type is the `TargetSpec` tag. The channel is an enumeration with
  an `OtherChannel` case for any other name.
- Notification.Message: the message's project field is the kind of the target's spec
  (topic, producer or node). The code stores the raw `getType()` text
  (lines 226, 261, 288, 319, 354, 381). A type name other than topic or producer is
  evaluated as a node target, and its notice names it as a node.
- `Long.parseLong` and `Integer.parseInt` accept only ASCII digits here. Java also accepts
  other Unicode decimal digits.
- The record's `id` is an unbounded integer. The counter fields are assumed to be Java
  `int`.
- The worker thread, `synchronized run()` and the `StartupListener.getBean` lookup are
  scheduling and container plumbing.
