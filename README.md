# midi2sif in Dafny

A model of `midi2sif`, the converter that turns a Standard MIDI File into a
School Idol Festival beatmap. The model covers everything the converter does
between the input bytes and the list of beatmap records:

- **Header** (`Converter.ParseHeader`). The file must start with `MThd` and a
  header length of 6. The track count and the division are the big-endian
  words at body offsets 2 and 4. A division above 32767 (SMPTE/MTC timing) is
  refused.
- **Chunk walk** (`Converter.WalkChunks`). The walk reads as many chunks as
  the header announces.
  - A chunk whose tag is not `MTrk` is skipped by its declared length.
  - An `MTrk` chunk is read event by event (`Converter.ExtractTrack`, over
    `Track.EventAt`). Its declared length is the byte budget, and the budget
    is decremented the way the original decrements its `size_t`.
  - Every event starts with a variable-length delta time
    (`Bytes.ReadVarInt`). The delta is added to a 32-bit running tick that
    wraps.
  - Note-on and note-off events keep their pitch and channel.
  - Meta events keep their type and payload.
  - System-exclusive events are skipped up to the next `0xF7`.
  - Any other status byte is skipped together with two data bytes, so running
    status is not supported.
- **Event table** (`Buckets.EventTable`). Extracted events go into a map from
  tick to the events at that tick (`InsertEvent`). Each event is numbered by
  its position in its bucket.
- **Merge** (`Buckets.EventTable.Merge`). All buckets are appended into one
  list in ascending key order, each bucket from the back. The merge also
  records the lowest and highest tick. The list is then sorted by
  (tick, order) (`Buckets.SortEvents`).
- **Lane normaliser** (`Lanes`). The range of note pitches must be odd and at
  most 9 wide. The range is then re-centred to exactly 9 lanes, with C's
  truncating `/` and `%` written out.
- **Timeline walk** (`Timeline.Simulate`). The walk visits every tick from
  the lowest to the highest.
  - It processes the events due at each tick, in order.
  - Set Tempo meta events (type 81) change the tempo.
  - A note whose channel gives attribute 0 is ignored.
  - Any other note becomes a record with its attribute (`channel >> 2`), its
    effect (`(channel & 3) + 1`) and its lane.
  - Long notes (effect 3) are paired through a table of pending starts keyed
    by lane. The walk fails on a second start or on an end without a start.
- **Final sort**. The records are sorted by time (`Timeline.SortByTime`).

The whole pipeline is `Converter.Midi2Sif`. It is proved to return exactly
what the functional specification `Converter.Convert` gives, sorted by time.
Every record it returns is well formed: lane 1..9, attribute 1..3,
effect 1..4, and value 2.0 unless the record is a long note. With a
non-negative tick duration, every long note has a non-negative length.

The input is a sequence of byte values with a cursor into it. Every short
read of the original (`fread`/`fgetc` returning too little) becomes
`Fail(TruncatedStream)`, and each `throw` of the original becomes one
`Results.Error` variant. The length of one tick in seconds depends on the
file's ticks per quarter note and the tempo in force. The original computes
it in floating point. Here it is a parameter, `rate(ppqn, tempo)`, and the
clock is a `real`.

The event table is a `class` whose method `Insert` updates its map in place,
as `InsertEvent` does. The loops of the original are `method`s with loop
invariants, each proved against a recursive specification function:
`ReadVarInt`, the track and chunk loops, the merge, the lane scan, the tempo
byte fold and the tick loop.

## Model

| member | source | states |
|---|---|---|
| Bytes.DwordIsBigEndian | src/midi2sif.cpp:149-153 | STR2DWORD_BE is the big-endian value of four bytes, below 2^32 |
| Bytes.WordIsBigEndian | src/midi2sif.cpp:155-159 | STR2WORD_BE is the big-endian value of two bytes, below 2^16 |
| Bytes.Dword | src/midi2sif.cpp:149-153 | the big-endian reading of four bytes; its meaning is stated by DwordIsBigEndian and DwordRoundTrip |
| Bytes.Word | src/midi2sif.cpp:155-159 | the big-endian reading of two bytes; its meaning is stated by WordIsBigEndian, WordHighBit and WordRoundTrip |
| Bytes.WordHighBit | src/midi2sif.cpp:155-159 | a word exceeds 32767 exactly when its first byte has the top bit set |
| Bytes.BigEndianBound | src/midi2sif.cpp:149-159 | n bytes read big-endian give a value below 256^n |
| Bytes.DwordRoundTrip | src/midi2sif.cpp:149-153 | reading back the 4-byte big-endian encoding of x < 2^32 gives x |
| Bytes.WordRoundTrip | src/midi2sif.cpp:155-159 | reading back the 2-byte big-endian encoding of x < 2^16 gives x |
| Bytes.VarIntAt | src/midi2sif.cpp:130-147 | a variable-length read fails only by running out of input; on success it consumes at least one byte, stays inside the input and yields a value below 2^32 |
| Bytes.VarIntEnd | src/midi2sif.cpp:135-144 | the read stops at the first byte below 0x80 and every byte before it has the top bit set; it fails exactly when no byte from the cursor on is below 0x80 |
| Bytes.ReadVarInt | src/midi2sif.cpp:130-147 | the loop returns what VarIntAt specifies and takes the bytes consumed off the budget |
| Bytes.ShiftSnoc | src/midi2sif.cpp:142 | one more byte shifts the 32-bit accumulator by 7 bits and ors in the low 7 bits, modulo 2^32 |
| Bytes.ReadsThrough | src/midi2sif.cpp:135-144 | continuation bytes are absorbed into the accumulator without ending the read |
| Bytes.ContinuationShift | src/midi2sif.cpp:142 | the continuation groups of y < 2^32 accumulate back to y |
| Bytes.ShiftGroup | src/midi2sif.cpp:142 | a continuation byte 128 + r appends the 7-bit group r to the accumulated value |
| Bytes.GroupArithmetic | src/midi2sif.cpp:142 | appending a 7-bit group below 2^32 does not wrap |
| Bytes.SevenBits | src/midi2sif.cpp:142 | masking 128 + y to 7 bits keeps y's low 7 bits, and y splits into its high part and low 7 bits |
| Bytes.ContinuationHigh | src/midi2sif.cpp:144 | every continuation byte of an encoding has the top bit set |
| Bytes.EmbeddedSplit | src/midi2sif.cpp:130-147 | bytes embedded at a cursor split into embedded halves |
| Bytes.EmbeddedAt | src/midi2sif.cpp:130-147 | an embedded byte sequence is found at its offset from the cursor |
| Bytes.VarIntRoundTrip | src/midi2sif.cpp:130-147 | the variable-length encoding of any x < 2^32, found at the cursor, decodes to x and ends just after the encoding |
| Bytes.FinalByte | src/midi2sif.cpp:142-144 | a final byte below 0x80 completes the value whose high part is the accumulator |
| Bytes.ContinuationLength | src/midi2sif.cpp:135-144 | a value below 128^n needs at most n continuation groups |
| Bytes.VarIntLength | src/midi2sif.cpp:130-147 | values below 2^28 take 1 to 4 bytes |
| Bytes.VarIntCut | src/midi2sif.cpp:130-147 | a variable-length read from the input cut at k gives the same value and end when the read ends by k, and fails with TruncatedStream otherwise |
| Track.SysexEndAt | src/midi2sif.cpp:297-311 | a sysex skip fails only by running out of input and otherwise ends inside the input, past the cursor |
| Track.SysexEndIsFirst | src/midi2sif.cpp:301-310 | the skip ends just after the first 0xF7; it fails exactly when no 0xF7 follows |
| Track.SysexCut | src/midi2sif.cpp:297-311 | a sysex skip over the input cut at k ends in the same place when that is by k, and fails with TruncatedStream otherwise |
| Track.SkipSysex | src/midi2sif.cpp:297-311 | the byte loop returns what SysexEndAt specifies and takes each byte read off the budget |
| Track.EventAt | src/midi2sif.cpp:236-316 | one event fails only by running out of input; otherwise it consumes at least the delta byte and the status byte, stamps its event with the new 32-bit running tick and keeps a 4-bit channel |
| Track.TrackFrom | src/midi2sif.cpp:236-316 | a track that succeeds consumed exactly its budget and ends inside the input; it fails only by running out of input |
| Track.TrackEvents | src/midi2sif.cpp:236-316 | every event a track emits has a tick below 2^32 and a channel 0..15 |
| Track.ReadEvent | src/midi2sif.cpp:238-315 | reading one event returns what EventAt specifies and takes the bytes consumed off the budget |
| Track.NoteRoundTrip | src/midi2sif.cpp:248-271 | an encoded note-on or note-off decodes to a note with its pitch, channel and advanced tick, past its status byte and two data bytes |
| Track.MetaRoundTrip | src/midi2sif.cpp:272-296 | an encoded meta event decodes to its type and exact payload at the advanced tick |
| Track.MetaAt | src/midi2sif.cpp:272-296 | a meta event yields the payload bytes its length prefix covers, and continues after them |
| Track.SysexRoundTrip | src/midi2sif.cpp:297-311 | an encoded sysex event, opened by 0xF0 or by 0xF7, with a body free of 0xF7 is skipped through its terminating 0xF7 and emits nothing |
| Track.OtherRoundTrip | src/midi2sif.cpp:312-315 | any other status byte is skipped with two data bytes and emits nothing |
| Track.TrackStep | src/midi2sif.cpp:236-316 | the events of a track are those of its first event followed by the rest of the track |
| Track.AfterNone | src/midi2sif.cpp:236-316 | a track with nothing emitted before is the track itself |
| Track.EventCut | src/midi2sif.cpp:236-316 | one event read from the input cut at k is the same event when it ends by k, and fails with TruncatedStream otherwise |
| Track.MetaCut | src/midi2sif.cpp:272-296 | the same for a meta event |
| Track.MetaFits | src/midi2sif.cpp:272-296 | a meta event whose payload ends by k reads alike from the cut input |
| Track.MetaShort | src/midi2sif.cpp:272-296 | a meta event whose length or payload reaches past k fails on the cut input, and does not end by k on the whole input |
| Track.SysexEventCut | src/midi2sif.cpp:297-311 | the same for a sysex event |
| Track.OtherCut | src/midi2sif.cpp:312-315 | the same for an event skipped with two data bytes |
| Track.TrackCut | src/midi2sif.cpp:236-316 | a track read from the input cut at k gives the same events and end when the whole track ends by k, and fails with TruncatedStream otherwise |
| Track.TrackStops | src/midi2sif.cpp:236-316 | an event that does not end by k fails the whole cut track |
| Track.CutAfter | src/midi2sif.cpp:236-316 | cutting a track commutes with prefixing the events emitted before |
| Buckets.StampedShape | src/midi2sif.cpp:161-178 | numbering events keeps their number, ticks and kinds |
| Buckets.Stamped | src/midi2sif.cpp:161-178 | numbers each event by the events at its tick before it; its meaning is stated by StampedShape, BucketNumbering and StampedDistinct |
| Buckets.Inserted | src/midi2sif.cpp:161-178 | one InsertEvent on a table; its meaning is stated by BucketAfter, TicksSnoc and InsertedTable |
| Buckets.BucketNumbering | src/midi2sif.cpp:161-178 | the events at tick k are numbered 0, 1, 2, … in arrival order, as many as arrived at k |
| Buckets.CountAbsent | src/midi2sif.cpp:163-177 | a tick at which nothing arrived has no events |
| Buckets.AtTicksAdd | src/midi2sif.cpp:324-337 | selecting a further tick adds exactly that tick's events |
| Buckets.AtTicksAll | src/midi2sif.cpp:324-337 | selecting every tick selects all events |
| Buckets.AtTicksNone | src/midi2sif.cpp:324-337 | selecting no tick selects nothing |
| Buckets.AtTicksOf | src/midi2sif.cpp:324-337 | the events selected by a set of ticks lie at those ticks |
| Buckets.BucketAfter | src/midi2sif.cpp:161-178 | a new event extends the bucket of its tick by itself, numbered with the bucket's old size, and leaves every other bucket alone |
| Buckets.TicksSnoc | src/midi2sif.cpp:161-178 | a new event adds its tick to the keys |
| Buckets.InsertedTable | src/midi2sif.cpp:161-178 | inserting an event keeps the table exact: keys are the ticks seen, bucket k holds the events at k in arrival order |
| Buckets.BucketedSnoc | src/midi2sif.cpp:161-178 | the table built by inserting one event after another is the table of all events seen, and their ticks stay below 2^32 |
| Buckets.BucketedTable | src/midi2sif.cpp:161-178 | the table of all events seen is exact |
| Buckets.BucketOf | src/midi2sif.cpp:324-327 | a bucket holds the events at its tick numbered 0 upward, and its tick is below 2^32 |
| Buckets.AllBuckets | src/midi2sif.cpp:324-337 | all buckets together hold every event |
| Buckets.Drained | src/midi2sif.cpp:319-337 | once every bucket is visited the list is a permutation of all events with unique (tick, order) keys, and the lowest and highest ticks are keys bounding all keys (0xFFFFFFFF and 0 when there are none) |
| Buckets.ExtremesStep | src/midi2sif.cpp:329-330 | min/max with a new key keeps the lowest and highest tick of the keys visited |
| Buckets.DrainStep | src/midi2sif.cpp:324-337 | one iteration visits the smallest key not yet visited and keeps the merge invariant |
| Buckets.Shrinks | src/midi2sif.cpp:324 | visiting a further key leaves fewer keys to visit |
| Buckets.Visit | src/midi2sif.cpp:326-336 | appending one bucket keeps the merge invariant with that key visited |
| Buckets.DrainedBucket | src/midi2sif.cpp:326-336 | a bucket appended from the back extends the permutation and keeps the keys distinct and the extremes right |
| Buckets.EventTable.constructor | src/midi2sif.cpp:202 | the table starts empty |
| Buckets.EventTable.Insert | src/midi2sif.cpp:161-178 | inserting an event appends it to the events seen and keeps the table exact |
| Buckets.EventTable.Merge | src/midi2sif.cpp:319-337 | the merged list is a permutation of all events seen, with unique (tick, order) keys; lowest and highest are the smallest and largest tick (0xFFFFFFFF and 0 for an empty table) |
| Buckets.DrainAll | src/midi2sif.cpp:319-337 | the merge loop over the buckets in ascending key order gives what Merge promises |
| Buckets.SetMin | src/midi2sif.cpp:324 | a non-empty set of ticks has a least element |
| Buckets.Smallest | src/midi2sif.cpp:324 | the next key the map iterator visits is the least key not yet visited |
| Buckets.Drain | src/midi2sif.cpp:332-336 | the pop-back loop appends the bucket reversed |
| Buckets.DrainedDistinct | src/midi2sif.cpp:332-336 | after appending a reversed bucket the (tick, order) keys stay distinct |
| Buckets.InsertSorted | src/midi2sif.cpp:53-56 | inserting into a list ordered by (tick, order) keeps it ordered and adds exactly the event |
| Buckets.FirstBelowRest | src/midi2sif.cpp:53-56 | a head below the new event stays first |
| Buckets.SortEvents | src/midi2sif.cpp:339 | the sort yields a permutation strictly ordered by (tick, order) |
| Buckets.StampedOrderBound | src/midi2sif.cpp:167 | an event's order is below the number of events at its tick |
| Buckets.StampedDistinct | src/midi2sif.cpp:161-178 | no two numbered events share a (tick, order) key |
| Buckets.LessAsymmetric | src/midi2sif.cpp:53-56 | the (tick, order) order is asymmetric |
| Buckets.Less | src/midi2sif.cpp:53-56 | the (tick, order) comparison; stated asymmetric by LessAsymmetric and used as the sort order by SortEvents and SortedUnique |
| Buckets.SortedUnique | src/midi2sif.cpp:53-56 | two strictly ordered permutations of the same events are equal, so the sort's result is fully determined |
| Buckets.SameHead | src/midi2sif.cpp:53-56 | two strictly ordered permutations start with the same event |
| Buckets.SameTail | src/midi2sif.cpp:53-56 | removing a common head keeps two lists permutations of each other |
| Buckets.Sequenced | src/midi2sif.cpp:339 | the reference ordering of events with distinct keys is a strictly ordered permutation |
| Buckets.LastKeyFresh | src/midi2sif.cpp:339 | the last event's key differs from every key of a permutation of the others |
| Lanes.ScanLanes | src/midi2sif.cpp:341-353 | the scan loop computes the highest and lowest note pitch, from 0 and 127 |
| Lanes.ScanBounds | src/midi2sif.cpp:341-353 | every note pitch lies between the scanned bottom and top, each of which is a note's pitch unless it kept its start value |
| Lanes.ScanNoNotes | src/midi2sif.cpp:341-353 | without notes the scan keeps 0 and 127 |
| Lanes.ScanTop | src/midi2sif.cpp:341-353 | the highest note pitch, from 0; its meaning is stated by ScanBounds and ScanNoNotes |
| Lanes.ScanBottom | src/midi2sif.cpp:341-353 | the lowest note pitch, from 127; its meaning is stated by ScanBounds and ScanNoNotes |
| Lanes.CDiv | src/midi2sif.cpp:355-365 | C's `/`, truncating toward zero; its meaning is stated by TruncatedDivision |
| Lanes.CRem | src/midi2sif.cpp:355-365 | C's `%`, with the sign of the dividend; its meaning is stated by TruncatedDivision |
| Lanes.TruncatedDivision | src/midi2sif.cpp:355-365 | CDiv and CRem recompose the dividend; the remainder lies in 0..b-1 for a non-negative dividend and in -(b-1)..0 for a negative one |
| Lanes.Normalize | src/midi2sif.cpp:355-365 | the layout fails exactly when the width is over 9 or even (C remainder); otherwise the window is 9 wide centred on the truncated midpoint, or unchanged at width 9 or at a negative width |
| Lanes.NoNotesRejected | src/midi2sif.cpp:341-358 | a list without notes is rejected with InvalidLaneLayout |
| Lanes.LanesInRange | src/midi2sif.cpp:355-392 | after a successful layout every note falls on a lane 1..9 |
| Timeline.FoldTempo | src/midi2sif.cpp:382-385 | the tempo loop folds the payload into its big-endian value |
| Timeline.ClockNext | src/midi2sif.cpp:445 | the clock at the next tick adds the increment of the tempo set by the events due so far |
| Timeline.TempoAfter | src/midi2sif.cpp:380-389 | the tempo set by the last Set Tempo event of a list, or the default; its meaning is stated by NoTempoDefault and ClockNext |
| Timeline.Clock | src/midi2sif.cpp:367-446 | the clock at a tick; its meaning is stated by ClockNext, ClockMonotone and ClockWithoutTempo |
| Timeline.Lane | src/midi2sif.cpp:392 | the lane of a note; LanesInRange states it is 1..9 |
| Timeline.Attribute | src/midi2sif.cpp:393 | the attribute of a note; ChannelSplit states its range |
| Timeline.Effect | src/midi2sif.cpp:394 | the effect of a note; ChannelSplit states its range |
| Timeline.ChannelSplit | src/midi2sif.cpp:393-394 | a channel 0..15 splits into attribute 0..3 and effect 1..4 with channel = 4 * attribute + effect - 1 |
| Timeline.NoteStep | src/midi2sif.cpp:390-437 | a note fails exactly when it is a long note with attribute > 0 whose start finds its lane pending or whose end finds it empty, with the matching error and lane. Otherwise: a note with attribute 0, or a note-off that is not a long note, leaves the board unchanged; a note-on that is not a long note appends the record (now, attribute, effect, 2.0, lane); a long-note start queues (now, attribute) at its lane and appends nothing; a long-note end removes its lane from the queue and appends (start, attribute, 3, now - start, lane); no other lane's queue entry changes |
| Timeline.Play | src/midi2sif.cpp:372-446 | the board after the first n due events, the specification walk; its meaning is stated by NoteStep, QuietNote, LongNotePaired, PlayWellFormed, NotesConserved and Simulate |
| Timeline.QuietNote | src/midi2sif.cpp:393-396 | a note with attribute 0 leaves the walk exactly as it was |
| Timeline.LongNoteHeld | src/midi2sif.cpp:400-411 | a long-note start stays queued at its lane, at its own tick's clock and attribute, while no later note uses that lane |
| Timeline.LongNotePaired | src/midi2sif.cpp:400-434 | a long-note end that meets the start queued on its lane, with no note on that lane between them, removes the start and appends the record at the start's clock with length clock(end) - clock(start) |
| Timeline.ThroughPrefix | src/midi2sif.cpp:376-378 | in a tick-ordered list, the events due by a tick are the prefix before the first later one |
| Timeline.FailureStays | src/midi2sif.cpp:396-437 | once the walk has thrown, later events change nothing |
| Timeline.HandleEvent | src/midi2sif.cpp:378-442 | one event keeps the walk equal to the specification of the events so far, with the tempo increment of those events |
| Timeline.DueBefore | src/midi2sif.cpp:376 | in a tick-ordered list every event before the cursor is due |
| Timeline.LaterFrom | src/midi2sif.cpp:376 | in a tick-ordered list every event from the cursor on is not yet due |
| Timeline.TickDone | src/midi2sif.cpp:372-446 | when the events of a tick are done, the clock advance reaches the next tick in the specified state |
| Timeline.HandleDue | src/midi2sif.cpp:376-443 | the inner loop handles exactly the events due at the tick and agrees with the specification |
| Timeline.ProcessTick | src/midi2sif.cpp:372-446 | one tick of the outer loop moves the walk to the next tick in the specified state |
| Timeline.WalkStarts | src/midi2sif.cpp:367-372 | at the lowest tick the walk starts with an empty queue, no records, clock 0 and the default tempo |
| Timeline.WalkEnds | src/midi2sif.cpp:372-446 | past the highest tick the walk has the board of all events |
| Timeline.Simulate | src/midi2sif.cpp:367-446 | the tick loop returns the records of the specification walk over all events, or its error |
| Timeline.ClockMonotone | src/midi2sif.cpp:445 | with non-negative increments the clock never goes back |
| Timeline.NoTempoDefault | src/midi2sif.cpp:380-389 | without Set Tempo events the default tempo stays in force |
| Timeline.ClockWithoutTempo | src/midi2sif.cpp:367-446 | without Set Tempo events the clock is the number of ticks times the default increment |
| Timeline.PlayWellFormed | src/midi2sif.cpp:390-437 | every record has lane 1..9, attribute 1..3, effect 1..4 and value 2.0 unless a long note; queued starts have lanes 1..9 and attributes 1..3 |
| Timeline.DurationsNonNegative | src/midi2sif.cpp:390-446 | with non-negative increments every long note has a non-negative duration and no queued start lies in the future |
| Timeline.NoteStepDurations | src/midi2sif.cpp:400-434 | one note keeps long-note durations non-negative and queued starts not later than now |
| Timeline.NotesConserved | src/midi2sif.cpp:396-436 | records plus queued starts equal the note-ons with attribute > 0 |
| Timeline.NoteStepCounts | src/midi2sif.cpp:396-436 | one note-on with attribute > 0 adds one record or one queued start; every other note adds nothing net |
| Timeline.QuietChannels | src/midi2sif.cpp:393-396 | a whole list whose notes are all on channels 0..3 (attribute 0) produces no records and no errors |
| Timeline.InsertByTime | src/midi2sif.cpp:95-98 | inserting into a time-ordered list keeps it ordered and adds exactly the record |
| Timeline.HeadBeforeRest | src/midi2sif.cpp:95-98 | a head not later than the new record stays first |
| Timeline.SortByTime | src/midi2sif.cpp:448 | the final sort yields a time-ordered permutation of the records |
| Timeline.SortedByTime | src/midi2sif.cpp:95-98 | records ordered by time, the order the final sort establishes (SortByTime) |
| Converter.ParseHeader | src/midi2sif.cpp:184-211 | the header is accepted exactly when it has the MThd tag, length 6 and a division word whose top bit is clear; NotMidi, UnsupportedHeader and UnsupportedTimeDivision each occur exactly when their check is reached and fails, and TruncatedStream exactly when the input ends before the tag, the length or the body is read; the track count is below 2^16 and the division at most 32767 |
| Converter.HeaderCut | src/midi2sif.cpp:184-211 | the header reads alike from any input that holds all of it |
| Converter.HeaderRoundTrip | src/midi2sif.cpp:184-211 | an encoded header with any format, track count and division ≤ 32767 parses to that track count and division |
| Converter.ChunkAt | src/midi2sif.cpp:213-234 | a chunk fails only by running out of input; otherwise it ends 8 + its declared length after its start, inside the input, and a non-MTrk chunk contributes no events |
| Converter.ChunksFrom | src/midi2sif.cpp:213-317 | a chunk walk fails only by running out of input |
| Converter.ChunksChannels | src/midi2sif.cpp:248-271 | every note extracted from the file has a channel 0..15 |
| Converter.SkipChunk | src/midi2sif.cpp:221-233 | a foreign chunk is skipped by exactly its length, or fails when the input is shorter |
| Converter.ExtractTrack | src/midi2sif.cpp:236-316 | the track loop inserts exactly the events the track yields, in order, and returns where it ends, or fails as the track does |
| Converter.KindsCarried | src/midi2sif.cpp:319-339 | every event of the merged list comes from the extracted events |
| Converter.ScheduleNoNotes | src/midi2sif.cpp:341-358 | a file without note events is rejected with InvalidLaneLayout |
| Converter.ScheduleWellFormed | src/midi2sif.cpp:341-446 | every record of a conversion is well formed |
| Converter.ScheduleDurations | src/midi2sif.cpp:367-446 | with non-negative increments every long note of a conversion has a non-negative duration |
| Converter.ChunkStep | src/midi2sif.cpp:213-234 | the events of a chunk walk are those of its first chunk followed by those of the rest |
| Converter.MergedTicks | src/midi2sif.cpp:319-339 | the sorted list is ordered by tick, starts at the lowest tick and lies between lowest and highest |
| Converter.ReadChunk | src/midi2sif.cpp:213-234 | one chunk adds exactly its events to the table and returns where it ends, or fails as the chunk does |
| Converter.ChunkFails | src/midi2sif.cpp:215-216 | a failing chunk fails the whole walk with its error |
| Converter.AfterAll | src/midi2sif.cpp:213 | when no chunks are left, the walk's result is the events gathered |
| Converter.AfterNothing | src/midi2sif.cpp:213 | a walk with nothing gathered before is the walk itself |
| Converter.ContinuesNow | src/midi2sif.cpp:213-234 | the walk's outcome from the cursor is the expected result |
| Converter.ChunkAdvance | src/midi2sif.cpp:213-234 | one chunk either decides the walk's failure or moves the cursor with the walk's outcome unchanged |
| Converter.NextChunk | src/midi2sif.cpp:213-234 | one iteration of the chunk loop keeps the table equal to the walk's events so far |
| Converter.WalkChunks | src/midi2sif.cpp:213-317 | the chunk loop fills the table with exactly the events the chunk walk specifies, or fails with its error |
| Converter.Arrange | src/midi2sif.cpp:319-448 | merge, sort, layout, walk and final sort fail exactly when the scheduling specification does, and otherwise return its records sorted by time |
| Converter.Midi2Sif | src/midi2sif.cpp:180-451 | the converter fails exactly when the conversion does, with the same error, and otherwise returns the conversion's records sorted by time, all well formed, long notes not negative |
| Converter.Schedule | src/midi2sif.cpp:319-448 | the specification of merge, sort, layout and walk; Arrange is proved against it, ScheduleWellFormed and ScheduleDurations state its records' properties |
| Converter.Convert | src/midi2sif.cpp:180-451 | the specification of the whole conversion; Midi2Sif is proved against it, TruncatedFile states what a cut file gives |
| Converter.ChunksEnd | src/midi2sif.cpp:213-234 | where a chunk walk ends; it succeeds exactly when the walk does, never before the cursor |
| Converter.ChunkCut | src/midi2sif.cpp:213-234 | a chunk read from the input cut at k is the same chunk when it ends by k, and fails with TruncatedStream otherwise |
| Converter.ChunksCut | src/midi2sif.cpp:213-234 | a chunk walk over the input cut at k gives the same events when the walk ends by k, and fails with TruncatedStream otherwise |
| Converter.ChunksStop | src/midi2sif.cpp:213-234 | a first chunk that does not end by k fails the cut walk, and the whole walk does not end by k |
| Converter.ChunksGoOn | src/midi2sif.cpp:213-234 | a first chunk that ends by k passes the cut walk on to the rest of it |
| Converter.TruncatedFile | src/midi2sif.cpp:180-234 | a file cut inside the chunks its header announces fails with TruncatedStream; cut after them it converts exactly as the whole file |
| Converter.ShortFile | src/midi2sif.cpp:184-205 | a valid file cut inside its 14-byte header fails with TruncatedStream |

## Left out

- `main` (src/midi2sif.cpp:453-541) is not modelled. It opens files, prints the usage and error messages and writes the JSON array. It is all I/O.
- The JSON rendering of a record (`operator std::string`, src/midi2sif.cpp:100-117) is not modelled. It is string formatting with `sprintf`.
- The seconds per tick are not modelled. The original computes them in floating point: `60 / ppqn / tempo`, with the BPM rounded down to 0.1 from the tempo's microseconds. The model takes this as the parameter `rate(ppqn, tempo)`, keeps the clock as an exact `real`, and does not model rounding, division by zero or infinities.
- The error messages are not modelled. Each is one `Results.Error` variant, and the long-note errors carry the lane number the message prints.
- Timeline.SortByTime: proved to give a permutation sorted by time. The original's `std::sort` is not stable, and its order among records with equal times is unspecified, so the model does not fix that order.
- Buckets.EventTable.Merge: the original pops every bucket empty while merging. The model leaves the buckets in place, because the table is not read afterwards.
- The sorts and the merged list are not modelled in place. They work on `seq` values, whereas the original sorts and erases `std::vector`s. The tick loop advances an index rather than erasing the head of the list.
- Timeline.Simulate: an event at tick 0xFFFFFFFF is not modelled faithfully. There the original's end-of-list sentinel (tick 0xFFFFFFFF) collides with a real tick and the loop reads from an empty vector, which is undefined behaviour. The model stops at the end of the list.
- A file with no note events is rejected with `InvalidLaneLayout` (the width is 0 − 127 + 1 = −126, which is even). It is not converted to an empty beatmap. The model follows the code.
- Long-note starts still pending at the end are dropped, as in the original.
