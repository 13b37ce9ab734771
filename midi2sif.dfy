/** The converter `midi2sif`: header check, chunk walk (foreign chunks are
    skipped, MTrk chunks extracted into the per-tick table), merge and sort
    of the events, lane normalisation, the timeline walk and the final sort
    of the records by time. */
module Converter {
  import opened Results
  import opened Bytes
  import opened Track
  import opened Buckets
  import opened Lanes
  import opened Timeline

  /** "MThd" */
  const HeaderTag: seq<byte> := [0x4D, 0x54, 0x68, 0x64]
  /** "MTrk" */
  const TrackTag: seq<byte> := [0x4D, 0x54, 0x72, 0x6B]
  /** The only header body length accepted. */
  const HeaderBodyLength := 6
  /** Tag, length and the 6-byte body: where the first chunk starts. */
  const HeaderSize := 14
  /** Largest division word read as ticks per quarter note; above it the
      word is an SMPTE/MTC division. */
  const MaxPpqn := 32767

  /** What the header yields: the chunk count and the ticks per quarter. */
  datatype Header = Header(tracks: nat, ppqn: nat)

  /** The header checks in the order the converter makes them: tag, body
      length, then the 6-byte body whose words at offsets 2 and 4 are the
      track count and the division. */
  function ParseHeader(s: seq<byte>): (r: Result<Header>)
    ensures r.Ok? <==> HeaderSize <= |s| && s[..4] == HeaderTag && Dword(s, 4) == HeaderBodyLength && s[12] < 128
    ensures r == Fail(NotMidi) <==> 4 <= |s| && s[..4] != HeaderTag
    ensures r == Fail(UnsupportedHeader) <==> 8 <= |s| && s[..4] == HeaderTag && Dword(s, 4) != HeaderBodyLength
    ensures r == Fail(UnsupportedTimeDivision) <==>
      HeaderSize <= |s| && s[..4] == HeaderTag && Dword(s, 4) == HeaderBodyLength && s[12] >= 128
    // the input ends before the tag, before the body length, or before the body
    ensures r == Fail(TruncatedStream) <==>
      || |s| < 4
      || (s[..4] == HeaderTag && (|s| < 8 || (Dword(s, 4) == HeaderBodyLength && |s| < HeaderSize)))
    ensures r.Ok? ==> r.value.tracks < 0x1_0000 && r.value.ppqn <= MaxPpqn
  {
    if |s| < 4 then Fail(TruncatedStream)
    else if s[..4] != HeaderTag then Fail(NotMidi)
    else if |s| < 8 then Fail(TruncatedStream)
    else if Dword(s, 4) != HeaderBodyLength then Fail(UnsupportedHeader)
    else if |s| < HeaderSize then Fail(TruncatedStream)
    else
      WordHighBit(s, 12);
      WordIsBigEndian(s, 10);
      if Word(s, 12) > MaxPpqn then Fail(UnsupportedTimeDivision)
      else Ok(Header(Word(s, 10), Word(s, 12)))
  }

  /** A header written from its fields reads back as those fields. */
  lemma HeaderRoundTrip(format: nat, tracks: nat, ppqn: nat, rest: seq<byte>)
    requires format < 0x1_0000 && tracks < 0x1_0000 && ppqn <= MaxPpqn
    ensures ParseHeader(HeaderTag + DwordBytes(HeaderBodyLength) + WordBytes(format) + WordBytes(tracks) + WordBytes(ppqn) + rest)
      == Ok(Header(tracks, ppqn))
  {
    var s := HeaderTag + DwordBytes(HeaderBodyLength) + WordBytes(format) + WordBytes(tracks) + WordBytes(ppqn) + rest;
    assert s[..4] == HeaderTag;
    assert s[4..8] == DwordBytes(HeaderBodyLength);
    assert s[10] == tracks / 0x100 % 256 && s[11] == tracks % 256;
    assert s[12] == ppqn / 0x100 % 256 && s[13] == ppqn % 256;
  }

  /** A chunk: the position after it and the events it contributes. */
  datatype Chunk = Chunk(next: nat, events: seq<Raw>)

  /** One chunk: an 8-byte head (tag and big-endian length); a chunk that is
      not MTrk is skipped by exactly its declared length, an MTrk chunk is
      read by the track extractor with its length as the budget. */
  function ChunkAt(s: seq<byte>, pos: nat): (r: Result<Chunk>)
    ensures r.Fail? ==> r.error == TruncatedStream
    ensures r.Ok? ==> pos + 8 <= |s| && r.value.next == pos + 8 + Dword(s, pos + 4) <= |s|
    ensures r.Ok? && s[pos..pos + 4] != TrackTag ==> r.value.events == []
  {
    if pos + 8 > |s| then Fail(TruncatedStream)
    else
      var len := Dword(s, pos + 4);
      if s[pos..pos + 4] != TrackTag then
        if pos + 8 + len <= |s| then Ok(Chunk(pos + 8 + len, [])) else Fail(TruncatedStream)
      else
        match TrackFrom(s, pos + 8, len, 0)
        case Fail(e) => Fail(e)
        case Ok(t) => Ok(Chunk(t.next, t.events))
  }

  /** `n` chunks from `pos`, their events concatenated in file order. */
  function ChunksFrom(s: seq<byte>, pos: nat, n: nat): (r: Result<seq<Raw>>)
    ensures r.Fail? ==> r.error == TruncatedStream
    decreases n
  {
    if n == 0 then Ok([])
    else
      match ChunkAt(s, pos)
      case Fail(e) => Fail(e)
      case Ok(c) =>
        match ChunksFrom(s, c.next, n - 1)
        case Fail(e) => Fail(e)
        case Ok(rest) => Ok(c.events + rest)
  }

  /** Every extracted note has a channel 0..15. */
  lemma {:induction false} ChunksChannels(s: seq<byte>, pos: nat, n: nat)
    requires ChunksFrom(s, pos, n).Ok?
    ensures forall i :: 0 <= i < |ChunksFrom(s, pos, n).value| ==> ChannelFits(ChunksFrom(s, pos, n).value[i])
    decreases n
  {
    if n > 0 {
      var c := ChunkAt(s, pos).value;
      if s[pos..pos + 4] == TrackTag {
        TrackEvents(s, pos + 8, Dword(s, pos + 4), 0);
      }
      ChunksChannels(s, c.next, n - 1);
      var all := ChunksFrom(s, pos, n).value;
      forall i | 0 <= i < |all| ensures ChannelFits(all[i]) {
        if i >= |c.events| {
          assert all[i] == ChunksFrom(s, c.next, n - 1).value[i - |c.events|];
        }
      }
    }
  }

  /** `before` followed by the events of `r`, or the failure of `r`. */
  function After(before: seq<Raw>, r: Result<seq<Raw>>): Result<seq<Raw>>
  {
    match r
    case Ok(rest) => Ok(before + rest)
    case Fail(e) => Fail(e)
  }

  /** The skip loop for a foreign chunk: reads of at most 32 bytes until the
      declared length is used up; a read that gets nothing fails. */
  method SkipChunk(s: seq<byte>, pos: nat, len: nat) returns (r: Result<nat>)
    requires pos <= |s|
    ensures r == (if pos + len <= |s| then Ok(pos + len) else Fail(TruncatedStream))
  {
    var p: nat, remaining: nat := pos, len;
    while remaining > 0
      invariant pos <= p <= |s| && p + remaining == pos + len
    {
      var want := if remaining < 32 then remaining else 32;
      var got := if want < |s| - p then want else |s| - p;
      if got == 0 {
        return Fail(TruncatedStream);
      }
      p, remaining := p + got, remaining - got;
    }
    return Ok(p);
  }

  /** The extractor loop of one MTrk chunk: while the budget is not zero,
      read an event and insert what it emits into the table. */
  method ExtractTrack(s: seq<byte>, pos: nat, len: nat, table: EventTable) returns (r: Result<nat>)
    requires table.Valid() && pos <= |s|
    modifies table
    ensures table.Valid()
    ensures TrackFrom(s, pos, len, 0).Fail? ==> r == Fail(TrackFrom(s, pos, len, 0).error)
    ensures TrackFrom(s, pos, len, 0).Ok? ==>
      r == Ok(TrackFrom(s, pos, len, 0).value.next) && table.arrived == old(table.arrived) + TrackFrom(s, pos, len, 0).value.events
  {
    var p, budget := pos, len as int;
    var tick: nat := 0;
    ghost var added: seq<Raw> := [];
    ghost var goal := TrackFrom(s, pos, len, 0);
    match goal {
      case Ok(t) => assert [] + t.events == t.events;
      case Fail(_) =>
    }
    while budget != 0
      invariant table.Valid() && p <= |s| && tick < Two32
      invariant table.arrived == old(table.arrived) + added
      invariant goal == AfterTrack(added, TrackFrom(s, p, budget, tick))
      decreases |s| - p
    {
      var step, rest := ReadEvent(s, p, tick, budget);
      if step.Fail? {
        return Fail(step.error);
      }
      var st := step.value;
      ghost var before := added;
      added := added + Emitted(st);
      TrackStep(s, p, budget, tick, before, st, added, rest);
      if st.event.Some? {
        table.Insert(st.event.value);
      }
      assert table.Valid();
      p, tick, budget := st.next, st.tick, rest;
    }
    r := Ok(p);
  }

  /** The conversion after the chunk walk: the events numbered within their
      ticks and put in (tick, order), the lane window from their pitch range,
      and the records of the timeline walk (long notes still pending are
      dropped), before the final sort. */
  function Schedule(raw: seq<Raw>, ppqn: nat, rate: (nat, Tempo) -> real): Result<seq<Record>>
  {
    StampedDistinct(raw);
    var es := Sequenced(Stamped(raw));
    match Normalize(ScanTop(es), ScanBottom(es))
    case Fail(e) => Fail(e)
    case Ok(w) => RecordsOf(Play(es, |es|, ppqn, if |es| == 0 then 0 else es[0].tick, w.bottom, rate))
  }

  /** Every event of the ordered list is one of the extracted events. */
  lemma KindsCarried(raw: seq<Raw>, es: seq<Event>)
    requires multiset(es) == multiset(Stamped(raw))
    ensures forall i :: 0 <= i < |es| ==> exists j :: 0 <= j < |raw| && es[i].kind == raw[j].kind
  {
    StampedShape(raw);
    forall i | 0 <= i < |es| ensures exists j :: 0 <= j < |raw| && es[i].kind == raw[j].kind {
      assert es[i] in multiset(Stamped(raw));
      var j :| 0 <= j < |Stamped(raw)| && Stamped(raw)[j] == es[i];
      assert es[i].kind == raw[j].kind;
    }
  }

  /** A file without any note event is rejected by the lane check: an
      empty beatmap is never produced. */
  lemma ScheduleNoNotes(raw: seq<Raw>, ppqn: nat, rate: (nat, Tempo) -> real)
    requires forall j :: 0 <= j < |raw| ==> !raw[j].kind.Note?
    ensures Schedule(raw, ppqn, rate) == Fail(InvalidLaneLayout)
  {
    StampedDistinct(raw);
    var es := Sequenced(Stamped(raw));
    KindsCarried(raw, es);
    NoNotesRejected(es);
  }

  /** Every record of a successful conversion is well formed: lane 1..9,
      attribute 1..3, effect 1..4 and value 2.0 unless a long note. */
  lemma ScheduleWellFormed(raw: seq<Raw>, ppqn: nat, rate: (nat, Tempo) -> real)
    requires forall j :: 0 <= j < |raw| ==> ChannelFits(raw[j])
    requires Schedule(raw, ppqn, rate).Ok?
    ensures forall i :: 0 <= i < |Schedule(raw, ppqn, rate).value| ==> WellFormed(Schedule(raw, ppqn, rate).value[i])
  {
    StampedDistinct(raw);
    var es := Sequenced(Stamped(raw));
    KindsCarried(raw, es);
    LanesInRange(es);
    var w := Normalize(ScanTop(es), ScanBottom(es)).value;
    assert NotesFit(es, w.bottom) by {
      forall i | 0 <= i < |es| && es[i].kind.Note? ensures 0 <= es[i].kind.channel < 16 {
        var j :| 0 <= j < |raw| && es[i].kind == raw[j].kind;
        assert ChannelFits(raw[j]);
      }
    }
    PlayWellFormed(es, |es|, ppqn, if |es| == 0 then 0 else es[0].tick, w.bottom, rate);
  }

  /** With a non-negative seconds-per-tick increment every long note's
      duration is non-negative. */
  lemma ScheduleDurations(raw: seq<Raw>, ppqn: nat, rate: (nat, Tempo) -> real)
    requires NonNegative(rate) && Schedule(raw, ppqn, rate).Ok?
    ensures var recs := Schedule(raw, ppqn, rate).value;
      forall i :: 0 <= i < |recs| && recs[i].effect == LongNote ==> recs[i].value >= 0.0
  {
    StampedDistinct(raw);
    var es := Sequenced(Stamped(raw));
    assert Nondecreasing(es) by {
      forall i, j | 0 <= i < j < |es| ensures es[i].tick <= es[j].tick {
        assert Less(es[i], es[j]);
      }
    }
    var w := Normalize(ScanTop(es), ScanBottom(es)).value;
    DurationsNonNegative(es, |es|, ppqn, if |es| == 0 then 0 else es[0].tick, w.bottom, rate);
  }

  /** The whole conversion, records not yet sorted by time. */
  function Convert(s: seq<byte>, rate: (nat, Tempo) -> real): Result<seq<Record>>
  {
    match ParseHeader(s)
    case Fail(e) => Fail(e)
    case Ok(h) =>
      match ChunksFrom(s, HeaderSize, h.tracks)
      case Fail(e) => Fail(e)
      case Ok(raw) => Schedule(raw, h.ppqn, rate)
  }

  /** One more chunk of the walk: its events come before the rest. */
  lemma ChunkStep(s: seq<byte>, pos: nat, n: nat, before: seq<Raw>, after: seq<Raw>, next: nat)
    requires n > 0 && ChunkAt(s, pos).Ok?
    requires next == ChunkAt(s, pos).value.next && after == before + ChunkAt(s, pos).value.events
    ensures After(before, ChunksFrom(s, pos, n)) == After(after, ChunksFrom(s, next, n - 1))
  {
    var c := ChunkAt(s, pos).value;
    match ChunksFrom(s, c.next, n - 1) {
      case Ok(rest) => assert before + (c.events + rest) == (before + c.events) + rest;
      case Fail(_) =>
    }
  }

  /** The merged and sorted list is in tick order, lies between the lowest
      and highest bucket keys, and starts at the lowest one. */
  lemma MergedTicks(b: map<nat, seq<Event>>, arrived: seq<Raw>, es: seq<Event>, lowest: nat, highest: nat)
    requires TableOf(b, arrived) && StrictlySorted(es) && multiset(es) == multiset(Stamped(arrived))
    requires b != map[] ==> lowest in b
    requires forall k :: k in b ==> lowest <= k <= highest
    ensures Nondecreasing(es)
    ensures forall i :: 0 <= i < |es| ==> lowest <= es[i].tick <= highest
    ensures |es| > 0 ==> lowest == es[0].tick
  {
    StampedShape(arrived);
    forall i | 0 <= i < |es| ensures es[i].tick in b {
      assert es[i] in multiset(Stamped(arrived));
      var j :| 0 <= j < |arrived| && Stamped(arrived)[j] == es[i];
      assert arrived[j].tick in Ticks(arrived);
    }
    if |es| > 0 {
      assert lowest in Ticks(arrived);
      var j :| 0 <= j < |arrived| && arrived[j].tick == lowest;
      assert Stamped(arrived)[j] in multiset(es);
      var m :| 0 <= m < |es| && es[m] == Stamped(arrived)[j];
      assert m == 0 || Less(es[0], es[m]);
    }
  }

  /** One chunk of the walk: the head is read, then the body is skipped or
      extracted into the table. */
  method ReadChunk(s: seq<byte>, pos: nat, table: EventTable) returns (r: Result<nat>)
    requires table.Valid() && pos <= |s|
    modifies table
    ensures table.Valid()
    ensures ChunkAt(s, pos).Fail? ==> r == Fail(ChunkAt(s, pos).error)
    ensures ChunkAt(s, pos).Ok? ==>
      r == Ok(ChunkAt(s, pos).value.next) && table.arrived == old(table.arrived) + ChunkAt(s, pos).value.events
  {
    if pos + 8 > |s| {
      return Fail(TruncatedStream);
    }
    var len := Dword(s, pos + 4);
    if s[pos..pos + 4] != TrackTag {
      r := SkipChunk(s, pos + 8, len);
      assert table.arrived == table.arrived + [];
    } else {
      r := ExtractTrack(s, pos + 8, len, table);
    }
  }

  lemma ChunkFails(s: seq<byte>, pos: nat, n: nat, before: seq<Raw>)
    requires n > 0 && ChunkAt(s, pos).Fail?
    ensures After(before, ChunksFrom(s, pos, n)) == Fail(ChunkAt(s, pos).error)
  {
  }

  lemma AfterAll(before: seq<Raw>, r: Result<seq<Raw>>)
    requires r == Ok([])
    ensures After(before, r) == Ok(before)
  {
    assert before + [] == before;
  }

  lemma AfterNothing(r: Result<seq<Raw>>)
    ensures After([], r) == r
  {
    if r.Ok? { assert [] + r.value == r.value; }
  }

  /** `goal` is the outcome of the walk from `pos` with `n` chunks left,
      after the events in `before`. It is stated through a bound variable
      so that the chunk functions are unfolded only where ContinuesNow is
      called, not in every proof that carries this fact along. */
  ghost predicate Continues(s: seq<byte>, pos: nat, n: nat, before: seq<Raw>, goal: Result<seq<Raw>>)
  {
    forall m: nat :: m == n ==> goal == After(before, ChunksFrom(s, pos, m))
  }

  lemma ContinuesNow(s: seq<byte>, pos: nat, n: nat, before: seq<Raw>, goal: Result<seq<Raw>>)
    requires Continues(s, pos, n, before, goal)
    ensures goal == After(before, ChunksFrom(s, pos, n))
  {
  }

  /** One chunk read: the walk goes on after it, or ends in its error. */
  lemma ChunkAdvance(s: seq<byte>, pos: nat, n: nat, before: seq<Raw>, after: seq<Raw>, r: Result<nat>, goal: Result<seq<Raw>>)
    requires n > 0 && Continues(s, pos, n, before, goal)
    requires ChunkAt(s, pos).Fail? ==> r == Fail(ChunkAt(s, pos).error)
    requires ChunkAt(s, pos).Ok? ==> r == Ok(ChunkAt(s, pos).value.next) && after == before + ChunkAt(s, pos).value.events
    ensures r.Fail? ==> goal == Fail(r.error)
    ensures r.Ok? ==> r.value <= |s| && Continues(s, r.value, n - 1, after, goal)
  {
    ContinuesNow(s, pos, n, before, goal);
    if ChunkAt(s, pos).Fail? {
      ChunkFails(s, pos, n, before);
    } else {
      ChunkStep(s, pos, n, before, after, r.value);
    }
  }

  /** One chunk of the walk with `n` chunks still to read. */
  method NextChunk(s: seq<byte>, pos: nat, table: EventTable, ghost n: nat, ghost goal: Result<seq<Raw>>) returns (r: Result<nat>)
    requires table.Valid() && pos <= |s| && n > 0
    requires Continues(s, pos, n, table.arrived, goal)
    modifies table
    ensures table.Valid()
    ensures r.Fail? ==> goal == Fail(r.error)
    ensures r.Ok? ==> r.value <= |s| && Continues(s, r.value, n - 1, table.arrived, goal)
  {
    ghost var before := table.arrived;
    r := ReadChunk(s, pos, table);
    ChunkAdvance(s, pos, n, before, table.arrived, r, goal);
  }

  /** The chunk loop: `tracks` chunks from the end of the header, each
      either skipped or extracted into the table. */
  method WalkChunks(s: seq<byte>, tracks: nat, table: EventTable) returns (r: Result<()>)
    requires table.Valid() && table.arrived == [] && HeaderSize <= |s|
    modifies table
    ensures table.Valid()
    ensures r.Fail? ==> ChunksFrom(s, HeaderSize, tracks) == Fail(r.error)
    ensures r.Ok? ==> ChunksFrom(s, HeaderSize, tracks) == Ok(table.arrived)
  {
    var pos: nat := HeaderSize;
    var i := 0;
    ghost var left := tracks;
    ghost var goal := ChunksFrom(s, HeaderSize, tracks);
    AfterNothing(goal);
    while i < tracks
      invariant 0 <= i <= tracks && left == tracks - i && pos <= |s| && table.Valid()
      invariant Continues(s, pos, left, table.arrived, goal)
    {
      var chunk := NextChunk(s, pos, table, left, goal);
      if chunk.Fail? {
        return Fail(chunk.error);
      }
      pos, i, left := chunk.value, i + 1, left - 1;
    }
    ContinuesNow(s, pos, left, table.arrived, goal);
    AfterAll(table.arrived, ChunksFrom(s, pos, left));
    return Ok(());
  }

  /** Everything after the chunk walk: merge, (tick, order) sort, lane
      window, timeline walk and final sort by time. */
  method Arrange(table: EventTable, ppqn: nat, rate: (nat, Tempo) -> real) returns (r: Result<seq<Record>>)
    requires table.Valid()
    ensures r.Fail? <==> Schedule(table.arrived, ppqn, rate).Fail?
    ensures r.Fail? ==> r == Schedule(table.arrived, ppqn, rate)
    ensures r.Ok? ==> SortedByTime(r.value) && multiset(r.value) == multiset(Schedule(table.arrived, ppqn, rate).value)
  {
    var list, lowest, highest := table.Merge();
    BucketedTable(table.arrived);
    var events := SortEvents(list);
    StampedDistinct(table.arrived);
    SortedUnique(events, Sequenced(Stamped(table.arrived)));
    MergedTicks(table.buckets, table.arrived, events, lowest, highest);
    var top, bottom := ScanLanes(events);
    var window := Normalize(top, bottom);
    if window.Fail? {
      return Fail(window.error);
    }
    var records := Simulate(events, ppqn, lowest, highest, window.value.bottom, rate);
    if records.Fail? {
      return Fail(records.error);
    }
    var sorted := SortByTime(records.value);
    return Ok(sorted);
  }

  /** `midi2sif`: the header check, the chunk walk and the rest of the
      conversion. It fails exactly when the conversion does, with the same
      error, and otherwise returns the conversion's records sorted by time. */
  method Midi2Sif(s: seq<byte>, rate: (nat, Tempo) -> real) returns (r: Result<seq<Record>>)
    ensures r.Fail? <==> Convert(s, rate).Fail?
    ensures r.Fail? ==> r == Convert(s, rate)
    ensures r.Ok? ==> SortedByTime(r.value) && multiset(r.value) == multiset(Convert(s, rate).value)
    ensures r.Ok? ==> forall i :: 0 <= i < |r.value| ==> WellFormed(r.value[i])
    ensures r.Ok? && NonNegative(rate) ==>
      forall i :: 0 <= i < |r.value| && r.value[i].effect == LongNote ==> r.value[i].value >= 0.0
  {
    var header := ParseHeader(s);
    if header.Fail? {
      return Fail(header.error);
    }
    var table := new EventTable();
    var walked := WalkChunks(s, header.value.tracks, table);
    if walked.Fail? {
      return Fail(walked.error);
    }
    r := Arrange(table, header.value.ppqn, rate);
    if r.Ok? {
      var recs := Schedule(table.arrived, header.value.ppqn, rate).value;
      ChunksChannels(s, HeaderSize, header.value.tracks);
      ScheduleWellFormed(table.arrived, header.value.ppqn, rate);
      if NonNegative(rate) {
        ScheduleDurations(table.arrived, header.value.ppqn, rate);
      }
      forall i | 0 <= i < |r.value| ensures exists j :: 0 <= j < |recs| && recs[j] == r.value[i] {
        assert r.value[i] in multiset(recs);
      }
    }
  }

  // ---------------------------------------------------------------------
  // Truncated input

  /** Where a walk of `n` chunks from `pos` ends, or its failure. */
  function ChunksEnd(s: seq<byte>, pos: nat, n: nat): (r: Result<nat>)
    ensures r.Ok? ==> pos <= r.value
    ensures r.Ok? <==> ChunksFrom(s, pos, n).Ok?
    decreases n
  {
    if n == 0 then Ok(pos)
    else
      match ChunkAt(s, pos)
      case Fail(e) => Fail(e)
      case Ok(c) => ChunksEnd(s, c.next, n - 1)
  }

  /** A chunk read from the input cut at `k` is the same chunk when it ends
      by `k`; otherwise it runs out of input. */
  lemma ChunkCut(s: seq<byte>, pos: nat, k: nat)
    requires pos <= k <= |s|
    ensures var r := ChunkAt(s, pos);
      ChunkAt(s[..k], pos) == if r.Ok? && r.value.next <= k then r else Fail(TruncatedStream)
  {
    if pos + 8 <= k {
      assert s[..k][pos..pos + 4] == s[pos..pos + 4];
      assert Dword(s[..k], pos + 4) == Dword(s, pos + 4);
      if s[pos..pos + 4] == TrackTag {
        TrackCut(s, pos + 8, Dword(s, pos + 4), 0, k);
      }
    }
  }

  /** A chunk walk over the input cut at `k` gives the same events when the
      walk ends by `k`; otherwise it runs out of input. */
  lemma {:induction false} ChunksCut(s: seq<byte>, pos: nat, n: nat, k: nat)
    requires pos <= k <= |s|
    ensures var end := ChunksEnd(s, pos, n);
      ChunksFrom(s[..k], pos, n) == if end.Ok? && end.value <= k then ChunksFrom(s, pos, n) else Fail(TruncatedStream)
    decreases n
  {
    if n > 0 {
      ChunkCut(s, pos, k);
      var c := ChunkAt(s, pos);
      if c.Fail? || c.value.next > k {
        ChunksStop(s, pos, n, k);
      } else {
        ChunksCut(s, c.value.next, n - 1, k);
        ChunksGoOn(s, pos, n, k, c.value);
      }
    }
  }

  /** The inductive step of `ChunksCut`: a first chunk that ends by `k` is
      read alike from the cut input, and the cut walk goes on as the rest of
      the walk does. The last requires is `ChunksCut` for the rest. */
  lemma ChunksGoOn(s: seq<byte>, pos: nat, n: nat, k: nat, c: Chunk)
    requires pos <= k <= |s| && n > 0 && c.next <= k
    requires ChunkAt(s, pos) == Ok(c) && ChunkAt(s[..k], pos) == Ok(c)
    requires var end := ChunksEnd(s, c.next, n - 1);
      ChunksFrom(s[..k], c.next, n - 1) == if end.Ok? && end.value <= k then ChunksFrom(s, c.next, n - 1) else Fail(TruncatedStream)
    ensures var end := ChunksEnd(s, pos, n);
      ChunksFrom(s[..k], pos, n) == if end.Ok? && end.value <= k then ChunksFrom(s, pos, n) else Fail(TruncatedStream)
  {
    assert ChunksEnd(s, pos, n) == ChunksEnd(s, c.next, n - 1);
  }

  /** A first chunk that does not end by `k` fails the cut walk. */
  lemma ChunksStop(s: seq<byte>, pos: nat, n: nat, k: nat)
    requires pos <= k <= |s| && n > 0
    requires ChunkAt(s[..k], pos) == Fail(TruncatedStream)
    requires ChunkAt(s, pos).Fail? || ChunkAt(s, pos).value.next > k
    ensures ChunksFrom(s[..k], pos, n) == Fail(TruncatedStream)
    ensures ChunksEnd(s, pos, n).Fail? || ChunksEnd(s, pos, n).value > k
  {
  }

  /** The header reads alike from any input that holds all of it. */
  lemma HeaderCut(s: seq<byte>, k: nat)
    requires HeaderSize <= k <= |s|
    ensures ParseHeader(s[..k]) == ParseHeader(s)
  {
    assert s[..k][..4] == s[..4];
    assert Dword(s[..k], 4) == Dword(s, 4);
    assert Word(s[..k], 10) == Word(s, 10) && Word(s[..k], 12) == Word(s, 12);
  }

  /** A file cut inside its header fails with TruncatedStream. */
  lemma ShortFile(s: seq<byte>, k: nat, rate: (nat, Tempo) -> real)
    requires k < HeaderSize && k <= |s| && ParseHeader(s).Ok?
    ensures Convert(s[..k], rate) == Fail(TruncatedStream)
  {
    if 4 <= k {
      assert s[..k][..4] == s[..4];
    }
    if 8 <= k {
      assert Dword(s[..k], 4) == Dword(s, 4);
    }
  }

  /** A file cut anywhere inside the chunks its header announces fails with
      TruncatedStream, and bytes after the last announced chunk are ignored:
      the cut file converts exactly as the whole file does. */
  lemma TruncatedFile(s: seq<byte>, k: nat, rate: (nat, Tempo) -> real)
    requires HeaderSize <= k <= |s| && ParseHeader(s).Ok?
    ensures var end := ChunksEnd(s, HeaderSize, ParseHeader(s).value.tracks);
      Convert(s[..k], rate) == if end.Ok? && end.value <= k then Convert(s, rate) else Fail(TruncatedStream)
  {
    HeaderCut(s, k);
    ChunksCut(s, HeaderSize, ParseHeader(s).value.tracks, k);
  }
}
