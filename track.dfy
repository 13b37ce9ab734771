/** The track event extractor: one MTrk chunk body, read event by event with a
    running absolute tick and a byte budget equal to the chunk's declared
    length. Running status is not supported: every event starts with its own
    status byte. */
module Track {
  import opened Results
  import opened Bytes

  /** What one event carries: a note (pitch and channel; the velocity is read
      and dropped) or a meta event (type and payload). */
  datatype Kind =
    | Note(on: bool, pitch: int, channel: int)
    | Meta(id: byte, payload: seq<byte>)

  /** An event as extracted, before it is numbered within its tick. */
  datatype Raw = Raw(tick: nat, kind: Kind)

  datatype Option<T> = None | Some(value: T)

  /** The cursor after one event, the new running tick and what it emits. */
  datatype Step = Step(next: nat, tick: nat, event: Option<Raw>)

  /** The cursor at the end of a track and the events it emitted, in order. */
  datatype TrackEnd = TrackEnd(next: nat, events: seq<Raw>)

  const NoteOff := 0x8
  const NoteOn := 0x9
  const MetaStatus := 0xFF
  const SysexStart := 0xF0
  const SysexEnd := 0xF7

  /** The position just after the first 0xF7 at or after `pos`. */
  function SysexEndAt(s: seq<byte>, pos: nat): (r: Result<nat>)
    decreases |s| - pos
    ensures r.Ok? ==> pos < r.value <= |s|
    ensures r.Fail? ==> r.error == TruncatedStream
  {
    if pos >= |s| then Fail(TruncatedStream)
    else if s[pos] == SysexEnd then Ok(pos + 1)
    else SysexEndAt(s, pos + 1)
  }

  /** The skip ends right after the first 0xF7 from `pos`, and fails exactly
      when there is none. */
  lemma {:induction false} SysexEndIsFirst(s: seq<byte>, pos: nat)
    decreases |s| - pos
    ensures var r := SysexEndAt(s, pos);
      && (r.Ok? ==> s[r.value - 1] == SysexEnd && forall i :: pos <= i < r.value - 1 ==> s[i] != SysexEnd)
      && (r.Fail? <==> forall i :: pos <= i < |s| ==> s[i] != SysexEnd)
  {
    if pos < |s| && s[pos] != SysexEnd {
      SysexEndIsFirst(s, pos + 1);
    }
  }

  /** A skip on the input cut at `k` ends where it did when that is by
      `k`, and otherwise runs out of input. */
  lemma {:induction false} SysexCut(s: seq<byte>, pos: nat, k: nat)
    requires pos <= k <= |s|
    ensures var r := SysexEndAt(s, pos);
      SysexEndAt(s[..k], pos) == if r.Ok? && r.value <= k then r else Fail(TruncatedStream)
    decreases |s| - pos
  {
    if pos < k && s[pos] != SysexEnd {
      SysexCut(s, pos + 1, k);
    }
  }

  /** Skips a system-exclusive message byte by byte through its 0xF7,
      decrementing the budget once per byte. */
  method SkipSysex(s: seq<byte>, pos: nat, budget: int) returns (r: Result<nat>, budget': int)
    ensures r == SysexEndAt(s, pos)
    ensures r.Ok? ==> budget' == budget - (r.value - pos)
  {
    var p := pos;
    budget' := budget;
    while p < |s|
      invariant pos <= p
      invariant budget' == budget - (p - pos)
      invariant SysexEndAt(s, p) == SysexEndAt(s, pos)
      decreases |s| - p
    {
      var b := s[p];
      p, budget' := p + 1, budget' - 1;
      if b == SysexEnd {
        return Ok(p), budget';
      }
    }
    r := Fail(TruncatedStream);
  }

  /** A note's channel is the low nibble of its status byte. */
  predicate ChannelFits(e: Raw)
  {
    e.kind.Note? ==> 0 <= e.kind.channel < 16
  }

  function Emitted(st: Step): seq<Raw>
  {
    if st.event.Some? then [st.event.value] else []
  }

  /** One iteration of the extractor loop: a delta-time, a status byte and the
      bytes of that event. */
  function EventAt(s: seq<byte>, pos: nat, tick: nat): (r: Result<Step>)
    ensures r.Fail? ==> r.error == TruncatedStream
    ensures r.Ok? ==> pos + 2 <= r.value.next <= |s| && r.value.tick < Two32
    ensures r.Ok? && r.value.event.Some? ==> r.value.event.value.tick == r.value.tick
    ensures r.Ok? && r.value.event.Some? ==> ChannelFits(r.value.event.value)
  {
    match VarIntAt(s, pos, 0)
    case Fail(e) => Fail(e)
    case Ok(delta) =>
      if delta.next >= |s| then Fail(TruncatedStream)
      else
        var status := s[delta.next];
        var p := delta.next + 1;
        var t := (tick + delta.value) % Two32;
        if status / 16 == NoteOff || status / 16 == NoteOn then
          if p + 2 > |s| then Fail(TruncatedStream)
          else Ok(Step(p + 2, t, Some(Raw(t, Note(status / 16 == NoteOn, s[p], status % 16)))))
        else if status == MetaStatus then
          if p >= |s| then Fail(TruncatedStream)
          else match VarIntAt(s, p + 1, 0)
            case Fail(e) => Fail(e)
            case Ok(size) =>
              if size.next + size.value > |s| then Fail(TruncatedStream)
              else Ok(Step(size.next + size.value, t,
                           Some(Raw(t, Meta(s[p], s[size.next..size.next + size.value])))))
        else if status == SysexStart || status == SysexEnd then
          match SysexEndAt(s, p)
          case Fail(e) => Fail(e)
          case Ok(q) => Ok(Step(q, t, None))
        else if p + 2 > |s| then Fail(TruncatedStream)
        else Ok(Step(p + 2, t, None))
  }

  /** The extractor loop: events are read while the budget is not zero. The
      budget is the C++ `size_t`; a negative value here stands for a budget
      that wrapped past zero, which then never comes back to zero. */
  function TrackFrom(s: seq<byte>, pos: nat, budget: int, tick: nat): (r: Result<TrackEnd>)
    decreases |s| - pos
    ensures r.Fail? ==> r.error == TruncatedStream
    ensures r.Ok? ==> 0 <= budget && r.value.next == pos + budget
    ensures r.Ok? && pos <= |s| ==> r.value.next <= |s|
  {
    if budget == 0 then Ok(TrackEnd(pos, []))
    else match EventAt(s, pos, tick)
      case Fail(e) => Fail(e)
      case Ok(st) =>
        match TrackFrom(s, st.next, budget - (st.next - pos), st.tick)
        case Fail(e) => Fail(e)
        case Ok(rest) => Ok(TrackEnd(rest.next, Emitted(st) + rest.events))
  }

  /** Every event a track yields carries a 32-bit tick, and every note a
      channel 0..15. */
  lemma {:induction false} TrackEvents(s: seq<byte>, pos: nat, budget: int, tick: nat)
    requires TrackFrom(s, pos, budget, tick).Ok?
    ensures var es := TrackFrom(s, pos, budget, tick).value.events;
      forall i :: 0 <= i < |es| ==> es[i].tick < Two32 && ChannelFits(es[i])
    decreases |s| - pos
  {
    if budget != 0 {
      var st := EventAt(s, pos, tick).value;
      TrackEvents(s, st.next, budget - (st.next - pos), st.tick);
    }
  }

  /** The result of an event cut at `k`: the same when it ends by `k`, else
      running out of input. */
  function CutAt(r: Result<Step>, k: nat): Result<Step>
  {
    if r.Ok? && r.value.next <= k then r else Fail(TruncatedStream)
  }

  /** An event read from the input cut at `k` is the same event when it
      ends by `k`; otherwise it runs out of input. */
  lemma EventCut(s: seq<byte>, pos: nat, tick: nat, k: nat)
    requires pos <= k <= |s|
    ensures EventAt(s[..k], pos, tick) == CutAt(EventAt(s, pos, tick), k)
  {
    VarIntCut(s, pos, 0, k);
    var d := VarIntAt(s, pos, 0);
    if d.Ok? && d.value.next < k {
      var status := s[d.value.next];
      if status == MetaStatus {
        MetaCut(s, pos, tick, k, d.value);
      } else if status == SysexStart || status == SysexEnd {
        SysexEventCut(s, pos, tick, k, d.value);
      } else {
        OtherCut(s, pos, tick, k, d.value);
      }
    }
  }

  /** EventCut for a meta event. */
  lemma MetaCut(s: seq<byte>, pos: nat, tick: nat, k: nat, d: Decoded)
    requires pos <= k <= |s| && VarIntAt(s, pos, 0) == Ok(d) && VarIntAt(s[..k], pos, 0) == Ok(d)
    requires d.next < k && s[d.next] == MetaStatus
    ensures EventAt(s[..k], pos, tick) == CutAt(EventAt(s, pos, tick), k)
  {
    var p := d.next + 1;
    if p < k {
      VarIntCut(s, p + 1, 0, k);
      var size := VarIntAt(s, p + 1, 0);
      if size.Ok? && size.value.next + size.value.value <= k {
        MetaFits(s, pos, tick, k, d, size.value);
        return;
      }
    }
    MetaShort(s, pos, tick, k, d);
  }

  /** A meta event whose payload ends by `k` reads the same from the cut input. */
  lemma MetaFits(s: seq<byte>, pos: nat, tick: nat, k: nat, d: Decoded, size: Decoded)
    requires pos <= k <= |s| && VarIntAt(s, pos, 0) == Ok(d) && VarIntAt(s[..k], pos, 0) == Ok(d)
    requires d.next + 1 < k && s[d.next] == MetaStatus
    requires VarIntAt(s, d.next + 2, 0) == Ok(size) && VarIntAt(s[..k], d.next + 2, 0) == Ok(size)
    requires size.next + size.value <= k
    ensures EventAt(s[..k], pos, tick) == EventAt(s, pos, tick) && EventAt(s, pos, tick).value.next <= k
  {
    var q, n := size.next, size.value;
    assert s[..k][q..q + n] == s[q..q + n] && s[..k][d.next + 1] == s[d.next + 1];
    MetaAt(s, pos, tick, d.next, d.value, q, n);
    MetaAt(s[..k], pos, tick, d.next, d.value, q, n);
  }

  /** A meta event that does not end by `k` runs out of the cut input. */
  lemma MetaShort(s: seq<byte>, pos: nat, tick: nat, k: nat, d: Decoded)
    requires pos <= k <= |s| && VarIntAt(s, pos, 0) == Ok(d) && VarIntAt(s[..k], pos, 0) == Ok(d)
    requires d.next < k && s[d.next] == MetaStatus
    requires d.next + 1 < k ==>
      var size := VarIntAt(s, d.next + 2, 0);
      VarIntAt(s[..k], d.next + 2, 0) == (if size.Ok? && size.value.next <= k then size else Fail(TruncatedStream)) &&
      (size.Fail? || size.value.next + size.value.value > k)
    ensures EventAt(s[..k], pos, tick) == Fail(TruncatedStream)
    ensures EventAt(s, pos, tick).Fail? || EventAt(s, pos, tick).value.next > k
  {
  }

  /** EventCut for a system-exclusive event. */
  lemma SysexEventCut(s: seq<byte>, pos: nat, tick: nat, k: nat, d: Decoded)
    requires pos <= k <= |s| && VarIntAt(s, pos, 0) == Ok(d) && VarIntAt(s[..k], pos, 0) == Ok(d)
    requires d.next < k && (s[d.next] == SysexStart || s[d.next] == SysexEnd)
    ensures EventAt(s[..k], pos, tick) == CutAt(EventAt(s, pos, tick), k)
  {
    SysexCut(s, d.next + 1, k);
  }

  /** EventCut for a note or any other status byte. */
  lemma OtherCut(s: seq<byte>, pos: nat, tick: nat, k: nat, d: Decoded)
    requires pos <= k <= |s| && VarIntAt(s, pos, 0) == Ok(d) && VarIntAt(s[..k], pos, 0) == Ok(d)
    requires d.next < k && s[d.next] != MetaStatus && s[d.next] != SysexStart && s[d.next] != SysexEnd
    ensures EventAt(s[..k], pos, tick) == CutAt(EventAt(s, pos, tick), k)
  {
  }

  /** `before` followed by the events of the track `r`, or its failure. */
  function AfterTrack(before: seq<Raw>, r: Result<TrackEnd>): Result<TrackEnd>
  {
    match r
    case Ok(t) => Ok(TrackEnd(t.next, before + t.events))
    case Fail(e) => Fail(e)
  }

  /** One more event of a track: what it emits comes before the rest. */
  lemma TrackStep(s: seq<byte>, p: nat, budget: int, tick: nat, before: seq<Raw>, st: Step, after: seq<Raw>, rest: int)
    requires budget != 0 && EventAt(s, p, tick) == Ok(st)
    requires after == before + Emitted(st) && rest == budget - (st.next - p)
    ensures AfterTrack(before, TrackFrom(s, p, budget, tick)) == AfterTrack(after, TrackFrom(s, st.next, rest, st.tick))
  {
    var tail := TrackFrom(s, st.next, rest, st.tick);
    if tail.Ok? {
      var t := tail.value;
      assert TrackFrom(s, p, budget, tick) == Ok(TrackEnd(t.next, Emitted(st) + t.events));
      assert before + (Emitted(st) + t.events) == after + t.events;
    } else {
      assert TrackFrom(s, p, budget, tick) == Fail(tail.error);
    }
  }

  /** A track read from the input cut at `k` is the same track when it ends
      by `k`; otherwise it runs out of input. */
  lemma {:induction false} TrackCut(s: seq<byte>, pos: nat, budget: int, tick: nat, k: nat)
    requires pos <= k <= |s|
    ensures TrackFrom(s[..k], pos, budget, tick) == CutTrack(TrackFrom(s, pos, budget, tick), k)
    decreases |s| - pos
  {
    if budget != 0 {
      EventCut(s, pos, tick, k);
      var st := EventAt(s, pos, tick);
      if st.Fail? || st.value.next > k {
        TrackStops(s, pos, budget, tick, k);
      } else {
        var rest := budget - (st.value.next - pos);
        TrackCut(s, st.value.next, rest, st.value.tick, k);
        TrackStep(s, pos, budget, tick, [], st.value, Emitted(st.value), rest);
        TrackStep(s[..k], pos, budget, tick, [], st.value, Emitted(st.value), rest);
        CutAfter(Emitted(st.value), TrackFrom(s, st.value.next, rest, st.value.tick), k);
        AfterNone(TrackFrom(s, pos, budget, tick));
        AfterNone(TrackFrom(s[..k], pos, budget, tick));
      }
    }
  }

  /** The result of a track cut at `k`: the same when it ends by `k`, else
      running out of input. */
  function CutTrack(r: Result<TrackEnd>, k: nat): Result<TrackEnd>
  {
    if r.Ok? && r.value.next <= k then r else Fail(TruncatedStream)
  }

  /** A first event that does not end by `k` stops the cut track. */
  lemma TrackStops(s: seq<byte>, pos: nat, budget: int, tick: nat, k: nat)
    requires pos <= k <= |s| && budget != 0
    requires EventAt(s[..k], pos, tick) == CutAt(EventAt(s, pos, tick), k)
    requires EventAt(s, pos, tick).Fail? || EventAt(s, pos, tick).value.next > k
    ensures TrackFrom(s[..k], pos, budget, tick) == CutTrack(TrackFrom(s, pos, budget, tick), k)
  {
  }

  /** Cutting commutes with putting events in front. */
  lemma CutAfter(before: seq<Raw>, r: Result<TrackEnd>, k: nat)
    ensures AfterTrack(before, CutTrack(r, k)) == CutTrack(AfterTrack(before, r), k)
  {
  }

  lemma AfterNone(r: Result<TrackEnd>)
    ensures AfterTrack([], r) == r
  {
    if r.Ok? {
      assert [] + r.value.events == r.value.events;
    }
  }

  /** One iteration of the extractor loop as the converter runs it: every
      byte consumed decrements the budget once. */
  method ReadEvent(s: seq<byte>, pos: nat, tick: nat, budget: int) returns (r: Result<Step>, budget': int)
    ensures r == EventAt(s, pos, tick)
    ensures r.Ok? ==> budget' == budget - (r.value.next - pos)
  {
    var delta;
    delta, budget' := ReadVarInt(s, pos, budget);
    if delta.Fail? {
      return Fail(delta.error), budget';
    }
    var p := delta.value.next;
    if p >= |s| {
      return Fail(TruncatedStream), budget';
    }
    var status := s[p];
    p, budget' := p + 1, budget' - 1;
    var t := (tick + delta.value.value) % Two32;
    if status / 16 == NoteOff || status / 16 == NoteOn {
      if p + 2 > |s| {
        return Fail(TruncatedStream), budget';
      }
      var pitch := s[p];
      budget' := budget' - 2;
      r := Ok(Step(p + 2, t, Some(Raw(t, Note(status / 16 == NoteOn, pitch, status % 16)))));
    } else if status == MetaStatus {
      if p >= |s| {
        return Fail(TruncatedStream), budget';
      }
      var id := s[p];
      budget' := budget' - 1;
      var size;
      size, budget' := ReadVarInt(s, p + 1, budget');
      if size.Fail? {
        return Fail(size.error), budget';
      }
      var q := size.value.next;
      if q + size.value.value > |s| {
        return Fail(TruncatedStream), budget';
      }
      budget' := budget' - size.value.value;
      r := Ok(Step(q + size.value.value, t, Some(Raw(t, Meta(id, s[q..q + size.value.value])))));
    } else if status == SysexStart || status == SysexEnd {
      var q;
      q, budget' := SkipSysex(s, p, budget');
      if q.Fail? {
        return Fail(q.error), budget';
      }
      r := Ok(Step(q.value, t, None));
    } else {
      if p + 2 > |s| {
        return Fail(TruncatedStream), budget';
      }
      budget' := budget' - 2;
      r := Ok(Step(p + 2, t, None));
    }
  }

  // ---------------------------------------------------------------------
  // Encoders: the bytes of one event, the inverse of EventAt.

  function NoteBytes(delta: nat, on: bool, pitch: byte, channel: int, velocity: byte): seq<byte>
    requires 0 <= channel < 16
  {
    EncodeVarInt(delta) + [(if on then NoteOn else NoteOff) * 16 + channel, pitch, velocity]
  }

  function MetaBytes(delta: nat, id: byte, payload: seq<byte>): seq<byte>
  {
    EncodeVarInt(delta) + ([MetaStatus, id] + (EncodeVarInt(|payload|) + payload))
  }

  function SysexBytes(delta: nat, status: byte, body: seq<byte>): seq<byte>
  {
    EncodeVarInt(delta) + ([status] + (body + [SysexEnd]))
  }

  /** A status byte the extractor neither emits nor treats as a sysex. */
  predicate Skipped(status: byte)
  {
    status / 16 != NoteOff && status / 16 != NoteOn
    && status != MetaStatus && status != SysexStart && status != SysexEnd
  }

  function OtherBytes(delta: nat, status: byte, data1: byte, data2: byte): seq<byte>
  {
    EncodeVarInt(delta) + [status, data1, data2]
  }

  /** A note-on or note-off decodes to the note with its pitch and channel,
      at the running tick plus its delta-time; the velocity is consumed and
      not kept, and a velocity of zero is not special. */
  lemma NoteRoundTrip(s: seq<byte>, pos: nat, delta: nat, on: bool, pitch: byte, channel: int, velocity: byte, tick: nat)
    requires delta < Two32 && 0 <= channel < 16
    requires Embedded(s, pos, NoteBytes(delta, on, pitch, channel, velocity))
    ensures var t := (tick + delta) % Two32;
      EventAt(s, pos, tick)
      == Ok(Step(pos + |NoteBytes(delta, on, pitch, channel, velocity)|, t, Some(Raw(t, Note(on, pitch, channel)))))
  {
    var status := (if on then NoteOn else NoteOff) * 16 + channel;
    EmbeddedSplit(s, pos, EncodeVarInt(delta), [status, pitch, velocity]);
    VarIntRoundTrip(s, pos, delta);
    var p := pos + |EncodeVarInt(delta)|;
    EmbeddedAt(s, p, [status, pitch, velocity], 0);
    EmbeddedAt(s, p, [status, pitch, velocity], 1);
  }

  /** A meta event decodes to its type and exactly the declared number of
      payload bytes. */
  lemma MetaRoundTrip(s: seq<byte>, pos: nat, delta: nat, id: byte, payload: seq<byte>, tick: nat)
    requires delta < Two32 && |payload| < Two32
    requires Embedded(s, pos, MetaBytes(delta, id, payload))
    ensures var t := (tick + delta) % Two32;
      EventAt(s, pos, tick) == Ok(Step(pos + |MetaBytes(delta, id, payload)|, t, Some(Raw(t, Meta(id, payload)))))
  {
    var e1, e2 := EncodeVarInt(delta), EncodeVarInt(|payload|);
    var p0 := pos + |e1|;
    var q := p0 + 2 + |e2|;
    EmbeddedSplit(s, pos, e1, [MetaStatus, id] + (e2 + payload));
    VarIntRoundTrip(s, pos, delta);
    EmbeddedSplit(s, p0, [MetaStatus, id], e2 + payload);
    EmbeddedAt(s, p0, [MetaStatus, id], 0);
    EmbeddedAt(s, p0, [MetaStatus, id], 1);
    EmbeddedSplit(s, p0 + 2, e2, payload);
    VarIntRoundTrip(s, p0 + 2, |payload|);
    assert s[q..q + |payload|] == payload;
    MetaAt(s, pos, tick, p0, delta, q, |payload|);
  }

  lemma MetaAt(s: seq<byte>, pos: nat, tick: nat, p0: nat, delta: nat, q: nat, n: nat)
    requires VarIntAt(s, pos, 0) == Ok(Decoded(delta, p0))
    requires p0 + 1 < |s| && s[p0] == MetaStatus
    requires VarIntAt(s, p0 + 2, 0) == Ok(Decoded(n, q)) && q + n <= |s|
    ensures var t := (tick + delta) % Two32;
      EventAt(s, pos, tick) == Ok(Step(q + n, t, Some(Raw(t, Meta(s[p0 + 1], s[q..q + n])))))
  {
  }

  /** A system-exclusive message, opened by 0xF0 or by an escape 0xF7, is
      skipped through its terminating 0xF7 and emits nothing. */
  lemma SysexRoundTrip(s: seq<byte>, pos: nat, delta: nat, status: byte, body: seq<byte>, tick: nat)
    requires delta < Two32 && (status == SysexStart || status == SysexEnd)
    requires forall i :: 0 <= i < |body| ==> body[i] != SysexEnd
    requires Embedded(s, pos, SysexBytes(delta, status, body))
    ensures EventAt(s, pos, tick) == Ok(Step(pos + |SysexBytes(delta, status, body)|, (tick + delta) % Two32, None))
  {
    var e1 := EncodeVarInt(delta);
    EmbeddedSplit(s, pos, e1, [status] + (body + [SysexEnd]));
    VarIntRoundTrip(s, pos, delta);
    var p := pos + |e1| + 1;
    EmbeddedSplit(s, p - 1, [status], body + [SysexEnd]);
    EmbeddedSplit(s, p, body, [SysexEnd]);
    var e := p + |body|;
    EmbeddedAt(s, p - 1, [status], 0);
    EmbeddedAt(s, e, [SysexEnd], 0);
    forall i | p <= i < e ensures s[i] != SysexEnd {
      EmbeddedAt(s, p, body, i - p);
    }
    SysexEndIsFirst(s, p);
    assert SysexEndAt(s, p) == Ok(e + 1);
  }

  /** Any other status byte is followed by exactly two data bytes that are
      skipped; nothing is emitted. */
  lemma OtherRoundTrip(s: seq<byte>, pos: nat, delta: nat, status: byte, data1: byte, data2: byte, tick: nat)
    requires delta < Two32 && Skipped(status)
    requires Embedded(s, pos, OtherBytes(delta, status, data1, data2))
    ensures EventAt(s, pos, tick)
      == Ok(Step(pos + |OtherBytes(delta, status, data1, data2)|, (tick + delta) % Two32, None))
  {
    EmbeddedSplit(s, pos, EncodeVarInt(delta), [status, data1, data2]);
    VarIntRoundTrip(s, pos, delta);
    EmbeddedAt(s, pos + |EncodeVarInt(delta)|, [status, data1, data2], 0);
  }
}
