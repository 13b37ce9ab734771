/** The timeline state machine: it walks every tick from the lowest to the
    highest, processes the merged events of each tick in order, applies Set
    Tempo meta events, turns notes into beatmap records and pairs long notes
    through a table of pending starts keyed by lane. Seconds per tick are
    abstract: `rate(ppqn, tempo)` is the increment added to the clock after
    each tick, and only a tempo event changes its second argument. */
module Timeline {
  import opened Results
  import opened Bytes
  import opened Track
  import opened Buckets

  /** The tempo state: the initial 120 beats per minute, or the
      microseconds-per-quarter value of the last Set Tempo event. */
  datatype Tempo = DefaultTempo | MicrosPerQuarter(us: nat)

  /** SIFBeatmap: time in seconds, attribute (1 smile, 2 pure, 3 cool),
      effect (1 normal, 2 token, 3 long, 4 star), effect value (the
      duration of a long note, 2.0 otherwise) and lane position 1..9. */
  datatype Record = Record(time: real, attribute: int, effect: int, value: real, position: int)

  /** TemporaryLNQueue: the start time and attribute of a long note waiting
      for its end; its lane is the key it is stored under. */
  datatype Pending = Pending(start: real, attribute: int)

  /** The long-note queue and the records emitted so far. */
  datatype Board = Board(pending: map<int, Pending>, records: seq<Record>)

  /** Set Tempo (meta type 0x51). */
  const SetTempo := 81
  const LongNote := 3
  /** The effect value stored for every record that is not a long note. */
  const ShortValue: real := 2.0

  predicate IsTempo(e: Event) { e.kind.Meta? && e.kind.id == SetTempo }

  predicate Nondecreasing(es: seq<Event>)
  {
    forall i, j :: 0 <= i < j < |es| ==> es[i].tick <= es[j].tick
  }

  /** The byte fold of a tempo payload: `tempo = tempo * 256 + byte`. */
  method FoldTempo(payload: seq<byte>) returns (us: nat)
    ensures us == BigEndian(payload)
  {
    us := 0;
    var i := 0;
    while i < |payload|
      invariant 0 <= i <= |payload|
      invariant us == BigEndian(payload[..i])
    {
      assert payload[..i + 1][..i] == payload[..i];
      us := us * 256 + payload[i];
      i := i + 1;
    }
    assert payload[..i] == payload;
  }

  /** The tempo after the events `es`: that of the last Set Tempo event. */
  function TempoAfter(es: seq<Event>): Tempo
  {
    if |es| == 0 then DefaultTempo
    else if IsTempo(es[|es| - 1]) then MicrosPerQuarter(BigEndian(es[|es| - 1].kind.payload))
    else TempoAfter(es[..|es| - 1])
  }

  /** How many leading events of `es` are at or before tick `t`. */
  function Through(es: seq<Event>, t: nat): (n: nat)
    ensures n <= |es|
  {
    if |es| == 0 || es[0].tick > t then 0 else 1 + Through(es[1..], t)
  }

  /** `current_timing_sec` when the walk reaches tick `t`: 0 at `lowest`,
      and each tick adds the increment of the tempo in force once the
      events at or before the previous tick have been processed. */
  function Clock(es: seq<Event>, ppqn: nat, lowest: nat, t: nat, rate: (nat, Tempo) -> real): real
    decreases t
  {
    if t <= lowest then 0.0
    else Clock(es, ppqn, lowest, t - 1, rate) + rate(ppqn, TempoAfter(es[..Through(es, t - 1)]))
  }

  lemma ClockNext(es: seq<Event>, ppqn: nat, lowest: nat, t: nat, rate: (nat, Tempo) -> real)
    requires lowest <= t
    ensures Clock(es, ppqn, lowest, t + 1, rate) == Clock(es, ppqn, lowest, t, rate) + rate(ppqn, TempoAfter(es[..Through(es, t)]))
  {
  }

  /** The lane of a note: `pos - bottom_index + 1`. */
  function Lane(e: Event, bottom: int): int
    requires e.kind.Note?
  {
    e.kind.pitch - bottom + 1
  }

  /** `channel >> 2`; Euclidean division agrees with the arithmetic shift. */
  function Attribute(e: Event): int
    requires e.kind.Note?
  {
    e.kind.channel / 4
  }

  /** `(channel & 3) + 1`; the Euclidean remainder agrees with the mask. */
  function Effect(e: Event): int
    requires e.kind.Note?
  {
    e.kind.channel % 4 + 1
  }

  /** The channel splits into its attribute (high two bits) and its effect
      (low two bits, plus one), and the two together give the channel back. */
  lemma ChannelSplit(e: Event)
    requires e.kind.Note? && 0 <= e.kind.channel < 16
    ensures 0 <= Attribute(e) <= 3 && 1 <= Effect(e) <= 4
    ensures e.kind.channel == 4 * Attribute(e) + Effect(e) - 1
  {
  }

  /** One note event at time `now`. Notes whose attribute is 0 are ignored.
      A long note-on fails on a lane that is already pending and otherwise
      queues its start; any other note-on emits a record at `now` with value
      2.0. A long note-off fails on a lane with nothing pending and
      otherwise removes that entry and emits a long-note record from the
      stored start to `now`, with the note-off's own attribute. Any other
      note-off does nothing. */
  function NoteStep(b: Board, e: Event, now: real, bottom: int): (r: Result<Board>)
    requires e.kind.Note?
    ensures r.Fail? <==> (Attribute(e) > 0 && Effect(e) == LongNote &&
      (if e.kind.on then Lane(e, bottom) in b.pending else Lane(e, bottom) !in b.pending))
    ensures r.Fail? ==> r.error == (if e.kind.on then DuplicateLongNoteStart(Lane(e, bottom))
                                    else UnmatchedLongNoteEnd(Lane(e, bottom)))
    ensures r.Ok? ==> r.value.pending.Keys - {Lane(e, bottom)} == b.pending.Keys - {Lane(e, bottom)}
    ensures r.Ok? ==> forall p :: p in b.pending && p != Lane(e, bottom) ==> p in r.value.pending && r.value.pending[p] == b.pending[p]
    ensures r.Ok? ==> |b.records| <= |r.value.records| <= |b.records| + 1
    ensures r.Ok? ==> r.value.records[..|b.records|] == b.records
    // a quiet note (attribute 0) and a short note-off change nothing
    ensures Attribute(e) <= 0 || (!e.kind.on && Effect(e) != LongNote) ==> r == Ok(b)
    // a short note-on emits one record at `now` with the fixed value
    ensures Attribute(e) > 0 && e.kind.on && Effect(e) != LongNote ==>
      r == Ok(Board(b.pending, b.records + [Record(now, Attribute(e), Effect(e), ShortValue, Lane(e, bottom))]))
    // a long note-on queues its start time and attribute on its lane
    ensures Attribute(e) > 0 && e.kind.on && Effect(e) == LongNote && r.Ok? ==>
      r.value == Board(b.pending[Lane(e, bottom) := Pending(now, Attribute(e))], b.records)
    // a long note-off takes its lane's entry and emits a long note from the
    // queued start to `now`, with the note-off's own attribute
    ensures Attribute(e) > 0 && !e.kind.on && Effect(e) == LongNote && r.Ok? ==>
      Lane(e, bottom) in b.pending &&
      r.value == Board(b.pending - {Lane(e, bottom)},
                       b.records + [Record(b.pending[Lane(e, bottom)].start, Attribute(e), LongNote,
                                           now - b.pending[Lane(e, bottom)].start, Lane(e, bottom))])
  {
    var pos := Lane(e, bottom);
    var attribute := Attribute(e);
    var effect := Effect(e);
    if attribute <= 0 then Ok(b)
    else if e.kind.on then
      if effect == LongNote then
        if pos in b.pending then Fail(DuplicateLongNoteStart(pos))
        else Ok(Board(b.pending[pos := Pending(now, attribute)], b.records))
      else Ok(Board(b.pending, b.records + [Record(now, attribute, effect, ShortValue, pos)]))
    else if effect == LongNote then
      if pos in b.pending then
        var start := b.pending[pos].start;
        Ok(Board(b.pending - {pos}, b.records + [Record(start, attribute, LongNote, now - start, pos)]))
      else Fail(UnmatchedLongNoteEnd(pos))
    else Ok(b)
  }

  /** The board after the first `n` merged events, each note handled at the
      clock of its own tick; tempo and other meta events change no board. */
  function Play(es: seq<Event>, n: nat, ppqn: nat, lowest: nat, bottom: int, rate: (nat, Tempo) -> real): Result<Board>
    requires n <= |es|
  {
    if n == 0 then Ok(Board(map[], []))
    else
      match Play(es, n - 1, ppqn, lowest, bottom, rate)
      case Fail(err) => Fail(err)
      case Ok(b) =>
        var e := es[n - 1];
        if e.kind.Note? then NoteStep(b, e, Clock(es, ppqn, lowest, e.tick, rate), bottom)
        else Ok(b)
  }

  /** The records of a finished walk; long notes still pending are dropped. */
  function RecordsOf(r: Result<Board>): Result<seq<Record>>
  {
    match r
    case Ok(b) => Ok(b.records)
    case Fail(err) => Fail(err)
  }

  /** In a list ordered by tick, `Through` is the length of the prefix at
      or before `t`. */
  lemma {:induction false} ThroughPrefix(es: seq<Event>, t: nat, i: nat)
    requires Nondecreasing(es) && i <= |es|
    requires forall j :: 0 <= j < i ==> es[j].tick <= t
    requires i < |es| ==> es[i].tick > t
    ensures Through(es, t) == i
  {
    if i > 0 {
      ThroughPrefix(es[1..], t, i - 1);
    }
  }

  /** Once a note is rejected, the whole walk fails with that error. */
  lemma {:induction false} FailureStays(es: seq<Event>, n: nat, m: nat, ppqn: nat, lowest: nat, bottom: int, rate: (nat, Tempo) -> real)
    requires n <= m <= |es| && Play(es, n, ppqn, lowest, bottom, rate).Fail?
    ensures Play(es, m, ppqn, lowest, bottom, rate) == Play(es, n, ppqn, lowest, bottom, rate)
    decreases m
  {
    if n < m {
      FailureStays(es, n, m - 1, ppqn, lowest, bottom, rate);
    }
  }

  /** A note with attribute 0 is passed over wherever it occurs: the walk
      after it is the walk before it. */
  lemma QuietNote(es: seq<Event>, n: nat, ppqn: nat, lowest: nat, bottom: int, rate: (nat, Tempo) -> real)
    requires 0 < n <= |es| && es[n - 1].kind.Note? && Attribute(es[n - 1]) <= 0
    ensures Play(es, n, ppqn, lowest, bottom, rate) == Play(es, n - 1, ppqn, lowest, bottom, rate)
  {
  }

  /** A note-on that starts a long note. */
  predicate LongStart(e: Event)
  {
    e.kind.Note? && e.kind.on && Attribute(e) > 0 && Effect(e) == LongNote
  }

  /** A note-off that ends a long note. */
  predicate LongEnd(e: Event)
  {
    e.kind.Note? && !e.kind.on && Attribute(e) > 0 && Effect(e) == LongNote
  }

  /** No note among the events strictly between `i` and `k` is on `lane`. */
  predicate LaneUntouched(es: seq<Event>, i: nat, k: nat, bottom: int, lane: int)
    requires k <= |es|
  {
    forall m :: i < m < k && es[m].kind.Note? ==> Lane(es[m], bottom) != lane
  }

  /** After a long-note start, as long as no other note uses its lane, the
      lane holds the start's clock and attribute. */
  lemma {:induction false} LongNoteHeld(es: seq<Event>, ppqn: nat, lowest: nat, bottom: int, rate: (nat, Tempo) -> real,
                                        i: nat, k: nat)
    requires i < k <= |es| && LongStart(es[i])
    requires LaneUntouched(es, i, k, bottom, Lane(es[i], bottom))
    requires Play(es, k, ppqn, lowest, bottom, rate).Ok?
    ensures var b := Play(es, k, ppqn, lowest, bottom, rate).value;
      Lane(es[i], bottom) in b.pending &&
      b.pending[Lane(es[i], bottom)] == Pending(Clock(es, ppqn, lowest, es[i].tick, rate), Attribute(es[i]))
    decreases k
  {
    if k - 1 > i {
      LongNoteHeld(es, ppqn, lowest, bottom, rate, i, k - 1);
    }
  }

  /** Long-note pairing: a long-note start at `i` and a long-note end on the
      same lane at `j`, with no note on that lane in between, give one long
      note from the clock of `i`'s tick lasting until the clock of `j`'s
      tick, with the end's attribute, and free the lane. */
  lemma LongNotePaired(es: seq<Event>, ppqn: nat, lowest: nat, bottom: int, rate: (nat, Tempo) -> real, i: nat, j: nat)
    requires i < j < |es| && LongStart(es[i]) && LongEnd(es[j]) && Lane(es[j], bottom) == Lane(es[i], bottom)
    requires LaneUntouched(es, i, j, bottom, Lane(es[i], bottom))
    requires Play(es, j, ppqn, lowest, bottom, rate).Ok?
    ensures var b := Play(es, j, ppqn, lowest, bottom, rate).value;
      var lane, start := Lane(es[i], bottom), Clock(es, ppqn, lowest, es[i].tick, rate);
      Play(es, j + 1, ppqn, lowest, bottom, rate) ==
        Ok(Board(b.pending - {lane},
                 b.records + [Record(start, Attribute(es[j]), LongNote, Clock(es, ppqn, lowest, es[j].tick, rate) - start, lane)]))
  {
    LongNoteHeld(es, ppqn, lowest, bottom, rate, i, j);
  }

  /** The first `i` events are handled: `tempo` and its increment are those
      after them and `b` is the board `Play` gives for them. */
  ghost predicate Handled(es: seq<Event>, ppqn: nat, lowest: nat, bottom: int, rate: (nat, Tempo) -> real,
                          i: nat, tempo: Tempo, add: real, b: Board)
  {
    i <= |es| && tempo == TempoAfter(es[..i]) && add == rate(ppqn, tempo) &&
    Play(es, i, ppqn, lowest, bottom, rate) == Ok(b)
  }

  /** One event of the inner loop, handled at the clock of its tick: a Set
      Tempo event replaces the tempo and the increment, a note goes to
      `NoteStep`, anything else is passed over. */
  method HandleEvent(es: seq<Event>, i: nat, ppqn: nat, lowest: nat, bottom: int, rate: (nat, Tempo) -> real,
                     tempo0: Tempo, add0: real, b: Board, current: real)
    returns (r: Result<Board>, tempo: Tempo, add: real)
    requires i < |es| && current == Clock(es, ppqn, lowest, es[i].tick, rate)
    requires Handled(es, ppqn, lowest, bottom, rate, i, tempo0, add0, b)
    ensures r.Fail? ==> r == Play(es, i + 1, ppqn, lowest, bottom, rate)
    ensures r.Ok? ==> Handled(es, ppqn, lowest, bottom, rate, i + 1, tempo, add, r.value)
  {
    var e := es[i];
    assert es[..i + 1][..i] == es[..i];
    tempo, add := tempo0, add0;
    r := Ok(b);
    if e.kind.Meta? && e.kind.id == SetTempo {
      var us := FoldTempo(e.kind.payload);
      tempo := MicrosPerQuarter(us);
      add := rate(ppqn, tempo);
    } else if e.kind.Note? {
      r := NoteStep(b, e, current, bottom);
    }
  }

  /** In a list ordered by tick, the events before `i` are due at `t` when
      those before `i0` are and the last of them is. */
  lemma DueBefore(es: seq<Event>, i0: nat, i: nat, t: nat)
    requires Nondecreasing(es) && i0 <= i <= |es|
    requires forall j :: 0 <= j < i0 ==> es[j].tick <= t
    requires i0 < i ==> es[i - 1].tick <= t
    ensures forall j :: 0 <= j < i ==> es[j].tick <= t
  {
  }

  /** The state of the walk on reaching tick `tick`: the events before `i`
      are the ones due earlier, the clock reads the time of `tick`, the
      tempo and its increment are those after the events handled, and the
      board is what `Play` gives for them. */
  ghost predicate Reached(es: seq<Event>, ppqn: nat, lowest: nat, bottom: int, rate: (nat, Tempo) -> real,
                          tick: nat, i: nat, tempo: Tempo, add: real, current: real, b: Board)
  {
    lowest <= tick && i <= |es| &&
    (forall j :: 0 <= j < i ==> es[j].tick < tick) && (i < |es| ==> es[i].tick >= tick) &&
    current == Clock(es, ppqn, lowest, tick, rate) &&
    Handled(es, ppqn, lowest, bottom, rate, i, tempo, add, b)
  }

  /** In a list ordered by tick, every event from `i` on is at or after the
      tick of the `i`-th. */
  lemma LaterFrom(es: seq<Event>, i: nat, t: nat)
    requires Nondecreasing(es) && i <= |es| && (i < |es| ==> es[i].tick >= t)
    ensures forall j :: i <= j < |es| ==> es[j].tick >= t
  {
  }

  /** Once the events due at `tick` are handled, the walk has reached the
      next tick, with the increment of the tempo now in force added. */
  lemma TickDone(es: seq<Event>, i0: nat, i: nat, tick: nat, ppqn: nat, lowest: nat, bottom: int, rate: (nat, Tempo) -> real,
                 tempo: Tempo, add: real, current: real, b: Board)
    requires Nondecreasing(es) && lowest <= tick && i0 <= i <= |es|
    requires forall j :: 0 <= j < i0 ==> es[j].tick < tick
    requires i0 < i ==> es[i - 1].tick <= tick
    requires i < |es| ==> es[i].tick > tick
    requires current == Clock(es, ppqn, lowest, tick, rate)
    requires Handled(es, ppqn, lowest, bottom, rate, i, tempo, add, b)
    ensures Reached(es, ppqn, lowest, bottom, rate, tick + 1, i, tempo, add, current + add, b)
  {
    DueBefore(es, i0, i, tick);
    ThroughPrefix(es, tick, i);
    ClockNext(es, ppqn, lowest, tick, rate);
  }

  /** The inner loop: every event due at `tick` (from index `i0` on) is
      handled in list order; a Set Tempo event replaces the tempo and the
      increment, a note goes to `NoteStep`. It stops at the first event of
      a later tick, or with the error of the first rejected note. */
  method HandleDue(es: seq<Event>, i0: nat, tick: nat, ppqn: nat, lowest: nat, bottom: int, rate: (nat, Tempo) -> real,
                   tempo0: Tempo, add0: real, b0: Board, current: real)
    returns (r: Result<Board>, i: nat, tempo: Tempo, add: real)
    requires i0 <= |es| && forall j :: i0 <= j < |es| ==> es[j].tick >= tick
    requires current == Clock(es, ppqn, lowest, tick, rate)
    requires Handled(es, ppqn, lowest, bottom, rate, i0, tempo0, add0, b0)
    ensures r.Fail? ==> r == Play(es, |es|, ppqn, lowest, bottom, rate)
    ensures r.Ok? ==> i0 <= i <= |es| && (i0 < i ==> es[i - 1].tick <= tick) && (i < |es| ==> es[i].tick > tick)
    ensures r.Ok? ==> Handled(es, ppqn, lowest, bottom, rate, i, tempo, add, r.value)
  {
    i, tempo, add := i0, tempo0, add0;
    var b := b0;
    while i < |es| && es[i].tick <= tick
      invariant i0 <= i <= |es|
      invariant i0 < i ==> es[i - 1].tick <= tick
      invariant Handled(es, ppqn, lowest, bottom, rate, i, tempo, add, b)
    {
      var step;
      step, tempo, add := HandleEvent(es, i, ppqn, lowest, bottom, rate, tempo, add, b, current);
      if step.Fail? {
        FailureStays(es, i + 1, |es|, ppqn, lowest, bottom, rate);
        return step, i, tempo, add;
      }
      b := step.value;
      i := i + 1;
    }
    r := Ok(b);
  }

  /** One tick of the walk: the events due at `tick` are handled, then the
      increment of the tempo in force is added to the clock. Afterwards the
      walk has reached the next tick, or has failed as `Play` does. */
  method ProcessTick(es: seq<Event>, i0: nat, tick: nat, ppqn: nat, lowest: nat, bottom: int, rate: (nat, Tempo) -> real,
                     tempo0: Tempo, add0: real, b0: Board, current: real)
    returns (r: Result<Board>, i: nat, tempo: Tempo, add: real, next: real)
    requires Nondecreasing(es)
    requires Reached(es, ppqn, lowest, bottom, rate, tick, i0, tempo0, add0, current, b0)
    ensures r.Fail? ==> r == Play(es, |es|, ppqn, lowest, bottom, rate)
    ensures r.Ok? ==> i0 <= i && Reached(es, ppqn, lowest, bottom, rate, tick + 1, i, tempo, add, next, r.value)
  {
    LaterFrom(es, i0, tick);
    r, i, tempo, add := HandleDue(es, i0, tick, ppqn, lowest, bottom, rate, tempo0, add0, b0, current);
    next := current + add;
    if r.Ok? {
      TickDone(es, i0, i, tick, ppqn, lowest, bottom, rate, tempo, add, current, r.value);
    }
  }

  /** Before the first tick nothing is handled and the clock reads 0. */
  lemma WalkStarts(es: seq<Event>, ppqn: nat, lowest: nat, bottom: int, rate: (nat, Tempo) -> real)
    requires forall j :: 0 <= j < |es| ==> lowest <= es[j].tick
    ensures Reached(es, ppqn, lowest, bottom, rate, lowest, 0, DefaultTempo, rate(ppqn, DefaultTempo), 0.0, Board(map[], []))
  {
    assert Handled(es, ppqn, lowest, bottom, rate, 0, DefaultTempo, rate(ppqn, DefaultTempo), Board(map[], []));
  }

  /** Past the highest tick of the list every event has been handled. */
  lemma WalkEnds(es: seq<Event>, ppqn: nat, lowest: nat, highest: nat, bottom: int, rate: (nat, Tempo) -> real,
                 tick: nat, i: nat, tempo: Tempo, add: real, current: real, b: Board)
    requires forall j :: 0 <= j < |es| ==> es[j].tick <= highest
    requires highest < tick && Reached(es, ppqn, lowest, bottom, rate, tick, i, tempo, add, current, b)
    ensures Play(es, |es|, ppqn, lowest, bottom, rate) == Ok(b)
  {
  }

  /** The walk over ticks `lowest..highest` (the outer loop) and over the
      events due at each tick (the inner loop), with the tempo state, the
      clock, the long-note queue and the record list as variables. Its
      outcome is that of `Play` over the whole merged list. */
  method Simulate(es: seq<Event>, ppqn: nat, lowest: nat, highest: nat, bottom: int, rate: (nat, Tempo) -> real)
    returns (r: Result<seq<Record>>)
    requires Nondecreasing(es)
    requires forall i :: 0 <= i < |es| ==> lowest <= es[i].tick <= highest
    ensures r == RecordsOf(Play(es, |es|, ppqn, lowest, bottom, rate))
  {
    var tempo := DefaultTempo;
    var current: real := 0.0;
    var add := rate(ppqn, tempo);
    var board := Board(map[], []);
    var i: nat := 0;
    var tick: nat := lowest;
    WalkStarts(es, ppqn, lowest, bottom, rate);
    while tick <= highest
      invariant Reached(es, ppqn, lowest, bottom, rate, tick, i, tempo, add, current, board)
      decreases highest + 1 - tick
    {
      var step;
      step, i, tempo, add, current := ProcessTick(es, i, tick, ppqn, lowest, bottom, rate, tempo, add, board, current);
      if step.Fail? {
        return Fail(step.error);
      }
      board, tick := step.value, tick + 1;
    }
    WalkEnds(es, ppqn, lowest, highest, bottom, rate, tick, i, tempo, add, current, board);
    return Ok(board.records);
  }

  ghost predicate NonNegative(rate: (nat, Tempo) -> real)
  {
    forall ppqn: nat, tempo: Tempo :: rate(ppqn, tempo) >= 0.0
  }

  /** With a non-negative increment the clock never runs backwards. */
  lemma {:induction false} ClockMonotone(es: seq<Event>, ppqn: nat, lowest: nat, t1: nat, t2: nat, rate: (nat, Tempo) -> real)
    requires NonNegative(rate) && t1 <= t2
    ensures Clock(es, ppqn, lowest, t1, rate) <= Clock(es, ppqn, lowest, t2, rate)
    decreases t2
  {
    if t1 < t2 {
      ClockMonotone(es, ppqn, lowest, t1, t2 - 1, rate);
      assert rate(ppqn, TempoAfter(es[..Through(es, t2 - 1)])) >= 0.0;
    }
  }

  lemma {:induction false} NoTempoDefault(es: seq<Event>)
    requires forall i :: 0 <= i < |es| ==> !IsTempo(es[i])
    ensures TempoAfter(es) == DefaultTempo
  {
    if |es| > 0 { NoTempoDefault(es[..|es| - 1]); }
  }

  /** Without Set Tempo events every tick lasts the default increment, so a
      note at tick `t` is timed at `t - lowest` ticks of it. */
  lemma {:induction false} ClockWithoutTempo(es: seq<Event>, ppqn: nat, lowest: nat, t: nat, rate: (nat, Tempo) -> real)
    requires forall i :: 0 <= i < |es| ==> !IsTempo(es[i])
    requires lowest <= t
    ensures Clock(es, ppqn, lowest, t, rate) == (t - lowest) as real * rate(ppqn, DefaultTempo)
    decreases t
  {
    if t > lowest {
      ClockWithoutTempo(es, ppqn, lowest, t - 1, rate);
      var k := Through(es, t - 1);
      assert forall i :: 0 <= i < k ==> !IsTempo(es[..k][i]);
      NoTempoDefault(es[..k]);
    }
  }

  /** A record as the beatmap format allows it: lane 1..9, attribute 1..3,
      effect 1..4, and the fixed value 2.0 unless it is a long note. */
  predicate WellFormed(rec: Record)
  {
    && 1 <= rec.position <= 9
    && 1 <= rec.attribute <= 3
    && 1 <= rec.effect <= 4
    && (rec.effect != LongNote ==> rec.value == ShortValue)
  }

  /** Every note has a channel 0..15 and lands on a lane 1..9. */
  predicate NotesFit(es: seq<Event>, bottom: int)
  {
    forall i :: 0 <= i < |es| && es[i].kind.Note? ==>
      0 <= es[i].kind.channel < 16 && 1 <= Lane(es[i], bottom) <= 9
  }

  /** Every record emitted is well formed, and every queued long note sits
      on a lane 1..9 with an attribute 1..3. */
  lemma {:induction false} PlayWellFormed(es: seq<Event>, n: nat, ppqn: nat, lowest: nat, bottom: int, rate: (nat, Tempo) -> real)
    requires n <= |es| && NotesFit(es, bottom)
    ensures var r := Play(es, n, ppqn, lowest, bottom, rate);
      r.Ok? ==>
        (forall j :: 0 <= j < |r.value.records| ==> WellFormed(r.value.records[j])) &&
        (forall p :: p in r.value.pending ==> 1 <= p <= 9 && 1 <= r.value.pending[p].attribute <= 3)
  {
    if n > 0 {
      PlayWellFormed(es, n - 1, ppqn, lowest, bottom, rate);
    }
  }

  /** With a non-negative increment and events in tick order, every queued
      start lies at or before the clock of the last event handled, so every
      long note's duration is non-negative. */
  lemma {:induction false} DurationsNonNegative(es: seq<Event>, n: nat, ppqn: nat, lowest: nat, bottom: int, rate: (nat, Tempo) -> real)
    requires n <= |es| && Nondecreasing(es) && NonNegative(rate)
    ensures var r := Play(es, n, ppqn, lowest, bottom, rate);
      r.Ok? ==>
        (forall j :: 0 <= j < |r.value.records| && r.value.records[j].effect == LongNote ==> r.value.records[j].value >= 0.0) &&
        (n > 0 ==> forall p :: p in r.value.pending ==> r.value.pending[p].start <= Clock(es, ppqn, lowest, es[n - 1].tick, rate))
  {
    if n > 0 {
      DurationsNonNegative(es, n - 1, ppqn, lowest, bottom, rate);
      var prev := Play(es, n - 1, ppqn, lowest, bottom, rate);
      if prev.Ok? {
        var b, e := prev.value, es[n - 1];
        var now := Clock(es, ppqn, lowest, e.tick, rate);
        if n > 1 {
          ClockMonotone(es, ppqn, lowest, es[n - 2].tick, e.tick, rate);
        }
        assert forall p :: p in b.pending ==> b.pending[p].start <= now;
        if e.kind.Note? {
          NoteStepDurations(b, e, now, bottom);
        } else {
          assert Play(es, n, ppqn, lowest, bottom, rate) == prev;
        }
      }
    }
  }

  /** A note handled at `now`, when every queued start is at or before
      `now`, emits no long note of negative duration and queues no start
      after `now`. */
  lemma NoteStepDurations(b: Board, e: Event, now: real, bottom: int)
    requires e.kind.Note?
    requires forall j :: 0 <= j < |b.records| && b.records[j].effect == LongNote ==> b.records[j].value >= 0.0
    requires forall p :: p in b.pending ==> b.pending[p].start <= now
    ensures var r := NoteStep(b, e, now, bottom);
      r.Ok? ==>
        (forall j :: 0 <= j < |r.value.records| && r.value.records[j].effect == LongNote ==> r.value.records[j].value >= 0.0) &&
        (forall p :: p in r.value.pending ==> r.value.pending[p].start <= now)
  {
  }

  /** How many of the first `n` events are note-ons with a non-zero attribute. */
  function CountedOns(es: seq<Event>, n: nat): nat
    requires n <= |es|
  {
    if n == 0 then 0
    else CountedOns(es, n - 1) + (if es[n - 1].kind.Note? && es[n - 1].kind.on && Attribute(es[n - 1]) > 0 then 1 else 0)
  }

  /** Every counted note-on ends up either as a record or as a queued long
      note: a short note-on emits one record, a long note-on queues one
      entry, and a matched long note-off turns one entry into one record. */
  lemma {:induction false} NotesConserved(es: seq<Event>, n: nat, ppqn: nat, lowest: nat, bottom: int, rate: (nat, Tempo) -> real)
    requires n <= |es|
    ensures var r := Play(es, n, ppqn, lowest, bottom, rate);
      r.Ok? ==> |r.value.records| + |r.value.pending| == CountedOns(es, n)
  {
    if n > 0 {
      NotesConserved(es, n - 1, ppqn, lowest, bottom, rate);
      var prev := Play(es, n - 1, ppqn, lowest, bottom, rate);
      var e := es[n - 1];
      if prev.Ok? && e.kind.Note? {
        NoteStepCounts(prev.value, e, Clock(es, ppqn, lowest, e.tick, rate), bottom);
      }
    }
  }

  /** A counted note-on adds one record or one queued entry; anything else
      that succeeds leaves the total of records and entries unchanged. */
  lemma NoteStepCounts(b: Board, e: Event, now: real, bottom: int)
    requires e.kind.Note?
    ensures var r := NoteStep(b, e, now, bottom);
      r.Ok? ==> (|r.value.records| + |r.value.pending| ==
                 |b.records| + |b.pending| + (if e.kind.on && Attribute(e) > 0 then 1 else 0))
  {
  }

  /** Notes on channels 0..3 have attribute 0: a track using only those
      produces nothing and cannot fail. */
  lemma {:induction false} QuietChannels(es: seq<Event>, n: nat, ppqn: nat, lowest: nat, bottom: int, rate: (nat, Tempo) -> real)
    requires n <= |es|
    requires forall i :: 0 <= i < |es| && es[i].kind.Note? ==> 0 <= es[i].kind.channel < 4
    ensures Play(es, n, ppqn, lowest, bottom, rate) == Ok(Board(map[], []))
  {
    if n > 0 {
      QuietChannels(es, n - 1, ppqn, lowest, bottom, rate);
    }
  }

  /** Ascending under SIFBeatmap::operator<, which compares times only. */
  predicate SortedByTime(rs: seq<Record>)
  {
    forall i, j :: 0 <= i < j < |rs| ==> rs[i].time <= rs[j].time
  }

  /** `x` placed into the time-sorted `s` before the first later record. */
  function InsertByTime(s: seq<Record>, x: Record): (r: seq<Record>)
    requires SortedByTime(s)
    ensures SortedByTime(r) && multiset(r) == multiset(s) + multiset{x}
  {
    if |s| == 0 then [x]
    else if x.time < s[0].time then [x] + s
    else
      var rest := InsertByTime(s[1..], x);
      HeadBeforeRest(s, x, rest);
      [s[0]] + rest
  }

  /** The head of a time-sorted list, not later than `x`, stays before
      every record of the rest with `x` inserted. */
  lemma HeadBeforeRest(s: seq<Record>, x: Record, rest: seq<Record>)
    requires |s| > 0 && SortedByTime(s) && s[0].time <= x.time
    requires SortedByTime(rest) && multiset(rest) == multiset(s[1..]) + multiset{x}
    ensures SortedByTime([s[0]] + rest) && multiset([s[0]] + rest) == multiset(s) + multiset{x}
  {
    forall j | 0 <= j < |rest| ensures s[0].time <= rest[j].time {
      assert rest[j] in multiset(rest);
      if rest[j] != x {
        assert rest[j] in multiset(s[1..]);
        var m :| 0 <= m < |s[1..]| && s[1..][m] == rest[j];
        assert s[m + 1] == rest[j];
      }
    }
    assert s == [s[0]] + s[1..];
  }

  /** The final std::sort of the records by time: the result is ascending
      in time and holds exactly the emitted records. */
  method SortByTime(rs: seq<Record>) returns (r: seq<Record>)
    ensures SortedByTime(r) && multiset(r) == multiset(rs)
  {
    r := [];
    var i := 0;
    while i < |rs|
      invariant 0 <= i <= |rs|
      invariant SortedByTime(r) && multiset(r) == multiset(rs[..i])
    {
      assert rs[..i + 1] == rs[..i] + [rs[i]];
      r := InsertByTime(r, rs[i]);
      i := i + 1;
    }
    assert rs[..i] == rs;
  }
}
