/** Per-tick bucketing of extracted events (InsertEvent over a map from tick
    to the events at that tick) and the merge of all buckets into one list
    ordered by EventInformation::operator<, that is by (tick, order). */
module Buckets {
  import opened Bytes
  import opened Track

  /** EventInformation: an extracted event with `order`, its index among the
      events stored at the same tick. */
  datatype Event = Event(tick: nat, order: nat, kind: Kind)

  /** EventInformation::operator<: by tick, then by order within the tick. */
  predicate Less(a: Event, b: Event)
  {
    a.tick < b.tick || (a.tick == b.tick && a.order < b.order)
  }

  predicate StrictlySorted(s: seq<Event>)
  {
    forall i, j :: 0 <= i < j < |s| ==> Less(s[i], s[j])
  }

  /** How many events of `s` are at tick `k`. */
  function CountAt(s: seq<Raw>, k: nat): nat
  {
    if |s| == 0 then 0
    else CountAt(s[..|s| - 1], k) + (if s[|s| - 1].tick == k then 1 else 0)
  }

  /** The events of `s` in arrival order, each numbered by how many earlier
      events share its tick: what InsertEvent stores for them. */
  function Stamped(s: seq<Raw>): seq<Event>
  {
    if |s| == 0 then []
    else
      var x := s[|s| - 1];
      Stamped(s[..|s| - 1]) + [Event(x.tick, CountAt(s[..|s| - 1], x.tick), x.kind)]
  }

  /** The events of `es` whose tick is in `ks`, in their order in `es`. */
  function AtTicks(es: seq<Event>, ks: set<nat>): seq<Event>
  {
    if |es| == 0 then []
    else AtTicks(es[..|es| - 1], ks) + (if es[|es| - 1].tick in ks then [es[|es| - 1]] else [])
  }

  function Ticks(s: seq<Raw>): set<nat>
  {
    set i | 0 <= i < |s| :: s[i].tick
  }

  lemma {:induction false} StampedShape(s: seq<Raw>)
    ensures |Stamped(s)| == |s|
    ensures forall i :: 0 <= i < |s| ==> Stamped(s)[i].tick == s[i].tick && Stamped(s)[i].kind == s[i].kind
  {
    if |s| > 0 { StampedShape(s[..|s| - 1]); }
  }

  /** The bucket of tick `k` numbers its events 0, 1, 2, ... in arrival order. */
  lemma {:induction false} BucketNumbering(s: seq<Raw>, k: nat)
    ensures |AtTicks(Stamped(s), {k})| == CountAt(s, k)
    ensures forall i :: 0 <= i < CountAt(s, k) ==>
      AtTicks(Stamped(s), {k})[i].tick == k && AtTicks(Stamped(s), {k})[i].order == i
  {
    if |s| > 0 {
      var init := s[..|s| - 1];
      BucketNumbering(init, k);
      StampedShape(s);
      assert Stamped(s)[..|s| - 1] == Stamped(init);
    }
  }

  lemma {:induction false} CountAbsent(s: seq<Raw>, k: nat)
    requires k !in Ticks(s)
    ensures CountAt(s, k) == 0
  {
    if |s| > 0 {
      var init := s[..|s| - 1];
      assert Ticks(init) <= Ticks(s) by {
        forall t | t in Ticks(init) ensures t in Ticks(s) {
          var i :| 0 <= i < |init| && init[i].tick == t;
          assert s[i].tick == t;
        }
      }
      CountAbsent(init, k);
    }
  }

  /** Taking the events of one more tick adds exactly that tick's bucket. */
  lemma {:induction false} AtTicksAdd(es: seq<Event>, ks: set<nat>, k: nat)
    requires k !in ks
    ensures multiset(AtTicks(es, ks + {k})) == multiset(AtTicks(es, ks)) + multiset(AtTicks(es, {k}))
  {
    if |es| > 0 { AtTicksAdd(es[..|es| - 1], ks, k); }
  }

  lemma {:induction false} AtTicksAll(es: seq<Event>, ks: set<nat>)
    requires forall i :: 0 <= i < |es| ==> es[i].tick in ks
    ensures AtTicks(es, ks) == es
  {
    if |es| > 0 { AtTicksAll(es[..|es| - 1], ks); }
  }

  lemma {:induction false} AtTicksNone(es: seq<Event>)
    ensures AtTicks(es, {}) == []
  {
    if |es| > 0 { AtTicksNone(es[..|es| - 1]); }
  }

  lemma {:induction false} AtTicksOf(es: seq<Event>, ks: set<nat>)
    ensures forall i :: 0 <= i < |AtTicks(es, ks)| ==> AtTicks(es, ks)[i].tick in ks
  {
    if |es| > 0 { AtTicksOf(es[..|es| - 1], ks); }
  }

  /** The bucket of a tick after one more event arrives: it grows by that
      event, numbered by the bucket's old size, when the event is at that
      tick, and is unchanged otherwise. */
  lemma BucketAfter(s: seq<Raw>, e: Raw, k: nat)
    ensures AtTicks(Stamped(s + [e]), {k}) ==
      AtTicks(Stamped(s), {k}) + (if e.tick == k then [Event(k, CountAt(s, k), e.kind)] else [])
  {
    assert (s + [e])[..|s|] == s;
  }

  /** The bucket map `b` is what InsertEvent builds from the events `s`:
      its keys are their ticks and bucket `k` holds the events at tick `k`,
      numbered in arrival order. */
  ghost predicate TableOf(b: map<nat, seq<Event>>, s: seq<Raw>)
  {
    && (forall i :: 0 <= i < |s| ==> s[i].tick < Two32)
    && b.Keys == Ticks(s)
    && forall k {:trigger b[k]} :: k in b ==> b[k] == AtTicks(Stamped(s), {k})
  }

  /** The map update of InsertEvent. */
  function Inserted(b: map<nat, seq<Event>>, e: Raw): map<nat, seq<Event>>
  {
    var bucket := if e.tick in b then b[e.tick] else [];
    b[e.tick := bucket + [Event(e.tick, |bucket|, e.kind)]]
  }

  lemma TicksSnoc(s: seq<Raw>, e: Raw)
    ensures Ticks(s + [e]) == Ticks(s) + {e.tick}
  {
    var t := s + [e];
    forall x | x in Ticks(t) ensures x in Ticks(s) + {e.tick} {
      var i :| 0 <= i < |t| && t[i].tick == x;
      if i < |s| { assert s[i].tick == x; }
    }
    forall x | x in Ticks(s) ensures x in Ticks(t) {
      var i :| 0 <= i < |s| && s[i].tick == x;
      assert t[i].tick == x;
    }
    assert t[|s|].tick == e.tick;
  }

  /** Inserting an event keeps the map equal to the bucketing of all events
      inserted so far. */
  lemma InsertedTable(b: map<nat, seq<Event>>, s: seq<Raw>, e: Raw)
    requires TableOf(b, s) && e.tick < Two32
    ensures TableOf(Inserted(b, e), s + [e])
  {
    var b' := Inserted(b, e);
    BucketNumbering(s, e.tick);
    if e.tick !in b { CountAbsent(s, e.tick); }
    forall k | k in b'
      ensures b'[k] == AtTicks(Stamped(s + [e]), {k})
    {
      BucketAfter(s, e, k);
    }
    TicksSnoc(s, e);
    assert forall i :: 0 <= i < |s + [e]| ==> (s + [e])[i].tick < Two32 by {
      forall i | 0 <= i < |s + [e]| ensures (s + [e])[i].tick < Two32 {
        if i < |s| { assert (s + [e])[i] == s[i]; }
      }
    }
  }

  /** Every tick of `s` fits the 32-bit tick of an extracted event. */
  predicate Bounded(s: seq<Raw>)
  {
    forall i :: 0 <= i < |s| ==> s[i].tick < Two32
  }

  /** The map after InsertEvent has been applied to the events `s` in order. */
  function Bucketed(s: seq<Raw>): map<nat, seq<Event>>
  {
    if |s| == 0 then map[] else Inserted(Bucketed(s[..|s| - 1]), s[|s| - 1])
  }

  /** One more event is one more InsertEvent on the map. */
  lemma BucketedSnoc(s: seq<Raw>, e: Raw)
    requires Bounded(s) && e.tick < Two32
    ensures Bucketed(s + [e]) == Inserted(Bucketed(s), e) && Bounded(s + [e])
  {
    assert (s + [e])[..|s|] == s;
    forall i | 0 <= i < |s + [e]| ensures (s + [e])[i].tick < Two32 {
      if i < |s| { assert (s + [e])[i] == s[i]; }
    }
  }

  /** Inserting events one by one builds their bucketing: the keys are
      their ticks and each bucket holds its tick's events numbered in
      arrival order. */
  lemma {:induction false} BucketedTable(s: seq<Raw>)
    requires Bounded(s)
    ensures TableOf(Bucketed(s), s)
  {
    if |s| > 0 {
      var init := s[..|s| - 1];
      BucketedTable(init);
      InsertedTable(Bucketed(init), init, s[|s| - 1]);
      assert init + [s[|s| - 1]] == s;
    }
  }

  /** A bucket of the table: the events at its tick, numbered 0, 1, ... */
  lemma BucketOf(b: map<nat, seq<Event>>, s: seq<Raw>, k: nat)
    requires TableOf(b, s) && k in b
    ensures k < Two32 && b[k] == AtTicks(Stamped(s), {k})
    ensures forall i :: 0 <= i < |b[k]| ==> b[k][i].tick == k && b[k][i].order == i
  {
    assert k in Ticks(s);
    var i :| 0 <= i < |s| && s[i].tick == k;
    BucketNumbering(s, k);
  }

  /** Every stored event is in some bucket. */
  lemma AllBuckets(b: map<nat, seq<Event>>, s: seq<Raw>)
    requires TableOf(b, s)
    ensures AtTicks(Stamped(s), b.Keys) == Stamped(s)
  {
    StampedShape(s);
    forall i | 0 <= i < |s| ensures Stamped(s)[i].tick in b.Keys {
      assert s[i].tick in Ticks(s);
    }
    AtTicksAll(Stamped(s), b.Keys);
  }

  /** Once every bucket is visited the list holds each stored event once,
      and the extremes are those of the whole table. */
  lemma Drained(b: map<nat, seq<Event>>, s: seq<Raw>, list: seq<Event>, lowest: nat, highest: nat)
    requires TableOf(b, s) && DrainedSoFar(Stamped(s), b.Keys, list, lowest, highest)
    ensures multiset(list) == multiset(Stamped(s))
    ensures DistinctKeys(list)
    ensures b == map[] ==> lowest == 0xFFFF_FFFF && highest == 0
    ensures b != map[] ==> lowest in b && highest in b
    ensures forall k :: k in b ==> lowest <= k <= highest
  {
    AllBuckets(b, s);
    if b != map[] {
      var k :| k in b;
      assert k in b.Keys;
    }
  }

  /** `lowest` and `highest` are the smallest and largest of `done`, or
      0xFFFFFFFF and 0 while `done` is empty. */
  ghost predicate Extremes(done: set<nat>, lowest: nat, highest: nat)
  {
    && (done == {} ==> lowest == 0xFFFF_FFFF && highest == 0)
    && (done != {} ==> lowest in done && highest in done)
    && forall k :: k in done ==> lowest <= k <= highest
  }

  lemma ExtremesStep(done: set<nat>, lowest: nat, highest: nat, k: nat)
    requires Extremes(done, lowest, highest) && k < Two32
    ensures Extremes(done + {k}, if k < lowest then k else lowest, if k > highest then k else highest)
  {
  }

  /** The drain loop after visiting the ticks `done`: `list` holds their
      events once each, no two with the same (tick, order), and `lowest`
      and `highest` are the extremes of `done`. */
  ghost predicate DrainedSoFar(all: seq<Event>, done: set<nat>, list: seq<Event>, lowest: nat, highest: nat)
  {
    && multiset(list) == multiset(AtTicks(all, done))
    && DistinctKeys(list)
    && (forall i :: 0 <= i < |list| ==> list[i].tick in done)
    && Extremes(done, lowest, highest)
  }

  /** One visit of the drain loop: the smallest tick `k` not yet visited
      is taken and its bucket drained. */
  method DrainStep(ghost arrived: seq<Raw>, buckets: map<nat, seq<Event>>, done: set<nat>,
                   list: seq<Event>, lowest: nat, highest: nat)
    returns (k: nat, list': seq<Event>, lowest': nat, highest': nat)
    requires TableOf(buckets, arrived) && done <= buckets.Keys && done != buckets.Keys
    requires DrainedSoFar(Stamped(arrived), done, list, lowest, highest)
    ensures IsLeast(k, buckets.Keys - done)
    ensures |buckets.Keys - (done + {k})| < |buckets.Keys - done|
    ensures DrainedSoFar(Stamped(arrived), done + {k}, list', lowest', highest')
  {
    k := Smallest(buckets.Keys - done);
    Shrinks(buckets.Keys, done, k);
    list', lowest', highest' := Visit(arrived, buckets, done, list, lowest, highest, k);
  }

  lemma Shrinks(keys: set<nat>, done: set<nat>, k: nat)
    requires k in keys && k !in done
    ensures |keys - (done + {k})| < |keys - done|
  {
    var rest := keys - (done + {k});
    assert keys - done == rest + {k};
    assert |rest + {k}| == |rest| + 1;
  }

  /** The visit of tick `k`: its bucket is appended from its back and the
      smallest and largest tick are updated. */
  method Visit(ghost arrived: seq<Raw>, buckets: map<nat, seq<Event>>, ghost done: set<nat>,
               list: seq<Event>, lowest: nat, highest: nat, k: nat)
    returns (list': seq<Event>, lowest': nat, highest': nat)
    requires TableOf(buckets, arrived) && k in buckets && k !in done
    requires DrainedSoFar(Stamped(arrived), done, list, lowest, highest)
    ensures DrainedSoFar(Stamped(arrived), done + {k}, list', lowest', highest')
  {
    BucketOf(buckets, arrived, k);
    lowest' := if k < lowest then k else lowest;
    highest' := if k > highest then k else highest;
    list' := Drain(list, buckets[k]);
    DrainedBucket(Stamped(arrived), done, list, lowest, highest, k, buckets[k], list');
  }

  /** The drain invariant after bucket `k`, holding the events at `k`
      numbered 0, 1, ..., is appended from its back. */
  lemma DrainedBucket(all: seq<Event>, done: set<nat>, list: seq<Event>, lowest: nat, highest: nat,
                      k: nat, b: seq<Event>, r: seq<Event>)
    requires DrainedSoFar(all, done, list, lowest, highest) && k !in done && k < Two32
    requires b == AtTicks(all, {k}) && forall i :: 0 <= i < |b| ==> b[i].tick == k && b[i].order == i
    requires |r| == |list| + |b| && r[..|list|] == list
    requires forall m :: |list| <= m < |r| ==> r[m] == b[|list| + |b| - 1 - m]
    requires multiset(r) == multiset(list) + multiset(b)
    ensures DrainedSoFar(all, done + {k}, r, if k < lowest then k else lowest, if k > highest then k else highest)
  {
    ExtremesStep(done, lowest, highest, k);
    DrainedDistinct(list, b, r, done, k);
    AtTicksAdd(all, done, k);
  }

  /** The tick-indexed map of InsertEvent, with `arrived`, every event
      inserted so far in order. */
  class EventTable {
    var buckets: map<nat, seq<Event>>
    ghost var arrived: seq<Raw>

    ghost predicate Valid()
      reads this
    {
      buckets == Bucketed(arrived) && Bounded(arrived)
    }

    constructor ()
      ensures Valid() && arrived == [] && buckets == map[]
    {
      buckets := map[];
      arrived := [];
    }

    /** InsertEvent: the event's order becomes the number of events already
        at its tick, and it is appended to that tick's bucket; every other
        bucket is unchanged. */
    method Insert(e: Raw)
      requires Valid() && e.tick < Two32
      modifies this
      ensures Valid() && arrived == old(arrived) + [e]
      ensures buckets == Inserted(old(buckets), e)
    {
      ghost var next := Inserted(buckets, e);
      if e.tick in buckets {
        var list := buckets[e.tick];
        buckets := buckets[e.tick := list + [Event(e.tick, |list|, e.kind)]];
      } else {
        assert [] + [Event(e.tick, 0, e.kind)] == [Event(e.tick, 0, e.kind)];
        buckets := buckets[e.tick := [Event(e.tick, 0, e.kind)]];
      }
      assert buckets == next;
      BucketedSnoc(arrived, e);
      arrived := arrived + [e];
    }

    /** The drain loop: buckets are visited in ascending tick order and each
        is appended from its back. The result holds every stored event once,
        with no two sharing (tick, order); `lowest` and `highest` are the
        smallest and largest tick, or 0xFFFFFFFF and 0 when nothing was
        stored. */
    method Merge() returns (list: seq<Event>, lowest: nat, highest: nat)
      requires Valid()
      ensures multiset(list) == multiset(Stamped(arrived))
      ensures DistinctKeys(list)
      ensures buckets == map[] ==> lowest == 0xFFFF_FFFF && highest == 0
      ensures buckets != map[] ==> lowest in buckets && highest in buckets
      ensures forall k :: k in buckets ==> lowest <= k <= highest
    {
      BucketedTable(arrived);
      list, lowest, highest := DrainAll(buckets, arrived);
    }
  }

  /** The drain loop of MergeEvents: every bucket is visited once, from the
      smallest tick up, and appended from its back. */
  method DrainAll(buckets: map<nat, seq<Event>>, ghost arrived: seq<Raw>) returns (list: seq<Event>, lowest: nat, highest: nat)
    requires TableOf(buckets, arrived)
    ensures multiset(list) == multiset(Stamped(arrived))
    ensures DistinctKeys(list)
    ensures buckets == map[] ==> lowest == 0xFFFF_FFFF && highest == 0
    ensures buckets != map[] ==> lowest in buckets && highest in buckets
    ensures forall k :: k in buckets ==> lowest <= k <= highest
  {
    ghost var all := Stamped(arrived);
    list, lowest, highest := [], 0xFFFF_FFFF, 0;
    AtTicksNone(all);
    var done: set<nat> := {};
    while done != buckets.Keys
      invariant done <= buckets.Keys
      invariant DrainedSoFar(all, done, list, lowest, highest)
      decreases |buckets.Keys - done|
    {
      var k;
      k, list, lowest, highest := DrainStep(arrived, buckets, done, list, lowest, highest);
      done := done + {k};
    }
    Drained(buckets, arrived, list, lowest, highest);
  }

  /** No two events of `s` share both tick and order. */
  predicate DistinctKeys(s: seq<Event>)
  {
    forall i, j :: 0 <= i < j < |s| ==> s[i].tick != s[j].tick || s[i].order != s[j].order
  }

  predicate IsLeast(m: nat, ks: set<nat>)
  {
    m in ks && forall j :: j in ks ==> m <= j
  }

  lemma {:induction false} SetMin(ks: set<nat>)
    requires ks != {}
    ensures exists m :: IsLeast(m, ks)
    decreases |ks|
  {
    var x :| x in ks;
    var rest := ks - {x};
    if rest == {} {
      assert ks == {x};
      assert IsLeast(x, ks);
    } else {
      SetMin(rest);
      var m :| IsLeast(m, rest);
      var least := if x < m then x else m;
      forall j | j in ks ensures least <= j {
        if j != x { assert j in rest; }
      }
      assert IsLeast(least, ks);
    }
  }

  /** The smallest key not yet visited: the next step of an in-order walk
      over a std::map. */
  method Smallest(ks: set<nat>) returns (m: nat)
    requires ks != {}
    ensures m in ks && forall j :: j in ks ==> m <= j
  {
    SetMin(ks);
    m :| IsLeast(m, ks);
  }

  /** Appends bucket `b` to `list` from its back, as the push_back/pop_back
      drain does; the appended part is `b` reversed. */
  method Drain(list: seq<Event>, b: seq<Event>) returns (r: seq<Event>)
    ensures |r| == |list| + |b| && r[..|list|] == list
    ensures forall m :: |list| <= m < |r| ==> r[m] == b[|list| + |b| - 1 - m]
    ensures multiset(r) == multiset(list) + multiset(b)
  {
    r := list;
    var n := |b|;
    while n > 0
      invariant 0 <= n <= |b|
      invariant |r| == |list| + |b| - n && r[..|list|] == list
      invariant forall m :: |list| <= m < |r| ==> r[m] == b[|list| + |b| - 1 - m]
      invariant multiset(r) == multiset(list) + multiset(b[n..])
    {
      assert b[n - 1..] == [b[n - 1]] + b[n..];
      r := r + [b[n - 1]];
      n := n - 1;
    }
  }

  /** Two events from different ticks, or at different places of one
      numbered bucket, have different keys. */
  lemma DrainedDistinct(list: seq<Event>, b: seq<Event>, r: seq<Event>, done: set<nat>, k: nat)
    requires DistinctKeys(list) && k !in done
    requires forall i :: 0 <= i < |list| ==> list[i].tick in done
    requires forall i :: 0 <= i < |b| ==> b[i].tick == k && b[i].order == i
    requires |r| == |list| + |b| && r[..|list|] == list
    requires forall m :: |list| <= m < |r| ==> r[m] == b[|list| + |b| - 1 - m]
    ensures DistinctKeys(r)
    ensures forall i :: 0 <= i < |r| ==> r[i].tick in done + {k}
  {
    forall i | 0 <= i < |r| ensures r[i].tick in done + {k} {
      if i < |list| { assert r[i] == r[..|list|][i]; }
      else { assert r[i] == b[|list| + |b| - 1 - i]; }
    }
    forall i, j | 0 <= i < j < |r| ensures r[i].tick != r[j].tick || r[i].order != r[j].order {
      if j < |list| {
        assert r[i] == r[..|list|][i] && r[j] == r[..|list|][j];
      } else if i < |list| {
        assert r[i] == r[..|list|][i];
        assert r[j] == b[|list| + |b| - 1 - j];
      } else {
        assert r[i] == b[|list| + |b| - 1 - i];
        assert r[j] == b[|list| + |b| - 1 - j];
      }
    }
  }

  /** `x` placed into the strictly sorted `s` just before the first event
      it is Less than. */
  function InsertSorted(s: seq<Event>, x: Event): (r: seq<Event>)
    requires StrictlySorted(s)
    requires forall i :: 0 <= i < |s| ==> s[i].tick != x.tick || s[i].order != x.order
    ensures StrictlySorted(r) && multiset(r) == multiset(s) + multiset{x}
  {
    if |s| == 0 then [x]
    else if Less(x, s[0]) then [x] + s
    else
      var rest := InsertSorted(s[1..], x);
      FirstBelowRest(s, x, rest);
      [s[0]] + rest
  }

  /** The head of a strictly sorted list, not above `x`, stays below every
      event of the rest with `x` inserted. */
  lemma FirstBelowRest(s: seq<Event>, x: Event, rest: seq<Event>)
    requires |s| > 0 && StrictlySorted(s) && !Less(x, s[0])
    requires s[0].tick != x.tick || s[0].order != x.order
    requires StrictlySorted(rest) && multiset(rest) == multiset(s[1..]) + multiset{x}
    ensures StrictlySorted([s[0]] + rest) && multiset([s[0]] + rest) == multiset(s) + multiset{x}
  {
    forall j | 0 <= j < |rest| ensures Less(s[0], rest[j]) {
      assert rest[j] in multiset(rest);
      if rest[j] != x {
        assert rest[j] in multiset(s[1..]);
        var m :| 0 <= m < |s[1..]| && s[1..][m] == rest[j];
        assert s[m + 1] == rest[j];
      }
    }
    assert s == [s[0]] + s[1..];
  }

  /** The std::sort of the merged list under EventInformation::operator<:
      the result is strictly increasing in (tick, order) and holds the same
      events. */
  method SortEvents(list: seq<Event>) returns (r: seq<Event>)
    requires DistinctKeys(list)
    ensures StrictlySorted(r) && multiset(r) == multiset(list)
  {
    r := [];
    var i := 0;
    while i < |list|
      invariant 0 <= i <= |list|
      invariant StrictlySorted(r) && multiset(r) == multiset(list[..i])
    {
      forall j | 0 <= j < |r| ensures r[j].tick != list[i].tick || r[j].order != list[i].order {
        assert r[j] in multiset(list[..i]);
        var m :| 0 <= m < i && list[..i][m] == r[j];
      }
      assert list[..i + 1] == list[..i] + [list[i]];
      r := InsertSorted(r, list[i]);
      i := i + 1;
    }
    assert list[..i] == list;
  }

  /** Each stored event's order is below the number of events at its tick. */
  lemma {:induction false} StampedOrderBound(s: seq<Raw>)
    ensures forall i :: 0 <= i < |Stamped(s)| ==> Stamped(s)[i].order < CountAt(s, Stamped(s)[i].tick)
  {
    if |s| > 0 {
      StampedOrderBound(s[..|s| - 1]);
    }
  }

  /** Orders within one tick are distinct, so no two stored events share
      (tick, order). */
  lemma {:induction false} StampedDistinct(s: seq<Raw>)
    ensures DistinctKeys(Stamped(s))
  {
    if |s| > 0 {
      var init := s[..|s| - 1];
      StampedDistinct(init);
      StampedOrderBound(init);
      var st := Stamped(s);
      assert st[..|s| - 1] == Stamped(init) by { StampedShape(s); StampedShape(init); }
      forall i, j | 0 <= i < j < |st| ensures st[i].tick != st[j].tick || st[i].order != st[j].order {
        assert st[i] == Stamped(init)[i];
        if j < |s| - 1 { assert st[j] == Stamped(init)[j]; }
      }
    }
  }

  /** Less is a strict order: no two events are each Less than the other. */
  lemma LessAsymmetric(a: Event, b: Event)
    ensures !(Less(a, b) && Less(b, a))
  {
  }

  /** A strictly sorted arrangement of given events is unique: sorting by
      (tick, order) leaves no freedom, whatever order the events came in. */
  lemma {:induction false} SortedUnique(a: seq<Event>, b: seq<Event>)
    requires StrictlySorted(a) && StrictlySorted(b) && multiset(a) == multiset(b)
    ensures a == b
    decreases |a|
  {
    if |a| == 0 {
      assert |b| == |multiset(b)| == 0;
    } else {
      SameHead(a, b);
      SameTail(a, b);
      SortedUnique(a[1..], b[1..]);
      assert a == [a[0]] + a[1..] && b == [b[0]] + b[1..];
    }
  }

  /** Two strictly sorted lists of the same events start with the same
      event: each head is in the other list, and neither can come first
      there unless it is that list's head. */
  lemma SameHead(a: seq<Event>, b: seq<Event>)
    requires StrictlySorted(a) && StrictlySorted(b) && multiset(a) == multiset(b) && |a| > 0
    ensures |b| > 0 && a[0] == b[0]
  {
    assert |b| == |multiset(b)| == |a|;
    assert a[0] in multiset(b);
    var j :| 0 <= j < |b| && b[j] == a[0];
    assert b[0] in multiset(a);
    var i :| 0 <= i < |a| && a[i] == b[0];
    if i > 0 && j > 0 {
      LessAsymmetric(a[0], b[0]);
    }
  }

  /** Removing the same head from two lists of the same events leaves two
      lists of the same events. */
  lemma SameTail(a: seq<Event>, b: seq<Event>)
    requires multiset(a) == multiset(b) && |a| > 0 && |b| > 0 && a[0] == b[0]
    ensures multiset(a[1..]) == multiset(b[1..])
  {
    assert a == [a[0]] + a[1..] && b == [b[0]] + b[1..];
    assert multiset(a) == multiset([a[0]]) + multiset(a[1..]);
    assert multiset(b) == multiset([b[0]]) + multiset(b[1..]);
    assert multiset(a[1..]) == multiset(a) - multiset([a[0]]);
    assert multiset(b[1..]) == multiset(b) - multiset([b[0]]);
  }

  /** The events of `es` in increasing (tick, order): the list every
      correct sort of them produces. */
  function Sequenced(es: seq<Event>): (r: seq<Event>)
    requires DistinctKeys(es)
    ensures StrictlySorted(r) && multiset(r) == multiset(es)
  {
    if |es| == 0 then []
    else
      var init := es[..|es| - 1];
      var x := es[|es| - 1];
      var sorted := Sequenced(init);
      LastKeyFresh(es, sorted);
      assert es == init + [x];
      InsertSorted(sorted, x)
  }

  /** No arrangement of the events before the last one holds the last
      one's key. */
  lemma LastKeyFresh(es: seq<Event>, sorted: seq<Event>)
    requires DistinctKeys(es) && |es| > 0 && multiset(sorted) == multiset(es[..|es| - 1])
    ensures forall j :: 0 <= j < |sorted| ==> sorted[j].tick != es[|es| - 1].tick || sorted[j].order != es[|es| - 1].order
  {
    var init := es[..|es| - 1];
    forall j | 0 <= j < |sorted| ensures sorted[j].tick != es[|es| - 1].tick || sorted[j].order != es[|es| - 1].order {
      assert sorted[j] in multiset(init);
      var m :| 0 <= m < |init| && init[m] == sorted[j];
      assert es[m] == sorted[j];
    }
  }
}
