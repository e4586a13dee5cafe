/** The cache of packet identifiers already seen (model/aodv-id-cache.h and model/aodv-id-cache.cc). */
module IdCaches {
  import opened Types
  import opened Lists

  datatype Key = Key(context: Address, id: U32)

  datatype UniqueId = UniqueId(key: Key, expire: Time)

  function Kept(now: Time): UniqueId -> bool {
    (u: UniqueId) => !(u.expire < now)
  }

  predicate Seen(cache: seq<UniqueId>, key: Key) {
    exists i :: 0 <= i < |cache| && cache[i].key == key
  }

  // ---------- the cache ----------

  class IdCache {
    var cache: seq<UniqueId>
    var lifetime: Time

    constructor (lifetime: Time)
      ensures cache == [] && this.lifetime == lifetime
    {
      cache, this.lifetime := [], lifetime;
    }

    function State(): CacheState
      reads this
    {
      CacheState(cache, lifetime)
    }

    method Purge(now: Time)
      modifies this`cache
      ensures cache == Filter(old(cache), Kept(now))
    {
      var kept: seq<UniqueId> := [];
      var k := 0;
      while k < |cache|
        invariant 0 <= k <= |cache| && cache == old(cache)
        invariant kept == Filter(cache[..k], Kept(now))
      {
        FilterStep(cache, k, Kept(now));
        if !(cache[k].expire < now) {
          kept := kept + [cache[k]];
        }
        k := k + 1;
      }
      assert cache[..k] == cache;
      cache := kept;
    }

    method IsDuplicate(addr: Address, id: U32, now: Time) returns (duplicate: bool)
      modifies this`cache
      ensures State() == Checked(old(State()), Key(addr, id), now)
      ensures duplicate == Answer(old(State()), Key(addr, id), now)
    {
      Purge(now);
      var k := 0;
      while k < |cache|
        invariant 0 <= k <= |cache|
        invariant forall j :: 0 <= j < k ==> cache[j].key != Key(addr, id)
      {
        if cache[k].key.context == addr && cache[k].key.id == id {
          return true;
        }
        k := k + 1;
      }
      cache := cache + [UniqueId(Key(addr, id), lifetime + now)];
      return false;
    }

    method GetSize(now: Time) returns (size: nat)
      modifies this`cache
      ensures cache == Filter(old(cache), Kept(now)) && size == |cache|
    {
      Purge(now);
      size := |cache|;
    }

    method SetLifetime(lifetime: Time)
      modifies this`lifetime
      ensures this.lifetime == lifetime
    {
      this.lifetime := lifetime;
    }
  }

  // ---------- runs of the cache ----------

  datatype CacheState = CacheState(cache: seq<UniqueId>, lifetime: Time)

  function Answer(s: CacheState, key: Key, now: Time): bool {
    Seen(Filter(s.cache, Kept(now)), key)
  }

  function Checked(s: CacheState, key: Key, now: Time): CacheState {
    var kept := Filter(s.cache, Kept(now));
    if Seen(kept, key) then s.(cache := kept) else s.(cache := kept + [UniqueId(key, s.lifetime + now)])
  }

  datatype CacheOp = CheckOp(key: Key) | SizeOp | SetLifetimeOp(lifetime: Time)

  datatype CacheEvent = CacheEvent(at: Time, op: CacheOp)

  function Apply(s: CacheState, e: CacheEvent): CacheState {
    match e.op
    case CheckOp(key) => Checked(s, key, e.at)
    case SizeOp => s.(cache := Filter(s.cache, Kept(e.at)))
    case SetLifetimeOp(lifetime) => s.(lifetime := lifetime)
  }

  function Run(s: CacheState, events: seq<CacheEvent>): CacheState
    decreases |events|
  {
    if events == [] then s else Run(Apply(s, events[0]), events[1..])
  }

  // What the calls of IsDuplicate in a run answer, in order.
  function Answers(s: CacheState, events: seq<CacheEvent>): seq<bool>
    decreases |events|
  {
    if events == [] then [] else
      (if events[0].op.CheckOp? then [Answer(s, events[0].op.key, events[0].at)] else [])
      + Answers(Apply(s, events[0]), events[1..])
  }

  // ---------- the reference: a map from keys to the end of their window ----------

  // until[key] is t0 + L for the latest accepting call for the key, made at t0 when the lifetime was L.
  datatype Windows = Windows(until: map<Key, Time>, lifetime: Time)

  predicate InWindow(m: Windows, key: Key, now: Time) {
    key in m.until && now <= m.until[key]
  }

  function ApplyToWindows(m: Windows, e: CacheEvent): Windows {
    match e.op
    case CheckOp(key) => if InWindow(m, key, e.at) then m else m.(until := m.until[key := m.lifetime + e.at])
    case SizeOp => m
    case SetLifetimeOp(lifetime) => m.(lifetime := lifetime)
  }

  function WindowAnswers(m: Windows, events: seq<CacheEvent>): seq<bool>
    decreases |events|
  {
    if events == [] then [] else
      (if events[0].op.CheckOp? then [InWindow(m, events[0].op.key, events[0].at)] else [])
      + WindowAnswers(ApplyToWindows(m, events[0]), events[1..])
  }

  ghost predicate InOrder(events: seq<CacheEvent>, from: Time)
    decreases |events|
  {
    events == [] || (from <= events[0].at && InOrder(events[1..], events[0].at))
  }

  ghost predicate DistinctKeys(cache: seq<UniqueId>) {
    forall i, j :: 0 <= i < j < |cache| ==> cache[i].key != cache[j].key
  }

  // The cache holds every key whose window is still open, and nothing that contradicts the windows.
  ghost predicate Represents(s: CacheState, m: Windows, last: Time) {
    && s.lifetime == m.lifetime
    && DistinctKeys(s.cache)
    && (forall u :: u in s.cache ==> u.key in m.until && u.expire == m.until[u.key])
    && (forall key :: InWindow(m, key, last) ==> UniqueId(key, m.until[key]) in s.cache)
  }

  lemma {:induction false} FilterKeepsDistinctKeys(cache: seq<UniqueId>, p: UniqueId -> bool)
    requires DistinctKeys(cache)
    ensures DistinctKeys(Filter(cache, p))
  {
    if cache != [] {
      FilterKeepsDistinctKeys(cache[1..], p);
      assert forall u :: u in cache[1..] ==> u.key != cache[0].key;
      assert forall u :: u in Filter(cache[1..], p) ==> u.key != cache[0].key;
    }
  }

  lemma SeenIffInWindow(s: CacheState, m: Windows, last: Time, key: Key, now: Time)
    requires Represents(s, m, last) && last <= now
    ensures Answer(s, key, now) <==> InWindow(m, key, now)
  {
    var kept := Filter(s.cache, Kept(now));
    if Seen(kept, key) {
      var i :| 0 <= i < |kept| && kept[i].key == key;
      assert kept[i] in kept;
    }
    if InWindow(m, key, now) {
      assert InWindow(m, key, last);
      assert UniqueId(key, m.until[key]) in kept;
    }
  }

  lemma PurgedRepresents(s: CacheState, m: Windows, last: Time, now: Time)
    requires Represents(s, m, last) && last <= now
    ensures Represents(s.(cache := Filter(s.cache, Kept(now))), m, now)
  {
    FilterKeepsDistinctKeys(s.cache, Kept(now));
    forall key | InWindow(m, key, now)
      ensures UniqueId(key, m.until[key]) in Filter(s.cache, Kept(now))
    {
      assert InWindow(m, key, last);
    }
  }

  lemma AcceptedRepresents(s: CacheState, m: Windows, key: Key, now: Time)
    requires Represents(s, m, now) && !Seen(s.cache, key)
    ensures Represents(s.(cache := s.cache + [UniqueId(key, s.lifetime + now)]),
                       m.(until := m.until[key := m.lifetime + now]), now)
  {
    var cache := s.cache + [UniqueId(key, s.lifetime + now)];
    var m' := m.(until := m.until[key := m.lifetime + now]);
    forall k | InWindow(m', k, now)
      ensures UniqueId(k, m'.until[k]) in cache
    {
      if k != key {
        assert InWindow(m, k, now);
        assert UniqueId(k, m.until[k]) in s.cache;
      } else {
        assert cache[|s.cache|] == UniqueId(k, m'.until[k]);
      }
    }
  }

  lemma ApplyRepresents(s: CacheState, m: Windows, last: Time, e: CacheEvent)
    requires Represents(s, m, last) && last <= e.at
    ensures Represents(Apply(s, e), ApplyToWindows(m, e), e.at)
  {
    hide Represents, Filter;
    PurgedRepresents(s, m, last, e.at);
    match e.op
    case CheckOp(key) =>
      SeenIffInWindow(s, m, last, key, e.at);
      LifetimesAgree(s, m, last);
      if !Answer(s, key, e.at) {
        AcceptedRepresents(s.(cache := Filter(s.cache, Kept(e.at))), m, key, e.at);
      }
    case SizeOp =>
    case SetLifetimeOp(lifetime) => SetLifetimeRepresents(s, m, last, lifetime, e.at);
  }

  lemma LifetimesAgree(s: CacheState, m: Windows, last: Time)
    requires Represents(s, m, last)
    ensures s.lifetime == m.lifetime
  {
  }

  lemma SetLifetimeRepresents(s: CacheState, m: Windows, last: Time, lifetime: Time, now: Time)
    requires Represents(s, m, last) && last <= now
    ensures Represents(s.(lifetime := lifetime), m.(lifetime := lifetime), now)
  {
    var m' := m.(lifetime := lifetime);
    forall key | InWindow(m', key, now)
      ensures UniqueId(key, m'.until[key]) in s.cache
    {
      assert InWindow(m, key, last);
    }
  }

  // Over any run at nondecreasing times, with lifetime changes in between, the cache answers as the
  // windows do, and its keys stay distinct.
  lemma {:induction false} CacheRefinesWindows(s: CacheState, m: Windows, last: Time, events: seq<CacheEvent>)
    requires Represents(s, m, last) && InOrder(events, last)
    ensures Answers(s, events) == WindowAnswers(m, events)
    ensures DistinctKeys(Run(s, events).cache)
    decreases |events|
  {
    if events != [] {
      var e := events[0];
      ApplyRepresents(s, m, last, e);
      if e.op.CheckOp? {
        SeenIffInWindow(s, m, last, e.op.key, e.at);
      }
      CacheRefinesWindows(Apply(s, e), ApplyToWindows(m, e), e.at, events[1..]);
    }
  }

  lemma FreshCacheRefinesWindows(lifetime: Time, start: Time, events: seq<CacheEvent>)
    requires InOrder(events, start)
    ensures Answers(CacheState([], lifetime), events) == WindowAnswers(Windows(map[], lifetime), events)
    ensures DistinctKeys(Run(CacheState([], lifetime), events).cache)
  {
    CacheRefinesWindows(CacheState([], lifetime), Windows(map[], lifetime), start, events);
  }

  // An accepted key is a duplicate at every later call until its window ends, whatever happens in between.
  lemma {:induction false} WindowStays(m: Windows, key: Key, end: Time, events: seq<CacheEvent>, i: nat)
    requires key in m.until && m.until[key] == end
    requires i < |events| && (forall j :: 0 <= j <= i ==> events[j].at <= end)
    ensures key in WindowsAt(m, events, i).until && WindowsAt(m, events, i).until[key] == end
    ensures InWindow(WindowsAt(m, events, i), key, events[i].at)
    decreases i
  {
    if i > 0 {
      assert events[0].at <= end;
      WindowStays(ApplyToWindows(m, events[0]), key, end, events[1..], i - 1);
    }
  }

  function WindowsAt(m: Windows, events: seq<CacheEvent>, i: nat): Windows
    requires i <= |events|
    decreases i
  {
    if i == 0 then m else WindowsAt(ApplyToWindows(m, events[0]), events[1..], i - 1)
  }

  lemma {:induction false} WindowsLater(m: Windows, events: seq<CacheEvent>, i: nat, j: nat)
    requires i <= j <= |events|
    ensures WindowsAt(m, events, j) == WindowsAt(WindowsAt(m, events, i), events[i..], j - i)
    decreases i
  {
    if i > 0 {
      WindowsLater(ApplyToWindows(m, events[0]), events[1..], i - 1, j - 1);
      assert events[1..][i - 1..] == events[i..];
    } else {
      assert events[0..] == events;
    }
  }

  lemma AcceptedWindow(m: Windows, events: seq<CacheEvent>, key: Key, i: nat, j: nat)
    requires i < j < |events| && events[i].op == CheckOp(key) && events[j].op == CheckOp(key)
    requires !InWindow(WindowsAt(m, events, i), key, events[i].at)
    requires forall n :: i < n <= j ==> events[n].at <= events[i].at + WindowsAt(m, events, i).lifetime
    ensures InWindow(WindowsAt(m, events, j), key, events[j].at)
  {
    var before := WindowsAt(m, events, i);
    var rest := events[i + 1..];
    WindowsLater(m, events, i, j);
    WindowsLater(m, events, i, i + 1);
    assert events[i..][0] == events[i] && events[i..][1..] == rest;
    var after := ApplyToWindows(before, events[i]);
    WindowStays(after, key, events[i].at + before.lifetime, rest, j - i - 1);
  }

  // ---------- the cache accepts a key once per window ----------

  // The cache as the i-th event finds it.
  function StateAt(s: CacheState, events: seq<CacheEvent>, i: nat): CacheState
    requires i <= |events|
    decreases i
  {
    if i == 0 then s else StateAt(Apply(s, events[0]), events[1..], i - 1)
  }

  // Whether the i-th event, a check of key, is answered with duplicate.
  function AnswerAt(s: CacheState, events: seq<CacheEvent>, key: Key, i: nat): bool
    requires i < |events|
  {
    Answer(StateAt(s, events, i), key, events[i].at)
  }

  lemma {:induction false} AnswersAsWindows(s: CacheState, m: Windows, last: Time, events: seq<CacheEvent>, key: Key,
                                            i: nat)
    requires Represents(s, m, last) && InOrder(events, last) && i < |events|
    ensures AnswerAt(s, events, key, i) <==> InWindow(WindowsAt(m, events, i), key, events[i].at)
    ensures StateAt(s, events, i).lifetime == WindowsAt(m, events, i).lifetime
    decreases i
  {
    if i == 0 {
      SeenIffInWindow(s, m, last, key, events[0].at);
    } else {
      ApplyRepresents(s, m, last, events[0]);
      AnswersAsWindows(Apply(s, events[0]), ApplyToWindows(m, events[0]), events[0].at, events[1..], key, i - 1);
    }
  }

  lemma {:induction false} LaterIsNotEarlier(events: seq<CacheEvent>, from: Time, i: nat, j: nat)
    requires InOrder(events, from) && i <= j < |events|
    ensures from <= events[i].at <= events[j].at
    decreases j
  {
    if i > 0 {
      LaterIsNotEarlier(events[1..], events[0].at, i - 1, j - 1);
    } else if j > 0 {
      LaterIsNotEarlier(events[1..], events[0].at, 0, j - 1);
    }
  }

  // In any run of a new cache, a key that has been accepted is a duplicate at every check until the lifetime set
  // at the acceptance is over, whatever is checked, counted or set in between.
  lemma AcceptedOncePerWindow(lifetime: Time, start: Time, events: seq<CacheEvent>, key: Key, i: nat, j: nat)
    requires InOrder(events, start) && i < j < |events|
    requires events[i].op == CheckOp(key) && events[j].op == CheckOp(key)
    requires var s := CacheState([], lifetime);
             !AnswerAt(s, events, key, i) && events[j].at <= events[i].at + StateAt(s, events, i).lifetime
    ensures AnswerAt(CacheState([], lifetime), events, key, j)
  {
    hide InOrder, WindowsAt, AnswerAt, StateAt, InWindow;
    var s, m := CacheState([], lifetime), Windows(map[], lifetime);
    NewRepresents(lifetime, start);
    AnswersAsWindows(s, m, start, events, key, i);
    AnswersAsWindows(s, m, start, events, key, j);
    forall n | i < n <= j
      ensures events[n].at <= events[i].at + WindowsAt(m, events, i).lifetime
    {
      LaterIsNotEarlier(events, start, n, j);
    }
    AcceptedWindow(m, events, key, i, j);
  }

  lemma NewRepresents(lifetime: Time, start: Time)
    ensures Represents(CacheState([], lifetime), Windows(map[], lifetime), start)
  {
    hide Filter;
  }
}
