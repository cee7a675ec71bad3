/// The fixed-window request limiter, and the sliding-log command budget of the
/// console gateway.
module RateLimit {
  import opened Prelude

  type Key = string

  const SWEEP_MS: int := 60_000

  datatype Config = Config(max: nat, windowMs: nat, maxKeys: nat)

  datatype Bucket = Bucket(count: nat, resetAt: int)

  datatype Decision = Decision(limited: bool, retryAfterSec: int)

  /** The table, with its keys in insertion order. */
  datatype Table = Table(keys: seq<Key>, buckets: map<Key, Bucket>, lastSweep: int)

  ghost predicate ValidTable(t: Table) {
    && (forall i, j | 0 <= i < j < |t.keys| :: t.keys[i] != t.keys[j])
    && (forall k :: k in t.keys <==> k in t.buckets)
  }

  function Get(t: Table, key: Key): Option<Bucket> {
    if key in t.buckets then Some(t.buckets[key]) else None
  }

  // ----- one key, never swept -----

  function CeilDiv(x: nat, d: nat): nat
    requires d > 0
  {
    (x + d - 1) / d
  }

  predicate IsOpen(b: Option<Bucket>, now: int) {
    b.Some? && now < b.value.resetAt
  }

  /** The bucket a call leaves. */
  function Counted(cfg: Config, b: Option<Bucket>, now: int): Bucket {
    if IsOpen(b, now) then Bucket(b.value.count + 1, b.value.resetAt) else Bucket(1, now + cfg.windowMs)
  }

  function Decide(cfg: Config, b: Option<Bucket>, now: int): Decision {
    if IsOpen(b, now) && b.value.count + 1 > cfg.max then
      var wait := CeilDiv(b.value.resetAt - now, 1000);
      Decision(true, if wait < 1 then 1 else wait)
    else Decision(false, 0)
  }

  // ----- the table -----

  /** The keys whose window is still open, in order. */
  function OpenKeys(keys: seq<Key>, buckets: map<Key, Bucket>, now: int): (r: seq<Key>)
    ensures forall k :: k in r <==> k in keys && k in buckets && now < buckets[k].resetAt
    ensures |r| <= |keys|
  {
    if keys == [] then []
    else
      var front := OpenKeys(Init(keys), buckets, now);
      assert keys == Init(keys) + [Last(keys)];
      if Last(keys) in buckets && now < buckets[Last(keys)].resetAt then front + [Last(keys)] else front
  }

  /** The buckets left when `kept` is decided on and `rest` is still to be looked at. */
  function Keeping(before: map<Key, Bucket>, kept: seq<Key>, rest: seq<Key>): map<Key, Bucket> {
    map k | k in before && (k in kept || k in rest) :: before[k]
  }

  function Swept(t: Table, now: int): Table {
    if now - t.lastSweep < SWEEP_MS then t
    else
      var keys := OpenKeys(t.keys, t.buckets, now);
      Table(keys, Keeping(t.buckets, keys, []), now)
  }

  function Evicted(t: Table): Table {
    if t.keys == [] then t else Table(t.keys[1..], t.buckets - {t.keys[0]}, t.lastSweep)
  }

  /** `Map.set`: an existing key keeps its place. */
  function Put(t: Table, key: Key, b: Bucket): Table {
    if key in t.buckets then t.(buckets := t.buckets[key := b])
    else t.(keys := t.keys + [key], buckets := t.buckets[key := b])
  }

  function Taken(cfg: Config, t: Table, key: Key, now: int): Table {
    var s := Swept(t, now);
    var room := if !IsOpen(Get(s, key), now) && |s.keys| >= cfg.maxKeys then Evicted(s) else s;
    Put(room, key, Counted(cfg, Get(s, key), now))
  }

  lemma {:induction false} OpenKeysDistinct(keys: seq<Key>, buckets: map<Key, Bucket>, now: int)
    requires forall i, j | 0 <= i < j < |keys| :: keys[i] != keys[j]
    ensures forall i, j | 0 <= i < j < |OpenKeys(keys, buckets, now)| ::
        OpenKeys(keys, buckets, now)[i] != OpenKeys(keys, buckets, now)[j]
  {
    if keys != [] {
      OpenKeysDistinct(Init(keys), buckets, now);
      var front := OpenKeys(Init(keys), buckets, now);
      assert Last(keys) !in Init(keys);
      assert Last(keys) !in front;
    }
  }

  lemma SweptIsValid(t: Table, now: int)
    requires ValidTable(t)
    ensures ValidTable(Swept(t, now))
  {
    OpenKeysDistinct(t.keys, t.buckets, now);
  }

  lemma TakenIsValid(cfg: Config, t: Table, key: Key, now: int)
    requires ValidTable(t)
    ensures ValidTable(Taken(cfg, t, key, now))
  {
    SweptIsValid(t, now);
    var s := Swept(t, now);
    if s.keys != [] {
      assert s.keys == [s.keys[0]] + s.keys[1..];
      assert ValidTable(Evicted(s));
    }
  }

  class RateLimiter {
    const cfg: Config
    var keys: seq<Key>
    var buckets: map<Key, Bucket>
    var lastSweep: int

    ghost predicate Valid()
      reads this
    {
      ValidTable(Current())
    }

    ghost function Current(): Table
      reads this
    {
      Table(keys, buckets, lastSweep)
    }

    constructor (max: nat, windowMs: nat, maxKeys: nat, now: int)
      ensures Valid() && Current() == Table([], map[], now) && cfg == Config(max, windowMs, maxKeys)
    {
      cfg := Config(max, windowMs, maxKeys);
      keys, buckets, lastSweep := [], map[], now;
    }

    method Take(key: Key, now: int) returns (d: Decision)
      requires Valid()
      modifies this
      ensures Valid() && Current() == Taken(cfg, old(Current()), key, now)
      ensures d == Decide(cfg, Get(Swept(old(Current()), now), key), now)
    {
      TakenIsValid(cfg, Current(), key, now);
      Sweep(now);
      d := Count(key, now);
    }

    /** The part of `take` behind the sweep. */
    method Count(key: Key, now: int) returns (d: Decision)
      modifies this`keys, this`buckets
      ensures var s := old(Current());
              && Current() == Put(if !IsOpen(Get(s, key), now) && |s.keys| >= cfg.maxKeys then Evicted(s) else s,
                                  key, Counted(cfg, Get(s, key), now))
              && d == Decide(cfg, Get(s, key), now)
    {
      if key !in buckets || now >= buckets[key].resetAt {
        if |keys| >= cfg.maxKeys {
          EvictOldest();
        }
        Set(key, Bucket(1, now + cfg.windowMs));
        return Decision(false, 0);
      }
      var existing := buckets[key];
      Set(key, Bucket(existing.count + 1, existing.resetAt));
      if existing.count + 1 > cfg.max {
        var wait := CeilDiv(existing.resetAt - now, 1000);
        return Decision(true, if wait < 1 then 1 else wait);
      }
      return Decision(false, 0);
    }

    method EvictOldest()
      modifies this`keys, this`buckets
      ensures Current() == Evicted(old(Current()))
    {
      if keys != [] {
        buckets := buckets - {keys[0]};
        keys := keys[1..];
      }
    }

    method Set(key: Key, b: Bucket)
      modifies this`keys, this`buckets
      ensures Current() == Put(old(Current()), key, b)
    {
      if key !in buckets {
        keys := keys + [key];
      }
      buckets := buckets[key := b];
    }

    method Sweep(now: int)
      requires Valid()
      modifies this
      ensures Current() == Swept(old(Current()), now)
    {
      if now - lastSweep < SWEEP_MS {
        return;
      }
      lastSweep := now;
      var kept: seq<Key> := [];
      var i := 0;
      ghost var before := buckets;
      KeepNothing(keys, before);
      while i < |keys|
        invariant 0 <= i <= |keys| && keys == old(keys) && lastSweep == now
        invariant kept == OpenKeys(keys[..i], before, now)
        invariant buckets == Keeping(before, kept, keys[i..])
      {
        SweepNext(keys, before, i, now);
        if now >= buckets[keys[i]].resetAt {
          buckets := buckets - {keys[i]};
        } else {
          kept := kept + [keys[i]];
        }
        i := i + 1;
      }
      assert keys[..i] == keys && keys[i..] == [];
      keys := kept;
    }
  }

  lemma KeepNothing(keys: seq<Key>, before: map<Key, Bucket>)
    requires forall k :: k in keys <==> k in before
    ensures Keeping(before, [], keys) == before
  {
  }

  lemma KeepNext(before: map<Key, Bucket>, kept: seq<Key>, k: Key, rest: seq<Key>)
    requires k in before && k !in kept && k !in rest
    ensures k in Keeping(before, kept, [k] + rest) && Keeping(before, kept, [k] + rest)[k] == before[k]
    ensures Keeping(before, kept, [k] + rest) - {k} == Keeping(before, kept, rest)
    ensures Keeping(before, kept, [k] + rest) == Keeping(before, kept + [k], rest)
  {
  }

  lemma {:induction false} SweepNext(keys: seq<Key>, before: map<Key, Bucket>, i: nat, now: int)
    requires i < |keys| && forall k | k in keys :: k in before
    requires forall m, n | 0 <= m < n < |keys| :: keys[m] != keys[n]
    ensures var k, kept := keys[i], OpenKeys(keys[..i], before, now);
            && k in Keeping(before, kept, keys[i..]) && Keeping(before, kept, keys[i..])[k] == before[k]
            && OpenKeys(keys[..i + 1], before, now) == (if now < before[k].resetAt then kept + [k] else kept)
            && Keeping(before, kept, keys[i..]) - {k} == Keeping(before, kept, keys[i + 1..])
            && Keeping(before, kept, keys[i..]) == Keeping(before, kept + [k], keys[i + 1..])
  {
    var k := keys[i];
    assert Init(keys[..i + 1]) == keys[..i];
    assert keys[i..] == [k] + keys[i + 1..];
    assert k !in keys[..i] && k !in keys[i + 1..];
    KeepNext(before, OpenKeys(keys[..i], before, now), k, keys[i + 1..]);
  }

  /** Once a minute the sweep leaves exactly the buckets whose window is still open, in their order; else all. */
  lemma {:induction false} SweptIff(t: Table, now: int)
    requires ValidTable(t)
    ensures var s := Swept(t, now);
            && (now - t.lastSweep < SWEEP_MS ==> s == t)
            && (now - t.lastSweep >= SWEEP_MS ==>
                  && s.lastSweep == now
                  && (forall k :: k in s.buckets <==> k in t.buckets && now < t.buckets[k].resetAt)
                  && (forall k | k in s.buckets :: s.buckets[k] == t.buckets[k])
                  && IsSubsequence(s.keys, t.keys))
  {
    OpenKeysAreInOrder(t.keys, t.buckets, now);
    SweptIsValid(t, now);
  }

  /** The first list comes out of the second by leaving some out. */
  predicate IsSubsequence(some: seq<Key>, all: seq<Key>) {
    if all == [] then some == []
    else
      || IsSubsequence(some, Init(all))
      || (some != [] && Last(some) == Last(all) && IsSubsequence(Init(some), Init(all)))
  }

  lemma {:induction false} OpenKeysAreInOrder(keys: seq<Key>, buckets: map<Key, Bucket>, now: int)
    ensures IsSubsequence(OpenKeys(keys, buckets, now), keys)
  {
    if keys != [] {
      OpenKeysAreInOrder(Init(keys), buckets, now);
      assert Init(OpenKeys(Init(keys), buckets, now) + [Last(keys)]) == OpenKeys(Init(keys), buckets, now);
    }
  }

  // ----- which bucket gives way -----

  /**
   * A call that needs a new bucket in a full table takes the place of the bucket stored
   * first, and of no other; with room, or with its window open, it takes nobody's.
   */
  lemma OldestGivesWay(cfg: Config, t: Table, key: Key, now: int)
    requires ValidTable(t) && t.keys != []
    ensures var s, after := Swept(t, now), Taken(cfg, t, key, now);
            var full := !IsOpen(Get(s, key), now) && |s.keys| >= cfg.maxKeys && s.keys != [];
            && (full ==> forall k | k in s.keys && k != s.keys[0] && k != key ::
                           k in after.buckets && after.buckets[k] == s.buckets[k])
            && (full && key != s.keys[0] ==> s.keys[0] !in after.buckets && after.keys[..|s.keys| - 1] == s.keys[1..])
            && (!full ==> forall k | k in s.keys && k != key :: k in after.buckets && after.buckets[k] == s.buckets[k])
            && (!full ==> s.keys <= after.keys)
            && (forall k | k in after.buckets && k != key :: k in s.buckets)
  {
    SweptIsValid(t, now);
    var s := Swept(t, now);
    if s.keys != [] {
      assert s.keys == [s.keys[0]] + s.keys[1..];
    }
  }

  // ----- histories -----

  datatype Call = Call(key: Key, now: int)

  predicate Chronological(calls: seq<Call>, from: int) {
    calls != [] ==> from <= calls[0].now && Chronological(calls[1..], calls[0].now)
  }

  // ----- the table never outgrows its bound -----

  /** The table behind a history of calls. */
  function TableAfter(cfg: Config, t: Table, calls: seq<Call>): Table {
    if calls == [] then t
    else Taken(cfg, TableAfter(cfg, t, Init(calls)), Last(calls).key, Last(calls).now)
  }

  /** A call adds at most one key, and none to a full table; the one it is about is always kept. */
  lemma TakenIsBounded(cfg: Config, t: Table, key: Key, now: int)
    requires ValidTable(t) && |t.keys| <= (if cfg.maxKeys == 0 then 1 else cfg.maxKeys)
    ensures |Taken(cfg, t, key, now).keys| <= (if cfg.maxKeys == 0 then 1 else cfg.maxKeys)
    ensures key in Taken(cfg, t, key, now).buckets
  {
    var s := Swept(t, now);
    SweptIsValid(t, now);
  }

  lemma {:induction false} DistinctKeysCount(keys: seq<Key>, all: set<Key>)
    requires forall i, j | 0 <= i < j < |keys| :: keys[i] != keys[j]
    requires forall k :: k in keys <==> k in all
    ensures |all| == |keys|
    decreases |keys|
  {
    if keys != [] {
      assert keys == Init(keys) + [Last(keys)];
      DistinctKeysCount(Init(keys), all - {Last(keys)});
    } else {
      assert all == {};
    }
  }

  /**
   * After any history of calls, in whatever order their times are, the limiter stores
   * at most `maxKeys` buckets, or one if that is zero, and the bucket of the last call
   * is among them.
   */
  lemma {:induction false} TableStaysBounded(cfg: Config, start: int, calls: seq<Call>)
    ensures var t := TableAfter(cfg, Table([], map[], start), calls);
            && ValidTable(t) && |t.buckets| == |t.keys| <= (if cfg.maxKeys == 0 then 1 else cfg.maxKeys)
            && (calls != [] ==> Last(calls).key in t.buckets)
  {
    var t := TableAfter(cfg, Table([], map[], start), calls);
    if calls != [] {
      TableStaysBounded(cfg, start, Init(calls));
      var before := TableAfter(cfg, Table([], map[], start), Init(calls));
      TakenIsValid(cfg, before, Last(calls).key, Last(calls).now);
      TakenIsBounded(cfg, before, Last(calls).key, Last(calls).now);
    }
    DistinctKeysCount(t.keys, t.buckets.Keys);
    assert |t.buckets| == |t.buckets.Keys|;
  }

  /** No call has to evict a bucket. */
  predicate NeverEvicts(cfg: Config, t: Table, calls: seq<Call>)
    decreases |calls|
  {
    calls != [] ==>
      var s := Swept(t, calls[0].now);
      && (IsOpen(Get(s, calls[0].key), calls[0].now) || |s.keys| < cfg.maxKeys)
      && NeverEvicts(cfg, Taken(cfg, t, calls[0].key, calls[0].now), calls[1..])
  }

  function Decisions(cfg: Config, t: Table, calls: seq<Call>): (ds: seq<Decision>)
    ensures |ds| == |calls|
    decreases |calls|
  {
    if calls == [] then []
    else
      var c := calls[0];
      [Decide(cfg, Get(Swept(t, c.now), c.key), c.now)] + Decisions(cfg, Taken(cfg, t, c.key, c.now), calls[1..])
  }

  /** The limiter that keeps one bucket per key for ever: it neither sweeps nor evicts. */
  function KeyedDecisions(cfg: Config, m: map<Key, Bucket>, calls: seq<Call>): (ds: seq<Decision>)
    ensures |ds| == |calls|
    decreases |calls|
  {
    if calls == [] then []
    else
      var c := calls[0];
      var b := if c.key in m then Some(m[c.key]) else None;
      [Decide(cfg, b, c.now)] + KeyedDecisions(cfg, m[c.key := Counted(cfg, b, c.now)], calls[1..])
  }

  /** Same bucket, or the table forgot one that had run out by `now`. */
  ghost predicate Forgets(t: Table, m: map<Key, Bucket>, now: int) {
    && (forall k | k in t.buckets :: k in m && m[k] == t.buckets[k])
    && (forall k | k in m && k !in t.buckets :: m[k].resetAt <= now)
  }

  /** Below its key limit, sweeping is invisible: every decision is that of a limiter that forgets nothing. */
  lemma {:induction false} SweepingIsInvisible(cfg: Config, t: Table, m: map<Key, Bucket>, calls: seq<Call>, from: int)
    requires ValidTable(t) && Forgets(t, m, from)
    requires Chronological(calls, from) && NeverEvicts(cfg, t, calls)
    ensures Decisions(cfg, t, calls) == KeyedDecisions(cfg, m, calls)
    decreases |calls|
  {
    if calls != [] {
      var c := calls[0];
      var b := if c.key in m then Some(m[c.key]) else None;
      var s := Swept(t, c.now);
      SweptIsValid(t, c.now);
      TakenIsValid(cfg, t, c.key, c.now);
      assert Forgets(s, m, c.now);
      assert IsOpen(Get(s, c.key), c.now) <==> IsOpen(b, c.now);
      assert IsOpen(b, c.now) ==> Get(s, c.key) == b;
      SweepingIsInvisible(cfg, Taken(cfg, t, c.key, c.now), m[c.key := Counted(cfg, b, c.now)], calls[1..], c.now);
    }
  }

  // ----- how many calls one key gets through -----

  /** How many of the times lie in the half-open span from `a` to `b`. */
  function CountIn(times: seq<int>, a: int, b: int): (n: nat)
    ensures n <= |times|
  {
    if times == [] then 0 else CountIn(Init(times), a, b) + if a <= Last(times) < b then 1 else 0
  }

  /** As `CountIn`, for a span of length `w`. */
  function CountSpan(times: seq<int>, a: int, w: nat): nat {
    CountIn(times, a, a + w)
  }

  lemma {:induction false} CountSnoc(times: seq<int>, t: int, a: int, b: int)
    ensures CountIn(times + [t], a, b) == CountIn(times, a, b) + if a <= t < b then 1 else 0
  {
    assert Init(times + [t]) == times;
  }

  lemma {:induction false} CountSplit(times: seq<int>, a: int, b: int, c: int)
    requires a <= b <= c
    ensures CountIn(times, a, c) == CountIn(times, a, b) + CountIn(times, b, c)
  {
    if times != [] {
      CountSplit(Init(times), a, b, c);
    }
  }

  lemma {:induction false} CountGrows(times: seq<int>, a: int, b: int, c: int, d: int)
    requires a <= c && d <= b
    ensures CountIn(times, c, d) <= CountIn(times, a, b)
  {
    if times != [] {
      CountGrows(Init(times), a, b, c, d);
    }
  }

  lemma {:induction false} CountNone(times: seq<int>, a: int, b: int)
    requires forall i | 0 <= i < |times| :: !(a <= times[i] < b)
    ensures CountIn(times, a, b) == 0
  {
    if times != [] {
      CountNone(Init(times), a, b);
    }
  }

  /** At least one call per window always gets through, even with `max` zero. */
  function Quota(cfg: Config): nat {
    if cfg.max == 0 then 1 else cfg.max
  }

  /** The accepted times of one key, and the bucket they left. */
  ghost predicate Within(cfg: Config, times: seq<int>, b: Option<Bucket>, now: int) {
    && (forall i | 0 <= i < |times| :: times[i] <= now)
    && (forall a :: CountSpan(times, a, cfg.windowMs) <= 2 * Quota(cfg))
    && match b
       case None => times == []
       case Some(bucket) =>
         var start := bucket.resetAt - cfg.windowMs;
         && start <= now
         && bucket.count > 0
         && (cfg.windowMs > 0 ==> forall i | 0 <= i < |times| :: times[i] < bucket.resetAt)
         && CountIn(times, start, bucket.resetAt) <= bucket.count
         && CountIn(times, start, bucket.resetAt) <= Quota(cfg)
         && CountIn(times, start - cfg.windowMs, start) <= Quota(cfg)
  }

  lemma SpanInOpenWindow(cfg: Config, times: seq<int>, b: Bucket, from: int, now: int, a: int)
    requires Within(cfg, times, Some(b), from) && from <= now < b.resetAt && b.count + 1 <= cfg.max
    requires a <= now < a + cfg.windowMs
    ensures CountSpan(times, a, cfg.windowMs) + 1 <= 2 * Quota(cfg)
  {
    var w, start := cfg.windowMs, b.resetAt - cfg.windowMs;
    if a <= start {
      CountSplit(times, a, start, a + w);
      CountGrows(times, start - w, start, a, start);
      CountGrows(times, start, b.resetAt, start, a + w);
    } else {
      CountSplit(times, a, b.resetAt, a + w);
      CountNone(times, b.resetAt, a + w);
      CountGrows(times, start, b.resetAt, a, b.resetAt);
    }
  }

  lemma AcceptInOpenWindow(cfg: Config, times: seq<int>, b: Bucket, from: int, now: int)
    requires Within(cfg, times, Some(b), from) && from <= now < b.resetAt && b.count + 1 <= cfg.max
    ensures Within(cfg, times + [now], Some(Bucket(b.count + 1, b.resetAt)), now)
  {
    var w, start := cfg.windowMs, b.resetAt - cfg.windowMs;
    forall a ensures CountSpan(times + [now], a, w) <= 2 * Quota(cfg) {
      CountSnoc(times, now, a, a + w);
      assert CountSpan(times, a, w) <= 2 * Quota(cfg);
      if a <= now < a + w {
        SpanInOpenWindow(cfg, times, b, from, now, a);
      }
    }
    CountSnoc(times, now, start, b.resetAt);
    CountSnoc(times, now, start - w, start);
  }

  lemma AcceptInNewWindow(cfg: Config, times: seq<int>, b: Option<Bucket>, from: int, now: int)
    requires Within(cfg, times, b, from) && from <= now && !IsOpen(b, now)
    ensures Within(cfg, times + [now], Some(Bucket(1, now + cfg.windowMs)), now)
  {
    var w := cfg.windowMs;
    forall a ensures CountSpan(times + [now], a, w) <= 2 * Quota(cfg) {
      CountSnoc(times, now, a, a + w);
      assert CountSpan(times, a, w) <= 2 * Quota(cfg);
      if a <= now < a + w && b.Some? {
        RecentAreInLastWindow(cfg, times, b.value, from, now, a);
      }
    }
    CountSnoc(times, now, now, now + w);
    CountSnoc(times, now, now - w, now);
    if b.Some? {
      RecentAreInLastWindow(cfg, times, b.value, from, now, now - w);
      RecentAreInLastWindow(cfg, times, b.value, from, now, now);
      CountNone(times, now, now + w);
    }
  }

  lemma RecentAreInLastWindow(cfg: Config, times: seq<int>, b: Bucket, from: int, now: int, a: int)
    requires Within(cfg, times, Some(b), from) && from <= now && b.resetAt <= now
    requires now - cfg.windowMs <= a <= now
    ensures CountSpan(times, a, cfg.windowMs) <= Quota(cfg)
  {
    var w, start := cfg.windowMs, b.resetAt - cfg.windowMs;
    if w == 0 {
      CountNone(times, a, a + w);
    } else if a < b.resetAt {
      CountSplit(times, a, b.resetAt, a + w);
      CountNone(times, b.resetAt, a + w);
      CountGrows(times, start, b.resetAt, a, b.resetAt);
    } else {
      CountNone(times, a, a + w);
    }
  }

  /** The times at which calls for one key were let through. */
  function Accepted(calls: seq<Call>, ds: seq<Decision>, key: Key): seq<int>
    requires |ds| == |calls|
  {
    if calls == [] then []
    else (if calls[0].key == key && !ds[0].limited then [calls[0].now] else []) + Accepted(calls[1..], ds[1..], key)
  }

  function Lookup(m: map<Key, Bucket>, key: Key): Option<Bucket> {
    if key in m then Some(m[key]) else None
  }

  lemma {:induction false} KeyedStaysWithin(cfg: Config, m: map<Key, Bucket>, calls: seq<Call>, from: int,
        key: Key, times: seq<int>)
    requires Chronological(calls, from) && Within(cfg, times, Lookup(m, key), from)
    ensures forall a :: CountSpan(times + Accepted(calls, KeyedDecisions(cfg, m, calls), key), a,
        cfg.windowMs) <= 2 * Quota(cfg)
    decreases |calls|
  {
    if calls == [] {
      assert times + [] == times;
    } else {
      var c, rest := calls[0], calls[1..];
      var b := Lookup(m, c.key);
      var m' := m[c.key := Counted(cfg, b, c.now)];
      var ds := KeyedDecisions(cfg, m, calls);
      assert ds[0] == Decide(cfg, b, c.now) && ds[1..] == KeyedDecisions(cfg, m', rest);
      var later := Accepted(rest, ds[1..], key);
      if c.key == key {
        StepKeepsWithin(cfg, times, b, from, c.now);
        assert Lookup(m', key) == Some(Counted(cfg, b, c.now));
      } else {
        assert Lookup(m', key) == Lookup(m, key);
      }
      if c.key == key && !ds[0].limited {
        KeyedStaysWithin(cfg, m', rest, c.now, key, times + [c.now]);
        ConcatAssociates(times, [c.now], later);
      } else {
        KeyedStaysWithin(cfg, m', rest, c.now, key, times);
        assert [] + later == later;
      }
    }
  }

  lemma StepKeepsWithin(cfg: Config, times: seq<int>, b: Option<Bucket>, from: int, now: int)
    requires Within(cfg, times, b, from) && from <= now
    ensures Within(cfg, if Decide(cfg, b, now).limited then times else times + [now], Some(Counted(cfg, b, now)), now)
  {
    if !IsOpen(b, now) {
      AcceptInNewWindow(cfg, times, b, from, now);
    } else if b.value.count + 1 <= cfg.max {
      AcceptInOpenWindow(cfg, times, b.value, from, now);
    }
  }

  /**
   * Below its key limit, the limiter lets at most twice its quota of calls per key
   * through in any half-open span of one window, whatever the history.
   */
  lemma {:induction false} AtMostTwoQuotasPerWindow(cfg: Config, calls: seq<Call>, from: int, key: Key, a: int)
    requires Chronological(calls, from) && NeverEvicts(cfg, Table([], map[], from), calls)
    ensures CountSpan(Accepted(calls, Decisions(cfg, Table([], map[], from), calls), key), a,
        cfg.windowMs) <= 2 * Quota(cfg)
  {
    SweepingIsInvisible(cfg, Table([], map[], from), map[], calls, from);
    KeyedStaysWithin(cfg, map[], calls, from, key, []);
    var accepted := Accepted(calls, KeyedDecisions(cfg, map[], calls), key);
    assert [] + accepted == accepted;
  }

  // ----- exactly when a call is limited -----

  /** The call that opened the newest window of a key: the first one no earlier window covers. */
  function Opener(cfg: Config, calls: seq<Call>, key: Key): (o: Option<nat>)
    ensures o.Some? ==> o.value < |calls| && calls[o.value].key == key
  {
    if calls == [] then None
    else
      var o := Opener(cfg, Init(calls), key);
      if Last(calls).key != key || (o.Some? && Last(calls).now < calls[o.value].now + cfg.windowMs) then o
      else Some(|calls| - 1)
  }

  /** How many calls the key made from position `from` on, let through or not. */
  function CallsSince(calls: seq<Call>, key: Key, from: nat): nat {
    if |calls| <= from then 0 else CallsSince(Init(calls), key, from) + if Last(calls).key == key then 1 else 0
  }

  function MapFrom(cfg: Config, m: map<Key, Bucket>, calls: seq<Call>): map<Key, Bucket> {
    if calls == [] then m
    else
      var before, c := MapFrom(cfg, m, Init(calls)), Last(calls);
      before[c.key := Counted(cfg, Lookup(before, c.key), c.now)]
  }

  lemma {:induction false} MapFromFirst(cfg: Config, m: map<Key, Bucket>, calls: seq<Call>)
    requires calls != []
    ensures var c := calls[0];
            MapFrom(cfg, m, calls) == MapFrom(cfg, m[c.key := Counted(cfg, Lookup(m, c.key), c.now)], calls[1..])
    decreases |calls|
  {
    if |calls| > 1 {
      MapFromFirst(cfg, m, Init(calls));
      assert Init(calls)[1..] == Init(calls[1..]) && Init(calls)[0] == calls[0];
    } else {
      assert Init(calls) == [] && calls[1..] == [];
    }
  }

  lemma {:induction false} DecisionAt(cfg: Config, m: map<Key, Bucket>, calls: seq<Call>, i: nat)
    requires i < |calls|
    ensures KeyedDecisions(cfg, m, calls)[i]
         == Decide(cfg, Lookup(MapFrom(cfg, m, calls[..i]), calls[i].key), calls[i].now)
    decreases |calls|
  {
    if i > 0 {
      var c := calls[0];
      var m' := m[c.key := Counted(cfg, Lookup(m, c.key), c.now)];
      DecisionAt(cfg, m', calls[1..], i - 1);
      MapFromFirst(cfg, m, calls[..i]);
      assert calls[..i][1..] == calls[1..][..i - 1];
    } else {
      assert calls[..0] == [];
    }
  }

  /** A bucket counts the calls of its window and ends with it. */
  lemma {:induction false} BucketCounts(cfg: Config, calls: seq<Call>, key: Key)
    ensures Lookup(MapFrom(cfg, map[], calls), key) ==
            match Opener(cfg, calls, key)
            case None => None
            case Some(o) => Some(Bucket(CallsSince(calls, key, o), calls[o].now + cfg.windowMs))
  {
    if calls != [] {
      BucketCounts(cfg, Init(calls), key);
      var last := |calls| - 1;
      assert CallsSince(Init(calls), key, last) == 0;
    }
  }

  /**
   * A call is limited if and only if the newest window of its key is still open and
   * holds at least `max` calls already; and then the wait it is told is the least
   * number of whole seconds, and at least one, after which the window has ended.
   */
  lemma {:induction false} LimitedIff(cfg: Config, calls: seq<Call>, from: int, i: nat)
    requires Chronological(calls, from) && NeverEvicts(cfg, Table([], map[], from), calls) && i < |calls|
    ensures var d, now, key := Decisions(cfg, Table([], map[], from), calls)[i], calls[i].now, calls[i].key;
            match Opener(cfg, calls[..i], key)
            case None => !d.limited && d.retryAfterSec == 0
            case Some(o) =>
              var end := calls[o].now + cfg.windowMs;
              && (d.limited <==> now < end && CallsSince(calls[..i], key, o) >= cfg.max)
              && (d.limited ==>
                    && d.retryAfterSec >= 1 && end <= now + 1000 * d.retryAfterSec
                    && (d.retryAfterSec > 1 ==> now + 1000 * (d.retryAfterSec - 1) < end))
              && (!d.limited ==> d.retryAfterSec == 0)
  {
    SweepingIsInvisible(cfg, Table([], map[], from), map[], calls, from);
    DecisionAt(cfg, map[], calls, i);
    BucketCounts(cfg, calls[..i], calls[i].key);
  }

  // ----- the command budget of the console -----

  const SEND_MAX: int := 20
  const SEND_WINDOW_MS: int := 10_000
  const CLOSED_WINDOW: nat := 10_001

  function Pruned(times: seq<int>, now: int): seq<int> {
    if times != [] && now - times[0] > SEND_WINDOW_MS then Pruned(times[1..], now) else times
  }

  /** The log of one user and server after a call, and whether the call passed. */
  function Budgeted(times: seq<int>, now: int): (seq<int>, bool) {
    var kept := Pruned(times, now);
    if |kept| >= SEND_MAX then (kept, false) else (kept + [now], true)
  }

  class CommandBudget {
    var sendBuckets: map<Key, seq<int>>

    constructor ()
      ensures sendBuckets == map[]
    {
      sendBuckets := map[];
    }

    method TakeBudget(key: Key, now: int) returns (ok: bool)
      modifies this
      ensures var was := if key in old(sendBuckets) then old(sendBuckets)[key] else [];
              && ok == Budgeted(was, now).1
              && sendBuckets == old(sendBuckets)[key := Budgeted(was, now).0]
    {
      var times := if key in sendBuckets then sendBuckets[key] else [];
      ghost var was := times;
      while |times| > 0 && now - times[0] > SEND_WINDOW_MS
        invariant Pruned(times, now) == Pruned(was, now)
      {
        times := times[1..];
      }
      if |times| >= SEND_MAX {
        sendBuckets := sendBuckets[key := times];
        return false;
      }
      times := times + [now];
      sendBuckets := sendBuckets[key := times];
      return true;
    }
  }

  predicate Ascending(times: seq<int>) {
    forall i, j | 0 <= i < j < |times| :: times[i] <= times[j]
  }

  /**
   * All accepted times, of which the log still holds those from position `k` on; the
   * others have left the window.
   */
  ghost predicate Logs(accepted: seq<int>, k: nat, now: int) {
    && k <= |accepted| && Ascending(accepted)
    && (forall i | 0 <= i < |accepted| :: accepted[i] <= now)
    && (forall i | 0 <= i < k :: now - accepted[i] > SEND_WINDOW_MS)
    && (forall a :: CountSpan(accepted, a, CLOSED_WINDOW) <= SEND_MAX)
  }

  /** Position `k` separates the times out of the window from those in it. */
  ghost predicate IsCut(times: seq<int>, now: int, k: nat) {
    && k <= |times|
    && (forall i | 0 <= i < k :: now - times[i] > SEND_WINDOW_MS)
    && (forall i | k <= i < |times| :: now - times[i] <= SEND_WINDOW_MS)
  }

  lemma {:induction false} PrunedIsSuffix(times: seq<int>, k: nat, now: int) returns (cut: nat)
    requires Ascending(times) && k <= |times|
    requires forall i | 0 <= i < k :: now - times[i] > SEND_WINDOW_MS
    ensures k <= cut && IsCut(times, now, cut) && Pruned(times[k..], now) == times[cut..]
    decreases |times| - k
  {
    if k < |times| && now - times[k] > SEND_WINDOW_MS {
      assert times[k..][1..] == times[k + 1..];
      cut := PrunedIsSuffix(times, k + 1, now);
    } else {
      cut := k;
    }
  }

  lemma {:induction false} CountOfSuffix(times: seq<int>, k: nat, now: int)
    requires IsCut(times, now, k) && forall i | 0 <= i < |times| :: times[i] <= now
    ensures CountIn(times, now - SEND_WINDOW_MS, now + 1) == |times| - k
  {
    if times != [] {
      var front := Init(times);
      assert forall i | 0 <= i < |front| :: front[i] == times[i];
      CountOfSuffix(front, if k < |times| then k else |front|, now);
    }
  }

  /**
   * One step of the budget: the call passes exactly when fewer than 20 calls passed
   * in the closed ten seconds before it, and no closed ten-second span ever holds more
   * than 20 calls that passed.
   */
  lemma BudgetStep(accepted: seq<int>, k: nat, from: int, now: int) returns (cut: nat)
    requires Logs(accepted, k, from) && from <= now
    ensures Budgeted(accepted[k..], now).1 <==> CountIn(accepted, now - SEND_WINDOW_MS, now + 1) < SEND_MAX
    ensures var all := if Budgeted(accepted[k..], now).1 then accepted + [now] else accepted;
            Logs(all, cut, now) && Budgeted(accepted[k..], now).0 == all[cut..]
  {
    cut := PrunedIsSuffix(accepted, k, now);
    CountOfSuffix(accepted, cut, now);
    assert |accepted[cut..]| == |accepted| - cut;
    if |accepted| - cut < SEND_MAX {
      PassedLogs(accepted, cut, now);
      assert (accepted + [now])[cut..] == accepted[cut..] + [now];
      assert Budgeted(accepted[k..], now) == (accepted[cut..] + [now], true);
    }
  }

  lemma {:induction false} PassedLogs(accepted: seq<int>, cut: nat, now: int)
    requires Logs(accepted, cut, now) && CountIn(accepted, now - SEND_WINDOW_MS, now + 1) < SEND_MAX
    ensures Logs(accepted + [now], cut, now)
  {
    forall a ensures CountSpan(accepted + [now], a, CLOSED_WINDOW) <= SEND_MAX {
      SpanAfterAccept(accepted, now, a);
    }
  }

  lemma CountUpTo(times: seq<int>, now: int, a: int, b: int)
    requires a <= now < b && forall i | 0 <= i < |times| :: times[i] <= now
    ensures CountIn(times, a, b) == CountIn(times, a, now + 1)
  {
    CountSplit(times, a, now + 1, b);
    CountNone(times, now + 1, b);
  }

  lemma {:induction false} SpanAfterAccept(accepted: seq<int>, now: int, a: int)
    requires forall i | 0 <= i < |accepted| :: accepted[i] <= now
    requires CountIn(accepted, now - SEND_WINDOW_MS, now + 1) < SEND_MAX
    requires CountSpan(accepted, a, CLOSED_WINDOW) <= SEND_MAX
    ensures CountSpan(accepted + [now], a, CLOSED_WINDOW) <= SEND_MAX
  {
    CountSnoc(accepted, now, a, a + CLOSED_WINDOW);
    if a <= now < a + CLOSED_WINDOW {
      CountUpTo(accepted, now, a, a + CLOSED_WINDOW);
      CountGrows(accepted, now - SEND_WINDOW_MS, now + 1, a, now + 1);
    }
  }

  /** The accepted times of a whole history of calls for one user and server. */
  function BudgetHistory(times: seq<int>, nows: seq<int>): seq<int>
    decreases |nows|
  {
    if nows == [] then []
    else
      var (left, ok) := Budgeted(times, nows[0]);
      (if ok then [nows[0]] else []) + BudgetHistory(left, nows[1..])
  }

  predicate NonDecreasing(nows: seq<int>, from: int) {
    nows != [] ==> from <= nows[0] && NonDecreasing(nows[1..], nows[0])
  }

  lemma {:induction false} BudgetHolds(accepted: seq<int>, k: nat, from: int, nows: seq<int>, a: int)
    requires Logs(accepted, k, from) && NonDecreasing(nows, from)
    ensures CountSpan(accepted + BudgetHistory(accepted[k..], nows), a, CLOSED_WINDOW) <= SEND_MAX
    decreases |nows|
  {
    if nows == [] {
      assert accepted + [] == accepted;
    } else {
      var cut := BudgetStep(accepted, k, from, nows[0]);
      var (left, ok) := Budgeted(accepted[k..], nows[0]);
      var rest := BudgetHistory(left, nows[1..]);
      BudgetHolds(if ok then accepted + [nows[0]] else accepted, cut, nows[0], nows[1..], a);
      ConcatAssociates(accepted, [nows[0]], rest);
      assert [] + rest == rest;
    }
  }

  /** Over a whole history, at most 20 commands pass in any closed ten seconds. */
  lemma {:induction false} AtMostTwentyPerTenSeconds(nows: seq<int>, from: int, a: int)
    requires NonDecreasing(nows, from)
    ensures CountSpan(BudgetHistory([], nows), a, CLOSED_WINDOW) <= SEND_MAX
  {
    var none: seq<int> := [];
    BudgetHolds(none, 0, from, nows, a);
    assert none[0..] == none && none + BudgetHistory(none, nows) == BudgetHistory(none, nows);
  }
}
