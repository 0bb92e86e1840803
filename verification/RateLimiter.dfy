/** The fixed-window counter behind the rate limits: buckets in a map, expired ones
    swept out lazily when a hit arrives at least SWEEP_INTERVAL_MS after the last sweep. */
module RateLimiter {
  import opened Options

  datatype Bucket = Bucket(count: int, resetAt: int, audited: bool)

  datatype Answer = Answer(allowed: bool, remaining: int, resetAt: int, retryAfterSec: int, firstRejection: bool)

  datatype Hit = Hit(key: string, now: int)

  type Store = map<string, Bucket>

  const SWEEP_INTERVAL_MS := 60_000

  /** Whole seconds until the window ends, at least 1. */
  function RetryAfterSec(resetAt: int, now: int): int {
    var ceil := -((now - resetAt) / 1000);
    if ceil > 1 then ceil else 1
  }

  /** The bucket a hit finds, or opens. */
  function BucketFor(windowMs: int, store: Store, h: Hit): Bucket {
    if h.key in store && store[h.key].resetAt > h.now then store[h.key] else Bucket(0, h.now + windowMs, false)
  }

  /** The bucket after the hit. */
  function Charge(max: int, b: Bucket): Bucket {
    if b.count >= max then b.(audited := true) else b.(count := b.count + 1)
  }

  function AnswerFor(max: int, b: Bucket, now: int): Answer {
    if b.count >= max then Answer(false, 0, b.resetAt, RetryAfterSec(b.resetAt, now), !b.audited)
    else Answer(true, max - (b.count + 1), b.resetAt, RetryAfterSec(b.resetAt, now), false)
  }

  // ---- A counter that never evicts ---------------------------------------------

  function StoreAfter(windowMs: int, max: int, hits: seq<Hit>): Store {
    if hits == [] then map[]
    else
      var h := hits[|hits| - 1];
      var before := StoreAfter(windowMs, max, hits[..|hits| - 1]);
      before[h.key := Charge(max, BucketFor(windowMs, before, h))]
  }

  /** The answer to the last hit. */
  function LastAnswer(windowMs: int, max: int, hits: seq<Hit>): Answer
    requires hits != []
  {
    var h := hits[|hits| - 1];
    AnswerFor(max, BucketFor(windowMs, StoreAfter(windowMs, max, hits[..|hits| - 1]), h), h.now)
  }

  function AnswerAt(windowMs: int, max: int, hits: seq<Hit>, i: nat): Answer
    requires i < |hits|
  {
    LastAnswer(windowMs, max, hits[..i + 1])
  }

  // ---- The counter with lazy eviction --------------------------------------------

  datatype Counter = Counter(store: Store, lastSweep: int)

  function Evict(store: Store, now: int): Store {
    map k | k in store && store[k].resetAt > now :: store[k]
  }

  function Sweep(c: Counter, now: int): Counter {
    if now - c.lastSweep >= SWEEP_INTERVAL_MS then Counter(Evict(c.store, now), now) else c
  }

  function HitCounter(windowMs: int, max: int, c: Counter, h: Hit): Counter {
    var swept := Sweep(c, h.now);
    swept.(store := swept.store[h.key := Charge(max, BucketFor(windowMs, swept.store, h))])
  }

  function CounterAfter(windowMs: int, max: int, created: int, hits: seq<Hit>): Counter {
    if hits == [] then Counter(map[], created)
    else HitCounter(windowMs, max, CounterAfter(windowMs, max, created, hits[..|hits| - 1]), hits[|hits| - 1])
  }

  function LazyAnswerAt(windowMs: int, max: int, created: int, hits: seq<Hit>, i: nat): Answer
    requires i < |hits|
  {
    var c := Sweep(CounterAfter(windowMs, max, created, hits[..i]), hits[i].now);
    AnswerFor(max, BucketFor(windowMs, c.store, hits[i]), hits[i].now)
  }

  class FixedWindowCounter {
    const windowMs: int
    const max: int
    var store: Store
    var lastSweep: int

    constructor (windowMs: int, max: int, now: int)
      ensures this.windowMs == windowMs && this.max == max && Counter(store, lastSweep) == Counter(map[], now)
    {
      this.windowMs, this.max := windowMs, max;
      store, lastSweep := map[], now;
    }

    /** Drop every bucket whose window is over. */
    method EvictOver(now: int)
      modifies this`store
      ensures store == Evict(old(store), now)
    {
      var keys := store.Keys;
      ghost var before := store;
      while keys != {}
        invariant keys <= before.Keys
        invariant forall k :: k in store <==> k in before && (k in keys || before[k].resetAt > now)
        invariant forall k :: k in store ==> store[k] == before[k]
        decreases |keys|
      {
        var k :| k in keys;
        keys := keys - {k};
        if store[k].resetAt <= now {
          store := store - {k};
        }
      }
      assert store == Evict(before, now);
    }

    method HitKey(key: string, now: int) returns (answer: Answer)
      modifies this
      ensures Counter(store, lastSweep) == HitCounter(windowMs, max, old(Counter(store, lastSweep)), Hit(key, now))
      ensures answer == AnswerFor(max, BucketFor(windowMs, Sweep(old(Counter(store, lastSweep)), now).store, Hit(key, now)), now)
    {
      if now - lastSweep >= SWEEP_INTERVAL_MS {
        lastSweep := now;
        EvictOver(now);
      }
      var bucket;
      if key in store && store[key].resetAt > now {
        bucket := store[key];
      } else {
        bucket := Bucket(0, now + windowMs, false);
        store := store[key := bucket];
      }
      var retryAfterSec := RetryAfterSec(bucket.resetAt, now);
      if bucket.count >= max {
        var firstRejection := !bucket.audited;
        store := store[key := bucket.(audited := true)];
        return Answer(false, 0, bucket.resetAt, retryAfterSec, firstRejection);
      }
      bucket := bucket.(count := bucket.count + 1);
      store := store[key := bucket];
      answer := Answer(true, max - bucket.count, bucket.resetAt, retryAfterSec, false);
    }
  }

  // ---- Eviction is invisible -----------------------------------------------------

  predicate Chronological(hits: seq<Hit>) {
    forall i, j :: 0 <= i <= j < |hits| ==> hits[i].now <= hits[j].now
  }

  predicate Live(store: Store, key: string, now: int) {
    key in store && store[key].resetAt > now
  }

  /** The two stores agree on every bucket that can still be hit. */
  ghost predicate Agree(a: Store, b: Store, now: int) {
    forall k :: Live(a, k, now) == Live(b, k, now) && (Live(a, k, now) ==> a[k] == b[k])
  }

  lemma {:induction false} StoresAgree(windowMs: int, max: int, created: int, hits: seq<Hit>, now: int)
    requires Chronological(hits) && (hits != [] ==> hits[|hits| - 1].now <= now)
    ensures Agree(CounterAfter(windowMs, max, created, hits).store, StoreAfter(windowMs, max, hits), now)
  {
    if hits != [] {
      var init, h := hits[..|hits| - 1], hits[|hits| - 1];
      StoresAgree(windowMs, max, created, init, h.now);
    }
  }

  /** For every non-decreasing sequence of hits, the swept counter gives the answers of one
      that never evicts. */
  lemma EvictionIsInvisible(windowMs: int, max: int, created: int, hits: seq<Hit>, i: nat)
    requires Chronological(hits) && i < |hits|
    ensures LazyAnswerAt(windowMs, max, created, hits, i) == AnswerAt(windowMs, max, hits, i)
  {
    StoresAgree(windowMs, max, created, hits[..i], hits[i].now);
    assert hits[..i + 1][..i] == hits[..i];
  }

  /** Every stored bucket was live at the last sweep. */
  ghost predicate SweptAt(c: Counter) {
    forall k :: k in c.store ==> c.store[k].resetAt > c.lastSweep
  }

  /** The map does not grow for ever: after every hit of a non-decreasing sequence each bucket that is
      kept ended less than a minute ago, if it has ended at all; and it is swept once a minute at most. */
  lemma {:induction false} OnlyRecentBuckets(windowMs: int, max: int, created: int, hits: seq<Hit>)
    requires windowMs > 0 && Chronological(hits) && hits != [] && created <= hits[0].now
    ensures var before, c, now := CounterAfter(windowMs, max, created, hits[..|hits| - 1]), CounterAfter(windowMs, max, created, hits), hits[|hits| - 1].now;
      && SweptAt(c) && c.lastSweep <= now < c.lastSweep + 60_000
      && (forall k :: k in c.store ==> c.store[k].resetAt > now - 60_000)
      && (c.lastSweep == before.lastSweep || c.lastSweep >= before.lastSweep + 60_000)
      && (c.lastSweep == before.lastSweep ==> before.store.Keys <= c.store.Keys)
  {
    var init, h := hits[..|hits| - 1], hits[|hits| - 1];
    var before := CounterAfter(windowMs, max, created, init);
    if init != [] {
      OnlyRecentBuckets(windowMs, max, created, init);
    }
    assert SweptAt(Sweep(before, h.now));
  }

  // ---- The sliding bound -----------------------------------------------------------

  /** How many hits of `key` in `lo..hi` were allowed. */
  function AllowedIn(windowMs: int, max: int, hits: seq<Hit>, key: string, lo: int, hi: int): nat {
    if hits == [] then 0
    else
      var h := hits[|hits| - 1];
      AllowedIn(windowMs, max, hits[..|hits| - 1], key, lo, hi)
      + if h.key == key && lo <= h.now < hi && LastAnswer(windowMs, max, hits).allowed then 1 else 0
  }

  predicate IsAllowedIn(windowMs: int, max: int, hits: seq<Hit>, key: string, lo: int, hi: int, i: nat) {
    i < |hits| && hits[i].key == key && lo <= hits[i].now < hi && AnswerAt(windowMs, max, hits, i).allowed
  }

  function AllowedHits(windowMs: int, max: int, hits: seq<Hit>, key: string, lo: int, hi: int): set<nat> {
    set i: nat | i < |hits| && IsAllowedIn(windowMs, max, hits, key, lo, hi, i)
  }

  lemma AllowedStep(windowMs: int, max: int, hits: seq<Hit>, key: string, lo: int, hi: int, n: nat, init: seq<Hit>)
    requires |hits| == n + 1 && init == hits[..n]
    ensures AllowedHits(windowMs, max, hits, key, lo, hi) ==
      AllowedHits(windowMs, max, init, key, lo, hi) + if IsAllowedIn(windowMs, max, hits, key, lo, hi, n) then {n} else {}
  {
    forall i: nat | i < n
      ensures IsAllowedIn(windowMs, max, init, key, lo, hi, i) == IsAllowedIn(windowMs, max, hits, key, lo, hi, i)
    {
      assert init[..i + 1] == hits[..i + 1];
    }
  }

  /** It is the number of those hits. */
  lemma {:induction false} AllowedIsCount(windowMs: int, max: int, hits: seq<Hit>, key: string, lo: int, hi: int)
    ensures AllowedIn(windowMs, max, hits, key, lo, hi) == |AllowedHits(windowMs, max, hits, key, lo, hi)|
  {
    if hits != [] {
      var n := |hits| - 1;
      AllowedIsCount(windowMs, max, hits[..n], key, lo, hi);
      AllowedStep(windowMs, max, hits, key, lo, hi, n, hits[..n]);
      assert hits[..n + 1] == hits;
    }
  }

  function NonNegative(x: int): nat {
    if x < 0 then 0 else x
  }

  /** The interval meets at most two windows of a key, and each allows at most `max`. */
  lemma {:induction false} AllowedBound(windowMs: int, max: int, hits: seq<Hit>, key: string, lo: int)
    requires windowMs > 0 && Chronological(hits)
    ensures var n, store, cap := AllowedIn(windowMs, max, hits, key, lo, lo + windowMs), StoreAfter(windowMs, max, hits), NonNegative(max);
      && n <= 2 * cap
      && (key !in store ==> n == 0)
      && (key in store ==>
            var b := store[key];
            && 0 <= b.count <= cap
            && (hits != [] ==> b.resetAt <= hits[|hits| - 1].now + windowMs)
            && (b.resetAt <= lo ==> n == 0)
            && (lo < b.resetAt < lo + windowMs ==> n <= b.count)
            && (lo + windowMs <= b.resetAt < lo + 2 * windowMs ==> n <= cap + b.count))
  {
    if hits != [] {
      AllowedBound(windowMs, max, hits[..|hits| - 1], key, lo);
    }
  }

  /** Never more than twice the limit in any half-open interval of one window's length. */
  lemma SlidingBound(windowMs: int, max: int, hits: seq<Hit>, key: string, lo: int)
    requires windowMs > 0 && Chronological(hits)
    ensures AllowedIn(windowMs, max, hits, key, lo, lo + windowMs) <= 2 * NonNegative(max)
  {
    AllowedBound(windowMs, max, hits, key, lo);
  }

  // ---- One audit per rejecting window -----------------------------------------------

  /** Hits `i` and `j` fell into the same window of the same key. */
  predicate SameWindow(windowMs: int, max: int, hits: seq<Hit>, i: nat, j: nat)
    requires i < |hits| && j < |hits|
  {
    hits[i].key == hits[j].key && AnswerAt(windowMs, max, hits, i).resetAt == AnswerAt(windowMs, max, hits, j).resetAt
  }

  lemma {:induction false} AuditedBuckets(windowMs: int, max: int, hits: seq<Hit>, key: string)
    requires windowMs > 0
    ensures var store := StoreAfter(windowMs, max, hits);
      && (forall i :: 0 <= i < |hits| && hits[i].key == key ==> key in store && AnswerAt(windowMs, max, hits, i).resetAt <= store[key].resetAt)
      && (key in store ==> (store[key].audited <==>
            exists i :: 0 <= i < |hits| && hits[i].key == key && AnswerAt(windowMs, max, hits, i).resetAt == store[key].resetAt
                     && !AnswerAt(windowMs, max, hits, i).allowed))
  {
    if hits != [] {
      var n := |hits| - 1;
      var init := hits[..n];
      AuditedBuckets(windowMs, max, init, key);
      forall i | 0 <= i < n ensures AnswerAt(windowMs, max, init, i) == AnswerAt(windowMs, max, hits, i) {
        assert init[..i + 1] == hits[..i + 1];
      }
      assert hits[..n + 1] == hits;
      assert AnswerAt(windowMs, max, hits, n) == LastAnswer(windowMs, max, hits);
    }
  }

  /** A rejection is flagged exactly when no earlier hit of its window was rejected. */
  lemma FirstRejectionOncePerWindow(windowMs: int, max: int, hits: seq<Hit>, i: nat)
    requires windowMs > 0 && i < |hits|
    ensures AnswerAt(windowMs, max, hits, i).firstRejection <==>
      !AnswerAt(windowMs, max, hits, i).allowed
      && forall j :: 0 <= j < i && SameWindow(windowMs, max, hits, i, j) ==> AnswerAt(windowMs, max, hits, j).allowed
  {
    var init := hits[..i];
    AuditedBuckets(windowMs, max, init, hits[i].key);
    assert hits[..i + 1][..i] == init;
    forall j | 0 <= j < i ensures AnswerAt(windowMs, max, init, j) == AnswerAt(windowMs, max, hits, j) {
      assert init[..j + 1] == hits[..j + 1];
    }
  }

  /** Hit `j` carries the flag of hit `i`'s window. */
  predicate FlagsWindow(windowMs: int, max: int, hits: seq<Hit>, i: nat, j: int)
    requires i < |hits|
  {
    0 <= j < |hits| && SameWindow(windowMs, max, hits, i, j) && AnswerAt(windowMs, max, hits, j).firstRejection
  }

  /** So each window that rejects anything is flagged exactly once, at its first rejection. */
  lemma {:induction false} OneFlagPerRejectingWindow(windowMs: int, max: int, hits: seq<Hit>, i: nat)
    requires windowMs > 0 && i < |hits| && !AnswerAt(windowMs, max, hits, i).allowed
    ensures exists j :: 0 <= j <= i && FlagsWindow(windowMs, max, hits, i, j)
    ensures forall j, k :: FlagsWindow(windowMs, max, hits, i, j) && FlagsWindow(windowMs, max, hits, i, k) ==> j == k
  {
    FirstRejectionOncePerWindow(windowMs, max, hits, i);
    if !AnswerAt(windowMs, max, hits, i).firstRejection {
      var j: nat :| j < i && SameWindow(windowMs, max, hits, i, j) && !AnswerAt(windowMs, max, hits, j).allowed;
      OneFlagPerRejectingWindow(windowMs, max, hits, j);
      var k :| 0 <= k <= j && FlagsWindow(windowMs, max, hits, j, k);
      assert FlagsWindow(windowMs, max, hits, i, k);
    } else {
      assert FlagsWindow(windowMs, max, hits, i, i);
    }
    forall j: nat | j < |hits|
      ensures AnswerAt(windowMs, max, hits, j).firstRejection <==>
        !AnswerAt(windowMs, max, hits, j).allowed
        && forall k :: 0 <= k < j && SameWindow(windowMs, max, hits, j, k) ==> AnswerAt(windowMs, max, hits, k).allowed
    {
      FirstRejectionOncePerWindow(windowMs, max, hits, j);
    }
  }

  // ---- The limit, from the hits alone ------------------------------------------------

  /** The latest hit of the key among the first `i`. */
  function Latest(hits: seq<Hit>, key: string, i: nat): (j: Option<nat>)
    requires i <= |hits|
    ensures j.Some? ==> j.value < i && hits[j.value].key == key
    ensures forall k :: (if j.Some? then j.value + 1 else 0) <= k < i ==> hits[k].key != key
  {
    if i == 0 then None else if hits[i - 1].key == key then Some(i - 1) else Latest(hits, key, i - 1)
  }

  /** The hit that opened the window of hit `i`: that of its predecessor's window if it came within the
      window's length, and otherwise itself. */
  function Opening(windowMs: int, hits: seq<Hit>, i: nat): (s: nat)
    requires i < |hits|
    ensures s <= i && hits[s].key == hits[i].key
  {
    match Latest(hits, hits[i].key, i)
    case None => i
    case Some(j) =>
      var s := Opening(windowMs, hits, j);
      if hits[i].now < hits[s].now + windowMs then s else i
  }

  /** The earlier hits in the window of hit `i`. */
  function Earlier(windowMs: int, hits: seq<Hit>, i: nat): set<nat>
    requires i < |hits|
  {
    set j: nat | j < i && hits[j].key == hits[i].key && Opening(windowMs, hits, j) == Opening(windowMs, hits, i)
  }

  lemma EarlierStep(windowMs: int, hits: seq<Hit>, i: nat)
    requires i < |hits|
    ensures Opening(windowMs, hits, i) == i ==> Earlier(windowMs, hits, i) == {}
    ensures Opening(windowMs, hits, i) != i ==>
      var j := Latest(hits, hits[i].key, i);
      && j.Some? && j.value !in Earlier(windowMs, hits, j.value)
      && Opening(windowMs, hits, j.value) == Opening(windowMs, hits, i)
      && Earlier(windowMs, hits, i) == Earlier(windowMs, hits, j.value) + {j.value}
  {}

  lemma {:induction false} StoreKeeps(windowMs: int, max: int, hits: seq<Hit>, key: string, i: nat, j: nat)
    requires j <= i <= |hits| && forall k :: j <= k < i ==> hits[k].key != key
    ensures key in StoreAfter(windowMs, max, hits[..i]) <==> key in StoreAfter(windowMs, max, hits[..j])
    ensures key in StoreAfter(windowMs, max, hits[..i]) ==>
      StoreAfter(windowMs, max, hits[..i])[key] == StoreAfter(windowMs, max, hits[..j])[key]
  {
    if j < i {
      StoreKeeps(windowMs, max, hits, key, i - 1, j);
      assert hits[..i][..i - 1] == hits[..i - 1];
    }
  }

  /** A bucket whose window has seen `n` hits. */
  predicate Holds(max: int, b: Bucket, n: nat) {
    && b.count == (if n <= NonNegative(max) then n else NonNegative(max))
    && (b.audited <==> n > NonNegative(max))
  }

  lemma ChargeHolds(max: int, b: Bucket, n: nat)
    requires Holds(max, b, n)
    ensures Holds(max, Charge(max, b), n + 1) && Charge(max, b).resetAt == b.resetAt
  {}

  /** The latest bucket of the key of hit `i`, if there is one, is that of its latest hit. */
  lemma LatestBucket(windowMs: int, max: int, hits: seq<Hit>, i: nat)
    requires i < |hits|
    ensures var store, latest := StoreAfter(windowMs, max, hits[..i]), Latest(hits, hits[i].key, i);
      && (hits[i].key in store <==> latest.Some?)
      && (latest.Some? ==>
            hits[i].key in StoreAfter(windowMs, max, hits[..latest.value + 1]) &&
            store[hits[i].key] == StoreAfter(windowMs, max, hits[..latest.value + 1])[hits[i].key])
  {
    var key, latest := hits[i].key, Latest(hits, hits[i].key, i);
    if latest.Some? {
      StoreKeeps(windowMs, max, hits, key, i, latest.value + 1);
      assert hits[..latest.value + 1][latest.value].key == key;
    } else {
      StoreKeeps(windowMs, max, hits, key, i, 0);
    }
  }

  lemma EarlierCount(windowMs: int, hits: seq<Hit>, i: nat)
    requires i < |hits|
    ensures var latest := Latest(hits, hits[i].key, i);
      |Earlier(windowMs, hits, i)| ==
        if latest.Some? && Opening(windowMs, hits, i) == Opening(windowMs, hits, latest.value)
          then |Earlier(windowMs, hits, latest.value)| + 1 else 0
  {
    EarlierStep(windowMs, hits, i);
  }

  lemma OpeningStep(windowMs: int, hits: seq<Hit>, i: nat, j: nat)
    requires j < i < |hits| && Latest(hits, hits[i].key, i) == Some(j)
    ensures var s := Opening(windowMs, hits, j);
      Opening(windowMs, hits, i) == if hits[i].now < hits[s].now + windowMs then s else i
  {}

  /** What hit `i` finds. */
  lemma {:induction false} BucketFound(windowMs: int, max: int, hits: seq<Hit>, i: nat)
    requires i < |hits|
    ensures var b := BucketFor(windowMs, StoreAfter(windowMs, max, hits[..i]), hits[i]);
      b.resetAt == hits[Opening(windowMs, hits, i)].now + windowMs && Holds(max, b, |Earlier(windowMs, hits, i)|)
    decreases i
  {
    var store, latest := StoreAfter(windowMs, max, hits[..i]), Latest(hits, hits[i].key, i);
    EarlierCount(windowMs, hits, i);
    LatestBucket(windowMs, max, hits, i);
    if latest.Some? {
      var j := latest.value;
      BucketFound(windowMs, max, hits, j);
      BucketLeft(windowMs, max, hits, j);
      OpeningStep(windowMs, hits, i, j);
      Found(windowMs, max, store, hits[i], hits[Opening(windowMs, hits, j)].now, |Earlier(windowMs, hits, j)| + 1);
    }
  }

  /** A window opened at `since`, with `n` hits so far, is found while it lasts. */
  lemma Found(windowMs: int, max: int, store: Store, h: Hit, since: int, n: nat)
    requires h.key in store && store[h.key].resetAt == since + windowMs && Holds(max, store[h.key], n)
    ensures var b := BucketFor(windowMs, store, h);
      if h.now < since + windowMs
        then b.resetAt == since + windowMs && Holds(max, b, n)
        else b.resetAt == h.now + windowMs && Holds(max, b, 0)
  {}

  /** What hit `j` leaves, if that is what it finds. */
  lemma BucketLeft(windowMs: int, max: int, hits: seq<Hit>, j: nat)
    requires j < |hits|
    requires var b := BucketFor(windowMs, StoreAfter(windowMs, max, hits[..j]), hits[j]);
      b.resetAt == hits[Opening(windowMs, hits, j)].now + windowMs && Holds(max, b, |Earlier(windowMs, hits, j)|)
    ensures var store := StoreAfter(windowMs, max, hits[..j + 1]);
      && hits[j].key in store && store[hits[j].key].resetAt == hits[Opening(windowMs, hits, j)].now + windowMs
      && Holds(max, store[hits[j].key], |Earlier(windowMs, hits, j)| + 1)
  {
    assert hits[..j + 1][..j] == hits[..j];
    ChargeHolds(max, BucketFor(windowMs, StoreAfter(windowMs, max, hits[..j]), hits[j]), |Earlier(windowMs, hits, j)|);
  }

  /** What each hit is answered, from the hits alone: it is allowed exactly when fewer than the limit
      came before it in its window, with what is then left, and flagged exactly when as many as the
      limit did; and it is told when the window ends, in whole seconds rounded up, but at least one. */
  lemma AnswerIs(windowMs: int, max: int, hits: seq<Hit>, i: nat)
    requires i < |hits|
    ensures var a, n := AnswerAt(windowMs, max, hits, i), |Earlier(windowMs, hits, i)|;
      var rest := a.resetAt - hits[i].now;
      && (a.allowed <==> n < max)
      && a.remaining == (if n < max then max - n - 1 else 0)
      && (a.firstRejection <==> n == NonNegative(max))
      && a.resetAt == hits[Opening(windowMs, hits, i)].now + windowMs
      && a.retryAfterSec >= 1 && a.retryAfterSec * 1000 >= rest
      && (a.retryAfterSec > 1 ==> (a.retryAfterSec - 1) * 1000 < rest)
  {
    BucketFound(windowMs, max, hits, i);
    assert hits[..i + 1][..i] == hits[..i];
  }
}
