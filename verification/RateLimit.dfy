/** The brute-force shield: a leaky bucket of failed logins per client, drained lazily. */
module RateLimit {
  import L = Lists

  datatype Bucket = Bucket(count: nat, nextDrain: int)

  function Min(a: int, b: int): int {
    if a < b then a else b
  }

  /** How many drain ticks have come due: the loop's closed form. */
  function Ticks(b: Bucket, decay: int, now: int): (k: nat)
    ensures k <= b.count
  {
    if decay <= 0 || b.count == 0 || now < b.nextDrain then 0 else
    TicksNonNegative(now - b.nextDrain, decay);
    Min(b.count, (now - b.nextDrain) / decay + 1)
  }

  lemma TicksNonNegative(x: int, d: int)
    requires x >= 0 && d > 0
    ensures x / d >= 0
  {
    var q := x / d;
    assert x == d * q + x % d;
    if q < 0 { Product(d, q + 1); }
  }

  /** d times something not positive is not positive. */
  lemma {:induction false} Product(d: int, y: int)
    requires d > 0 && y <= 0
    ensures d * y <= 0
  {
  }

  function Drained(b: Bucket, decay: int, now: int): Bucket {
    var k := Ticks(b, decay, now);
    Bucket(b.count - k, b.nextDrain + k * decay)
  }

  type Buckets = map<string, Bucket>

  predicate Disabled(threshold: int, key: string) {
    threshold <= 0 || key == ""
  }

  /** A missing bucket is an empty one. */
  function Look(m: Buckets, key: string, decay: int, now: int): Bucket {
    if key in m then Drained(m[key], decay, now) else Bucket(0, 0)
  }

  function IsBlocked(m: Buckets, key: string, threshold: int, decay: int, now: int): bool {
    !Disabled(threshold, key) && key in m && Look(m, key, decay, now).count >= threshold
  }

  function AfterBlocked(m: Buckets, key: string, threshold: int, decay: int, now: int): Buckets {
    if Disabled(threshold, key) || key !in m then m else m[key := Drained(m[key], decay, now)]
  }

  function Debited(b: Bucket, decay: int, now: int): Bucket {
    Bucket(b.count + 1, if b.count == 0 then now + decay else b.nextDrain)
  }

  function AfterFailure(m: Buckets, key: string, threshold: int, decay: int, now: int): Buckets {
    if Disabled(threshold, key) then m else m[key := Debited(Look(m, key, decay, now), decay, now)]
  }

  function AfterSweep(m: Buckets, decay: int, now: int): Buckets {
    map key | key in m && Drained(m[key], decay, now).count > 0 :: Drained(m[key], decay, now)
  }

  class Limiter {
    const threshold: int
    const decay: int
    var buckets: Buckets

    constructor (threshold: int, decay: int)
      ensures this.threshold == threshold && this.decay == decay && buckets == map[]
    {
      this.threshold, this.decay, buckets := threshold, decay, map[];
    }

    method Drain(b: Bucket, now: int) returns (out: Bucket)
      ensures out == Drained(b, decay, now)
    {
      out := b;
      if decay <= 0 || b.count == 0 { return; }
      while out.count > 0 && now >= out.nextDrain
        invariant Drained(out, decay, now) == Drained(b, decay, now)
        decreases out.count
      {
        DrainOne(out, decay, now);
        out := Bucket(out.count - 1, out.nextDrain + decay);
      }
    }

    method Blocked(key: string, now: int) returns (r: bool)
      modifies this
      ensures r == IsBlocked(old(buckets), key, threshold, decay, now)
      ensures buckets == AfterBlocked(old(buckets), key, threshold, decay, now)
    {
      if Disabled(threshold, key) || key !in buckets { return false; }
      var b := Drain(buckets[key], now);
      buckets := buckets[key := b];
      r := b.count >= threshold;
    }

    method RecordFailure(key: string, now: int)
      modifies this
      ensures buckets == AfterFailure(old(buckets), key, threshold, decay, now)
    {
      if Disabled(threshold, key) { return; }
      var b := Bucket(0, 0);
      if key in buckets { b := Drain(buckets[key], now); }
      if b.count == 0 { b := Bucket(0, now + decay); }
      buckets := buckets[key := Bucket(b.count + 1, b.nextDrain)];
    }

    method Sweep(now: int)
      modifies this
      ensures buckets == AfterSweep(old(buckets), decay, now)
    {
      var todo := buckets.Keys;
      ghost var all := buckets;
      var kept: Buckets := map[];
      while todo != {}
        modifies {}
        invariant todo <= all.Keys
        invariant kept == map key | key in all && key !in todo
          && Drained(all[key], decay, now).count > 0 :: Drained(all[key], decay, now)
        decreases |todo|
      {
        var key :| key in todo;
        var b := Drain(buckets[key], now);
        if b.count > 0 { kept := kept[key := b]; }
        todo := todo - {key};
      }
      buckets := kept;
    }
  }

  // ---- the drain ------------------------------------------------------------------------------

  /** One turn of the loop. */
  lemma DrainOne(b: Bucket, decay: int, now: int)
    requires decay > 0 && b.count > 0 && now >= b.nextDrain
    ensures Drained(b, decay, now) == Drained(Bucket(b.count - 1, b.nextDrain + decay), decay, now)
  {
    var next := Bucket(b.count - 1, b.nextDrain + decay);
    var x := now - b.nextDrain;
    DivStep(x, decay);
    var k, k' := Ticks(b, decay, now), Ticks(next, decay, now);
    assert k == k' + 1;
    assert k * decay == k' * decay + decay;
  }

  lemma DivStep(x: int, d: int)
    requires d > 0 && x >= 0
    ensures x < d ==> x / d == 0
    ensures x >= d ==> x / d == (x - d) / d + 1
  {
    if x < d {
      QuotientIs(x, d, 0);
    } else {
      var q := (x - d) / d;
      assert x - d == d * q + (x - d) % d;
      assert d * (q + 1) == d * q + d;
      QuotientIs(x, d, q + 1);
    }
  }

  /** The quotient is the number with the right remainder. */
  lemma QuotientIs(x: int, d: int, q: int)
    requires d > 0 && 0 <= x - d * q < d
    ensures x / d == q
  {
    var p, r := x / d, x % d;
    assert x == d * p + r && 0 <= r < d;
    assert d * (p - q) == d * p - d * q;
    assert -d < d * (p - q) < d;
    assert p - q >= 1 ==> d * (p - q) >= d * 1;
    assert p - q <= -1 ==> d * (p - q) <= d * -1;
  }

  /** Looking at t1 on the way changes nothing at t2. */
  lemma {:induction false} DrainTwice(b: Bucket, decay: int, t1: int, t2: int)
    requires decay > 0 && t1 <= t2
    ensures Drained(Drained(b, decay, t1), decay, t2) == Drained(b, decay, t2)
    decreases b.count
  {
    if b.count > 0 && t1 >= b.nextDrain {
      DrainOne(b, decay, t1);
      DrainOne(b, decay, t2);
      DrainTwice(Bucket(b.count - 1, b.nextDrain + decay), decay, t1, t2);
    }
  }

  /** A drained bucket that still counts drains later than now. */
  lemma {:induction false} DrainedIsAhead(b: Bucket, decay: int, now: int)
    requires decay > 0
    ensures Drained(b, decay, now).count > 0 ==> Drained(b, decay, now).nextDrain > now
    decreases b.count
  {
    if b.count > 0 && now >= b.nextDrain {
      DrainOne(b, decay, now);
      DrainedIsAhead(Bucket(b.count - 1, b.nextDrain + decay), decay, now);
    }
  }

  // ---- Sweep is invisible ---------------------------------------------------------------------

  datatype Event = Query(key: string, at: int) | Fail(key: string, at: int) | SweepAt(at: int)

  function Next(m: Buckets, e: Event, threshold: int, decay: int): Buckets {
    match e
    case Query(key, at) => AfterBlocked(m, key, threshold, decay, at)
    case Fail(key, at) => AfterFailure(m, key, threshold, decay, at)
    case SweepAt(at) => AfterSweep(m, decay, at)
  }

  /** The answers to the queries of a run. */
  function Answers(m: Buckets, es: seq<Event>, threshold: int, decay: int): seq<bool>
    decreases |es|
  {
    if es == [] then [] else
    (if es[0].Query? then [IsBlocked(m, es[0].key, threshold, decay, es[0].at)] else [])
    + Answers(Next(m, es[0], threshold, decay), es[1..], threshold, decay)
  }

  /** Two bucket maps nobody can tell apart from time t on. */
  ghost predicate Alike(m: Buckets, m': Buckets, decay: int, t: int) {
    forall key :: AlikeAt(Look(m, key, decay, t), Look(m', key, decay, t))
  }

  predicate AlikeAt(b: Bucket, b': Bucket) {
    b.count == b'.count && (b.count > 0 ==> b == b')
  }

  lemma LookLater(m: Buckets, key: string, decay: int, t1: int, t2: int)
    requires decay > 0 && t1 <= t2
    ensures Drained(Look(m, key, decay, t1), decay, t2).count == Look(m, key, decay, t2).count
    ensures Look(m, key, decay, t2).count > 0 ==> Drained(Look(m, key, decay, t1), decay, t2) == Look(m, key, decay, t2)
  {
    if key in m { DrainTwice(m[key], decay, t1, t2); }
  }

  lemma AlikeLater(m: Buckets, m': Buckets, decay: int, t1: int, t2: int)
    requires Alike(m, m', decay, t1) && decay > 0 && t1 <= t2
    ensures Alike(m, m', decay, t2)
  {
    forall key ensures AlikeAt(Look(m, key, decay, t2), Look(m', key, decay, t2)) {
      assert AlikeAt(Look(m, key, decay, t1), Look(m', key, decay, t1));
      LookLater(m, key, decay, t1, t2);
      LookLater(m', key, decay, t1, t2);
    }
  }

  /** An event at t changes what is seen at t in the same way on both. */
  lemma NextAlike(m: Buckets, m': Buckets, e: Event, threshold: int, decay: int)
    requires Alike(m, m', decay, e.at) && decay > 0
    ensures Alike(Next(m, e, threshold, decay), Next(m', e, threshold, decay), decay, e.at)
  {
    forall key ensures AlikeAt(Look(Next(m, e, threshold, decay), key, decay, e.at),
                               Look(Next(m', e, threshold, decay), key, decay, e.at)) {
      assert AlikeAt(Look(m, key, decay, e.at), Look(m', key, decay, e.at));
      SeenNow(m, e, threshold, decay, key);
      SeenNow(m', e, threshold, decay, key);
    }
  }

  /** What an event leaves to be seen at its own time. */
  lemma SeenNow(m: Buckets, e: Event, threshold: int, decay: int, key: string)
    requires decay > 0
    ensures var seen, before := Look(Next(m, e, threshold, decay), key, decay, e.at), Look(m, key, decay, e.at);
            if e.Fail? && e.key == key && !Disabled(threshold, key) then seen == Debited(before, decay, e.at)
            else AlikeAt(seen, before)
  {
    if key in m {
      DrainTwice(m[key], decay, e.at, e.at);
      DrainedIsAhead(m[key], decay, e.at);
    }
  }

  ghost predicate Ordered(es: seq<Event>, from: int) {
    (forall i :: 0 <= i < |es| ==> from <= es[i].at) && (forall i, j :: 0 <= i < j < |es| ==> es[i].at <= es[j].at)
  }

  lemma {:induction false} AlikeAnswers(m: Buckets, m': Buckets, es: seq<Event>, threshold: int, decay: int, t: int)
    requires Alike(m, m', decay, t) && decay > 0 && threshold > 0 && Ordered(es, t)
    ensures Answers(m, es, threshold, decay) == Answers(m', es, threshold, decay)
    decreases |es|
  {
    if es != [] {
      var e := es[0];
      AlikeLater(m, m', decay, t, e.at);
      if e.Query? { assert AlikeAt(Look(m, e.key, decay, e.at), Look(m', e.key, decay, e.at)); }
      NextAlike(m, m', e, threshold, decay);
      AlikeAnswers(Next(m, e, threshold, decay), Next(m', e, threshold, decay), es[1..], threshold, decay, e.at);
    }
  }

  /** A sweep changes no later answer, in any run with a monotone clock. */
  lemma SweepIsInvisible(m: Buckets, at: int, es: seq<Event>, threshold: int, decay: int)
    requires decay > 0 && threshold > 0 && Ordered(es, at)
    ensures Answers(AfterSweep(m, decay, at), es, threshold, decay) == Answers(m, es, threshold, decay)
  {
    forall key ensures AlikeAt(Look(AfterSweep(m, decay, at), key, decay, at), Look(m, key, decay, at)) {
      SeenNow(m, SweepAt(at), threshold, decay, key);
    }
    AlikeAnswers(AfterSweep(m, decay, at), m, es, threshold, decay, at);
  }

  // ---- the rate -------------------------------------------------------------------------------

  function AfterFailures(b: Bucket, decay: int, ts: seq<int>): Bucket {
    if ts == [] then b else
    var t := ts[|ts| - 1];
    Debited(Drained(AfterFailures(b, decay, ts[..|ts| - 1]), decay, t), decay, t)
  }

  /** Each failure is recorded only after Blocked said no. */
  ghost predicate Admitted(b: Bucket, threshold: int, decay: int, ts: seq<int>) {
    && (forall i, j :: 0 <= i < j < |ts| ==> ts[i] <= ts[j])
    && (forall i :: 0 <= i < |ts| ==> Drained(AfterFailures(b, decay, ts[..i]), decay, ts[i]).count < threshold)
  }

  /** Ticks that have come due lie a decay apart, the last of them not after now. */
  lemma {:induction false} TicksAreSpaced(b: Bucket, decay: int, now: int)
    requires decay > 0
    ensures var k := Ticks(b, decay, now); k > 0 ==> b.nextDrain + (k - 1) * decay <= now
    decreases b.count
  {
    if b.count > 0 && now >= b.nextDrain {
      var next := Bucket(b.count - 1, b.nextDrain + decay);
      DrainOne(b, decay, now);
      TicksAreSpaced(next, decay, now);
      var k, k' := Ticks(b, decay, now), Ticks(next, decay, now);
      assert k == k' + 1;
      assert k' > 0 ==> k' * decay == (k' - 1) * decay + decay;
    }
  }

  /** The books after some failures, the first at `first` and the latest at `last`: what was
      recorded is still counted or has drained, and the drains lie a decay apart. */
  ghost predicate Books(b: Bucket, threshold: int, decay: int, recorded: nat, drains: nat, first: int, last: int) {
    && 1 <= b.count <= threshold && b.nextDrain > last
    && recorded <= b.count + drains
    && b.nextDrain > first + drains * decay
    && (drains > 0 ==> (drains - 1) * decay < last - first)
  }

  lemma BooksKept(b: Bucket, threshold: int, decay: int, recorded: nat, drains: nat, first: int, last: int, now: int)
    requires decay > 0 && last <= now && Books(b, threshold, decay, recorded, drains, first, last)
    requires Drained(b, decay, now).count < threshold
    ensures Books(Debited(Drained(b, decay, now), decay, now), threshold, decay, recorded + 1,
                  drains + Ticks(b, decay, now), first, now)
  {
    var k := Ticks(b, decay, now);
    TicksAreSpaced(b, decay, now);
    DrainedIsAhead(b, decay, now);
    SpacedDrains(drains, k, decay, first, b.nextDrain, last, now);
  }

  lemma BooksOpened(b: Bucket, threshold: int, decay: int, now: int)
    requires decay > 0 && Drained(b, decay, now).count < threshold
    ensures Books(Debited(Drained(b, decay, now), decay, now), threshold, decay, 1, 0, now, now)
  {
    DrainedIsAhead(b, decay, now);
  }

  lemma AdmittedFront(b: Bucket, threshold: int, decay: int, ts: seq<int>)
    requires ts != [] && Admitted(b, threshold, decay, ts)
    ensures Admitted(b, threshold, decay, ts[..|ts| - 1])
  {
    var front := ts[..|ts| - 1];
    forall i | 0 <= i < |front|
      ensures Drained(AfterFailures(b, decay, front[..i]), decay, front[i]).count < threshold
    {
      assert front[..i] == ts[..i] && front[i] == ts[i];
      assert Drained(AfterFailures(b, decay, ts[..i]), decay, ts[i]).count < threshold;
    }
  }

  lemma {:induction false} Accounting(b: Bucket, threshold: int, decay: int, ts: seq<int>) returns (drains: nat)
    requires decay > 0 && ts != [] && Admitted(b, threshold, decay, ts)
    ensures Books(AfterFailures(b, decay, ts), threshold, decay, |ts|, drains, ts[0], ts[|ts| - 1])
  {
    var n := |ts| - 1;
    var front, t := ts[..n], ts[n];
    var before := AfterFailures(b, decay, front);
    assert Drained(before, decay, t).count < threshold;
    if n == 0 {
      drains := 0;
      BooksOpened(before, threshold, decay, t);
    } else {
      AdmittedFront(b, threshold, decay, ts);
      var d := Accounting(b, threshold, decay, front);
      BooksKept(before, threshold, decay, n, d, ts[0], ts[n - 1], t);
      drains := d + Ticks(before, decay, t);
    }
  }

  lemma SpacedDrains(d: nat, k: nat, decay: int, first: int, due: int, last: int, now: int)
    requires decay > 0 && last <= now && due > first + d * decay
    requires k > 0 ==> due + (k - 1) * decay <= now
    requires d > 0 ==> (d - 1) * decay < last - first
    ensures due + k * decay > first + (d + k) * decay
    ensures k > 0 ==> now + decay > first + (d + k) * decay
    ensures d + k > 0 ==> (d + k - 1) * decay < now - first
  {
    assert (d + k) * decay == d * decay + k * decay;
    if k > 0 {
      assert (d + k - 1) * decay == d * decay + (k - 1) * decay;
      assert k * decay == (k - 1) * decay + decay;
    }
  }

  lemma FailuresBounded(b: Bucket, threshold: int, decay: int, ts: seq<int>, span: nat)
    requires decay > 0 && threshold > 0 && Admitted(b, threshold, decay, ts)
    requires ts != [] ==> ts[|ts| - 1] - ts[0] <= span
    ensures |ts| <= threshold + span / decay + 1
  {
    TicksNonNegative(span, decay);
    if ts != [] {
      var drains := Accounting(b, threshold, decay, ts);
      if drains > 0 {
        BoundedQuotient(drains - 1, decay, span);
      }
    }
  }

  lemma BoundedQuotient(k: int, d: int, x: int)
    requires d > 0 && k * d <= x
    ensures k <= x / d
  {
    var q := x / d;
    assert x == d * q + x % d;
    assert (q + 1) * d == d * q + d;
    if k > q { Multiples(q + 1, k, d); }
  }

  lemma Multiples(a: int, b: int, d: int)
    requires d > 0 && a <= b
    ensures a * d <= b * d
  {
    var c := b - a;
    assert b * d == a * d + c * d;
  }

  // ---- ...along whole runs --------------------------------------------------------------------

  function After(m: Buckets, es: seq<Event>, threshold: int, decay: int): Buckets {
    if es == [] then m else Next(After(m, es[..|es| - 1], threshold, decay), es[|es| - 1], threshold, decay)
  }

  /** When failures of a key were recorded. */
  function FailTimes(es: seq<Event>, key: string): seq<int> {
    if es == [] then [] else
    FailTimes(es[..|es| - 1], key) + if es[|es| - 1].Fail? && es[|es| - 1].key == key then [es[|es| - 1].at] else []
  }

  /** Failures of the key are recorded only while it is not blocked. */
  ghost predicate Guarded(m: Buckets, es: seq<Event>, key: string, threshold: int, decay: int) {
    forall i :: 0 <= i < |es| && es[i].Fail? && es[i].key == key ==>
      !IsBlocked(After(m, es[..i], threshold, decay), key, threshold, decay, es[i].at)
  }

  lemma AlikeDrained(b: Bucket, b': Bucket, decay: int, t: int)
    requires AlikeAt(b, b')
    ensures AlikeAt(Drained(b, decay, t), Drained(b', decay, t))
  {
  }

  /** What the key's bucket would be, had only its failures happened. */
  function Folded(m: Buckets, es: seq<Event>, key: string, decay: int, from: int): Bucket {
    AfterFailures(Look(m, key, decay, from), decay, FailTimes(es, key))
  }

  /** A debited bucket drains after now. */
  lemma DebitedStays(b: Bucket, decay: int, now: int)
    requires decay > 0
    ensures var d := Debited(Drained(b, decay, now), decay, now); Drained(d, decay, now) == d
  {
    DrainedIsAhead(b, decay, now);
  }

  lemma FoldedSnoc(m: Buckets, es: seq<Event>, e: Event, key: string, decay: int, from: int)
    ensures FailTimes(es + [e], key) == FailTimes(es, key) + if e.Fail? && e.key == key then [e.at] else []
    ensures Folded(m, es + [e], key, decay, from)
         == if e.Fail? && e.key == key then Debited(Drained(Folded(m, es, key, decay, from), decay, e.at), decay, e.at)
            else Folded(m, es, key, decay, from)
  {
    assert (es + [e])[..|es|] == es;
    var ts := FailTimes(es, key);
    assert (ts + [e.at])[..|ts|] == ts;
    assert ts + [] == ts;
  }

  /** At the time of an event, queries and sweeps before it have left no trace. */
  lemma SeenAfter(m: Buckets, es: seq<Event>, e: Event, key: string, threshold: int, decay: int, from: int)
    requires decay > 0 && !Disabled(threshold, key)
    requires AlikeAt(Look(After(m, es, threshold, decay), key, decay, e.at),
                     Drained(Folded(m, es, key, decay, from), decay, e.at))
    ensures AlikeAt(Look(After(m, es + [e], threshold, decay), key, decay, e.at),
                    Drained(Folded(m, es + [e], key, decay, from), decay, e.at))
  {
    var now := After(m, es, threshold, decay);
    assert (es + [e])[..|es|] == es;
    FoldedSnoc(m, es, e, key, decay, from);
    SeenNow(now, e, threshold, decay, key);
    if e.Fail? && e.key == key { DebitedStays(Folded(m, es, key, decay, from), decay, e.at); }
  }

  lemma SeenLater(m: Buckets, b: Bucket, key: string, decay: int, t1: int, t2: int)
    requires decay > 0 && t1 <= t2 && AlikeAt(Look(m, key, decay, t1), Drained(b, decay, t1))
    ensures AlikeAt(Look(m, key, decay, t2), Drained(b, decay, t2))
  {
    LookLater(m, key, decay, t1, t2);
    DrainTwice(b, decay, t1, t2);
    AlikeDrained(Look(m, key, decay, t1), Drained(b, decay, t1), decay, t2);
  }

  /** In every run, what is seen of a key is what its failures alone would leave. */
  lemma {:induction false} OnlyFailuresCount(m: Buckets, es: seq<Event>, key: string, threshold: int, decay: int,
                                             from: int, t: int)
    requires decay > 0 && !Disabled(threshold, key) && Ordered(es, from) && from <= t && forall i :: 0 <= i < |es| ==>
      es[i].at <= t
    ensures AlikeAt(Look(After(m, es, threshold, decay), key, decay, t),
                    Drained(Folded(m, es, key, decay, from), decay, t))
    decreases |es|
  {
    if es == [] {
      LookLater(m, key, decay, from, t);
    } else {
      var front, e := es[..|es| - 1], es[|es| - 1];
      OnlyFailuresCount(m, front, key, threshold, decay, from, e.at);
      SeenAfter(m, front, e, key, threshold, decay, from);
      assert front + [e] == es;
      SeenLater(After(m, es, threshold, decay), Folded(m, es, key, decay, from), key, decay, e.at, t);
    }
  }

  lemma AdmittedMore(b: Bucket, threshold: int, decay: int, ts: seq<int>, t: int)
    requires Admitted(b, threshold, decay, ts) && (forall i :: 0 <= i < |ts| ==> ts[i] <= t)
    requires Drained(AfterFailures(b, decay, ts), decay, t).count < threshold
    ensures Admitted(b, threshold, decay, ts + [t])
  {
    var all := ts + [t];
    forall i | 0 <= i < |all| ensures Drained(AfterFailures(b, decay, all[..i]), decay, all[i]).count < threshold {
      assert all[..i] == ts[..i];
      assert i == |ts| ==> ts[..i] == ts;
    }
  }

  lemma GuardedFront(m: Buckets, es: seq<Event>, key: string, threshold: int, decay: int)
    requires es != [] && Guarded(m, es, key, threshold, decay)
    ensures Guarded(m, es[..|es| - 1], key, threshold, decay)
  {
    var front := es[..|es| - 1];
    forall i | 0 <= i < |front| && front[i].Fail? && front[i].key == key
      ensures !IsBlocked(After(m, front[..i], threshold, decay), key, threshold, decay, front[i].at)
    {
      assert front[..i] == es[..i];
    }
  }

  lemma {:induction false} GuardedIsAdmitted(m: Buckets, es: seq<Event>, key: string, threshold: int, decay: int,
                                             from: int)
    requires decay > 0 && !Disabled(threshold, key) && Ordered(es, from) && Guarded(m, es, key, threshold, decay)
    ensures Admitted(Look(m, key, decay, from), threshold, decay, FailTimes(es, key))
    decreases |es|
  {
    if es != [] {
      var front, e := es[..|es| - 1], es[|es| - 1];
      GuardedFront(m, es, key, threshold, decay);
      FrontIsEarlier(es, from);
      GuardedIsAdmitted(m, front, key, threshold, decay, from);
      L.FrontLast(es);
      FoldedSnoc(m, front, e, key, decay, from);
      if e.Fail? && e.key == key {
        LastIsAdmitted(m, front, e, key, threshold, decay, from);
        TimesBetween(front, key, from, e.at);
        AdmittedMore(Look(m, key, decay, from), threshold, decay, FailTimes(front, key), e.at);
      } else {
        assert FailTimes(front, key) + [] == FailTimes(front, key);
      }
    }
  }

  lemma FrontIsEarlier(es: seq<Event>, from: int)
    requires es != [] && Ordered(es, from)
    ensures var front, e := es[..|es| - 1], es[|es| - 1];
            Ordered(front, from) && forall i :: 0 <= i < |front| ==> from <= front[i].at <= e.at
  {
  }

  lemma LastIsAdmitted(m: Buckets, front: seq<Event>, e: Event, key: string, threshold: int, decay: int, from: int)
    requires decay > 0 && !Disabled(threshold, key) && Ordered(front + [e], from)
    requires !IsBlocked(After(m, front, threshold, decay), key, threshold, decay, e.at)
    ensures Drained(Folded(m, front, key, decay, from), decay, e.at).count < threshold
  {
    var all := front + [e];
    assert all[|front|] == e && forall i :: 0 <= i < |front| ==> all[i] == front[i];
    OnlyFailuresCount(m, front, key, threshold, decay, from, e.at);
  }

  lemma {:induction false} TimesBetween(es: seq<Event>, key: string, lo: int, hi: int)
    requires forall i :: 0 <= i < |es| ==> lo <= es[i].at <= hi
    ensures forall i :: 0 <= i < |FailTimes(es, key)| ==> lo <= FailTimes(es, key)[i] <= hi
  {
    if es != [] { TimesBetween(es[..|es| - 1], key, lo, hi); }
  }

  /** Any span of any run of queries, failures and sweeps, in which a key's failures are recorded only
      while it is not blocked, records at most threshold + floor(span / decay) + 1 of them. */
  lemma RateBound(m: Buckets, es: seq<Event>, key: string, threshold: int, decay: int, from: int, span: nat)
    requires decay > 0 && threshold > 0 && key != "" && Ordered(es, from) && Guarded(m, es, key, threshold, decay)
    requires forall i :: 0 <= i < |es| ==> es[i].at <= from + span
    ensures |FailTimes(es, key)| <= threshold + span / decay + 1
  {
    GuardedIsAdmitted(m, es, key, threshold, decay, from);
    TimesBetween(es, key, from, from + span);
    FailuresBounded(Look(m, key, decay, from), threshold, decay, FailTimes(es, key), span);
  }

  // ---- ...and not too early -------------------------------------------------------------------

  /** Failures at these times, all within a decay of the first. */
  ghost predicate Burst(ts: seq<int>, decay: int) {
    ts != [] && forall i :: 0 <= i < |ts| ==> ts[0] <= ts[i] < ts[0] + decay
  }

  lemma {:induction false} BurstFills(ts: seq<int>, decay: int)
    requires decay > 0 && Burst(ts, decay)
    ensures AfterFailures(Bucket(0, 0), decay, ts) == Bucket(|ts|, ts[0] + decay)
  {
    var front, t := ts[..|ts| - 1], ts[|ts| - 1];
    if front != [] {
      assert front[0] == ts[0] && forall i :: 0 <= i < |front| ==> front[i] == ts[i];
      BurstFills(front, decay);
      assert t < ts[0] + decay;
    }
  }

  lemma DivBelow(x: int, d: int, k: int)
    requires x >= 0 && d > 0
    ensures x / d < k <==> x < k * d
  {
    var q, r := x / d, x % d;
    assert x == q * d + r && 0 <= r < d;
    if q < k {
      Multiples(q + 1, k, d);
      assert (q + 1) * d == q * d + d;
    } else {
      Multiples(k, q, d);
    }
  }

  /** How long n failures hold the count at the threshold. */
  lemma HeldUntil(n: nat, first: int, threshold: int, decay: int, now: int)
    requires decay > 0 && threshold > 0 && first <= now
    ensures Drained(Bucket(n, first + decay), decay, now).count >= threshold <==>
      n >= threshold && now < first + (n - threshold + 1) * decay
  {
    var x := now - first - decay;
    if n < threshold {
    } else if x < 0 {
      Multiples(1, n - threshold + 1, decay);
    } else {
      DivBelow(x, decay, n - threshold);
      TicksNonNegative(x, decay);
      assert (n - threshold + 1) * decay == (n - threshold) * decay + decay;
    }
  }

  /** n failures within a decay of the first block the key if n reaches the threshold, and then for n + 1 -
      threshold decays from the first: whatever else was asked, recorded of others or swept meanwhile. */
  lemma BlockedIff(m: Buckets, es: seq<Event>, key: string, threshold: int, decay: int, from: int, now: int)
    requires decay > 0 && threshold > 0 && key != "" && key !in m && Ordered(es, from) && from <= now
    requires (forall i :: 0 <= i < |es| ==> es[i].at <= now) && Burst(FailTimes(es, key), decay)
    ensures var ts := FailTimes(es, key);
            IsBlocked(After(m, es, threshold, decay), key, threshold, decay, now) <==>
            |ts| >= threshold && now < ts[0] + (|ts| - threshold + 1) * decay
  {
    var ts := FailTimes(es, key);
    BurstFills(ts, decay);
    OnlyFailuresCount(m, es, key, threshold, decay, from, now);
    TimesBetween(es, key, from, now);
    HeldUntil(|ts|, ts[0], threshold, decay, now);
  }
}
