/** What an attempt at a row means for each of its recipients, in the replies' own codes and the queue's own
    numbers. */
module QueueLaws {
  import opened Ascii
  import opened Delivery
  import opened Outbound
  import L = Lists

  /** The domain is what stands behind the last '@', in small letters. */
  lemma DomainMeaning(local: string, domain: string)
    requires '@' !in domain
    ensures WellFormed(local + "@" + domain) && Domain(local + "@" + domain) == Lower(domain)
  {
    var s := local + "@" + domain;
    AfterAtJoin(local, domain);
    assert s[|local|] == '@' && s[|local| + 1..] == domain;
  }

  predicate InDomain(rcpt: string, domain: string) {
    '@' in rcpt && Domain(rcpt) == domain
  }

  /** The recipients of a domain among the first k. */
  function Earlier(rcpts: seq<string>, k: nat, domain: string): set<nat>
    requires k <= |rcpts|
  {
    set j: nat | j < k && InDomain(rcpts[j], domain)
  }

  lemma {:induction false} BucketCounts(rcpts: seq<string>, k: nat, front: seq<string>, domain: string)
    requires k <= |rcpts| && front == rcpts[..k]
    ensures |Bucket(front, domain)| == |Earlier(rcpts, k, domain)|
  {
    if k > 0 {
      var less, last := rcpts[..k - 1], rcpts[k - 1];
      BucketCounts(rcpts, k - 1, less, domain);
      L.TakeOneMore(rcpts, k - 1);
      BucketGrows(less, last, front, domain);
      EarlierSnoc(rcpts, k - 1, domain);
    }
  }

  lemma BucketGrows(front: seq<string>, last: string, all: seq<string>, domain: string)
    requires all == front + [last]
    ensures |Bucket(all, domain)| == |Bucket(front, domain)| + if InDomain(last, domain) then 1 else 0
  {
    BucketSnoc(front, last, domain);
  }

  lemma EarlierSnoc(rcpts: seq<string>, k: nat, domain: string)
    requires k < |rcpts|
    ensures Earlier(rcpts, k + 1, domain) == Earlier(rcpts, k, domain) + if InDomain(rcpts[k], domain) then {k} else {}
    ensures k !in Earlier(rcpts, k, domain)
  {
  }

  /** The verdict on recipient k: its domain's conversation, at its place there. */
  predicate Placed(rcpts: seq<string>, remotes: string -> Remote, v: Verdict, r: string, k: nat) {
    && k < |rcpts| && rcpts[k] == r && '@' in r
    && Judge(remotes(Domain(r)), |Earlier(rcpts, k, Domain(r))|) == v
  }

  lemma {:induction false} JudgedMember(rcpts: seq<string>, n: nat, front: seq<string>, remotes: string -> Remote,
                                        v: Verdict, r: string)
    requires n <= |rcpts| && front == rcpts[..n]
    ensures r in Judged(front, remotes, v) <==> exists k: nat :: k < n && Placed(rcpts, remotes, v, r, k)
  {
    if n > 0 {
      var less, last := rcpts[..n - 1], rcpts[n - 1];
      JudgedMember(rcpts, n - 1, less, remotes, v, r);
      L.TakeOneMore(rcpts, n - 1);
      JudgedGrows(rcpts, n - 1, less, last, front, remotes, v, r);
      PlacedGrows(rcpts, n - 1, remotes, v, r);
    }
  }

  lemma JudgedGrows(rcpts: seq<string>, n: nat, front: seq<string>, last: string, all: seq<string>,
                    remotes: string -> Remote, v: Verdict, r: string)
    requires n < |rcpts| && front == rcpts[..n] && last == rcpts[n] && all == front + [last]
    ensures r in Judged(all, remotes, v) <==> r in Judged(front, remotes, v) || Placed(rcpts, remotes, v, r, n)
  {
    JudgedSnoc(front, last, remotes, v);
    BucketCounts(rcpts, n, front, Domain(last));
  }

  lemma PlacedGrows(rcpts: seq<string>, n: nat, remotes: string -> Remote, v: Verdict, r: string)
    requires n < |rcpts|
    ensures (exists k: nat :: k < n + 1 && Placed(rcpts, remotes, v, r, k))
            <==> (exists k: nat :: k < n && Placed(rcpts, remotes, v, r, k)) || Placed(rcpts, remotes, v, r, n)
  {
  }

  lemma JudgedIff(rcpts: seq<string>, remotes: string -> Remote, v: Verdict, r: string)
    ensures r in Judged(rcpts, remotes, v) <==> exists k: nat :: Placed(rcpts, remotes, v, r, k)
  {
    assert rcpts[..|rcpts|] == rcpts;
    JudgedMember(rcpts, |rcpts|, rcpts, remotes, v, r);
    if k: nat :| Placed(rcpts, remotes, v, r, k) { assert k < |rcpts|; }
  }

  /** Recipient k of the row is r, and its place in its domain's conversation is `i`. */
  ghost predicate Spoken(row: Row, remotes: string -> Remote, r: string, k: nat, remote: Remote, i: nat) {
    && k < |row.recipients| && row.recipients[k] == r && '@' in r && remote == remotes(Domain(r))
    && i == |Earlier(row.recipients, k, Domain(r))|
  }

  lemma SpokenIff(row: Row, remotes: string -> Remote, v: Verdict, r: string)
    ensures r in Judged(row.recipients, remotes, v)
            <==> exists k: nat, remote, i: nat :: Spoken(row, remotes, r, k, remote, i) && Judge(remote, i) == v
  {
    var rcpts := row.recipients;
    JudgedIff(rcpts, remotes, v, r);
    if k: nat :| Placed(rcpts, remotes, v, r, k) {
      assert Spoken(row, remotes, r, k, remotes(Domain(r)), |Earlier(rcpts, k, Domain(r))|);
    }
    if k: nat, remote, i: nat :| Spoken(row, remotes, r, k, remote, i) && Judge(remote, i) == v {
      assert Placed(rcpts, remotes, v, r, k);
    }
  }

  /** A recipient is reported to the sender if and only if some reply to it is final, or it is not delivered
      at the fifth attempt. */
  lemma GivenUpIff(row: Row, remotes: string -> Remote, r: string)
    ensures r in GivenUp(row, remotes) <==> exists k: nat, remote, i: nat ::
      Spoken(row, remotes, r, k, remote, i) && (Bounced(remote, i) || (row.attempts >= 4 && !TakenOver(remote, i)))
  {
    SpokenIff(row, remotes, Permanent, r);
    SpokenIff(row, remotes, Temporary, r);
    forall remote, i: nat ensures Judge(remote, i)
        == if TakenOver(remote, i) then Delivered else if Bounced(remote, i) then Permanent else Temporary {
      JudgeMeaning(remote, i);
    }
    assert MAX_ATTEMPTS == 5;
  }

  /** It is tried again if and only if it is neither delivered nor given up, before the fifth attempt. */
  lemma StaysIff(row: Row, remotes: string -> Remote, r: string)
    ensures r in StillDeferred(row, remotes) <==> row.attempts < 4 && exists k: nat, remote, i: nat ::
      Spoken(row, remotes, r, k, remote, i) && !TakenOver(remote, i) && !Bounced(remote, i)
  {
    SpokenIff(row, remotes, Temporary, r);
    forall remote, i: nat ensures Judge(remote, i)
        == if TakenOver(remote, i) then Delivered else if Bounced(remote, i) then Permanent else Temporary {
      JudgeMeaning(remote, i);
    }
    assert MAX_ATTEMPTS == 5;
  }

  /** The retries wait five, ten, twenty and forty minutes; beyond, twice as long up to six hours. */
  lemma WaitTable(n: nat)
    requires n >= 1
    ensures Wait(1) == 5 * 60 && Wait(2) == 10 * 60 && Wait(3) == 20 * 60 && Wait(4) == 40 * 60
    ensures Wait(n + 1) == if 2 * Wait(n) < 6 * 3600 then 2 * Wait(n) else 6 * 3600
  {
    assert Pow2(0) == 1 && Pow2(1) == 2 && Pow2(2) == 4 && Pow2(3) == 8;
    assert Pow2(n) == 2 * Pow2(n - 1);
  }

  predicate Relays(rcpts: seq<string>, resolve: string -> Destinations, r: string, k: nat) {
    k < |rcpts| && var d := resolve(rcpts[k]); r in d.remote || (r == rcpts[k] && d == Destinations([], []))
  }

  /** What leaves the host: the remote destinations of each address, and every address that has none at all. */
  lemma {:induction false} RelayedIff(rcpts: seq<string>, n: nat, front: seq<string>, resolve: string -> Destinations,
                                      r: string)
    requires n <= |rcpts| && front == rcpts[..n]
    ensures r in RelayedAll(front, resolve) <==> exists k: nat :: k < n && Relays(rcpts, resolve, r, k)
  {
    if n > 0 {
      var less := rcpts[..n - 1];
      RelayedIff(rcpts, n - 1, less, resolve, r);
      assert front[..|front| - 1] == less && front[|front| - 1] == rcpts[n - 1];
      assert RelayedAll(front, resolve) == RelayedAll(less, resolve) + Relayed(rcpts[n - 1], resolve);
      assert r in Relayed(rcpts[n - 1], resolve) <==> Relays(rcpts, resolve, r, n - 1);
    }
  }
}
