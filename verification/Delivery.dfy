/** One delivery attempt of the outbound queue: how remote replies split a row's recipients. */
module Delivery {
  import opened Ascii
  import L = Lists

  datatype Reply = Accepted | Refused(code: int) | Lost   // Lost: an error without an SMTP code

  /** One conversation with a domain's mail hosts. */
  datatype Remote =
    | Unresolved
    | Unreachable(policyRefused: bool)                    // MTA-STS enforce mode refused every host
    | NoGreeting
    | Session(mail: Reply, rcpt: nat -> Reply, data: Reply)

  datatype Verdict = Delivered | Temporary | Permanent

  datatype Reason = CouldNotResolve | CouldNotConnect | EhloFailed | MailRejected | RcptRejected | DataRejected
  datatype Failure = Failure(recipient: string, reason: Reason)

  predicate IsPermanent(r: Reply) {
    r.Refused? && 500 <= r.code < 600
  }

  function Severity(r: Reply): Verdict {
    if IsPermanent(r) then Permanent else Temporary
  }

  /** What the replies mean for the recipient announced as number `i`. */
  function Judge(remote: Remote, i: nat): Verdict {
    match remote
    case Unresolved => Temporary
    case Unreachable(policyRefused) => if policyRefused then Permanent else Temporary
    case NoGreeting => Temporary
    case Session(mail, rcpt, data) =>
      if mail != Accepted then Severity(mail)
      else if rcpt(i) != Accepted then Severity(rcpt(i))
      else if data != Accepted then Severity(data)
      else Delivered
  }

  // ---- addresses ------------------------------------------------------------------------------

  /** The position just after the last '@', or zero when there is none. */
  function AfterAt(s: string): (n: nat)
    ensures n <= |s| && (n == 0 <==> '@' !in s)
    ensures n > 0 ==> s[n - 1] == '@' && '@' !in s[n..]
  {
    if s == [] then 0
    else if s[|s| - 1] == '@' then |s|
    else var n := AfterAt(s[..|s| - 1]);
      assert s == s[..|s| - 1] + [s[|s| - 1]];
      assert n > 0 ==> s[n..] == s[..|s| - 1][n..] + [s[|s| - 1]];
      n
  }

  /** The last '@' of a join is the joining one when the right side has none. */
  lemma AfterAtJoin(a: string, b: string)
    requires '@' !in b
    ensures AfterAt(a + "@" + b) == |a| + 1
  {
    var s := a + "@" + b;
    var n := AfterAt(s);
    assert s[|a|] == '@';
    if n < |a| + 1 {
      assert s[n..][|a| - n] == '@';
    } else if n > |a| + 1 {
      assert s[n - 1] == b[n - |a| - 2];
    }
  }

  predicate WellFormed(rcpt: string) {
    '@' in rcpt
  }

  function Domain(rcpt: string): string {
    Lower(rcpt[AfterAt(rcpt)..])
  }

  /** The well-formed recipients of one domain, in order. */
  function Bucket(rcpts: seq<string>, domain: string): seq<string> {
    if rcpts == [] then [] else
    var last := rcpts[|rcpts| - 1];
    Bucket(rcpts[..|rcpts| - 1], domain) + if WellFormed(last) && Domain(last) == domain then [last] else []
  }

  function Malformed(rcpts: seq<string>): multiset<string> {
    if rcpts == [] then multiset{} else
    var last := rcpts[|rcpts| - 1];
    Malformed(rcpts[..|rcpts| - 1]) + if WellFormed(last) then multiset{} else multiset{last}
  }

  // ---- reference: who gets which verdict ------------------------------------------------------

  /** The recipients of one conversation with verdict `v`. */
  function Tally(rcpts: seq<string>, remote: Remote, v: Verdict): multiset<string> {
    if rcpts == [] then multiset{} else
    Tally(rcpts[..|rcpts| - 1], remote, v)
    + if Judge(remote, |rcpts| - 1) == v then multiset{rcpts[|rcpts| - 1]} else multiset{}
  }

  /** The same over a whole row: each recipient is judged by its own domain's conversation, at its
      place among the recipients of that domain. */
  function Judged(rcpts: seq<string>, remotes: string -> Remote, v: Verdict): multiset<string> {
    if rcpts == [] then multiset{} else
    var front, last := rcpts[..|rcpts| - 1], rcpts[|rcpts| - 1];
    Judged(front, remotes, v)
    + if WellFormed(last) && Judge(remotes(Domain(last)), |Bucket(front, Domain(last))|) == v then multiset{last}
      else multiset{}
  }

  function When(yes: bool, r: string): multiset<string> {
    if yes then multiset{r} else multiset{}
  }

  predicate IsJudged(front: seq<string>, last: string, remotes: string -> Remote, v: Verdict) {
    WellFormed(last) && Judge(remotes(Domain(last)), |Bucket(front, Domain(last))|) == v
  }

  lemma JudgedSnoc(front: seq<string>, last: string, remotes: string -> Remote, v: Verdict)
    ensures Judged(front + [last], remotes, v)
      == Judged(front, remotes, v) + When(IsJudged(front, last, remotes, v), last)
  {
    assert (front + [last])[..|front|] == front;
  }

  lemma BucketSnoc(front: seq<string>, last: string, d: string)
    ensures Bucket(front + [last], d) == if WellFormed(last) && Domain(last) == d then Bucket(front, d) + [last]
      else Bucket(front, d)
  {
    assert (front + [last])[..|front|] == front;
    assert Bucket(front, d) + [] == Bucket(front, d);
  }

  lemma TallySnoc(front: seq<string>, last: string, remote: Remote, v: Verdict)
    ensures Tally(front + [last], remote, v) == Tally(front, remote, v) + When(Judge(remote, |front|) == v, last)
  {
    assert (front + [last])[..|front|] == front;
  }

  /** Every recipient is malformed or has exactly one verdict. */
  lemma {:induction false} Conserved(rcpts: seq<string>, remotes: string -> Remote)
    ensures multiset(rcpts) == Judged(rcpts, remotes, Delivered) + Judged(rcpts, remotes, Temporary)
                               + Judged(rcpts, remotes, Permanent) + Malformed(rcpts)
  {
    if rcpts != [] {
      var front, last := rcpts[..|rcpts| - 1], rcpts[|rcpts| - 1];
      L.FrontLast(rcpts);
      Conserved(front, remotes);
      JudgedSnoc(front, last, remotes, Delivered);
      JudgedSnoc(front, last, remotes, Temporary);
      JudgedSnoc(front, last, remotes, Permanent);
      assert Malformed(rcpts) == Malformed(front) + When(!WellFormed(last), last);
      assert When(IsJudged(front, last, remotes, Delivered), last)
        + When(IsJudged(front, last, remotes, Temporary), last)
           + When(IsJudged(front, last, remotes, Permanent), last) + When(!WellFormed(last), last) == multiset{last};
    }
  }

  // ---- one conversation -----------------------------------------------------------------------

  function Recipients(fs: seq<Failure>): (out: seq<string>)
    ensures |out| == |fs| && forall i :: 0 <= i < |fs| ==> out[i] == fs[i].recipient
  {
    seq(|fs|, i requires 0 <= i < |fs| => fs[i].recipient)
  }

  function FailuresFor(rcpts: seq<string>, reason: Reason): (out: seq<Failure>)
    ensures Recipients(out) == rcpts
  {
    seq(|rcpts|, i requires 0 <= i < |rcpts| => Failure(rcpts[i], reason))
  }

  lemma RecipientsConcat(a: seq<Failure>, b: seq<Failure>)
    ensures Recipients(a + b) == Recipients(a) + Recipients(b)
  {
  }

  /** A conversation with one verdict for all. */
  lemma {:induction false} TallyUniform(rcpts: seq<string>, remote: Remote, v: Verdict, w: Verdict)
    requires forall i: nat :: i < |rcpts| ==> Judge(remote, i) == v
    ensures Tally(rcpts, remote, w) == if w == v then multiset(rcpts) else multiset{}
  {
    if rcpts != [] {
      TallyUniform(rcpts[..|rcpts| - 1], remote, v, w);
      assert rcpts == rcpts[..|rcpts| - 1] + [rcpts[|rcpts| - 1]];
    }
  }

  ghost predicate Splits(rcpts: seq<string>, remote: Remote, temp: seq<Failure>, perm: seq<Failure>,
                         delivered: seq<string>) {
    && multiset(delivered) == Tally(rcpts, remote, Delivered)
    && multiset(Recipients(temp)) == Tally(rcpts, remote, Temporary)
    && multiset(Recipients(perm)) == Tally(rcpts, remote, Permanent)
  }

  lemma UniformSplits(rcpts: seq<string>, remote: Remote, v: Verdict, reason: Reason)
    requires forall i: nat :: i < |rcpts| ==> Judge(remote, i) == v
    ensures v == Temporary ==> Splits(rcpts, remote, FailuresFor(rcpts, reason), [], [])
    ensures v == Permanent ==> Splits(rcpts, remote, [], FailuresFor(rcpts, reason), [])
  {
    TallyUniform(rcpts, remote, v, Delivered);
    TallyUniform(rcpts, remote, v, Temporary);
    TallyUniform(rcpts, remote, v, Permanent);
    assert Recipients([]) == [];
  }

  /** The conversation's RCPT phase alone, as if DATA were accepted. */
  function RcptOnly(remote: Remote): Remote
    requires remote.Session?
  {
    remote.(data := Accepted)
  }

  lemma JudgeOnly(remote: Remote, i: nat)
    requires remote.Session? && remote.mail == Accepted
    ensures Judge(RcptOnly(remote), i) == if remote.rcpt(i) == Accepted then Delivered else Severity(remote.rcpt(i))
    ensures remote.data != Accepted && Judge(RcptOnly(remote), i) == Delivered ==>
      Judge(remote, i) == Severity(remote.data)
    ensures Judge(RcptOnly(remote), i) != Delivered ==> Judge(remote, i) == Judge(RcptOnly(remote), i)
  {
  }

  /** A DATA verdict falls on exactly the recipients accepted at RCPT. */
  lemma {:induction false} DataDecides(rcpts: seq<string>, remote: Remote, v: Verdict)
    requires remote.Session? && remote.mail == Accepted && remote.data != Accepted
    ensures Tally(rcpts, remote, v) == (if v == Delivered then multiset{} else Tally(rcpts, RcptOnly(remote), v))
                                       + (if v == Severity(remote.data) then Tally(rcpts, RcptOnly(remote), Delivered)
                                          else multiset{})
  {
    if rcpts != [] {
      var front, last := rcpts[..|rcpts| - 1], rcpts[|rcpts| - 1];
      L.FrontLast(rcpts);
      var only := RcptOnly(remote);
      DataDecides(front, remote, v);
      TallySnoc(front, last, remote, v);
      TallySnoc(front, last, only, v);
      TallySnoc(front, last, only, Delivered);
      JudgeOnly(remote, |front|);
      Overruled(Tally(front, remote, v), Tally(front, only, v), Tally(front, only, Delivered), last,
                v, Severity(remote.data), Judge(only, |front|), Judge(remote, |front|));
    }
  }

  /** One more recipient: `early` is its verdict at RCPT, `late` after a refused DATA. */
  lemma Overruled(all: multiset<string>, some: multiset<string>, taken: multiset<string>, last: string,
                  v: Verdict, data: Verdict, early: Verdict, late: Verdict)
    requires data != Delivered && late == if early == Delivered then data else early
    requires all == (if v == Delivered then multiset{} else some) + (if v == data then taken else multiset{})
    ensures all + When(late == v, last) == (if v == Delivered then multiset{} else some + When(early == v, last))
                                           + (if v == data then taken + When(early == Delivered, last) else multiset{})
  {
  }

  lemma SplitsSnoc(front: seq<string>, last: string, remote: Remote, temp: seq<Failure>, perm: seq<Failure>,
                   ok: seq<string>)
    requires Splits(front, remote, temp, perm, ok)
    ensures var f := Failure(last, RcptRejected);
            match Judge(remote, |front|)
            case Delivered => Splits(front + [last], remote, temp, perm, ok + [last])
            case Temporary => Splits(front + [last], remote, temp + [f], perm, ok)
            case Permanent => Splits(front + [last], remote, temp, perm + [f], ok)
  {
    TallySnoc(front, last, remote, Delivered);
    TallySnoc(front, last, remote, Temporary);
    TallySnoc(front, last, remote, Permanent);
    var f := Failure(last, RcptRejected);
    match Judge(remote, |front|)
    case Delivered =>
    case Temporary => RecipientsConcat(temp, [f]); assert Recipients([f]) == [last];
    case Permanent => RecipientsConcat(perm, [f]); assert Recipients([f]) == [last];
  }

  method RcptPhase(rcpts: seq<string>, remote: Remote)
    returns (temp: seq<Failure>, perm: seq<Failure>, accepted: seq<string>)
    requires remote.Session? && remote.mail == Accepted
    ensures Splits(rcpts, RcptOnly(remote), temp, perm, accepted)
  {
    temp, perm, accepted := [], [], [];
    ghost var only := RcptOnly(remote);
    for i := 0 to |rcpts|
      invariant Splits(rcpts[..i], only, temp, perm, accepted)
    {
      var reply := remote.rcpt(i);
      L.TakeOneMore(rcpts, i);
      SplitsSnoc(rcpts[..i], rcpts[i], only, temp, perm, accepted);
      JudgeOnly(remote, i);
      if reply != Accepted {
        if IsPermanent(reply) {
          perm := perm + [Failure(rcpts[i], RcptRejected)];
        } else {
          temp := temp + [Failure(rcpts[i], RcptRejected)];
        }
      } else {
        accepted := accepted + [rcpts[i]];
      }
    }
    assert rcpts[..|rcpts|] == rcpts;
  }

  // ---- in the replies' own codes --------------------------------------------------------------

  /** A reply of the 5xx class. */
  predicate Is5xx(r: Reply) {
    r.Refused? && 500 <= r.code <= 599
  }

  /** Given up for recipient `i`: no host the policy allows, or the first reply that is not an acceptance is
      a 5xx. */
  predicate Bounced(remote: Remote, i: nat) {
    || remote == Unreachable(true)
    || (remote.Session? && Is5xx(remote.mail))
    || (remote.Session? && remote.mail == Accepted && Is5xx(remote.rcpt(i)))
    || (remote.Session? && remote.mail == Accepted && remote.rcpt(i) == Accepted && Is5xx(remote.data))
  }

  predicate TakenOver(remote: Remote, i: nat) {
    remote.Session? && remote.mail == Accepted && remote.rcpt(i) == Accepted && remote.data == Accepted
  }

  lemma JudgeMeaning(remote: Remote, i: nat)
    ensures Judge(remote, i) == if TakenOver(remote, i) then Delivered else if Bounced(remote, i) then Permanent
      else Temporary
  {
  }

  predicate Gets(rcpts: seq<string>, remote: Remote, v: Verdict, r: string, i: nat) {
    i < |rcpts| && rcpts[i] == r && Judge(remote, i) == v
  }

  lemma {:induction false} TallyMember(rcpts: seq<string>, remote: Remote, v: Verdict, r: string)
    ensures r in Tally(rcpts, remote, v) <==> exists i :: Gets(rcpts, remote, v, r, i)
  {
    if rcpts != [] {
      var front, last := rcpts[..|rcpts| - 1], rcpts[|rcpts| - 1];
      L.FrontLast(rcpts);
      TallySnoc(front, last, remote, v);
      TallyMember(front, remote, v, r);
      GetsSnoc(front, last, rcpts, remote, v, r);
    }
  }

  lemma GetsSnoc(front: seq<string>, last: string, all: seq<string>, remote: Remote, v: Verdict, r: string)
    requires all == front + [last]
    ensures (exists i :: Gets(all, remote, v, r, i))
            <==> (exists i :: Gets(front, remote, v, r, i)) || (last == r && Judge(remote, |front|) == v)
  {
    if i: nat :| Gets(front, remote, v, r, i) { assert Gets(all, remote, v, r, i); }
    if i: nat :| Gets(all, remote, v, r, i) && i < |front| { assert Gets(front, remote, v, r, i); }
    if last == r && Judge(remote, |front|) == v { assert Gets(all, remote, v, r, |front|); }
  }

  /** Who is delivered and who is given up, in literal codes; the others are tried again. */
  ghost predicate Sorted(rcpts: seq<string>, remote: Remote, temp: seq<Failure>, perm: seq<Failure>,
                         delivered: seq<string>) {
    && (forall r :: r in delivered <==> exists i :: 0 <= i < |rcpts| && rcpts[i] == r && TakenOver(remote, i))
    && (forall r :: r in Recipients(perm) <==> exists i :: 0 <= i < |rcpts| && rcpts[i] == r && Bounced(remote, i))
    && (forall r :: r in Recipients(temp) <==>
          exists i :: 0 <= i < |rcpts| && rcpts[i] == r && !TakenOver(remote, i) && !Bounced(remote, i))
  }

  lemma SplitsMeaning(rcpts: seq<string>, remote: Remote, temp: seq<Failure>, perm: seq<Failure>,
                      delivered: seq<string>)
    requires Splits(rcpts, remote, temp, perm, delivered)
    ensures Sorted(rcpts, remote, temp, perm, delivered)
  {
    forall i: nat ensures Judge(remote, i)
        == if TakenOver(remote, i) then Delivered else if Bounced(remote, i) then Permanent else Temporary {
      JudgeMeaning(remote, i);
    }
    forall r ensures r in delivered <==> exists i :: 0 <= i < |rcpts| && rcpts[i] == r && TakenOver(remote, i) {
      assert r in delivered <==> r in multiset(delivered);
      TallyMember(rcpts, remote, Delivered, r);
      if i: nat :| i < |rcpts| && rcpts[i] == r && TakenOver(remote, i) { assert Gets(rcpts, remote, Delivered, r, i); }
    }
    forall r ensures r in Recipients(perm) <==> exists i :: 0 <= i < |rcpts| && rcpts[i] == r && Bounced(remote, i) {
      assert r in Recipients(perm) <==> r in multiset(Recipients(perm));
      TallyMember(rcpts, remote, Permanent, r);
      if i: nat :| i < |rcpts| && rcpts[i] == r && Bounced(remote, i) { assert Gets(rcpts, remote, Permanent, r, i); }
    }
    forall r ensures r in Recipients(temp) <==>
        exists i :: 0 <= i < |rcpts| && rcpts[i] == r && !TakenOver(remote, i) && !Bounced(remote, i) {
      assert r in Recipients(temp) <==> r in multiset(Recipients(temp));
      TallyMember(rcpts, remote, Temporary, r);
      if i: nat :| i < |rcpts| && rcpts[i] == r && !TakenOver(remote, i) && !Bounced(remote, i) {
        assert Gets(rcpts, remote, Temporary, r, i);
      }
    }
  }

  method DeliverDomain(rcpts: seq<string>, remote: Remote)
    returns (temp: seq<Failure>, perm: seq<Failure>, delivered: seq<string>)
    ensures Splits(rcpts, remote, temp, perm, delivered) && Sorted(rcpts, remote, temp, perm, delivered)
  {
    temp, perm, delivered := [], [], [];
    match remote {
      case Unresolved =>
        UniformSplits(rcpts, remote, Temporary, CouldNotResolve);
        temp := FailuresFor(rcpts, CouldNotResolve);
      case Unreachable(policyRefused) =>
        UniformSplits(rcpts, remote, if policyRefused then Permanent else Temporary, CouldNotConnect);
        if policyRefused {
          perm := FailuresFor(rcpts, CouldNotConnect);
        } else {
          temp := FailuresFor(rcpts, CouldNotConnect);
        }
      case NoGreeting =>
        UniformSplits(rcpts, remote, Temporary, EhloFailed);
        temp := FailuresFor(rcpts, EhloFailed);
      case Session(mail, _, _) =>
        if mail == Accepted {
          temp, perm, delivered := Transfer(rcpts, remote);
        } else {
          UniformSplits(rcpts, remote, Severity(mail), MailRejected);
          if IsPermanent(mail) {
            perm := FailuresFor(rcpts, MailRejected);
          } else {
            temp := FailuresFor(rcpts, MailRejected);
          }
        }
    }
    SplitsMeaning(rcpts, remote, temp, perm, delivered);
  }

  /** RCPT for each recipient, then DATA for those accepted. */
  method Transfer(rcpts: seq<string>, remote: Remote)
    returns (temp: seq<Failure>, perm: seq<Failure>, delivered: seq<string>)
    requires remote.Session? && remote.mail == Accepted
    ensures Splits(rcpts, remote, temp, perm, delivered)
  {
    var accepted: seq<string>;
    temp, perm, accepted := RcptPhase(rcpts, remote);
    if remote.data != Accepted {
      DataDecides(rcpts, remote, Delivered);
      DataDecides(rcpts, remote, Temporary);
      DataDecides(rcpts, remote, Permanent);
    } else {
      assert RcptOnly(remote) == remote;
    }
    if accepted == [] { return temp, perm, []; }
    if remote.data != Accepted {
      var rejected := FailuresFor(accepted, DataRejected);
      if IsPermanent(remote.data) {
        RecipientsConcat(perm, rejected);
        return temp, perm + rejected, [];
      }
      RecipientsConcat(temp, rejected);
      return temp + rejected, perm, [];
    }
    return temp, perm, accepted;
  }

  // ---- the whole attempt ----------------------------------------------------------------------

  /** Each domain with recipients has its bucket. */
  ghost predicate Grouped(rcpts: seq<string>, groups: map<string, seq<string>>) {
    && (forall d :: d in groups ==> groups[d] == Bucket(rcpts, d) != [])
    && (forall d :: d !in groups ==> Bucket(rcpts, d) == [])
  }

  lemma {:induction false} GroupedSnoc(front: seq<string>, last: string, all: seq<string>,
                                       groups: map<string, seq<string>>)
    requires Grouped(front, groups) && all == front + [last]
    ensures Grouped(all, if !WellFormed(last) then groups else
              groups[Domain(last) := (if Domain(last) in groups then groups[Domain(last)] else []) + [last]])
  {
    var d0 := Domain(last);
    forall d ensures Bucket(all, d) == if WellFormed(last) && d0 == d then Bucket(front, d) + [last]
      else Bucket(front, d) {
      BucketSnoc(front, last, d);
    }
    if WellFormed(last) {
      AddedTo(front, last, all, d0, groups);
    }
  }

  lemma {:induction false} AddedTo(front: seq<string>, last: string, all: seq<string>, d0: string,
                                   groups: map<string, seq<string>>)
    requires Grouped(front, groups)
    requires forall d :: Bucket(all, d) == if d0 == d then Bucket(front, d) + [last] else Bucket(front, d)
    ensures Grouped(all, groups[d0 := (if d0 in groups then groups[d0] else []) + [last]])
  {
    var bucket := (if d0 in groups then groups[d0] else []) + [last];
    assert bucket == Bucket(front, d0) + [last] == Bucket(all, d0);
    var more := groups[d0 := bucket];
    forall d | d in more ensures more[d] == Bucket(all, d) != [] {
      if d != d0 { assert d in groups; }
    }
    forall d | d !in more ensures Bucket(all, d) == [] {
      assert d !in groups && d != d0;
    }
  }

  method GroupByDomain(rcpts: seq<string>) returns (groups: map<string, seq<string>>)
    ensures Grouped(rcpts, groups)
  {
    groups := map[];
    for i := 0 to |rcpts|
      invariant Grouped(rcpts[..i], groups)
    {
      L.TakeOneMore(rcpts, i);
      GroupedSnoc(rcpts[..i], rcpts[i], rcpts[..i + 1], groups);
      var at := AfterAt(rcpts[i]);
      if at > 0 {
        var domain := Lower(rcpts[i][at..]);
        groups := groups[domain := (if domain in groups then groups[domain] else []) + [rcpts[i]]];
      }
    }
    assert rcpts[..|rcpts|] == rcpts;
  }

  /** The recipients of the domains already served. */
  function Served(rcpts: seq<string>, domains: set<string>): seq<string> {
    if rcpts == [] then [] else
    var last := rcpts[|rcpts| - 1];
    Served(rcpts[..|rcpts| - 1], domains) + if WellFormed(last) && Domain(last) in domains then [last] else []
  }

  lemma ServedSnoc(front: seq<string>, last: string, domains: set<string>)
    ensures Served(front + [last], domains)
         == if WellFormed(last) && Domain(last) in domains then Served(front, domains) + [last]
            else Served(front, domains)
  {
    assert (front + [last])[..|front|] == front;
    assert Served(front, domains) + [] == Served(front, domains);
  }

  lemma {:induction false} ServedBucket(rcpts: seq<string>, domains: set<string>, d: string)
    requires d in domains
    ensures Bucket(Served(rcpts, domains), d) == Bucket(rcpts, d)
  {
    if rcpts != [] {
      var front, last := rcpts[..|rcpts| - 1], rcpts[|rcpts| - 1];
      L.FrontLast(rcpts);
      ServedBucket(front, domains, d);
      ServedSnoc(front, last, domains);
      BucketSnoc(front, last, d);
      BucketSnoc(Served(front, domains), last, d);
    }
  }

  /** A recipient served after `front` is judged as in the whole row. */
  lemma ServedJudge(front: seq<string>, last: string, remotes: string -> Remote, domains: set<string>, v: Verdict)
    ensures Judged(Served(front + [last], domains), remotes, v)
         == Judged(Served(front, domains), remotes, v)
            + When(WellFormed(last) && Domain(last) in domains && IsJudged(front, last, remotes, v), last)
  {
    ServedSnoc(front, last, domains);
    if WellFormed(last) && Domain(last) in domains {
      JudgedSnoc(Served(front, domains), last, remotes, v);
      ServedBucket(front, domains, Domain(last));
    }
  }

  /** Serving one more domain adds exactly its conversation's tally. */
  lemma {:induction false} ServeOneMore(rcpts: seq<string>, remotes: string -> Remote, domains: set<string>, d: string,
                                        v: Verdict)
    requires d !in domains
    ensures Judged(Served(rcpts, domains + {d}), remotes, v)
         == Judged(Served(rcpts, domains), remotes, v) + Tally(Bucket(rcpts, d), remotes(d), v)
  {
    if rcpts != [] {
      var front, last := rcpts[..|rcpts| - 1], rcpts[|rcpts| - 1];
      L.FrontLast(rcpts);
      ServeOneMore(front, remotes, domains, d, v);
      ServedJudge(front, last, remotes, domains + {d}, v);
      ServedJudge(front, last, remotes, domains, v);
      TallyOneMore(front, last, remotes, d, v);
      Distribute(last, WellFormed(last) && Domain(last) in domains, WellFormed(last) && Domain(last) == d,
                 IsJudged(front, last, remotes, v), Judged(Served(front, domains), remotes, v),
                 Tally(Bucket(front, d), remotes(d), v));
    }
  }

  lemma TallyOneMore(front: seq<string>, last: string, remotes: string -> Remote, d: string, v: Verdict)
    ensures Tally(Bucket(front + [last], d), remotes(d), v) == Tally(Bucket(front, d), remotes(d), v)
              + When(WellFormed(last) && Domain(last) == d && IsJudged(front, last, remotes, v), last)
  {
    BucketSnoc(front, last, d);
    if WellFormed(last) && Domain(last) == d {
      TallySnoc(Bucket(front, d), last, remotes(d), v);
    }
  }

  lemma Distribute(r: string, before: bool, now: bool, judged: bool, a: multiset<string>, b: multiset<string>)
    requires !(before && now)
    ensures a + b + When((before || now) && judged, r) == (a + When(before && judged, r)) + (b + When(now && judged, r))
  {
  }

  lemma {:induction false} ServedNobody(rcpts: seq<string>)
    ensures Served(rcpts, {}) == []
  {
    if rcpts != [] { ServedNobody(rcpts[..|rcpts| - 1]); }
  }

  /** Once every domain with recipients is served, the row is judged. */
  lemma {:induction false} ServedAll(rcpts: seq<string>, remotes: string -> Remote, domains: set<string>, v: Verdict)
    requires forall r :: r in rcpts && WellFormed(r) ==> Domain(r) in domains
    ensures Judged(Served(rcpts, domains), remotes, v) == Judged(rcpts, remotes, v)
  {
    if rcpts != [] {
      var front, last := rcpts[..|rcpts| - 1], rcpts[|rcpts| - 1];
      L.FrontLast(rcpts);
      ServedAll(front, remotes, domains, v);
      ServedJudge(front, last, remotes, domains, v);
      JudgedSnoc(front, last, remotes, v);
    }
  }

  lemma {:induction false} BucketHolds(rcpts: seq<string>, r: string)
    requires r in rcpts && WellFormed(r)
    ensures r in Bucket(rcpts, Domain(r))
  {
    var front, last := rcpts[..|rcpts| - 1], rcpts[|rcpts| - 1];
    L.FrontLast(rcpts);
    BucketSnoc(front, last, Domain(r));
    if r != last { BucketHolds(front, r); }
  }

  /** The three lists hold exactly the recipients of each verdict. */
  ghost predicate Outcome(rcpts: seq<string>, remotes: string -> Remote, temp: seq<Failure>, perm: seq<Failure>,
                          delivered: seq<string>) {
    && multiset(delivered) == Judged(rcpts, remotes, Delivered)
    && multiset(Recipients(temp)) == Judged(rcpts, remotes, Temporary)
    && multiset(Recipients(perm)) == Judged(rcpts, remotes, Permanent)
  }

  lemma OneMoreDomain(rcpts: seq<string>, remotes: string -> Remote, done: set<string>, d: string,
                      temp: seq<Failure>, perm: seq<Failure>, delivered: seq<string>,
                      t: seq<Failure>, p: seq<Failure>, ok: seq<string>)
    requires d !in done && Outcome(Served(rcpts, done), remotes, temp, perm, delivered)
    requires Splits(Bucket(rcpts, d), remotes(d), t, p, ok)
    ensures Outcome(Served(rcpts, done + {d}), remotes, temp + t, perm + p, delivered + ok)
  {
    ServeOneMore(rcpts, remotes, done, d, Delivered);
    ServeOneMore(rcpts, remotes, done, d, Temporary);
    ServeOneMore(rcpts, remotes, done, d, Permanent);
    RecipientsConcat(temp, t);
    RecipientsConcat(perm, p);
  }

  /** Converses with every domain, in any order. */
  method Attempt(rcpts: seq<string>, remotes: string -> Remote)
    returns (temp: seq<Failure>, perm: seq<Failure>, delivered: seq<string>)
    ensures Outcome(rcpts, remotes, temp, perm, delivered)
  {
    temp, perm, delivered := [], [], [];
    var groups := GroupByDomain(rcpts);
    var todo := groups.Keys;
    ghost var done: set<string> := {};
    NobodyServed(rcpts, remotes);
    while todo != {}
      invariant todo + done == groups.Keys && todo !! done
      invariant Outcome(Served(rcpts, done), remotes, temp, perm, delivered)
      decreases |todo|
    {
      var domain :| domain in todo;
      var t, p, d := DeliverDomain(groups[domain], remotes(domain));
      OneMoreDomain(rcpts, remotes, done, domain, temp, perm, delivered, t, p, d);
      OneDomainLess(todo, done, domain);
      temp, perm, delivered := temp + t, perm + p, delivered + d;
      todo, done := todo - {domain}, done + {domain};
    }
    EveryDomain(rcpts, done);
    AllServed(rcpts, remotes, done, temp, perm, delivered);
  }

  lemma OneDomainLess(todo: set<string>, done: set<string>, domain: string)
    requires domain in todo && todo !! done
    ensures |todo - {domain}| < |todo| && todo - {domain} !! done + {domain}
    ensures todo - {domain} + (done + {domain}) == todo + done
  {
  }

  lemma NobodyServed(rcpts: seq<string>, remotes: string -> Remote)
    ensures Outcome(Served(rcpts, {}), remotes, [], [], [])
  {
    ServedNobody(rcpts);
    assert Recipients([]) == [];
  }

  lemma EveryDomain(rcpts: seq<string>, domains: set<string>)
    requires forall d :: d !in domains ==> Bucket(rcpts, d) == []
    ensures forall r :: r in rcpts && WellFormed(r) ==> Domain(r) in domains
  {
    forall r | r in rcpts && WellFormed(r) ensures Domain(r) in domains {
      BucketHolds(rcpts, r);
    }
  }

  /** With every domain done, the outcome is that of the whole row. */
  lemma AllServed(rcpts: seq<string>, remotes: string -> Remote, done: set<string>, temp: seq<Failure>,
                  perm: seq<Failure>, delivered: seq<string>)
    requires Outcome(Served(rcpts, done), remotes, temp, perm, delivered) && forall r :: r in rcpts && WellFormed(r) ==>
      Domain(r) in done
    ensures Outcome(rcpts, remotes, temp, perm, delivered)
  {
    ServedAll(rcpts, remotes, done, Delivered);
    ServedAll(rcpts, remotes, done, Temporary);
    ServedAll(rcpts, remotes, done, Permanent);
  }
}
