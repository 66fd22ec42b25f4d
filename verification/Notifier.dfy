/** The process-wide "mailbox changed" bus: one-slot channels that coalesce wake-ups. */
module Notifier {

  class Subscription {
    const mailbox: nat
    var hub: Hub?
    /** The channel's one slot. */
    var pending: bool

    constructor (hub: Hub, mailbox: nat)
      ensures this.hub == hub && this.mailbox == mailbox && !pending
    {
      this.hub, this.mailbox, pending := hub, mailbox, false;
    }

    /** Safe to call more than once. */
    method Close()
      requires hub != null ==> hub.Valid()
      modifies this, hub
      ensures hub == null
      ensures old(hub) != null ==> old(hub).Listening() == old(hub.Listening()) - {this} && old(hub).Valid()
      ensures pending == old(pending)
    {
      if hub == null { return; }
      var h := hub;
      ghost var before := h.subs;
      if mailbox in h.subs {
        var left := h.subs[mailbox] - {this};
        h.subs := if left == {} then h.subs - {mailbox} else h.subs[mailbox := left];
      }
      hub := null;
      forall s ensures s in h.Listening() <==> s in old(h.Listening()) && s != this {
        if m :| m in before && s in before[m] && s != this {
          assert m == mailbox ==> s in before[m] - {this};
          assert m in h.subs && s in h.subs[m];
        }
        if m :| m in h.subs && s in h.subs[m] { assert m in before && s in before[m]; }
      }
    }
  }

  class Hub {
    var subs: map<nat, set<Subscription>>

    constructor ()
      ensures Valid() && subs == map[]
    {
      subs := map[];
    }

    /** Everyone listening. */
    ghost function Listening(): set<Subscription>
      reads this
    {
      set m, s | m in subs && s in subs[m] :: s
    }

    /** No empty entry is kept, and every entry files its subscriptions under their mailbox. */
    ghost predicate Valid()
      reads this, Listening()
    {
      forall m :: m in subs ==> subs[m] != {} && forall s :: s in subs[m] ==> s.mailbox == m && s.hub == this
    }

    method Subscribe(mailbox: nat) returns (sub: Subscription)
      requires Valid()
      modifies this
      ensures Valid() && fresh(sub) && sub.mailbox == mailbox && !sub.pending
      ensures Listening() == old(Listening()) + {sub}
    {
      sub := new Subscription(this, mailbox);
      ghost var before := subs;
      subs := subs[mailbox := (if mailbox in subs then subs[mailbox] else {}) + {sub}];
      forall s ensures s in Listening() <==> s in old(Listening()) || s == sub {
        if m :| m in before && s in before[m] { assert m in subs && s in subs[m]; }
        if s == sub { assert mailbox in subs && s in subs[mailbox]; }
        if m :| m in subs && s in subs[m] && s != sub { assert m in before && s in before[m]; }
      }
    }

    /** Fills the slot of every subscription on the mailbox and of no other; never blocks. */
    method Notify(mailbox: nat)
      requires Valid()
      modifies Listening()`pending
      ensures Valid() && subs == old(subs)
      ensures forall s :: s in Listening() ==> s.pending == (s.mailbox == mailbox || old(s.pending))
    {
      var todo := if mailbox in subs then subs[mailbox] else {};
      ghost var all := todo;
      while todo != {}
        invariant todo <= all && subs == old(subs)
        invariant forall s :: s in Listening() ==> s.pending == (s in all - todo || old(s.pending))
        decreases |todo|
      {
        var s :| s in todo;
        assert s in Listening();
        s.pending := true;
        todo := todo - {s};
      }
    }
  }
}

/** A session's watcher against everyone else's change-then-notify, in every interleaving. */
module Wakeups {

  datatype Watcher = Waiting | Woken

  datatype State<T> = State(
    content: T,              // the mailbox
    listed: T,               // the session's last listing
    refreshed: bool,         // a refresh has happened since SELECT
    subscribed: bool,
    slot: bool,              // a wake-up is buffered
    watcher: Watcher,
    changed: nat,            // operations that have changed the mailbox and are to notify
    sending: nat,            // notifies under way whose subscriber set holds our session
    passing: nat)            // notifies under way whose subscriber set was read without it

  datatype Step<T> =
    | Change(content: T)             // a new operation changes the mailbox
    | ChangeMore(content: T)         // one that has not notified yet changes it again
    | Collect                        // Notify reads the subscribers
    | Send(toUs: bool)               // Notify sends to those it read
    | Subscribe
    | Receive
    | List
    | GiveUp                         // an operation fails after its change and returns without notifying
    | ListFails                      // the listing errors; the wake-up is spent

  predicate Enabled<T>(s: State<T>, step: Step<T>) {
    match step
    case Change(_) => true
    case ChangeMore(_) => s.changed > 0
    case Collect => s.changed > 0
    case Send(toUs) => if toUs then s.sending > 0 else s.passing > 0
    case Subscribe => !s.subscribed
    case Receive => s.subscribed && s.slot && s.watcher == Waiting
    case List => s.watcher == Woken
    case GiveUp => s.changed > 0
    case ListFails => s.watcher == Woken
  }

  function Next<T>(s: State<T>, step: Step<T>): State<T>
    requires Enabled(s, step)
  {
    match step
    case Change(c) => s.(content := c, changed := s.changed + 1)
    case ChangeMore(c) => s.(content := c)
    case Collect =>
      if s.subscribed then s.(changed := s.changed - 1, sending := s.sending + 1)
      else s.(changed := s.changed - 1, passing := s.passing + 1)
    case Send(toUs) => if toUs then s.(sending := s.sending - 1, slot := true) else s.(passing := s.passing - 1)
    case Subscribe => s.(subscribed := true)
    case Receive => s.(slot := false, watcher := Woken)
    case List => s.(listed := s.content, refreshed := true, watcher := Waiting)
    case GiveUp => s.(changed := s.changed - 1)
    case ListFails => s.(watcher := Waiting)
  }

  /** Every step is enabled when it is taken, and no call fails. */
  ghost predicate Runs<T>(s: State<T>, steps: seq<Step<T>>)
    decreases |steps|
  {
    steps != [] ==>
      Enabled(s, steps[0]) && !steps[0].GiveUp? && !steps[0].ListFails? && Runs(Next(s, steps[0]), steps[1..])
  }

  function After<T>(s: State<T>, steps: seq<Step<T>>): State<T>
    requires Runs(s, steps)
    decreases |steps|
  {
    if steps == [] then s else After(Next(s, steps[0]), steps[1..])
  }

  /** A listing that is out of date has a wake-up on its way. */
  ghost predicate Expected<T(!new)>(s: State<T>) {
    && (s.refreshed || s.slot || s.watcher == Woken || s.sending > 0 ==> s.subscribed)
    && (s.refreshed && s.listed != s.content ==>
          s.slot || s.watcher == Woken || s.changed > 0 || s.sending > 0)
  }

  ghost predicate Quiet<T>(s: State<T>) {
    s.changed == s.sending == s.passing == 0 && !s.slot && s.watcher == Waiting
  }

  lemma NextExpected<T(!new)>(s: State<T>, step: Step<T>)
    requires Expected(s) && Enabled(s, step) && !step.GiveUp? && !step.ListFails?
    ensures Expected(Next(s, step))
  {
  }

  /** No wake-up is lost: in every interleaving, once a refresh has happened and all is quiet, the
      last listing is the mailbox. */
  lemma {:induction false} NoLostWakeup<T(!new)>(s: State<T>, steps: seq<Step<T>>)
    requires Expected(s) && Runs(s, steps)
    ensures Expected(After(s, steps))
    ensures After(s, steps).refreshed && Quiet(After(s, steps)) ==> After(s, steps).listed == After(s, steps).content
    decreases |steps|
  {
    if steps != [] {
      NextExpected(s, steps[0]);
      NoLostWakeup(Next(s, steps[0]), steps[1..]);
    }
  }

  /** SELECT lists before it subscribes. */
  lemma SelectedIsExpected<T(!new)>(content: T, changed: nat, passing: nat)
    ensures Expected(State(content, content, false, false, false, Waiting, changed, 0, passing))
  {
  }

  // ---- it does become quiet -------------------------------------------------------------------

  function Pending<T>(s: State<T>): nat {
    4 * s.changed + 3 * (s.sending + s.passing)
    + (if s.slot then 2 else 0) + (if s.watcher == Woken then 1 else 0) + (if s.subscribed then 0 else 1)
  }

  predicate Alters<T>(step: Step<T>) {
    step.Change? || step.ChangeMore?
  }

  /** Once nobody changes the mailbox, a run has at most Pending steps left. */
  lemma {:induction false} SettlesInTime<T>(s: State<T>, steps: seq<Step<T>>)
    requires Runs(s, steps) && forall i :: 0 <= i < |steps| ==> !Alters(steps[i])
    ensures |steps| + Pending(After(s, steps)) <= Pending(s)
    decreases |steps|
  {
    if steps != [] {
      assert Pending(Next(s, steps[0])) < Pending(s);
      SettlesInTime(Next(s, steps[0]), steps[1..]);
    }
  }

  /** Until it is quiet there is a step to take. */
  lemma CanSettle<T>(s: State<T>) returns (step: Step<T>)
    requires !Quiet(s) && (s.slot ==> s.subscribed)
    ensures Enabled(s, step) && !Alters(step) && !step.GiveUp? && !step.ListFails?
  {
    if s.watcher == Woken { return List; }
    if s.slot { return Receive; }
    step := if s.changed > 0 then Collect else Send(s.sending > 0);
  }

  // ---- exactly when the listing becomes current -----------------------------------------------

  /** Left alone, with no further change and no failure, the session ends with a current listing. */
  ghost predicate Settles<T(!new)>(s: State<T>) {
    forall steps ::
      Calm(s, steps) && Quiet(After(s, steps)) ==> After(s, steps).listed == After(s, steps).content
  }

  ghost predicate Calm<T>(s: State<T>, steps: seq<Step<T>>) {
    Runs(s, steps) && forall i :: 0 <= i < |steps| ==> !Alters(steps[i])
  }

  /** A wake-up is here or certain to come. */
  predicate Due<T>(s: State<T>) {
    s.slot || s.watcher == Woken || s.sending > 0 || (s.subscribed && s.changed > 0)
  }

  /** Nothing reaches a session that has not subscribed. */
  predicate Reachable<T>(s: State<T>) {
    s.slot || s.watcher == Woken || s.sending > 0 ==> s.subscribed
  }

  lemma CalmTail<T>(s: State<T>, steps: seq<Step<T>>)
    requires Calm(s, steps) && steps != []
    ensures Calm(Next(s, steps[0]), steps[1..]) && !Alters(steps[0])
  {
  }

  lemma {:induction false} DueStays<T(!new)>(s: State<T>, steps: seq<Step<T>>)
    requires Reachable(s) && (s.listed == s.content || Due(s)) && Calm(s, steps)
    ensures After(s, steps).listed == After(s, steps).content || Due(After(s, steps))
    decreases |steps|
  {
    if steps != [] {
      CalmTail(s, steps);
      DueStays(Next(s, steps[0]), steps[1..]);
    }
  }

  /** Nothing due and out of date: it can become quiet that way. */
  lemma {:induction false} StaysStale<T(!new)>(s: State<T>) returns (steps: seq<Step<T>>)
    requires s.listed != s.content && !Due(s)
    ensures Calm(s, steps) && Quiet(After(s, steps)) && After(s, steps).listed != After(s, steps).content
    decreases s.changed, s.passing
  {
    if Quiet(s) { return []; }
    var step: Step<T> := if s.changed > 0 then Collect else Send(false);
    var more := StaysStale(Next(s, step));
    steps := [step] + more;
    assert steps[1..] == more;
    assert After(s, steps) == After(Next(s, step), more);
  }

  /** The listing becomes current, if and only if it is, or a wake-up is due. */
  lemma SettlesIff<T(!new)>(s: State<T>)
    requires Reachable(s)
    ensures Settles(s) <==> s.listed == s.content || Due(s)
  {
    if s.listed == s.content || Due(s) {
      forall steps | Calm(s, steps) && Quiet(After(s, steps))
        ensures After(s, steps).listed == After(s, steps).content
      {
        DueStays(s, steps);
      }
    } else {
      var steps := StaysStale(s);
    }
  }

  /** After a refresh that is the invariant of every run. */
  lemma RefreshedSettlesIff<T(!new)>(s: State<T>)
    requires s.refreshed && s.subscribed
    ensures Settles(s) <==> Expected(s)
  {
    SettlesIff(s);
  }

  /** A failing operation does no harm, if and only if the listing is current or another wake-up is due. */
  lemma GivingUpHarmlessIff<T(!new)>(s: State<T>)
    requires Reachable(s) && Enabled(s, GiveUp)
    ensures Settles(Next(s, GiveUp)) <==>
              s.listed == s.content || s.slot || s.watcher == Woken || s.sending > 0 || (s.subscribed && s.changed > 1)
  {
    SettlesIff(Next(s, GiveUp));
  }

  /** A failing listing does no harm, if and only if the old one is current or another wake-up is due. */
  lemma FailedListingHarmlessIff<T(!new)>(s: State<T>)
    requires Reachable(s) && Enabled(s, ListFails)
    ensures Settles(Next(s, ListFails)) <==> s.listed == s.content || s.slot || s.changed > 0 || s.sending > 0
  {
    SettlesIff(Next(s, ListFails));
  }

  /** Between SELECT's listing and its Subscribe, a change is seen by nobody. */
  lemma UnsubscribedSettlesIff<T(!new)>(s: State<T>)
    requires Reachable(s) && !s.subscribed
    ensures Settles(s) <==> s.listed == s.content
  {
    SettlesIff(s);
  }

  // ---- what a failure loses -------------------------------------------------------------------

  /** A delete that fails between removing the document and notifying leaves a stale listing in a
      quiet system: the guarantee needs every changer to reach its Notify. */
  lemma GivingUpLosesTheWakeup<T(!new)>(s: State<T>, content: T)
    requires Expected(s) && s.refreshed && Quiet(s) && content != s.listed
    ensures var s' := Next(Next(s, Change(content)), GiveUp); Quiet(s') && s'.listed != s'.content
  {
  }

  /** A listing that fails spends the wake-up: the change it stood for goes unseen in a quiet system. */
  lemma FailedListingLosesTheWakeup<T(!new)>(s: State<T>, content: T)
    requires Expected(s) && s.refreshed && Quiet(s) && s.subscribed && content != s.listed
    ensures var steps := [Change(content), Collect, Send(true), Receive];
            && Runs(s, steps) && Enabled(After(s, steps), ListFails)
            && var s' := Next(After(s, steps), ListFails); Quiet(s') && s'.listed != s'.content
  {
    var s1 := Next(s, Change(content));
    var s2 := Next(s1, Collect);
    var s3 := Next(s2, Send(true));
    var s4 := Next(s3, Receive);
    var steps: seq<Step<T>> := [Change(content), Collect, Send(true), Receive];
    var t1, t2, t3 := steps[1..], steps[1..][1..], steps[1..][1..][1..];
    assert t3[1..] == [] && t3[0] == Receive && t2[0] == Send(true) && t1[0] == Collect;
    assert Runs(s4, []) && Runs(s3, t3) && Runs(s2, t2) && Runs(s1, t1);
    assert After(s, steps) == After(s1, t1) == After(s2, t2) == After(s3, t3) == s4;
  }

  /** A change between SELECT's listing and its Subscribe is notified to others only: without another
      change the session never lists again. */
  lemma ChangeBeforeSubscribeIsMissed<T(!new)>(listed: T, content: T)
    requires content != listed
    ensures var s := State(listed, listed, false, false, false, Waiting, 0, 0, 0);
            var steps := [Change(content), Collect, Send(false), Subscribe];
            && Expected(s) && Runs(s, steps)
            && var s' := After(s, steps); Quiet(s') && s'.subscribed && !s'.refreshed && s'.listed != s'.content
  {
    var s := State(listed, listed, false, false, false, Waiting, 0, 0, 0);
    var s1 := Next(s, Change(content));
    var s2 := Next(s1, Collect);
    var s3 := Next(s2, Send(false));
    var s4 := Next(s3, Subscribe);
    var steps: seq<Step<T>> := [Change(content), Collect, Send(false), Subscribe];
    var t1, t2, t3 := steps[1..], steps[1..][1..], steps[1..][1..][1..];
    assert t3[1..] == [] && t3[0] == Subscribe && t2[0] == Send(false) && t1[0] == Collect;
    assert Runs(s4, []) && Runs(s3, t3) && Runs(s2, t2) && Runs(s1, t1);
    assert After(s, steps) == After(s1, t1) == After(s2, t2) == After(s3, t3) == s4;
  }
}
