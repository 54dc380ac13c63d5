/** The network mediator: a hub holding two events, "a colleague registered"
    and "a colleague left", whose subscribers are the registered colleagues.
    Registering fires the register event to the colleagues already there and
    then subscribes the newcomer to both events; unregistering unsubscribes
    the colleague from both events and then fires the unregister event to the
    colleagues that remain.
 */
module Mediator {
  import opened Delegates

  /** Which of the two events: also which of a colleague's two handlers. */
  datatype Kind = Registered | Unregistered

  /** A computer colleague. Only its identity and its name matter; its two
      handlers each write one line naming the subject and itself. */
  class Colleague {
    const name: string

    constructor (name: string)
      ensures this.name == name
    {
      this.name := name;
    }

    /** "New Computer register event with name:<subject>: received @<this>" */
    method ReceiveRegisterNotification(subject: Colleague, out: Transcript)
      modifies out
      ensures out.lines == old(out.lines) + [Notification(Registered, subject, this)]
    {
      out.lines := out.lines + [Notification(Registered, subject, this)];
    }

    /** "Computer left unregister event with name:<subject>:received @<this>" */
    method ReceiveUnRegisterNotification(subject: Colleague, out: Transcript)
      modifies out
      ensures out.lines == old(out.lines) + [Notification(Unregistered, subject, this)]
    {
      out.lines := out.lines + [Notification(Unregistered, subject, this)];
    }
  }

  /** One console line: `receiver` was told that `subject` registered or left. */
  datatype Notification = Notification(kind: Kind, subject: Colleague, receiver: Colleague)

  /** The console: the lines written so far, in order. */
  class Transcript {
    var lines: seq<Notification>

    constructor ()
      ensures lines == []
    {
      lines := [];
    }
  }

  /** A delegate bound to `target`'s register handler or unregister handler.
      Two delegates are equal exactly when target and handler are. */
  datatype Handler = Handler(target: Colleague, kind: Kind)

  /** The line that invoking delegate `h` with `subject` writes. */
  function Deliver(h: Handler, subject: Colleague): Notification
  {
    Notification(h.kind, subject, h.target)
  }

  /** The lines written when an event with invocation list `hs` is raised
      for `subject`: one per delegate, in invocation-list order. */
  function Deliveries(hs: seq<Handler>, subject: Colleague): (r: seq<Notification>)
    ensures |r| == |hs|
  {
    if hs == [] then [] else [Deliver(hs[0], subject)] + Deliveries(hs[1..], subject)
  }

  /** The invocation list made by subscribing the `kind` handler of each
      colleague of `members`, in order. */
  function Subscriptions(members: seq<Colleague>, kind: Kind): (hs: seq<Handler>)
    ensures |hs| == |members|
  {
    if members == [] then [] else [Handler(members[0], kind)] + Subscriptions(members[1..], kind)
  }

  /** The i-th delegate of such a list is the i-th colleague's handler. */
  lemma {:induction false} SubscriptionsAt(members: seq<Colleague>, kind: Kind)
    ensures forall i :: 0 <= i < |members| ==>
      Subscriptions(members, kind)[i] == Handler(members[i], kind)
  {
    if members != [] {
      SubscriptionsAt(members[1..], kind);
    }
  }

  /** The lines one call should print when `subject` registers or leaves: every
      colleague of `receivers`, in order, is told so, and nobody else is. */
  function Announce(kind: Kind, subject: Colleague, receivers: seq<Colleague>): (r: seq<Notification>)
    ensures |r| == |receivers|
  {
    if receivers == [] then []
    else [Notification(kind, subject, receivers[0])] + Announce(kind, subject, receivers[1..])
  }

  /** The i-th line of an announcement goes to the i-th receiver. */
  lemma {:induction false} AnnounceAt(kind: Kind, subject: Colleague, receivers: seq<Colleague>)
    ensures forall i :: 0 <= i < |receivers| ==>
      Announce(kind, subject, receivers)[i] == Notification(kind, subject, receivers[i])
  {
    if receivers != [] {
      AnnounceAt(kind, subject, receivers[1..]);
    }
  }

  /** Only the receivers hear an announcement, and each hears that kind of
      event about that subject; so a subject that is not among the
      receivers is not told about itself. */
  lemma AnnounceTo(kind: Kind, subject: Colleague, receivers: seq<Colleague>)
    ensures forall n :: n in Announce(kind, subject, receivers) ==>
      n.kind == kind && n.subject == subject && n.receiver in receivers
  {
    AnnounceAt(kind, subject, receivers);
  }

  /** Raising an event whose subscribers are `members` announces `subject`
      to exactly those colleagues, in subscription order. */
  lemma {:induction false} DeliveriesAnnounce(members: seq<Colleague>, kind: Kind, subject: Colleague)
    ensures Deliveries(Subscriptions(members, kind), subject) == Announce(kind, subject, members)
  {
    if members != [] {
      DeliveriesAnnounce(members[1..], kind, subject);
      assert Subscriptions(members, kind)[1..] == Subscriptions(members[1..], kind);
    }
  }

  /** `-=` with a colleague's handler on a list of that handler kind removes
      the colleague's last subscription and keeps the others in order. */
  lemma {:induction false} RemoveLastSubscriptions(members: seq<Colleague>, kind: Kind, c: Colleague)
    ensures RemoveLast(Subscriptions(members, kind), Handler(c, kind))
         == Subscriptions(RemoveLast(members, c), kind)
  {
    if |members| > 0 {
      var init, last := members[..|members| - 1], members[|members| - 1];
      var hs := Subscriptions(members, kind);
      SubscriptionsSnoc(init, kind, last);
      assert members == init + [last];
      assert hs[|hs| - 1] == Handler(last, kind);
      if last != c {
        RemoveLastSubscriptions(init, kind, c);
        SubscriptionsSnoc(RemoveLast(init, c), kind, last);
      }
    }
  }

  /** Subscribing one more colleague appends its handler at the end. */
  lemma SubscriptionsSnoc(members: seq<Colleague>, kind: Kind, c: Colleague)
    ensures Subscriptions(members + [c], kind) == Subscriptions(members, kind) + [Handler(c, kind)]
  {
    SubscriptionsAt(members + [c], kind);
    SubscriptionsAt(members, kind);
  }

  /** Raises an event: calls each delegate of the invocation list `hs`, in
      order. The list is a value, so the call works on a snapshot. */
  method Raise(hs: seq<Handler>, subject: Colleague, out: Transcript)
    modifies out
    ensures out.lines == old(out.lines) + Deliveries(hs, subject)
  {
    var i := 0;
    while i < |hs|
      invariant 0 <= i <= |hs|
      invariant out.lines == old(out.lines) + Deliveries(hs[..i], subject)
    {
      var h := hs[i];
      match h.kind {
        case Registered => h.target.ReceiveRegisterNotification(subject, out);
        case Unregistered => h.target.ReceiveUnRegisterNotification(subject, out);
      }
      assert hs[..i + 1] == hs[..i] + [h];
      DeliveriesSnoc(hs[..i], h, subject);
      i := i + 1;
    }
    assert hs[..i] == hs;
  }

  /** Raising for one more delegate writes its line after the others. */
  lemma {:induction false} DeliveriesSnoc(hs: seq<Handler>, h: Handler, subject: Colleague)
    ensures Deliveries(hs + [h], subject) == Deliveries(hs, subject) + [Deliver(h, subject)]
  {
    if hs != [] {
      assert (hs + [h])[1..] == hs[1..] + [h];
      DeliveriesSnoc(hs[1..], h, subject);
    }
  }

  /** The hub. Its two fields are the invocation lists of the events
      `RegisterNotification` and `UnRegisterNotification`; the anonymous
      handler each starts with does nothing and is left out. */
  class NetworkMediator {
    var registerNotification: seq<Handler>
    var unRegisterNotification: seq<Handler>

    /** The subscribed colleagues, in subscription order. */
    ghost var members: seq<Colleague>

    /** Both events are subscribed by the same colleagues in the same order,
        the register event with their register handlers and the unregister
        event with their unregister handlers. */
    ghost predicate Valid()
      reads this
    {
      registerNotification == Subscriptions(members, Registered) &&
      unRegisterNotification == Subscriptions(members, Unregistered)
    }

    constructor ()
      ensures Valid() && members == []
      ensures registerNotification == [] && unRegisterNotification == []
    {
      registerNotification, unRegisterNotification := [], [];
      members := [];
    }

    /** Fires the register event for `c` to the current subscribers, then
        subscribes `c`'s two handlers at the end of the two lists. */
    method Register(c: Colleague, out: Transcript)
      modifies this, out
      ensures registerNotification == old(registerNotification) + [Handler(c, Registered)]
      ensures unRegisterNotification == old(unRegisterNotification) + [Handler(c, Unregistered)]
      ensures members == old(members) + [c]
      ensures out.lines == old(out.lines) + Deliveries(old(registerNotification), c)
      ensures old(Valid()) ==> Valid()
      ensures old(Valid()) ==> out.lines == old(out.lines) + Announce(Registered, c, old(members))
    {
      Raise(registerNotification, c, out);
      registerNotification := registerNotification + [Handler(c, Registered)];
      unRegisterNotification := unRegisterNotification + [Handler(c, Unregistered)];
      members := members + [c];
      SubscriptionsSnoc(old(members), Registered, c);
      SubscriptionsSnoc(old(members), Unregistered, c);
      DeliveriesAnnounce(old(members), Registered, c);
      assert out.lines[|old(out.lines)|..] == Deliveries(old(registerNotification), c);
    }

    /** Removes `c`'s last subscription from both lists (a no-op on a list
        where it has none), then fires the unregister event for `c` to the
        subscribers that remain. */
    method Unregister(c: Colleague, out: Transcript)
      modifies this, out
      ensures registerNotification == RemoveLast(old(registerNotification), Handler(c, Registered))
      ensures unRegisterNotification == RemoveLast(old(unRegisterNotification), Handler(c, Unregistered))
      ensures members == RemoveLast(old(members), c)
      ensures out.lines == old(out.lines) + Deliveries(unRegisterNotification, c)
      ensures old(Valid()) ==> Valid()
      ensures old(Valid()) ==> out.lines == old(out.lines) + Announce(Unregistered, c, members)
    {
      registerNotification := RemoveLast(registerNotification, Handler(c, Registered));
      unRegisterNotification := RemoveLast(unRegisterNotification, Handler(c, Unregistered));
      members := RemoveLast(members, c);
      Raise(unRegisterNotification, c, out);
      RemoveLastSubscriptions(old(members), Registered, c);
      RemoveLastSubscriptions(old(members), Unregistered, c);
      DeliveriesAnnounce(members, Unregistered, c);
      assert out.lines[|old(out.lines)|..] == Deliveries(unRegisterNotification, c);
    }
  }

  /** One call the program makes on the mediator. */
  datatype Call = Join(who: Colleague) | Leave(who: Colleague)

  /** What one call does to a mediator whose subscribers are `members`:
      the subscribers afterwards, and the lines written during the call.
      `NetworkMediator.Register` and `NetworkMediator.Unregister` each
      perform one step. */
  function Step(members: seq<Colleague>, call: Call): (seq<Colleague>, seq<Notification>)
  {
    match call
    case Join(c) => (members + [c], Announce(Registered, c, members))
    case Leave(c) =>
      var rest := RemoveLast(members, c);
      (rest, Announce(Unregistered, c, rest))
  }

  /** A sequence of calls, one step after another: the subscribers at the
      end, and every line written, in order. */
  function Run(members: seq<Colleague>, calls: seq<Call>): (seq<Colleague>, seq<Notification>)
  {
    if calls == [] then (members, [])
    else
      var before := Run(members, calls[..|calls| - 1]);
      var step := Step(before.0, calls[|calls| - 1]);
      (step.0, before.1 + step.1)
  }

  /** Running one more call continues from where the others left off. */
  lemma RunSnoc(members: seq<Colleague>, calls: seq<Call>, call: Call)
    ensures Run(members, calls + [call]).0 == Step(Run(members, calls).0, call).0
    ensures Run(members, calls + [call]).1 == Run(members, calls).1 + Step(Run(members, calls).0, call).1
  {
    assert (calls + [call])[..|calls|] == calls;
  }

  /** The same, for a prefix of a sequence of calls growing by one. */
  lemma RunPrefix(members: seq<Colleague>, calls: seq<Call>, k: nat)
    requires k < |calls|
    ensures Run(members, calls[..k + 1]).0 == Step(Run(members, calls[..k]).0, calls[k]).0
    ensures Run(members, calls[..k + 1]).1 == Run(members, calls[..k]).1 + Step(Run(members, calls[..k]).0, calls[k]).1
  {
    assert calls[..k + 1][..k] == calls[..k];
  }

  /** Running two sequences of calls one after the other: the subscribers
      at the end. */
  lemma {:induction false} RunAppendMembers(members: seq<Colleague>, first: seq<Call>, second: seq<Call>)
    ensures Run(members, first + second).0 == Run(Run(members, first).0, second).0
  {
    if second == [] {
      assert first + second == first;
    } else {
      var init, last := second[..|second| - 1], second[|second| - 1];
      assert first + second == (first + init) + [last] by {
        assert second == init + [last];
      }
      RunAppendMembers(members, first, init);
      RunSnoc(members, first + init, last);
      RunSnoc(Run(members, first).0, init, last);
      assert init + [last] == second;
    }
  }

  /** Running two sequences of calls one after the other: the lines of the
      second follow those of the first. */
  lemma {:induction false} RunAppend(members: seq<Colleague>, first: seq<Call>, second: seq<Call>)
    ensures Run(members, first + second).0 == Run(Run(members, first).0, second).0
    ensures Run(members, first + second).1 == Run(members, first).1 + Run(Run(members, first).0, second).1
  {
    RunAppendMembers(members, first, second);
    if second == [] {
      assert first + second == first;
    } else {
      var init, last := second[..|second| - 1], second[|second| - 1];
      assert first + second == (first + init) + [last] by {
        assert second == init + [last];
      }
      var mid := Run(members, first).0;
      RunAppend(members, first, init);
      RunSnoc(members, first + init, last);
      RunSnoc(mid, init, last);
      assert init + [last] == second;
      AppendAssoc(Run(members, first).1, Run(mid, init).1, Step(Run(mid, init).0, last).1);
    }
  }

  /** Regrouping the transcripts of three runs; stated once here, because
      asserting it inline in `RunAppend` leaves the solver too much to do. */
  lemma AppendAssoc<T>(a: seq<T>, b: seq<T>, c: seq<T>)
    ensures (a + b) + c == a + (b + c)
  {
  }

  /** Every colleague that joins is not subscribed at the moment it joins
      (the program never registers a colleague twice). */
  predicate JoinsFresh(members: seq<Colleague>, calls: seq<Call>)
  {
    calls == [] ||
    (JoinsFresh(members, calls[..|calls| - 1]) &&
     (calls[|calls| - 1].Join? ==> calls[|calls| - 1].who !in Run(members, calls[..|calls| - 1]).0))
  }

  /** Nobody is ever told about its own registration or its own departure,
      as long as no colleague registers while it is subscribed; and the
      subscribers stay free of repeats. */
  lemma {:induction false} NeverToldAboutItself(members: seq<Colleague>, calls: seq<Call>)
    requires Distinct(members)
    requires JoinsFresh(members, calls)
    ensures Distinct(Run(members, calls).0)
    ensures forall n :: n in Run(members, calls).1 ==> n.receiver != n.subject
  {
    if calls != [] {
      var init, last := calls[..|calls| - 1], calls[|calls| - 1];
      NeverToldAboutItself(members, init);
      var before := Run(members, init).0;
      match last {
        case Join(c) =>
          assert Distinct(before + [c]);
          AnnounceTo(Registered, c, before);
        case Leave(c) =>
          DistinctCount(before, c);
          RemoveLastGone(before, c);
          RemoveLastDistinct(before, c);
          AnnounceTo(Unregistered, c, RemoveLast(before, c));
      }
    }
  }

  /** A colleague that is not subscribed and does not register again hears
      nothing more, and stays unsubscribed. */
  lemma {:induction false} AbsentHearsNothing(members: seq<Colleague>, c: Colleague, calls: seq<Call>)
    requires c !in members
    requires Join(c) !in calls
    ensures c !in Run(members, calls).0
    ensures forall n :: n in Run(members, calls).1 ==> n.receiver != c
  {
    if calls != [] {
      var init, last := calls[..|calls| - 1], calls[|calls| - 1];
      assert Join(c) !in init by {
        assert forall k :: 0 <= k < |init| ==> init[k] == calls[k];
      }
      AbsentHearsNothing(members, c, init);
      var before := Run(members, init).0;
      match last {
        case Join(d) =>
          AnnounceTo(Registered, d, before);
        case Leave(d) =>
          RemoveLastSubset(before, d);
          AnnounceTo(Unregistered, d, RemoveLast(before, d));
      }
    }
  }

  /** A colleague subscribed at most once that leaves is not told about its
      own departure, and hears nothing at all afterwards unless it registers
      again. */
  lemma LeaverHearsNothing(members: seq<Colleague>, c: Colleague, later: seq<Call>)
    requires multiset(members)[c] <= 1
    requires Join(c) !in later
    ensures forall n :: n in Run(members, [Leave(c)] + later).1 ==> n.receiver != c
  {
    RemoveLastGone(members, c);
    AnnounceTo(Unregistered, c, RemoveLast(members, c));
    RunSnoc(members, [], Leave(c));
    assert [] + [Leave(c)] == [Leave(c)];
    AbsentHearsNothing(RemoveLast(members, c), c, later);
    RunAppend(members, [Leave(c)], later);
  }

  /** A colleague that neither registers nor unregisters is never named in
      a line. */
  lemma {:induction false} NotMentioned(members: seq<Colleague>, c: Colleague, calls: seq<Call>)
    requires Join(c) !in calls && Leave(c) !in calls
    ensures forall n :: n in Run(members, calls).1 ==> n.subject != c
  {
    if calls != [] {
      var init, last := calls[..|calls| - 1], calls[|calls| - 1];
      assert Join(c) !in init && Leave(c) !in init by {
        assert forall k :: 0 <= k < |init| ==> init[k] == calls[k];
      }
      NotMentioned(members, c, init);
      var before := Run(members, init).0;
      match last {
        case Join(d) =>
          AnnounceTo(Registered, d, before);
        case Leave(d) =>
          AnnounceTo(Unregistered, d, RemoveLast(before, d));
      }
    }
  }

  /** Unregistering a colleague that is not subscribed, at any point of a
      run, leaves the subscribers as they are and still tells every one of
      them that the colleague left. */
  lemma LeaveAbsent(members: seq<Colleague>, calls: seq<Call>, c: Colleague)
    requires c !in Run(members, calls).0
    ensures Run(members, calls + [Leave(c)]).0 == Run(members, calls).0
    ensures Run(members, calls + [Leave(c)]).1 ==
      Run(members, calls).1 + Announce(Unregistered, c, Run(members, calls).0)
  {
    RunSnoc(members, calls, Leave(c));
  }

  /** A colleague registered a second time while still subscribed is told
      about its own registration. */
  lemma DoubleJoin(a: Colleague)
    ensures Notification(Registered, a, a) in Run([], [Join(a), Join(a)]).1
  {
    var calls := [Join(a), Join(a)];
    RunPrefix([], calls, 0);
    RunPrefix([], calls, 1);
    assert calls[..2] == calls;
    assert Run([], calls[..1]).0 == [a];
  }

  /** The calls the program makes: Eagle, Ostrich and Penguin register in
      that order, then Eagle leaves. */
  function MainCalls(eagle: Colleague, ostrich: Colleague, penguin: Colleague): seq<Call>
  {
    [Join(eagle), Join(ostrich), Join(penguin), Leave(eagle)]
  }

  /** The transcript of the program's run: exactly five lines, in this
      order, and Ostrich and Penguin remain subscribed. */
  lemma MainTranscript(eagle: Colleague, ostrich: Colleague, penguin: Colleague)
    requires eagle != ostrich && eagle != penguin && ostrich != penguin
    ensures Run([], MainCalls(eagle, ostrich, penguin)).0 == [ostrich, penguin]
    ensures Run([], MainCalls(eagle, ostrich, penguin)).1 ==
      [Notification(Registered, ostrich, eagle)] +
      [Notification(Registered, penguin, eagle), Notification(Registered, penguin, ostrich)] +
      [Notification(Unregistered, eagle, ostrich), Notification(Unregistered, eagle, penguin)]
  {
    var joined := [Join(eagle), Join(ostrich), Join(penguin)];
    MainJoins(eagle, ostrich, penguin);
    RunSnoc([], joined, Leave(eagle));
    assert joined + [Leave(eagle)] == MainCalls(eagle, ostrich, penguin);
    RemoveLastSplit([], eagle, [ostrich, penguin]);
    assert [eagle, ostrich, penguin] == [] + [eagle] + [ostrich, penguin];
    AnnounceAt(Unregistered, eagle, [ostrich, penguin]);
  }

  /** The program's three registrations: each newcomer is announced to
      those already there. */
  lemma MainJoins(eagle: Colleague, ostrich: Colleague, penguin: Colleague)
    ensures Run([], [Join(eagle), Join(ostrich), Join(penguin)]).0 == [eagle, ostrich, penguin]
    ensures Run([], [Join(eagle), Join(ostrich), Join(penguin)]).1 ==
      [Notification(Registered, ostrich, eagle)] +
      [Notification(Registered, penguin, eagle), Notification(Registered, penguin, ostrich)]
  {
    var one, two := [Join(eagle)], [Join(eagle), Join(ostrich)];
    RunSnoc([], [], Join(eagle));
    assert [] + [Join(eagle)] == one;
    assert Run([], one).0 == [eagle] && Run([], one).1 == [];
    RunSnoc([], one, Join(ostrich));
    assert one + [Join(ostrich)] == two;
    assert Announce(Registered, ostrich, [eagle]) == [Notification(Registered, ostrich, eagle)];
    assert Run([], two).0 == [eagle, ostrich];
    assert Run([], two).1 == [Notification(Registered, ostrich, eagle)];
    RunSnoc([], two, Join(penguin));
    assert two + [Join(penguin)] == [Join(eagle), Join(ostrich), Join(penguin)];
    AnnounceAt(Registered, penguin, [eagle, ostrich]);
  }

  /** Makes one call on the mediator: the subscribers and the lines written
      are those of `Step`. */
  method Apply(m: NetworkMediator, call: Call, out: Transcript)
    requires m.Valid()
    modifies m, out
    ensures m.Valid()
    ensures m.members == Step(old(m.members), call).0
    ensures out.lines == old(out.lines) + Step(old(m.members), call).1
  {
    match call {
      case Join(c) => m.Register(c, out);
      case Leave(c) => m.Unregister(c, out);
    }
  }

  /** Performs `calls` on the mediator one after another, as the program's
      `Main` does: the subscribers and the lines written are those of `Run`. */
  method Perform(m: NetworkMediator, calls: seq<Call>, out: Transcript)
    requires m.Valid()
    modifies m, out
    ensures m.Valid()
    ensures m.members == Run(old(m.members), calls).0
    ensures out.lines == old(out.lines) + Run(old(m.members), calls).1
  {
    ghost var start := m.members;
    var i := 0;
    while i < |calls|
      invariant 0 <= i <= |calls|
      invariant m.Valid()
      invariant m.members == Run(start, calls[..i]).0
      invariant out.lines == old(out.lines) + Run(start, calls[..i]).1
    {
      Apply(m, calls[i], out);
      RunPrefix(start, calls, i);
      i := i + 1;
    }
    assert calls[..i] == calls;
  }

  /** The program's `Main` on a real mediator and real colleagues: Eagle,
      Ostrich and Penguin register in that order, then Eagle unregisters. */
  method Scenario() returns (eagle: Colleague, ostrich: Colleague, penguin: Colleague, out: Transcript)
    ensures eagle.name == "Eagle" && ostrich.name == "Ostrich" && penguin.name == "Penguin"
    ensures out.lines == Run([], MainCalls(eagle, ostrich, penguin)).1
    ensures out.lines ==
      [Notification(Registered, ostrich, eagle)] +
      [Notification(Registered, penguin, eagle), Notification(Registered, penguin, ostrich)] +
      [Notification(Unregistered, eagle, ostrich), Notification(Unregistered, eagle, penguin)]
  {
    var mediator := new NetworkMediator();
    eagle := new Colleague("Eagle");
    ostrich := new Colleague("Ostrich");
    penguin := new Colleague("Penguin");
    out := new Transcript();
    Perform(mediator, [Join(eagle), Join(ostrich), Join(penguin), Leave(eagle)], out);
    MainTranscript(eagle, ostrich, penguin);
  }
}
