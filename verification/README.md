# Network mediator, modelled in Dafny

The program is a small instance of the mediator pattern in C#. A
`NetworkMediator` is a hub that owns two events:
- `RegisterNotification`, "a colleague joined";
- `UnRegisterNotification`, "a colleague left".

`ComputerColleague`s never talk to each other. They register with the hub, and the
hub tells the colleagues already registered about every arrival and
departure. Each notification writes one console line.

`Register(c)` first raises the register event for `c`. It then appends `c`'s
two handlers to the two events. `Unregister(c)` first removes `c`'s handlers
from both events, then raises the unregister event for `c`. So a colleague
that registers only once is never told about its own arrival or its own
departure. The program's `Main`
registers Eagle, Ostrich and Penguin, then unregisters Eagle, and the
console shows five lines.

The model has two modules:

- `delegates.dfy` (`Delegates`) defines the invocation list of a .NET event.
  `+=` appends a delegate. `-=` removes the last entry equal to the
  delegate, and does nothing when no entry is equal (`RemoveLast`).
  Delegates are equal when target and method are.
- `mediator.dfy` (`Mediator`) holds the classes:
  - `Colleague`: a reference with a name and the two handlers. Each
    handler appends one `Notification` to a `Transcript`, which stands for
    the console.
  - `NetworkMediator`: its two event fields are sequences of `Handler`
    values, each a delegate bound to one colleague and one of its two
    handlers. The fields are reassigned exactly as `+=`/`-=` reassign them.
    A ghost field `members` records the registered colleagues. `Valid()`
    says both lists are exactly those colleagues' handlers, in order.
  - `Raise` calls each delegate of the list it was given, in order. The
    list is a value, so the call works on a snapshot.
  - `Announce(kind, subject, receivers)` is the reference definition of
    what one call should print: one line per receiver, in subscription
    order. `Register` and `Unregister` are proved against it.
  - `Step` and `Run` give a pure semantics of a sequence of calls. `Apply`
    makes one call on a real mediator and is proved to do what `Step`
    says. `Perform` makes a whole sequence of calls and is proved to do
    what `Run` says. So the properties proved over `Run` hold of the
    objects: nobody is told about itself, and a colleague that left
    hears nothing more.

Neither `Register` nor `Unregister` has a precondition, because the source
checks nothing. Registering a colleague twice subscribes it twice.
Unregistering a colleague that is not registered leaves both lists
unchanged and still tells every subscriber that the colleague left. So a
second `Unregister` of a colleague announces its departure again
(`LeaveAbsent`). The contracts state this behaviour. The "never told about itself" lemma
carries, as its hypothesis, the condition that no colleague registers while
it is already subscribed (`JoinsFresh`).

## Model

| member | source | states |
|---|---|---|
| Delegates.LastIndexOf | mediator-pattern-csharp/Program.cs:54-55 | The result is -1 exactly when the delegate is absent. Otherwise the entry at that index is the delegate and no later entry is. |
| Delegates.RemoveLast | mediator-pattern-csharp/Program.cs:54-55 | `-=` on a list without the delegate leaves the list unchanged; on a list with it, the list is one entry shorter. |
| Delegates.RemoveLastSplice | mediator-pattern-csharp/Program.cs:54-55 | `-=` cuts out exactly the last equal entry. The entries before and after it stay, in their order. |
| Delegates.RemoveLastSplit | mediator-pattern-csharp/Program.cs:54-55 | For any list `a + [x] + b` with no `x` in `b`, `-= x` yields `a + b`, even when `a` holds earlier copies of `x`. |
| Delegates.RemoveLastMultiset | mediator-pattern-csharp/Program.cs:54-55 | `-=` removes one occurrence of the delegate and nothing else: the multiset of entries loses exactly one `x`. |
| Delegates.RemoveLastGone | mediator-pattern-csharp/Program.cs:54-55 | A delegate subscribed at most once is absent after `-=`. Every other entry keeps its number of occurrences. |
| Delegates.RemoveLastSubset | mediator-pattern-csharp/Program.cs:54-55 | `-=` never introduces an entry. |
| Delegates.RemoveLastDistinct | mediator-pattern-csharp/Program.cs:54-55 | A list without repeats stays without repeats after `-=`. |
| Delegates.DistinctCount | mediator-pattern-csharp/Program.cs:49-50 | In a list without repeats, every value occurs at most once. |
| Mediator.Colleague.constructor | mediator-pattern-csharp/Program.cs:76-79 | A new colleague carries the given name. |
| Mediator.Colleague.ReceiveRegisterNotification | mediator-pattern-csharp/Program.cs:98-104 | The handler writes exactly one line, "subject registered, received by this colleague", after the lines already written. |
| Mediator.Colleague.ReceiveUnRegisterNotification | mediator-pattern-csharp/Program.cs:106-112 | The handler writes exactly one line, "subject left, received by this colleague", after the lines already written. |
| Mediator.NetworkMediator.constructor | mediator-pattern-csharp/Program.cs:41-45 | A new mediator has no subscribers on either event and satisfies the invariant. |
| Mediator.Raise | mediator-pattern-csharp/Program.cs:48 | Raising an event calls every delegate of its list once, in list order. It appends exactly their lines and nothing else. |
| Mediator.DeliveriesSnoc | mediator-pattern-csharp/Program.cs:48 | The delegate subscribed last writes its line last. |
| Mediator.SubscriptionsAt | mediator-pattern-csharp/Program.cs:49-50 | The i-th delegate of an event's list is the i-th registered colleague's handler for that event. |
| Mediator.SubscriptionsSnoc | mediator-pattern-csharp/Program.cs:49-50 | Registering one more colleague appends its handler at the end of the list. |
| Mediator.RemoveLastSubscriptions | mediator-pattern-csharp/Program.cs:54-55 | `-=` with a colleague's handler removes that colleague's last subscription. The other colleagues keep their place. |
| Mediator.DeliveriesAnnounce | mediator-pattern-csharp/Program.cs:48 | Raising an event whose subscribers are the registered colleagues tells each of them, in registration order, and nobody else. |
| Mediator.AnnounceAt | mediator-pattern-csharp/Program.cs:98-112 | The i-th line of an announcement is addressed to the i-th receiver and names the subject and event. |
| Mediator.AnnounceTo | mediator-pattern-csharp/Program.cs:98-112 | Only the receivers hear an announcement, and each line names that subject and that event. |
| Mediator.NetworkMediator.Register | mediator-pattern-csharp/Program.cs:46-51 | The register event fires to the old subscribers only, in order. Then `c`'s handlers are appended to both lists. With the invariant, the lines are `Announce` of the event to the previously registered colleagues, and the invariant is kept. |
| Mediator.NetworkMediator.Unregister | mediator-pattern-csharp/Program.cs:52-57 | `c`'s last subscription is removed from both lists, and only then does the unregister event fire to the remaining subscribers. With the invariant, the lines are `Announce` of the departure to the colleagues that remain, and the invariant is kept. |
| Mediator.RunSnoc | mediator-pattern-csharp/Program.cs:11-14 | A run of calls followed by one more call continues from the state the run left. |
| Mediator.RunPrefix | mediator-pattern-csharp/Program.cs:11-14 | The same, for successive prefixes of one sequence of calls. |
| Mediator.RunAppendMembers | mediator-pattern-csharp/Program.cs:11-14 | Two runs in a row leave the same subscribers as their concatenation. |
| Mediator.RunAppend | mediator-pattern-csharp/Program.cs:11-14 | Two runs in a row leave the same subscribers and write the same transcript as their concatenation. |
| Mediator.NeverToldAboutItself | mediator-pattern-csharp/Program.cs:46-57 | Over any sequence of calls that never registers a colleague already subscribed, no line is addressed to its own subject, and the subscribers stay free of repeats. |
| Mediator.AbsentHearsNothing | mediator-pattern-csharp/Program.cs:111 | A colleague that is not subscribed and does not register again never receives a line, and stays unsubscribed. |
| Mediator.LeaverHearsNothing | mediator-pattern-csharp/Program.cs:52-57 | A colleague subscribed at most once that unregisters is not told about its own departure. It hears nothing afterwards unless it registers again. |
| Mediator.MainTranscript | mediator-pattern-csharp/Program.cs:7-24 | The program's four calls print exactly the five documented lines, in the documented order. Ostrich and Penguin remain subscribed. |
| Mediator.MainJoins | mediator-pattern-csharp/Program.cs:11-13 | The three registrations print the first three documented lines and leave Eagle, Ostrich and Penguin subscribed, in that order. |
| Mediator.Apply | mediator-pattern-csharp/Program.cs:46-57 | One `Register` or `Unregister` call on a consistent mediator changes the subscribers and writes the lines exactly as `Step` says, and keeps the mediator consistent. |
| Mediator.Perform | mediator-pattern-csharp/Program.cs:11-14 | Any sequence of calls on a consistent mediator changes the subscribers and writes the lines exactly as `Run` says, so every lemma about `Run` holds of the real objects. |
| Mediator.Scenario | mediator-pattern-csharp/Program.cs:7-14 | Running `Main` on a real mediator and real colleagues writes exactly `Run` of its four calls, which is the five documented lines. |
| Mediator.NotMentioned | mediator-pattern-csharp/Program.cs:48 | A colleague that neither registers nor unregisters during a run is named in no line. |
| Mediator.LeaveAbsent | mediator-pattern-csharp/Program.cs:52-57 | Unregistering a colleague that is not subscribed leaves the subscribers unchanged and still tells every subscriber it left. With `LeaverHearsNothing`, a second `Unregister` therefore announces the same departure again. |
| Mediator.DoubleJoin | mediator-pattern-csharp/Program.cs:46-51 | A colleague registered twice without unregistering is told about its own second registration, so `JoinsFresh` is needed in `NeverToldAboutItself`. |
| Mediator.Deliver | mediator-pattern-csharp/Program.cs:98-112 | Invoking one delegate writes the line of its handler kind, naming the subject and the delegate's target. |
| Mediator.Deliveries | mediator-pattern-csharp/Program.cs:48 | Raising an event writes one line per delegate of its list, in list order. |
| Mediator.Subscriptions | mediator-pattern-csharp/Program.cs:49-50 | The invocation list built by `+=` of one kind of handler for each colleague, in registration order. |
| Mediator.Announce | mediator-pattern-csharp/Program.cs:17-24 | What one call should print: one line per receiver, in order, naming the event and subject. |
| Mediator.NetworkMediator.Valid | mediator-pattern-csharp/Program.cs:41-42 | Both invocation lists hold the handlers of the same colleagues, in the same order. |
| Mediator.Step | mediator-pattern-csharp/Program.cs:46-57 | One call: a registration announces the newcomer to the old subscribers and appends it. An unregistration removes the leaver's last subscription and announces it to the rest. |
| Mediator.Run | mediator-pattern-csharp/Program.cs:11-14 | A sequence of calls, one `Step` after another, collecting every line in order. |
| Mediator.JoinsFresh | mediator-pattern-csharp/Program.cs:46-51 | No call registers a colleague that is subscribed at that moment. |
| Mediator.MainCalls | mediator-pattern-csharp/Program.cs:11-14 | The program's four calls, in order. |

## Left out

- Console I/O: `Console.ReadLine` is not modelled. Each `Console.WriteLine` becomes one structured `Notification` appended to a `Transcript`, instead of formatted text.
- `ToString` and the string concatenation that builds each line are not modelled. The line's event kind, subject and receiver are kept.
- The `sender` argument and the `ColleagueArgs`/`EventArgs` wrapper are not modelled. A handler receives the subject colleague directly.
- The `IMediator` interface and the abstract `Colleague` base class are not modelled. There is one concrete colleague class and one concrete mediator.
- The initial `delegate { }` subscribed to each event is not modelled, because it does nothing. The list starts empty, and raising an empty list does nothing, as in C#, where the initial handler keeps the event from being null.
- Subscribing or unsubscribing from outside the mediator is not modelled. C# allows it on a public event, but the program never does it; the invariant `Valid()` describes only lists changed by `Register` and `Unregister`.
- Re-entrant calls from a handler and concurrent calls are not modelled. A handler only writes its line.
- Mediator.NetworkMediator.Register and Mediator.NetworkMediator.Unregister: the guarantees stated in terms of registered colleagues (`Announce`) are conditional on `Valid()` holding before the call. The unconditional ensures state only the raw lists and the raw deliveries.
- Mediator.NotMentioned: the promise that no one hears about a colleague after it unregisters holds only while it is not unregistered again. The source re-announces the departure on every `Unregister` (`LeaveAbsent`).
- Mediator.NeverToldAboutItself: proved only for runs that never register a colleague that is already subscribed. A colleague registered twice is told about its own second registration (`DoubleJoin`), and the source allows this.
