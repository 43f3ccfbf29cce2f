/**
 Delayed handling of `HubUnauthorized` in `RegistrationManager.ts`: the event is remembered, and the withdrawal it
 asks for happens in the first round whose block has reached the removal time. A round that throws leaves off where
 it is; what it has done to the list stays done.
 */
module DelayedWithdrawals {
  import opened Sequences
  import opened StoredTransactions

  /** The events of the stake manager that concern the hub. `log` tells one event from another. */
  datatype HubEvent =
    | HubAuthorized(hub: Address, log: nat)
    | HubUnauthorized(hub: Address, log: nat, removalTime: int)

  /** Where a round throws: after so many events, in the withdrawal after so many others, or after all of them. */
  datatype Outcome = Completes | FailsHandling(handled: nat) | FailsWithdrawing(done: nat) | FailsLater

  /** What one round finds, the new events and the time of the block, and how far it gets. */
  datatype Round = Round(events: seq<HubEvent>, time: int, outcome: Outcome)
  {
    function Handled(): seq<HubEvent> {
      if outcome.FailsHandling? && outcome.handled < |events| then events[..outcome.handled] else events
    }

    /** It gets as far as taking the due events off the list. */
    predicate Extracts() {
      !outcome.FailsHandling?
    }
  }

  predicate Delays(hub: Address, e: HubEvent) {
    e.HubUnauthorized? && e.hub == hub
  }

  predicate IsDue(e: HubEvent, time: int) {
    e.HubUnauthorized? && e.removalTime <= time
  }

  function Delayed(hub: Address, events: seq<HubEvent>): seq<HubEvent> {
    if events == [] then []
    else
      var n := |events| - 1;
      Delayed(hub, events[..n]) + (if Delays(hub, events[n]) then [events[n]] else [])
  }

  function Due(events: seq<HubEvent>, time: int): seq<HubEvent> {
    if events == [] then []
    else
      var n := |events| - 1;
      Due(events[..n], time) + (if IsDue(events[n], time) then [events[n]] else [])
  }

  function NotDue(events: seq<HubEvent>, time: int): seq<HubEvent> {
    if events == [] then []
    else
      var n := |events| - 1;
      NotDue(events[..n], time) + (if IsDue(events[n], time) then [] else [events[n]])
  }

  /** The list of delayed events in a round, once its events are handled. */
  function Queue(hub: Address, waiting: seq<HubEvent>, r: Round): seq<HubEvent> {
    waiting + Delayed(hub, r.Handled())
  }

  /** The events the round takes off the list. */
  function Extracted(hub: Address, waiting: seq<HubEvent>, r: Round): seq<HubEvent> {
    if r.Extracts() then Due(Queue(hub, waiting, r), r.time) else []
  }

  function WithdrawalsDone(r: Round, extracted: nat): (n: nat)
    ensures n <= extracted
  {
    if r.outcome.FailsWithdrawing? && r.outcome.done < extracted then r.outcome.done else extracted
  }

  /** The events whose withdrawals succeed in the round. */
  function Fired(hub: Address, waiting: seq<HubEvent>, r: Round): seq<HubEvent> {
    var extracted := Extracted(hub, waiting, r);
    extracted[..WithdrawalsDone(r, |extracted|)]
  }

  /** Those it takes off the list without: the one whose withdrawal throws, and all after it. */
  function Dropped(hub: Address, waiting: seq<HubEvent>, r: Round): seq<HubEvent> {
    var extracted := Extracted(hub, waiting, r);
    extracted[WithdrawalsDone(r, |extracted|)..]
  }

  function WaitingAfter(hub: Address, waiting: seq<HubEvent>, r: Round): seq<HubEvent> {
    if r.Extracts() then NotDue(Queue(hub, waiting, r), r.time) else Queue(hub, waiting, r)
  }

  /** The delayed events after the given rounds. */
  function Waiting(hub: Address, rounds: seq<Round>): seq<HubEvent> {
    if rounds == [] then []
    else
      var n := |rounds| - 1;
      WaitingAfter(hub, Waiting(hub, rounds[..n]), rounds[n])
  }

  function FiredIn(hub: Address, rounds: seq<Round>, k: nat): seq<HubEvent>
    requires k < |rounds|
  {
    Fired(hub, Waiting(hub, rounds[..k]), rounds[k])
  }

  function DroppedIn(hub: Address, rounds: seq<Round>, k: nat): seq<HubEvent>
    requires k < |rounds|
  {
    Dropped(hub, Waiting(hub, rounds[..k]), rounds[k])
  }

  function AllFired(hub: Address, rounds: seq<Round>): seq<HubEvent> {
    if rounds == [] then []
    else AllFired(hub, rounds[..|rounds| - 1]) + FiredIn(hub, rounds, |rounds| - 1)
  }

  function AllDropped(hub: Address, rounds: seq<Round>): seq<HubEvent> {
    if rounds == [] then []
    else AllDropped(hub, rounds[..|rounds| - 1]) + DroppedIn(hub, rounds, |rounds| - 1)
  }

  /** The events the rounds have put on the list, each as often as they have. */
  function AllDelayed(hub: Address, rounds: seq<Round>): seq<HubEvent> {
    if rounds == [] then []
    else AllDelayed(hub, rounds[..|rounds| - 1]) + Delayed(hub, rounds[|rounds| - 1].Handled())
  }

  lemma {:induction false} DueSplits(events: seq<HubEvent>, time: int)
    ensures multiset(events) == multiset(Due(events, time)) + multiset(NotDue(events, time))
    ensures forall e :: e in Due(events, time) <==> e in events && IsDue(e, time)
    ensures forall e :: e in NotDue(events, time) <==> e in events && !IsDue(e, time)
  {
    if events != [] {
      var n := |events| - 1;
      DueSplits(events[..n], time);
      assert events == events[..n] + [events[n]];
    }
  }

  lemma {:induction false} DelayedIsFilter(hub: Address, events: seq<HubEvent>)
    ensures forall e :: e in Delayed(hub, events) <==> e in events && e.HubUnauthorized? && e.hub == hub
  {
    if events != [] {
      var n := |events| - 1;
      DelayedIsFilter(hub, events[..n]);
      assert events == events[..n] + [events[n]];
    }
  }

  /** The order of the list is kept, on both sides. */
  lemma {:induction false} SplitInOrder(events: seq<HubEvent>, rest: seq<HubEvent>, time: int)
    ensures Due(events + rest, time) == Due(events, time) + Due(rest, time)
    ensures NotDue(events + rest, time) == NotDue(events, time) + NotDue(rest, time)
  {
    if rest == [] {
      AppendNothing(events);
      AppendNothing(Due(events, time));
      AppendNothing(NotDue(events, time));
    } else {
      var n := |rest| - 1;
      var due := IsDue(rest[n], time);
      assert (events + rest)[..|events| + n] == events + rest[..n];
      SplitInOrder(events, rest[..n], time);
      Regroup(Due(events, time), Due(rest[..n], time), if due then [rest[n]] else []);
      Regroup(NotDue(events, time), NotDue(rest[..n], time), if due then [] else [rest[n]]);
    }
  }

  lemma {:induction false} DelayedInOrder(hub: Address, events: seq<HubEvent>, rest: seq<HubEvent>)
    ensures Delayed(hub, events + rest) == Delayed(hub, events) + Delayed(hub, rest)
  {
    if rest == [] {
      AppendNothing(events);
      AppendNothing(Delayed(hub, events));
    } else {
      var n := |rest| - 1;
      assert (events + rest)[..|events| + n] == events + rest[..n];
      DelayedInOrder(hub, events, rest[..n]);
      Regroup(Delayed(hub, events), Delayed(hub, rest[..n]), if Delays(hub, rest[n]) then [rest[n]] else []);
    }
  }

  /** The events of the round that put something on the list: unauthorizations of the hub, up to where it throws. */
  predicate ComesIn(hub: Address, r: Round, e: HubEvent) {
    && e.HubUnauthorized? && e.hub == hub
    && exists i :: 0 <= i < |r.events| && r.events[i] == e && (r.outcome.FailsHandling? ==> i < r.outcome.handled)
  }

  lemma HandledExactly(hub: Address, r: Round, e: HubEvent)
    ensures ComesIn(hub, r, e) <==> e in r.Handled() && Delays(hub, e)
  {
    if e in r.Handled() {
      var i :| 0 <= i < |r.Handled()| && r.Handled()[i] == e;
      assert r.events[i] == e;
    }
    if i :| 0 <= i < |r.events| && r.events[i] == e && (r.outcome.FailsHandling? ==> i < r.outcome.handled) {
      assert r.Handled()[i] == e;
    }
  }

  /** How far the withdrawals of a round get. */
  lemma WithdrawnExactly(hub: Address, waiting: seq<HubEvent>, r: Round)
    ensures Fired(hub, waiting, r) + Dropped(hub, waiting, r) == Extracted(hub, waiting, r)
    ensures !r.outcome.FailsWithdrawing? ==> Dropped(hub, waiting, r) == []
    ensures r.outcome.FailsWithdrawing? ==> |Fired(hub, waiting, r)| <= r.outcome.done
    ensures r.outcome.FailsWithdrawing? && |Fired(hub, waiting, r)| < r.outcome.done ==> Dropped(hub, waiting, r) == []
  {
  }

  lemma ExtractedExactly(hub: Address, waiting: seq<HubEvent>, r: Round, e: HubEvent)
    ensures var there := e in waiting || (e in r.Handled() && Delays(hub, e));
      && (e in Extracted(hub, waiting, r) <==> there && r.Extracts() && IsDue(e, r.time))
      && (e in WaitingAfter(hub, waiting, r) <==> there && !(r.Extracts() && IsDue(e, r.time)))
  {
    DelayedIsFilter(hub, r.Handled());
    DueSplits(Queue(hub, waiting, r), r.time);
  }

  /**
   One round by itself: if it throws while handling its events it withdraws for none. Otherwise the due events leave
   the list, and it withdraws for them in order, up to the first that fails.
   */
  lemma RoundExactly(hub: Address, waiting: seq<HubEvent>, r: Round, e: HubEvent)
    ensures var there := e in waiting || ComesIn(hub, r, e);
      var due := !r.outcome.FailsHandling? && e.HubUnauthorized? && e.removalTime <= r.time;
      && (e in Fired(hub, waiting, r) || e in Dropped(hub, waiting, r) <==> there && due)
      && (e in WaitingAfter(hub, waiting, r) <==> there && !due)
  {
    HandledExactly(hub, r, e);
    ExtractedExactly(hub, waiting, r, e);
    FiredOrDropped(hub, waiting, r);
  }

  lemma SplitAt(s: seq<HubEvent>, n: nat)
    requires n <= |s|
    ensures multiset(s) == multiset(s[..n]) + multiset(s[n..])
    ensures forall e :: e in s <==> e in s[..n] || e in s[n..]
  {
    assert s == s[..n] + s[n..];
  }

  lemma FiredOrDropped(hub: Address, waiting: seq<HubEvent>, r: Round)
    ensures multiset(Extracted(hub, waiting, r)) == multiset(Fired(hub, waiting, r)) + multiset(Dropped(hub, waiting, r))
    ensures forall e :: e in Extracted(hub, waiting, r) <==> e in Fired(hub, waiting, r) || e in Dropped(hub, waiting, r)
  {
    SplitAt(Extracted(hub, waiting, r), WithdrawalsDone(r, |Extracted(hub, waiting, r)|));
  }

  /** What was on the list before a round, or is put there by it, is withdrawn or dropped in the round or stays. */
  lemma RoundKeepsAll(hub: Address, waiting: seq<HubEvent>, r: Round)
    ensures multiset(Fired(hub, waiting, r)) + multiset(Dropped(hub, waiting, r)) + multiset(WaitingAfter(hub, waiting, r))
         == multiset(Queue(hub, waiting, r))
  {
    DueSplits(Queue(hub, waiting, r), r.time);
    FiredOrDropped(hub, waiting, r);
  }

  /**
   Wherever rounds throw: each time an event is put on the list leads to one withdrawal, or the event still waits,
   or a round has dropped it in failing to withdraw.
   */
  lemma {:induction false} EachEventFiresOnceOrWaits(hub: Address, rounds: seq<Round>)
    ensures multiset(AllFired(hub, rounds)) + multiset(Waiting(hub, rounds)) + multiset(AllDropped(hub, rounds))
         == multiset(AllDelayed(hub, rounds))
  {
    if rounds != [] {
      var n := |rounds| - 1;
      EachEventFiresOnceOrWaits(hub, rounds[..n]);
      RoundKeepsAll(hub, Waiting(hub, rounds[..n]), rounds[n]);
      Balance(AllFired(hub, rounds[..n]), Waiting(hub, rounds[..n]), AllDropped(hub, rounds[..n]),
              AllDelayed(hub, rounds[..n]), Delayed(hub, rounds[n].Handled()),
              FiredIn(hub, rounds, n), Waiting(hub, rounds), DroppedIn(hub, rounds, n));
    }
  }

  lemma Balance<T>(
    fired: seq<T>, known: seq<T>, dropped: seq<T>, delayed: seq<T>, arrived: seq<T>,
    firing: seq<T>, later: seq<T>, dropping: seq<T>)
    requires multiset(fired) + multiset(known) + multiset(dropped) == multiset(delayed)
    requires multiset(known + arrived) == multiset(firing) + multiset(dropping) + multiset(later)
    ensures multiset(fired + firing) + multiset(later) + multiset(dropped + dropping) == multiset(delayed + arrived)
  {
    assert multiset(fired + firing) == multiset(fired) + multiset(firing);
    assert multiset(dropped + dropping) == multiset(dropped) + multiset(dropping);
    assert multiset(known + arrived) == multiset(known) + multiset(arrived);
    assert multiset(delayed + arrived) == multiset(delayed) + multiset(arrived);
    Rearranged(multiset(fired), multiset(known), multiset(dropped), multiset(arrived), multiset(firing),
               multiset(later), multiset(dropping));
  }

  lemma Rearranged<T>(
    fired: multiset<T>, known: multiset<T>, dropped: multiset<T>, arrived: multiset<T>, firing: multiset<T>,
    later: multiset<T>, dropping: multiset<T>)
    requires known + arrived == firing + dropping + later
    ensures fired + firing + later + (dropped + dropping) == fired + known + dropped + arrived
  {
    forall x
      ensures (fired + firing + later + (dropped + dropping))[x] == (fired + known + dropped + arrived)[x]
    {
      assert (known + arrived)[x] == (firing + dropping + later)[x];
    }
  }

  /** The event was handled in round `i`, and no round from then to before `k` that got to the list found it due. */
  ghost predicate WaitedFrom(hub: Address, rounds: seq<Round>, e: HubEvent, i: nat, k: nat) {
    && i <= k <= |rounds| && i < |rounds| && e in rounds[i].Handled() && Delays(hub, e)
    && forall j :: i <= j < k ==> !TakenIn(e, rounds[j])
  }

  predicate TakenIn(e: HubEvent, r: Round) {
    r.Extracts() && IsDue(e, r.time)
  }

  ghost predicate HasWaited(hub: Address, rounds: seq<Round>, e: HubEvent, k: nat) {
    exists i: nat :: WaitedFrom(hub, rounds, e, i, k)
  }

  /** At round `k` an event has waited if it came before and has waited so far, or if it comes just then. */
  lemma WaitedBeforeOrComesNow(hub: Address, rounds: seq<Round>, e: HubEvent, k: nat)
    requires k < |rounds|
    ensures HasWaited(hub, rounds, e, k) <==>
      HasWaited(hub, rounds[..k], e, k) || (e in rounds[k].Handled() && Delays(hub, e))
  {
    if i: nat :| WaitedFrom(hub, rounds[..k], e, i, k) {
      assert WaitedFrom(hub, rounds, e, i, k);
    }
    if e in rounds[k].Handled() && Delays(hub, e) {
      assert WaitedFrom(hub, rounds, e, k, k);
    }
    if i: nat :| WaitedFrom(hub, rounds, e, i, k) {
      if i < k {
        assert WaitedFrom(hub, rounds[..k], e, i, k);
      }
    }
  }

  /** It goes on waiting if the round does not take it off the list. */
  lemma WaitsOn(hub: Address, rounds: seq<Round>, e: HubEvent, k: nat, next: nat)
    requires next == k + 1 == |rounds|
    ensures HasWaited(hub, rounds, e, next) <==> HasWaited(hub, rounds, e, k) && !TakenIn(e, rounds[k])
  {
    if i: nat :| WaitedFrom(hub, rounds, e, i, k) {
      if !TakenIn(e, rounds[k]) {
        assert WaitedFrom(hub, rounds, e, i, next);
      }
    }
    if i: nat :| WaitedFrom(hub, rounds, e, i, next) {
      assert WaitedFrom(hub, rounds, e, i, k);
    }
  }

  /** An event waits exactly while no round since it was handled has got to the list and found it due. */
  lemma {:induction false} WaitsUntilDue(hub: Address, rounds: seq<Round>, e: HubEvent)
    ensures e in Waiting(hub, rounds) <==> HasWaited(hub, rounds, e, |rounds|)
  {
    if rounds != [] {
      var n := |rounds| - 1;
      WaitsUntilDue(hub, rounds[..n], e);
      DelayedIsFilter(hub, rounds[n].Handled());
      DueSplits(Queue(hub, Waiting(hub, rounds[..n]), rounds[n]), rounds[n].time);
      WaitedBeforeOrComesNow(hub, rounds, e, n);
      WaitsOn(hub, rounds, e, n, |rounds|);
    }
  }

  /**
   A round takes an event off the list exactly when it is the first to get there whose block has reached the removal
   time; the withdrawal follows unless one of the round's withdrawals throws.
   */
  lemma FiresAtFirstDueBlock(hub: Address, rounds: seq<Round>, k: nat, e: HubEvent)
    requires k < |rounds|
    ensures e in FiredIn(hub, rounds, k) || e in DroppedIn(hub, rounds, k) <==>
      HasWaited(hub, rounds, e, k) && TakenIn(e, rounds[k])
  {
    WaitsUntilDue(hub, rounds[..k], e);
    DelayedIsFilter(hub, rounds[k].Handled());
    DueSplits(Queue(hub, Waiting(hub, rounds[..k]), rounds[k]), rounds[k].time);
    WaitedBeforeOrComesNow(hub, rounds, e, k);
    FiredOrDropped(hub, Waiting(hub, rounds[..k]), rounds[k]);
  }

  // ---------- The code ----------

  class DelayedEvents {
    const hub: Address
    var isHubAuthorized: bool
    var delayedEvents: seq<HubEvent>
    ghost var rounds: seq<Round>

    ghost predicate Valid()
      reads this
    {
      delayedEvents == Waiting(hub, rounds)
    }

    constructor (hub: Address)
      ensures Valid() && this.hub == hub && rounds == [] && !isHubAuthorized
    {
      this.hub, isHubAuthorized, delayedEvents, rounds := hub, false, [], [];
    }

    method ExtractDuePendingEvents(time: int) returns (due: seq<HubEvent>)
      modifies this`delayedEvents
      ensures due == Due(old(delayedEvents), time) && delayedEvents == NotDue(old(delayedEvents), time)
    {
      due := [];
      var later := [];
      for i := 0 to |delayedEvents|
        invariant delayedEvents == old(delayedEvents)
        invariant due == Due(delayedEvents[..i], time) && later == NotDue(delayedEvents[..i], time)
      {
        assert delayedEvents[..i + 1][..i] == delayedEvents[..i];
        if IsDue(delayedEvents[i], time) {
          due := due + [delayedEvents[i]];
        } else {
          later := later + [delayedEvents[i]];
        }
      }
      assert delayedEvents[..|delayedEvents|] == delayedEvents;
      delayedEvents := later;
    }

    /** The events of a round, and then the withdrawals that are due by its block, as far as the round gets. */
    method HandleHubEvents(events: seq<HubEvent>, time: int, outcome: Outcome) returns (withdrawals: seq<HubEvent>)
      requires Valid()
      modifies this
      ensures Valid() && rounds == old(rounds) + [Round(events, time, outcome)]
      ensures withdrawals == Fired(hub, old(delayedEvents), Round(events, time, outcome))
      ensures isHubAuthorized == AuthorizedAfter(hub, Round(events, time, outcome).Handled(), old(isHubAuthorized))
    {
      var round := Round(events, time, outcome);
      var handled := |events|;
      if outcome.FailsHandling? && outcome.handled < |events| {
        handled := outcome.handled;
      }
      HandleEvents(events[..handled]);
      assert events[..|events|] == events;
      withdrawals := [];
      rounds := rounds + [round];
      assert rounds[..|rounds| - 1] == old(rounds);
      assert delayedEvents == Queue(hub, old(delayedEvents), round);
      if outcome.FailsHandling? {
        return;
      }
      var due := ExtractDuePendingEvents(time);
      assert due == Extracted(hub, old(delayedEvents), round);
      withdrawals := Withdraw(due, round);
    }

    /** The withdrawals up to the first that throws. */
    method Withdraw(due: seq<HubEvent>, round: Round) returns (withdrawals: seq<HubEvent>)
      ensures withdrawals == due[..WithdrawalsDone(round, |due|)]
    {
      withdrawals := [];
      for i := 0 to |due|
        invariant withdrawals == due[..i] && i <= WithdrawalsDone(round, |due|)
      {
        if round.outcome == FailsWithdrawing(i) {
          return;
        }
        withdrawals := withdrawals + [due[i]];
      }
    }

    method HandleEvents(events: seq<HubEvent>)
      modifies this`delayedEvents, this`isHubAuthorized
      ensures delayedEvents == old(delayedEvents) + Delayed(hub, events)
      ensures isHubAuthorized == AuthorizedAfter(hub, events, old(isHubAuthorized))
    {
      for i := 0 to |events|
        invariant delayedEvents == old(delayedEvents) + Delayed(hub, events[..i])
        invariant isHubAuthorized == AuthorizedAfter(hub, events[..i], old(isHubAuthorized))
      {
        assert events[..i + 1][..i] == events[..i];
        if events[i].hub == hub {
          isHubAuthorized := events[i].HubAuthorized?;
          if events[i].HubUnauthorized? {
            delayedEvents := delayedEvents + [events[i]];
          }
        }
      }
      assert events[..|events|] == events;
    }
  }

  /** The position of the latest event for the hub. */
  predicate IsLatest(hub: Address, events: seq<HubEvent>, i: nat) {
    i < |events| && events[i].hub == hub && forall j :: i < j < |events| ==> events[j].hub != hub
  }

  lemma {:induction false} AuthorizedByLatest(hub: Address, events: seq<HubEvent>, before: bool, i: nat)
    requires IsLatest(hub, events, i)
    ensures AuthorizedAfter(hub, events, before) == events[i].HubAuthorized?
  {
    var n := |events| - 1;
    if i < n {
      AuthorizedByLatest(hub, events[..n], before, i);
    }
  }

  /** Events of other hubs change nothing. */
  lemma {:induction false} AuthorizedAsBefore(hub: Address, events: seq<HubEvent>, before: bool)
    requires forall i :: 0 <= i < |events| ==> events[i].hub != hub
    ensures AuthorizedAfter(hub, events, before) == before
  {
    if events != [] {
      AuthorizedAsBefore(hub, events[..|events| - 1], before);
    }
  }

  /** The hub is authorized according to its latest event, if there is one. */
  function AuthorizedAfter(hub: Address, events: seq<HubEvent>, before: bool): bool {
    if events == [] then before
    else
      var n := |events| - 1;
      if events[n].hub == hub then events[n].HubAuthorized? else AuthorizedAfter(hub, events[..n], before)
  }
}
