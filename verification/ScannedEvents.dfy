/**
 Which events the rounds of `RelayServer.ts` find. A round asks for the events after the last scanned block up to the
 latest one, but counts as scanned only its own block, which may be an earlier one; and when it throws it counts
 nothing as scanned, whatever it has done with the events so far.
 */
module ScannedEvents {
  import opened Sequences
  import opened StoredTransactions
  import opened DelayedWithdrawals
  import Logs = PagedLogs

  /** The block a round works on, the latest block when it asks for events, and how far it gets. */
  datatype Scan = Scan(current: nat, time: int, latest: nat, outcome: Outcome)

  /** The last scanned block, the delayed events, and all withdrawals so far. */
  datatype State = State(lastScanned: nat, waiting: seq<HubEvent>, withdrawn: seq<HubEvent>)

  /** The delayed events for this hub in blocks after `from` up to `to`, for the events `at` each block of the chain. */
  function DelayedIn(hub: Address, at: nat -> seq<HubEvent>, from: nat, to: nat): seq<HubEvent> {
    Delayed(hub, Logs.LogsIn(at, from + 1, to))
  }

  function RoundOf(at: nat -> seq<HubEvent>, s: State, scan: Scan): Round {
    Round(Logs.LogsIn(at, s.lastScanned + 1, scan.latest), scan.time, scan.outcome)
  }

  /** A round starts only for a block after the last scanned one. */
  predicate Next(hub: Address, at: nat -> seq<HubEvent>, s: State, scan: Scan, s': State) {
    var round := RoundOf(at, s, scan);
    && s.lastScanned < scan.current <= scan.latest
    && s' == State(if scan.outcome.Completes? then scan.current else s.lastScanned,
                   WaitingAfter(hub, s.waiting, round), s.withdrawn + Fired(hub, s.waiting, round))
  }

  predicate StepAt(hub: Address, at: nat -> seq<HubEvent>, states: seq<State>, scans: seq<Scan>, i: nat)
    requires i < |scans| && i + 1 < |states|
  {
    Next(hub, at, states[i], scans[i], states[i + 1])
  }

  ghost predicate IsRun(hub: Address, at: nat -> seq<HubEvent>, start: nat, states: seq<State>, scans: seq<Scan>) {
    && |states| == |scans| + 1 && states[0] == State(start, [], [])
    && forall i :: 0 <= i < |scans| ==> StepAt(hub, at, states, scans, i)
  }

  /** Each event for this hub up to the last scanned block has led to one withdrawal or waits once. */
  ghost predicate EachOnce(hub: Address, at: nat -> seq<HubEvent>, start: nat, s: State) {
    multiset(s.withdrawn) + multiset(s.waiting) == multiset(DelayedIn(hub, at, start, s.lastScanned))
  }

  /**
   What a round must find to keep that. A round that completes: no event for this hub after its own block. One that
   throws: it has put no event on the list, or else it has dropped in withdrawing just what it has put there.
   */
  ghost predicate FindsNoMore(hub: Address, at: nat -> seq<HubEvent>, s: State, scan: Scan) {
    var round := RoundOf(at, s, scan);
    IsClean(scan.outcome, Delayed(hub, round.Handled()), Dropped(hub, s.waiting, round),
            DelayedIn(hub, at, scan.current, scan.latest))
  }

  /** For the events a round has put on the list, those it has dropped, and those there are after its own block. */
  predicate IsClean(outcome: Outcome, handled: seq<HubEvent>, dropped: seq<HubEvent>, beyond: seq<HubEvent>) {
    match outcome
    case Completes => beyond == []
    case FailsWithdrawing(_) => multiset(handled) == multiset(dropped)
    case _ => handled == []
  }

  // ---------- One round ----------

  lemma {:induction false} DelayedConcat(hub: Address, a: seq<HubEvent>, b: seq<HubEvent>)
    ensures Delayed(hub, a + b) == Delayed(hub, a) + Delayed(hub, b)
  {
    if b == [] {
      AppendNothing(a);
    } else {
      var n := |b| - 1;
      assert (a + b)[..|a| + n] == a + b[..n];
      DelayedConcat(hub, a, b[..n]);
    }
  }

  lemma DelayedSplit(hub: Address, at: nat -> seq<HubEvent>, from: nat, mid: nat, to: nat)
    requires from <= mid <= to
    ensures DelayedIn(hub, at, from, to) == DelayedIn(hub, at, from, mid) + DelayedIn(hub, at, mid, to)
  {
    Logs.LogsSplit(at, from + 1, mid + 1, to);
    DelayedConcat(hub, Logs.LogsIn(at, from + 1, mid), Logs.LogsIn(at, mid + 1, to));
  }

  lemma Cancel<T>(now: multiset<T>, dropped: multiset<T>, before: multiset<T>, handled: multiset<T>, more: multiset<T>)
    requires now + dropped == before + handled
    ensures now == before + more <==> handled == dropped + more
  {
    forall x
      ensures now[x] == before[x] + more[x] <==> handled[x] == dropped[x] + more[x]
    {
      assert (now + dropped)[x] == (before + handled)[x];
    }
    if now == before + more {
      forall x
        ensures handled[x] == (dropped + more)[x]
      {
        assert now[x] == (before + more)[x];
      }
    }
    if handled == dropped + more {
      forall x
        ensures now[x] == (before + more)[x]
      {
        assert handled[x] == (dropped + more)[x];
      }
    }
  }

  /** A round is clean exactly if what it puts on the list is what it drops and what it counts as scanned. */
  lemma CleanIff(
    outcome: Outcome, handled: seq<HubEvent>, dropped: seq<HubEvent>, beyond: seq<HubEvent>, newly: seq<HubEvent>)
    requires if outcome.Completes? then handled == newly + beyond else newly == []
    requires !outcome.FailsWithdrawing? ==> dropped == []
    ensures IsClean(outcome, handled, dropped, beyond) <==>
      multiset(handled) == multiset(dropped) + multiset(newly)
  {
    if outcome.Completes? {
      JustNewly(handled, newly, beyond, dropped);
    } else {
      JustDropped(handled, newly, dropped);
    }
  }

  lemma JustNewly<T>(handled: seq<T>, newly: seq<T>, beyond: seq<T>, dropped: seq<T>)
    requires handled == newly + beyond && dropped == []
    ensures multiset(handled) == multiset(dropped) + multiset(newly) <==> beyond == []
  {
    assert |multiset(handled)| == |newly| + |beyond| && |multiset(newly)| == |newly|;
    if beyond == [] {
      AppendNothing(newly);
    }
  }

  lemma JustDropped<T>(handled: seq<T>, newly: seq<T>, dropped: seq<T>)
    requires newly == []
    ensures multiset(handled) == multiset(dropped) + multiset(newly) <==> multiset(handled) == multiset(dropped)
    ensures dropped == [] ==> (multiset(handled) == multiset(dropped) <==> handled == [])
  {
    if dropped == [] && handled != [] {
      assert handled[0] in multiset(handled);
    }
  }

  /** Only a failing withdrawal makes a round drop events. */
  lemma DroppedOnlyInFailing(hub: Address, waiting: seq<HubEvent>, r: Round)
    ensures !r.outcome.FailsWithdrawing? ==> Dropped(hub, waiting, r) == []
  {
  }

  /** What has been withdrawn or waits, before and after the round, and what is dropped and put on the list in it. */
  lemma RoundBalance(hub: Address, at: nat -> seq<HubEvent>, s: State, scan: Scan, s': State)
    requires Next(hub, at, s, scan, s')
    ensures multiset(s'.withdrawn) + multiset(s'.waiting) + multiset(Dropped(hub, s.waiting, RoundOf(at, s, scan)))
         == multiset(s.withdrawn) + multiset(s.waiting) + multiset(Delayed(hub, RoundOf(at, s, scan).Handled()))
  {
    var round := RoundOf(at, s, scan);
    RoundKeepsAll(hub, s.waiting, round);
    Arranged(s.withdrawn, s.waiting, Delayed(hub, round.Handled()), Fired(hub, s.waiting, round),
             Dropped(hub, s.waiting, round), s'.waiting);
  }

  lemma Arranged<T>(
    withdrawn: seq<T>, waiting: seq<T>, handled: seq<T>, fired: seq<T>, dropped: seq<T>, later: seq<T>)
    requires multiset(fired) + multiset(dropped) + multiset(later) == multiset(waiting + handled)
    ensures multiset(withdrawn + fired) + multiset(later) + multiset(dropped)
         == multiset(withdrawn) + multiset(waiting) + multiset(handled)
  {
    assert multiset(withdrawn + fired) == multiset(withdrawn) + multiset(fired);
    forall x
      ensures (multiset(withdrawn + fired) + multiset(later) + multiset(dropped))[x]
           == (multiset(withdrawn) + multiset(waiting) + multiset(handled))[x]
    {
      assert (multiset(fired) + multiset(dropped) + multiset(later))[x] == (multiset(waiting) + multiset(handled))[x];
    }
  }

  /** The events for this hub that the round newly counts as scanned. */
  function NewlyScanned(hub: Address, at: nat -> seq<HubEvent>, s: State, scan: Scan): seq<HubEvent> {
    if scan.outcome.Completes? then DelayedIn(hub, at, s.lastScanned, scan.current) else []
  }

  lemma HandledAreNewOrBeyond(hub: Address, at: nat -> seq<HubEvent>, s: State, scan: Scan)
    requires s.lastScanned < scan.current <= scan.latest
    ensures scan.outcome.Completes? ==>
      Delayed(hub, RoundOf(at, s, scan).Handled())
      == NewlyScanned(hub, at, s, scan) + DelayedIn(hub, at, scan.current, scan.latest)
  {
    DelayedSplit(hub, at, s.lastScanned, scan.current, scan.latest);
  }

  lemma ScannedGrows(hub: Address, at: nat -> seq<HubEvent>, start: nat, s: State, scan: Scan, s': State)
    requires Next(hub, at, s, scan, s') && start <= s.lastScanned
    ensures DelayedIn(hub, at, start, s'.lastScanned)
         == DelayedIn(hub, at, start, s.lastScanned) + NewlyScanned(hub, at, s, scan)
  {
    if scan.outcome.Completes? {
      DelayedSplit(hub, at, start, s.lastScanned, scan.current);
    } else {
      AppendNothing(DelayedIn(hub, at, start, s.lastScanned));
    }
  }

  /** What is decided by the events alone, whatever they are. */
  lemma BalanceIff(
    outcome: Outcome, before: multiset<HubEvent>, now: multiset<HubEvent>, handled: seq<HubEvent>,
    dropped: seq<HubEvent>, beyond: seq<HubEvent>, newly: seq<HubEvent>, scanned: seq<HubEvent>,
    scannedNow: seq<HubEvent>)
    requires now + multiset(dropped) == before + multiset(handled)
    requires before == multiset(scanned) && scannedNow == scanned + newly
    requires if outcome.Completes? then handled == newly + beyond else newly == []
    requires !outcome.FailsWithdrawing? ==> dropped == []
    ensures now == multiset(scannedNow) <==> IsClean(outcome, handled, dropped, beyond)
  {
    CleanIff(outcome, handled, dropped, beyond, newly);
    Cancel(now, multiset(dropped), before, multiset(handled), multiset(newly));
  }

  /** If all is well before a round, it is well after it exactly if the round finds no more than it should. */
  lemma RoundKeepsEachOnceIff(
    hub: Address, at: nat -> seq<HubEvent>, start: nat, s: State, scan: Scan, s': State)
    requires Next(hub, at, s, scan, s') && start <= s.lastScanned && EachOnce(hub, at, start, s)
    ensures EachOnce(hub, at, start, s') <==> FindsNoMore(hub, at, s, scan)
  {
    var round := RoundOf(at, s, scan);
    RoundBalance(hub, at, s, scan, s');
    HandledAreNewOrBeyond(hub, at, s, scan);
    ScannedGrows(hub, at, start, s, scan, s');
    DroppedOnlyInFailing(hub, s.waiting, round);
    BalanceIff(
      scan.outcome, multiset(s.withdrawn) + multiset(s.waiting), multiset(s'.withdrawn) + multiset(s'.waiting),
      Delayed(hub, round.Handled()), Dropped(hub, s.waiting, round), DelayedIn(hub, at, scan.current, scan.latest),
      NewlyScanned(hub, at, s, scan), DelayedIn(hub, at, start, s.lastScanned),
      DelayedIn(hub, at, start, s'.lastScanned));
  }

  // ---------- Whole runs ----------

  ghost predicate EachOnceAt(hub: Address, at: nat -> seq<HubEvent>, start: nat, states: seq<State>, i: nat)
    requires i < |states|
  {
    EachOnce(hub, at, start, states[i])
  }

  ghost predicate FindsNoMoreAt(
    hub: Address, at: nat -> seq<HubEvent>, states: seq<State>, scans: seq<Scan>, i: nat)
    requires i < |states| && i < |scans|
  {
    FindsNoMore(hub, at, states[i], scans[i])
  }

  ghost predicate AlwaysEachOnce(hub: Address, at: nat -> seq<HubEvent>, start: nat, states: seq<State>, n: nat)
    requires n < |states|
  {
    forall i :: 0 <= i <= n ==> EachOnceAt(hub, at, start, states, i)
  }

  ghost predicate NoneFindsMore(hub: Address, at: nat -> seq<HubEvent>, states: seq<State>, scans: seq<Scan>, n: nat)
    requires n <= |scans| <= |states|
  {
    forall i :: 0 <= i < n ==> FindsNoMoreAt(hub, at, states, scans, i)
  }

  lemma {:induction false} LastScannedNeverFalls(
    hub: Address, at: nat -> seq<HubEvent>, start: nat, states: seq<State>, scans: seq<Scan>, n: nat)
    requires IsRun(hub, at, start, states, scans) && n <= |scans|
    ensures start <= states[n].lastScanned
  {
    if n > 0 {
      LastScannedNeverFalls(hub, at, start, states, scans, n - 1);
      assert StepAt(hub, at, states, scans, n - 1);
    }
  }

  lemma {:induction false} CleanRunIsEachOnce(
    hub: Address, at: nat -> seq<HubEvent>, start: nat, states: seq<State>, scans: seq<Scan>, n: nat)
    requires IsRun(hub, at, start, states, scans) && n <= |scans| && NoneFindsMore(hub, at, states, scans, n)
    ensures EachOnceAt(hub, at, start, states, n)
  {
    if n == 0 {
      StartIsEachOnce(hub, at, start);
    } else {
      CleanRunIsEachOnce(hub, at, start, states, scans, n - 1);
      assert FindsNoMoreAt(hub, at, states, scans, n - 1);
      StepKeepsEachOnceIff(hub, at, start, states, scans, n - 1);
    }
  }

  /** At every point of a run each event has fired once or waits once, exactly if no round finds more than it should. */
  lemma AlwaysEachOnceIff(
    hub: Address, at: nat -> seq<HubEvent>, start: nat, states: seq<State>, scans: seq<Scan>, n: nat)
    requires IsRun(hub, at, start, states, scans) && n <= |scans|
    ensures AlwaysEachOnce(hub, at, start, states, n) <==> NoneFindsMore(hub, at, states, scans, n)
  {
    if NoneFindsMore(hub, at, states, scans, n) {
      forall i | 0 <= i <= n
        ensures EachOnceAt(hub, at, start, states, i)
      {
        CleanRunIsEachOnce(hub, at, start, states, scans, i);
      }
    }
    if AlwaysEachOnce(hub, at, start, states, n) {
      forall i | 0 <= i < n
        ensures FindsNoMoreAt(hub, at, states, scans, i)
      {
        assert EachOnceAt(hub, at, start, states, i) && EachOnceAt(hub, at, start, states, i + 1);
        StepKeepsEachOnceIff(hub, at, start, states, scans, i);
      }
    }
  }

  lemma StartIsEachOnce(hub: Address, at: nat -> seq<HubEvent>, start: nat)
    ensures EachOnce(hub, at, start, State(start, [], []))
  {
  }

  lemma StepKeepsEachOnceIff(
    hub: Address, at: nat -> seq<HubEvent>, start: nat, states: seq<State>, scans: seq<Scan>, n: nat)
    requires IsRun(hub, at, start, states, scans) && n < |scans|
    ensures EachOnceAt(hub, at, start, states, n) ==>
      (EachOnceAt(hub, at, start, states, n + 1) <==> FindsNoMoreAt(hub, at, states, scans, n))
  {
    LastScannedNeverFalls(hub, at, start, states, scans, n);
    assert StepAt(hub, at, states, scans, n);
    if EachOnce(hub, at, start, states[n]) {
      RoundKeepsEachOnceIff(hub, at, start, states[n], scans[n], states[n + 1]);
    }
  }

  // ---------- What goes wrong otherwise ----------

  /** An event that was scanned and is no longer on the list is never withdrawn again. */
  lemma LostForGood(hub: Address, at: nat -> seq<HubEvent>, s: State, scan: Scan, s': State, e: HubEvent)
    requires Next(hub, at, s, scan, s') && e !in s.waiting && e !in DelayedIn(hub, at, s.lastScanned, scan.latest)
    ensures e !in s'.waiting && (e in s'.withdrawn <==> e in s.withdrawn)
  {
    var round := RoundOf(at, s, scan);
    NotPutBack(hub, s.waiting, round, e);
    NotTakenNorLeft(hub, s.waiting, round, e);
    InEither(s.withdrawn, Fired(hub, s.waiting, round), e);
  }

  lemma InEither<T>(a: seq<T>, b: seq<T>, x: T)
    ensures x in a + b <==> x in a || x in b
  {
  }

  lemma NotPutBack(hub: Address, waiting: seq<HubEvent>, r: Round, e: HubEvent)
    requires e !in waiting && e !in Delayed(hub, r.events)
    ensures e !in Queue(hub, waiting, r)
  {
    DelayedIsFilter(hub, r.events);
    DelayedIsFilter(hub, r.Handled());
  }

  lemma NotTakenNorLeft(hub: Address, waiting: seq<HubEvent>, r: Round, e: HubEvent)
    requires e !in Queue(hub, waiting, r)
    ensures e !in Fired(hub, waiting, r) && e !in WaitingAfter(hub, waiting, r)
  {
    DueSplits(Queue(hub, waiting, r), r.time);
    FiredOrDropped(hub, waiting, r);
  }

  /** All are for this hub, and due at that time. */
  predicate AreDue(hub: Address, events: seq<HubEvent>, time: int) {
    forall i :: 0 <= i < |events| ==> Delays(hub, events[i]) && IsDue(events[i], time)
  }

  lemma {:induction false} AllAreDue(hub: Address, events: seq<HubEvent>, time: int)
    requires AreDue(hub, events, time)
    ensures Delayed(hub, events) == events && Due(events, time) == events && NotDue(events, time) == []
  {
    if events != [] {
      AllAreDue(hub, events[..|events| - 1], time);
      assert events == events[..|events| - 1] + [events[|events| - 1]];
    }
  }

  /** A round that withdraws for everything it finds. */
  lemma WithdrawsAll(hub: Address, events: seq<HubEvent>, time: int, outcome: Outcome)
    requires AreDue(hub, events, time) && (outcome.Completes? || outcome.FailsLater?)
    ensures Fired(hub, [], Round(events, time, outcome)) == events
    ensures WaitingAfter(hub, [], Round(events, time, outcome)) == []
  {
    AllAreDue(hub, events, time);
    AppendNothing(events);
  }

  lemma TakesAll(hub: Address, at: nat -> seq<HubEvent>, s: State, scan: Scan, events: seq<HubEvent>, s': State)
    requires s.waiting == [] && s.lastScanned < scan.current <= scan.latest
    requires Logs.LogsIn(at, s.lastScanned + 1, scan.latest) == events && AreDue(hub, events, scan.time)
    requires scan.outcome.Completes? || scan.outcome.FailsLater?
    requires s' == State(if scan.outcome.Completes? then scan.current else s.lastScanned, [], s.withdrawn + events)
    ensures Next(hub, at, s, scan, s')
  {
    assert RoundOf(at, s, scan) == Round(events, scan.time, scan.outcome);
    WithdrawsAll(hub, events, scan.time, scan.outcome);
  }

  /** What the blocks after `from` hold, one or two of them. */
  lemma LogsAfter(at: nat -> seq<HubEvent>, from: nat)
    ensures Logs.LogsIn(at, from + 1, from + 1) == at(from + 1)
    ensures Logs.LogsIn(at, from + 1, from + 2) == at(from + 1) + at(from + 2)
  {
    AppendNothing(at(from + 1));
    AppendNothing(at(from + 2));
    assert Logs.LogsIn(at, from + 2, from + 2) == at(from + 2);
  }

  lemma TwoSteps(hub: Address, at: nat -> seq<HubEvent>, a: State, first: Scan, b: State, second: Scan, c: State)
    requires a.waiting == [] && a.withdrawn == []
    requires Next(hub, at, a, first, b) && Next(hub, at, b, second, c)
    ensures IsRun(hub, at, a.lastScanned, [a, b, c], [first, second])
  {
  }

  lemma OneAndNothing<T>(e: T)
    ensures [] + [e] == [e] == [e] + [] && [e] + [e] == [e, e]
  {
  }

  /** A round that finds one event and withdraws for it. */
  lemma TakesOne(
    hub: Address, at: nat -> seq<HubEvent>, start: nat, withdrawn: seq<HubEvent>, scan: Scan, e: HubEvent, last: nat)
    requires Delays(hub, e) && scan.time == e.removalTime && start < scan.current <= scan.latest
    requires (scan.outcome.Completes? && last == scan.current) || (scan.outcome.FailsLater? && last == start)
    requires Logs.LogsIn(at, start + 1, scan.latest) == [e]
    ensures Next(hub, at, State(start, [], withdrawn), scan, State(last, [], withdrawn + [e]))
  {
    TakesAll(hub, at, State(start, [], withdrawn), scan, [e], State(last, [], withdrawn + [e]));
  }

  /** Two rounds that find the same one event, and withdraw for it. */
  lemma WithdrawsTwice(
    hub: Address, at: nat -> seq<HubEvent>, start: nat, e: HubEvent, first: Scan, middle: nat, second: Scan)
    requires Delays(hub, e) && first.time == second.time == e.removalTime
    requires start < first.current <= first.latest && middle < second.current <= second.latest
    requires (first.outcome.Completes? && middle == first.current) || (first.outcome.FailsLater? && middle == start)
    requires second.outcome.Completes?
    requires Logs.LogsIn(at, start + 1, first.latest) == Logs.LogsIn(at, middle + 1, second.latest) == [e]
    ensures IsRun(hub, at, start, [State(start, [], []), State(middle, [], [e]), State(second.current, [], [e, e])],
                  [first, second])
  {
    OneAndNothing(e);
    TakesOne(hub, at, start, [], first, e, middle);
    TakesOne(hub, at, middle, [e], second, e, second.current);
    TwoSteps(hub, at, State(start, [], []), first, State(middle, [], [e]), second, State(second.current, [], [e, e]));
  }

  /** The round throws after the withdrawal, so the event is found again and its withdrawal is repeated. */
  lemma FailureRepeatsWithdrawal(hub: Address, at: nat -> seq<HubEvent>, start: nat, e: HubEvent)
    requires Delays(hub, e) && at(start + 1) == [e] && at(start + 2) == []
    ensures IsRun(
      hub, at, start, [State(start, [], []), State(start, [], [e]), State(start + 2, [], [e, e])],
      [Scan(start + 1, e.removalTime, start + 1, FailsLater), Scan(start + 2, e.removalTime, start + 2, Completes)])
  {
    LogsAfter(at, start);
    OneAndNothing(e);
    WithdrawsTwice(hub, at, start, e, Scan(start + 1, e.removalTime, start + 1, FailsLater), start,
                   Scan(start + 2, e.removalTime, start + 2, Completes));
  }

  /** No round fails, but the first one works on a block before the latest, in which the event is. */
  lemma LagRepeatsWithdrawal(hub: Address, at: nat -> seq<HubEvent>, start: nat, e: HubEvent)
    requires Delays(hub, e) && at(start + 1) == [] && at(start + 2) == [e]
    ensures IsRun(
      hub, at, start, [State(start, [], []), State(start + 1, [], [e]), State(start + 2, [], [e, e])],
      [Scan(start + 1, e.removalTime, start + 2, Completes), Scan(start + 2, e.removalTime, start + 2, Completes)])
  {
    LogsAfter(at, start);
    LogsAfter(at, start + 1);
    OneAndNothing(e);
    WithdrawsTwice(hub, at, start, e, Scan(start + 1, e.removalTime, start + 2, Completes), start + 1,
                   Scan(start + 2, e.removalTime, start + 2, Completes));
  }

  /** A round that completes before anything it finds is due. */
  lemma WaitsForNow(hub: Address, events: seq<HubEvent>, time: int)
    requires forall i :: 0 <= i < |events| ==> Delays(hub, events[i]) && !IsDue(events[i], time)
    ensures Fired(hub, [], Round(events, time, Completes)) == []
    ensures WaitingAfter(hub, [], Round(events, time, Completes)) == events
  {
    NoneIsDue(hub, events, time);
    AppendNothing(events);
  }

  lemma {:induction false} NoneIsDue(hub: Address, events: seq<HubEvent>, time: int)
    requires forall i :: 0 <= i < |events| ==> Delays(hub, events[i]) && !IsDue(events[i], time)
    ensures Delayed(hub, events) == events && Due(events, time) == [] && NotDue(events, time) == events
  {
    if events != [] {
      NoneIsDue(hub, events[..|events| - 1], time);
      assert events == events[..|events| - 1] + [events[|events| - 1]];
    }
  }

  lemma WaitsStep(hub: Address, at: nat -> seq<HubEvent>, s: State, scan: Scan, events: seq<HubEvent>, s': State)
    requires s.waiting == [] && s.lastScanned < scan.current <= scan.latest && scan.outcome.Completes?
    requires Logs.LogsIn(at, s.lastScanned + 1, scan.latest) == events
    requires forall i :: 0 <= i < |events| ==> Delays(hub, events[i]) && !IsDue(events[i], scan.time)
    requires s' == State(scan.current, events, s.withdrawn)
    ensures Next(hub, at, s, scan, s')
  {
    assert RoundOf(at, s, scan) == Round(events, scan.time, Completes);
    WaitsForNow(hub, events, scan.time);
    AppendNothing(s.withdrawn);
  }

  lemma FirstWithdrawalFails(hub: Address, waiting: seq<HubEvent>, time: int)
    requires AreDue(hub, waiting, time)
    ensures Fired(hub, waiting, Round([], time, FailsWithdrawing(0))) == []
    ensures WaitingAfter(hub, waiting, Round([], time, FailsWithdrawing(0))) == []
  {
    AllAreDue(hub, waiting, time);
    AppendNothing(waiting);
  }

  lemma FailingStep(hub: Address, at: nat -> seq<HubEvent>, s: State, scan: Scan, s': State)
    requires s.lastScanned < scan.current <= scan.latest && scan.outcome == FailsWithdrawing(0)
    requires Logs.LogsIn(at, s.lastScanned + 1, scan.latest) == [] && AreDue(hub, s.waiting, scan.time)
    requires s' == s.(waiting := [])
    ensures Next(hub, at, s, scan, s')
  {
    assert RoundOf(at, s, scan) == Round([], scan.time, FailsWithdrawing(0));
    FirstWithdrawalFails(hub, s.waiting, scan.time);
    AppendNothing(s.withdrawn);
  }

  /**
   Two events wait when a round throws in the first of their withdrawals. Neither is withdrawn, then or later: they
   are off the list, and their block has been scanned.
   */
  lemma FailureLosesWithdrawals(hub: Address, at: nat -> seq<HubEvent>, start: nat, e: HubEvent, f: HubEvent, time: int)
    requires Delays(hub, e) && Delays(hub, f) && time < e.removalTime && time < f.removalTime
    requires at(start + 1) == [e, f] && at(start + 2) == []
    ensures var due := if e.removalTime < f.removalTime then f.removalTime else e.removalTime;
      IsRun(
        hub, at, start, [State(start, [], []), State(start + 1, [e, f], []), State(start + 1, [], [])],
        [Scan(start + 1, time, start + 1, Completes), Scan(start + 2, due, start + 2, FailsWithdrawing(0))])
  {
    var due := if e.removalTime < f.removalTime then f.removalTime else e.removalTime;
    var first := Scan(start + 1, time, start + 1, Completes);
    var second := Scan(start + 2, due, start + 2, FailsWithdrawing(0));
    LogsAfter(at, start);
    LogsAfter(at, start + 1);
    PairWaits(hub, at, start, e, f, first);
    PairIsDropped(hub, at, start + 1, e, f, second);
    TwoSteps(hub, at, State(start, [], []), first, State(start + 1, [e, f], []), second, State(start + 1, [], []));
  }

  lemma PairWaits(hub: Address, at: nat -> seq<HubEvent>, start: nat, e: HubEvent, f: HubEvent, scan: Scan)
    requires Delays(hub, e) && Delays(hub, f) && scan.time < e.removalTime && scan.time < f.removalTime
    requires start < scan.current <= scan.latest && scan.outcome.Completes?
    requires Logs.LogsIn(at, start + 1, scan.latest) == [e, f]
    ensures Next(hub, at, State(start, [], []), scan, State(scan.current, [e, f], []))
  {
    WaitsStep(hub, at, State(start, [], []), scan, [e, f], State(scan.current, [e, f], []));
  }

  lemma PairIsDropped(hub: Address, at: nat -> seq<HubEvent>, last: nat, e: HubEvent, f: HubEvent, scan: Scan)
    requires Delays(hub, e) && Delays(hub, f) && e.removalTime <= scan.time && f.removalTime <= scan.time
    requires last < scan.current <= scan.latest && scan.outcome == FailsWithdrawing(0)
    requires Logs.LogsIn(at, last + 1, scan.latest) == []
    ensures Next(hub, at, State(last, [e, f], []), scan, State(last, [], []))
  {
    FailingStep(hub, at, State(last, [e, f], []), scan, State(last, [], []));
  }
}
