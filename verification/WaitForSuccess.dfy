/**
 `waitForSuccess` of `Utils.ts`: a race of promises. The handlers of a promise run as separate events, in any
 order across promises: its `then` or `catch`, later its `finally`, and at some point the grace timer.
 The result of promise `i` is represented by `i`.
 */
module WaitForSuccess {
  import opened Arithmetic
  import opened Sequences
  import opened Wrappers

  datatype Phase = Unsettled | Handled(fulfilled: bool) | Finished(fulfilled: bool)

  datatype Race = Race(
    keys: seq<string>,
    phases: seq<Phase>,
    results: seq<nat>,
    errors: map<string, nat>,
    timerSet: bool,
    winner: Option<nat>,
    resolved: bool)

  /** `pick` is the random choice `complete` makes among the results. */
  datatype Event = Fulfil(i: nat) | Reject(i: nat) | Finally(i: nat, pick: nat) | GraceTimer(pick: nat)

  function Started(keys: seq<string>): Race {
    Race(keys, seq(|keys|, _ => Unsettled), [], map[], false, None, false)
  }

  /** `complete`: it may run more than once, and each time picks a winner afresh. */
  function Completed(r: Race, pick: nat): Race {
    r.(resolved := true, winner := if r.results == [] then r.winner else Some(r.results[pick % |r.results|]))
  }

  predicate AllHandled(r: Race) {
    |r.results| + |r.errors| == |r.keys|
  }

  predicate Next(r: Race, e: Event, r': Race) {
    match e
    case Fulfil(i) =>
      && i < |r.phases| && r.phases[i].Unsettled?
      && r' == r.(phases := r.phases[i := Handled(true)], results := r.results + [i],
                  timerSet := r.timerSet || r.results == [])
    case Reject(i) =>
      && i < |r.phases| && i < |r.keys| && r.phases[i].Unsettled?
      && r' == r.(phases := r.phases[i := Handled(false)], errors := r.errors[r.keys[i] := i])
    case Finally(i, pick) =>
      && i < |r.phases| && r.phases[i].Handled?
      && var finished := r.(phases := r.phases[i := Finished(r.phases[i].fulfilled)]);
         r' == if AllHandled(r) then Completed(finished, pick) else finished
    case GraceTimer(pick) =>
      r.timerSet && r' == Completed(r, pick).(timerSet := false)
  }

  ghost predicate IsRace(keys: seq<string>, races: seq<Race>, events: seq<Event>) {
    && |races| == |events| + 1
    && races[0] == Started(keys)
    && forall i :: 0 <= i < |events| ==> Next(races[i], events[i], races[i + 1])
  }

  // ---------- The invariant ----------

  function CountSettled(phases: seq<Phase>): nat {
    if phases == [] then 0
    else CountSettled(phases[..|phases| - 1]) + (if phases[|phases| - 1].Unsettled? then 0 else 1)
  }

  predicate IsFulfilled(p: Phase) {
    !p.Unsettled? && p.fulfilled
  }

  predicate IsRejected(p: Phase) {
    !p.Unsettled? && !p.fulfilled
  }

  /** Every result comes from a fulfilled promise, and the other way round. */
  ghost predicate ResultsInv(results: seq<nat>, phases: seq<Phase>) {
    && (forall k :: 0 <= k < |results| ==> results[k] < |phases| && IsFulfilled(phases[results[k]]))
    && (forall i :: 0 <= i < |phases| && IsFulfilled(phases[i]) ==> i in results)
  }

  /** Every error stands under the key of its rejected promise, and the other way round. */
  ghost predicate ErrorsInv(keys: seq<string>, errors: map<string, nat>, phases: seq<Phase>)
    requires |phases| == |keys|
  {
    && (forall k :: k in errors ==> errors[k] < |keys| && keys[errors[k]] == k && IsRejected(phases[errors[k]]))
    && (forall i :: 0 <= i < |keys| && IsRejected(phases[i]) ==> keys[i] in errors)
  }

  predicate AllFinished(phases: seq<Phase>) {
    forall i :: 0 <= i < |phases| ==> phases[i].Finished?
  }

  ghost predicate OutcomeInv(r: Race) {
    && (r.winner.Some? ==> r.winner.value in r.results)
    && (r.resolved && r.winner.None? ==> r.results == [] && |r.errors| == |r.keys|)
    && (r.keys != [] && AllFinished(r.phases) ==> r.resolved)
    && (r.timerSet ==> r.results != [])
    && (r.results != [] && !r.resolved ==> r.timerSet)
  }

  ghost predicate Inv(r: Race) {
    && Distinct(r.keys) && |r.phases| == |r.keys|
    && ResultsInv(r.results, r.phases)
    && ErrorsInv(r.keys, r.errors, r.phases)
    && |r.results| + |r.errors| == CountSettled(r.phases)
    && OutcomeInv(r)
  }

  lemma {:induction false} SettlingCounts(phases: seq<Phase>, i: nat, p: Phase)
    requires i < |phases| && !p.Unsettled?
    ensures CountSettled(phases[i := p]) == CountSettled(phases) + (if phases[i].Unsettled? then 1 else 0)
  {
    var last := |phases| - 1;
    if i == last {
      assert phases[i := p][..last] == phases[..last];
    } else {
      assert phases[i := p][..last] == phases[..last][i := p];
      SettlingCounts(phases[..last], i, p);
    }
  }

  lemma {:induction false} CountIsFullIfAllSettled(phases: seq<Phase>)
    ensures CountSettled(phases) <= |phases|
    ensures CountSettled(phases) == |phases| <==> forall i :: 0 <= i < |phases| ==> !phases[i].Unsettled?
  {
    if phases != [] {
      var last := |phases| - 1;
      CountIsFullIfAllSettled(phases[..last]);
      assert phases == phases[..last] + [phases[last]];
      assert forall i :: 0 <= i < last ==> phases[..last][i] == phases[i];
    }
  }

  lemma {:induction false} NothingSettled(phases: seq<Phase>)
    requires forall i :: 0 <= i < |phases| ==> phases[i].Unsettled?
    ensures CountSettled(phases) == 0
  {
    if phases != [] {
      NothingSettled(phases[..|phases| - 1]);
    }
  }

  lemma ResultsAfterFulfil(results: seq<nat>, phases: seq<Phase>, i: nat)
    requires ResultsInv(results, phases) && i < |phases| && phases[i].Unsettled?
    ensures ResultsInv(results + [i], phases[i := Handled(true)])
  {
    var results', phases' := results + [i], phases[i := Handled(true)];
    forall j | 0 <= j < |phases'| && IsFulfilled(phases'[j])
      ensures j in results'
    {
      if j == i {
        assert results'[|results|] == i;
      } else {
        assert IsFulfilled(phases[j]) && j in results;
      }
    }
  }

  lemma ErrorsAfterFulfil(keys: seq<string>, errors: map<string, nat>, phases: seq<Phase>, i: nat)
    requires |phases| == |keys| && ErrorsInv(keys, errors, phases) && i < |phases| && phases[i].Unsettled?
    ensures ErrorsInv(keys, errors, phases[i := Handled(true)])
  {
  }

  lemma ResultsAfterReject(results: seq<nat>, phases: seq<Phase>, i: nat)
    requires ResultsInv(results, phases) && i < |phases| && phases[i].Unsettled?
    ensures ResultsInv(results, phases[i := Handled(false)])
  {
  }

  lemma JustHandledIsNotFinished(phases: seq<Phase>, i: nat, fulfilled: bool)
    requires i < |phases|
    ensures !AllFinished(phases[i := Handled(fulfilled)])
  {
    assert !phases[i := Handled(fulfilled)][i].Finished?;
  }

  lemma NotYetAllSettled(phases: seq<Phase>, i: nat)
    requires i < |phases| && phases[i].Unsettled?
    ensures CountSettled(phases) < |phases| && !AllFinished(phases)
  {
    CountIsFullIfAllSettled(phases);
  }

  lemma FulfilKeepsInv(r: Race, i: nat, r': Race)
    requires Inv(r) && Next(r, Fulfil(i), r')
    ensures Inv(r')
  {
    SettlingCounts(r.phases, i, Handled(true));
    NotYetAllSettled(r.phases, i);
    ResultsAfterFulfil(r.results, r.phases, i);
    ErrorsAfterFulfil(r.keys, r.errors, r.phases, i);
    JustHandledIsNotFinished(r.phases, i, true);
  }

  lemma RejectedKeyIsNotIn(keys: seq<string>, errors: map<string, nat>, phases: seq<Phase>, i: nat)
    requires Distinct(keys) && |phases| == |keys| && ErrorsInv(keys, errors, phases)
    requires i < |phases| && phases[i].Unsettled?
    ensures keys[i] !in errors
  {
    if keys[i] in errors {
      var other := errors[keys[i]];
      DistinctIsInjective(keys, i, other);
      assert false;
    }
  }

  lemma ErrorsAfterReject(keys: seq<string>, errors: map<string, nat>, phases: seq<Phase>, i: nat)
    requires |phases| == |keys| && ErrorsInv(keys, errors, phases)
    requires i < |phases| && phases[i].Unsettled? && keys[i] !in errors
    ensures ErrorsInv(keys, errors[keys[i] := i], phases[i := Handled(false)])
  {
    var phases' := phases[i := Handled(false)];
    var errors' := errors[keys[i] := i];
    forall k | k in errors'
      ensures errors'[k] < |keys| && keys[errors'[k]] == k && IsRejected(phases'[errors'[k]])
    {
      if k != keys[i] {
        assert k in errors && errors'[k] == errors[k];
      }
    }
    forall j | 0 <= j < |keys| && IsRejected(phases'[j])
      ensures keys[j] in errors'
    {
      if j != i {
        assert IsRejected(phases[j]);
      }
    }
  }

  /** Keys being distinct, a rejection never overwrites an earlier one. */
  lemma RejectedKeyIsNew(keys: seq<string>, errors: map<string, nat>, phases: seq<Phase>, i: nat)
    requires Distinct(keys) && |phases| == |keys| && ErrorsInv(keys, errors, phases)
    requires i < |phases| && phases[i].Unsettled?
    ensures keys[i] !in errors && |errors[keys[i] := i]| == |errors| + 1
    ensures ErrorsInv(keys, errors[keys[i] := i], phases[i := Handled(false)])
  {
    RejectedKeyIsNotIn(keys, errors, phases, i);
    ErrorsAfterReject(keys, errors, phases, i);
    assert errors[keys[i] := i].Keys == errors.Keys + {keys[i]};
  }

  lemma RejectKeepsInv(r: Race, i: nat, r': Race)
    requires Inv(r) && Next(r, Reject(i), r')
    ensures Inv(r')
  {
    SettlingCounts(r.phases, i, Handled(false));
    NotYetAllSettled(r.phases, i);
    ResultsAfterReject(r.results, r.phases, i);
    RejectedKeyIsNew(r.keys, r.errors, r.phases, i);
    JustHandledIsNotFinished(r.phases, i, false);
  }

  /** The `finally` handler changes no outcome of a promise. */
  lemma FinishingKeepsOutcomes(r: Race, i: nat)
    requires i < |r.phases| && r.phases[i].Handled? && |r.keys| == |r.phases|
    requires ResultsInv(r.results, r.phases) && ErrorsInv(r.keys, r.errors, r.phases)
    ensures var phases := r.phases[i := Finished(r.phases[i].fulfilled)];
      && ResultsInv(r.results, phases) && ErrorsInv(r.keys, r.errors, phases)
      && CountSettled(phases) == CountSettled(r.phases)
      && (AllFinished(phases) ==> CountSettled(r.phases) == |r.phases|)
  {
    var phases := r.phases[i := Finished(r.phases[i].fulfilled)];
    SettlingCounts(r.phases, i, phases[i]);
    CountIsFullIfAllSettled(phases);
    assert forall j :: 0 <= j < |phases| ==> IsFulfilled(phases[j]) == IsFulfilled(r.phases[j]);
    assert forall j :: 0 <= j < |phases| ==> IsRejected(phases[j]) == IsRejected(r.phases[j]);
  }

  lemma FinallyKeepsInv(r: Race, i: nat, pick: nat, r': Race)
    requires Inv(r) && Next(r, Finally(i, pick), r')
    ensures Inv(r')
  {
    FinishingKeepsOutcomes(r, i);
  }

  lemma NextKeepsInv(r: Race, e: Event, r': Race)
    requires Inv(r) && Next(r, e, r')
    ensures Inv(r')
  {
    match e {
      case Fulfil(i) => FulfilKeepsInv(r, i, r');
      case Reject(i) => RejectKeepsInv(r, i, r');
      case Finally(i, pick) => FinallyKeepsInv(r, i, pick, r');
      case GraceTimer(_) =>
    }
  }

  lemma {:induction false} RaceKeepsInv(keys: seq<string>, races: seq<Race>, events: seq<Event>, i: nat)
    requires IsRace(keys, races, events) && i < |races| && Distinct(keys)
    ensures Inv(races[i]) && races[i].keys == keys
  {
    if i == 0 {
      NothingSettled(races[0].phases);
    } else {
      RaceKeepsInv(keys, races, events, i - 1);
      assert Next(races[i - 1], events[i - 1], races[i]);
      NextKeepsInv(races[i - 1], events[i - 1], races[i]);
    }
  }

  /**
   In every order of events: results and errors never outnumber the promises; a winner is one of the results
   and is never also an error; without a winner the race resolves only when every promise was rejected; and
   once every handler has run, the race has resolved.
   */
  lemma RaceGuarantees(keys: seq<string>, races: seq<Race>, events: seq<Event>, i: nat)
    requires IsRace(keys, races, events) && i < |races| && Distinct(keys)
    ensures Guarantees(keys, races[i])
  {
    RaceKeepsInv(keys, races, events, i);
    InvGivesGuarantees(races[i]);
  }

  ghost predicate Guarantees(keys: seq<string>, r: Race) {
    && |r.results| + |r.errors| <= |keys|
    && r.errors.Keys <= Urls(keys)
    && (r.winner.Some? ==>
          r.winner.value in r.results && r.winner.value < |keys| && keys[r.winner.value] !in r.errors)
    && (r.resolved && r.winner.None? ==> r.errors.Keys == Urls(keys))
    && (keys != [] && AllFinished(r.phases) ==> r.resolved)
  }

  function Urls(keys: seq<string>): set<string> {
    set k | k in keys
  }

  lemma InvGivesGuarantees(r: Race)
    requires Inv(r)
    ensures Guarantees(r.keys, r)
  {
    CountIsFullIfAllSettled(r.phases);
    if r.winner.Some? {
      WinnerIsNoError(r);
    }
    if r.resolved && r.winner.None? {
      forall j | 0 <= j < |r.keys|
        ensures r.keys[j] in r.errors
      {
        assert !IsFulfilled(r.phases[j]);
      }
    }
  }

  lemma WinnerIsNoError(r: Race)
    requires Inv(r) && r.winner.Some?
    ensures r.winner.value < |r.keys| && r.keys[r.winner.value] !in r.errors
  {
    var w := r.winner.value;
    assert IsFulfilled(r.phases[w]);
    if r.keys[w] in r.errors {
      DistinctIsInjective(r.keys, w, r.errors[r.keys[w]]);
      assert false;
    }
  }

  /** Once resolved, a race stays resolved and keeps having a winner if it had one, though maybe another. */
  lemma ResolvedForGood(r: Race, e: Event, r': Race)
    requires Inv(r) && Next(r, e, r') && r.resolved
    ensures r'.resolved && (r.winner.Some? ==> r'.winner.Some?)
  {
  }

  // ---------- When the winner can change ----------

  /** The next event can make a resolved race pick another winner. */
  ghost predicate NextEventCanChangeWinner(r: Race) {
    exists e, r' :: Next(r, e, r') && r'.winner != r.winner
  }

  /** Another call of `complete` is to come at once: by the timer, or by a `finally` while every promise is settled. */
  predicate CanCompleteAgain(r: Race) {
    r.timerSet || (AllHandled(r) && exists i :: 0 <= i < |r.phases| && r.phases[i].Handled?)
  }

  predicate HasOtherResult(r: Race) {
    exists j :: 0 <= j < |r.results| && Some(r.results[j]) != r.winner
  }

  /** Exactly when the next event can change the winner of a resolved race. */
  lemma WinnerCanChangeIff(r: Race)
    requires Inv(r) && r.resolved && r.winner.Some?
    ensures NextEventCanChangeWinner(r) <==> CanCompleteAgain(r) && HasOtherResult(r)
  {
    if CanCompleteAgain(r) && HasOtherResult(r) {
      var _ := OtherWinner(r);
    }
    if e, r' :| Next(r, e, r') && r'.winner != r.winner {
      assert r'.winner.Some? && r'.winner.value in r.results;
    }
  }

  lemma OtherWinner(r: Race) returns (r': Race)
    requires Inv(r) && r.resolved && CanCompleteAgain(r) && HasOtherResult(r)
    ensures Steps(r, r') && r'.winner != r.winner
  {
    var j :| 0 <= j < |r.results| && Some(r.results[j]) != r.winner;
    SmallModulo(j, |r.results|);
    if r.timerSet {
      r' := Completed(r, j).(timerSet := false);
      assert Next(r, GraceTimer(j), r');
    } else {
      var i :| 0 <= i < |r.phases| && r.phases[i].Handled?;
      r' := Completed(r.(phases := r.phases[i := Finished(r.phases[i].fulfilled)]), j);
      assert Next(r, Finally(i, j), r');
    }
  }

  ghost predicate Steps(r: Race, r': Race) {
    exists e :: Next(r, e, r')
  }

  /** How a race may go on. */
  ghost predicate GoesOn(races: seq<Race>) {
    races != [] && forall i :: 0 <= i < |races| - 1 ==> StepsAt(races, i)
  }

  ghost predicate StepsAt(races: seq<Race>, i: nat)
    requires i + 1 < |races|
  {
    Steps(races[i], races[i + 1])
  }

  /** However the race goes on, its winner stays. */
  ghost predicate WinnerIsFinal(r: Race) {
    forall races: seq<Race> :: GoesOn(races) && races[0] == r ==> races[|races| - 1].winner == r.winner
  }

  predicate SomeUnsettled(phases: seq<Phase>) {
    exists i :: 0 <= i < |phases| && phases[i].Unsettled?
  }

  predicate SomeHandled(phases: seq<Phase>) {
    exists i :: 0 <= i < |phases| && phases[i].Handled?
  }

  /** Every promise is settled, and either no timer and no `finally` is left to run or there is no other result. */
  predicate WinnerIsSettled(r: Race) {
    !SomeUnsettled(r.phases) && (HasOtherResult(r) ==> !r.timerSet && !SomeHandled(r.phases))
  }

  /** The winner of a resolved race is final exactly then. */
  lemma WinnerIsFinalIff(r: Race)
    requires Inv(r) && r.resolved && r.winner.Some?
    ensures WinnerIsFinal(r) <==> WinnerIsSettled(r)
  {
    if SomeUnsettled(r.phases) {
      var races := SettleAll(r);
      ChangesAtEnd(races);
    } else if HasOtherResult(r) && (r.timerSet || SomeHandled(r.phases)) {
      SettledIsHandled(r);
      assert GoesOn([r]);
      ChangesAtEnd([r]);
    } else {
      forall races: seq<Race> | GoesOn(races) && races[0] == r
        ensures races[|races| - 1].winner == r.winner
      {
        SettledWinnerStays(races, |races| - 1);
      }
    }
  }

  lemma SettledIsHandled(r: Race)
    requires Inv(r) && !SomeUnsettled(r.phases)
    ensures AllHandled(r)
  {
    CountIsFullIfAllSettled(r.phases);
  }

  /** A continuation that has kept the winner so far, and whose last race can complete again with another one. */
  lemma ChangesAtEnd(races: seq<Race>)
    requires GoesOn(races)
    requires var last := races[|races| - 1];
      && Inv(last) && last.resolved && last.winner == races[0].winner
      && CanCompleteAgain(last) && HasOtherResult(last)
    ensures !WinnerIsFinal(races[0])
  {
    var r' := OtherWinner(races[|races| - 1]);
    Extend(races, r');
    NotFinal(races + [r'], r');
  }

  lemma NotFinal(races: seq<Race>, r': Race)
    requires GoesOn(races) && races[|races| - 1] == r' && r'.winner != races[0].winner
    ensures !WinnerIsFinal(races[0])
  {
  }

  lemma Extend(races: seq<Race>, r': Race)
    requires GoesOn(races) && Steps(races[|races| - 1], r')
    ensures GoesOn(races + [r'])
  {
    forall i | 0 <= i < |races|
      ensures StepsAt(races + [r'], i)
    {
      if i < |races| - 1 {
        assert StepsAt(races, i);
      }
    }
  }

  /** Every promise that is not settled yet succeeds: the winner stays, and there is another result. */
  lemma {:induction false} SettleAll(r: Race) returns (races: seq<Race>)
    requires Inv(r) && r.resolved && r.winner.Some? && SomeUnsettled(r.phases)
    ensures GoesOn(races) && races[0] == r
    ensures var last := races[|races| - 1];
      Inv(last) && last.resolved && last.winner == r.winner && CanCompleteAgain(last) && HasOtherResult(last)
    decreases |r.phases| - CountSettled(r.phases)
  {
    var i :| 0 <= i < |r.phases| && r.phases[i].Unsettled?;
    var r' := SettleOne(r, i);
    if SomeUnsettled(r'.phases) {
      var rest := SettleAll(r');
      races := [r] + rest;
      Prepend(r, rest);
    } else {
      SettledIsHandled(r');
      races := [r] + [r'];
      Prepend(r, [r']);
    }
  }

  lemma SettleOne(r: Race, i: nat) returns (r': Race)
    requires Inv(r) && r.resolved && r.winner.Some? && i < |r.phases| && r.phases[i].Unsettled?
    ensures Inv(r') && Steps(r, r') && r'.resolved && r'.winner == r.winner && HasOtherResult(r')
    ensures CountSettled(r.phases) < CountSettled(r'.phases) <= |r'.phases| == |r.phases| && SomeHandled(r'.phases)
  {
    r' := r.(phases := r.phases[i := Handled(true)], results := r.results + [i],
             timerSet := r.timerSet || r.results == []);
    assert Next(r, Fulfil(i), r');
    FulfilKeepsInv(r, i, r');
    SettlingCounts(r.phases, i, Handled(true));
    CountIsFullIfAllSettled(r'.phases);
    assert r'.phases[i].Handled? && r'.results[|r.results|] == i && i !in r.results;
  }

  lemma Prepend(r: Race, races: seq<Race>)
    requires GoesOn(races) && Steps(r, races[0])
    ensures GoesOn([r] + races)
  {
    forall i | 0 <= i < |races|
      ensures StepsAt([r] + races, i)
    {
      if i > 0 {
        assert StepsAt(races, i - 1);
      }
    }
  }

  lemma {:induction false} SettledWinnerStays(races: seq<Race>, i: nat)
    requires GoesOn(races) && i < |races| && Inv(races[0]) && races[0].winner.Some? && WinnerIsSettled(races[0])
    ensures WinnerIsSettled(races[i]) && races[i].winner == races[0].winner && Inv(races[i])
  {
    if i > 0 {
      SettledWinnerStays(races, i - 1);
      assert StepsAt(races, i - 1);
      var e :| Next(races[i - 1], e, races[i]);
      NextKeepsInv(races[i - 1], e, races[i]);
      SettledWinnerStep(races[i - 1], e, races[i]);
    }
  }

  lemma SettledWinnerStep(r: Race, e: Event, r': Race)
    requires Next(r, e, r') && WinnerIsSettled(r) && r.winner.Some?
    ensures WinnerIsSettled(r') && r'.winner == r.winner
  {
    assert e.Finally? || e.GraceTimer?;
    if e.Finally? {
      assert r.phases[e.i].Handled?;
    }
    assert !HasOtherResult(r);
    assert r'.results == r.results;
    if r'.results != [] {
      assert Some(r.results[e.pick % |r.results|]) == r.winner;
    }
  }

  // ---------- Races in which it does change ----------

  /** Two promises that both succeed: the timer, or the second `finally`, completes a resolved race once more. */
  function AgainEvents(last: Event): seq<Event> {
    [Fulfil(0), Fulfil(1), Finally(0, 0), last]
  }

  function AgainRaces(keys: seq<string>, last: Race): seq<Race>
    requires |keys| == 2
  {
    var one, both := [Handled(true), Unsettled], [Handled(true), Handled(true)];
    [Started(keys),
     Race(keys, one, [0], map[], true, None, false),
     Race(keys, both, [0, 1], map[], true, None, false),
     Race(keys, [Finished(true), Handled(true)], [0, 1], map[], true, Some(0), true),
     last]
  }

  /** The second promise succeeds after the timer has resolved the race. */
  function AfterTimerEvents(): seq<Event> {
    [Fulfil(0), GraceTimer(0), Fulfil(1), Finally(1, 1)]
  }

  function AfterTimerRaces(keys: seq<string>): seq<Race>
    requires |keys| == 2
  {
    var one, both := [Handled(true), Unsettled], [Handled(true), Handled(true)];
    [Started(keys),
     Race(keys, one, [0], map[], true, None, false),
     Race(keys, one, [0], map[], false, Some(0), true),
     Race(keys, both, [0, 1], map[], false, Some(0), true),
     Race(keys, [Handled(true), Finished(true)], [0, 1], map[], false, Some(1), true)]
  }

  lemma FirstFulfil(keys: seq<string>)
    requires |keys| == 2
    ensures Next(Started(keys), Fulfil(0), Race(keys, [Handled(true), Unsettled], [0], map[], true, None, false))
  {
    assert Started(keys).phases[0 := Handled(true)] == [Handled(true), Unsettled];
  }

  lemma AgainIsRace(keys: seq<string>, event: Event, last: Race)
    requires |keys| == 2 && Next(AgainRaces(keys, last)[3], event, last)
    ensures IsRace(keys, AgainRaces(keys, last), AgainEvents(event))
  {
    FirstFulfil(keys);
  }

  /** In this race of any two promises the timer changes the winner after the race has resolved. */
  lemma TimerChangesWinner(keys: seq<string>)
    requires |keys| == 2
    ensures var last := Race(keys, [Finished(true), Handled(true)], [0, 1], map[], false, Some(1), true);
      && IsRace(keys, AgainRaces(keys, last), AgainEvents(GraceTimer(1)))
      && AgainRaces(keys, last)[3].resolved && AgainRaces(keys, last)[3].winner == Some(0)
  {
    AgainIsRace(keys, GraceTimer(1), Race(keys, [Finished(true), Handled(true)], [0, 1], map[], false, Some(1), true));
  }

  /** In this one the other promise's `finally` does, for two that are settled when the first `finally` runs. */
  lemma FinallyChangesWinner(keys: seq<string>)
    requires |keys| == 2
    ensures var last := Race(keys, [Finished(true), Finished(true)], [0, 1], map[], true, Some(1), true);
      && IsRace(keys, AgainRaces(keys, last), AgainEvents(Finally(1, 1)))
      && AgainRaces(keys, last)[3].resolved && AgainRaces(keys, last)[3].winner == Some(0)
  {
    AgainIsRace(keys, Finally(1, 1), Race(keys, [Finished(true), Finished(true)], [0, 1], map[], true, Some(1), true));
  }

  /** And here the second promise succeeds only after the timer has resolved the race. */
  lemma LateResultChangesWinner(keys: seq<string>)
    requires |keys| == 2
    ensures IsRace(keys, AfterTimerRaces(keys), AfterTimerEvents())
    ensures AfterTimerRaces(keys)[3].resolved && !AfterTimerRaces(keys)[3].timerSet
    ensures AfterTimerRaces(keys)[3].winner == Some(0) && AfterTimerRaces(keys)[4].winner == Some(1)
  {
    FirstFulfil(keys);
  }

  /** Without any promise, no handler ever runs and the race never resolves. */
  lemma EmptyRaceNeverResolves(races: seq<Race>, events: seq<Event>)
    requires IsRace([], races, events)
    ensures events == [] && races == [Started([])]
  {
    if events != [] {
      NoEventAtStart(events[0], races[1]);
      assert false;
    }
  }

  lemma NoEventAtStart(e: Event, r': Race)
    ensures !Next(Started([]), e, r')
  {
  }

  // ---------- The code ----------

  datatype StartError = InvalidErrorKeysLength | DuplicateKeys

  /** The checks made before racing: exactly one key for each promise, all different. */
  method CheckKeys(promises: nat, errorKeys: seq<string>) returns (error: Option<StartError>)
    ensures error == if promises != |errorKeys| then Some(InvalidErrorKeysLength)
                     else if Distinct(errorKeys) then None else Some(DuplicateKeys)
  {
    if promises != |errorKeys| {
      return Some(InvalidErrorKeysLength);
    }
    for i := 0 to |errorKeys|
      invariant Distinct(errorKeys[..i])
    {
      var index := IndexOf(errorKeys, errorKeys[i]);
      if index != i {
        if Distinct(errorKeys) {
          DistinctIsInjective(errorKeys, index, i);
        }
        return Some(DuplicateKeys);
      }
      DistinctAppend(errorKeys[..i], errorKeys[i]);
      assert errorKeys[..i + 1] == errorKeys[..i] + [errorKeys[i]];
    }
    assert errorKeys[..|errorKeys|] == errorKeys;
    return None;
  }

  /** The shared result object with its handlers as methods. */
  class RaceObject {
    const errorKeys: seq<string>
    var phases: seq<Phase>
    var results: seq<nat>
    var errors: map<string, nat>
    var timerSet: bool
    var winner: Option<nat>
    var resolved: bool

    ghost function View(): Race
      reads this
    {
      Race(errorKeys, phases, results, errors, timerSet, winner, resolved)
    }

    constructor (errorKeys: seq<string>)
      ensures View() == Started(errorKeys)
    {
      this.errorKeys := errorKeys;
      phases := seq(|errorKeys|, _ => Unsettled);
      results, errors, timerSet, winner, resolved := [], map[], false, None, false;
    }

    method Complete(pick: nat)
      modifies this`winner, this`resolved
      ensures View() == Completed(old(View()), pick)
    {
      if |results| != 0 {
        winner := Some(results[pick % |results|]);
      }
      resolved := true;
    }

    method OnFulfilled(i: nat)
      requires i < |phases| && phases[i].Unsettled?
      modifies this
      ensures Next(old(View()), Fulfil(i), View())
    {
      phases := phases[i := Handled(true)];
      results := results + [i];
      if |results| == 1 {
        timerSet := true;
      }
    }

    method OnRejected(i: nat)
      requires i < |phases| && i < |errorKeys| && phases[i].Unsettled?
      modifies this
      ensures Next(old(View()), Reject(i), View())
    {
      phases := phases[i := Handled(false)];
      errors := errors[errorKeys[i] := i];
    }

    method OnFinally(i: nat, pick: nat)
      requires i < |phases| && phases[i].Handled?
      modifies this
      ensures Next(old(View()), Finally(i, pick), View())
    {
      phases := phases[i := Finished(phases[i].fulfilled)];
      if |results| + |errors| == |errorKeys| {
        Complete(pick);
      }
    }

    method OnGraceTimer(pick: nat)
      requires timerSet
      modifies this
      ensures Next(old(View()), GraceTimer(pick), View())
    {
      timerSet := false;
      Complete(pick);
    }
  }
}
