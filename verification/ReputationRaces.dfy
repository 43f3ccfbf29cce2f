/**
 Overlapping calls about one paymaster. Every write of `ReputationStoreManager.ts` finds the entry first and then
 stores all of its fields, the ones it does not mean to change as it has found them; and only
 `getPaymasterStatus` holds a mutex. Each wait for the database ends a step.
 */
module ReputationRaces {
  import opened Wrappers
  import opened StoredTransactions
  import opened Reputation

  /** The fields a write sets. */
  datatype Patch =
    | SetFlag(block: nat)
    | ClearFlag(reputation: int)
    | Accept(now: int)
    | Record(reputation: int, changes: seq<Change>)

  function Patched(e: Entry, patch: Patch): Entry {
    match patch
    case SetFlag(block) => e.(abuseStarted := block)
    case ClearFlag(reputation) => e.(reputation := reputation, abuseStarted := 0)
    case Accept(now) => e.(lastAccepted := now)
    case Record(reputation, changes) => e.(reputation := reputation, changes := changes)
  }

  /** Where a call stands: what it is about to look up, or the entry it has found and will store with a patch. */
  datatype Call =
    | Idle
    | ToFlag(success: bool, block: nat)
    | ToRecord(success: bool, block: nat)
    | Recording(success: bool, block: nat, existing: Entry)
    | ToClear
    | Holding(patch: Patch, found: Entry, next: Call)

  datatype State = State(entry: Entry, calls: map<nat, Call>) {
    function Call(i: nat): Call {
      if i in calls then calls[i] else Idle
    }
  }

  datatype Step =
    | StartUpdate(i: nat, success: bool, block: nat)
    | StartStatus(i: nat, block: nat)
    | StartAccept(i: nat, now: int)
    | Find(i: nat)
    | Write(i: nat)

  predicate HoldsMutex(call: Call) {
    call.ToClear? || (call.Holding? && call.patch.ClearFlag?)
  }

  /** What an update does after its first look at the entry. */
  function Decided(c: Config, e: Entry, success: bool, block: nat): Call {
    if IsIgnored(c, e, success) then Idle
    else if RaisesFlag(c, e, success, block) then ToFlag(success, block)
    else ToRecord(success, block)
  }

  /** What a call does with the entry it has looked up. */
  function Found(c: Config, call: Call, e: Entry): Call {
    match call
    case ToFlag(success, block) => Holding(SetFlag(block), e, ToRecord(success, block))
    case ToRecord(success, block) => if c.abuseTimeWindowBlocks <= 0 then Idle else Recording(success, block, e)
    case Recording(success, block, existing) =>
      var recorded := WithChange(existing, Change(block, Delta(success)), c.abuseTimeWindowBlocks);
      Holding(Record(recorded.reputation, recorded.changes), e, Idle)
    case ToClear => Holding(ClearFlag(c.abuseTimeoutReputation), e, Idle)
    case _ => call
  }

  ghost predicate Next(c: Config, s: State, step: Step, s': State) {
    var call := s.Call(step.i);
    match step
    case StartUpdate(i, success, block) => call.Idle? && s' == s.(calls := s.calls[i := Decided(c, s.entry, success, block)])
    case StartStatus(i, block) =>
      && call.Idle? && (forall j :: !HoldsMutex(s.Call(j)))
      && s' == s.(calls := s.calls[i := if BanIsOver(c, s.entry, block) then ToClear else Idle])
    case StartAccept(i, now) => call.Idle? && s' == s.(calls := s.calls[i := Holding(Accept(now), s.entry, Idle)])
    case Find(i) => !call.Idle? && !call.Holding? && s' == s.(calls := s.calls[i := Found(c, call, s.entry)])
    case Write(i) => call.Holding? && s' == State(Patched(call.found, call.patch), s.calls[i := call.next])
  }

  ghost predicate StepAt(c: Config, states: seq<State>, steps: seq<Step>, t: nat)
    requires t < |steps| && t + 1 < |states|
  {
    Next(c, states[t], steps[t], states[t + 1])
  }

  ghost predicate IsRun(c: Config, states: seq<State>, steps: seq<Step>) {
    && |states| == |steps| + 1
    && (forall i :: states[0].Call(i) == Idle)
    && forall t :: 0 <= t < |steps| ==> StepAt(c, states, steps, t)
  }

  /** No call writes in the steps from `from` to before `to`. */
  predicate NoWrites(steps: seq<Step>, from: nat, to: nat) {
    forall t :: from <= t < to && t < |steps| ==> !steps[t].Write?
  }

  lemma {:induction false} EntryStays(c: Config, states: seq<State>, steps: seq<Step>, from: nat, to: nat)
    requires IsRun(c, states, steps) && from <= to <= |steps| && NoWrites(steps, from, to)
    ensures states[to].entry == states[from].entry
  {
    if from < to {
      EntryStays(c, states, steps, from, to - 1);
      assert StepAt(c, states, steps, to - 1);
    }
  }

  // ---------- What a write stores ----------

  /** The step finds the entry that the call will store. */
  predicate Finds(step: Step, i: nat) {
    (step.Find? || step.StartAccept?) && step.i == i
  }

  predicate NotBy(steps: seq<Step>, i: nat, from: nat, to: nat) {
    forall t :: from <= t < to && t < |steps| ==> steps[t].i != i
  }

  lemma {:induction false} HoldsWhatItFound(
    c: Config, states: seq<State>, steps: seq<Step>, f: nat, u: nat, i: nat)
    requires IsRun(c, states, steps) && f < u <= |steps| && Finds(steps[f], i) && NotBy(steps, i, f + 1, u)
    requires states[u].Call(i).Holding?
    ensures states[u].Call(i) == states[f + 1].Call(i) && states[u].Call(i).found == states[f].entry
    decreases u
  {
    assert StepAt(c, states, steps, u - 1);
    if f + 1 < u {
      assert steps[u - 1].i != i && states[u - 1].Call(i) == states[u].Call(i);
      HoldsWhatItFound(c, states, steps, f, u - 1, i);
    }
  }

  /** Two writes with none between: the first by any call, the second by a call that has found its entry at `f`. */
  ghost predicate WritesInARow(c: Config, states: seq<State>, steps: seq<Step>, t: nat, f: nat, u: nat, i: nat) {
    && IsRun(c, states, steps) && t < u < |steps| && f < u
    && steps[t].Write? && steps[u] == Write(i) && NoWrites(steps, t + 1, u)
    && Finds(steps[f], i) && NotBy(steps, i, f + 1, u)
  }

  /** The second write stores, besides its patch, what the first one has left exactly if it found it after that. */
  lemma NextWriteStores(c: Config, states: seq<State>, steps: seq<Step>, t: nat, f: nat, u: nat, i: nat)
    requires WritesInARow(c, states, steps, t, f, u, i)
    ensures states[u].Call(i).Holding?
    ensures states[u + 1].entry == Patched(states[f].entry, states[u].Call(i).patch)
    ensures t < f ==> states[f].entry == states[t + 1].entry
  {
    assert StepAt(c, states, steps, u);
    HoldsWhatItFound(c, states, steps, f, u, i);
    if t < f {
      EntryStays(c, states, steps, t + 1, f);
    }
  }

  /**
   When a flag survives the next write: exactly if that write sets the same flag, or else found it, or found one for
   the same block.
   */
  lemma FlagSurvivesIff(c: Config, states: seq<State>, steps: seq<Step>, t: nat, f: nat, u: nat, i: nat)
    requires WritesInARow(c, states, steps, t, f, u, i)
    ensures states[u].Call(i).Holding?
    ensures var flag, patch := states[t + 1].entry.abuseStarted, states[u].Call(i).patch;
      states[u + 1].entry.abuseStarted == flag <==>
        match patch
        case SetFlag(block) => block == flag
        case ClearFlag(_) => flag == 0
        case _ => t < f || states[f].entry.abuseStarted == flag
  {
    NextWriteStores(c, states, steps, t, f, u, i);
  }

  /** The same for a reputation, which `updatePaymasterReputation` computes from what it has found before. */
  lemma ReputationSurvivesIff(c: Config, states: seq<State>, steps: seq<Step>, t: nat, f: nat, u: nat, i: nat)
    requires WritesInARow(c, states, steps, t, f, u, i)
    ensures states[u].Call(i).Holding?
    ensures var reputation, patch := states[t + 1].entry.reputation, states[u].Call(i).patch;
      states[u + 1].entry.reputation == reputation <==>
        match patch
        case Record(recorded, _) => recorded == reputation
        case ClearFlag(reset) => reset == reputation
        case _ => t < f || states[f].entry.reputation == reputation
  {
    NextWriteStores(c, states, steps, t, f, u, i);
  }

  // ---------- An update that nothing interferes with ----------

  /** How far an update has come that found the entry `base` first, if nobody else has written since. */
  predicate IsUndisturbed(c: Config, base: Entry, success: bool, block: nat, s: State, i: nat) {
    var flagged := Flagged(c, base, success, block);
    match s.Call(i)
    case Idle => s.entry == AfterUpdate(c, base, success, block)
    case ToFlag(_, _) =>
      s.Call(i) == ToFlag(success, block) && s.entry == base
      && RaisesFlag(c, base, success, block) && !IsIgnored(c, base, success)
    case ToRecord(_, _) =>
      s.Call(i) == ToRecord(success, block) && s.entry == flagged && !IsIgnored(c, base, success)
    case Recording(_, _, _) =>
      s.Call(i) == Recording(success, block, flagged) && s.entry == flagged && IsApplied(c, base, success)
    case Holding(SetFlag(_), _, _) =>
      s.Call(i) == Holding(SetFlag(block), base, ToRecord(success, block)) && s.entry == base
      && RaisesFlag(c, base, success, block) && !IsIgnored(c, base, success)
    case Holding(Record(_, _), _, _) =>
      s.Call(i) == Found(c, Recording(success, block, flagged), flagged) && s.entry == flagged
      && IsApplied(c, base, success)
    case _ => false
  }

  lemma UndisturbedStep(
    c: Config, base: Entry, success: bool, block: nat, s: State, step: Step, s': State, i: nat)
    requires IsUndisturbed(c, base, success, block, s, i) && Next(c, s, step, s')
    requires step.Write? ==> step.i == i
    requires step.i == i ==> !s.Call(i).Idle?
    ensures IsUndisturbed(c, base, success, block, s', i)
  {
    if step.i != i {
      assert s'.Call(i) == s.Call(i) && s'.entry == s.entry;
    }
  }

  /** From step `t` to before `u` only this call writes, and it does not end. */
  predicate OnlyItWrites(states: seq<State>, steps: seq<Step>, t: nat, u: nat, i: nat) {
    forall v :: t < v < u && v < |steps| && v < |states| ==>
      (steps[v].Write? ==> steps[v].i == i) && !states[v].Call(i).Idle?
  }

  /** An update during which no other call writes has the effect of one step, and so every claim on those holds of it. */
  lemma {:induction false} UndisturbedUpdate(
    c: Config, states: seq<State>, steps: seq<Step>, t: nat, u: nat, i: nat)
    requires IsRun(c, states, steps) && t < u <= |steps| && steps[t].StartUpdate? && steps[t].i == i
    requires OnlyItWrites(states, steps, t, u, i)
    ensures IsUndisturbed(c, states[t].entry, steps[t].success, steps[t].block, states[u], i)
    ensures states[u].Call(i).Idle? ==>
      states[u].entry == AfterUpdate(c, states[t].entry, steps[t].success, steps[t].block)
    decreases u
  {
    assert StepAt(c, states, steps, u - 1);
    if t + 1 < u {
      UndisturbedUpdate(c, states, steps, t, u - 1, i);
      UndisturbedStep(c, states[t].entry, steps[t].success, steps[t].block, states[u - 1], steps[u - 1], states[u], i);
    }
  }

  // ---------- Runs in which a ban or a reset is lost ----------

  /** While a relayed request is being noted, another call finds, decides and writes. */
  function OvertakingSteps(first: Step, now: int): seq<Step> {
    [StartAccept(1, now), first, Find(0), Write(0), Write(1)]
  }

  function OvertakingStates(e: Entry, now: int, about: Call, patch: Patch, next: Call): seq<State> {
    var noting := Holding(Accept(now), e, Idle);
    [State(e, map[]),
     State(e, map[1 := noting]),
     State(e, map[0 := about, 1 := noting]),
     State(e, map[0 := Holding(patch, e, next), 1 := noting]),
     State(Patched(e, patch), map[0 := next, 1 := noting]),
     State(e.(lastAccepted := now), map[0 := next, 1 := Idle])]
  }

  lemma OvertakingIsARun(c: Config, e: Entry, now: int, first: Step, about: Call, patch: Patch, next: Call)
    requires first.i == 0 && (first.StartUpdate? || first.StartStatus?)
    requires !about.Idle? && !about.Holding? && Found(c, about, e) == Holding(patch, e, next)
    requires first.StartUpdate? ==> Decided(c, e, first.success, first.block) == about
    requires first.StartStatus? ==> about == ToClear && BanIsOver(c, e, first.block)
    ensures IsRun(c, OvertakingStates(e, now, about, patch, next), OvertakingSteps(first, now))
  {
    var states, steps := OvertakingStates(e, now, about, patch, next), OvertakingSteps(first, now);
    forall t | 0 <= t < |steps|
      ensures StepAt(c, states, steps, t)
    {
      OvertakingStep(c, e, now, first, about, patch, next, t);
    }
  }

  lemma OvertakingStep(
    c: Config, e: Entry, now: int, first: Step, about: Call, patch: Patch, next: Call, t: nat)
    requires first.i == 0 && (first.StartUpdate? || first.StartStatus?) && t < 5
    requires !about.Idle? && !about.Holding? && Found(c, about, e) == Holding(patch, e, next)
    requires first.StartUpdate? ==> Decided(c, e, first.success, first.block) == about
    requires first.StartStatus? ==> about == ToClear && BanIsOver(c, e, first.block)
    ensures StepAt(c, OvertakingStates(e, now, about, patch, next), OvertakingSteps(first, now), t)
  {
    var noting := Holding(Accept(now), e, Idle);
    assert map[1 := noting][0 := about] == map[0 := about, 1 := noting];
    assert map[0 := about, 1 := noting][0 := Holding(patch, e, next)] == map[0 := Holding(patch, e, next), 1 := noting];
    assert map[0 := Holding(patch, e, next), 1 := noting][0 := next] == map[0 := next, 1 := noting];
    assert map[0 := next, 1 := noting][1 := Idle] == map[0 := next, 1 := Idle];
  }

  /** The update raises the flag, but the paymaster is not banned when both calls have written. */
  lemma BanIsLost(c: Config, e: Entry, success: bool, block: nat, now: int)
    requires RaisesFlag(c, e, success, block) && e.abuseStarted == 0
    ensures var states := OvertakingStates(e, now, ToFlag(success, block), SetFlag(block), ToRecord(success, block));
      && IsRun(c, states, OvertakingSteps(StartUpdate(0, success, block), now))
      && states[4].entry.abuseStarted == block && states[5].entry.abuseStarted == 0
  {
    OvertakingIsARun(c, e, now, StartUpdate(0, success, block), ToFlag(success, block), SetFlag(block), ToRecord(success, block));
  }

  /** The status call lifts the ban and resets the reputation, and both are undone. */
  lemma ResetIsLost(c: Config, e: Entry, block: nat, now: int)
    requires BanIsOver(c, e, block)
    ensures var states := OvertakingStates(e, now, ToClear, ClearFlag(c.abuseTimeoutReputation), Idle);
      && IsRun(c, states, OvertakingSteps(StartStatus(0, block), now))
      && states[4].entry == AfterStatus(c, e, block) && states[5].entry == e.(lastAccepted := now)
  {
    OvertakingIsARun(c, e, now, StartStatus(0, block), ToClear, ClearFlag(c.abuseTimeoutReputation), Idle);
  }
}
