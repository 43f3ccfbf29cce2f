/**
 Handlers of the penalizer's interval timer that overlap: the timer starts the next one whether or not the last has
 ended. Each selects what is ready, then takes it off the shared list one by one, and waits for each to be sent.
 */
module OverlappingReveals {
  import opened Sequences

  /** While a handler waits for a penalization to be sent, it holds what it has selected and not yet taken. */
  datatype Handler = Idle | Sending(selected: seq<nat>)

  /** `ever` is everything ever scheduled, `taken` everything taken off to be sent, in order. */
  datatype State = State(
    scheduled: seq<nat>, readyBlocks: map<nat, nat>, handlers: map<nat, Handler>, ever: seq<nat>, taken: seq<nat>)
  {
    function Handler(h: nat): Handler {
      if h in handlers then handlers[h] else Idle
    }

    function Selected(h: nat): seq<nat> {
      if Handler(h).Sending? then Handler(h).selected else []
    }
  }

  datatype Step =
    | Schedule(p: nat)
    | LearnReadyBlock(p: nat, readyBlock: nat)
    | Select(h: nat, block: nat)
    | SendEnds(h: nat, succeeded: bool)

  predicate IsReady(readyBlocks: map<nat, nat>, p: nat, block: nat) {
    p in readyBlocks && readyBlocks[p] <= block
  }

  function Ready(scheduled: seq<nat>, readyBlocks: map<nat, nat>, block: nat): seq<nat> {
    if scheduled == [] then []
    else
      (if IsReady(readyBlocks, scheduled[0], block) then [scheduled[0]] else [])
      + Ready(scheduled[1..], readyBlocks, block)
  }

  /** A handler takes the first of what it has selected off the list, if there is one, and starts to send it. */
  function TakeFirst(s: State, h: nat, selected: seq<nat>): State {
    if selected == [] then s.(handlers := s.handlers[h := Idle])
    else
      s.(scheduled := SpliceOut(s.scheduled, selected[0]), taken := s.taken + [selected[0]],
         handlers := s.handlers[h := Sending(selected[1..])])
  }

  function Selection(s: State, block: nat): seq<nat> {
    Ready(s.scheduled, s.readyBlocks, block)
  }

  /** A failure to send ends the handler; what it had selected besides is still on the list. */
  predicate Next(s: State, step: Step, s': State) {
    match step
    case Schedule(p) => p !in s.ever && s' == s.(scheduled := s.scheduled + [p], ever := s.ever + [p])
    case LearnReadyBlock(p, block) => s' == s.(readyBlocks := s.readyBlocks[p := block])
    case Select(h, block) => s.Handler(h).Idle? && s' == TakeFirst(s, h, Selection(s, block))
    case SendEnds(h, succeeded) =>
      s.Handler(h).Sending? && s' == TakeFirst(s, h, if succeeded then s.Selected(h) else [])
  }

  predicate Init(s: State) {
    s.scheduled == [] && s.handlers == map[] && s.ever == [] && s.taken == []
  }

  predicate StepAt(states: seq<State>, steps: seq<Step>, i: nat)
    requires i < |steps| && i + 1 < |states|
  {
    Next(states[i], steps[i], states[i + 1])
  }

  ghost predicate IsRun(states: seq<State>, steps: seq<Step>) {
    && |states| == |steps| + 1 && Init(states[0])
    && forall i :: 0 <= i < |steps| ==> StepAt(states, steps, i)
  }

  // ---------- What is promised ----------

  /** Each penalization ever scheduled is either on the list still or was taken off just once. */
  ghost predicate NothingLostOrRepeated(s: State) {
    Distinct(s.taken) && s.scheduled == Without(s.ever, s.taken)
  }

  /** The handler selects something that another one has selected and not yet taken. */
  ghost predicate Overlaps(s: State, step: Step) {
    step.Select? && exists g, p :: g != step.h && p in s.Selected(g) && p in Selection(s, step.block)
  }

  /** The handler takes something that is no longer on the list: its index is -1. */
  predicate TakesMissing(s: State, step: Step) {
    step.SendEnds? && step.succeeded && s.Selected(step.h) != [] && s.Selected(step.h)[0] !in s.scheduled
  }

  /** What holds in every run, whatever overlaps. */
  ghost predicate Inv(s: State) {
    && Distinct(s.ever) && (forall p :: p in s.taken ==> p in s.ever) && (forall p :: p in s.scheduled ==> p in s.ever)
    && (forall h, p :: p in s.Selected(h) ==> p in s.ever)
  }

  /** No two handlers have selected the same, and all they have selected is on the list. */
  ghost predicate Exclusive(s: State) {
    && (forall h :: Distinct(s.Selected(h)) && forall p :: p in s.Selected(h) ==> p in s.scheduled)
    && (forall g, h, p :: g != h && p in s.Selected(g) ==> p !in s.Selected(h))
  }

  // ---------- Single steps ----------

  lemma {:induction false} ReadyIsFilter(s: seq<nat>, readyBlocks: map<nat, nat>, block: nat)
    ensures forall p :: p in Ready(s, readyBlocks, block) <==> p in s && IsReady(readyBlocks, p, block)
    ensures Distinct(s) ==> Distinct(Ready(s, readyBlocks, block))
  {
    if s != [] {
      ReadyIsFilter(s[1..], readyBlocks, block);
      assert s == [s[0]] + s[1..];
      if Distinct(s) {
        DistinctTail(s);
        var rest := Ready(s[1..], readyBlocks, block);
        if IsReady(readyBlocks, s[0], block) {
          DistinctPrepend(s[0], rest);
        } else {
          assert Ready(s, readyBlocks, block) == rest;
        }
      }
    }
  }

  lemma SpliceOutIsPart<T>(s: seq<T>, x: T)
    ensures forall y :: y in SpliceOut(s, x) ==> y in s
  {
  }

  lemma TakeFirstFrame(s: State, h: nat, selected: seq<nat>)
    ensures var s' := TakeFirst(s, h, selected);
      && (forall g :: g != h ==> s'.Selected(g) == s.Selected(g))
      && s'.Selected(h) == if selected == [] then [] else selected[1..]
  {
  }

  lemma NextKeepsInv(s: State, step: Step, s': State)
    requires Inv(s) && Next(s, step, s')
    ensures Inv(s')
  {
    match step {
      case Schedule(p) =>
        DistinctAppend(s.ever, p);
        assert forall h :: s'.Selected(h) == s.Selected(h);
      case LearnReadyBlock(_, _) => assert forall h :: s'.Selected(h) == s.Selected(h);
      case Select(h, block) =>
        ReadyIsFilter(s.scheduled, s.readyBlocks, block);
        TakingKeepsInv(s, h, Selection(s, block));
      case SendEnds(h, succeeded) => TakingKeepsInv(s, h, if succeeded then s.Selected(h) else []);
    }
  }

  lemma TakingKeepsInv(s: State, h: nat, selected: seq<nat>)
    requires Inv(s) && forall p :: p in selected ==> p in s.ever
    ensures Inv(TakeFirst(s, h, selected))
  {
    TakeFirstFrame(s, h, selected);
    if selected != [] {
      SpliceOutIsPart(s.scheduled, selected[0]);
    }
  }

  /** One step keeps the promise exactly if it does not take what is missing. */
  lemma StepKeepsPromiseIff(s: State, step: Step, s': State)
    requires Inv(s) && Next(s, step, s') && NothingLostOrRepeated(s)
    ensures NothingLostOrRepeated(s') <==> !TakesMissing(s, step)
  {
    match step {
      case Schedule(p) => SchedulingAppends(s.ever, s.taken, p);
      case LearnReadyBlock(_, _) =>
      case Select(h, block) =>
        ReadyIsFilter(s.scheduled, s.readyBlocks, block);
        TakingKeepsPromiseIff(s, h, Selection(s, block));
      case SendEnds(h, succeeded) => TakingKeepsPromiseIff(s, h, if succeeded then s.Selected(h) else []);
    }
  }

  lemma TakingKeepsPromiseIff(s: State, h: nat, selected: seq<nat>)
    requires Inv(s) && NothingLostOrRepeated(s) && forall p :: p in selected ==> p in s.ever
    ensures NothingLostOrRepeated(TakeFirst(s, h, selected)) <==> selected != [] ==> selected[0] in s.scheduled
  {
    if selected != [] {
      var p := selected[0];
      WithoutIsFilter(s.ever, s.taken);
      if p in s.scheduled {
        TakingPresent(s, p);
      } else {
        TwiceIsNotDistinct(s.taken, p);
      }
    }
  }

  lemma SchedulingAppends(ever: seq<nat>, taken: seq<nat>, p: nat)
    requires p !in ever && forall q :: q in taken ==> q in ever
    ensures Without(ever + [p], taken) == Without(ever, taken) + [p]
  {
    WithoutConcat(ever, [p], taken);
  }

  lemma TakingPresent(s: State, p: nat)
    requires Inv(s) && NothingLostOrRepeated(s) && p in s.scheduled
    ensures SpliceOut(s.scheduled, p) == Without(s.ever, s.taken + [p]) && Distinct(s.taken + [p])
  {
    WithoutIsFilter(s.ever, s.taken);
    WithoutKeepsDistinct(s.ever, s.taken);
    SplicePresent(s.scheduled, p);
    WithoutTwice(s.ever, s.taken, [p]);
    DistinctAppend(s.taken, p);
  }

  lemma TwiceIsNotDistinct(s: seq<nat>, p: nat)
    requires p in s
    ensures !Distinct(s + [p])
  {
    var i :| 0 <= i < |s| && s[i] == p;
    assert !Differ(s + [p], i, |s|);
  }

  /** A repetition cannot be undone. */
  lemma RepeatedForGood(s: State, step: Step, s': State)
    requires Next(s, step, s') && !Distinct(s.taken)
    ensures !Distinct(s'.taken)
  {
    var i, j :| 0 <= i < j < |s.taken| && !Differ(s.taken, i, j);
    assert !Differ(s'.taken, i, j);
  }

  /** Something taken while missing has been taken before, so it is taken twice. */
  lemma MissingIsRepeated(s: State, step: Step, s': State)
    requires Inv(s) && NothingLostOrRepeated(s) && Next(s, step, s') && TakesMissing(s, step)
    ensures !Distinct(s'.taken)
  {
    WithoutIsFilter(s.ever, s.taken);
    TwiceIsNotDistinct(s.taken, s.Selected(step.h)[0]);
  }

  // ---------- Whole runs ----------

  ghost predicate NoneMissing(states: seq<State>, steps: seq<Step>, i: nat)
    requires i <= |steps| <= |states|
  {
    forall t :: 0 <= t < i ==> !TakesMissing(states[t], steps[t])
  }

  lemma {:induction false} RunKeepsInv(states: seq<State>, steps: seq<Step>, i: nat)
    requires IsRun(states, steps) && i <= |steps|
    ensures Inv(states[i])
  {
    if i > 0 {
      RunKeepsInv(states, steps, i - 1);
      assert StepAt(states, steps, i - 1);
      NextKeepsInv(states[i - 1], steps[i - 1], states[i]);
    }
  }

  /** In any run nothing is lost and nothing repeated exactly if no handler has taken what was missing. */
  lemma PromiseKeptIffNoneMissing(states: seq<State>, steps: seq<Step>, i: nat)
    requires IsRun(states, steps) && i <= |steps|
    ensures NothingLostOrRepeated(states[i]) <==> NoneMissing(states, steps, i)
  {
    KeptOrRepeated(states, steps, i);
  }

  lemma {:induction false} KeptOrRepeated(states: seq<State>, steps: seq<Step>, i: nat)
    requires IsRun(states, steps) && i <= |steps|
    ensures if NoneMissing(states, steps, i) then NothingLostOrRepeated(states[i]) else !Distinct(states[i].taken)
  {
    if i > 0 {
      KeptOrRepeated(states, steps, i - 1);
      RunKeepsInv(states, steps, i - 1);
      assert StepAt(states, steps, i - 1);
      if !NoneMissing(states, steps, i - 1) {
        RepeatedForGood(states[i - 1], steps[i - 1], states[i]);
      } else if TakesMissing(states[i - 1], steps[i - 1]) {
        MissingIsRepeated(states[i - 1], steps[i - 1], states[i]);
      } else {
        StepKeepsPromiseIff(states[i - 1], steps[i - 1], states[i]);
      }
    }
  }

  // ---------- Handlers that do not overlap ----------

  lemma ExclusiveTakesPresent(s: State, step: Step)
    requires Exclusive(s)
    ensures !TakesMissing(s, step)
  {
  }

  /** A step keeps the handlers apart exactly if it does not select what another one has selected. */
  lemma StepKeepsExclusiveIff(s: State, step: Step, s': State)
    requires Inv(s) && NothingLostOrRepeated(s) && Exclusive(s) && Next(s, step, s')
    ensures Exclusive(s') <==> !Overlaps(s, step)
  {
    match step {
      case Select(h, block) =>
        ReadyIsFilter(s.scheduled, s.readyBlocks, block);
        WithoutKeepsDistinct(s.ever, s.taken);
        TakingKeepsExclusiveIff(s, h, Selection(s, block));
      case SendEnds(h, succeeded) => TakingKeepsExclusiveIff(s, h, if succeeded then s.Selected(h) else []);
      case _ =>
        assert forall h :: s'.Selected(h) == s.Selected(h);
    }
  }

  lemma TakingKeepsExclusiveIff(s: State, h: nat, selected: seq<nat>)
    requires Inv(s) && NothingLostOrRepeated(s) && Exclusive(s)
    requires Distinct(selected) && forall p :: p in selected ==> p in s.scheduled
    ensures Exclusive(TakeFirst(s, h, selected)) <==> Apart(s, h, selected)
  {
    TakeFirstFrame(s, h, selected);
    if selected != [] {
      DistinctTail(selected);
      JustItIsGone(s, selected[0]);
      HeadAndTail(selected);
      if Apart(s, h, selected) {
        ApartStaysExclusive(s, h, selected);
      } else {
        var g, p :| g != h && p in s.Selected(g) && p in selected;
        assert p in TakeFirst(s, h, selected).Selected(g);
      }
    }
  }

  ghost predicate Apart(s: State, h: nat, selected: seq<nat>) {
    forall g, p :: g != h && p in s.Selected(g) ==> p !in selected
  }

  lemma HeadAndTail(s: seq<nat>)
    requires s != []
    ensures forall p :: p in s <==> p == s[0] || p in s[1..]
  {
    assert s == [s[0]] + s[1..];
  }

  lemma ApartStaysExclusive(s: State, h: nat, selected: seq<nat>)
    requires Exclusive(s) && Apart(s, h, selected) && selected != [] && Distinct(selected)
    requires Distinct(selected[1..]) && forall p :: p in selected <==> p == selected[0] || p in selected[1..]
    requires selected[0] !in selected[1..] && forall p :: p in selected ==> p in s.scheduled
    requires forall p :: p in SpliceOut(s.scheduled, selected[0]) <==> p in s.scheduled && p != selected[0]
    ensures Exclusive(TakeFirst(s, h, selected))
  {
    var s' := TakeFirst(s, h, selected);
    TakeFirstFrame(s, h, selected);
    forall g
      ensures Distinct(s'.Selected(g)) && forall p :: p in s'.Selected(g) ==> p in s'.scheduled
    {
    }
    forall g, i, p | g != i && p in s'.Selected(g)
      ensures p !in s'.Selected(i)
    {
      assert g != h ==> p in s.Selected(g);
      assert i != h ==> s'.Selected(i) == s.Selected(i);
    }
  }

  lemma JustItIsGone(s: State, p: nat)
    requires Inv(s) && NothingLostOrRepeated(s) && p in s.scheduled
    ensures forall q :: q in SpliceOut(s.scheduled, p) <==> q in s.scheduled && q != p
  {
    WithoutKeepsDistinct(s.ever, s.taken);
    SplicePresent(s.scheduled, p);
    WithoutIsFilter(s.scheduled, [p]);
  }

  ghost predicate NoneOverlaps(states: seq<State>, steps: seq<Step>, i: nat)
    requires i <= |steps| <= |states|
  {
    forall t :: 0 <= t < i ==> !Overlaps(states[t], steps[t])
  }

  /** In a run in which no handler selects what another one still holds, nothing is lost and nothing repeated. */
  lemma {:induction false} NoOverlapKeepsPromise(states: seq<State>, steps: seq<Step>, i: nat)
    requires IsRun(states, steps) && i <= |steps| && NoneOverlaps(states, steps, i)
    ensures NothingLostOrRepeated(states[i]) && Exclusive(states[i])
  {
    if i > 0 {
      NoOverlapKeepsPromise(states, steps, i - 1);
      RunKeepsInv(states, steps, i - 1);
      assert StepAt(states, steps, i - 1);
      ExclusiveTakesPresent(states[i - 1], steps[i - 1]);
      StepKeepsPromiseIff(states[i - 1], steps[i - 1], states[i]);
      StepKeepsExclusiveIff(states[i - 1], steps[i - 1], states[i]);
    }
  }

  // ---------- When a selection is safe ----------

  /** How things may go on without any further overlapping selection. */
  ghost predicate GoesOn(states: seq<State>) {
    states != [] && forall i :: 0 <= i < |states| - 1 ==> GoesOnAt(states, i)
  }

  ghost predicate GoesOnAt(states: seq<State>, i: nat)
    requires i + 1 < |states|
  {
    Steps(states[i], states[i + 1])
  }

  ghost predicate Steps(s: State, s': State) {
    exists step :: Next(s, step, s') && !Overlaps(s, step)
  }

  /** However things go on, nothing is lost and nothing repeated. */
  ghost predicate IsSafe(s: State) {
    forall states: seq<State> :: GoesOn(states) && states[0] == s ==> NothingLostOrRepeated(states[|states| - 1])
  }

  /**
   Exactly when a handler's selection is safe, if all is well so far: nothing in it is selected by another handler
   that has not yet taken it.
   */
  lemma SelectionIsSafeIff(s: State, h: nat, block: nat, s': State)
    requires Inv(s) && NothingLostOrRepeated(s) && Exclusive(s) && Next(s, Select(h, block), s')
    ensures IsSafe(s') <==> !Overlaps(s, Select(h, block))
  {
    NextKeepsInv(s, Select(h, block), s');
    StepKeepsPromiseIff(s, Select(h, block), s');
    if !Overlaps(s, Select(h, block)) {
      StepKeepsExclusiveIff(s, Select(h, block), s');
      forall states: seq<State> | GoesOn(states) && states[0] == s'
        ensures NothingLostOrRepeated(states[|states| - 1])
      {
        ExclusiveGoesOn(states, |states| - 1);
      }
    } else {
      var g, p :| g != h && p in s.Selected(g) && p in Selection(s, block);
      OverlapIsRepeated(s, g, h, Selection(s, block), p);
    }
  }

  lemma OverlapIsRepeated(s: State, g: nat, h: nat, selected: seq<nat>, p: nat)
    requires g != h && p in s.Selected(g) && p in selected
    ensures !IsSafe(TakeFirst(s, h, selected))
  {
    var s' := TakeFirst(s, h, selected);
    TakeFirstFrame(s, h, selected);
    var states;
    if p == selected[0] {
      states := OneTakes(s', g, p);
    } else {
      assert selected == [selected[0]] + selected[1..];
      states := BothTake(s', g, h, p);
    }
    CountedTwiceIsNotDistinct(states[|states| - 1].taken, p);
  }

  lemma {:induction false} ExclusiveGoesOn(states: seq<State>, i: nat)
    requires GoesOn(states) && i < |states|
    requires Inv(states[0]) && NothingLostOrRepeated(states[0]) && Exclusive(states[0])
    ensures Inv(states[i]) && NothingLostOrRepeated(states[i]) && Exclusive(states[i])
  {
    if i > 0 {
      ExclusiveGoesOn(states, i - 1);
      assert GoesOnAt(states, i - 1);
      var step :| Next(states[i - 1], step, states[i]) && !Overlaps(states[i - 1], step);
      NextKeepsInv(states[i - 1], step, states[i]);
      ExclusiveTakesPresent(states[i - 1], step);
      StepKeepsPromiseIff(states[i - 1], step, states[i]);
      StepKeepsExclusiveIff(states[i - 1], step, states[i]);
    }
  }

  lemma CountedTwiceIsNotDistinct(s: seq<nat>, p: nat)
    requires multiset(s)[p] >= 2
    ensures !Distinct(s)
  {
    var i :| 0 <= i < |s| && s[i] == p;
    var rest := s[..i] + s[i + 1..];
    assert s == s[..i] + [p] + s[i + 1..];
    assert multiset(s) == multiset(rest) + multiset{p};
    assert p in multiset(rest);
    var j :| 0 <= j < |rest| && rest[j] == p;
    var k := if j < i then j else j + 1;
    assert s[k] == p;
    assert if k < i then !Differ(s, k, i) else !Differ(s, i, k);
  }

  lemma Prepend(s: State, states: seq<State>)
    requires GoesOn(states) && Steps(s, states[0])
    ensures GoesOn([s] + states)
  {
    forall i | 0 <= i < |states|
      ensures GoesOnAt([s] + states, i)
    {
      if i > 0 {
        assert GoesOnAt(states, i - 1);
      }
    }
  }

  /** A successful send lets the handler take the next it has selected, on the list or not. */
  lemma TurnSteps(s: State, h: nat)
    requires s.Selected(h) != []
    ensures var s' := TakeFirst(s, h, s.Selected(h));
      && Steps(s, s') && |s'.Selected(h)| < |s.Selected(h)|
      && (forall g :: g != h ==> s'.Selected(g) == s.Selected(g))
      && (forall p :: p in s.Selected(h) ==> p in s'.Selected(h) || multiset(s'.taken)[p] == multiset(s.taken)[p] + 1)
      && (forall p :: multiset(s'.taken)[p] >= multiset(s.taken)[p])
  {
    var s' := TakeFirst(s, h, s.Selected(h));
    TakeFirstFrame(s, h, s.Selected(h));
    assert Next(s, SendEnds(h, true), s') && !Overlaps(s, SendEnds(h, true));
    assert s.Selected(h) == [s.Selected(h)[0]] + s.Selected(h)[1..];
  }

  lemma {:induction false} OneTakes(s: State, h: nat, p: nat) returns (states: seq<State>)
    requires p in s.Selected(h)
    ensures GoesOn(states) && states[0] == s
    ensures multiset(states[|states| - 1].taken)[p] >= multiset(s.taken)[p] + 1
    decreases |s.Selected(h)|
  {
    var s' := TakeFirst(s, h, s.Selected(h));
    TurnSteps(s, h);
    var rest := [s'];
    if p in s'.Selected(h) {
      rest := OneTakes(s', h, p);
    }
    Prepend(s, rest);
    states := [s] + rest;
  }

  /** Two handlers that have selected the same both take it. */
  lemma {:induction false} BothTake(s: State, g: nat, h: nat, p: nat) returns (states: seq<State>)
    requires g != h && p in s.Selected(g) && p in s.Selected(h)
    ensures GoesOn(states) && states[0] == s
    ensures multiset(states[|states| - 1].taken)[p] >= multiset(s.taken)[p] + 2
    decreases |s.Selected(g)|
  {
    var s' := TakeFirst(s, g, s.Selected(g));
    TurnSteps(s, g);
    var rest;
    if p in s'.Selected(g) {
      rest := BothTake(s', g, h, p);
    } else {
      rest := OneTakes(s', h, p);
    }
    Prepend(s, rest);
    states := [s] + rest;
  }

  // ---------- What is lost ----------

  /** Gone from the list without having been taken, and selected by no handler. */
  ghost predicate IsLost(s: State, p: nat) {
    p in s.ever && p !in s.scheduled && p !in s.taken && forall h :: p !in s.Selected(h)
  }

  /** What is lost is never revealed. */
  lemma LostForGood(s: State, step: Step, s': State, p: nat)
    requires Next(s, step, s') && IsLost(s, p)
    ensures IsLost(s', p)
  {
    match step {
      case Schedule(_) => assert forall h :: s'.Selected(h) == s.Selected(h);
      case LearnReadyBlock(_, _) => assert forall h :: s'.Selected(h) == s.Selected(h);
      case Select(h, block) =>
        ReadyIsFilter(s.scheduled, s.readyBlocks, block);
        LostWhileTaking(s, h, Selection(s, block), p);
      case SendEnds(h, succeeded) => LostWhileTaking(s, h, if succeeded then s.Selected(h) else [], p);
    }
  }

  lemma LostWhileTaking(s: State, h: nat, selected: seq<nat>, p: nat)
    requires IsLost(s, p) && p !in selected
    ensures IsLost(TakeFirst(s, h, selected), p)
  {
    TakeFirstFrame(s, h, selected);
    if selected != [] {
      SpliceOutIsPart(s.scheduled, selected[0]);
    }
  }

  // ---------- A run in which one is revealed twice and another never ----------

  /**
   Of three penalizations two are ready. The first handler takes one; meanwhile the second selects and takes the
   other, and then so does the first.
   */
  function OverlapSteps(a: nat, b: nat, c: nat): seq<Step> {
    [Schedule(a), Schedule(b), Schedule(c), LearnReadyBlock(a, 10), LearnReadyBlock(b, 10),
     Select(0, 10), Select(1, 10), SendEnds(0, true)]
  }

  /** What the handlers make of the list and of what was taken, once two of the three are known to be ready. */
  function Handling(
    a: nat, b: nat, c: nat, scheduled: seq<nat>, handlers: map<nat, Handler>, taken: seq<nat>): State
  {
    State(scheduled, map[a := 10, b := 10], handlers, [a, b, c], taken)
  }

  function AllReady(a: nat, b: nat, c: nat): State {
    Handling(a, b, c, [a, b, c], map[], [])
  }

  function OneTaken(a: nat, b: nat, c: nat): State {
    Handling(a, b, c, [b, c], map[0 := Sending([b])], [a])
  }

  function BothTaken(a: nat, b: nat, c: nat): State {
    Handling(a, b, c, [c], map[0 := Sending([b]), 1 := Sending([])], [a, b])
  }

  function Repeated(a: nat, b: nat, c: nat): State {
    Handling(a, b, c, [], map[0 := Sending([]), 1 := Sending([])], [a, b, b])
  }

  function OverlapStates(a: nat, b: nat, c: nat): seq<State> {
    [State([], map[], map[], [], []),
     State([a], map[], map[], [a], []),
     State([a, b], map[], map[], [a, b], []),
     State([a, b, c], map[], map[], [a, b, c], []),
     State([a, b, c], map[a := 10], map[], [a, b, c], []),
     AllReady(a, b, c), OneTaken(a, b, c), BothTaken(a, b, c), Repeated(a, b, c)]
  }

  lemma Selections(a: nat, b: nat, c: nat)
    requires a != b && a != c && b != c
    ensures Ready([b, c], map[a := 10, b := 10], 10) == [b]
    ensures Ready([a, b, c], map[a := 10, b := 10], 10) == [a, b]
  {
    var known := map[a := 10, b := 10];
    assert Ready([c], known, 10) == [];
    assert [b, c][1..] == [c] && [a, b, c][1..] == [b, c];
  }

  lemma Splices(a: nat, b: nat, c: nat)
    requires a != b && a != c && b != c
    ensures SpliceOut([a, b, c], a) == [b, c] && SpliceOut([b, c], b) == [c] && SpliceOut([c], b) == []
  {
    assert IndexOf([a, b, c], a) == 0 && IndexOf([b, c], b) == 0 && IndexOf([c], b) == -1;
  }

  lemma SchedulingSteps(a: nat, b: nat, c: nat)
    requires a != b && a != c && b != c
    ensures var states, steps := OverlapStates(a, b, c), OverlapSteps(a, b, c);
      forall i :: 0 <= i < 5 ==> StepAt(states, steps, i)
  {
  }

  lemma TakesOff(s: State, h: nat, p: nat, rest: seq<nat>, scheduled: seq<nat>)
    requires SpliceOut(s.scheduled, p) == scheduled
    ensures TakeFirst(s, h, [p] + rest)
         == s.(scheduled := scheduled, taken := s.taken + [p], handlers := s.handlers[h := Sending(rest)])
  {
    assert ([p] + rest)[1..] == rest;
  }

  lemma HandlerStarts(s: State, h: nat, p: nat, rest: seq<nat>, scheduled: seq<nat>, s': State)
    requires s.Handler(h).Idle? && Selection(s, 10) == [p] + rest && SpliceOut(s.scheduled, p) == scheduled
    requires s' == s.(scheduled := scheduled, taken := s.taken + [p], handlers := s.handlers[h := Sending(rest)])
    ensures Next(s, Select(h, 10), s')
  {
    TakesOff(s, h, p, rest, scheduled);
  }

  lemma FirstHandlerStarts(a: nat, b: nat, c: nat)
    requires a != b && a != c && b != c
    ensures Next(AllReady(a, b, c), Select(0, 10), OneTaken(a, b, c))
  {
    Selections(a, b, c);
    Splices(a, b, c);
    var s, s' := AllReady(a, b, c), OneTaken(a, b, c);
    assert [a] + [b] == [a, b];
    assert s'.taken == s.taken + [a] && s'.handlers == s.handlers[0 := Sending([b])];
    HandlerStarts(s, 0, a, [b], [b, c], s');
  }

  lemma SecondHandlerStarts(a: nat, b: nat, c: nat)
    requires a != b && a != c && b != c
    ensures Next(OneTaken(a, b, c), Select(1, 10), BothTaken(a, b, c))
  {
    Selections(a, b, c);
    Splices(a, b, c);
    var s, s' := OneTaken(a, b, c), BothTaken(a, b, c);
    assert s'.taken == s.taken + [b] && s'.handlers == s.handlers[1 := Sending([])];
    HandlerStarts(s, 1, b, [], [c], s');
  }

  lemma FirstHandlerGoesOn(a: nat, b: nat, c: nat)
    requires a != b && a != c && b != c
    ensures Next(BothTaken(a, b, c), SendEnds(0, true), Repeated(a, b, c))
  {
    Splices(a, b, c);
    TakesOff(BothTaken(a, b, c), 0, b, [], []);
  }

  lemma EightSteps(states: seq<State>, steps: seq<Step>)
    requires |steps| == 8 && |states| == 9 && Init(states[0])
    requires forall i :: 0 <= i < 5 ==> StepAt(states, steps, i)
    requires Next(states[5], steps[5], states[6]) && Next(states[6], steps[6], states[7])
    requires Next(states[7], steps[7], states[8])
    ensures IsRun(states, steps)
  {
  }

  lemma LastIsLost(a: nat, b: nat, c: nat)
    requires a != b && a != c && b != c
    ensures IsLost(Repeated(a, b, c), c)
  {
  }

  /** The second penalization is revealed twice; the third is taken off the list without ever being revealed. */
  lemma OverlapRepeatsAndLoses(a: nat, b: nat, c: nat)
    requires a != b && a != c && b != c
    ensures IsRun(OverlapStates(a, b, c), OverlapSteps(a, b, c))
    ensures OverlapStates(a, b, c)[8] == Repeated(a, b, c)
    ensures Repeated(a, b, c).taken == [a, b, b] && IsLost(Repeated(a, b, c), c)
  {
    LastIsLost(a, b, c);
    SchedulingSteps(a, b, c);
    FirstHandlerStarts(a, b, c);
    SecondHandlerStarts(a, b, c);
    FirstHandlerGoesOn(a, b, c);
    EightSteps(OverlapStates(a, b, c), OverlapSteps(a, b, c));
  }
}
