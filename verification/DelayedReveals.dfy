/**
 Scheduled penalizations of `PenalizerService.ts`: each is committed first and revealed once its commitment is
 ready. The objects are shared between the list and the handler, which updates them in place.
 */
module DelayedReveals {
  import opened Sequences
  import opened Wrappers

  datatype Commitment = Commitment(hash: nat, readyBlock: nat)

  class DelayedPenalization {
    const commitHash: nat
    var readyBlock: Option<nat>

    constructor (commitHash: nat)
      ensures this.commitHash == commitHash && readyBlock == None
    {
      this.commitHash, readyBlock := commitHash, None;
    }

    predicate IsReady(block: nat)
      reads this
    {
      readyBlock.Some? && readyBlock.value <= block
    }
  }

  // ---------- The service ----------

  /** A penalization taken off the list to be sent at some block, and whether sending it succeeded. */
  datatype Removal = Removal(penalization: DelayedPenalization, readyBlock: Option<nat>, atBlock: nat, revealed: bool)

  ghost predicate AllSent(sends: nat -> bool, n: nat) {
    forall k :: 0 <= k < n ==> sends(k)
  }

  predicate NotTooEarly(r: Removal) {
    r.readyBlock.Some? && r.readyBlock.value <= r.atBlock
  }

  function Removed(removals: seq<Removal>): seq<DelayedPenalization> {
    seq(|removals|, i requires 0 <= i < |removals| => removals[i].penalization)
  }

  class PenalizerService {
    var scheduled: seq<DelayedPenalization>
    /** Everything ever scheduled, and everything ever taken off the list. */
    ghost var everScheduled: seq<DelayedPenalization>
    ghost var removed: seq<Removal>

    /** Each penalization ever scheduled is still on the list, in order, or was taken off once, not too early. */
    ghost predicate Valid()
      reads this
    {
      && Distinct(everScheduled) && Distinct(Removed(removed))
      && (forall p :: p in Removed(removed) ==> p in everScheduled)
      && scheduled == Without(everScheduled, Removed(removed))
      && (forall i :: 0 <= i < |removed| ==> NotTooEarly(removed[i]))
    }

    constructor ()
      ensures Valid() && scheduled == [] && everScheduled == [] && removed == []
    {
      scheduled, everScheduled, removed := [], [], [];
    }

    lemma ScheduledIsTheRest()
      requires Valid()
      ensures Distinct(scheduled)
      ensures forall p :: p in scheduled <==> p in everScheduled && p !in Removed(removed)
    {
      WithoutKeepsDistinct(everScheduled, Removed(removed));
      WithoutIsFilter(everScheduled, Removed(removed));
    }

    /** Scheduled before the commitment is sent, whether or not that succeeds. */
    method CommitAndScheduleReveal(penalization: DelayedPenalization)
      requires Valid() && penalization !in everScheduled
      modifies this
      ensures Valid() && removed == old(removed)
      ensures scheduled == old(scheduled) + [penalization] && everScheduled == old(everScheduled) + [penalization]
    {
      WithoutConcat(everScheduled, [penalization], Removed(removed));
      DistinctAppend(everScheduled, penalization);
      scheduled := scheduled + [penalization];
      everScheduled := everScheduled + [penalization];
    }

    /**
     Gives every penalization without a ready block the one of the first commitment with its hash, in place.
     Ready blocks already known never change.
     */
    method QueryReadyBlocksForMinedCommitments(commitments: seq<Commitment>)
      requires Valid()
      modifies set p | p in scheduled
      ensures Valid() && scheduled == old(scheduled) && removed == old(removed)
      ensures forall p :: p in scheduled ==> p.readyBlock == FirstKnown(old(p.readyBlock), commitments, p.commitHash)
      ensures forall p :: p in scheduled && old(p.readyBlock).Some? ==> p.readyBlock == old(p.readyBlock)
      ensures forall p, i: nat :: p in scheduled && old(p.readyBlock).None? && IsFirstWithHash(commitments, p.commitHash, i) ==>
        p.readyBlock == Some(commitments[i].readyBlock)
    {
      for i := 0 to |scheduled|
        invariant forall j :: 0 <= j < i ==>
          scheduled[j].readyBlock == FirstKnown(old(scheduled[j].readyBlock), commitments, scheduled[j].commitHash)
        invariant forall j :: i <= j < |scheduled| ==> scheduled[j].readyBlock == old(scheduled[j].readyBlock)
      {
        ScheduledIsTheRest();
        forall j | 0 <= j < |scheduled| && j != i
          ensures scheduled[j] != scheduled[i]
        {
          assert if j < i then Differ(scheduled, j, i) else Differ(scheduled, i, j);
        }
        if scheduled[i].readyBlock == None {
          var found := FindCommitment(commitments, scheduled[i].commitHash);
          scheduled[i].readyBlock := found;
        }
      }
      forall p | p in scheduled && old(p.readyBlock).None?
        ensures forall i: nat :: IsFirstWithHash(commitments, p.commitHash, i) ==>
          p.readyBlock == Some(commitments[i].readyBlock)
      {
        ReadyBlockExactly(commitments, p.commitHash);
      }
    }

    method SelectReady(block: nat) returns (ready: seq<DelayedPenalization>)
      ensures ready == ReadyOf(scheduled, block)
    {
      ready := [];
      for i := 0 to |scheduled|
        invariant ready == ReadyOf(scheduled[..i], block)
      {
        assert scheduled[..i + 1][..i] == scheduled[..i];
        if scheduled[i].IsReady(block) {
          ready := ready + [scheduled[i]];
        }
      }
      assert scheduled[..|scheduled|] == scheduled;
    }

    /** Takes one off the list and sends it. Meanwhile `arrivals` are scheduled. */
    method ExecuteOne(p: DelayedPenalization, block: nat, sends: bool, arrivals: seq<DelayedPenalization>)
      requires Valid() && p in scheduled && p.IsReady(block) && Distinct(everScheduled + arrivals)
      modifies this
      ensures Valid() && everScheduled == old(everScheduled) + arrivals
      ensures removed == old(removed) + [Removal(p, p.readyBlock, block, sends)]
      ensures scheduled == Without(old(scheduled), [p]) + arrivals
    {
      ScheduledIsTheRest();
      SplicePresent(scheduled, p);
      WithoutTwice(everScheduled, Removed(removed), [p]);
      scheduled := SpliceOut(scheduled, p);
      ghost var removed' := removed + [Removal(p, p.readyBlock, block, sends)];
      RemovedGrows(removed, removed'[|removed|]);
      DistinctAppend(Removed(removed), p);
      WithoutConcat(everScheduled, arrivals, Removed(removed'));
      ArrivalsAreOthers(everScheduled, arrivals, Removed(removed'));
      WithoutOthers(arrivals, Removed(removed'));
      scheduled, everScheduled, removed := scheduled + arrivals, everScheduled + arrivals, removed';
    }

    /**
     Executes what is ready, in order, each once, and leaves what is not, in order. While the penalization `k` is
     being sent, `arrivals(k)` are scheduled. A failure to send ends the handler, and that penalization is lost.
     */
    method ExecuteReadyPenalizations(block: nat, sends: nat -> bool, arrivals: nat -> seq<DelayedPenalization>)
      returns (failed: bool, ghost handled: nat)
      requires Valid()
      requires forall n :: Distinct(everScheduled + Arrived(arrivals, n))
      modifies this
      ensures Valid()
      ensures var ready := ReadyOf(old(scheduled), block);
        && handled <= |ready|
        && (if failed then handled > 0 && !sends(handled - 1) else handled == |ready|)
        && AllSent(sends, if failed then handled - 1 else handled)
        && removed == old(removed) + Removals(ready, ReadyBlocks(ready), handled, block, sends)
        && scheduled == Without(old(scheduled), ready[..handled]) + Arrived(arrivals, handled)
      ensures everScheduled == old(everScheduled) + Arrived(arrivals, handled)
      ensures !failed ==>
        forall p :: p in old(scheduled) && p.readyBlock.Some? && p.readyBlock.value <= block ==> p !in scheduled
    {
      var ready := SelectReady(block);
      ScheduledIsTheRest();
      ReadyIsReady(scheduled, block);
      BlocksAreReady(ready, block);
      failed, handled := ExecuteInOrder(ready, ReadyBlocks(ready), block, sends, arrivals);
      ReadyAreGone(old(scheduled), old(everScheduled), ready, Arrived(arrivals, handled));
    }

    /** The first `k` of `ready` have been taken off `list` and sent, and what has arrived meanwhile is on it. */
    ghost predicate HasExecuted(
      list: seq<DelayedPenalization>, ever: seq<DelayedPenalization>, before: seq<Removal>,
      ready: seq<DelayedPenalization>, blocks: seq<Option<nat>>, k: nat, block: nat, sends: nat -> bool,
      arrivals: nat -> seq<DelayedPenalization>)
      requires k <= |ready| == |blocks|
      reads this, ready
    {
      && Valid() && blocks == ReadyBlocks(ready)
      && scheduled == Without(list, ready[..k]) + Arrived(arrivals, k)
      && everScheduled == ever + Arrived(arrivals, k)
      && removed == before + Removals(ready, blocks, k, block, sends)
    }

    method ExecuteNext(
      ghost list: seq<DelayedPenalization>, ghost ever: seq<DelayedPenalization>, ghost before: seq<Removal>,
      ready: seq<DelayedPenalization>, ghost blocks: seq<Option<nat>>, k: nat, block: nat, sends: nat -> bool,
      arrivals: nat -> seq<DelayedPenalization>)
      requires k < |ready| == |blocks| && HasExecuted(list, ever, before, ready, blocks, k, block, sends, arrivals)
      requires Distinct(ready) && (forall p :: p in ready ==> p in list && p in ever) && AreReady(blocks, block)
      requires Distinct(ever + Arrived(arrivals, k)) && Distinct(ever + Arrived(arrivals, k + 1))
      modifies this
      ensures HasExecuted(list, ever, before, ready, blocks, k + 1, block, sends, arrivals)
    {
      assert ready[k].readyBlock == blocks[k];
      Regroup(ever, Arrived(arrivals, k), arrivals(k));
      RemovalsGrow(before, ready, blocks, k, block, sends);
      ArrivalsAreOthers(ever, Arrived(arrivals, k), ready);
      TakeNext(list, ready, k, Arrived(arrivals, k), arrivals(k));
      ExecuteOne(ready[k], block, sends(k), arrivals(k));
    }

    method ExecuteInOrder(
      ready: seq<DelayedPenalization>, ghost blocks: seq<Option<nat>>, block: nat, sends: nat -> bool,
      arrivals: nat -> seq<DelayedPenalization>)
      returns (failed: bool, ghost handled: nat)
      requires Valid() && Distinct(ready) && blocks == ReadyBlocks(ready) && AreReady(blocks, block)
      requires forall p :: p in ready ==> p in scheduled && p in everScheduled
      requires forall n :: Distinct(everScheduled + Arrived(arrivals, n))
      modifies this
      ensures handled <= |ready|
      ensures if failed then handled > 0 && !sends(handled - 1) else handled == |ready|
      ensures AllSent(sends, if failed then handled - 1 else handled)
      ensures HasExecuted(old(scheduled), old(everScheduled), old(removed), ready, blocks, handled, block, sends, arrivals)
    {
      handled, failed := 0, false;
      ghost var list, ever, before := scheduled, everScheduled, removed;
      NothingTaken(list, ready, arrivals, ever);
      AppendNothing(before);
      for k := 0 to |ready|
        invariant handled == k && !failed && AllSent(sends, k)
        invariant HasExecuted(list, ever, before, ready, blocks, k, block, sends, arrivals)
      {
        ExecuteNext(list, ever, before, ready, blocks, k, block, sends, arrivals);
        handled := k + 1;
        if !sends(k) {
          failed := true;
          break;
        }
      }
    }
  }

  predicate AreReady(blocks: seq<Option<nat>>, block: nat) {
    forall k :: 0 <= k < |blocks| ==> blocks[k].Some? && blocks[k].value <= block
  }

  lemma BlocksAreReady(ready: seq<DelayedPenalization>, block: nat)
    requires forall p :: p in ready ==> p.IsReady(block)
    ensures AreReady(ReadyBlocks(ready), block)
  {
    forall k | 0 <= k < |ready|
      ensures ready[k].IsReady(block)
    {
      assert ready[k] in ready;
    }
  }

  /** What is scheduled while the first `n` penalizations are being sent. */
  function Arrived(arrivals: nat -> seq<DelayedPenalization>, n: nat): seq<DelayedPenalization> {
    if n == 0 then [] else Arrived(arrivals, n - 1) + arrivals(n - 1)
  }

  function ReadyBlocks(penalizations: seq<DelayedPenalization>): (blocks: seq<Option<nat>>)
    reads penalizations
    ensures |blocks| == |penalizations|
  {
    seq(|penalizations|, i requires 0 <= i < |penalizations| reads penalizations => penalizations[i].readyBlock)
  }

  /** The record of having taken the first `n` off the list. */
  function Removals(
    ready: seq<DelayedPenalization>, readyBlocks: seq<Option<nat>>, n: nat, block: nat, sends: nat -> bool)
    : seq<Removal>
    requires n <= |ready| == |readyBlocks|
  {
    if n == 0 then []
    else
      Removals(ready, readyBlocks, n - 1, block, sends)
      + [Removal(ready[n - 1], readyBlocks[n - 1], block, sends(n - 1))]
  }

  lemma RemovedGrows(removals: seq<Removal>, r: Removal)
    ensures Removed(removals + [r]) == Removed(removals) + [r.penalization]
  {
  }

  lemma NothingTaken(
    list: seq<DelayedPenalization>, ready: seq<DelayedPenalization>, arrivals: nat -> seq<DelayedPenalization>,
    ever: seq<DelayedPenalization>)
    ensures list == Without(list, ready[..0]) + Arrived(arrivals, 0) && ever == ever + Arrived(arrivals, 0)
  {
    WithoutOthers(list, []);
  }

  lemma RemovalsGrow(
    before: seq<Removal>, ready: seq<DelayedPenalization>, readyBlocks: seq<Option<nat>>, n: nat, block: nat,
    sends: nat -> bool)
    requires n < |ready| == |readyBlocks|
    ensures before + Removals(ready, readyBlocks, n + 1, block, sends) ==
            before + Removals(ready, readyBlocks, n, block, sends) + [Removal(ready[n], readyBlocks[n], block, sends(n))]
  {
  }

  lemma WithoutAndOthers<T>(s: seq<T>, removed: seq<T>, others: seq<T>)
    requires forall x :: x in others ==> x !in removed
    ensures forall x :: x in removed ==> x !in Without(s, removed) + others
  {
    WithoutIsFilter(s, removed);
  }

  lemma ReadyAreGone<T>(list: seq<T>, ever: seq<T>, ready: seq<T>, arrived: seq<T>)
    requires Distinct(ever + arrived) && forall x :: x in ready ==> x in ever
    ensures forall x :: x in ready ==> x !in Without(list, ready[..|ready|]) + arrived
  {
    assert ready[..|ready|] == ready;
    ArrivalsAreOthers(ever, arrived, ready);
    WithoutAndOthers(list, ready, arrived);
  }

  lemma ArrivalsAreOthers<T>(s: seq<T>, arrivals: seq<T>, removed: seq<T>)
    requires Distinct(s + arrivals) && forall x :: x in removed ==> x in s
    ensures forall x :: x in arrivals ==> x !in removed
  {
    forall x | x in arrivals
      ensures x !in s
    {
      var all := s + arrivals;
      var j :| 0 <= j < |arrivals| && arrivals[j] == x;
      assert all[|s| + j] == x;
      forall i | 0 <= i < |s|
        ensures s[i] != x
      {
        assert Differ(all, i, |s| + j);
      }
    }
  }

  lemma {:induction false} ReadyIsReady(s: seq<DelayedPenalization>, block: nat)
    requires Distinct(s)
    ensures Distinct(ReadyOf(s, block))
    ensures forall p :: p in ReadyOf(s, block) <==> p in s && p.IsReady(block)
  {
    if s != [] {
      var n := |s| - 1;
      DistinctPrefix(s, n);
      ReadyIsReady(s[..n], block);
      assert s == s[..n] + [s[n]];
      if s[n].IsReady(block) {
        DistinctAppend(ReadyOf(s[..n], block), s[n]);
      } else {
        assert ReadyOf(s, block) == ReadyOf(s[..n], block);
      }
    }
  }

  lemma TakeNext<T>(s: seq<T>, ready: seq<T>, k: nat, arrived: seq<T>, arriving: seq<T>)
    requires Distinct(ready) && k < |ready|
    requires (forall x :: x in ready ==> x in s) && (forall x :: x in arrived ==> x !in ready)
    ensures ready[k] in Without(s, ready[..k])
    ensures Without(Without(s, ready[..k]) + arrived, [ready[k]]) + arriving
         == Without(s, ready[..k + 1]) + (arrived + arriving)
  {
    StillScheduled(s, ready, k);
    WithoutConcat(Without(s, ready[..k]), arrived, [ready[k]]);
    WithoutOthers(arrived, [ready[k]]);
    WithoutTwice(s, ready[..k], [ready[k]]);
    assert ready[..k] + [ready[k]] == ready[..k + 1];
    Regroup(Without(s, ready[..k + 1]), arrived, arriving);
  }

  lemma StillScheduled<T>(s: seq<T>, ready: seq<T>, k: nat)
    requires Distinct(ready) && k < |ready| && forall x :: x in ready ==> x in s
    ensures ready[k] in Without(s, ready[..k])
  {
    WithoutIsFilter(s, ready[..k]);
    DistinctPrefix(ready, k);
  }

  function ReadyOf(s: seq<DelayedPenalization>, block: nat): seq<DelayedPenalization>
    reads s
  {
    if s == [] then []
    else
      var last := s[|s| - 1];
      ReadyOf(s[..|s| - 1], block) + (if last.IsReady(block) then [last] else [])
  }

  /** The order of the list is kept. */
  lemma {:induction false} ReadyInOrder(s: seq<DelayedPenalization>, rest: seq<DelayedPenalization>, block: nat)
    ensures ReadyOf(s + rest, block) == ReadyOf(s, block) + ReadyOf(rest, block)
  {
    if rest == [] {
      AppendNothing(s);
      AppendNothing(ReadyOf(s, block));
    } else {
      var n := |rest| - 1;
      assert (s + rest)[..|s| + n] == s + rest[..n];
      ReadyInOrder(s, rest[..n], block);
      Regroup(ReadyOf(s, block), ReadyOf(rest[..n], block), if rest[n].IsReady(block) then [rest[n]] else []);
    }
  }

  function ReadyBlockOf(commitments: seq<Commitment>, hash: nat): Option<nat> {
    if commitments == [] then None
    else if commitments[0].hash == hash then Some(commitments[0].readyBlock)
    else ReadyBlockOf(commitments[1..], hash)
  }

  /** The first commitment with the hash gives the ready block, and without one there is none. */
  lemma {:induction false} ReadyBlockExactly(commitments: seq<Commitment>, hash: nat)
    ensures ReadyBlockOf(commitments, hash).None? <==>
      forall i :: 0 <= i < |commitments| ==> commitments[i].hash != hash
    ensures forall i: nat :: IsFirstWithHash(commitments, hash, i) ==>
      ReadyBlockOf(commitments, hash) == Some(commitments[i].readyBlock)
  {
    if commitments != [] {
      var rest := commitments[1..];
      ReadyBlockExactly(rest, hash);
      assert commitments == [commitments[0]] + rest;
      forall i: nat | IsFirstWithHash(commitments, hash, i) && i > 0
        ensures commitments[0].hash != hash && IsFirstWithHash(rest, hash, i - 1)
      {
      }
    }
  }

  predicate IsFirstWithHash(commitments: seq<Commitment>, hash: nat, i: nat) {
    && i < |commitments| && commitments[i].hash == hash
    && forall j :: 0 <= j < i ==> commitments[j].hash != hash
  }

  function FirstKnown(known: Option<nat>, commitments: seq<Commitment>, hash: nat): Option<nat> {
    if known.Some? then known else ReadyBlockOf(commitments, hash)
  }

  method FindCommitment(commitments: seq<Commitment>, hash: nat) returns (readyBlock: Option<nat>)
    ensures readyBlock == ReadyBlockOf(commitments, hash)
  {
    for i := 0 to |commitments|
      invariant ReadyBlockOf(commitments, hash) == ReadyBlockOf(commitments[i..], hash)
    {
      assert commitments[i..][1..] == commitments[i + 1..];
      if commitments[i].hash == hash {
        return Some(commitments[i].readyBlock);
      }
    }
    return None;
  }
}
