/** The retry loop of `relayTransaction` in `RelayClient.ts`: one relay after the other until one relays. */
module RelayClient {
  import opened Wrappers
  import opened RelaySelection

  /** How an attempt with one relay ended. Only after a relay error is the next relay tried. */
  datatype Attempt = Attempt(transaction: Option<nat>, error: string, isRelayError: bool)

  datatype RelayingResult = RelayingResult(
    transaction: Option<nat>,
    relayingErrors: map<string, string>,
    pingErrors: map<string, string>)

  datatype ClientError = NoRegisteredRelayers

  predicate TriesNext(attempt: Attempt) {
    attempt.transaction.None? && attempt.isRelayError
  }

  /** The errors of the first attempts, by relay URL. */
  function AttemptErrors(attempt: (nat, PingedRelay) -> Attempt, picks: seq<PingedRelay>): map<string, string> {
    if picks == [] then map[]
    else
      var n := |picks| - 1;
      var errors, last := AttemptErrors(attempt, picks[..n]), attempt(n, picks[n]);
      if last.transaction.None? then errors[picks[n].relay.url := last.error] else errors
  }

  /** All the relays in `picks` were tried in order, and each sent the client on to the next. */
  ghost predicate AllTriedInVain(attempt: (nat, PingedRelay) -> Attempt, picks: seq<PingedRelay>) {
    forall k :: 0 <= k < |picks| ==> TriedInVain(attempt, picks, k)
  }

  ghost predicate TriedInVain(attempt: (nat, PingedRelay) -> Attempt, picks: seq<PingedRelay>, k: nat)
    requires k < |picks|
  {
    TriesNext(attempt(k, picks[k]))
  }

  /**
   The whole result of relaying: at most one relay decided, all selected before it failed with relay errors, and
   the client gave up without a decision only when no relay was left to ping.
   */
  ghost predicate IsOutcome(
    tiers: seq<seq<RelayInfo>>, registry: seq<RelayInfo>, sliceSize: nat, log: seq<Race>,
    attempt: (nat, PingedRelay) -> Attempt, result: RelayingResult)
  {
    var picks := Picks(registry, log);
    && IsLog(tiers, sliceSize, log)
    && result.pingErrors == PingErrors(log)
    && result.relayingErrors == AttemptErrors(attempt, picks)
    && if AllTriedInVain(attempt, picks) then
         result.transaction == None && NextSlice(LeftTiers(tiers, Settled(log)), sliceSize) == []
       else
         var last := |picks| - 1;
         && AllTriedInVain(attempt, picks[..last])
         && !TriesNext(attempt(last, picks[last]))
         && result.transaction == attempt(last, picks[last]).transaction
  }

  method RelayTransaction(
    tiers: seq<seq<RelayInfo>>, registry: seq<RelayInfo>, sliceSize: nat,
    race: (nat, seq<RelayInfo>) -> RaceResult, attempt: (nat, PingedRelay) -> Attempt)
    returns (result: Result<RelayingResult, ClientError>, ghost log: seq<Race>)
    requires EndsAllRaces(race)
    ensures result.Err? <==> Flat(tiers) == []
    ensures result.Ok? ==> IsOutcome(tiers, registry, sliceSize, log, attempt, result.value)
    ensures Continues([], log, race)
  {
    log := [];
    var manager := new RelaySelectionManager(tiers, registry, sliceSize);
    var left := manager.RelaysLeft();
    if |left| == 0 {
      return Err(NoRegisteredRelayers), log;
    }
    var relayingErrors, attempts := map[], 0;
    while true
      invariant manager.Valid() && fresh(manager) && Continues([], manager.log, race)
      invariant manager.initial == tiers && manager.registry == registry && manager.sliceSize == sliceSize
      invariant attempts == |Picks(registry, manager.log)|
      invariant AllTriedInVain(attempt, Picks(registry, manager.log))
      invariant relayingErrors == AttemptErrors(attempt, Picks(registry, manager.log))
      decreases |Flat(manager.remainingRelays)|
    {
      ghost var before := manager.log;
      ghost var picks := Picks(registry, before);
      var activeRelay := manager.SelectNextRelay(race);
      ContinuesFurther([], before, manager.log, race);
      var transaction := None;
      if activeRelay.Some? {
        AttemptGrows(attempt, picks, activeRelay.value);
        var relayingAttempt := attempt(attempts, activeRelay.value);
        attempts := attempts + 1;
        transaction := relayingAttempt.transaction;
        if transaction == None {
          relayingErrors := relayingErrors[activeRelay.value.relay.url := relayingAttempt.error];
          if relayingAttempt.isRelayError {
            continue;
          }
        }
      } else {
        assert Picks(registry, manager.log) == picks;
      }
      return Ok(RelayingResult(transaction, relayingErrors, manager.errors)), manager.log;
    }
  }

  lemma ContinuesFurther(a: seq<Race>, b: seq<Race>, c: seq<Race>, race: (nat, seq<RelayInfo>) -> RaceResult)
    requires Continues(a, b, race) && Continues(b, c, race)
    ensures Continues(a, c, race)
  {
    forall k | |a| <= k < |c|
      ensures EndsAs(c, race, k)
    {
      if k < |b| {
        assert EndsAs(b, race, k);
      }
    }
  }

  lemma AttemptGrows(attempt: (nat, PingedRelay) -> Attempt, picks: seq<PingedRelay>, pick: PingedRelay)
    requires AllTriedInVain(attempt, picks)
    ensures var all, last := picks + [pick], attempt(|picks|, pick);
      && all[..|all| - 1] == picks
      && AttemptErrors(attempt, all) ==
         (if last.transaction.None? then AttemptErrors(attempt, picks)[pick.relay.url := last.error]
          else AttemptErrors(attempt, picks))
      && (AllTriedInVain(attempt, all) <==> TriesNext(last))
  {
    var all := picks + [pick];
    assert all[..|all| - 1] == picks;
    assert TriedInVain(attempt, all, |picks|) <==> TriesNext(attempt(|picks|, pick));
    forall k | 0 <= k < |picks|
      ensures TriedInVain(attempt, all, k)
    {
      assert TriedInVain(attempt, picks, k);
    }
  }

  lemma {:induction false} VainAttemptsLeaveErrors(attempt: (nat, PingedRelay) -> Attempt, picks: seq<PingedRelay>)
    requires AllTriedInVain(attempt, picks)
    ensures AttemptErrors(attempt, picks).Keys == set p | p in picks :: p.relay.url
  {
    if picks != [] {
      var n := |picks| - 1;
      assert picks == picks[..n] + [picks[n]];
      assert TriedInVain(attempt, picks, n);
      forall k | 0 <= k < n
        ensures TriedInVain(attempt, picks[..n], k)
      {
        assert TriedInVain(attempt, picks, k);
      }
      VainAttemptsLeaveErrors(attempt, picks[..n]);
    }
  }

  /**
   When the client gives up, every relay it knew is accounted for exactly once: it failed its ping, failed to
   relay, or turned out to be unregistered.
   */
  lemma GivingUpAccountsForEveryRelay(
    tiers: seq<seq<RelayInfo>>, registry: seq<RelayInfo>, sliceSize: nat, log: seq<Race>,
    attempt: (nat, PingedRelay) -> Attempt, result: RelayingResult)
    requires sliceSize > 0 && IsOutcome(tiers, registry, sliceSize, log, attempt, result)
    requires AllTriedInVain(attempt, Picks(registry, log))
    ensures Partition(UrlsOfTiers(tiers),
      {}, result.relayingErrors.Keys, result.pingErrors.Keys, Dropped(registry, log))
  {
    EveryUrlIsInOnePlace(tiers, sliceSize, registry, log);
    VainAttemptsLeaveErrors(attempt, Picks(registry, log));
    var left := LeftTiers(tiers, Settled(log));
    var tier := NextSliceIsHeadOfFirstTier(left, sliceSize);
    assert LeftUrls(tiers, log) == {};
  }

  lemma {:induction false} ErrorsByUrl(attempt: (nat, PingedRelay) -> Attempt, picks: seq<PingedRelay>)
    requires forall i, j :: 0 <= i < j < |picks| ==> UrlsDiffer(picks, i, j)
    ensures forall k :: 0 <= k < |picks| && attempt(k, picks[k]).transaction.None? ==>
      && picks[k].relay.url in AttemptErrors(attempt, picks)
      && AttemptErrors(attempt, picks)[picks[k].relay.url] == attempt(k, picks[k]).error
    ensures forall u :: u in AttemptErrors(attempt, picks) ==>
      exists k :: 0 <= k < |picks| && attempt(k, picks[k]).transaction.None? && picks[k].relay.url == u
  {
    if picks != [] {
      var n := |picks| - 1;
      forall i, j | 0 <= i < j < n
        ensures UrlsDiffer(picks[..n], i, j)
      {
        assert UrlsDiffer(picks, i, j);
      }
      ErrorsByUrl(attempt, picks[..n]);
      forall k | 0 <= k < n
        ensures picks[k].relay.url != picks[n].relay.url && picks[..n][k] == picks[k]
      {
        assert UrlsDiffer(picks, k, n);
      }
    }
  }

  predicate UrlsDiffer(picks: seq<PingedRelay>, i: nat, j: nat)
    requires i < |picks| && j < |picks|
  {
    picks[i].relay.url != picks[j].relay.url
  }

  /**
   The outcome in terms of the attempts. All but the last ended without a transaction and with a relay error; the
   last one did so too only if no relay was left to ping. Its transaction is the result.
   */
  lemma OutcomeInAttempts(
    tiers: seq<seq<RelayInfo>>, registry: seq<RelayInfo>, sliceSize: nat, log: seq<Race>,
    attempt: (nat, PingedRelay) -> Attempt, result: RelayingResult)
    requires IsOutcome(tiers, registry, sliceSize, log, attempt, result)
    ensures var picks := Picks(registry, log);
      && (forall k :: 0 <= k < |picks| - 1 ==>
            attempt(k, picks[k]).transaction.None? && attempt(k, picks[k]).isRelayError)
      && (NextSlice(LeftTiers(tiers, Settled(log)), sliceSize) != [] ==>
            picks != [] &&
            var last := attempt(|picks| - 1, picks[|picks| - 1]);
            last.transaction.Some? || !last.isRelayError)
      && result.transaction == if picks == [] then None else attempt(|picks| - 1, picks[|picks| - 1]).transaction
  {
    var picks := Picks(registry, log);
    forall k | 0 <= k < |picks| - 1
      ensures attempt(k, picks[k]).transaction.None? && attempt(k, picks[k]).isRelayError
    {
      if AllTriedInVain(attempt, picks) {
        assert TriedInVain(attempt, picks, k);
      } else {
        assert TriedInVain(attempt, picks[..|picks| - 1], k);
      }
    }
    if AllTriedInVain(attempt, picks) && picks != [] {
      assert TriedInVain(attempt, picks, |picks| - 1);
    }
  }

  /** Each attempt without a transaction has left its error under the URL of its relay, and nothing else is reported. */
  lemma ErrorsOfOutcome(
    tiers: seq<seq<RelayInfo>>, registry: seq<RelayInfo>, sliceSize: nat, log: seq<Race>,
    attempt: (nat, PingedRelay) -> Attempt, result: RelayingResult)
    requires IsOutcome(tiers, registry, sliceSize, log, attempt, result)
    ensures var picks := Picks(registry, log);
      && (forall k :: 0 <= k < |picks| && attempt(k, picks[k]).transaction.None? ==>
            && picks[k].relay.url in result.relayingErrors
            && result.relayingErrors[picks[k].relay.url] == attempt(k, picks[k]).error)
      && (forall u :: u in result.relayingErrors ==>
            exists k :: 0 <= k < |picks| && attempt(k, picks[k]).transaction.None? && picks[k].relay.url == u)
  {
    var picks := Picks(registry, log);
    NoUrlIsAttemptedTwice(tiers, registry, sliceSize, log);
    forall i, j | 0 <= i < j < |picks|
      ensures UrlsDiffer(picks, i, j)
    {
    }
    ErrorsByUrl(attempt, picks);
  }

  /** With a slice size of zero no relay is ever pinged and nothing is reported, although relays are known. */
  lemma NothingIsTriedWithSliceSizeZero(
    tiers: seq<seq<RelayInfo>>, registry: seq<RelayInfo>, log: seq<Race>,
    attempt: (nat, PingedRelay) -> Attempt, result: RelayingResult)
    requires IsOutcome(tiers, registry, 0, log, attempt, result)
    ensures log == [] && result == RelayingResult(None, map[], map[])
  {
    if log != [] {
      NoSliceOfSizeZero(LeftTiers(tiers, Settled(log[..0])));
      RaceZero(tiers, log);
    }
  }

  lemma RaceZero(tiers: seq<seq<RelayInfo>>, log: seq<Race>)
    requires log != [] && IsLog(tiers, 0, log)
    ensures NextSlice(LeftTiers(tiers, Settled(log[..0])), 0) != []
  {
    assert RaceAt(tiers, 0, log, 0);
  }

  /** No URL is sent the request twice, and there are never more attempts than URLs. */
  lemma NoUrlIsAttemptedTwice(
    tiers: seq<seq<RelayInfo>>, registry: seq<RelayInfo>, sliceSize: nat, log: seq<Race>)
    requires IsLog(tiers, sliceSize, log)
    ensures PicksAreDistinct(Picks(registry, log))
    ensures |Picks(registry, log)| <= |UrlsOfTiers(tiers)|
  {
    EveryUrlIsInOnePlace(tiers, sliceSize, registry, log);
    RacesAreBounded(tiers, sliceSize, log);
    AtMostOnePickPerRace(registry, log);
  }

  lemma {:induction false} AtMostOnePickPerRace(registry: seq<RelayInfo>, log: seq<Race>)
    ensures |Picks(registry, log)| <= |log|
  {
    if log != [] {
      AtMostOnePickPerRace(registry, log[..|log| - 1]);
    }
  }
}
