/**
 The selection never returns a URL twice; whether it can return a relay twice is another question, since a relay may
 be known under two URLs. `managerOf` is the manager that the server behind a URL names in its ping response.
 */
module RepeatedRelay {
  import opened Wrappers
  import opened StoredTransactions
  import opened RelaySelection
  import opened KnownRelays

  predicate IsRegistered(registry: seq<RelayInfo>, manager: Address) {
    FindManager(registry, manager).Some?
  }

  /** The first tier holds the preferred relays, which are only URLs; the others come from registration events. */
  ghost predicate PreferredComeFirst(tiers: seq<seq<RelayInfo>>) {
    tiers != [] && forall i, r :: 0 <= i < |tiers| && r in tiers[i] ==> (r.manager.Some? <==> i > 0)
  }

  /** The tiers a transaction starts from are like that. */
  lemma KnownTiersPutPreferredFirst(
    tiers: seq<seq<RelayInfo>>, preferred: seq<RelayInfo>, registered: seq<RelayInfo>,
    failures: set<string>, valid: string -> bool)
    requires AreTiers(tiers, preferred, registered, failures, valid)
    requires (forall r :: r in preferred ==> r.manager.None?) && (forall r :: r in registered ==> r.manager.Some?)
    ensures PreferredComeFirst(tiers)
  {
    forall i, r | 0 <= i < |tiers| && r in tiers[i]
      ensures r.manager.Some? <==> i > 0
    {
      WhoIsInWhichTier(tiers, preferred, registered, failures, valid, r);
    }
  }

  /**
   A race that this URL wins selects its relay: the manager its server names is registered, or it is not a preferred
   URL, and then the registration event it comes from is enough.
   */
  predicate IsReturnable(
    tiers: seq<seq<RelayInfo>>, registry: seq<RelayInfo>, managerOf: string -> Address, url: string)
    requires tiers != []
  {
    IsRegistered(registry, managerOf(url)) || url !in UrlsOf(tiers[0])
  }

  predicate WinnerNames(race: Race, managerOf: string -> Address) {
    race.result.winner.Some? ==> race.result.winner.value.manager == managerOf(race.result.winner.value.relay.url)
  }

  /** The pings of all winners are answered by the servers behind their URLs. */
  ghost predicate IsAnswered(log: seq<Race>, managerOf: string -> Address) {
    forall k :: 0 <= k < |log| ==> WinnerNames(log[k], managerOf)
  }

  ghost predicate ReturnsRelayTwice(registry: seq<RelayInfo>, log: seq<Race>) {
    exists i, j :: 0 <= i < j < |Picks(registry, log)| && SameManager(Picks(registry, log), i, j)
  }

  predicate SameManager(picks: seq<PingedRelay>, i: nat, j: nat)
    requires i < |picks| && j < |picks|
  {
    picks[i].manager == picks[j].manager
  }

  /** One relay is known under two URLs under which it can be returned. */
  predicate IsTwoUrlsOfOneRelay(
    tiers: seq<seq<RelayInfo>>, registry: seq<RelayInfo>, managerOf: string -> Address, u: string, v: string)
    requires tiers != []
  {
    && u != v && u in UrlsOfTiers(tiers) && v in UrlsOfTiers(tiers) && managerOf(u) == managerOf(v)
    && IsReturnable(tiers, registry, managerOf, u) && IsReturnable(tiers, registry, managerOf, v)
  }

  ghost predicate KnowsRelayTwice(tiers: seq<seq<RelayInfo>>, registry: seq<RelayInfo>, managerOf: string -> Address)
    requires tiers != []
  {
    exists u, v :: IsTwoUrlsOfOneRelay(tiers, registry, managerOf, u, v)
  }

  ghost predicate SomeRunReturnsRelayTwice(
    tiers: seq<seq<RelayInfo>>, sliceSize: nat, registry: seq<RelayInfo>, managerOf: string -> Address)
  {
    exists log :: IsLog(tiers, sliceSize, log) && IsAnswered(log, managerOf) && ReturnsRelayTwice(registry, log)
  }

  // ---------- A relay returned twice is known twice ----------

  /** What is returned is a known URL under which a relay can be returned, with the manager behind it. */
  lemma {:induction false} PicksAreKnown(
    tiers: seq<seq<RelayInfo>>, sliceSize: nat, registry: seq<RelayInfo>, managerOf: string -> Address,
    log: seq<Race>, p: PingedRelay)
    requires PreferredComeFirst(tiers)
    requires IsLog(tiers, sliceSize, log) && IsAnswered(log, managerOf) && p in Picks(registry, log)
    ensures p.manager == managerOf(p.relay.url) && IsReturnable(tiers, registry, managerOf, p.relay.url)
    ensures p.relay.url in UrlsOfTiers(tiers)
  {
    var n := |log| - 1;
    LogBeforeLast(tiers, sliceSize, log);
    if p in Picks(registry, log[..n]) {
      assert forall k :: 0 <= k < n ==> log[..n][k] == log[k];
      PicksAreKnown(tiers, sliceSize, registry, managerOf, log[..n], p);
    } else {
      assert WinnerNames(log[n], managerOf);
      WinnerIsKnown(tiers, sliceSize, log[..n], log[n]);
      if log[n].result.winner.value.relay.manager.Some? {
        WinnerFromEventIsNotPreferred(tiers, sliceSize, log);
      }
    }
  }

  /** When a relay from a registration event wins, its URL is none of the preferred ones: those are settled by then. */
  lemma WinnerFromEventIsNotPreferred(tiers: seq<seq<RelayInfo>>, sliceSize: nat, log: seq<Race>)
    requires PreferredComeFirst(tiers) && IsLog(tiers, sliceSize, log) && log != []
    requires var winner := log[|log| - 1].result.winner; winner.Some? && winner.value.relay.manager.Some?
    ensures log[|log| - 1].result.winner.value.relay.url !in UrlsOf(tiers[0])
  {
    var n := |log| - 1;
    var r := log[n].result.winner.value.relay;
    assert RaceAt(tiers, sliceSize, log, n);
    DedupeGivesDistinctKeys(log[n].relays);
    var tier := TiersAreExhaustedInOrder(tiers, sliceSize, log, n);
    RacesPingUnsettledRelays(tiers, sliceSize, log[..n], log[n]);
    assert r in log[n].relays && r.url in UrlsOf(log[n].relays);
  }

  lemma WinnerIsKnown(tiers: seq<seq<RelayInfo>>, sliceSize: nat, before: seq<Race>, race: Race)
    requires IsRaceOf(tiers, sliceSize, before, race) && race.result.winner.Some?
    ensures exists i :: 0 <= i < |tiers| && race.result.winner.value.relay in tiers[i]
  {
    var r, left := race.result.winner.value.relay, LeftTiers(tiers, Settled(before));
    DedupeGivesDistinctKeys(race.relays);
    SliceIsFromTiers(left, sliceSize, r);
    var i :| 0 <= i < |left| && r in left[i];
    LeftIsFilter(tiers[i], Settled(before));
  }

  // ---------- A relay known twice can be returned twice ----------

  function FindUrl(relays: seq<RelayInfo>, url: string): (found: Option<RelayInfo>)
    ensures found.Some? ==> found.value in relays && found.value.url == url
    ensures found.None? ==> url !in UrlsOf(relays)
  {
    if relays == [] then None
    else if relays[0].url == url then Some(relays[0])
    else
      var found := FindUrl(relays[1..], url);
      assert relays == [relays[0]] + relays[1..];
      found
  }

  function Win(relay: RelayInfo, managerOf: string -> Address): RaceResult {
    RaceResult(Some(PingedRelay(relay, managerOf(relay.url))), map[])
  }

  /** A race that `u` wins, or else `v`, or else nobody. */
  function Favouring(relays: seq<RelayInfo>, u: string, v: string, managerOf: string -> Address): RaceResult {
    if FindUrl(relays, u).Some? then Win(FindUrl(relays, u).value, managerOf)
    else if FindUrl(relays, v).Some? then Win(FindUrl(relays, v).value, managerOf)
    else RaceResult(None, map k | k in UrlsOf(relays) :: "timeout")
  }

  /** The URL was returned, or still can be. */
  predicate StillPossible(registry: seq<RelayInfo>, log: seq<Race>, url: string) {
    url in PickedUrls(registry, log) || url !in Settled(log)
  }

  lemma FavouringIsARace(
    tiers: seq<seq<RelayInfo>>, sliceSize: nat, log: seq<Race>, u: string, v: string, managerOf: string -> Address)
    returns (race: Race)
    requires sliceSize > 0
    requires u in UrlsOfTiers(tiers) && v in UrlsOfTiers(tiers) && (u !in Settled(log) || v !in Settled(log))
    ensures IsRaceOf(tiers, sliceSize, log, race) && WinnerNames(race, managerOf)
    ensures race.result == Favouring(Dedupe(race.relays), u, v, managerOf)
  {
    var left := LeftTiers(tiers, Settled(log));
    LeftIsTheUnsettledRest(tiers, Settled(log));
    var some := if u !in Settled(log) then u else v;
    assert some in UrlsOfTiers(left);
    var tier := NextSliceIsHeadOfFirstTier(left, sliceSize);
    var slice := NextSlice(left, sliceSize);
    race := Race(slice, Favouring(Dedupe(slice), u, v, managerOf));
  }

  /** Its winner is selected. */
  lemma FavouredIsSelected(
    tiers: seq<seq<RelayInfo>>, sliceSize: nat, registry: seq<RelayInfo>, log: seq<Race>, race: Race, u: string,
    v: string, managerOf: string -> Address)
    requires PreferredComeFirst(tiers) && IsRaceOf(tiers, sliceSize, log, race)
    requires IsReturnable(tiers, registry, managerOf, u) && IsReturnable(tiers, registry, managerOf, v)
    requires race.result == Favouring(Dedupe(race.relays), u, v, managerOf) && race.result.winner.Some?
    ensures Selected(registry, race.result).Some?
  {
    var w := race.result.winner.value;
    WinnerIsKnown(tiers, sliceSize, log, race);
    var i :| 0 <= i < |tiers| && w.relay in tiers[i];
    assert w.relay.url == u || w.relay.url == v;
    assert i == 0 ==> w.relay.url in UrlsOf(tiers[0]);
  }

  /** After such a race, both URLs still are, or have become, returned. */
  lemma FavouringKeepsBothPossible(
    registry: seq<RelayInfo>, log: seq<Race>, race: Race, u: string, v: string, managerOf: string -> Address)
    requires race.result.winner.Some? ==> Selected(registry, race.result).Some?
    requires race.result == Favouring(Dedupe(race.relays), u, v, managerOf)
    requires StillPossible(registry, log, u) && StillPossible(registry, log, v)
    ensures StillPossible(registry, log + [race], u) && StillPossible(registry, log + [race], v)
  {
    PicksGrow(registry, log, race);
    assert (log + [race])[..|log|] == log;
    var pick := Selected(registry, race.result);
    assert forall p :: p in Picks(registry, log) ==> p in Picks(registry, log + [race]);
    if race.result.winner.Some? {
      assert pick.Some? && pick.value in Picks(registry, log + [race]);
      assert pick.value.relay.url == race.result.winner.value.relay.url;
    }
  }

  /** Runs on until both have been returned. */
  lemma {:induction false} RunUntilBothReturned(
    tiers: seq<seq<RelayInfo>>, sliceSize: nat, registry: seq<RelayInfo>, managerOf: string -> Address,
    log: seq<Race>, u: string, v: string)
    returns (end: seq<Race>)
    requires sliceSize > 0 && PreferredComeFirst(tiers) && IsTwoUrlsOfOneRelay(tiers, registry, managerOf, u, v)
    requires IsLog(tiers, sliceSize, log) && IsAnswered(log, managerOf)
    requires StillPossible(registry, log, u) && StillPossible(registry, log, v)
    ensures IsLog(tiers, sliceSize, end) && IsAnswered(end, managerOf)
    ensures u in PickedUrls(registry, end) && v in PickedUrls(registry, end)
    decreases |UrlsOfTiers(tiers)| - |log|
  {
    if u in PickedUrls(registry, log) && v in PickedUrls(registry, log) {
      end := log;
    } else {
      var next := OneMoreRace(tiers, sliceSize, registry, managerOf, log, u, v);
      end := RunUntilBothReturned(tiers, sliceSize, registry, managerOf, next, u, v);
    }
  }

  lemma OneMoreRace(
    tiers: seq<seq<RelayInfo>>, sliceSize: nat, registry: seq<RelayInfo>, managerOf: string -> Address,
    log: seq<Race>, u: string, v: string)
    returns (next: seq<Race>)
    requires sliceSize > 0 && PreferredComeFirst(tiers) && IsTwoUrlsOfOneRelay(tiers, registry, managerOf, u, v)
    requires IsLog(tiers, sliceSize, log) && IsAnswered(log, managerOf)
    requires StillPossible(registry, log, u) && StillPossible(registry, log, v)
    requires u !in PickedUrls(registry, log) || v !in PickedUrls(registry, log)
    ensures |next| == |log| + 1 <= |UrlsOfTiers(tiers)|
    ensures IsLog(tiers, sliceSize, next) && IsAnswered(next, managerOf)
    ensures StillPossible(registry, next, u) && StillPossible(registry, next, v)
  {
    OneIsUnsettled(registry, log, u, v);
    var race := FavouringIsARace(tiers, sliceSize, log, u, v, managerOf);
    next := log + [race];
    LogGrows(tiers, sliceSize, log, race);
    AnsweredOnceMore(log, race, managerOf);
    if race.result.winner.Some? {
      FavouredIsSelected(tiers, sliceSize, registry, log, race, u, v, managerOf);
    }
    FavouringKeepsBothPossible(registry, log, race, u, v, managerOf);
    RacesAreBounded(tiers, sliceSize, next);
  }

  lemma AnsweredOnceMore(log: seq<Race>, race: Race, managerOf: string -> Address)
    requires IsAnswered(log, managerOf) && WinnerNames(race, managerOf)
    ensures IsAnswered(log + [race], managerOf)
  {
  }

  /** One of the URLs is still unsettled, as long as not both have been returned. */
  lemma OneIsUnsettled(registry: seq<RelayInfo>, log: seq<Race>, u: string, v: string)
    requires StillPossible(registry, log, u) && StillPossible(registry, log, v)
    requires u !in PickedUrls(registry, log) || v !in PickedUrls(registry, log)
    ensures u !in Settled(log) || v !in Settled(log)
  {
  }

  /**
   A run can return one relay twice if and only if the client knows a relay under two URLs under which it can be
   returned. (When a preferred URL is not the registered one of the same relay, it does.)
   */
  lemma RelayReturnedTwiceIffKnownTwice(
    tiers: seq<seq<RelayInfo>>, sliceSize: nat, registry: seq<RelayInfo>, managerOf: string -> Address)
    requires sliceSize > 0 && PreferredComeFirst(tiers)
    ensures SomeRunReturnsRelayTwice(tiers, sliceSize, registry, managerOf)
       <==> KnowsRelayTwice(tiers, registry, managerOf)
  {
    if log :| IsLog(tiers, sliceSize, log) && IsAnswered(log, managerOf) && ReturnsRelayTwice(registry, log) {
      ReturnedTwiceIsKnownTwice(tiers, sliceSize, registry, managerOf, log);
    }
    if u, v :| IsTwoUrlsOfOneRelay(tiers, registry, managerOf, u, v) {
      var log := RunUntilBothReturned(tiers, sliceSize, registry, managerOf, [], u, v);
      BothReturnedIsTwice(tiers, sliceSize, registry, managerOf, log, u, v);
    }
  }

  lemma ReturnedTwiceIsKnownTwice(
    tiers: seq<seq<RelayInfo>>, sliceSize: nat, registry: seq<RelayInfo>, managerOf: string -> Address, log: seq<Race>)
    requires PreferredComeFirst(tiers)
    requires IsLog(tiers, sliceSize, log) && IsAnswered(log, managerOf) && ReturnsRelayTwice(registry, log)
    ensures KnowsRelayTwice(tiers, registry, managerOf)
  {
    var picks := Picks(registry, log);
    var i, j :| 0 <= i < j < |picks| && SameManager(picks, i, j);
    PicksAreKnown(tiers, sliceSize, registry, managerOf, log, picks[i]);
    PicksAreKnown(tiers, sliceSize, registry, managerOf, log, picks[j]);
    EveryUrlIsInOnePlace(tiers, sliceSize, registry, log);
    assert IsTwoUrlsOfOneRelay(tiers, registry, managerOf, picks[i].relay.url, picks[j].relay.url);
  }

  lemma BothReturnedIsTwice(
    tiers: seq<seq<RelayInfo>>, sliceSize: nat, registry: seq<RelayInfo>, managerOf: string -> Address,
    log: seq<Race>, u: string, v: string)
    requires PreferredComeFirst(tiers) && u != v && managerOf(u) == managerOf(v)
    requires IsLog(tiers, sliceSize, log) && IsAnswered(log, managerOf)
    requires u in PickedUrls(registry, log) && v in PickedUrls(registry, log)
    ensures ReturnsRelayTwice(registry, log)
  {
    var picks := Picks(registry, log);
    var p: PingedRelay :| p in picks && p.relay.url == u;
    var q: PingedRelay :| q in picks && q.relay.url == v;
    PicksAreKnown(tiers, sliceSize, registry, managerOf, log, p);
    PicksAreKnown(tiers, sliceSize, registry, managerOf, log, q);
    var i :| 0 <= i < |picks| && picks[i] == p;
    var j :| 0 <= j < |picks| && picks[j] == q;
    assert if i < j then SameManager(picks, i, j) else SameManager(picks, j, i);
  }
}
