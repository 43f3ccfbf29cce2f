/**
 `RelaySelectionManager.ts`: the order in which known relays are pinged, and what becomes of each of them.
 What one race of pings can end with is `RaceOutcome`; that it holds of every resolved race is `RaceHasOutcome`.
 */
module RelaySelection {
  import opened Sequences
  import opened Wrappers
  import opened StoredTransactions
  import W = WaitForSuccess

  /** A relay that comes from a registration event has a manager; a preferred one is only a URL. */
  datatype RelayInfo = RelayInfo(url: string, manager: Option<Address>)

  /** A relay that answered the ping, with the manager its answer names. */
  datatype PingedRelay = PingedRelay(relay: RelayInfo, manager: Address)

  datatype RaceResult = RaceResult(winner: Option<PingedRelay>, errors: map<string, string>)

  /** One race: the slice it was run for and how it ended. */
  datatype Race = Race(relays: seq<RelayInfo>, result: RaceResult)

  function UrlsOf(relays: seq<RelayInfo>): set<string> {
    set r | r in relays :: r.url
  }

  function UrlsOfTiers(tiers: seq<seq<RelayInfo>>): set<string> {
    set i, r | 0 <= i < |tiers| && r in tiers[i] :: r.url
  }

  // ---------- One race ----------

  function UrlList(relays: seq<RelayInfo>): seq<string> {
    seq(|relays|, i requires 0 <= i < |relays| => relays[i].url)
  }

  /** Collecting in a `Map`: a URL keeps its first place and its last value. */
  function Dedupe(relays: seq<RelayInfo>): seq<RelayInfo> {
    if relays == [] then []
    else
      var rest, last := Dedupe(relays[..|relays| - 1]), relays[|relays| - 1];
      if last.url in UrlsOf(rest) then
        seq(|rest|, i requires 0 <= i < |rest| => if rest[i].url == last.url then last else rest[i])
      else rest + [last]
  }

  /** The keys of the race are always distinct, no URL is lost and none is made up. */
  lemma {:induction false} DedupeGivesDistinctKeys(relays: seq<RelayInfo>)
    ensures Distinct(UrlList(Dedupe(relays)))
    ensures UrlsOf(Dedupe(relays)) == UrlsOf(relays)
    ensures forall r :: r in Dedupe(relays) ==> r in relays
  {
    if relays != [] {
      var n := |relays| - 1;
      var rest, last := Dedupe(relays[..n]), relays[n];
      DedupeGivesDistinctKeys(relays[..n]);
      assert relays == relays[..n] + [last];
      assert UrlsOf(relays) == UrlsOf(relays[..n]) + {last.url};
      if last.url in UrlsOf(rest) {
        LastReplaces(rest, last, Dedupe(relays));
      } else {
        LastIsAdded(rest, last);
      }
    }
  }

  /** Of the entries with one URL the last one is raced. */
  lemma {:induction false} DedupeKeepsLast(relays: seq<RelayInfo>, i: nat)
    requires i < |relays| && forall j :: i < j < |relays| ==> relays[j].url != relays[i].url
    ensures relays[i] in Dedupe(relays)
  {
    var n := |relays| - 1;
    var rest, last := Dedupe(relays[..n]), relays[n];
    if i < n {
      DedupeKeepsLast(relays[..n], i);
      var k :| 0 <= k < |rest| && rest[k] == relays[i];
      assert Dedupe(relays)[k] == relays[i];
    } else if last.url in UrlsOf(rest) {
      var k :| 0 <= k < |rest| && rest[k].url == last.url;
      assert Dedupe(relays)[k] == last;
    }
  }

  lemma LastReplaces(rest: seq<RelayInfo>, last: RelayInfo, all: seq<RelayInfo>)
    requires |all| == |rest|
    requires forall i :: 0 <= i < |rest| ==> all[i] == if rest[i].url == last.url then last else rest[i]
    ensures UrlList(all) == UrlList(rest) && UrlsOf(all) == UrlsOf(rest)
    ensures forall r :: r in all ==> r == last || r in rest
  {
    assert UrlList(all) == UrlList(rest);
    SameUrls(all, rest);
  }

  lemma LastIsAdded(rest: seq<RelayInfo>, last: RelayInfo)
    requires Distinct(UrlList(rest)) && last.url !in UrlsOf(rest)
    ensures Distinct(UrlList(rest + [last])) && UrlsOf(rest + [last]) == UrlsOf(rest) + {last.url}
  {
    var keys := UrlList(rest);
    assert UrlList(rest + [last]) == keys + [last.url];
    forall j | 0 <= j < |keys|
      ensures keys[j] != last.url
    {
      assert rest[j] in rest;
    }
    DistinctAppend(keys, last.url);
  }

  lemma SameUrls(a: seq<RelayInfo>, b: seq<RelayInfo>)
    requires UrlList(a) == UrlList(b)
    ensures UrlsOf(a) == UrlsOf(b)
  {
    UrlListHasUrls(a);
    UrlListHasUrls(b);
  }

  lemma UrlListHasUrls(relays: seq<RelayInfo>)
    ensures W.Urls(UrlList(relays)) == UrlsOf(relays)
  {
    forall u | u in UrlsOf(relays)
      ensures u in UrlList(relays)
    {
      var i :| 0 <= i < |relays| && relays[i].url == u;
      assert UrlList(relays)[i] == u;
    }
    forall u | u in UrlList(relays)
      ensures u in UrlsOf(relays)
    {
      var i :| 0 <= i < |relays| && UrlList(relays)[i] == u;
      assert relays[i] in relays;
    }
  }

  /** What a resolved race among `relays` can have come to. */
  ghost predicate RaceOutcome(relays: seq<RelayInfo>, result: RaceResult) {
    && result.errors.Keys <= UrlsOf(relays)
    && match result.winner
       case Some(w) => w.relay in relays && w.relay.url !in result.errors
       case None => result.errors.Keys == UrlsOf(relays)
  }

  /** `waitForSuccess`, resolved at any point of any order of its events, has such an outcome. */
  lemma RaceHasOutcome(relays: seq<RelayInfo>, races: seq<W.Race>, events: seq<W.Event>, i: nat, result: RaceResult)
    requires Distinct(UrlList(relays))
    requires W.IsRace(UrlList(relays), races, events) && i < |races| && races[i].resolved
    requires result.errors.Keys == races[i].errors.Keys
    requires races[i].winner.None? ==> result.winner.None?
    requires races[i].winner.Some? && races[i].winner.value < |relays| ==>
               result.winner.Some? && result.winner.value.relay == relays[races[i].winner.value]
    ensures RaceOutcome(relays, result)
  {
    W.RaceGuarantees(UrlList(relays), races, events, i);
    UrlListHasUrls(relays);
  }

  // ---------- Many races ----------

  /** The relays of one tier whose URL is not among `gone`, in order. */
  function Left(relays: seq<RelayInfo>, gone: set<string>): seq<RelayInfo> {
    if relays == [] then []
    else (if relays[0].url in gone then [] else [relays[0]]) + Left(relays[1..], gone)
  }

  function LeftTiers(tiers: seq<seq<RelayInfo>>, gone: set<string>): (left: seq<seq<RelayInfo>>)
    ensures |left| == |tiers|
    ensures forall i :: 0 <= i < |tiers| ==> left[i] == Left(tiers[i], gone)
  {
    seq(|tiers|, i requires 0 <= i < |tiers| => Left(tiers[i], gone))
  }

  function Min(a: nat, b: nat): nat {
    if a < b then a else b
  }

  function NextSlice(tiers: seq<seq<RelayInfo>>, sliceSize: nat): seq<RelayInfo> {
    if tiers == [] then []
    else
      var slice := tiers[0][..Min(sliceSize, |tiers[0]|)];
      if slice == [] then NextSlice(tiers[1..], sliceSize) else slice
  }

  function SettledBy(result: RaceResult): set<string> {
    result.errors.Keys + (if result.winner.Some? then {result.winner.value.relay.url} else {})
  }

  /** The URLs that won or failed one of the races. */
  function Settled(log: seq<Race>): set<string> {
    if log == [] then {} else Settled(log[..|log| - 1]) + SettledBy(log[|log| - 1].result)
  }

  function PingErrors(log: seq<Race>): map<string, string> {
    if log == [] then map[] else PingErrors(log[..|log| - 1]) + log[|log| - 1].result.errors
  }

  ghost predicate IsRaceOf(initial: seq<seq<RelayInfo>>, sliceSize: nat, before: seq<Race>, race: Race) {
    && race.relays == NextSlice(LeftTiers(initial, Settled(before)), sliceSize)
    && race.relays != []
    && RaceOutcome(Dedupe(race.relays), race.result)
  }

  /** `log` lists the races of a run that started with the tiers `initial`. */
  ghost predicate IsLog(initial: seq<seq<RelayInfo>>, sliceSize: nat, log: seq<Race>) {
    forall k :: 0 <= k < |log| ==> RaceAt(initial, sliceSize, log, k)
  }

  ghost predicate RaceAt(initial: seq<seq<RelayInfo>>, sliceSize: nat, log: seq<Race>, k: nat)
    requires k < |log|
  {
    IsRaceOf(initial, sliceSize, log[..k], log[k])
  }

  lemma LogBeforeLast(initial: seq<seq<RelayInfo>>, sliceSize: nat, log: seq<Race>)
    requires IsLog(initial, sliceSize, log) && log != []
    ensures IsLog(initial, sliceSize, log[..|log| - 1])
    ensures IsRaceOf(initial, sliceSize, log[..|log| - 1], log[|log| - 1])
  {
    var n := |log| - 1;
    assert RaceAt(initial, sliceSize, log, n);
    forall k | 0 <= k < n
      ensures RaceAt(initial, sliceSize, log[..n], k)
    {
      assert RaceAt(initial, sliceSize, log, k);
      assert log[..n][..k] == log[..k];
    }
  }

  lemma {:induction false} LeftIsFilter(relays: seq<RelayInfo>, gone: set<string>)
    ensures forall r :: r in Left(relays, gone) <==> r in relays && r.url !in gone
    ensures |Left(relays, gone)| <= |relays|
  {
    if relays != [] {
      LeftIsFilter(relays[1..], gone);
      assert relays == [relays[0]] + relays[1..];
    }
  }

  lemma {:induction false} FilteringTwice(relays: seq<RelayInfo>, a: set<string>, b: set<string>)
    ensures Left(Left(relays, a), b) == Left(relays, a + b)
  {
    if relays != [] {
      FilteringTwice(relays[1..], a, b);
      if relays[0].url !in a {
        assert Left(relays, a)[0] == relays[0] && Left(relays, a)[1..] == Left(relays[1..], a);
      } else {
        assert Left(relays, a) == Left(relays[1..], a);
        assert Left(relays, a + b) == Left(relays[1..], a + b);
      }
    }
  }

  lemma {:induction false} SettledGrows(log: seq<Race>, i: nat, j: nat)
    requires i <= j <= |log|
    ensures Settled(log[..i]) <= Settled(log[..j])
    ensures i < j ==> SettledBy(log[i].result) <= Settled(log[..j])
  {
    if i < j {
      assert log[..j][..j - 1] == log[..j - 1];
      if i < j - 1 {
        SettledGrows(log, i, j - 1);
      }
    }
  }

  /** The next slice: the head of the first tier that is not empty. */
  lemma {:induction false} NextSliceIsHeadOfFirstTier(tiers: seq<seq<RelayInfo>>, sliceSize: nat)
    returns (tier: nat)
    requires sliceSize > 0
    ensures tier <= |tiers| && forall i :: 0 <= i < tier ==> tiers[i] == []
    ensures var slice := NextSlice(tiers, sliceSize);
      if tier < |tiers| then slice != [] && slice == tiers[tier][..Min(sliceSize, |tiers[tier]|)] else slice == []
  {
    if tiers == [] {
      tier := 0;
    } else if tiers[0] != [] {
      tier := 0;
    } else {
      var next := NextSliceIsHeadOfFirstTier(tiers[1..], sliceSize);
      tier := next + 1;
    }
  }

  lemma {:induction false} NoSliceOfSizeZero(tiers: seq<seq<RelayInfo>>)
    ensures NextSlice(tiers, 0) == []
  {
    if tiers != [] {
      NoSliceOfSizeZero(tiers[1..]);
    }
  }

  lemma {:induction false} SliceIsFromTiers(tiers: seq<seq<RelayInfo>>, sliceSize: nat, r: RelayInfo)
    requires r in NextSlice(tiers, sliceSize)
    ensures exists i :: 0 <= i < |tiers| && r in tiers[i]
  {
    var slice := tiers[0][..Min(sliceSize, |tiers[0]|)];
    if slice == [] {
      SliceIsFromTiers(tiers[1..], sliceSize, r);
      var i :| 0 <= i < |tiers[1..]| && r in tiers[1..][i];
      assert r in tiers[i + 1];
    } else {
      assert r in slice;
      assert r in tiers[0];
    }
  }

  /** A race only pings relays known from the start that no earlier race has settled. */
  lemma RacesPingUnsettledRelays(initial: seq<seq<RelayInfo>>, sliceSize: nat, before: seq<Race>, race: Race)
    requires IsRaceOf(initial, sliceSize, before, race)
    ensures UrlsOf(race.relays) <= UrlsOfTiers(initial) - Settled(before)
    ensures SettledBy(race.result) <= UrlsOf(race.relays) && SettledBy(race.result) != {}
  {
    var left := LeftTiers(initial, Settled(before));
    forall r | r in race.relays
      ensures r.url in UrlsOfTiers(initial) - Settled(before)
    {
      SliceIsFromTiers(left, sliceSize, r);
      var i :| 0 <= i < |left| && r in left[i];
      LeftIsFilter(initial[i], Settled(before));
    }
    DedupeGivesDistinctKeys(race.relays);
    assert race.relays[0].url in UrlsOf(race.relays);
  }

  /** Nothing is settled twice, and no settled URL is ever pinged again. */
  lemma NoUrlIsPingedAgain(initial: seq<seq<RelayInfo>>, sliceSize: nat, log: seq<Race>, i: nat, j: nat)
    requires IsLog(initial, sliceSize, log) && i < j < |log|
    ensures SettledBy(log[i].result) !! UrlsOf(log[j].relays)
    ensures SettledBy(log[i].result) !! SettledBy(log[j].result)
  {
    SettledGrows(log, i, j);
    assert RaceAt(initial, sliceSize, log, j);
    RacesPingUnsettledRelays(initial, sliceSize, log[..j], log[j]);
  }

  /** A relay of some tier is pinged only when every relay of all the tiers before has won or failed. */
  lemma TiersAreExhaustedInOrder(initial: seq<seq<RelayInfo>>, sliceSize: nat, log: seq<Race>, k: nat)
    returns (tier: nat)
    requires IsLog(initial, sliceSize, log) && k < |log|
    ensures tier < |initial| && forall r :: r in log[k].relays ==> r in initial[tier]
    ensures forall i, r :: 0 <= i < tier && r in initial[i] ==> r.url in Settled(log[..k])
  {
    assert RaceAt(initial, sliceSize, log, k);
    var gone := Settled(log[..k]);
    var left := LeftTiers(initial, gone);
    if sliceSize == 0 {
      NoSliceOfSizeZero(left);
    }
    tier := NextSliceIsHeadOfFirstTier(left, sliceSize);
    LeftIsFilter(initial[tier], gone);
    forall i, r | 0 <= i < tier && r in initial[i]
      ensures r.url in gone
    {
      LeftIsFilter(initial[i], gone);
      assert left[i] == [];
    }
  }

  /** Every race settles at least one new URL, so there are never more races than URLs. */
  lemma {:induction false} RacesAreBounded(initial: seq<seq<RelayInfo>>, sliceSize: nat, log: seq<Race>)
    requires IsLog(initial, sliceSize, log)
    ensures Settled(log) <= UrlsOfTiers(initial)
    ensures |log| <= |Settled(log)| <= |UrlsOfTiers(initial)|
  {
    if log != [] {
      var n := |log| - 1;
      var before := log[..n];
      LogBeforeLast(initial, sliceSize, log);
      RacesAreBounded(initial, sliceSize, before);
      RacesPingUnsettledRelays(initial, sliceSize, before, log[n]);
      var newlySettled := SettledBy(log[n].result);
      DisjointSize(Settled(before), newlySettled);
    }
    SubsetSize(Settled(log), UrlsOfTiers(initial));
  }

  lemma {:induction false} SubsetSize<T>(a: set<T>, b: set<T>)
    requires a <= b
    ensures |a| <= |b|
  {
    if a != {} {
      var x :| x in a;
      SubsetSize(a - {x}, b - {x});
    }
  }

  lemma DisjointSize<T>(a: set<T>, b: set<T>)
    requires a !! b
    ensures |a + b| == |a| + |b|
  {
  }

  // ---------- What becomes of each relay ----------

  /** The registration of a manager, if any. */
  function FindManager(registry: seq<RelayInfo>, manager: Address): Option<RelayInfo> {
    if registry == [] then None
    else if registry[0].manager == Some(manager) then Some(registry[0])
    else FindManager(registry[1..], manager)
  }

  lemma {:induction false} FoundExactly(registry: seq<RelayInfo>, manager: Address)
    ensures FindManager(registry, manager).None? <==>
      forall i :: 0 <= i < |registry| ==> registry[i].manager != Some(manager)
    ensures forall i: nat :: IsFirstOf(registry, manager, i) ==> FindManager(registry, manager) == Some(registry[i])
  {
    if registry != [] {
      var rest := registry[1..];
      FoundExactly(rest, manager);
      assert registry == [registry[0]] + rest;
      forall i: nat | IsFirstOf(registry, manager, i) && i > 0
        ensures registry[0].manager != Some(manager) && IsFirstOf(rest, manager, i - 1)
      {
      }
    }
  }

  predicate IsFirstOf(registry: seq<RelayInfo>, manager: Address, i: nat) {
    && i < |registry| && registry[i].manager == Some(manager)
    && forall j :: 0 <= j < i ==> registry[j].manager != Some(manager)
  }

  /**
   What a race selects. A winner from a registration event is returned as it is; a preferred one only if the manager
   it names is registered, as the first entry of that manager under the URL that won.
   */
  lemma SelectedExactly(registry: seq<RelayInfo>, result: RaceResult)
    ensures result.winner.None? ==> Selected(registry, result) == None
    ensures result.winner.Some? && result.winner.value.relay.manager.Some? ==>
      Selected(registry, result) == result.winner
    ensures result.winner.Some? && result.winner.value.relay.manager.None? ==>
      var w := result.winner.value;
      && (Selected(registry, result).None? <==>
            forall i :: 0 <= i < |registry| ==> registry[i].manager != Some(w.manager))
      && forall i: nat :: IsFirstOf(registry, w.manager, i) ==>
           Selected(registry, result) ==
             Some(PingedRelay(RelayInfo(w.relay.url, registry[i].manager), w.manager))
  {
    if result.winner.Some? {
      FoundExactly(registry, result.winner.value.manager);
    }
  }

  /** The relay a race selects: a preferred relay must turn out to be registered, and keeps its own URL. */
  function Selected(registry: seq<RelayInfo>, result: RaceResult): Option<PingedRelay> {
    match result.winner
    case None => None
    case Some(w) =>
      if w.relay.manager.Some? then Some(w)
      else match FindManager(registry, w.manager)
        case Some(info) => Some(PingedRelay(info.(url := w.relay.url), w.manager))
        case None => None
  }

  /** All relays selected so far, in order. */
  function Picks(registry: seq<RelayInfo>, log: seq<Race>): seq<PingedRelay> {
    if log == [] then []
    else
      var pick := Selected(registry, log[|log| - 1].result);
      Picks(registry, log[..|log| - 1]) + (if pick.Some? then [pick.value] else [])
  }

  function PickedUrls(registry: seq<RelayInfo>, log: seq<Race>): set<string> {
    set p | p in Picks(registry, log) :: p.relay.url
  }

  /** Winners dropped because nobody registered their manager. */
  function Dropped(registry: seq<RelayInfo>, log: seq<Race>): set<string> {
    if log == [] then {}
    else
      var last := log[|log| - 1].result;
      Dropped(registry, log[..|log| - 1])
      + (if last.winner.Some? && Selected(registry, last).None? then {last.winner.value.relay.url} else {})
  }

  function Failed(log: seq<Race>): set<string> {
    PingErrors(log).Keys
  }

  function LeftUrls(initial: seq<seq<RelayInfo>>, log: seq<Race>): set<string> {
    UrlsOfTiers(LeftTiers(initial, Settled(log)))
  }

  lemma LeftIsTheUnsettledRest(initial: seq<seq<RelayInfo>>, gone: set<string>)
    ensures UrlsOfTiers(LeftTiers(initial, gone)) == UrlsOfTiers(initial) - gone
  {
    var left := LeftTiers(initial, gone);
    forall u | u in UrlsOfTiers(left)
      ensures u in UrlsOfTiers(initial) - gone
    {
      var i: int, r: RelayInfo :| 0 <= i < |left| && r in left[i] && r.url == u;
      LeftIsFilter(initial[i], gone);
    }
    forall u | u in UrlsOfTiers(initial) - gone
      ensures u in UrlsOfTiers(left)
    {
      var i: int, r: RelayInfo :| 0 <= i < |initial| && r in initial[i] && r.url == u;
      LeftIsFilter(initial[i], gone);
      assert r in left[i];
    }
  }

  /**
   Conservation: at every point of every run each URL known from the start is in exactly one place. It is still
   left, was selected, failed its ping, or was dropped as unregistered. No URL is selected twice.
   */
  lemma EveryUrlIsInOnePlace(
    initial: seq<seq<RelayInfo>>, sliceSize: nat, registry: seq<RelayInfo>, log: seq<Race>)
    requires IsLog(initial, sliceSize, log)
    ensures Partition(UrlsOfTiers(initial),
      LeftUrls(initial, log), PickedUrls(registry, log), Failed(log), Dropped(registry, log))
    ensures PicksAreDistinct(Picks(registry, log))
  {
    SettledPlaces(initial, sliceSize, registry, log);
    RacesAreBounded(initial, sliceSize, log);
    LeftIsTheUnsettledRest(initial, Settled(log));
    SplitOff(UrlsOfTiers(initial), Settled(log), LeftUrls(initial, log),
             PickedUrls(registry, log), Failed(log), Dropped(registry, log));
  }

  /** The four sets are disjoint and together make up `all`. */
  ghost predicate Partition(all: set<string>, a: set<string>, b: set<string>, c: set<string>, d: set<string>) {
    all == a + b + c + d && a !! b && a !! c && a !! d && b !! c && b !! d && c !! d
  }

  lemma SplitOff(all: set<string>, settled: set<string>, a: set<string>, b: set<string>, c: set<string>, d: set<string>)
    requires settled <= all && a == all - settled
    requires settled == b + c + d && b !! c && b !! d && c !! d
    ensures Partition(all, a, b, c, d)
  {
  }

  ghost predicate PlacesAreExclusive(registry: seq<RelayInfo>, log: seq<Race>) {
    var picked, failed, dropped := PickedUrls(registry, log), Failed(log), Dropped(registry, log);
    && Settled(log) == picked + failed + dropped
    && picked !! failed && picked !! dropped && failed !! dropped
  }

  ghost predicate PicksAreDistinct(picks: seq<PingedRelay>) {
    forall i, j :: 0 <= i < j < |picks| ==> picks[i].relay.url != picks[j].relay.url
  }

  lemma {:induction false} SettledPlaces(
    initial: seq<seq<RelayInfo>>, sliceSize: nat, registry: seq<RelayInfo>, log: seq<Race>)
    requires IsLog(initial, sliceSize, log)
    ensures PlacesAreExclusive(registry, log) && PicksAreDistinct(Picks(registry, log))
  {
    if log == [] {
      NothingPlacedYet(registry);
    } else {
      var n := |log| - 1;
      var before, race := log[..n], log[n];
      LogBeforeLast(initial, sliceSize, log);
      SettledPlaces(initial, sliceSize, registry, before);
      assert log == before + [race];
      RaceSettlesNewUrls(initial, sliceSize, before, race);
      NewPlaces(registry, log, before, race);
    }
  }

  lemma RaceSettlesNewUrls(initial: seq<seq<RelayInfo>>, sliceSize: nat, before: seq<Race>, race: Race)
    requires IsRaceOf(initial, sliceSize, before, race)
    ensures SettledBy(race.result) !! Settled(before)
    ensures race.result.winner.Some? ==> race.result.winner.value.relay.url !in race.result.errors
  {
    RacesPingUnsettledRelays(initial, sliceSize, before, race);
  }

  lemma NothingPlacedYet(registry: seq<RelayInfo>)
    ensures PlacesAreExclusive(registry, []) && PicksAreDistinct(Picks(registry, []))
  {
    assert PickedUrls(registry, []) == {} && Failed([]) == {} && Dropped(registry, []) == {};
  }

  function PickList(pick: Option<PingedRelay>): seq<PingedRelay> {
    if pick.Some? then [pick.value] else []
  }

  lemma PicksGrow(registry: seq<RelayInfo>, before: seq<Race>, race: Race)
    ensures Picks(registry, before + [race]) == Picks(registry, before) + PickList(Selected(registry, race.result))
  {
    assert (before + [race])[..|before|] == before;
  }

  lemma NewPlaces(registry: seq<RelayInfo>, log: seq<Race>, before: seq<Race>, race: Race)
    requires log == before + [race] && SettledBy(race.result) !! Settled(before)
    requires race.result.winner.Some? ==> race.result.winner.value.relay.url !in race.result.errors
    requires PlacesAreExclusive(registry, before) && PicksAreDistinct(Picks(registry, before))
    ensures PlacesAreExclusive(registry, log) && PicksAreDistinct(Picks(registry, log))
  {
    assert log[..|log| - 1] == before && log[|log| - 1] == race;
    PicksGrow(registry, before, race);
    var pick := Selected(registry, race.result);
    assert Failed(log) == Failed(before) + race.result.errors.Keys;
    if pick.Some? {
      var url := race.result.winner.value.relay.url;
      NewPick(registry, log, before, pick.value, url);
      assert Dropped(registry, log) == Dropped(registry, before);
    } else {
      assert Picks(registry, log) == Picks(registry, before);
    }
  }

  lemma NewPick(registry: seq<RelayInfo>, log: seq<Race>, before: seq<Race>, pick: PingedRelay, url: string)
    requires pick.relay.url == url && url !in PickedUrls(registry, before)
    requires Picks(registry, log) == Picks(registry, before) + [pick]
    requires PicksAreDistinct(Picks(registry, before))
    ensures PicksAreDistinct(Picks(registry, log)) && PickedUrls(registry, log) == PickedUrls(registry, before) + {url}
  {
    assert forall p :: p in Picks(registry, before) ==> p.relay.url in PickedUrls(registry, before);
  }

  // ---------- Races make the tiers shorter ----------

  function Flat(tiers: seq<seq<RelayInfo>>): seq<RelayInfo> {
    if tiers == [] then [] else Flat(tiers[..|tiers| - 1]) + tiers[|tiers| - 1]
  }

  lemma {:induction false} NothingGone(relays: seq<RelayInfo>)
    ensures Left(relays, {}) == relays
  {
    if relays != [] {
      NothingGone(relays[1..]);
    }
  }

  lemma {:induction false} FewerLeft(relays: seq<RelayInfo>, a: set<string>, b: set<string>)
    requires a <= b
    ensures |Left(relays, b)| <= |Left(relays, a)|
    ensures (exists r :: r in relays && r.url in b && r.url !in a) ==> |Left(relays, b)| < |Left(relays, a)|
  {
    if relays != [] {
      FewerLeft(relays[1..], a, b);
    }
  }

  lemma {:induction false} FewerLeftInAll(tiers: seq<seq<RelayInfo>>, a: set<string>, b: set<string>)
    requires a <= b
    ensures |Flat(LeftTiers(tiers, b))| <= |Flat(LeftTiers(tiers, a))|
    ensures (exists u :: u in UrlsOfTiers(tiers) && u in b && u !in a) ==>
              |Flat(LeftTiers(tiers, b))| < |Flat(LeftTiers(tiers, a))|
  {
    if tiers != [] {
      var n := |tiers| - 1;
      FewerLeftInAll(tiers[..n], a, b);
      FewerLeft(tiers[n], a, b);
      LeftButLast(tiers, a);
      LeftButLast(tiers, b);
      if u :| u in UrlsOfTiers(tiers) && u in b && u !in a {
        var i: int, r: RelayInfo :| 0 <= i < |tiers| && r in tiers[i] && r.url == u;
        if i < n {
          assert r in tiers[..n][i];
          assert u in UrlsOfTiers(tiers[..n]);
        }
      }
    }
  }

  lemma LeftButLast(tiers: seq<seq<RelayInfo>>, gone: set<string>)
    requires tiers != []
    ensures var n := |tiers| - 1;
      Flat(LeftTiers(tiers, gone)) == Flat(LeftTiers(tiers[..n], gone)) + Left(tiers[n], gone)
  {
    var n := |tiers| - 1;
    assert LeftTiers(tiers, gone)[..n] == LeftTiers(tiers[..n], gone);
  }

  lemma LogGrows(initial: seq<seq<RelayInfo>>, sliceSize: nat, log: seq<Race>, race: Race)
    requires IsLog(initial, sliceSize, log) && IsRaceOf(initial, sliceSize, log, race)
    ensures IsLog(initial, sliceSize, log + [race])
  {
    var log' := log + [race];
    forall k | 0 <= k < |log'|
      ensures RaceAt(initial, sliceSize, log', k)
    {
      if k < |log| {
        assert RaceAt(initial, sliceSize, log, k);
        assert log'[..k] == log[..k];
      } else {
        assert log'[..k] == log;
      }
    }
  }

  lemma RaceShrinksTiers(initial: seq<seq<RelayInfo>>, sliceSize: nat, log: seq<Race>, race: Race)
    requires IsRaceOf(initial, sliceSize, log, race)
    ensures LeftTiers(initial, Settled(log + [race])) == LeftTiers(LeftTiers(initial, Settled(log)), SettledBy(race.result))
    ensures |Flat(LeftTiers(initial, Settled(log + [race])))| < |Flat(LeftTiers(initial, Settled(log)))|
  {
    var log' := log + [race];
    assert log'[..|log|] == log;
    forall i | 0 <= i < |initial|
      ensures Left(initial[i], Settled(log')) == Left(Left(initial[i], Settled(log)), SettledBy(race.result))
    {
      FilteringTwice(initial[i], Settled(log), SettledBy(race.result));
    }
    RacesPingUnsettledRelays(initial, sliceSize, log, race);
    var u :| u in SettledBy(race.result);
    FewerLeftInAll(initial, Settled(log), Settled(log'));
  }

  /** The reported ping errors are those of the races, each under its URL. */
  lemma {:induction false} PingErrorsExactly(
    initial: seq<seq<RelayInfo>>, sliceSize: nat, log: seq<Race>, k: nat, url: string)
    requires IsLog(initial, sliceSize, log) && k < |log| && url in log[k].result.errors
    ensures url in PingErrors(log) && PingErrors(log)[url] == log[k].result.errors[url]
  {
    var n := |log| - 1;
    if k < n {
      LogBeforeLast(initial, sliceSize, log);
      PingErrorsExactly(initial, sliceSize, log[..n], k, url);
      NoUrlIsPingedAgain(initial, sliceSize, log, k, n);
      assert url in SettledBy(log[k].result) && url !in SettledBy(log[n].result);
    }
  }

  lemma {:induction false} PingErrorsAreOfRaces(log: seq<Race>, url: string)
    requires url in PingErrors(log)
    ensures exists k :: 0 <= k < |log| && url in log[k].result.errors
  {
    var n := |log| - 1;
    if url !in log[n].result.errors {
      PingErrorsAreOfRaces(log[..n], url);
      var k :| 0 <= k < n && url in log[..n][k].result.errors;
      assert url in log[k].result.errors;
    }
  }

  // ---------- The code ----------

  /** `race(n, relays)` is how the race number `n` ends, if it is run for `relays`. */
  ghost predicate EndsAllRaces(race: (nat, seq<RelayInfo>) -> RaceResult) {
    forall n, relays :: Distinct(UrlList(relays)) ==> RaceOutcome(relays, race(n, relays))
  }

  /** `log` continues `before` with races that ended as `race` says. */
  ghost predicate Continues(before: seq<Race>, log: seq<Race>, race: (nat, seq<RelayInfo>) -> RaceResult) {
    before <= log && forall k :: |before| <= k < |log| ==> EndsAs(log, race, k)
  }

  ghost predicate EndsAs(log: seq<Race>, race: (nat, seq<RelayInfo>) -> RaceResult, k: nat)
    requires k < |log|
  {
    log[k].result == race(k, Dedupe(log[k].relays))
  }

  lemma ContinuesOnce(
    before: seq<Race>, log: seq<Race>, race: (nat, seq<RelayInfo>) -> RaceResult, relays: seq<RelayInfo>)
    requires Continues(before, log, race)
    ensures Continues(before, log + [Race(relays, race(|log|, Dedupe(relays)))], race)
  {
    var log' := log + [Race(relays, race(|log|, Dedupe(relays)))];
    forall k | |before| <= k < |log'|
      ensures EndsAs(log', race, k)
    {
      if k < |log| {
        assert EndsAs(log, race, k);
      }
    }
  }

  class RelaySelectionManager {
    const registry: seq<RelayInfo>
    const sliceSize: nat
    var remainingRelays: seq<seq<RelayInfo>>
    var errors: map<string, string>
    var races: nat
    /** The tiers at the start, and all races so far. */
    ghost const initial: seq<seq<RelayInfo>>
    ghost var log: seq<Race>

    ghost predicate Valid()
      reads this
    {
      && IsLog(initial, sliceSize, log)
      && remainingRelays == LeftTiers(initial, Settled(log))
      && errors == PingErrors(log)
      && races == |log|
    }

    constructor (initial: seq<seq<RelayInfo>>, registry: seq<RelayInfo>, sliceSize: nat)
      ensures Valid() && log == [] && remainingRelays == initial
      ensures this.initial == initial && this.registry == registry && this.sliceSize == sliceSize
    {
      this.registry, this.sliceSize, this.initial := registry, sliceSize, initial;
      remainingRelays, errors, races, log := initial, map[], 0, [];
      new;
      forall i | 0 <= i < |initial|
        ensures Left(initial[i], {}) == initial[i]
      {
        NothingGone(initial[i]);
      }
      assert remainingRelays == LeftTiers(initial, {});
    }

    method RelaysLeft() returns (left: seq<RelayInfo>)
      ensures left == Flat(remainingRelays)
    {
      left := [];
      for i := 0 to |remainingRelays|
        invariant left == Flat(remainingRelays[..i])
      {
        assert remainingRelays[..i + 1][..i] == remainingRelays[..i];
        left := left + remainingRelays[i];
      }
      assert remainingRelays[..|remainingRelays|] == remainingRelays;
    }

    method GetNextSlice() returns (slice: seq<RelayInfo>)
      ensures slice == NextSlice(remainingRelays, sliceSize)
    {
      for i := 0 to |remainingRelays|
        invariant NextSlice(remainingRelays, sliceSize) == NextSlice(remainingRelays[i..], sliceSize)
      {
        var relays := remainingRelays[i];
        var bulkSize := Min(sliceSize, |relays|);
        slice := relays[..bulkSize];
        assert remainingRelays[i..][1..] == remainingRelays[i + 1..];
        if |slice| == 0 {
          continue;
        }
        return slice;
      }
      return [];
    }

    /** Drops the winner and all that failed from every tier. */
    method HandleWaitForSuccessResults(result: RaceResult)
      modifies this`errors, this`remainingRelays
      ensures errors == old(errors) + result.errors
      ensures remainingRelays == LeftTiers(old(remainingRelays), SettledBy(result))
    {
      errors := errors + result.errors;
      var tiers := [];
      for i := 0 to |remainingRelays|
        invariant errors == old(errors) + result.errors && remainingRelays == old(remainingRelays)
        invariant tiers == LeftTiers(remainingRelays[..i], SettledBy(result))
      {
        var won := if result.winner.Some? then {result.winner.value.relay.url} else {};
        var kept := Left(Left(remainingRelays[i], won), result.errors.Keys);
        FilteringTwice(remainingRelays[i], won, result.errors.Keys);
        assert won + result.errors.Keys == SettledBy(result);
        tiers := tiers + [kept];
      }
      assert remainingRelays[..|remainingRelays|] == remainingRelays;
      remainingRelays := tiers;
    }

    method FindRegistration(manager: Address) returns (info: Option<RelayInfo>)
      ensures info == FindManager(registry, manager)
    {
      for i := 0 to |registry|
        invariant FindManager(registry, manager) == FindManager(registry[i..], manager)
      {
        assert registry[i..][1..] == registry[i + 1..];
        if registry[i].manager == Some(manager) {
          return Some(registry[i]);
        }
      }
      return None;
    }

    /** One race, for the given slice. */
    method NextRelay(race: (nat, seq<RelayInfo>) -> RaceResult, relays: seq<RelayInfo>)
      returns (selected: Option<PingedRelay>)
      requires Valid() && EndsAllRaces(race)
      requires relays != [] && relays == NextSlice(remainingRelays, sliceSize)
      modifies this
      ensures Valid() && log == old(log) + [Race(relays, race(|old(log)|, Dedupe(relays)))]
      ensures selected == Selected(registry, race(|old(log)|, Dedupe(relays)))
      ensures Picks(registry, log) == Picks(registry, old(log)) + PickList(selected)
      ensures |Flat(remainingRelays)| < |Flat(old(remainingRelays))|
    {
      var raceResult := race(races, Dedupe(relays));
      DedupeGivesDistinctKeys(relays);
      RaceShrinksTiers(initial, sliceSize, log, Race(relays, raceResult));
      LogGrows(initial, sliceSize, log, Race(relays, raceResult));
      PicksGrow(registry, log, Race(relays, raceResult));
      assert (log + [Race(relays, raceResult)])[..|log|] == log;
      HandleWaitForSuccessResults(raceResult);
      races, log := races + 1, log + [Race(relays, raceResult)];
      if raceResult.winner.Some? {
        var winner := raceResult.winner.value;
        if winner.relay.manager.Some? {
          return Some(winner);
        }
        var event := FindRegistration(winner.manager);
        if event.Some? {
          return Some(PingedRelay(event.value.(url := winner.relay.url), winner.manager));
        }
      }
      return None;
    }

    /** Races slice after slice until one selects a relay, or none is left. */
    method SelectNextRelay(race: (nat, seq<RelayInfo>) -> RaceResult) returns (selected: Option<PingedRelay>)
      requires Valid() && EndsAllRaces(race)
      modifies this
      ensures Valid() && Continues(old(log), log, race)
      ensures Picks(registry, log) == Picks(registry, old(log)) + PickList(selected)
      ensures selected.None? ==> NextSlice(remainingRelays, sliceSize) == []
      ensures selected.Some? ==> |Flat(remainingRelays)| < |Flat(old(remainingRelays))|
    {
      while true
        invariant Valid() && Continues(old(log), log, race)
        invariant Picks(registry, log) == Picks(registry, old(log))
        invariant |Flat(remainingRelays)| <= |Flat(old(remainingRelays))|
        decreases |Flat(remainingRelays)|
      {
        var slice := GetNextSlice();
        if |slice| > 0 {
          ContinuesOnce(old(log), log, race, slice);
          selected := NextRelay(race, slice);
          if selected == None {
            continue;
          }
          return selected;
        }
        return None;
      }
    }
  }
}
