/**
 `KnownRelaysManager.ts` (the tiers a transaction tries its relays in) and `shuffle` of `Utils.ts`.
 `random(k)` stands for the number drawn while `k` elements remain to be shuffled.
 */
module KnownRelays {
  import opened Arithmetic
  import opened Sequences
  import opened Wrappers
  import opened RelaySelection

  function Swap<T>(s: seq<T>, i: nat, j: nat): seq<T>
    requires i < |s| && j < |s|
  {
    s[i := s[j]][j := s[i]]
  }

  /** The first `n` elements shuffled from the back. */
  function Shuffled<T>(s: seq<T>, n: nat, random: nat -> nat): (shuffled: seq<T>)
    requires n <= |s|
    ensures |shuffled| == |s|
    decreases n
  {
    if n == 0 then s else Shuffled(Swap(s, n - 1, random(n) % n), n - 1, random)
  }

  lemma SwapKeepsElements<T>(s: seq<T>, i: nat, j: nat)
    requires i < |s| && j < |s|
    ensures multiset(Swap(s, i, j)) == multiset(s)
  {
  }

  /** No element is lost, doubled or made up, whatever numbers are drawn. */
  lemma {:induction false} ShuffledIsPermutation<T>(s: seq<T>, n: nat, random: nat -> nat)
    requires n <= |s|
    ensures multiset(Shuffled(s, n, random)) == multiset(s)
    ensures Shuffled(s, n, random)[n..] == s[n..]
    decreases n
  {
    if n > 0 {
      var j := random(n) % n;
      SwapKeepsElements(s, n - 1, j);
      ShuffledIsPermutation(Swap(s, n - 1, j), n - 1, random);
      assert Shuffled(s, n, random)[n..] == Shuffled(s, n, random)[n - 1..][1..];
    }
  }

  lemma {:induction false} OnlyLaterDrawsMatter<T>(s: seq<T>, n: nat, random: nat -> nat, other: nat -> nat)
    requires n <= |s| && forall k :: 1 <= k <= n ==> random(k) == other(k)
    ensures Shuffled(s, n, random) == Shuffled(s, n, other)
    decreases n
  {
    if n > 0 {
      OnlyLaterDrawsMatter(Swap(s, n - 1, random(n) % n), n - 1, random, other);
    }
  }

  /** And every permutation can come out. */
  lemma {:induction false} EveryPermutationIsReachable<T>(s: seq<T>, n: nat, t: seq<T>) returns (random: nat -> nat)
    requires n <= |s| == |t| && multiset(s[..n]) == multiset(t[..n]) && s[n..] == t[n..]
    ensures Shuffled(s, n, random) == t
    decreases n
  {
    if n == 0 {
      random := _ => 0;
      assert s == s[0..] == t[0..] == t;
    } else {
      var j := BringLast(s, n, t);
      var rest := EveryPermutationIsReachable(Swap(s, n - 1, j), n - 1, t);
      random := DrawFirst(n, j, rest);
      OnlyLaterDrawsMatter(Swap(s, n - 1, j), n - 1, random, rest);
    }
  }

  /** Draws `j` while `n` elements remain, and goes on with `rest`. */
  function DrawFirst(n: nat, j: nat, rest: nat -> nat): (random: nat -> nat)
    requires j < n
    ensures random(n) % n == j && forall k :: k != n ==> random(k) == rest(k)
  {
    SmallModulo(j, n);
    k => if k == n then j else rest(k)
  }

  /** The element to draw so that the last of the first `n` places becomes right. */
  lemma BringLast<T>(s: seq<T>, n: nat, t: seq<T>) returns (j: nat)
    requires 0 < n <= |s| == |t| && multiset(s[..n]) == multiset(t[..n]) && s[n..] == t[n..]
    ensures j < n
    ensures var swapped := Swap(s, n - 1, j);
      multiset(swapped[..n - 1]) == multiset(t[..n - 1]) && swapped[n - 1..] == t[n - 1..]
  {
    var last := t[n - 1];
    assert t[..n] == t[..n - 1] + [last];
    assert last in multiset(t[..n]);
    assert last in s[..n];
    j :| 0 <= j < n && s[j] == last;
    SwappedPrefix(s, n, j);
    SwappedSuffix(s, n, j, t);
  }

  lemma SwappedSuffix<T>(s: seq<T>, n: nat, j: nat, t: seq<T>)
    requires j < n <= |s| == |t| && s[n..] == t[n..] && s[j] == t[n - 1]
    ensures Swap(s, n - 1, j)[n - 1..] == t[n - 1..]
  {
    assert Swap(s, n - 1, j)[n - 1..] == [s[j]] + s[n..];
    assert t[n - 1..] == [s[j]] + t[n..];
  }

  lemma SwappedPrefix<T>(s: seq<T>, n: nat, j: nat)
    requires j < n <= |s|
    ensures multiset(Swap(s, n - 1, j)[..n - 1]) == multiset(s[..n]) - multiset{s[j]}
  {
    var swapped := Swap(s, n - 1, j);
    assert swapped[..n] == Swap(s[..n], n - 1, j);
    SwapKeepsElements(s[..n], n - 1, j);
    assert swapped[..n] == swapped[..n - 1] + [s[j]];
  }

  method Shuffle<T>(elements: array<T>, random: nat -> nat)
    modifies elements
    ensures elements[..] == Shuffled(old(elements[..]), elements.Length, random)
  {
    var currentIndex: nat := elements.Length;
    while currentIndex != 0
      invariant currentIndex <= elements.Length
      invariant Shuffled(elements[..], currentIndex, random) == Shuffled(old(elements[..]), elements.Length, random)
    {
      var randomIndex := random(currentIndex) % currentIndex;
      ghost var before := elements[..];
      currentIndex := currentIndex - 1;
      elements[currentIndex], elements[randomIndex] := elements[randomIndex], elements[currentIndex];
      assert elements[..] == Swap(before, currentIndex, randomIndex);
    }
  }

  // ---------- The tiers ----------

  /** The relays whose URL passes the test, in order. */
  function Keep(relays: seq<RelayInfo>, test: string -> bool): seq<RelayInfo> {
    if relays == [] then []
    else
      var n := |relays| - 1;
      Keep(relays[..n], test) + (if test(relays[n].url) then [relays[n]] else [])
  }

  lemma {:induction false} KeepIsFilter(relays: seq<RelayInfo>, test: string -> bool)
    ensures forall r: RelayInfo :: multiset(Keep(relays, test))[r] == if test(r.url) then multiset(relays)[r] else 0
  {
    if relays != [] {
      var n := |relays| - 1;
      assert relays == relays[..n] + [relays[n]];
      KeepIsFilter(relays[..n], test);
    }
  }

  /** The order of the relays is kept. */
  lemma {:induction false} KeepInOrder(relays: seq<RelayInfo>, rest: seq<RelayInfo>, test: string -> bool)
    ensures Keep(relays + rest, test) == Keep(relays, test) + Keep(rest, test)
  {
    if rest == [] {
      AppendNothing(relays);
      AppendNothing(Keep(relays, test));
    } else {
      var n := |rest| - 1;
      assert (relays + rest)[..|relays| + n] == relays + rest[..n];
      KeepInOrder(relays, rest[..n], test);
      Regroup(Keep(relays, test), Keep(rest[..n], test), if test(rest[n].url) then [rest[n]] else []);
    }
  }

  function HasFailure(failures: set<string>): string -> bool {
    url => url in failures
  }

  function HasNoFailure(failures: set<string>): string -> bool {
    url => url !in failures
  }

  /** Three tiers: the preferred relays in their order, then those without failures, then those with. */
  ghost predicate AreTiers(
    tiers: seq<seq<RelayInfo>>, preferred: seq<RelayInfo>, registered: seq<RelayInfo>,
    failures: set<string>, valid: string -> bool)
  {
    && |tiers| == 3
    && tiers[0] == Keep(preferred, valid)
    && (forall r: RelayInfo :: multiset(tiers[1])[r] ==
          if valid(r.url) && r.url !in failures then multiset(registered)[r] else 0)
    && (forall r: RelayInfo :: multiset(tiers[2])[r] ==
          if valid(r.url) && r.url in failures then multiset(registered)[r] else 0)
  }

  lemma InTier(tier: seq<RelayInfo>, relays: seq<RelayInfo>, test: string -> bool, r: RelayInfo)
    requires multiset(tier)[r] == if test(r.url) then multiset(relays)[r] else 0
    ensures r in tier <==> r in relays && test(r.url)
  {
    assert r in tier <==> multiset(tier)[r] > 0;
    assert r in relays <==> multiset(relays)[r] > 0;
  }

  /** What it means for a relay to be in one of the three tiers. */
  lemma WhoIsInWhichTier(
    tiers: seq<seq<RelayInfo>>, preferred: seq<RelayInfo>, registered: seq<RelayInfo>,
    failures: set<string>, valid: string -> bool, r: RelayInfo)
    requires AreTiers(tiers, preferred, registered, failures, valid)
    ensures r in tiers[0] <==> r in preferred && valid(r.url)
    ensures r in tiers[1] <==> r in registered && valid(r.url) && r.url !in failures
    ensures r in tiers[2] <==> r in registered && valid(r.url) && r.url in failures
  {
    KeepIsFilter(preferred, valid);
    InTier(tiers[0], preferred, valid, r);
    InTier(tiers[1], registered, u => valid(u) && u !in failures, r);
    InTier(tiers[2], registered, u => valid(u) && u in failures, r);
  }

  /** The tiers hold exactly the relays with a valid URL, and no registered relay is in both of the last two. */
  lemma TiersHoldAllValidRelays(
    tiers: seq<seq<RelayInfo>>, preferred: seq<RelayInfo>, registered: seq<RelayInfo>,
    failures: set<string>, valid: string -> bool)
    requires AreTiers(tiers, preferred, registered, failures, valid)
    ensures forall u :: u in UrlsOfTiers(tiers) <==> u in UrlsOf(preferred + registered) && valid(u)
    ensures UrlsOf(tiers[1]) !! UrlsOf(tiers[2])
  {
    forall u | u in UrlsOfTiers(tiers)
      ensures u in UrlsOf(preferred + registered) && valid(u)
    {
      var i: int, r: RelayInfo :| 0 <= i < |tiers| && r in tiers[i] && r.url == u;
      WhoIsInWhichTier(tiers, preferred, registered, failures, valid, r);
      assert r in preferred + registered;
    }
    forall u | u in UrlsOf(preferred + registered) && valid(u)
      ensures u in UrlsOfTiers(tiers)
    {
      var r: RelayInfo :| r in preferred + registered && r.url == u;
      WhoIsInWhichTier(tiers, preferred, registered, failures, valid, r);
      var i := if r in preferred then 0 else if u in failures then 2 else 1;
      assert r in tiers[i];
    }
    forall r, q | r in tiers[1] && q in tiers[2]
      ensures r.url != q.url
    {
      WhoIsInWhichTier(tiers, preferred, registered, failures, valid, r);
      WhoIsInWhichTier(tiers, preferred, registered, failures, valid, q);
    }
  }

  class KnownRelaysManager {
    var preferredRelayers: seq<RelayInfo>
    var allRelayers: seq<RelayInfo>
    var relayFailures: set<string>

    constructor (preferred: seq<RelayInfo>, registered: seq<RelayInfo>, failures: set<string>)
      ensures preferredRelayers == preferred && allRelayers == registered && relayFailures == failures
    {
      preferredRelayers, allRelayers, relayFailures := preferred, registered, failures;
    }

    method GetRelaysShuffledForTransaction(valid: string -> bool, random: nat -> nat, random': nat -> nat)
      returns (tiers: seq<seq<RelayInfo>>)
      ensures AreTiers(tiers, preferredRelayers, allRelayers, relayFailures, valid)
    {
      var failures := relayFailures;
      var relaysWithFailures := Keep(allRelayers, HasFailure(failures));
      var relaysWithoutFailures := Keep(allRelayers, HasNoFailure(failures));
      KeepIsFilter(allRelayers, HasFailure(failures));
      KeepIsFilter(allRelayers, HasNoFailure(failures));
      var first := ShuffledCopy(relaysWithoutFailures, random);
      var second := ShuffledCopy(relaysWithFailures, random');
      var sorted := [preferredRelayers, first, second];
      tiers := sorted;
      for i := 0 to |sorted|
        invariant |tiers| == |sorted|
        invariant forall k :: 0 <= k < i ==> tiers[k] == Keep(sorted[k], valid)
        invariant forall k :: i <= k < |sorted| ==> tiers[k] == sorted[k]
      {
        KeepIsFilter(tiers[i], valid);
        tiers := tiers[i := Keep(tiers[i], valid)];
      }
      KeepIsFilter(first, valid);
      KeepIsFilter(second, valid);
    }
  }

  method ShuffledCopy(relays: seq<RelayInfo>, random: nat -> nat) returns (shuffled: seq<RelayInfo>)
    ensures multiset(shuffled) == multiset(relays)
  {
    var relayArray := new RelayInfo[|relays|](i requires 0 <= i < |relays| => relays[i]);
    assert relayArray[..] == relays;
    Shuffle(relayArray, random);
    ShuffledIsPermutation(relays, |relays|, random);
    return relayArray[..];
  }
}
