/**
 The paged event query of `ContractInteractor.ts`: splitting a block range into pages, and the query that retries
 pages, splits again when a page holds too many events, and puts the replies together.
 */
module PagedLogs {
  import opened Arithmetic
  import opened Sequences
  import opened Wrappers

  datatype BlockNumber = Number(n: nat) | Latest

  datatype Page = Page(from: BlockNumber, to: BlockNumber)

  datatype Config = Config(maxPageSize: Positive, maxPageCount: nat)

  type Positive = n: nat | n > 0 witness 1

  /** `Number.MAX_SAFE_INTEGER`, which switches pagination off. */
  const MAX_SAFE_INTEGER: nat := 0x1F_FFFF_FFFF_FFFF

  const MAX_ATTEMPTS: nat := 100

  datatype PagingError = FromAfterTo | OnlyNumbersSupported | TooManyPages | TooManyEvents | QueryFailed

  // ---------- Pages ----------

  function CeilDiv(n: nat, d: Positive): nat {
    (n + d - 1) / d
  }

  /** The pages of `size` blocks that make up the range. */
  function Pages(from: nat, to: nat, size: Positive): seq<Page>
    decreases 1 + to - from
  {
    if from > to then []
    else [Page(Number(from), Number(if to < from + size - 1 then to else from + size - 1))] + Pages(from + size, to, size)
  }

  function Split(from: BlockNumber, to: BlockNumber, parts: Positive): Result<seq<Page>, PagingError> {
    if parts == 1 then Ok([Page(from, to)])
    else if !from.Number? || !to.Number? then Err(OnlyNumbersSupported)
    else if from.n > to.n then Ok([])
    else Ok(Pages(from.n, to.n, CeilDiv(to.n - from.n + 1, parts)))
  }

  function PagesForRange(config: Config, from: BlockNumber, to: BlockNumber): Result<Positive, PagingError> {
    if config.maxPageSize == MAX_SAFE_INTEGER then Ok(1)
    else if !from.Number? || !to.Number? then Err(OnlyNumbersSupported)
    else
      var pages := if from.n > to.n then 0 else CeilDiv(to.n - from.n + 1, config.maxPageSize);
      Ok(if pages < 1 then 1 else pages)
  }

  /** `pages` are in order, without gap or overlap, and cover exactly `from` to `to`. */
  ghost predicate Covers(pages: seq<Page>, from: nat, to: nat) {
    && pages != [] && pages[0].from == Number(from) && pages[|pages| - 1].to == Number(to)
    && (forall i :: 0 <= i < |pages| ==>
          pages[i].from.Number? && pages[i].to.Number? && pages[i].from.n <= pages[i].to.n)
    && (forall i :: 0 < i < |pages| ==> pages[i].from == Number(pages[i - 1].to.n + 1))
  }

  ghost predicate NoLongerThan(pages: seq<Page>, size: nat) {
    forall i :: 0 <= i < |pages| ==>
      pages[i].from.Number? && pages[i].to.Number? && pages[i].to.n - pages[i].from.n + 1 <= size
  }

  lemma {:induction false} CeilDivIsLeast(n: nat, d: Positive)
    ensures CeilDiv(n, d) * d >= n
    ensures n > 0 ==> (CeilDiv(n, d) - 1) * d < n && CeilDiv(n, d) > 0
  {
    var q, r := (n + d - 1) / d, (n + d - 1) % d;
    assert n + d - 1 == q * d + r;
    if n > 0 {
      DivAtLeastOne(n + d - 1, d);
    }
    assert (q - 1) * d == q * d - d;
  }

  lemma DivAtLeastOne(n: nat, d: Positive)
    requires n >= d
    ensures n / d > 0
  {
    assert n == (n / d) * d + n % d;
    assert (n / d) * d > 0;
  }

  lemma FewShares(n: nat, count: nat, parts: nat, size: nat)
    requires (count - 1) * size < n <= parts * size
    ensures count <= parts
  {
    if count > parts {
      ProductsAreOrdered(parts, count - 1, size);
    }
  }

  lemma {:induction false} PagesCover(from: nat, to: nat, size: Positive)
    requires from <= to
    ensures Covers(Pages(from, to, size), from, to) && NoLongerThan(Pages(from, to, size), size)
    decreases 1 + to - from
  {
    if from + size > to {
      LastPage(from, to, size);
    } else {
      var rest, mid := Pages(from + size, to, size), from + size - 1;
      PagesCover(mid + 1, to, size);
      CoverFrom(from, mid, rest, to, size);
      assert Pages(from, to, size) == [Page(Number(from), Number(mid))] + rest;
    }
  }

  lemma LastPage(from: nat, to: nat, size: Positive)
    requires from <= to < from + size
    ensures Pages(from, to, size) == [Page(Number(from), Number(to))]
    ensures Covers(Pages(from, to, size), from, to) && NoLongerThan(Pages(from, to, size), size)
  {
    assert Pages(from + size, to, size) == [];
  }

  lemma CoverFrom(from: nat, mid: nat, rest: seq<Page>, to: nat, size: nat)
    requires from <= mid && mid - from + 1 <= size && Covers(rest, mid + 1, to) && NoLongerThan(rest, size)
    ensures var pages := [Page(Number(from), Number(mid))] + rest; Covers(pages, from, to) && NoLongerThan(pages, size)
  {
    var pages := [Page(Number(from), Number(mid))] + rest;
    forall i | 0 < i < |pages|
      ensures pages[i].from == Number(pages[i - 1].to.n + 1)
    {
      if i > 1 {
        assert pages[i] == rest[i - 1] && pages[i - 1] == rest[i - 2];
      }
    }
  }

  /** Only the last page can be short: the others alone do not reach the end. */
  lemma {:induction false} PagesAreFull(from: nat, to: nat, size: Positive)
    requires from <= to
    ensures (|Pages(from, to, size)| - 1) * size < to - from + 1
    decreases 1 + to - from
  {
    if from + size > to {
      assert Pages(from + size, to, size) == [];
    } else {
      PagesAreFull(from + size, to, size);
      var n := |Pages(from + size, to, size)|;
      assert n * size == (n - 1) * size + size;
    }
  }

  /** Dividing by `parts` and rounding up never needs more pages than `parts`. */
  lemma AtMostPartsPages(from: nat, to: nat, parts: Positive)
    requires from <= to
    ensures var size := CeilDiv(to - from + 1, parts);
      0 < size && |Pages(from, to, size)| <= parts
  {
    var n := to - from + 1;
    CeilDivIsLeast(n, parts);
    var size := CeilDiv(n, parts);
    PagesAreFull(from, to, size);
    var count := |Pages(from, to, size)|;
    assert parts * size == size * parts;
    FewShares(n, count, parts, size);
  }

  /** With the number of pages computed for the configured page size, no page is longer than that size. */
  lemma PagesFitConfiguredSize(n: nat, maxPageSize: Positive)
    requires n > 0
    ensures var parts := CeilDiv(n, maxPageSize); 0 < parts && CeilDiv(n, parts) <= maxPageSize
  {
    CeilDivIsLeast(n, maxPageSize);
    var parts := CeilDiv(n, maxPageSize);
    CeilDivIsLeast(n, parts);
    var size := CeilDiv(n, parts);
    assert parts * maxPageSize == maxPageSize * parts;
    FewShares(n, size, maxPageSize, parts);
  }

  /** Every split of a numeric range covers it exactly, in at most `parts` pages. */
  lemma SplitCovers(from: nat, to: nat, parts: Positive)
    requires from <= to
    ensures var pages := Split(Number(from), Number(to), parts);
      pages.Ok? && Covers(pages.value, from, to) && |pages.value| <= parts
  {
    if parts > 1 {
      AtMostPartsPages(from, to, parts);
      PagesCover(from, to, CeilDiv(to - from + 1, parts));
    }
  }

  /** The first split of a paged query: exact, with pages no longer than configured and no more than configured. */
  lemma FirstSplitFits(config: Config, from: nat, to: nat)
    requires from <= to && config.maxPageSize != MAX_SAFE_INTEGER
    ensures var parts := PagesForRange(config, Number(from), Number(to));
      && parts.Ok?
      && Split(Number(from), Number(to), parts.value).Ok?
      && NoLongerThan(Split(Number(from), Number(to), parts.value).value, config.maxPageSize)
      && (parts.value - 1) * config.maxPageSize < to - from + 1
  {
    var n := to - from + 1;
    CeilDivIsLeast(n, config.maxPageSize);
    PagesFitConfiguredSize(n, config.maxPageSize);
    var parts := CeilDiv(n, config.maxPageSize);
    if parts == 1 {
      assert 1 * config.maxPageSize == config.maxPageSize;
    } else {
      PagesCover(from, to, CeilDiv(n, parts));
    }
  }

  // ---------- The events ----------

  /** The events of each block, and the latest block. */
  datatype Chain<!E> = Chain(at: nat -> seq<E>, head: nat)

  function LogsIn<E>(at: nat -> seq<E>, from: nat, to: nat): seq<E>
    decreases 1 + to - from
  {
    if from > to then [] else at(from) + LogsIn(at, from + 1, to)
  }

  function Resolve<E>(chain: Chain<E>, block: BlockNumber): nat {
    if block.Number? then block.n else chain.head
  }

  /** What one unpaged query returns. */
  function Query<E>(chain: Chain<E>, page: Page): seq<E> {
    LogsIn(chain.at, Resolve(chain, page.from), Resolve(chain, page.to))
  }

  function QueryAll<E>(chain: Chain<E>, pages: seq<Page>): seq<E> {
    if pages == [] then [] else QueryAll(chain, pages[..|pages| - 1]) + Query(chain, pages[|pages| - 1])
  }

  function QueryRounds<E>(chain: Chain<E>, rounds: seq<seq<Page>>): seq<E> {
    if rounds == [] then []
    else QueryRounds(chain, rounds[..|rounds| - 1]) + QueryAll(chain, rounds[|rounds| - 1])
  }

  lemma {:induction false} LogsSplit<E>(at: nat -> seq<E>, from: nat, mid: nat, to: nat)
    requires from <= mid <= to + 1
    ensures from == mid ==> LogsIn(at, from, to) == LogsIn(at, mid, to)
    ensures from < mid ==> LogsIn(at, from, to) == LogsIn(at, from, mid - 1) + LogsIn(at, mid, to)
    decreases mid - from
  {
    if from + 1 == mid {
      assert LogsIn(at, mid, mid - 1) == [];
    } else if from < mid {
      LogsSplit(at, from + 1, mid, to);
    }
  }

  /** The pages of a cover return together what one query for the blocks they span returns. */
  lemma {:induction false} PrefixOfCover<E>(chain: Chain<E>, pages: seq<Page>, from: nat, to: nat, k: nat)
    requires Covers(pages, from, to) && 0 < k <= |pages|
    ensures from <= pages[k - 1].to.n <= to
    ensures QueryAll(chain, pages[..k]) == LogsIn(chain.at, from, pages[k - 1].to.n)
    ensures k < |pages| ==> pages[k - 1].to.n < to
  {
    assert pages[..k][..k - 1] == pages[..k - 1];
    if k == 1 {
      assert QueryAll(chain, pages[..0]) == [];
    } else {
      PrefixOfCover(chain, pages, from, to, k - 1);
      LogsSplit(chain.at, from, pages[k - 1].from.n, pages[k - 1].to.n);
    }
    CoverEndsInOrder(pages, from, to, k - 1);
  }

  lemma {:induction false} CoverEndsInOrder(pages: seq<Page>, from: nat, to: nat, i: nat)
    requires Covers(pages, from, to) && i < |pages|
    ensures pages[i].to.n <= to && (i < |pages| - 1 ==> pages[i].to.n < to)
    decreases |pages| - i
  {
    if i < |pages| - 1 {
      CoverEndsInOrder(pages, from, to, i + 1);
      assert pages[i + 1].from == Number(pages[i].to.n + 1);
    }
  }

  // ---------- The run of a paged query ----------

  /** How one request ends. `MoreThan` is the error "query returned more than". */
  datatype Reply = Answered | MoreThan | Failed

  /** The requests for one page, from request number `n` on: at most 100. */
  function FetchPage(reply: nat -> Reply, n: nat, attempts: nat): (Reply, nat)
    decreases MAX_ATTEMPTS - attempts
  {
    if reply(n).Answered? then (Answered, n + 1)
    else if attempts + 1 >= MAX_ATTEMPTS then (reply(n), n + 1)
    else FetchPage(reply, n + 1, attempts + 1)
  }

  /**
   A page is asked for until it is answered, at most 100 times, whatever the errors; then the error of the last
   request counts.
   */
  lemma {:induction false} PageIsRetried(reply: nat -> Reply, n: nat, attempts: nat)
    requires attempts < 100
    ensures var (last, next) := FetchPage(reply, n, attempts);
      && n < next <= n + 100 - attempts && last == reply(next - 1)
      && (forall k :: n <= k < next - 1 ==> !reply(k).Answered?)
      && (!last.Answered? ==> next == n + 100 - attempts)
    decreases 100 - attempts
  {
    if !reply(n).Answered? && attempts + 1 < 100 {
      PageIsRetried(reply, n + 1, attempts + 1);
    }
  }

  /** How far one round gets: pages fetched, the reply that ended it, and the number of the next request. */
  datatype Progress = Progress(fetched: nat, last: Reply, next: nat)

  function FetchPages(reply: nat -> Reply, n: nat, count: nat): (p: Progress)
    ensures p.fetched <= count
    ensures p.last.Answered? <==> p.fetched == count
  {
    if count == 0 then Progress(0, Answered, n)
    else
      var before := FetchPages(reply, n, count - 1);
      if !before.last.Answered? then before
      else
        var (last, next) := FetchPage(reply, before.next, 0);
        Progress(if last.Answered? then count else count - 1, last, next)
  }

  /** The pages fetched in each round. Only the last round is complete. */
  function Rounds(reply: nat -> Reply, n: nat, from: BlockNumber, to: BlockNumber, parts: Positive)
    : Result<seq<seq<Page>>, PagingError>
    decreases if parts > 16 then 0 else 17 - parts
  {
    match Split(from, to, parts)
    case Err(error) => Err(error)
    case Ok(pages) =>
      var progress := FetchPages(reply, n, |pages|);
      if progress.last.Answered? then Ok([pages])
      else if progress.last.Failed? then Err(QueryFailed)
      else if parts > 16 then Err(TooManyEvents)
      else
        Prepend([pages[..progress.fetched]], Rounds(reply, progress.next, from, to, parts * 4))
  }

  function Prepend(rounds: seq<seq<Page>>, rest: Result<seq<seq<Page>>, PagingError>)
    : Result<seq<seq<Page>>, PagingError>
  {
    if rest.Ok? then Ok(rounds + rest.value) else rest
  }

  lemma PrependTwice(a: seq<seq<Page>>, b: seq<seq<Page>>, rest: Result<seq<seq<Page>>, PagingError>)
    ensures Prepend(a, Prepend(b, rest)) == Prepend(a + b, rest)
    ensures Prepend([], rest) == rest
  {
    if rest.Ok? {
      assert a + (b + rest.value) == a + b + rest.value;
      assert [] + rest.value == rest.value;
    }
  }

  /** The options with their defaults filled in, and `latest` replaced if pagination needs a number. */
  function FullRange(config: Config, from: Option<BlockNumber>, to: Option<BlockNumber>, head: nat): Page {
    var start := if from.Some? then from.value else Number(1);
    var end := if to.Some? then to.value else Latest;
    if config.maxPageSize != MAX_SAFE_INTEGER && end.Latest? then
      Page(start, if start.Number? && start.n > head then start else Number(head))
    else Page(start, end)
  }

  /** The whole paged query: which pages are fetched, or why it fails. */
  function PagedQuery(config: Config, reply: nat -> Reply, range: Page): Result<seq<seq<Page>>, PagingError> {
    if range.from.Number? && range.to.Number? && range.from.n > range.to.n then Err(FromAfterTo)
    else
      match PagesForRange(config, range.from, range.to)
      case Err(error) => Err(error)
      case Ok(parts) =>
        if parts > config.maxPageCount then Err(TooManyPages)
        else Rounds(reply, 0, range.from, range.to, parts)
  }

  function LogsBefore<E>(at: nat -> seq<E>, from: nat, end: nat): seq<E> {
    if end > from then LogsIn(at, from, end - 1) else []
  }

  /** `ends[k]` is one past the last block that the abandoned round `k` had fetched. */
  ghost predicate AreAbandoned<E>(chain: Chain<E>, rounds: seq<seq<Page>>, ends: seq<nat>, from: nat, to: nat) {
    && |ends| + 1 == |rounds|
    && (forall k :: 0 <= k < |ends| ==>
          from <= ends[k] <= to && QueryAll(chain, rounds[k]) == LogsBefore(chain.at, from, ends[k]))
  }

  function Redundant<E>(at: nat -> seq<E>, from: nat, ends: seq<nat>): seq<E> {
    if ends == [] then [] else LogsBefore(at, from, ends[0]) + Redundant(at, from, ends[1..])
  }

  lemma {:induction false} RoundsPrepend<E>(chain: Chain<E>, first: seq<Page>, rest: seq<seq<Page>>)
    ensures QueryRounds(chain, [first] + rest) == QueryAll(chain, first) + QueryRounds(chain, rest)
  {
    var rounds := [first] + rest;
    if rest == [] {
      assert rounds[..0] == [];
    } else {
      assert rounds[..|rounds| - 1] == [first] + rest[..|rest| - 1];
      RoundsPrepend(chain, first, rest[..|rest| - 1]);
    }
  }

  /**
   A successful query returns the exact event list of the last round, after the events that the abandoned
   rounds had fetched, up to the block `ends[k]` each. There are at most three abandoned rounds.
   */
  lemma {:induction false} RoundsReturnRangeAfterRepeats<E>(
    chain: Chain<E>, reply: nat -> Reply, n: nat, from: nat, to: nat, parts: Positive)
    returns (ends: seq<nat>)
    requires from <= to && Rounds(reply, n, Number(from), Number(to), parts).Ok?
    ensures AreAbandoned(chain, Rounds(reply, n, Number(from), Number(to), parts).value, ends, from, to)
    ensures QueryRounds(chain, Rounds(reply, n, Number(from), Number(to), parts).value)
         == Redundant(chain.at, from, ends) + LogsIn(chain.at, from, to)
    ensures |ends| <= if parts > 16 then 0 else if parts > 4 then 1 else if parts > 1 then 2 else 3
    decreases if parts > 16 then 0 else 17 - parts
  {
    SplitCovers(from, to, parts);
    var pages := Split(Number(from), Number(to), parts).value;
    var progress := FetchPages(reply, n, |pages|);
    if progress.last.Answered? {
      ends := [];
      RoundsPrepend(chain, pages, []);
      var _ := FetchedPages(chain, pages, from, to, |pages|);
      assert pages[..|pages|] == pages;
    } else {
      var rest := RoundsReturnRangeAfterRepeats(chain, reply, progress.next, from, to, parts * 4);
      var end := FetchedPages(chain, pages, from, to, progress.fetched);
      ends := [end] + rest;
      var later := Rounds(reply, progress.next, Number(from), Number(to), parts * 4).value;
      AbandonRound(chain, pages[..progress.fetched], later, from, to, end, rest);
      OneMoreAbandoned(chain, pages[..progress.fetched], later, from, to, end, rest);
      assert Rounds(reply, n, Number(from), Number(to), parts).value == [pages[..progress.fetched]] + later;
    }
  }

  /** What the first `k` pages of a round return, and the block after them. */
  lemma FetchedPages<E>(chain: Chain<E>, pages: seq<Page>, from: nat, to: nat, k: nat) returns (end: nat)
    requires Covers(pages, from, to) && k <= |pages|
    ensures from <= end <= to + 1 && (k < |pages| ==> end <= to) && (k == |pages| ==> end == to + 1)
    ensures QueryAll(chain, pages[..k]) == LogsBefore(chain.at, from, end)
  {
    if k == 0 {
      end := from;
      CoverEndsInOrder(pages, from, to, 0);
    } else {
      PrefixOfCover(chain, pages, from, to, k);
      end := pages[k - 1].to.n + 1;
    }
  }

  lemma AbandonRound<E>(
    chain: Chain<E>, fetched: seq<Page>, rest: seq<seq<Page>>, from: nat, to: nat, end: nat, ends: seq<nat>)
    requires QueryAll(chain, fetched) == LogsBefore(chain.at, from, end)
    requires QueryRounds(chain, rest) == Redundant(chain.at, from, ends) + LogsIn(chain.at, from, to)
    ensures QueryRounds(chain, [fetched] + rest) == Redundant(chain.at, from, [end] + ends) + LogsIn(chain.at, from, to)
  {
    RoundsPrepend(chain, fetched, rest);
    FirstRedundant(chain.at, from, end, ends);
    Regroup(LogsBefore(chain.at, from, end), Redundant(chain.at, from, ends), LogsIn(chain.at, from, to));
  }

  lemma OneMoreAbandoned<E>(
    chain: Chain<E>, fetched: seq<Page>, rest: seq<seq<Page>>, from: nat, to: nat, end: nat, ends: seq<nat>)
    requires AreAbandoned(chain, rest, ends, from, to) && from <= end <= to
    requires QueryAll(chain, fetched) == LogsBefore(chain.at, from, end)
    ensures AreAbandoned(chain, [fetched] + rest, [end] + ends, from, to)
  {
  }

  lemma FirstRedundant<E>(at: nat -> seq<E>, from: nat, end: nat, ends: seq<nat>)
    ensures Redundant(at, from, [end] + ends) == LogsBefore(at, from, end) + Redundant(at, from, ends)
  {
    assert ([end] + ends)[1..] == ends;
  }

  /** The events of the pages fetched, or the error. */
  function ResultOf<E>(chain: Chain<E>, rounds: Result<seq<seq<Page>>, PagingError>): Result<seq<E>, PagingError> {
    match rounds
    case Ok(pages) => Ok(QueryRounds(chain, pages))
    case Err(error) => Err(error)
  }

  // ---------- When the result is the single-query list ----------

  /** The last round of a successful query has fetched the whole range. */
  lemma {:induction false} LastRoundIsWhole<E>(
    chain: Chain<E>, reply: nat -> Reply, n: nat, from: nat, to: nat, parts: Positive)
    requires from <= to && Rounds(reply, n, Number(from), Number(to), parts).Ok?
    ensures var rounds := Rounds(reply, n, Number(from), Number(to), parts).value;
      rounds != [] && QueryAll(chain, rounds[|rounds| - 1]) == LogsIn(chain.at, from, to)
    decreases if parts > 16 then 0 else 17 - parts
  {
    SplitCovers(from, to, parts);
    var pages := Split(Number(from), Number(to), parts).value;
    var progress := FetchPages(reply, n, |pages|);
    if progress.last.Answered? {
      var _ := FetchedPages(chain, pages, from, to, |pages|);
      assert pages[..|pages|] == pages;
    } else {
      LastRoundIsWhole(chain, reply, progress.next, from, to, parts * 4);
    }
  }

  lemma {:induction false} NothingFromEmptyRounds<E>(chain: Chain<E>, rounds: seq<seq<Page>>)
    ensures QueryRounds(chain, rounds) == [] <==> forall k :: 0 <= k < |rounds| ==> QueryAll(chain, rounds[k]) == []
  {
    if rounds != [] {
      var n := |rounds| - 1;
      NothingFromEmptyRounds(chain, rounds[..n]);
      assert forall k :: 0 <= k < n ==> rounds[..n][k] == rounds[k];
      assert rounds == rounds[..n] + [rounds[n]];
    }
  }

  /** The paged result is the single-query list if and only if no abandoned round had fetched any event. */
  lemma ExactIffNothingWasAbandoned<E>(config: Config, chain: Chain<E>, reply: nat -> Reply, from: nat, to: nat)
    requires PagedQuery(config, reply, Page(Number(from), Number(to))).Ok?
    ensures var rounds := PagedQuery(config, reply, Page(Number(from), Number(to))).value;
      QueryRounds(chain, rounds) == Query(chain, Page(Number(from), Number(to)))
      <==> forall k :: 0 <= k < |rounds| - 1 ==> QueryAll(chain, rounds[k]) == []
  {
    var rounds := PagedQuery(config, reply, Page(Number(from), Number(to))).value;
    LastRoundIsWhole(chain, reply, 0, from, to, PagesForRange(config, Number(from), Number(to)).value);
    var n := |rounds| - 1;
    NothingFromEmptyRounds(chain, rounds[..n]);
    assert forall k :: 0 <= k < n ==> rounds[..n][k] == rounds[k];
    EqualsTailIffEmpty(QueryRounds(chain, rounds[..n]), QueryAll(chain, rounds[n]));
  }

  lemma EqualsTailIffEmpty<T>(a: seq<T>, b: seq<T>)
    ensures a + b == b <==> a == []
  {
    if a + b == b {
      assert |a| == 0;
    }
  }

  /** Whatever the replies, a successful paged query of a numeric range misses no event and makes none up. */
  lemma PagedQueryReturnsRange<E>(config: Config, chain: Chain<E>, reply: nat -> Reply, from: nat, to: nat)
    returns (ends: seq<nat>)
    requires PagedQuery(config, reply, Page(Number(from), Number(to))).Ok?
    ensures from <= to && |ends| <= 3 && forall k :: 0 <= k < |ends| ==> from <= ends[k] <= to
    ensures QueryRounds(chain, PagedQuery(config, reply, Page(Number(from), Number(to))).value)
         == Redundant(chain.at, from, ends) + Query(chain, Page(Number(from), Number(to)))
    ensures var rounds := PagedQuery(config, reply, Page(Number(from), Number(to))).value;
      AreAbandoned(chain, rounds, ends, from, to)
  {
    var parts := PagesForRange(config, Number(from), Number(to)).value;
    ends := RoundsReturnRangeAfterRepeats(chain, reply, 0, from, to, parts);
  }

  /** When every request is answered, the paged query succeeds and returns exactly what one query would. */
  lemma AnsweredQueryIsExact<E>(config: Config, chain: Chain<E>, reply: nat -> Reply, from: nat, to: nat)
    requires from <= to && forall n :: reply(n) == Answered
    requires var parts := PagesForRange(config, Number(from), Number(to)); parts.Ok? && parts.value <= config.maxPageCount
    ensures var query := PagedQuery(config, reply, Page(Number(from), Number(to)));
      query.Ok? && QueryRounds(chain, query.value) == Query(chain, Page(Number(from), Number(to)))
  {
    var parts := PagesForRange(config, Number(from), Number(to)).value;
    SplitCovers(from, to, parts);
    var pages := Split(Number(from), Number(to), parts).value;
    AnsweredPages(reply, 0, |pages|);
    var _ := FetchedPages(chain, pages, from, to, |pages|);
    assert pages[..|pages|] == pages;
    RoundsPrepend(chain, pages, []);
    assert [pages] + [] == [pages];
    assert QueryAll(chain, pages) + QueryRounds(chain, []) == QueryAll(chain, pages);
  }

  lemma {:induction false} AnsweredPages(reply: nat -> Reply, n: nat, count: nat)
    requires forall k :: reply(k) == Answered
    ensures FetchPages(reply, n, count) == Progress(count, Answered, n + count)
  {
    if count > 0 {
      AnsweredPages(reply, n, count - 1);
    }
  }

  /** When no request is ever answered, the query fails: by the limit for splitting, or by the error itself. */
  lemma NeverAnsweredFails(config: Config, reply: nat -> Reply, from: nat, to: nat, refusal: Reply)
    requires from <= to && !refusal.Answered? && forall n :: reply(n) == refusal
    requires var parts := PagesForRange(config, Number(from), Number(to)); parts.Ok? && parts.value <= config.maxPageCount
    ensures PagedQuery(config, reply, Page(Number(from), Number(to)))
         == Err(if refusal.MoreThan? then TooManyEvents else QueryFailed)
  {
    RefusedRounds(reply, 0, from, to, PagesForRange(config, Number(from), Number(to)).value, refusal);
  }

  lemma {:induction false} RefusedRounds(
    reply: nat -> Reply, n: nat, from: nat, to: nat, parts: Positive, refusal: Reply)
    requires from <= to && !refusal.Answered? && forall k :: reply(k) == refusal
    ensures Rounds(reply, n, Number(from), Number(to), parts)
         == Err(if refusal.MoreThan? then TooManyEvents else QueryFailed)
    decreases if parts > 16 then 0 else 17 - parts
  {
    SplitCovers(from, to, parts);
    var pages := Split(Number(from), Number(to), parts).value;
    RefusedPages(reply, n, |pages|, refusal);
    if refusal.MoreThan? && parts <= 16 {
      RefusedRounds(reply, FetchPages(reply, n, |pages|).next, from, to, parts * 4, refusal);
    }
  }

  lemma {:induction false} RefusedPages(reply: nat -> Reply, n: nat, count: nat, refusal: Reply)
    requires count > 0 && !refusal.Answered? && forall k :: reply(k) == refusal
    ensures FetchPages(reply, n, count).last == refusal
  {
    PageIsRetried(reply, n, 0);
    if count > 1 {
      RefusedPages(reply, n, count - 1, refusal);
    } else {
      assert FetchPages(reply, n, 0) == Progress(0, Answered, n);
    }
  }

  /** A round of the query: into how many pages it splits the range, and its first request. */
  datatype RoundStart = RoundStart(parts: Positive, request: nat)

  function ProgressOf(reply: nat -> Reply, from: nat, to: nat, start: RoundStart): Progress
    requires from <= to
  {
    SplitCovers(from, to, start.parts);
    FetchPages(reply, start.request, |Split(Number(from), Number(to), start.parts).value|)
  }

  /** Every round but the last met too many events, and was followed by one with four times as many parts. */
  ghost predicate AreRounds(reply: nat -> Reply, from: nat, to: nat, starts: seq<RoundStart>)
    requires from <= to
  {
    starts != [] && forall k :: 0 <= k < |starts| - 1 ==> SplitsAgain(reply, from, to, starts[k], starts[k + 1])
  }

  ghost predicate SplitsAgain(reply: nat -> Reply, from: nat, to: nat, start: RoundStart, next: RoundStart)
    requires from <= to
  {
    var progress := ProgressOf(reply, from, to, start);
    progress.last.MoreThan? && start.parts <= 16 && next == RoundStart(start.parts * 4, progress.next)
  }

  /**
   The last round decides: the query succeeds with it if its pages are all answered, and fails with its error, or
   because it meets too many events with more than 16 parts. As long as parts are no more, a further round follows.
   */
  lemma {:induction false} LastRoundDecides(reply: nat -> Reply, from: nat, to: nat, starts: seq<RoundStart>)
    requires from <= to && AreRounds(reply, from, to, starts)
    ensures var last := starts[|starts| - 1];
      var (result, end) :=
        (Rounds(reply, starts[0].request, Number(from), Number(to), starts[0].parts), ProgressOf(reply, from, to, last).last);
      && (end.Answered? ==> result.Ok? && |result.value| == |starts|)
      && (end.Failed? ==> result == Err(QueryFailed))
      && (end.MoreThan? && last.parts > 16 ==> result == Err(TooManyEvents))
  {
    SplitCovers(from, to, starts[0].parts);
    if |starts| > 1 {
      assert SplitsAgain(reply, from, to, starts[0], starts[1]);
      forall k | 0 <= k < |starts[1..]| - 1
        ensures SplitsAgain(reply, from, to, starts[1..][k], starts[1..][k + 1])
      {
        assert SplitsAgain(reply, from, to, starts[k + 1], starts[k + 2]);
      }
      LastRoundDecides(reply, from, to, starts[1..]);
    }
  }

  predicate IsPaged(config: Config) {
    config.maxPageSize != MAX_SAFE_INTEGER
  }

  ghost predicate AllAnswered(reply: nat -> Reply) {
    forall n :: reply(n) == Answered
  }

  predicate IsNumber(block: Option<BlockNumber>) {
    block.Some? && block.value.Number?
  }

  predicate IsNumberOrOmitted(block: Option<BlockNumber>) {
    block.Some? ==> block.value.Number?
  }

  predicate IsLatestOrOmitted(block: Option<BlockNumber>) {
    block.Some? ==> block.value.Latest?
  }

  /** The events from `start` to `end`, each once and in order, unless that takes more pages than configured. */
  function AnsweredRange<E>(config: Config, chain: Chain<E>, start: nat, end: nat): Result<seq<E>, PagingError>
    requires start <= end
  {
    if end - start + 1 > config.maxPageCount * config.maxPageSize then Err(TooManyPages)
    else Ok(LogsIn(chain.at, start, end))
  }

  /** The pages are too many exactly if there are more blocks than they hold together. */
  lemma TooManyPagesIff(config: Config, blocks: nat)
    requires blocks > 0
    ensures CeilDiv(blocks, config.maxPageSize) > config.maxPageCount <==>
      blocks > config.maxPageCount * config.maxPageSize
  {
    var pages, size, count := CeilDiv(blocks, config.maxPageSize), config.maxPageSize, config.maxPageCount;
    CeilDivIsLeast(blocks, size);
    if pages > count {
      ProductsAreOrdered(count, pages - 1, size);
    } else {
      ProductsAreOrdered(pages, count, size);
    }
  }

  lemma AnsweredRangeIsReturned<E>(config: Config, chain: Chain<E>, reply: nat -> Reply, start: nat, end: nat)
    requires IsPaged(config) && AllAnswered(reply) && start <= end
    ensures ResultOf(chain, PagedQuery(config, reply, Page(Number(start), Number(end))))
         == AnsweredRange(config, chain, start, end)
  {
    TooManyPagesIff(config, end - start + 1);
    CeilDivIsLeast(end - start + 1, config.maxPageSize);
    if end - start + 1 <= config.maxPageCount * config.maxPageSize {
      AnsweredQueryIsExact(config, chain, reply, start, end);
    }
  }

  /** When every request is answered: the result for a first block and for what the options say of the last one. */
  lemma AnsweredQueryIsReturned<E>(
    config: Config, chain: Chain<E>, reply: nat -> Reply, start: nat, toBlock: Option<BlockNumber>)
    requires AllAnswered(reply)
    ensures var result := ResultOf(
        chain, PagedQuery(config, reply, FullRange(config, Some(Number(start)), toBlock, chain.head)));
      && (IsPaged(config) && IsLatestOrOmitted(toBlock) ==>
            result == AnsweredRange(config, chain, start, if start > chain.head then start else chain.head))
      && (IsPaged(config) && IsNumber(toBlock) && start <= toBlock.value.n ==>
            result == AnsweredRange(config, chain, start, toBlock.value.n))
      && (!IsPaged(config) && IsLatestOrOmitted(toBlock) ==>
            result == if config.maxPageCount == 0 then Err(TooManyPages) else Ok(LogsIn(chain.at, start, chain.head)))
  {
    if IsPaged(config) && IsLatestOrOmitted(toBlock) {
      AnsweredRangeIsReturned(config, chain, reply, start, if start > chain.head then start else chain.head);
    } else if IsPaged(config) && start <= toBlock.value.n {
      AnsweredRangeIsReturned(config, chain, reply, start, toBlock.value.n);
    } else if !IsPaged(config) && IsLatestOrOmitted(toBlock) && config.maxPageCount > 0 {
      var range := Page(Number(start), Latest);
      AnsweredPages(reply, 0, 1);
      assert Rounds(reply, 0, range.from, range.to, 1).Ok?;
      LatestIsNeverSplit(config, chain, reply, range);
    }
  }

  /** A query up to the latest block, with pagination switched off, is a single query that is never split. */
  lemma LatestIsNeverSplit<E>(config: Config, chain: Chain<E>, reply: nat -> Reply, range: Page)
    requires range.to.Latest? && PagedQuery(config, reply, range).Ok?
    ensures config.maxPageSize == MAX_SAFE_INTEGER
    ensures PagedQuery(config, reply, range).value == [[range]]
    ensures QueryRounds(chain, PagedQuery(config, reply, range).value) == Query(chain, range)
  {
    var pages := Split(range.from, range.to, 1).value;
    assert pages == [range];
    var progress := FetchPages(reply, 0, 1);
    LatestCannotBeSplit(reply, progress.next, range);
    assert [[range]][..0] == [] && [range][..0] == [];
    assert QueryAll(chain, [range]) == Query(chain, range);
  }

  lemma LatestCannotBeSplit(reply: nat -> Reply, n: nat, range: Page)
    requires range.to.Latest?
    ensures Rounds(reply, n, range.from, range.to, 4) == Err(OnlyNumbersSupported)
  {
  }

  lemma {:induction false} FetchPageGivesUp(reply: nat -> Reply, n: nat, attempts: nat)
    requires attempts < MAX_ATTEMPTS
    requires forall k :: n <= k < n + MAX_ATTEMPTS - attempts ==> reply(k) == MoreThan
    ensures FetchPage(reply, n, attempts) == (MoreThan, n + MAX_ATTEMPTS - attempts)
    decreases MAX_ATTEMPTS - attempts
  {
    if attempts + 1 < MAX_ATTEMPTS {
      FetchPageGivesUp(reply, n + 1, attempts + 1);
    }
  }

  /** Two blocks with one event each; the second page is refused in the first round, all are answered later. */
  lemma EventsCanBeReturnedTwice()
    ensures var reply := (n: nat) => if 1 <= n <= MAX_ATTEMPTS then MoreThan else Answered;
      var chain := Chain((b: nat) => [b], 2);
      var query := PagedQuery(Config(1, 20), reply, Page(Number(1), Number(2)));
      query.Ok? && QueryRounds(chain, query.value) == [1, 1, 2] && Query(chain, Page(Number(1), Number(2))) == [1, 2]
  {
    var reply := (n: nat) => if 1 <= n <= MAX_ATTEMPTS then MoreThan else Answered;
    var at := (b: nat) => [b];
    var chain := Chain(at, 2);
    var one, two := Number(1), Number(2);
    var first, second := Page(one, one), Page(two, two);
    assert Pages(2, 2, 1) == [second] + Pages(3, 2, 1);
    assert Pages(1, 2, 1) == [first] + Pages(2, 2, 1) == [first, second];
    assert Split(one, two, 2) == Ok([first, second]) == Split(one, two, 8);
    FetchPageGivesUp(reply, 1, 0);
    assert FetchPages(reply, 0, 1) == Progress(1, Answered, 1);
    assert FetchPages(reply, 0, 2) == Progress(1, MoreThan, 101);
    assert FetchPages(reply, 101, 1) == Progress(1, Answered, 102);
    assert FetchPages(reply, 101, 2) == Progress(2, Answered, 103);
    assert Rounds(reply, 101, one, two, 8) == Ok([[first, second]]);
    assert [first, second][..1] == [first];
    assert Rounds(reply, 0, one, two, 2) == Prepend([[first]], Rounds(reply, 101, one, two, 8));
    assert [[first]] + [[first, second]] == [[first], [first, second]];
    TwoRounds(chain, first, second);
  }

  lemma TwoRounds(chain: Chain<nat>, first: Page, second: Page)
    requires chain == Chain(chain.at, 2) && chain.at(1) == [1] && chain.at(2) == [2]
    requires first == Page(Number(1), Number(1)) && second == Page(Number(2), Number(2))
    ensures QueryRounds(chain, [[first], [first, second]]) == [1, 1, 2]
    ensures Query(chain, Page(Number(1), Number(2))) == [1, 2]
  {
    assert LogsIn(chain.at, 3, 2) == [] == LogsIn(chain.at, 2, 1);
    assert LogsIn(chain.at, 1, 1) == [1] && LogsIn(chain.at, 2, 2) == [2];
    assert LogsIn(chain.at, 1, 2) == [1] + [2];
    assert QueryAll(chain, []) == [];
    assert [first][..0] == [] && QueryAll(chain, [first]) == [1];
    assert [first, second][..1] == [first] && QueryAll(chain, [first, second]) == [1] + [2];
    RoundsPrepend(chain, [first], [[first, second]]);
    RoundsPrepend(chain, [first, second], []);
    assert QueryRounds(chain, []) == [];
    assert [[first]] + [[first, second]] == [[first], [first, second]];
  }

  // ---------- The code ----------

  method GetLogsPagesForRange(config: Config, fromBlock: BlockNumber, toBlock: BlockNumber)
    returns (pages: Result<Positive, PagingError>)
    ensures pages == PagesForRange(config, fromBlock, toBlock)
    ensures pages == Err(OnlyNumbersSupported)
      <==> config.maxPageSize != MAX_SAFE_INTEGER && (fromBlock.Latest? || toBlock.Latest?)
    ensures config.maxPageSize == MAX_SAFE_INTEGER ==> pages == Ok(1)
    ensures fromBlock.Number? && toBlock.Number? && fromBlock.n > toBlock.n ==> pages == Ok(1)
    ensures
      (pages.Ok? && fromBlock.Number? && toBlock.Number? && fromBlock.n <= toBlock.n
       && config.maxPageSize != MAX_SAFE_INTEGER) ==>
        (pages.value - 1) * config.maxPageSize < toBlock.n - fromBlock.n + 1 <= pages.value * config.maxPageSize
  {
    if config.maxPageSize == MAX_SAFE_INTEGER {
      return Ok(1);
    }
    if !fromBlock.Number? || !toBlock.Number? {
      return Err(OnlyNumbersSupported);
    }
    var rangeSize := toBlock.n - fromBlock.n + 1;
    var pagesForRange := if rangeSize <= 0 then 0 else CeilDiv(rangeSize, config.maxPageSize);
    if rangeSize > 0 {
      CeilDivIsLeast(rangeSize, config.maxPageSize);
    }
    return Ok(if pagesForRange < 1 then 1 else pagesForRange);
  }

  method SplitRange(fromBlock: BlockNumber, toBlock: BlockNumber, parts: Positive)
    returns (pages: Result<seq<Page>, PagingError>)
    ensures pages == Split(fromBlock, toBlock, parts)
    ensures parts == 1 ==> pages == Ok([Page(fromBlock, toBlock)])
    ensures pages == Err(OnlyNumbersSupported) <==> parts > 1 && (fromBlock.Latest? || toBlock.Latest?)
    ensures pages.Ok? && fromBlock.Number? && toBlock.Number? && fromBlock.n <= toBlock.n ==>
      Covers(pages.value, fromBlock.n, toBlock.n) && |pages.value| <= parts
  {
    if parts == 1 {
      return Ok([Page(fromBlock, toBlock)]);
    }
    if !fromBlock.Number? || !toBlock.Number? {
      return Err(OnlyNumbersSupported);
    }
    if fromBlock.n > toBlock.n {
      return Ok([]);
    }
    var from, to := fromBlock.n, toBlock.n;
    SplitCovers(from, to, parts);
    CeilDivIsLeast(to - from + 1, parts);
    var list := SplitNumbers(from, to, CeilDiv(to - from + 1, parts));
    return Ok(list);
  }

  method SplitNumbers(from: nat, to: nat, splitSize: Positive) returns (list: seq<Page>)
    ensures list == Pages(from, to, splitSize)
  {
    list := [];
    var b := from;
    while b <= to
      invariant list + Pages(b, to, splitSize) == Pages(from, to, splitSize)
      decreases 1 + to - b
    {
      var page := Page(Number(b), Number(if to < b + splitSize - 1 then to else b + splitSize - 1));
      assert list + ([page] + Pages(b + splitSize, to, splitSize)) == list + [page] + Pages(b + splitSize, to, splitSize);
      list := list + [page];
      b := b + splitSize;
    }
    assert Pages(b, to, splitSize) == [];
  }

  /**
   The paged query. `reply(n)` is how the request number `n` ends, over all pages and attempts. The result is
   what the fetched pages return, those of abandoned rounds included.
   */
  method GetPastEventsPaginated<E>(
    config: Config, chain: Chain<E>, reply: nat -> Reply, fromBlock: Option<BlockNumber>, toBlock: Option<BlockNumber>)
    returns (events: Result<seq<E>, PagingError>)
    ensures events == ResultOf(chain, PagedQuery(config, reply, FullRange(config, fromBlock, toBlock, chain.head)))
    ensures IsPaged(config) && AllAnswered(reply) && IsNumberOrOmitted(fromBlock) && IsLatestOrOmitted(toBlock) ==>
      var start := if fromBlock.None? then 1 else fromBlock.value.n;
      events == AnsweredRange(config, chain, start, if start > chain.head then start else chain.head)
    ensures IsPaged(config) && AllAnswered(reply) && IsNumberOrOmitted(fromBlock) && IsNumber(toBlock) ==>
      var start, end := if fromBlock.None? then 1 else fromBlock.value.n, toBlock.value.n;
      events == if start > end then Err(FromAfterTo) else AnsweredRange(config, chain, start, end)
    ensures !IsPaged(config) && AllAnswered(reply) && IsNumberOrOmitted(fromBlock) && IsLatestOrOmitted(toBlock) ==>
      var start := if fromBlock.None? then 1 else fromBlock.value.n;
      events == if config.maxPageCount == 0 then Err(TooManyPages) else Ok(LogsIn(chain.at, start, chain.head))
  {
    if AllAnswered(reply) && IsNumberOrOmitted(fromBlock) {
      AnsweredQueryIsReturned(config, chain, reply, if fromBlock.None? then 1 else fromBlock.value.n, toBlock);
    }
    var to := if toBlock.Some? then toBlock.value else Latest;
    var from := if fromBlock.Some? then fromBlock.value else Number(1);
    if config.maxPageSize != MAX_SAFE_INTEGER && to.Latest? {
      to := Number(chain.head);
      if from.Number? && from.n > to.n {
        to := from;
      }
    }
    if from.Number? && to.Number? && from.n > to.n {
      return Err(FromAfterTo);
    }
    var pagesForRange := GetLogsPagesForRange(config, from, to);
    if pagesForRange.Err? {
      return Err(pagesForRange.error);
    }
    var pagesCurrent := pagesForRange.value;
    if pagesCurrent > config.maxPageCount {
      return Err(TooManyPages);
    }
    events := QueryInRounds(chain, reply, from, to, pagesForRange.value);
  }

  /** Splits further after every round that met too many events. */
  method QueryInRounds<E>(chain: Chain<E>, reply: nat -> Reply, from: BlockNumber, to: BlockNumber, pages: Positive)
    returns (events: Result<seq<E>, PagingError>)
    ensures events == ResultOf(chain, Rounds(reply, 0, from, to, pages))
  {
    var parts: seq<E>, n: nat, pagesCurrent := [], 0, pages;
    ghost var rounds: seq<seq<Page>> := [];
    PrependTwice([], [], Rounds(reply, 0, from, to, pages));
    while true
      invariant parts == QueryRounds(chain, rounds)
      invariant Prepend(rounds, Rounds(reply, n, from, to, pagesCurrent)) == Rounds(reply, 0, from, to, pages)
      decreases if pagesCurrent > 16 then 0 else 17 - pagesCurrent
    {
      var rangeParts := SplitRange(from, to, pagesCurrent);
      if rangeParts.Err? {
        return Err(rangeParts.error);
      }
      var progress;
      progress, parts := FetchRound(chain, reply, n, rangeParts.value, parts);
      ghost var fetched := rangeParts.value[..progress.fetched];
      AddRound(chain, rounds, fetched);
      if progress.last.Answered? {
        assert fetched == rangeParts.value;
        return Ok(parts);
      }
      if !progress.last.MoreThan? {
        return Err(QueryFailed);
      }
      if pagesCurrent > 16 {
        return Err(TooManyEvents);
      }
      PrependTwice(rounds, [fetched], Rounds(reply, progress.next, from, to, pagesCurrent * 4));
      pagesCurrent, n, rounds := pagesCurrent * 4, progress.next, rounds + [fetched];
    }
  }

  lemma AddRound<E>(chain: Chain<E>, rounds: seq<seq<Page>>, fetched: seq<Page>)
    ensures QueryRounds(chain, rounds + [fetched]) == QueryRounds(chain, rounds) + QueryAll(chain, fetched)
  {
    assert (rounds + [fetched])[..|rounds|] == rounds;
  }

  /** Fetches the pages in turn until one gives up, adding what they return to `parts`. */
  method FetchRound<E>(chain: Chain<E>, reply: nat -> Reply, start: nat, pages: seq<Page>, parts: seq<E>)
    returns (progress: Progress, allParts: seq<E>)
    ensures progress == FetchPages(reply, start, |pages|)
    ensures allParts == parts + QueryAll(chain, pages[..progress.fetched])
  {
    allParts := parts;
    var n := start;
    for i := 0 to |pages|
      invariant FetchPages(reply, start, i) == Progress(i, Answered, n)
      invariant allParts == parts + QueryAll(chain, pages[..i])
    {
      var last, next := FetchOnePage(reply, n);
      n := next;
      if !last.Answered? {
        FetchingStops(reply, start, i + 1, |pages|);
        return Progress(i, last, n), allParts;
      }
      assert pages[..i + 1][..i] == pages[..i];
      allParts := allParts + Query(chain, pages[i]);
    }
    return Progress(|pages|, Answered, n), allParts;
  }

  lemma {:induction false} FetchingStops(reply: nat -> Reply, n: nat, i: nat, count: nat)
    requires i <= count && !FetchPages(reply, n, i).last.Answered?
    ensures FetchPages(reply, n, count) == FetchPages(reply, n, i)
    decreases count - i
  {
    if i < count {
      FetchingStops(reply, n, i, count - 1);
    }
  }

  method FetchOnePage(reply: nat -> Reply, start: nat) returns (last: Reply, next: nat)
    ensures (last, next) == FetchPage(reply, start, 0)
  {
    var attempts: nat := 0;
    next := start;
    while true
      invariant attempts < MAX_ATTEMPTS
      invariant FetchPage(reply, next, attempts) == FetchPage(reply, start, 0)
      decreases MAX_ATTEMPTS - attempts
    {
      last := reply(next);
      next := next + 1;
      if last.Answered? {
        return;
      }
      attempts := attempts + 1;
      if attempts >= MAX_ATTEMPTS {
        return;
      }
    }
  }
}
