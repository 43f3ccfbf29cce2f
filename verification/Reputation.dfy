/**
 Paymaster reputation: `ReputationManager.ts` and `ReputationStoreManager.ts`. Each call about a
 paymaster is one step here (see ReputationRaces for calls that overlap). A paymaster's lower-cased address is an
 `Address`.
 */
module Reputation {
  import opened Wrappers
  import opened StoredTransactions

  datatype Change = Change(block: nat, change: int)

  datatype Entry = Entry(reputation: int, lastAccepted: int, abuseStarted: nat, changes: seq<Change>)

  datatype Config = Config(
    initialReputation: int,
    maximumReputation: int,
    throttleReputation: int,
    throttleDelay: int,
    blockReputation: int,
    abuseTimeoutReputation: int,
    abuseReputationChange: int,
    abuseTimeWindowBlocks: int)

  datatype Status = Good | Throttled | Abused | Blocked

  /** A call about one paymaster. */
  datatype Op =
    | GetStatus(block: nat, now: int)
    | RequestAccepted(now: int)
    | Update(success: bool, block: nat)

  // ---------- One call, on one entry ----------

  function NewEntry(c: Config): Entry {
    Entry(c.initialReputation, 0, 0, [])
  }

  function EntryOrNew(c: Config, entry: Option<Entry>): Entry {
    if entry.Some? then entry.value else NewEntry(c)
  }

  predicate BanIsOver(c: Config, e: Entry, block: nat) {
    e.reputation > c.blockReputation && e.abuseStarted != 0 && block - e.abuseStarted > c.abuseTimeWindowBlocks
  }

  function StatusOf(c: Config, e: Entry, block: nat, now: int): Status {
    if e.reputation <= c.blockReputation then Blocked
    else if e.abuseStarted != 0 && !BanIsOver(c, e, block) then Abused
    else if e.reputation < c.throttleReputation && now - e.lastAccepted <= c.throttleDelay then Throttled
    else Good
  }

  function AfterStatus(c: Config, e: Entry, block: nat): Entry {
    if BanIsOver(c, e, block) then e.(reputation := c.abuseTimeoutReputation, abuseStarted := 0) else e
  }

  function Delta(success: bool): int {
    if success then 1 else -1
  }

  function InWindow(changes: seq<Change>, block: nat, window: int): seq<Change> {
    if changes == [] then []
    else
      var n := |changes| - 1;
      InWindow(changes[..n], block, window) + (if block - changes[n].block < window then [changes[n]] else [])
  }

  function Sum(changes: seq<Change>): int {
    if changes == [] then 0 else Sum(changes[..|changes| - 1]) + changes[|changes| - 1].change
  }

  /** The net loss among `changes` in the window that ends at `block`. */
  function Loss(c: Config, changes: seq<Change>, block: nat): int {
    -Sum(InWindow(changes, block, c.abuseTimeWindowBlocks))
  }

  predicate IsIgnored(c: Config, e: Entry, success: bool) {
    e.reputation + Delta(success) > c.maximumReputation
  }

  predicate RaisesFlag(c: Config, e: Entry, success: bool, block: nat) {
    !IsIgnored(c, e, success) && Loss(c, e.changes, block) >= c.abuseReputationChange
  }

  /** A window that is not positive makes the store refuse the change. */
  predicate IsRefused(c: Config, e: Entry, success: bool) {
    !IsIgnored(c, e, success) && c.abuseTimeWindowBlocks <= 0
  }

  predicate IsApplied(c: Config, e: Entry, success: bool) {
    !IsIgnored(c, e, success) && !IsRefused(c, e, success)
  }

  /** The entry after the check for abuse, before the change is recorded. */
  function Flagged(c: Config, e: Entry, success: bool, block: nat): Entry {
    if RaisesFlag(c, e, success, block) then e.(abuseStarted := block) else e
  }

  function AfterUpdate(c: Config, e: Entry, success: bool, block: nat): Entry {
    var flagged := Flagged(c, e, success, block);
    if !IsApplied(c, e, success) then flagged
    else WithChange(flagged, Change(block, Delta(success)), c.abuseTimeWindowBlocks)
  }

  /** The change is added, and all changes out of the window that ends with it are pruned. */
  function WithChange(e: Entry, change: Change, window: int): Entry {
    e.(reputation := e.reputation + change.change,
       changes := InWindow(e.changes + [change], change.block, window))
  }

  function After(c: Config, entry: Option<Entry>, op: Op): Option<Entry> {
    match op
    case GetStatus(block, _) => Some(AfterStatus(c, EntryOrNew(c, entry), block))
    case RequestAccepted(now) => if entry.Some? then Some(entry.value.(lastAccepted := now)) else None
    case Update(success, block) => Some(AfterUpdate(c, EntryOrNew(c, entry), success, block))
  }

  // ---------- Runs ----------

  function Run(c: Config, ops: seq<Op>): Option<Entry> {
    if ops == [] then None else After(c, Run(c, ops[..|ops| - 1]), ops[|ops| - 1])
  }

  /** What is remembered of a run without ever pruning. */
  datatype History = History(
    applied: seq<Change>, base: int, sinceReset: seq<Change>, flaggedAt: nat, isKnown: bool, acceptedAt: int)
  {
    function Reputation(): int {
      base + Sum(sinceReset)
    }

    /** A flag has been raised, and no more than a window of blocks has passed since. */
    predicate IsInBan(c: Config, block: nat) {
      flaggedAt != 0 && block - flaggedAt <= c.abuseTimeWindowBlocks
    }
  }

  /**
   All changes ever applied; the last reset of the reputation and the changes applied since; the last flag; whether
   there is an entry yet, and when a request was last accepted.
   */
  function HistoryOf(c: Config, ops: seq<Op>): History {
    if ops == [] then History([], c.initialReputation, [], 0, false, 0)
    else
      var n := |ops| - 1;
      Remember(c, HistoryOf(c, ops[..n]), EntryOrNew(c, Run(c, ops[..n])), ops[n])
  }

  function Remember(c: Config, h: History, e: Entry, op: Op): History {
    match op
    case GetStatus(block, _) =>
      var known := h.(isKnown := true);
      if h.Reputation() > c.blockReputation && h.flaggedAt != 0 && !h.IsInBan(c, block) then
        known.(base := c.abuseTimeoutReputation, sinceReset := [], flaggedAt := 0)
      else known
    case RequestAccepted(now) => if h.isKnown then h.(acceptedAt := now) else h
    case Update(success, block) =>
      var known := h.(isKnown := true);
      var flagged := if RaisesFlag(c, e, success, block) then known.(flaggedAt := block) else known;
      if IsApplied(c, e, success) then
        var change := Change(block, Delta(success));
        flagged.(applied := h.applied + [change], sinceReset := h.sinceReset + [change])
      else flagged
  }

  /** The block is not before any update of the run. */
  predicate NotBefore(ops: seq<Op>, block: nat) {
    forall i :: 0 <= i < |ops| && ops[i].Update? ==> ops[i].block <= block
  }

  // ---------- Windows ----------

  lemma {:induction false} WindowAppend(changes: seq<Change>, change: Change, block: nat, window: int)
    ensures InWindow(changes + [change], block, window) ==
            InWindow(changes, block, window) + (if block - change.block < window then [change] else [])
  {
    assert (changes + [change])[..|changes|] == changes;
  }

  /** A window holds just the changes less than `window` blocks old, each as often as it was applied. */
  lemma {:induction false} WindowExactly(changes: seq<Change>, block: nat, window: int, change: Change)
    ensures multiset(InWindow(changes, block, window))[change]
         == if block < change.block + window then multiset(changes)[change] else 0
  {
    if changes != [] {
      var n := |changes| - 1;
      var before := changes[..n];
      WindowExactly(before, block, window, change);
      assert changes == before + [changes[n]];
      WindowAppend(before, changes[n], block, window);
    }
  }

  lemma {:induction false} SumAppend(changes: seq<Change>, change: Change)
    ensures Sum(changes + [change]) == Sum(changes) + change.change
  {
    assert (changes + [change])[..|changes|] == changes;
  }

  /** Pruning at one block does not change any later window. */
  lemma {:induction false} LaterWindow(changes: seq<Change>, pruned: nat, block: nat, window: int)
    requires pruned <= block
    ensures InWindow(InWindow(changes, pruned, window), block, window) == InWindow(changes, block, window)
  {
    if changes != [] {
      var n := |changes| - 1;
      LaterWindow(changes[..n], pruned, block, window);
      var before := InWindow(changes[..n], pruned, window);
      if pruned - changes[n].block < window {
        WindowAppend(before, changes[n], block, window);
      } else {
        assert InWindow(changes, pruned, window) == before;
      }
    }
  }

  // ---------- The pruned log against the full history ----------

  ghost predicate SameWindows(c: Config, changes: seq<Change>, applied: seq<Change>, block: nat) {
    InWindow(changes, block, c.abuseTimeWindowBlocks) == InWindow(applied, block, c.abuseTimeWindowBlocks)
  }

  lemma {:induction false} WindowsAgree(c: Config, ops: seq<Op>, block: nat)
    requires NotBefore(ops, block)
    ensures SameWindows(c, EntryOrNew(c, Run(c, ops)).changes, HistoryOf(c, ops).applied, block)
  {
    if ops != [] {
      var n := |ops| - 1;
      WindowsAgree(c, ops[..n], block);
      var e, h, op := EntryOrNew(c, Run(c, ops[..n])), HistoryOf(c, ops[..n]), ops[n];
      if op.Update? && IsApplied(c, e, op.success) {
        WindowsAgreeAfterUpdate(c, e, h, op.success, op.block, block);
      }
    }
  }

  lemma WindowsAgreeAfterUpdate(c: Config, e: Entry, h: History, success: bool, at: nat, block: nat)
    requires SameWindows(c, e.changes, h.applied, block) && at <= block
    ensures var change := Change(at, Delta(success));
      SameWindows(c, InWindow(e.changes + [change], at, c.abuseTimeWindowBlocks), h.applied + [change], block)
  {
    var change := Change(at, Delta(success));
    LaterWindow(e.changes + [change], at, block, c.abuseTimeWindowBlocks);
    WindowAppend(e.changes, change, block, c.abuseTimeWindowBlocks);
    WindowAppend(h.applied, change, block, c.abuseTimeWindowBlocks);
  }

  /** The abuse rule, decided on the pruned log, is the rule on the full history: in every run, in both directions. */
  lemma FlagIsRaisedExactly(c: Config, ops: seq<Op>, success: bool, block: nat)
    requires NotBefore(ops, block)
    ensures var e := EntryOrNew(c, Run(c, ops));
      RaisesFlag(c, e, success, block) <==>
        !IsIgnored(c, e, success) && Loss(c, HistoryOf(c, ops).applied, block) >= c.abuseReputationChange
  {
    WindowsAgree(c, ops, block);
  }

  /** An update that does not raise the flag leaves a net loss of at most the allowed one. */
  lemma UnflaggedLossIsBounded(c: Config, ops: seq<Op>, success: bool, block: nat)
    requires NotBefore(ops, block)
    requires var e := EntryOrNew(c, Run(c, ops)); IsApplied(c, e, success) && !RaisesFlag(c, e, success, block)
    ensures Loss(c, HistoryOf(c, ops + [Update(success, block)]).applied, block) <= c.abuseReputationChange
  {
    var all := ops + [Update(success, block)];
    assert all[..|all| - 1] == ops;
    var applied, change := HistoryOf(c, ops).applied, Change(block, Delta(success));
    FlagIsRaisedExactly(c, ops, success, block);
    WindowAppend(applied, change, block, c.abuseTimeWindowBlocks);
    SumAppend(InWindow(applied, block, c.abuseTimeWindowBlocks), change);
  }

  predicate Agrees(c: Config, e: Entry, h: History) {
    && e.reputation == h.Reputation() && e.lastAccepted == h.acceptedAt
    && (h.base == c.initialReputation || h.base == c.abuseTimeoutReputation)
    && e.abuseStarted == h.flaggedAt
    && (e.reputation <= c.maximumReputation || e.reputation <= h.base)
  }

  /** In every run the reputation is the last reset value plus every change applied since, and is bounded. */
  lemma {:induction false} ReputationIsBasePlusChanges(c: Config, ops: seq<Op>)
    ensures Agrees(c, EntryOrNew(c, Run(c, ops)), HistoryOf(c, ops))
    ensures Run(c, ops).Some? <==> HistoryOf(c, ops).isKnown
  {
    if ops != [] {
      var n := |ops| - 1;
      ReputationIsBasePlusChanges(c, ops[..n]);
      var e, h, op := EntryOrNew(c, Run(c, ops[..n])), HistoryOf(c, ops[..n]), ops[n];
      if op.Update? {
        UpdateKeepsAgreement(c, e, h, op.success, op.block);
      }
    }
  }

  lemma UpdateKeepsAgreement(c: Config, e: Entry, h: History, success: bool, block: nat)
    requires Agrees(c, e, h)
    ensures Agrees(c, AfterUpdate(c, e, success, block), Remember(c, h, e, Update(success, block)))
  {
    SumAppend(h.sinceReset, Change(block, Delta(success)));
  }

  /** With reset values within the maximum, no run exceeds it. */
  lemma ReputationNeverExceedsMaximum(c: Config, ops: seq<Op>)
    requires c.initialReputation <= c.maximumReputation && c.abuseTimeoutReputation <= c.maximumReputation
    ensures EntryOrNew(c, Run(c, ops)).reputation <= c.maximumReputation
  {
    ReputationIsBasePlusChanges(c, ops);
  }

  /** More than one above the maximum, not even a failure counts any more: nothing brings the reputation down. */
  lemma FarAboveMaximumNothingCounts(c: Config, e: Entry, success: bool, block: nat)
    requires e.reputation > c.maximumReputation + 1
    ensures AfterUpdate(c, e, success, block) == e
  {
  }

  // ---------- Bans ----------

  /** A paymaster above the block level is banned exactly while a window has not passed since its last flag. */
  lemma BanLastsOneWindow(c: Config, ops: seq<Op>, block: nat, now: int)
    ensures var e, h := EntryOrNew(c, Run(c, ops)), HistoryOf(c, ops);
      StatusOf(c, e, block, now) == Abused <==>
        h.base + Sum(h.sinceReset) > c.blockReputation && h.flaggedAt != 0
        && block - h.flaggedAt <= c.abuseTimeWindowBlocks
  {
    ReputationIsBasePlusChanges(c, ops);
  }

  /** The three other answers, from what has happened to the paymaster so far. */
  lemma StatusIsExactly(c: Config, ops: seq<Op>, block: nat, now: int)
    ensures var status, h := StatusOf(c, EntryOrNew(c, Run(c, ops)), block, now), HistoryOf(c, ops);
      var reputation := h.base + Sum(h.sinceReset);
      var banned := h.flaggedAt != 0 && block - h.flaggedAt <= c.abuseTimeWindowBlocks;
      && (status == Blocked <==> reputation <= c.blockReputation)
      && (status == Throttled <==>
            && reputation > c.blockReputation && !banned
            && reputation < c.throttleReputation && now - h.acceptedAt <= c.throttleDelay)
      && (status == Good <==>
            && reputation > c.blockReputation && !banned
            && (reputation >= c.throttleReputation || now - h.acceptedAt > c.throttleDelay))
  {
    ReputationIsBasePlusChanges(c, ops);
  }

  /** The call that lifts a ban answers by the reputation before the reset; a second call may answer otherwise. */
  lemma AnswerAfterBanIsStale(c: Config, e: Entry, block: nat, now: int)
    requires BanIsOver(c, e, block)
    ensures StatusOf(c, AfterStatus(c, e, block), block, now) == StatusOf(c, e, block, now) <==>
      && c.abuseTimeoutReputation > c.blockReputation
      && (now - e.lastAccepted > c.throttleDelay
          || (e.reputation < c.throttleReputation <==> c.abuseTimeoutReputation < c.throttleReputation))
  {
  }

  /** A loss at block zero sets no flag: there the flag's block is its absence. */
  lemma NoFlagAtBlockZero(c: Config, e: Entry, success: bool)
    requires RaisesFlag(c, e, success, 0)
    ensures AfterUpdate(c, e, success, 0).abuseStarted == 0
  {
  }

  // ---------- The code ----------

  datatype StoreError = InvalidExpiration | NoEntry

  /** One entry for each paymaster. */
  class ReputationStoreManager {
    var entries: map<Address, Entry>

    constructor ()
      ensures entries == map[]
    {
      entries := map[];
    }

    function Find(paymaster: Address): Option<Entry>
      reads this
    {
      if paymaster in entries then Some(entries[paymaster]) else None
    }

    method CreateEntry(paymaster: Address, reputation: int) returns (entry: Entry)
      requires paymaster !in entries
      modifies this
      ensures entry == Entry(reputation, 0, 0, []) && entries == old(entries)[paymaster := entry]
    {
      entry := Entry(reputation, 0, 0, []);
      entries := entries[paymaster := entry];
    }

    method ClearAbuseFlag(paymaster: Address, reputation: int)
      requires paymaster in entries
      modifies this
      ensures entries == old(entries)[paymaster := old(entries)[paymaster].(reputation := reputation, abuseStarted := 0)]
    {
      entries := entries[paymaster := entries[paymaster].(reputation := reputation, abuseStarted := 0)];
    }

    method SetAbuseFlag(paymaster: Address, block: nat)
      requires paymaster in entries
      modifies this
      ensures entries == old(entries)[paymaster := old(entries)[paymaster].(abuseStarted := block)]
    {
      entries := entries[paymaster := entries[paymaster].(abuseStarted := block)];
    }

    method UpdateLastAcceptedTimestamp(paymaster: Address, now: int) returns (error: Option<StoreError>)
      modifies this
      ensures error == if paymaster in old(entries) then None else Some(NoEntry)
      ensures entries == if paymaster in old(entries)
                         then old(entries)[paymaster := old(entries)[paymaster].(lastAccepted := now)] else old(entries)
    {
      if paymaster !in entries {
        return Some(NoEntry);
      }
      entries := entries[paymaster := entries[paymaster].(lastAccepted := now)];
      return None;
    }

    /** Adds the change and prunes all changes up to the expiration block. */
    method UpdatePaymasterReputation(paymaster: Address, change: int, oldChangesExpirationBlock: int, block: nat)
      returns (error: Option<StoreError>)
      requires paymaster in entries
      modifies this
      ensures error == if block <= oldChangesExpirationBlock then Some(InvalidExpiration) else None
      ensures error.Some? ==> entries == old(entries)
      ensures error.None? ==> entries == old(entries)[paymaster :=
          WithChange(old(entries)[paymaster], Change(block, change), block - oldChangesExpirationBlock)]
    {
      if block <= oldChangesExpirationBlock {
        return Some(InvalidExpiration);
      }
      var existing := entries[paymaster];
      var all := existing.changes + [Change(block, change)];
      var changes := [];
      for i := 0 to |all|
        invariant changes == InWindow(all[..i], block, block - oldChangesExpirationBlock)
      {
        assert all[..i + 1][..i] == all[..i];
        if all[i].block > oldChangesExpirationBlock {
          changes := changes + [all[i]];
        }
      }
      assert all[..|all|] == all;
      entries := entries[paymaster := existing.(reputation := existing.reputation + change, changes := changes)];
      return None;
    }
  }

  /** The filter and reduce that decide about the abuse flag. */
  method ChangeInWindow(changes: seq<Change>, block: nat, window: int) returns (sum: int)
    ensures sum == Sum(InWindow(changes, block, window))
  {
    sum := 0;
    for i := 0 to |changes|
      invariant sum == Sum(InWindow(changes[..i], block, window))
    {
      var before := InWindow(changes[..i], block, window);
      assert changes[..i + 1][..i] == changes[..i];
      if block - changes[i].block < window {
        SumAppend(before, changes[i]);
        sum := sum + changes[i].change;
      } else {
        assert InWindow(changes[..i + 1], block, window) == before;
      }
    }
    assert changes[..|changes|] == changes;
  }

  class ReputationManager {
    const config: Config
    const store: ReputationStoreManager

    constructor (config: Config, store: ReputationStoreManager)
      ensures this.config == config && this.store == store
    {
      this.config, this.store := config, store;
    }

    method GetOrCreateEntry(paymaster: Address) returns (entry: Entry)
      modifies store
      ensures entry == EntryOrNew(config, old(store.Find(paymaster)))
      ensures store.entries == old(store.entries)[paymaster := entry]
    {
      if paymaster in store.entries {
        entry := store.entries[paymaster];
      } else {
        entry := store.CreateEntry(paymaster, config.initialReputation);
      }
    }

    method GetPaymasterStatus(paymaster: Address, block: nat, now: int) returns (status: Status)
      modifies store
      ensures status == StatusOf(config, EntryOrNew(config, old(store.Find(paymaster))), block, now)
      ensures store.entries == old(store.entries)[
        paymaster := After(config, old(store.Find(paymaster)), GetStatus(block, now)).value]
      ensures var before, after := EntryOrNew(config, old(store.Find(paymaster))), store.entries[paymaster];
        if before.reputation > config.blockReputation && before.abuseStarted != 0
           && block - before.abuseStarted > config.abuseTimeWindowBlocks
        then after == before.(reputation := config.abuseTimeoutReputation, abuseStarted := 0)
        else after == before
    {
      var entry := GetOrCreateEntry(paymaster);
      if entry.reputation <= config.blockReputation {
        return Blocked;
      }
      if entry.abuseStarted != 0 {
        if block - entry.abuseStarted <= config.abuseTimeWindowBlocks {
          return Abused;
        }
        store.ClearAbuseFlag(paymaster, config.abuseTimeoutReputation);
      }
      return if entry.reputation < config.throttleReputation && now - entry.lastAccepted <= config.throttleDelay
             then Throttled else Good;
    }

    method OnRelayRequestAccepted(paymaster: Address, now: int) returns (error: Option<StoreError>)
      modifies store
      ensures error == if paymaster in old(store.entries) then None else Some(NoEntry)
      ensures store.Find(paymaster) == After(config, old(store.Find(paymaster)), RequestAccepted(now))
      ensures store.entries - {paymaster} == old(store.entries) - {paymaster}
    {
      error := store.UpdateLastAcceptedTimestamp(paymaster, now);
    }

    /** The flag is set before the store refuses the change, so a refused update may still flag. */
    method UpdatePaymasterStatus(paymaster: Address, success: bool, block: nat) returns (error: Option<StoreError>)
      modifies store
      ensures error == if IsRefused(config, EntryOrNew(config, old(store.Find(paymaster))), success)
                       then Some(InvalidExpiration) else None
      ensures store.entries == old(store.entries)[
        paymaster := After(config, old(store.Find(paymaster)), Update(success, block)).value]
      ensures var before, after := EntryOrNew(config, old(store.Find(paymaster))), store.entries[paymaster];
        var change := if success then 1 else -1;
        && after.lastAccepted == before.lastAccepted
        && (before.reputation + change > config.maximumReputation ==> after == before && error.None?)
        && (before.reputation + change <= config.maximumReputation ==>
              && (error.Some? <==> config.abuseTimeWindowBlocks <= 0)
              && after.reputation == (if error.None? then before.reputation + change else before.reputation)
              && after.abuseStarted ==
                 if Loss(config, before.changes, block) >= config.abuseReputationChange then block
                 else before.abuseStarted)
    {
      var change := if success then 1 else -1;
      var entry := GetOrCreateEntry(paymaster);
      if entry.reputation + change > config.maximumReputation {
        return None;
      }
      error := RecordChange(paymaster, entry, success, block);
    }

    method RecordChange(paymaster: Address, entry: Entry, success: bool, block: nat) returns (error: Option<StoreError>)
      requires paymaster in store.entries && store.entries[paymaster] == entry
      requires !IsIgnored(config, entry, success)
      modifies store
      ensures error == if IsRefused(config, entry, success) then Some(InvalidExpiration) else None
      ensures store.entries == old(store.entries)[paymaster := AfterUpdate(config, entry, success, block)]
    {
      FlagIfAbused(paymaster, entry, success, block);
      var oldChangesExpirationBlock := block - config.abuseTimeWindowBlocks;
      error := store.UpdatePaymasterReputation(paymaster, Delta(success), oldChangesExpirationBlock, block);
    }

    method FlagIfAbused(paymaster: Address, entry: Entry, success: bool, block: nat)
      requires paymaster in store.entries && store.entries[paymaster] == entry
      requires !IsIgnored(config, entry, success)
      modifies store
      ensures store.entries == old(store.entries)[paymaster := Flagged(config, entry, success, block)]
    {
      var changeInAbuseWindow := ChangeInWindow(entry.changes, block, config.abuseTimeWindowBlocks);
      if -changeInAbuseWindow >= config.abuseReputationChange {
        store.SetAbuseFlag(paymaster, block);
      }
    }
  }
}
