/**
 The relay's funds: topping up manager and worker (`replenishServer`) and paying out to the owner
 (`withdrawToOwnerIfNeeded`) in `RelayServer.ts`, under the parameters `validateBalanceParams` of
 `ServerConfigParams.ts` admits. Gas is not counted.
 */
module Balances {
  import opened Wrappers

  datatype Config = Config(
    managerMin: nat, managerTarget: nat, workerMin: nat, workerTarget: nat, withdrawOn: Option<nat>)

  datatype ParamError = ManagerTargetTooLow | WorkerTargetTooLow | WithdrawOnTooLow

  predicate ValidParams(c: Config) {
    && c.managerMin <= c.managerTarget && c.workerMin <= c.workerTarget
    && (c.withdrawOn.Some? ==> c.managerTarget + c.workerTarget < c.withdrawOn.value)
  }

  /** Funds on the chain. `inTransit` has left the hub but does not show in the manager's balance yet. */
  datatype Funds = Funds(manager: nat, hub: nat, worker: nat, owner: nat, inTransit: nat) {
    function Total(): nat {
      manager + hub + worker + owner + inTransit
    }
  }

  /** What is under way already, and whether a hub withdrawal shows as soon as it is sent. */
  datatype Pending = Pending(withdrawal: bool, topUp: bool, settlesAtOnce: bool)

  predicate NeedsWorker(c: Config, f: Funds, p: Pending) {
    f.worker < c.workerMin && !p.topUp
  }

  predicate NeedsManager(c: Config, f: Funds, p: Pending) {
    f.manager < c.managerMin && !p.withdrawal
  }

  function WorkerAmount(c: Config, f: Funds): int {
    c.workerTarget - f.worker
  }

  predicate WithdrawsHub(c: Config, f: Funds, p: Pending) {
    || (NeedsManager(c, f, p) && f.hub >= c.managerTarget - f.manager)
    || (NeedsWorker(c, f, p) && f.manager - c.managerMin < WorkerAmount(c, f)
        && f.hub + f.manager - c.managerMin >= WorkerAmount(c, f))
  }

  /** The whole hub balance moves to the manager. */
  function AfterHubWithdrawal(f: Funds, settlesAtOnce: bool): Funds {
    if settlesAtOnce then f.(hub := 0, manager := f.manager + f.hub)
    else f.(hub := 0, inTransit := f.inTransit + f.hub)
  }

  function BeforeTopUp(c: Config, f: Funds, p: Pending): Funds {
    if WithdrawsHub(c, f, p) then AfterHubWithdrawal(f, p.settlesAtOnce) else f
  }

  predicate TopsUp(c: Config, f: Funds, p: Pending) {
    NeedsWorker(c, f, p) && WorkerAmount(c, f) < BeforeTopUp(c, f, p).manager - c.managerMin
  }

  function Replenished(c: Config, f: Funds, p: Pending): Funds
    requires ValidParams(c)
  {
    var g := BeforeTopUp(c, f, p);
    if TopsUp(c, f, p) then g.(manager := g.manager - WorkerAmount(c, f), worker := c.workerTarget) else g
  }

  /** Pending hub withdrawals are mined. */
  function Settled(f: Funds): Funds {
    f.(manager := f.manager + f.inTransit, inTransit := 0)
  }

  predicate PaysOwner(c: Config, f: Funds) {
    c.withdrawOn.Some? && f.hub >= c.withdrawOn.value + c.managerTarget + c.workerTarget
  }

  function AfterPayout(c: Config, f: Funds): Funds {
    if PaysOwner(c, f) then
      var reserve := c.managerTarget + c.workerTarget;
      f.(hub := reserve, owner := f.owner + f.hub - reserve)
    else f
  }

  // ---------- What each operation guarantees ----------

  /** A top-up sends a positive amount, fills the worker to its target, and leaves the manager above its minimum. */
  lemma TopUpKeepsManager(c: Config, f: Funds, p: Pending)
    requires ValidParams(c) && TopsUp(c, f, p)
    ensures WorkerAmount(c, f) > 0
    ensures Replenished(c, f, p).worker == c.workerTarget && Replenished(c, f, p).manager > c.managerMin
  {
  }

  /** A payout happens exactly above the threshold, is positive, and leaves the reserve for manager and worker. */
  lemma PayoutLeavesReserve(c: Config, f: Funds)
    requires ValidParams(c)
    ensures AfterPayout(c, f) != f <==> PaysOwner(c, f)
    ensures PaysOwner(c, f) ==>
      AfterPayout(c, f).hub == c.managerTarget + c.workerTarget
      && AfterPayout(c, f).owner - f.owner >= c.withdrawOn.value
      && AfterPayout(c, f).owner - f.owner > c.managerTarget + c.workerTarget
  {
  }

  /**
   A worker below its minimum is not topped up exactly if the manager's surplus over its minimum is what the worker
   lacks, or is less and would not exceed it even with the whole hub balance.
   */
  lemma TopUpFailsExactlyWhen(c: Config, f: Funds, p: Pending)
    requires ValidParams(c) && NeedsWorker(c, f, p) && p.settlesAtOnce
    ensures var lacking, surplus := WorkerAmount(c, f), f.manager - c.managerMin;
      !TopsUp(c, f, p) <==> surplus == lacking || (surplus < lacking && surplus + f.hub <= lacking)
  {
  }

  // ---------- One round from the reserve ----------

  /** Both balances are at least their minimums. */
  predicate Refilled(c: Config, f: Funds) {
    f.manager >= c.managerMin && f.worker >= c.workerMin
  }

  const NOTHING_PENDING := Pending(false, false, true)

  /**
   The reserve is enough for the next round to refill both manager and worker, except in two cases of equality:
   when just the manager's surplus over its minimum is what the worker lacks (then nothing is withdrawn, and the
   strict comparison before the top-up fails), and when everything together is just the minimum and the target.
   */
  lemma ReserveRefillsBoth(c: Config, f: Funds)
    requires ValidParams(c) && f.hub == c.managerTarget + c.workerTarget && f.inTransit == 0
    ensures Refilled(c, Replenished(c, f, NOTHING_PENDING)) <==>
      || f.worker >= c.workerMin
      || (f.manager - c.managerMin != WorkerAmount(c, f)
          && f.manager + c.managerTarget + f.worker > c.managerMin)
  {
  }

  /** In the case of equality the server is stuck: replenishing again and again changes nothing. */
  lemma EqualSurplusIsStuck(c: Config, f: Funds)
    requires ValidParams(c) && f.worker < c.workerMin && f.manager - c.managerMin == WorkerAmount(c, f)
    ensures Replenished(c, f, NOTHING_PENDING) == f
  {
  }

  /** A hub withdrawal that does not show yet delays the top-up to the round after it has settled. */
  lemma LateSettlementCatchesUp(c: Config, f: Funds)
    requires ValidParams(c) && f.inTransit == 0 && f.manager >= c.managerMin
    requires WithdrawsHub(c, f, Pending(false, false, false))
    requires f.hub + f.manager - c.managerMin > WorkerAmount(c, f)
    ensures !TopsUp(c, f, Pending(false, false, false))
    ensures var later := Settled(Replenished(c, f, Pending(false, false, false)));
      Refilled(c, Replenished(c, later, NOTHING_PENDING))
  {
  }

  // ---------- Round after round ----------

  /**
   The funds after `n` rounds, in each of which nothing older is pending. Round `i` sees its hub withdrawal at once
   if `settles(i)`; otherwise it shows by the next round.
   */
  function AfterRounds(c: Config, f: Funds, settles: nat -> bool, n: nat): Funds
    requires ValidParams(c)
  {
    if n == 0 then Settled(f)
    else Settled(Replenished(c, AfterRounds(c, f, settles, n - 1), Pending(false, false, settles(n - 1))))
  }

  /**
   What the funds must be. A worker in need takes a surplus other than what it lacks, and enough in all; a manager
   in need alone takes the hub balance.
   */
  predicate CanRefill(c: Config, f: Funds) {
    var lacking, surplus := WorkerAmount(c, f), f.manager - c.managerMin;
    if f.worker < c.workerMin then surplus != lacking && (surplus > lacking || surplus + f.hub > lacking)
    else surplus >= 0 || f.hub >= c.managerTarget - f.manager
  }

  ghost predicate EventuallyRefilled(c: Config, f: Funds, settles: nat -> bool)
    requires ValidParams(c)
  {
    exists n: nat :: Refilled(c, AfterRounds(c, f, settles, n))
  }

  /** A round takes refillable funds to refilled ones, or to funds that need no more withdrawal. */
  lemma RoundKeepsRefillable(c: Config, f: Funds, settles: bool)
    requires ValidParams(c) && f.inTransit == 0
    ensures var g := Settled(Replenished(c, f, Pending(false, false, settles)));
      && g.inTransit == 0 && g.Total() == f.Total() && g.worker >= f.worker
      && (CanRefill(c, g) <==> CanRefill(c, f))
      && (Refilled(c, f) ==> g == f)
  {
  }

  /** Two rounds suffice: one to withdraw, one to top up. */
  lemma TwoRoundsSuffice(c: Config, f: Funds, first: bool, second: bool)
    requires ValidParams(c) && f.inTransit == 0 && CanRefill(c, f)
    ensures var g := Settled(Replenished(c, f, Pending(false, false, first)));
      Refilled(c, Settled(Replenished(c, g, Pending(false, false, second))))
  {
  }

  /** Over any number of rounds funds are conserved, the worker never loses, and being refillable never changes. */
  lemma {:induction false} RoundsKeepRefillable(c: Config, f: Funds, settles: nat -> bool, n: nat)
    requires ValidParams(c)
    ensures var g := AfterRounds(c, f, settles, n);
      && g.inTransit == 0 && g.Total() == f.Total() && g.worker >= f.worker
      && (CanRefill(c, g) <==> CanRefill(c, Settled(f)))
  {
    if n > 0 {
      RoundsKeepRefillable(c, f, settles, n - 1);
      RoundKeepsRefillable(c, AfterRounds(c, f, settles, n - 1), settles(n - 1));
    }
  }

  lemma TwoRoundsRefill(c: Config, f: Funds, settles: nat -> bool)
    requires ValidParams(c) && CanRefill(c, Settled(f))
    ensures Refilled(c, AfterRounds(c, f, settles, 2))
  {
    TwoRoundsSuffice(c, Settled(f), settles(0), settles(1));
    assert AfterRounds(c, f, settles, 0) == Settled(f);
    var first := AfterRounds(c, f, settles, 1);
    assert first == Settled(Replenished(c, Settled(f), Pending(false, false, settles(0))));
    assert AfterRounds(c, f, settles, 2) == Settled(Replenished(c, first, Pending(false, false, settles(1))));
  }

  /**
   From which funds repeated rounds ever get both balances to their minimums: exactly from the refillable ones, and
   then within two rounds, however late withdrawals show.
   */
  lemma EventuallyRefilledIff(c: Config, f: Funds, settles: nat -> bool)
    requires ValidParams(c)
    ensures EventuallyRefilled(c, f, settles) <==> CanRefill(c, Settled(f))
    ensures CanRefill(c, Settled(f)) ==> Refilled(c, AfterRounds(c, f, settles, 2))
  {
    if n: nat :| Refilled(c, AfterRounds(c, f, settles, n)) {
      RoundsKeepRefillable(c, f, settles, n);
    }
    if CanRefill(c, Settled(f)) {
      TwoRoundsRefill(c, f, settles);
    }
  }

  /** Once refilled, always refilled: further rounds change nothing. */
  lemma {:induction false} RefilledForGood(c: Config, f: Funds, settles: nat -> bool, i: nat, j: nat)
    requires ValidParams(c) && i <= j && Refilled(c, AfterRounds(c, f, settles, i))
    ensures AfterRounds(c, f, settles, j) == AfterRounds(c, f, settles, i)
    decreases j
  {
    if i < j {
      RefilledForGood(c, f, settles, i, j - 1);
      RoundsKeepRefillable(c, f, settles, j - 1);
      RoundKeepsRefillable(c, AfterRounds(c, f, settles, j - 1), settles(j - 1));
    }
  }

  /**
   After a payout the reserve lets the following rounds refill both balances, except in two cases of equality: when
   the manager's surplus is just what the worker lacks (then nothing is withdrawn, and the strict comparison before
   the top-up fails), and when everything together is just the minimum and the target.
   */
  lemma ReserveRefillsBothIff(c: Config, f: Funds, settles: nat -> bool)
    requires ValidParams(c) && PaysOwner(c, f) && f.inTransit == 0
    ensures EventuallyRefilled(c, AfterPayout(c, f), settles) <==>
      || f.worker >= c.workerMin
      || (f.manager - c.managerMin != WorkerAmount(c, f)
          && f.manager + c.managerTarget + f.worker > c.managerMin)
  {
    EventuallyRefilledIff(c, AfterPayout(c, f), settles);
  }

  // ---------- The code ----------

  function ValidateBalanceParams(c: Config): (error: Option<ParamError>)
    ensures error == None <==> ValidParams(c)
    ensures error == Some(ManagerTargetTooLow) <==> c.managerMin > c.managerTarget
    ensures error == Some(WorkerTargetTooLow) <==> c.managerMin <= c.managerTarget && c.workerMin > c.workerTarget
    ensures error == Some(WithdrawOnTooLow) <==>
      && c.managerMin <= c.managerTarget && c.workerMin <= c.workerTarget
      && c.withdrawOn.Some? && c.withdrawOn.value <= c.managerTarget + c.workerTarget
  {
    if c.managerTarget < c.managerMin then Some(ManagerTargetTooLow)
    else if c.workerTarget < c.workerMin then Some(WorkerTargetTooLow)
    else if c.withdrawOn.None? then None
    else if c.managerTarget + c.workerTarget >= c.withdrawOn.value then Some(WithdrawOnTooLow)
    else None
  }

  class RelayServer {
    const config: Config
    var funds: Funds

    constructor (config: Config, funds: Funds)
      ensures this.config == config && this.funds == funds
    {
      this.config, this.funds := config, funds;
    }

    method ReplenishServer(p: Pending) returns (withdrew: bool, toppedUp: bool)
      requires ValidParams(config)
      modifies this
      ensures funds == Replenished(config, old(funds), p)
      ensures withdrew == WithdrawsHub(config, old(funds), p) && toppedUp == TopsUp(config, old(funds), p)
      ensures funds.Total() == old(funds).Total()
      ensures toppedUp ==> funds.worker == config.workerTarget && funds.manager > config.managerMin
      ensures var lacking, surplus := config.workerTarget - old(funds).worker, old(funds).manager - config.managerMin;
        var needsWorker := old(funds).worker < config.workerMin && !p.topUp;
        var needsManager := old(funds).manager < config.managerMin && !p.withdrawal;
        && (withdrew <==>
              || (needsManager && old(funds).manager + old(funds).hub >= config.managerTarget)
              || (needsWorker && surplus < lacking && lacking <= surplus + old(funds).hub))
        && (toppedUp <==>
              needsWorker && lacking < surplus + if withdrew && p.settlesAtOnce then old(funds).hub else 0)
      ensures funds.worker == (if toppedUp then config.workerTarget else old(funds).worker)
      ensures funds.hub == (if withdrew then 0 else old(funds).hub) && funds.owner == old(funds).owner
      ensures funds.inTransit == old(funds).inTransit + if withdrew && !p.settlesAtOnce then old(funds).hub else 0
    {
      withdrew, toppedUp := false, false;
      var mustReplenishWorker := funds.worker < config.workerMin && !p.topUp;
      var mustReplenishManager := config.managerMin > funds.manager && !p.withdrawal;
      if !mustReplenishManager && !mustReplenishWorker {
        return;
      }
      var workerReplenishAmount := config.workerTarget - funds.worker;
      var managerReplenishAmount := config.managerTarget - funds.manager;
      var canReplenishManager := funds.hub >= managerReplenishAmount;
      var cantReplenishWorkerFromBalance := funds.manager - config.managerMin < workerReplenishAmount;
      var canReplenishWorkerFromHubAndBalance :=
        funds.hub + funds.manager - config.managerMin >= workerReplenishAmount;
      if (mustReplenishManager && canReplenishManager)
         || (mustReplenishWorker && cantReplenishWorkerFromBalance && canReplenishWorkerFromHubAndBalance) {
        funds := AfterHubWithdrawal(funds, p.settlesAtOnce);
        withdrew := true;
      }
      if mustReplenishWorker && workerReplenishAmount < funds.manager - config.managerMin {
        funds := funds.(manager := funds.manager - workerReplenishAmount, worker := funds.worker + workerReplenishAmount);
        toppedUp := true;
      }
    }

    method WithdrawToOwnerIfNeeded(isReady: bool) returns (paid: bool)
      modifies this
      ensures paid == (isReady && PaysOwner(config, old(funds)))
      ensures funds == if isReady then AfterPayout(config, old(funds)) else old(funds)
      ensures paid <==>
        && isReady && config.withdrawOn.Some?
        && old(funds).hub >= config.withdrawOn.value + config.managerTarget + config.workerTarget
      ensures funds.hub == (if paid then config.managerTarget + config.workerTarget else old(funds).hub)
      ensures funds == old(funds).(hub := funds.hub, owner := funds.owner) && funds.Total() == old(funds).Total()
    {
      if !isReady || config.withdrawOn.None? {
        return false;
      }
      var reserveBalance := config.managerTarget + config.workerTarget;
      var effectiveWithdrawOnBalance := config.withdrawOn.value + reserveBalance;
      if funds.hub < effectiveWithdrawOnBalance {
        return false;
      }
      var withdrawalAmount := funds.hub - reserveBalance;
      funds := funds.(hub := funds.hub - withdrawalAmount, owner := funds.owner + withdrawalAmount);
      return true;
    }
  }
}
