/**
 The part of `RegistrationManager.ts` (and `_shouldRegisterAgain` of `RelayServer.ts`) that decides whether to
 authorize the hub, add the worker and register. What the chain answers comes in as parameters.
 */
module Registration {
  import opened Sequences
  import opened Wrappers
  import opened StoredTransactions
  import opened TxStore
  import opened ActionGuards

  const REGISTER := Guard(RegisterServer, None)
  const ADD_WORKER := Guard(AddWorker, None)
  const AUTHORIZE := Guard(AuthorizeHub, None)

  /** What the hub answers. `NotAuthorized` is the error 'this hub is not authorized by SM'. */
  datatype HubStatus = Staked | NotAuthorized | OtherError

  datatype StakeInfo = StakeInfo(hub: HubStatus, owner: Option<Address>, stake: nat, withdrawTime: nat)

  datatype RefreshError = OwnerSetToAnother

  /** A refresh fails exactly if the stake manager names another owner. */
  predicate Fails(info: StakeInfo, owner: Address) {
    info.owner.Some? && info.owner.value != owner
  }

  ghost predicate NoneFails(infos: seq<StakeInfo>, owner: Address) {
    forall i :: 0 <= i < |infos| ==> !Fails(infos[i], owner)
  }

  ghost predicate SomeStaked(infos: seq<StakeInfo>) {
    exists i :: 0 <= i < |infos| && infos[i].hub.Staked?
  }

  predicate SomeFailed(infos: seq<StakeInfo>, n: nat, owner: Address)
    requires n <= |infos|
  {
    n > 0 && (SomeFailed(infos, n - 1, owner) || Fails(infos[n - 1], owner))
  }

  lemma {:induction false} FailuresExactly(infos: seq<StakeInfo>, n: nat, owner: Address)
    requires n <= |infos|
    ensures SomeFailed(infos, n, owner) <==> exists j :: 0 <= j < n && Fails(infos[j], owner)
  {
    if n > 0 {
      FailuresExactly(infos, n - 1, owner);
    }
  }

  /** One of the first `n` answers says that the hub is not authorized. */
  predicate SomeNotAuthorized(infos: seq<StakeInfo>, n: nat)
    requires n <= |infos|
  {
    n > 0 && (SomeNotAuthorized(infos, n - 1) || infos[n - 1].hub.NotAuthorized?)
  }

  /** The latest answer with a stake, which is the one that counts. */
  predicate IsLatestStake(infos: seq<StakeInfo>, i: nat) {
    i < |infos| && infos[i].stake > 0 && forall j :: i < j < |infos| ==> infos[j].stake == 0
  }

  ghost predicate NoStake(infos: seq<StakeInfo>) {
    forall i :: 0 <= i < |infos| ==> infos[i].stake == 0
  }

  /** What the manager remembers of the answers. */
  datatype Standing = Standing(isHubAuthorized: bool, isStakeLocked: bool, stake: nat)

  /** After these answers the stake is locked and sufficient, if it was as in `before`. */
  ghost predicate StakeSuffices(infos: seq<StakeInfo>, before: Standing, minimum: nat) {
    && (NoStake(infos) ==> before.isStakeLocked && before.stake >= minimum)
    && forall i: nat :: IsLatestStake(infos, i) ==> infos[i].withdrawTime == 0 && infos[i].stake >= minimum
  }

  ghost predicate HaveBeenTakenOver(infos: seq<StakeInfo>, before: Standing, now: Standing, minimum: nat) {
    && (now.isHubAuthorized <==> before.isHubAuthorized || SomeStaked(infos))
    && (now.isStakeLocked && now.stake >= minimum <==> StakeSuffices(infos, before, minimum))
  }

  /** One answer taken over. */
  function TakenOver(info: StakeInfo, s: Standing): Standing {
    Standing(s.isHubAuthorized || info.hub.Staked?,
             if info.stake == 0 then s.isStakeLocked else info.withdrawTime == 0,
             if info.stake == 0 then s.stake else info.stake)
  }

  function AllTakenOver(infos: seq<StakeInfo>, n: nat, s: Standing): Standing
    requires n <= |infos|
  {
    if n == 0 then s else TakenOver(infos[n - 1], AllTakenOver(infos, n - 1, s))
  }

  lemma {:induction false} AllHaveBeenTakenOver(infos: seq<StakeInfo>, n: nat, before: Standing, minimum: nat)
    requires n <= |infos|
    ensures HaveBeenTakenOver(infos[..n], before, AllTakenOver(infos, n, before), minimum)
  {
    if n > 0 {
      AllHaveBeenTakenOver(infos, n - 1, before, minimum);
      OneMoreAnswer(infos, n - 1, before, AllTakenOver(infos, n - 1, before), minimum);
    }
  }

  lemma OneMoreAnswer(infos: seq<StakeInfo>, i: nat, before: Standing, now: Standing, minimum: nat)
    requires i < |infos| && HaveBeenTakenOver(infos[..i], before, now, minimum)
    ensures HaveBeenTakenOver(infos[..i + 1], before, TakenOver(infos[i], now), minimum)
  {
    var earlier, all, last := infos[..i], infos[..i + 1], infos[i];
    assert all == earlier + [last];
    OneMore(earlier, last);
    if last.stake > 0 {
      assert IsLatestStake(all, i);
    } else {
      forall j: nat
        ensures IsLatestStake(all, j) <==> IsLatestStake(earlier, j)
      {
      }
    }
  }

  lemma OneMore(infos: seq<StakeInfo>, info: StakeInfo)
    ensures SomeStaked(infos + [info]) <==> SomeStaked(infos) || info.hub.Staked?
    ensures NoStake(infos + [info]) <==> NoStake(infos) && info.stake == 0
  {
    var all := infos + [info];
    assert all[|infos|] == info && forall i :: 0 <= i < |infos| ==> all[i] == infos[i];
  }

  class RegistrationManager {
    const config: Config
    const manager: Address
    const owner: Address
    const minimumStake: nat
    const store: TxStoreManager
    var block: Block
    var nonce: nat
    var isHubAuthorized: bool
    var isStakeLocked: bool
    var isOwnerSet: bool
    var stake: nat
    var balanceIsSatisfied: bool
    /** The state of the guard model, and the guarded actions sent, in order. */
    ghost var model: State
    ghost var sent: seq<Guard>

    ghost predicate Valid()
      reads this`model, this`block, this`nonce, store
    {
      && store.Valid() && store.View() == model.rows && model.block == block
      && PendingInv(model) && (config.pruneAfterBlocks > config.distance ==> SpacingInv(config, model))
      && forall k :: k in model.everSent && k.signer == manager ==> k.nonce < nonce
    }

    ghost predicate Pending(g: Guard)
      reads this`model
    {
      ActionPendingOrRecent(model.rows, g.action, model.block.number, config.distance, g.destination)
    }

    predicate PrerequisitesOk(stakedOnHub: bool)
      reads this
    {
      isHubAuthorized && isStakeLocked && stake >= minimumStake && balanceIsSatisfied && stakedOnHub
    }

    /** Whether the prerequisites will hold once these answers have been taken over. */
    ghost predicate PrerequisitesAfter(infos: seq<StakeInfo>, stakedOnHub: bool)
      reads this
    {
      && (isHubAuthorized || SomeStaked(infos)) && balanceIsSatisfied && stakedOnHub
      && StakeSuffices(infos, View(), minimumStake)
    }

    ghost function View(): Standing
      reads this
    {
      Standing(isHubAuthorized, isStakeLocked, stake)
    }

    /** Starts with whatever store an earlier process has left; the manager's next nonce is above all in it. */
    constructor (
      config: Config, manager: Address, owner: Address, minimumStake: nat, block: Block, store: TxStoreManager, nonce: nat)
      requires store.Valid() && Init(State(store.View(), store.View(), block, {}))
      requires forall k :: k in store.View() && k.signer == manager ==> k.nonce < nonce
      ensures Valid() && sent == [] && model == State(store.View(), store.View(), block, {})
      ensures this.config == config && this.manager == manager && this.owner == owner && this.store == store
    {
      this.config, this.manager, this.owner, this.minimumStake := config, manager, owner, minimumStake;
      this.store, this.block, this.nonce := store, block, nonce;
      isHubAuthorized, isStakeLocked, isOwnerSet, stake, balanceIsSatisfied := false, false, false, 0, false;
      model, sent := State(store.View(), store.View(), block, {}), [];
    }

    /** A step of the guard model keeps what `Valid` says of it. */
    lemma StepKeepsInv(s: State, step: Step, s': State)
      requires PendingInv(s) && (config.pruneAfterBlocks > config.distance ==> SpacingInv(config, s))
      requires Next(config, s, step, s')
      ensures PendingInv(s') && (config.pruneAfterBlocks > config.distance ==> SpacingInv(config, s'))
    {
      NextKeepsPendingInv(config, s, step, s');
      if config.pruneAfterBlocks > config.distance {
        NextKeepsSpacing(config, s, step, s');
      }
    }

    /** A new round: the guards have to be asked again. */
    method StartRound(block: Block)
      requires Valid() && block.number >= this.block.number
      modifies this`block, this`model
      ensures Valid() && this.block == block && model == old(model).(block := block, cleared := {})
    {
      StepKeepsInv(model, NewBlock(block), model.(block := block, cleared := {}));
      this.block, model := block, model.(block := block, cleared := {});
    }

    /** Asks the guard. A negative answer allows one such action in this round. */
    method IsActionPending(g: Guard) returns (pending: bool)
      requires Valid() && g in Guards()
      modifies this`model
      ensures Valid() && pending == old(Pending(g))
      ensures model == if pending then old(model) else old(model).(cleared := old(model).cleared + {g})
    {
      pending := store.IsActionPendingOrRecentlyMined(g.action, block.number, config.distance, g.destination);
      if !pending {
        StepKeepsInv(model, PassGuard(g), model.(cleared := model.cleared + {g}));
        model := model.(cleared := model.cleared + {g});
      }
    }

    /** Stores the transaction of a guarded action. */
    method SendTransaction(g: Guard, call: Call, fees: Fees)
      requires Valid() && g in model.cleared && g.destination.None?
      modifies this`model, this`sent, this`nonce, store
      ensures Valid() && Pending(g) && sent == old(sent) + [g]
      ensures model.cleared == old(model).cleared - {g}
      ensures forall h :: h in Guards() && h != g ==> Pending(h) == old(Pending(h))
    {
      var tx := FirstAttempt(FeeMarket, Key(manager, nonce), call, fees, g.action, block);
      assert tx.key !in model.everSent;
      var stored := store.PutTx(tx, false);
      ghost var before := model;
      model, nonce, sent := Store(model, tx).(cleared := model.cleared - {g}), nonce + 1, sent + [g];
      StepKeepsInv(before, Send(g, tx), model);
      assert Blocks(model.rows[tx.key], g.action, block.number, config.distance, g.destination);
      forall h | h in Guards() && h != g
        ensures Pending(h) == old(Pending(h))
      {
        OtherGuardsUnaffected(before.rows, tx, g, h, block.number);
      }
    }

    lemma OtherGuardsUnaffected(rows: Rows, tx: StoredTx, g: Guard, h: Guard, at: int)
      requires g in Guards() && h in Guards() && g != h && tx.action == g.action
      requires g.destination.None? && tx.key !in rows
      ensures ActionPendingOrRecent(rows[tx.key := tx], h.action, at, config.distance, h.destination)
         <==> ActionPendingOrRecent(rows, h.action, at, config.distance, h.destination)
    {
      var rows' := rows[tx.key := tx];
      if k :| k in rows && Blocks(rows[k], h.action, at, config.distance, h.destination) {
        assert Blocks(rows'[k], h.action, at, config.distance, h.destination);
      }
    }

    /** Authorizes the hub unless that is under way. */
    method AuthorizeHubOnce(call: Call, fees: Fees)
      requires Valid()
      modifies this`model, this`sent, this`nonce, store
      ensures Valid() && Pending(AUTHORIZE)
      ensures sent == old(sent) + (if old(Pending(AUTHORIZE)) then [] else [AUTHORIZE])
      ensures Pending(REGISTER) == old(Pending(REGISTER)) && Pending(ADD_WORKER) == old(Pending(ADD_WORKER))
      ensures model.cleared >= old(model).cleared - {AUTHORIZE}
    {
      var isAuthorizePending := IsActionPending(AUTHORIZE);
      if !isAuthorizePending {
        SendTransaction(AUTHORIZE, call, fees);
      }
    }

    /** Takes over what the stake manager answers. */
    method TakeStake(info: StakeInfo) returns (error: Option<RefreshError>)
      modifies this`isOwnerSet, this`isStakeLocked, this`stake
      ensures isOwnerSet == info.owner.Some?
      ensures error.Some? <==> info.owner.Some? && info.owner.value != owner
      ensures if error.Some? || info.stake == 0 then stake == old(stake) && isStakeLocked == old(isStakeLocked)
              else stake == info.stake && (isStakeLocked <==> info.withdrawTime == 0)
    {
      isOwnerSet := info.owner.Some?;
      if isOwnerSet && info.owner.value != owner {
        return Some(OwnerSetToAnother);
      }
      if info.stake == 0 {
        return None;
      }
      isStakeLocked := info.withdrawTime == 0;
      stake := info.stake;
      return None;
    }

    /** What refreshing the stake sends: at most an authorization of the hub. */
    ghost predicate Refreshed(info: StakeInfo, wasPending: bool, sentBefore: seq<Guard>)
      reads this`model, this`sent
    {
      var authorizes := info.hub.NotAuthorized?;
      && sent == sentBefore + (if authorizes && !wasPending then [AUTHORIZE] else [])
      && (Pending(AUTHORIZE) <==> wasPending || authorizes)
    }

    method RefreshHub(info: StakeInfo, call: Call, fees: Fees)
      requires Valid()
      modifies this`isHubAuthorized, this`model, this`sent, this`nonce, store
      ensures Valid() && Refreshed(info, old(Pending(AUTHORIZE)), old(sent))
      ensures Pending(REGISTER) == old(Pending(REGISTER)) && Pending(ADD_WORKER) == old(Pending(ADD_WORKER))
      ensures model.cleared >= old(model).cleared - {AUTHORIZE}
      ensures isHubAuthorized <==> old(isHubAuthorized) || info.hub.Staked?
    {
      if info.hub.Staked? {
        isHubAuthorized := true;
      } else if info.hub.NotAuthorized? {
        AuthorizeHubOnce(call, fees);
      }
    }

    /** Authorizes the hub if it is not, and takes over what the stake manager answers. */
    method RefreshStake(info: StakeInfo, call: Call, fees: Fees) returns (error: Option<RefreshError>)
      requires Valid()
      modifies this, store
      ensures Valid() && Refreshed(info, old(Pending(AUTHORIZE)), old(sent))
      ensures Pending(REGISTER) == old(Pending(REGISTER)) && Pending(ADD_WORKER) == old(Pending(ADD_WORKER))
      ensures model.cleared >= old(model).cleared - {AUTHORIZE}
      ensures isHubAuthorized <==> old(isHubAuthorized) || info.hub.Staked?
      ensures isOwnerSet == info.owner.Some? && balanceIsSatisfied == old(balanceIsSatisfied)
      ensures error.Some? <==> info.owner.Some? && info.owner.value != owner
      ensures if error.Some? || info.stake == 0 then stake == old(stake) && isStakeLocked == old(isStakeLocked)
              else stake == info.stake && (isStakeLocked <==> info.withdrawTime == 0)
    {
      RefreshHub(info, call, fees);
      error := TakeStake(info);
    }

    /** What may have changed while the hub is authorized at most once, since the guards answered and were cleared so. */
    ghost predicate HasSent(
      authorizing: seq<Guard>, sentBefore: seq<Guard>, clearedBefore: set<Guard>, wasAuthorizing: bool,
      wasAdding: bool, wasRegistering: bool)
      reads this, store
    {
      && Valid() && sent == sentBefore + authorizing && model.cleared >= clearedBefore - {AUTHORIZE}
      && (authorizing == [] || (authorizing == [AUTHORIZE] && !wasAuthorizing))
      && (Pending(AUTHORIZE) <==> wasAuthorizing || authorizing != [])
      && Pending(ADD_WORKER) == wasAdding && Pending(REGISTER) == wasRegistering
    }

    /** What the first `n` refreshes have taken over, and whether one has failed. */
    ghost predicate HasRefreshed(
      infos: seq<StakeInfo>, n: nat, error: Option<RefreshError>, authorizing: seq<Guard>, before: Standing,
      balance: bool, wasAuthorizing: bool)
      requires n <= |infos|
      reads this
    {
      && (error.Some? <==> SomeFailed(infos, n, owner)) && balanceIsSatisfied == balance
      && (error.None? ==> View() == AllTakenOver(infos, n, before))
      && (authorizing != [] <==> SomeNotAuthorized(infos, n) && !wasAuthorizing)
    }

    method RefreshOnce(
      infos: seq<StakeInfo>, i: nat, call: Call, fees: Fees, ghost authorizingBefore: seq<Guard>,
      ghost before: Standing, ghost sentBefore: seq<Guard>, ghost clearedBefore: set<Guard>,
      ghost wasAuthorizing: bool, ghost wasAdding: bool, ghost wasRegistering: bool)
      returns (error: Option<RefreshError>, ghost authorizing: seq<Guard>)
      requires i < |infos|
      requires HasRefreshed(infos, i, None, authorizingBefore, before, balanceIsSatisfied, wasAuthorizing)
      requires HasSent(authorizingBefore, sentBefore, clearedBefore, wasAuthorizing, wasAdding, wasRegistering)
      modifies this, store
      ensures HasSent(authorizing, sentBefore, clearedBefore, wasAuthorizing, wasAdding, wasRegistering)
      ensures HasRefreshed(infos, i + 1, error, authorizing, before, old(balanceIsSatisfied), wasAuthorizing)
    {
      authorizing := if infos[i].hub.NotAuthorized? && !Pending(AUTHORIZE) then [AUTHORIZE] else authorizingBefore;
      error := RefreshStake(infos[i], call, fees);
    }

    /** Refreshes once for each event that asks for it, until one refresh fails. */
    method RefreshAll(infos: seq<StakeInfo>, call: Call, fees: Fees)
      returns (error: Option<RefreshError>, ghost authorizing: seq<Guard>, ghost refreshed: nat)
      requires Valid()
      modifies this, store
      ensures HasSent(authorizing, old(sent), old(model).cleared, old(Pending(AUTHORIZE)),
                      old(Pending(ADD_WORKER)), old(Pending(REGISTER)))
      ensures refreshed <= |infos| && (error.None? ==> refreshed == |infos|)
      ensures HasRefreshed(infos, refreshed, error, authorizing, old(View()), old(balanceIsSatisfied),
                           old(Pending(AUTHORIZE)))
    {
      authorizing, error, refreshed := [], None, 0;
      ghost var before, sentBefore, clearedBefore, balance := View(), sent, model.cleared, balanceIsSatisfied;
      ghost var wasAuthorizing, wasAdding, wasRegistering := Pending(AUTHORIZE), Pending(ADD_WORKER), Pending(REGISTER);
      for i := 0 to |infos|
        invariant error.None? && refreshed == i
        invariant HasSent(authorizing, sentBefore, clearedBefore, wasAuthorizing, wasAdding, wasRegistering)
        invariant HasRefreshed(infos, i, error, authorizing, before, balance, wasAuthorizing)
      {
        error, authorizing := RefreshOnce(infos, i, call, fees, authorizing, before, sentBefore, clearedBefore,
                                          wasAuthorizing, wasAdding, wasRegistering);
        refreshed := i + 1;
        if error.Some? {
          break;
        }
      }
    }

    method RefreshForEvents(infos: seq<StakeInfo>, call: Call, fees: Fees)
      returns (error: Option<RefreshError>, ghost authorizing: seq<Guard>)
      requires Valid()
      modifies this, store
      ensures HasSent(authorizing, old(sent), old(model).cleared, old(Pending(AUTHORIZE)),
                      old(Pending(ADD_WORKER)), old(Pending(REGISTER)))
      ensures error.None? <==> NoneFails(infos, owner)
      ensures error.None? ==> (PrerequisitesOk(true) <==> old(PrerequisitesAfter(infos, true)))
      ensures error.None? ==> (authorizing != [] <==> SomeNotAuthorized(infos, |infos|) && !old(Pending(AUTHORIZE)))
    {
      ghost var before, refreshed := View(), 0;
      error, authorizing, refreshed := RefreshAll(infos, call, fees);
      FailuresExactly(infos, refreshed, owner);
      AllHaveBeenTakenOver(infos, |infos|, before, minimumStake);
      assert infos[..|infos|] == infos;
    }

    /** A registration is due again when the last one is too old, unless one is under way. */
    method ShouldRegisterAgain(age: int, maximumAge: int) returns (again: bool)
      requires Valid()
      modifies this`model
      ensures Valid() && (again <==> age >= maximumAge && !old(Pending(REGISTER)))
      ensures again ==> REGISTER in model.cleared
      ensures model.rows == old(model).rows && model.block == old(model).block && old(model).cleared <= model.cleared
    {
      var isPendingRegistration := IsActionPending(REGISTER);
      return age >= maximumAge && !isPendingRegistration;
    }

    /** Adds the worker unless that is done or under way. */
    method AddWorkerOnce(workerIsValid: bool, call: Call, fees: Fees) returns (ghost attempted: seq<Guard>)
      requires Valid()
      modifies this`model, this`sent, this`nonce, store
      ensures Valid() && sent == old(sent) + attempted && model.cleared >= old(model).cleared - {ADD_WORKER}
      ensures attempted == if workerIsValid || old(Pending(ADD_WORKER)) then [] else [ADD_WORKER]
    {
      attempted := [];
      var addWorkersPending := IsActionPending(ADD_WORKER);
      if !(workerIsValid || addWorkersPending) {
        SendTransaction(ADD_WORKER, call, fees);
        attempted := [ADD_WORKER];
      }
    }

    method Register(workerIsValid: bool, call: Call, fees: Fees) returns (ghost attempted: seq<Guard>)
      requires Valid() && REGISTER in model.cleared
      modifies this`model, this`sent, this`nonce, store
      ensures Valid() && sent == old(sent) + attempted && Pending(REGISTER)
      ensures attempted == (if workerIsValid || old(Pending(ADD_WORKER)) then [] else [ADD_WORKER]) + [REGISTER]
    {
      attempted := AddWorkerOnce(workerIsValid, call, fees);
      SendTransaction(REGISTER, call, fees);
      attempted := attempted + [REGISTER];
    }

    /** Registers if all prerequisites hold. */
    method AttemptRegistration(
      stakedOnHub: bool, workerIsValid: bool, info: StakeInfo, balance: bool, call: Call, fees: Fees)
      returns (error: Option<RefreshError>, ghost attempted: seq<Guard>)
      requires Valid() && REGISTER in model.cleared
      modifies this, store
      ensures Valid() && sent == old(sent) + attempted
      ensures old(PrerequisitesOk(stakedOnHub)) ==>
        && error == None && Pending(REGISTER)
        && attempted == (if workerIsValid || old(Pending(ADD_WORKER)) then [] else [ADD_WORKER]) + [REGISTER]
      ensures !old(PrerequisitesOk(stakedOnHub)) ==>
        && attempted == (if info.hub.NotAuthorized? && !old(Pending(AUTHORIZE)) then [AUTHORIZE] else [])
        && (error.Some? <==> Fails(info, owner)) && Pending(REGISTER) == old(Pending(REGISTER))
        && (error.None? ==> View() == TakenOver(info, old(View())) && balanceIsSatisfied == balance)
    {
      if PrerequisitesOk(stakedOnHub) {
        error := None;
        attempted := Register(workerIsValid, call, fees);
      } else {
        attempted := if info.hub.NotAuthorized? && !Pending(AUTHORIZE) then [AUTHORIZE] else [];
        error := RefreshStake(info, call, fees);
        if error.None? {
          balanceIsSatisfied := balance;
        }
      }
    }

    /**
     The registering part of a round: refreshing the stake for each event that asks for it, then registering
     unless that is correct or under way, or whenever forced. The caller forces it only after asking the guard.
     In one round no guarded action is sent twice, and none that was pending at its start is sent at all.
     */
    method HandleRegistration(
      refreshes: seq<StakeInfo>, registrationIsCorrect: bool, force: bool,
      stakedOnHub: bool, workerIsValid: bool, info: StakeInfo, balance: bool, call: Call, fees: Fees)
      returns (error: Option<RefreshError>, ghost newlySent: seq<Guard>)
      requires Valid() && (force ==> REGISTER in model.cleared && !Pending(REGISTER))
      modifies this, store
      ensures Valid() && sent == old(sent) + newlySent
      ensures AllowedInRound(newlySent, workerIsValid, force || !registrationIsCorrect,
                             old(Pending(AUTHORIZE)), old(Pending(ADD_WORKER)), old(Pending(REGISTER)))
      ensures NoneFails(refreshes, owner) ==>
        (AUTHORIZE in newlySent <==>
           && !old(Pending(AUTHORIZE))
           && (SomeNotAuthorized(refreshes, |refreshes|)
               || ((force || (!registrationIsCorrect && !old(Pending(REGISTER))))
                   && !old(PrerequisitesAfter(refreshes, stakedOnHub)) && info.hub.NotAuthorized?)))
      ensures REGISTER in newlySent <==>
        && NoneFails(refreshes, owner) && old(PrerequisitesAfter(refreshes, stakedOnHub))
        && (force || (!registrationIsCorrect && !old(Pending(REGISTER))))
      ensures REGISTER in newlySent ==> error == None && Pending(REGISTER)
      ensures ADD_WORKER in newlySent <==> REGISTER in newlySent && !workerIsValid && !old(Pending(ADD_WORKER))
    {
      ghost var authorizing, attempted;
      error, authorizing := RefreshForEvents(refreshes, call, fees);
      attempted := [];
      ghost var isAuthorizing := Pending(AUTHORIZE) && authorizing == [];
      if error.None? {
        error, attempted := RegisterUnlessUnderWay(
          registrationIsCorrect, force, stakedOnHub, workerIsValid, info, balance, call, fees, authorizing);
      }
      newlySent := authorizing + attempted;
      Regroup(old(sent), authorizing, attempted);
      AppendNothing(old(sent) + authorizing);
      RoundIsAllowed(authorizing, attempted, workerIsValid, force || !registrationIsCorrect,
                     isAuthorizing, old(Pending(AUTHORIZE)), old(Pending(ADD_WORKER)), old(Pending(REGISTER)));
    }

    method RegisterUnlessUnderWay(
      registrationIsCorrect: bool, force: bool, stakedOnHub: bool, workerIsValid: bool, info: StakeInfo,
      balance: bool, call: Call, fees: Fees, ghost authorizing: seq<Guard>)
      returns (error: Option<RefreshError>, ghost attempted: seq<Guard>)
      requires Valid() && (force ==> REGISTER in model.cleared && !Pending(REGISTER))
      requires authorizing == [] || (authorizing == [AUTHORIZE] && Pending(AUTHORIZE))
      modifies this, store
      ensures Valid() && sent == old(sent) + attempted
      ensures AllowedInRound(authorizing + attempted, workerIsValid, force || !registrationIsCorrect,
                             old(Pending(AUTHORIZE)) && authorizing == [], old(Pending(ADD_WORKER)), old(Pending(REGISTER)))
      ensures AUTHORIZE in attempted <==>
        && (force || (!registrationIsCorrect && !old(Pending(REGISTER)))) && !old(PrerequisitesOk(stakedOnHub))
        && info.hub.NotAuthorized? && !old(Pending(AUTHORIZE))
      ensures REGISTER in attempted <==>
        old(PrerequisitesOk(stakedOnHub)) && (force || (!registrationIsCorrect && !old(Pending(REGISTER))))
      ensures REGISTER in attempted ==> error == None && Pending(REGISTER)
      ensures ADD_WORKER in attempted <==> REGISTER in attempted && !workerIsValid && !old(Pending(ADD_WORKER))
    {
      error, attempted := None, [];
      assert authorizing + [] == authorizing;
      var isRegistrationPending := IsActionPending(REGISTER);
      if !(isRegistrationPending || registrationIsCorrect) || force {
        error, attempted := AttemptRegistration(stakedOnHub, workerIsValid, info, balance, call, fees);
        AttemptIsAllowed(authorizing, attempted, workerIsValid,
                         old(Pending(AUTHORIZE)), old(Pending(ADD_WORKER)), old(Pending(REGISTER)));
      }
    }
  }

  /** What one round may send: each guarded action at most once, none that was pending, and only when wanted. */
  ghost predicate AllowedInRound(
    newlySent: seq<Guard>, workerIsValid: bool, wantsRegistration: bool,
    wasAuthorizing: bool, wasAdding: bool, wasRegistering: bool)
  {
    && (forall i, j :: 0 <= i < j < |newlySent| ==> DifferentGuards(newlySent, i, j))
    && (AUTHORIZE in newlySent ==> !wasAuthorizing)
    && (ADD_WORKER in newlySent ==> !wasAdding && !workerIsValid && REGISTER in newlySent)
    && (REGISTER in newlySent ==> !wasRegistering && wantsRegistration)
  }

  predicate DifferentGuards(guards: seq<Guard>, i: nat, j: nat)
    requires i < |guards| && j < |guards|
  {
    guards[i] != guards[j]
  }

  /** The refreshes before and the attempt after, if there is one, together. */
  lemma RoundIsAllowed(
    authorizing: seq<Guard>, attempted: seq<Guard>, workerIsValid: bool, wantsRegistration: bool,
    isAuthorizing: bool, wasAuthorizing: bool, wasAdding: bool, wasRegistering: bool)
    requires authorizing == [] || (authorizing == [AUTHORIZE] && !wasAuthorizing)
    requires wasAuthorizing ==> isAuthorizing
    requires attempted == [] || AllowedInRound(authorizing + attempted, workerIsValid, wantsRegistration,
                                               isAuthorizing, wasAdding, wasRegistering)
    ensures AllowedInRound(authorizing + attempted, workerIsValid, wantsRegistration,
                           wasAuthorizing, wasAdding, wasRegistering)
  {
    if attempted == [] {
      assert authorizing + attempted == authorizing;
    }
  }

  lemma AttemptIsAllowed(
    authorizing: seq<Guard>, attempted: seq<Guard>, workerIsValid: bool,
    isAuthorizing: bool, wasAdding: bool, wasRegistering: bool)
    requires authorizing == [] || (authorizing == [AUTHORIZE] && isAuthorizing)
    requires !wasRegistering
    requires attempted == (if workerIsValid || wasAdding then [] else [ADD_WORKER]) + [REGISTER]
          || attempted == (if isAuthorizing then [] else [AUTHORIZE])
          || attempted == []
    ensures AllowedInRound(authorizing + attempted, workerIsValid, true,
                           isAuthorizing && authorizing == [], wasAdding, wasRegistering)
  {
  }
}
