/**
 * The keeper's transaction sender: the checks inside one submission, and the promise-chain
 * lock that serialises concurrent submissions of one signer. Every RPC, relay and receipt
 * answer is an input and may be anything.
 */
module KeeperSigner {
  import opened Common

  type Address = nat
  type TxHash = nat

  datatype SignerConfig = SignerConfig(chainId: nat, minBalanceWei: nat, maxGasPriceWei: Option<nat>, privateRelay: bool)

  datatype TxInput = TxInput(to: Address, chainId: Option<nat>, gasLimit: Option<nat>)

  datatype SendError =
    | KeeperRpcError
    | InsufficientKeeperBalance
    | GasPriceExceeded
    | KeeperChainMismatch
    | KeeperRelayError(retryable: bool)
    | KeeperTransactionError(txHash: TxHash)

  predicate IsTransient(e: SendError) {
    e.KeeperRpcError? || (e.KeeperRelayError? && e.retryable)
  }

  /** Answers to the preflight reads; `None` is a failed request. */
  datatype PreflightAnswers = PreflightAnswers(
    pendingNonce: Option<nat>, balance: Option<nat>, gasPrice: Option<nat>, gasEstimate: Option<nat>)

  datatype SubmitAnswer =
    | SigningFault
    | TransportFault
    | HttpStatus(code: nat)
    | NonJson
    | Rejected
    | BadHash
    | Accepted(txHash: TxHash)

  const ORDER_EXECUTED_TOPIC: nat := 1

  datatype ReceiptLog = ReceiptLog(address: Address, topic0: Option<nat>)

  datatype ReceiptAnswer =
    | NoReceiptClient
    | WaitFailed
    | Reverted
    | Success(logs: seq<ReceiptLog>)

  datatype Submission = Submission(txHash: TxHash, confirmed: Option<bool>)

  /** The nonce to sign with: never below the local floor nor the node's pending count. */
  function Preflight(cfg: SignerConfig, input: TxInput, floor: Option<nat>, a: PreflightAnswers): Result<nat, SendError> {
    if input.chainId.Some? && input.chainId.value != cfg.chainId then Err(KeeperChainMismatch)
    else if a.pendingNonce.None? || a.balance.None? || a.gasPrice.None? || (input.gasLimit.None? && a.gasEstimate.None?)
    then Err(KeeperRpcError)
    else if a.balance.value < cfg.minBalanceWei then Err(InsufficientKeeperBalance)
    else if cfg.maxGasPriceWei.Some? && a.gasPrice.value > cfg.maxGasPriceWei.value then Err(GasPriceExceeded)
    else Ok(Max(a.pendingNonce.value, if floor.Some? then floor.value else a.pendingNonce.value))
  }

  function Submit(cfg: SignerConfig, a: SubmitAnswer): Result<TxHash, SendError> {
    if !cfg.privateRelay then
      match a case Accepted(h) => Ok(h) case _ => Err(KeeperRpcError)
    else
      match a
      case SigningFault => Err(KeeperRpcError)
      case TransportFault => Err(KeeperRelayError(true))
      case HttpStatus(code) => Err(KeeperRelayError(code >= 500))
      case Accepted(h) => Ok(h)
      case _ => Err(KeeperRelayError(false))
  }

  /** Whether the receipt proves execution: `None` when there is no client to ask. */
  function AwaitConfirmation(txHash: TxHash, target: Address, a: ReceiptAnswer): Result<Option<bool>, SendError> {
    match a
    case NoReceiptClient => Ok(None)
    case WaitFailed => Err(KeeperRpcError)
    case Reverted => Err(KeeperTransactionError(txHash))
    case Success(logs) => Ok(Some(ReceiptLog(target, Some(ORDER_EXECUTED_TOPIC)) in logs))
  }

  /**
   * What each preflight answer leads to, in the order the checks are made: chain, node,
   * balance, gas price. A passed preflight signs with the larger of the node's count and the
   * local floor.
   */
  lemma PreflightOutcome(cfg: SignerConfig, input: TxInput, floor: Option<nat>, a: PreflightAnswers)
    ensures var r := Preflight(cfg, input, floor, a);
            var wrongChain := input.chainId.Some? && input.chainId.value != cfg.chainId;
            var answered := && a.pendingNonce.Some? && a.balance.Some? && a.gasPrice.Some?
                            && (input.gasLimit.Some? || a.gasEstimate.Some?);
            && (r == Err(KeeperChainMismatch) <==> wrongChain)
            && (r == Err(KeeperRpcError) <==> !wrongChain && !answered)
            && (r == Err(InsufficientKeeperBalance) <==> !wrongChain && answered && a.balance.value < cfg.minBalanceWei)
            && (r == Err(GasPriceExceeded) <==>
                  && !wrongChain && answered && a.balance.value >= cfg.minBalanceWei
                  && exists ceiling: nat :: cfg.maxGasPriceWei == Some(ceiling) && a.gasPrice.value > ceiling)
            && (r.Ok? <==>
                  && !wrongChain && answered && a.balance.value >= cfg.minBalanceWei
                  && forall ceiling: nat :: cfg.maxGasPriceWei == Some(ceiling) ==> a.gasPrice.value <= ceiling)
            && (r.Ok? ==>
                  && r.value >= a.pendingNonce.value && (floor.Some? ==> r.value >= floor.value)
                  && (r.value == a.pendingNonce.value || Some(r.value) == floor))
  {}

  /**
   * What each answer to a submission leads to. Only an accepted hash submits. A relay's
   * transport fault or 5xx may be retried, its other refusals may not; everything that goes
   * wrong publicly, and signing, is an RPC fault.
   */
  lemma SubmitOutcome(cfg: SignerConfig, a: SubmitAnswer)
    ensures forall h: TxHash :: Submit(cfg, a) == Ok(h) <==> a == Accepted(h)
    ensures Submit(cfg, a) == Err(KeeperRpcError) <==> !a.Accepted? && (!cfg.privateRelay || a.SigningFault?)
    ensures Submit(cfg, a) == Err(KeeperRelayError(true))
       <==> cfg.privateRelay && (a.TransportFault? || (a.HttpStatus? && a.code >= 500))
    ensures Submit(cfg, a) == Err(KeeperRelayError(false))
       <==> cfg.privateRelay && (a.NonJson? || a.Rejected? || a.BadHash? || (a.HttpStatus? && a.code < 500))
  {}

  /** Only RPC faults and relay faults marked retryable are transient. */
  lemma TransientIff(e: SendError)
    ensures IsTransient(e) <==> e == KeeperRpcError || e == KeeperRelayError(true)
  {}

  /**
   * One signer. `SendTransaction` is the locked section; it leaves the nonce floor just above
   * the last nonce a relay or node accepted, whatever happens afterwards.
   */
  class Signer {
    const cfg: SignerConfig
    var nextNonce: Option<nat>

    constructor (cfg: SignerConfig)
      ensures this.cfg == cfg && nextNonce == None
    {
      this.cfg, nextNonce := cfg, None;
    }

    method SendTransaction(input: TxInput, pre: PreflightAnswers, sub: SubmitAnswer, rec: ReceiptAnswer)
      returns (r: Result<Submission, SendError>, used: Option<nat>)
      modifies this`nextNonce
      ensures used.Some? <==> Preflight(cfg, input, old(nextNonce), pre).Ok? && Submit(cfg, sub).Ok?
      ensures used.Some? ==>
                && pre.pendingNonce.Some? && used.value >= pre.pendingNonce.value
                && (old(nextNonce).Some? ==> used.value >= old(nextNonce).value)
                && (used.value == pre.pendingNonce.value || Some(used.value) == old(nextNonce))
      ensures nextNonce == if used.Some? then Some(used.value + 1) else old(nextNonce)
      ensures r.Ok? ==> used.Some? && Submit(cfg, sub) == Ok(r.value.txHash)
      ensures r.Ok? && r.value.confirmed == Some(true) <==>
                used.Some? && rec.Success? && ReceiptLog(input.to, Some(ORDER_EXECUTED_TOPIC)) in rec.logs
      ensures r.Ok? ==> (r.value.confirmed.None? <==> rec.NoReceiptClient?)
      ensures used.None? ==>
                var checked := Preflight(cfg, input, old(nextNonce), pre);
                r == Err(if checked.Err? then checked.error else Submit(cfg, sub).error)
      ensures used.Some? ==> (r.Err? <==> rec.WaitFailed? || rec.Reverted?)
      ensures used.Some? && r.Err? ==>
                r.error == if rec.WaitFailed? then KeeperRpcError else KeeperTransactionError(Submit(cfg, sub).value)
    {
      used := None;
      var nonce := Preflight(cfg, input, nextNonce, pre);
      if nonce.Err? {
        return Err(nonce.error), None;
      }
      var sent := Submit(cfg, sub);
      if sent.Err? {
        return Err(sent.error), None;
      }
      nextNonce := Some(nonce.value + 1);
      used := Some(nonce.value);
      var confirmed := AwaitConfirmation(sent.value, input.to, rec);
      if confirmed.Err? {
        return Err(confirmed.error), used;
      }
      r := Ok(Submission(sent.value, confirmed.value));
    }
  }

  // ─── Concurrent submissions ───────────────────────────────────────────────

  datatype Phase =
    | Waiting                 // awaits the previous call's promise
    | Preflighting
    | Submitting(nonce: nat)
    | Confirming(nonce: nat)
    | Leaving                 // the operation settled; `finally` has not run yet
    | Done

  datatype Call = Call(input: TxInput, previous: nat, own: nat, phase: Phase)

  /** `tail` is the promise stored last; `entered` and `accepted` record what happened in order. */
  datatype State = State(
    nextNonce: Option<nat>, tail: nat, resolved: set<nat>, calls: seq<Call>, entered: seq<nat>, accepted: seq<nat>)

  datatype Action =
    | Arrive(input: TxInput)
    | Enter(call: nat)
    | FinishPreflight(call: nat, pre: PreflightAnswers)
    | FinishSubmit(call: nat, sub: SubmitAnswer)
    | FinishConfirm(call: nat)
    | Release(call: nat)

  const Initial: State := State(None, 0, {0}, [], [], [])

  function SetPhase(s: State, i: nat, p: Phase): State
    requires i < |s.calls|
  {
    s.(calls := s.calls[i := s.calls[i].(phase := p)])
  }

  /** A step whose call is not at that point changes nothing. */
  function Step(cfg: SignerConfig, s: State, a: Action): State {
    match a
    case Arrive(input) =>
      var own := |s.calls| + 1;
      s.(calls := s.calls + [Call(input, s.tail, own, Waiting)], tail := own)
    case Enter(i) =>
      if i < |s.calls| && s.calls[i].phase.Waiting? && s.calls[i].previous in s.resolved
      then SetPhase(s, i, Preflighting).(entered := s.entered + [i]) else s
    case FinishPreflight(i, pre) =>
      if i < |s.calls| && s.calls[i].phase.Preflighting? then
        (match Preflight(cfg, s.calls[i].input, s.nextNonce, pre)
         case Err(_) => SetPhase(s, i, Leaving)
         case Ok(nonce) => SetPhase(s, i, Submitting(nonce)))
      else s
    case FinishSubmit(i, sub) =>
      if i < |s.calls| && s.calls[i].phase.Submitting? then
        var nonce := s.calls[i].phase.nonce;
        (match Submit(cfg, sub)
         case Err(_) => SetPhase(s, i, Leaving)
         case Ok(_) => SetPhase(s, i, Confirming(nonce)).(nextNonce := Some(nonce + 1), accepted := s.accepted + [nonce]))
      else s
    case FinishConfirm(i) =>
      if i < |s.calls| && s.calls[i].phase.Confirming? then SetPhase(s, i, Leaving) else s
    case Release(i) =>
      if i < |s.calls| && s.calls[i].phase.Leaving?
      then SetPhase(s, i, Done).(resolved := s.resolved + {s.calls[i].own}) else s
  }

  function Run(cfg: SignerConfig, actions: seq<Action>): State {
    if actions == [] then Initial
    else Step(cfg, Run(cfg, actions[..|actions| - 1]), actions[|actions| - 1])
  }

  predicate InCritical(p: Phase) {
    p.Preflighting? || p.Submitting? || p.Confirming? || p.Leaving?
  }

  /** Calls finish in arrival order: whoever has started, everyone before is done. */
  ghost predicate Queue(s: State) {
    && s.tail == |s.calls|
    && (forall i :: 0 <= i < |s.calls| ==> s.calls[i].previous == i && s.calls[i].own == i + 1)
    && (forall p :: p in s.resolved <==> p == 0 || (1 <= p <= |s.calls| && s.calls[p - 1].phase.Done?))
    && (forall i, j :: 0 <= i < j < |s.calls| && !s.calls[j].phase.Waiting? ==> s.calls[i].phase.Done?)
    && |s.entered| <= |s.calls|
    && (forall i :: 0 <= i < |s.entered| ==> s.entered[i] == i)
    && (forall i :: 0 <= i < |s.calls| ==> (s.calls[i].phase.Waiting? <==> i >= |s.entered|))
  }

  ghost predicate Nonces(s: State) {
    && (forall i, j :: 0 <= i < j < |s.accepted| ==> s.accepted[i] < s.accepted[j])
    && s.nextNonce == (if s.accepted == [] then None else Some(s.accepted[|s.accepted| - 1] + 1))
    && (forall i :: 0 <= i < |s.calls| && s.calls[i].phase.Submitting? && s.nextNonce.Some?
          ==> s.calls[i].phase.nonce >= s.nextNonce.value)
  }

  lemma MoveInside(s: State, i: nat, p: Phase)
    requires Queue(s) && i < |s.calls| && InCritical(s.calls[i].phase) && InCritical(p)
    ensures Queue(SetPhase(s, i, p))
  {}

  lemma ArriveOk(cfg: SignerConfig, s: State, input: TxInput)
    requires Queue(s)
    ensures Queue(Step(cfg, s, Arrive(input)))
  {}

  lemma EnterOk(s: State, i: nat)
    requires Queue(s) && i < |s.calls| && s.calls[i].phase.Waiting? && s.calls[i].previous in s.resolved
    ensures Queue(SetPhase(s, i, Preflighting).(entered := s.entered + [i]))
  {
    assert i == 0 || s.calls[i - 1].phase.Done?;
    assert i == |s.entered|;
    forall j | 0 <= j < i ensures s.calls[j].phase.Done? {
      if j < i - 1 { assert !s.calls[i - 1].phase.Waiting?; }
    }
  }

  lemma ReleaseOk(s: State, i: nat)
    requires Queue(s) && i < |s.calls| && s.calls[i].phase.Leaving?
    ensures Queue(SetPhase(s, i, Done).(resolved := s.resolved + {s.calls[i].own}))
  {}

  lemma StepKeepsQueue(cfg: SignerConfig, s: State, a: Action)
    requires Queue(s)
    ensures Queue(Step(cfg, s, a))
  {
    var s' := Step(cfg, s, a);
    if s' != s {
      match a {
        case Arrive(input) => ArriveOk(cfg, s, input);
        case Enter(i) => EnterOk(s, i);
        case Release(i) => ReleaseOk(s, i);
        case _ => MoveInside(s, a.call, s'.calls[a.call].phase);
      }
    }
  }

  lemma StepKeepsNonces(cfg: SignerConfig, s: State, a: Action)
    requires Queue(s) && Nonces(s)
    ensures Nonces(Step(cfg, s, a))
  {
    var s' := Step(cfg, s, a);
    if a.FinishSubmit? && s' != s && Submit(cfg, a.sub).Ok? {
      var i := a.call;
      forall j | 0 <= j < |s'.calls| ensures !s'.calls[j].phase.Submitting? {
        if j > i { assert s.calls[j].phase.Waiting?; }
      }
    }
  }

  lemma {:induction false} Reachable(cfg: SignerConfig, actions: seq<Action>)
    ensures Queue(Run(cfg, actions)) && Nonces(Run(cfg, actions))
  {
    if actions != [] {
      Reachable(cfg, actions[..|actions| - 1]);
      StepKeepsQueue(cfg, Run(cfg, actions[..|actions| - 1]), actions[|actions| - 1]);
      StepKeepsNonces(cfg, Run(cfg, actions[..|actions| - 1]), actions[|actions| - 1]);
    }
  }

  /** At most one submission is between acquiring and releasing, in every interleaving. */
  lemma MutualExclusion(cfg: SignerConfig, actions: seq<Action>, i: nat, j: nat)
    requires i < |Run(cfg, actions).calls| && j < |Run(cfg, actions).calls|
    requires InCritical(Run(cfg, actions).calls[i].phase) && InCritical(Run(cfg, actions).calls[j].phase)
    ensures i == j
  {
    Reachable(cfg, actions);
  }

  /** Submissions enter the critical section in the order they arrived. */
  lemma ArrivalOrder(cfg: SignerConfig, actions: seq<Action>)
    ensures var s := Run(cfg, actions); forall k :: 0 <= k < |s.entered| ==> s.entered[k] == k
  {
    Reachable(cfg, actions);
  }

  /** Accepted nonces strictly increase, however stale or wrong the node's counts are. */
  lemma NoncesIncrease(cfg: SignerConfig, actions: seq<Action>)
    ensures var s := Run(cfg, actions); forall i, j :: 0 <= i < j < |s.accepted| ==> s.accepted[i] < s.accepted[j]
  {
    Reachable(cfg, actions);
  }

  // ─── Consecutive nonces ───────────────────────────────────────────────────

  /** Along the run, whenever a floor exists the node's pending count does not exceed it. */
  ghost predicate NeverBeyondFloor(cfg: SignerConfig, actions: seq<Action>) {
    forall k :: 0 <= k < |actions| && actions[k].FinishPreflight? ==>
      var floor, pending := Run(cfg, actions[..k]).nextNonce, actions[k].pre.pendingNonce;
      floor.Some? && pending.Some? ==> pending.value <= floor.value
  }

  ghost predicate Consecutive(nonces: seq<nat>) {
    forall i :: 0 <= i < |nonces| - 1 ==> nonces[i + 1] == nonces[i] + 1
  }

  /** The accepted nonces are consecutive so far and a nonce about to be submitted is the next one. */
  ghost predicate OnFloor(s: State) {
    && Consecutive(s.accepted)
    && forall i :: 0 <= i < |s.calls| && s.calls[i].phase.Submitting? && s.nextNonce.Some?
         ==> s.calls[i].phase.nonce == s.nextNonce.value
  }

  lemma StepStaysOnFloor(cfg: SignerConfig, s: State, a: Action)
    requires Queue(s) && Nonces(s) && OnFloor(s)
    requires a.FinishPreflight? && s.nextNonce.Some? && a.pre.pendingNonce.Some? ==> a.pre.pendingNonce.value <= s.nextNonce.value
    ensures OnFloor(Step(cfg, s, a))
  {
    var s' := Step(cfg, s, a);
    if a.FinishSubmit? && s' != s && Submit(cfg, a.sub).Ok? {
      forall j | 0 <= j < |s'.calls| ensures !s'.calls[j].phase.Submitting? {
        if j > a.call { assert s.calls[j].phase.Waiting?; }
      }
    }
  }

  lemma {:induction false} ConsecutiveInvariant(cfg: SignerConfig, actions: seq<Action>)
    requires NeverBeyondFloor(cfg, actions)
    ensures OnFloor(Run(cfg, actions))
  {
    if actions != [] {
      var front, a := actions[..|actions| - 1], actions[|actions| - 1];
      forall k | 0 <= k < |front| && front[k].FinishPreflight?
        ensures var floor, pending := Run(cfg, front[..k]).nextNonce, front[k].pre.pendingNonce;
                floor.Some? && pending.Some? ==> pending.value <= floor.value
      {
        assert front[..k] == actions[..k] && front[k] == actions[k];
      }
      ConsecutiveInvariant(cfg, front);
      Reachable(cfg, front);
      StepStaysOnFloor(cfg, Run(cfg, front), a);
    }
  }

  /** With an honest node the accepted nonces have no gaps. */
  lemma NoncesConsecutive(cfg: SignerConfig, actions: seq<Action>)
    requires NeverBeyondFloor(cfg, actions)
    ensures Consecutive(Run(cfg, actions).accepted)
  {
    ConsecutiveInvariant(cfg, actions);
  }

  // ─── The lock is always released ──────────────────────────────────────────

  function Rank(p: Phase): nat {
    match p case Waiting => 5 case Preflighting => 4 case Submitting(_) => 3 case Confirming(_) => 2
    case Leaving => 1 case Done => 0
  }

  /** Steps left over all calls. */
  function Remaining(calls: seq<Call>): nat {
    if calls == [] then 0 else Remaining(calls[..|calls| - 1]) + Rank(calls[|calls| - 1].phase)
  }

  lemma {:induction false} RemainingUpdate(calls: seq<Call>, i: nat, c: Call)
    requires i < |calls|
    ensures Remaining(calls[i := c]) == Remaining(calls) - Rank(calls[i].phase) + Rank(c.phase)
  {
    var n := |calls| - 1;
    if i == n {
      assert calls[i := c][..n] == calls[..n];
    } else {
      RemainingUpdate(calls[..n], i, c);
      assert calls[i := c][..n] == calls[..n][i := c];
    }
  }

  /** No schedule runs forever without new arrivals: every effective step uses up work. */
  lemma StepsUseUpWork(cfg: SignerConfig, s: State, a: Action)
    requires !a.Arrive? && Step(cfg, s, a) != s
    ensures Remaining(Step(cfg, s, a).calls) < Remaining(s.calls)
  {
    var i := a.call;
    RemainingUpdate(s.calls, i, Step(cfg, s, a).calls[i]);
  }

  /** The next action of a call that has entered; every answer of the outside world will do. */
  ghost predicate Drives(a: Action, i: nat, p: Phase) {
    match p
    case Preflighting => a.FinishPreflight? && a.call == i
    case Submitting(_) => a.FinishSubmit? && a.call == i
    case Confirming(_) => a.FinishConfirm? && a.call == i
    case Leaving => a.Release? && a.call == i
    case _ => a.Enter? && a.call == i
  }

  /**
   * No deadlock: while a call is unfinished, the first such call can move, whatever the
   * outside world answers. With the lemma above, every call finishes and releases the lock.
   */
  lemma FirstUnfinishedMoves(cfg: SignerConfig, actions: seq<Action>, i: nat, a: Action)
    requires var s := Run(cfg, actions);
             && i < |s.calls| && !s.calls[i].phase.Done?
             && (forall j :: 0 <= j < i ==> s.calls[j].phase.Done?)
             && Drives(a, i, s.calls[i].phase)
    ensures Rank(Step(cfg, Run(cfg, actions), a).calls[i].phase) < Rank(Run(cfg, actions).calls[i].phase)
  {
    Reachable(cfg, actions);
    var s := Run(cfg, actions);
    if s.calls[i].phase.Waiting? {
      assert s.calls[i].previous in s.resolved by {
        assert s.calls[i].previous == i;
        if i > 0 { assert s.calls[i - 1].phase.Done?; }
      }
    }
  }
}
