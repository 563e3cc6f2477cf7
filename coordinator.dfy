/** The coordinator: the ambient context a call chain carries, the per-call-chain Transaction
    object (its started/not-started guard, its ordered list of Try invocations, commit and
    rollBack), the service proxy that records successful calls into it, and the idempotent
    invocation path every participant service runs through (execServiceMethod). */
module Coordinator {
  import opened Rpc
  import opened InvocationLog
  import opened Ids
  import opened Replay

  /** `rpc_tcc.db_pool`: the pool that holds the invocation log. */
  const ConfiguredPool := DefaultPool

  /** The ambient state of one call chain and of its process: the RPC context that travels
      with every service call (phase, transaction id, request id, local-request flag), the
      coroutine context (first-node flag, parent request id, current coordinator), and the
      process-wide transaction counter `Transaction::$transactionNo`. `origin` stands for
      the trace id, process id and coroutine id that createTransactionId joins. An absent
      transaction id or request id is the empty string. */
  class Env {
    var phase: Option<Phase>
    var txId: string
    var req: string
    var localReq: bool
    var firstNode: bool
    var parentReq: Option<string>
    var current: Transaction?
    var txNo: nat
    const origin: string

    constructor (phase: Option<Phase>, txId: string, req: string, localReq: bool, txNo: nat, origin: string)
      ensures this.phase == phase && this.txId == txId && this.req == req && this.localReq == localReq
      ensures this.txNo == txNo && this.origin == origin
      ensures !firstNode && parentReq.None? && current == null
    {
      this.phase := phase;
      this.txId := txId;
      this.req := req;
      this.localReq := localReq;
      this.txNo := txNo;
      this.origin := origin;
      firstNode := false;
      parentReq := None;
      current := null;
    }

    /** The part of the context a detached replay task starts from. */
    function AmbientOf(): Replay.Ambient
      reads this
    {
      Replay.Ambient(phase, txId, req)
    }
  }

  /** getTransaction's first-node rule: a coordinator starts a chain when the context has no
      phase, or when the phase is Try and this coroutine already started a chain. */
  predicate StartsChain(phase: Option<Phase>, firstNodeFlag: bool) {
    phase.None? || (phase == Some(Try) && firstNodeFlag)
  }

  /** The transaction id beginTransaction settles on, and the process counter after it. */
  datatype IdChoice = IdChoice(id: string, txNo: nat, drawn: bool)

  /** beginTransaction's id rule: a first node always draws a fresh id (advancing the
      counter); any other node keeps the id it has, else adopts the context's, and draws one
      only when both are empty. Whatever the case, the id it ends with is not empty. */
  function ChooseId(firstNode: bool, own: string, ctx: string, origin: string, txNo: nat): (c: IdChoice)
    ensures c.drawn <==> firstNode || (Falsy(own) && Falsy(ctx))
    ensures c.drawn ==> c.txNo == txNo + 1 && c.id == TransactionIdFor(origin, c.txNo)
    ensures !c.drawn ==> c.txNo == txNo && c.id == (if Falsy(own) then ctx else own)
    ensures !Falsy(c.id)
  {
    if firstNode || (Falsy(own) && Falsy(ctx)) then
      var id := TransactionIdFor(origin, txNo + 1);
      assert id[|origin|] == '-';
      IdChoice(id, txNo + 1, true)
    else IdChoice(if Falsy(own) then ctx else own, txNo, false)
  }

  /** The insert loop of commit and rollBack: one Wait row per entry, in order, stopping at
      the first key that already has a row. */
  method InsertEntries(es: seq<Entry>, phase: Phase, log: Log) returns (ok: bool)
    modifies log`rows
    ensures InsertWaitRows(old(log.rows), es, phase, log.clock) == Inserted(log.rows, ok)
  {
    ghost var s0 := log.rows;
    ok := true;
    var i := 0;
    while i < |es| && ok
      invariant 0 <= i <= |es|
      invariant InsertWaitRows(s0, es[..i], phase, log.clock) == Inserted(log.rows, ok)
    {
      assert es[..i + 1][..i] == es[..i];
      ok := log.Insert(EntryKey(phase, es[i]), WaitRow(es[i].params, false, log.clock));
      i := i + 1;
    }
    InsertStops(s0, es, i, phase, log.clock);
  }

  /** Once an insert has failed the loop is over: the rest of the list changes nothing. */
  lemma {:induction false} InsertStops(s: Store, es: seq<Entry>, i: nat, phase: Phase, clock: int)
    requires i <= |es|
    requires i < |es| ==> !InsertWaitRows(s, es[..i], phase, clock).ok
    ensures InsertWaitRows(s, es, phase, clock) == InsertWaitRows(s, es[..i], phase, clock)
    decreases |es|
  {
    if i < |es| {
      var init := es[..|es| - 1];
      assert init[..i] == es[..i];
      InsertStops(s, init, i, phase, clock);
    } else {
      assert es[..i] == es;
    }
  }

  /** The replay loop of commit's and rollBack's detached task, run to completion. The clone
      is a copy nobody else sees, so its request counter and the context fields it rewrites
      are kept as local values. */
  method ReplayEntries(snap: Snap, phase: Phase, amb0: Replay.Ambient, cfg: Setting, log: Log, svc: Services)
    returns (calls: seq<Call>)
    requires cfg.clock == log.clock
    modifies log`rows
    ensures var r := ReplayAll(State(old(log.rows), [], amb0, snap.idx), snap.entries, phase, snap, cfg, svc);
      log.rows == r.rows && calls == r.calls
  {
    var es := snap.entries;
    ghost var st0 := State(log.rows, [], amb0, snap.idx);
    var amb := amb0;
    var idx := snap.idx;
    calls := [];
    for i := 0 to |es|
      invariant ReplayAll(st0, es[..i], phase, snap, cfg, svc) == State(log.rows, calls, amb, idx)
    {
      ReplayAllNext(st0, es, i, phase, snap, cfg, svc);
      calls, amb, idx := ReplayOne(es[i], phase, snap, cfg, log, svc, calls, amb, idx);
    }
    assert es[..|es|] == es;
  }

  /** One iteration of the replay loop: set phase, transaction id and request id on the
      clone, fetch a proxy from it (which fails on a clone that was not started) and call the
      service; a returned call advances the clone's counter and deletes the row, any failure
      applies the failure update. */
  method ReplayOne(e: Entry, phase: Phase, snap: Snap, cfg: Setting, log: Log, svc: Services,
                   calls0: seq<Call>, amb0: Replay.Ambient, idx0: nat)
    returns (calls: seq<Call>, amb: Replay.Ambient, idx: nat)
    requires cfg.clock == log.clock
    modifies log`rows
    ensures State(log.rows, calls, amb, idx) == Step(State(old(log.rows), calls0, amb0, idx0), e, phase, snap, cfg, svc)
  {
    ghost var pre := State(log.rows, calls0, amb0, idx0);
    calls, idx := calls0, idx0;
    var tx := TxFor(phase, e, amb0.txId);
    amb := Replay.Ambient(Some(phase), tx, e.req);
    var k := EntryKey(phase, e);
    if !snap.active {
      log.UpdateRetry(k);
    } else {
      var c := ReplayCall(phase, e, tx, cfg.local);
      match svc(c) {
        case Returned(_) =>
          StepReturned(pre, e, phase, snap, cfg, svc);
          log.Delete(k);
          calls := calls + [c];
          idx := idx + 1;
          amb := amb.(req := ReqId(snap.parentReq, snap.firstNode, cfg.txNo, idx));
        case Threw =>
          log.UpdateRetry(k);
          calls := calls + [c];
      }
    }
  }

  /** The per-call-chain coordinator. */
  class Transaction {
    var serviceList: seq<Entry>
    var serviceListIdx: nat
    var isFirstNode: bool
    var dbPools: seq<string>
    var transactionId: string
    var transactionType: Phase
    var parentReq: Option<string>
    var transactionDbPool: string
    var isTransaction: bool
    /** Whether the local database transactions on `dbPools` are open. */
    var localTxnOpen: bool

    /** getTransaction: a new coordinator whose phase is the context's (Try when there is
        none), which is a first node by StartsChain, and which becomes the current
        coordinator of the coroutine. */
    constructor Get(env: Env, pools: seq<string>)
      modifies env`phase, env`firstNode, env`current
      ensures isFirstNode == StartsChain(old(env.phase), old(env.firstNode))
      ensures transactionType == old(env.phase).GetOr(Try)
      ensures env.phase == Some(transactionType)
      ensures env.firstNode == (old(env.firstNode) || isFirstNode)
      ensures env.current == this
      ensures dbPools == PoolList(pools, ConfiguredPool) && transactionDbPool == ConfiguredPool
      ensures serviceList == [] && serviceListIdx == 0
      ensures !isTransaction && !localTxnOpen && transactionId == "" && parentReq.None?
    {
      var first := StartsChain(env.phase, env.firstNode);
      var phase := env.phase.GetOr(Try);
      serviceList := [];
      serviceListIdx := 0;
      isFirstNode := first;
      dbPools := PoolList(pools, ConfiguredPool);
      transactionId := "";
      transactionType := phase;
      parentReq := None;
      transactionDbPool := ConfiguredPool;
      isTransaction := false;
      localTxnOpen := false;
      new;
      env.phase := Some(phase);
      if first {
        env.firstNode := true;
      }
      env.current := this;
    }

    /** What the detached replay task works on: a copy of the coordinator taken when commit
        or rollBack is called. */
    function Snapshot(): Snap
      reads this
    {
      Snap(serviceList, isTransaction, isFirstNode, parentReq, serviceListIdx)
    }

    /** getService: a proxy bound to this coordinator, refused unless it was started. */
    method GetService(cls: string) returns (r: Result<InjectService>)
      ensures r.Ok? <==> isTransaction
      ensures r.Err? ==> r.error == TransactionState
      ensures r.Ok? ==> fresh(r.value) && r.value.serviceClass == cls && r.value.transaction == this
    {
      if !isTransaction {
        return Err(TransactionState);
      }
      var proxy := new InjectService(cls, this);
      r := Ok(proxy);
    }

    /** beginTransaction: refused while started; otherwise the coordinator is started. */
    method BeginTransaction(env: Env) returns (r: Result<()>)
      modifies this`parentReq, this`transactionId, this`transactionType, this`isTransaction,
               this`serviceList, this`serviceListIdx, this`localTxnOpen,
               env`txId, env`phase, env`req, env`parentReq, env`current, env`txNo
      ensures old(isTransaction) ==> r == Err(TransactionState) && unchanged(this) && unchanged(env)
      ensures !old(isTransaction) ==> r == Ok(()) && Started(env)
    {
      if isTransaction {
        return Err(TransactionState);
      }
      Start(env);
      r := Ok(());
    }

    /** The state a successful beginTransaction leaves behind. The parent request id is fixed
        the first time only (from the coroutine, else from the context's request id). The id
        is settled by ChooseId, and a first node resets the phase to Try. The coordinator is
        started with its local transactions open, its list and index start over, the
        context's request id becomes the id of index 0, and it becomes the coroutine's
        current coordinator. */
    twostate predicate Started(env: Env)
      reads this, env
    {
      && parentReq == (if old(parentReq).Some? then old(parentReq)
                       else Some(old(env.parentReq).GetOr(old(env.req))))
      && env.parentReq == (if old(parentReq).Some? then old(env.parentReq) else parentReq)
      && var choice := ChooseId(old(isFirstNode), old(transactionId), old(env.txId), env.origin, old(env.txNo));
      && transactionId == choice.id && env.txNo == choice.txNo
      && env.txId == (if choice.drawn then choice.id else old(env.txId))
      && transactionType == (if isFirstNode then Try else old(transactionType))
      && env.phase == (if isFirstNode then Some(Try) else old(env.phase))
      && isTransaction && localTxnOpen && serviceList == [] && serviceListIdx == 0
      && env.req == ReqId(parentReq, isFirstNode, env.txNo, 0)
      && env.current == this
    }

    method Start(env: Env)
      modifies this`parentReq, this`transactionId, this`transactionType, this`isTransaction,
               this`serviceList, this`serviceListIdx, this`localTxnOpen,
               env`txId, env`phase, env`req, env`parentReq, env`current, env`txNo
      ensures Started(env)
      ensures !Falsy(transactionId)
    {
      var parent := if parentReq.Some? then parentReq else Some(env.parentReq.GetOr(env.req));
      var choice := ChooseId(isFirstNode, transactionId, env.txId, env.origin, env.txNo);
      var req := ReqId(parent, isFirstNode, choice.txNo, 0);
      if parentReq.None? {
        env.parentReq := parent;
      }
      if choice.drawn {
        env.txId := choice.id;
      }
      if isFirstNode {
        transactionType := Try;
        env.phase := Some(Try);
      }
      parentReq, transactionId, isTransaction, serviceList, serviceListIdx, localTxnOpen :=
        parent, choice.id, true, [], 0, true;
      env.txNo, env.req, env.current := choice.txNo, req, this;
    }

    /** addServiceFun: a Try call is appended to the list; every call advances the index and
        the context's request id to the id of the new index. */
    method AddServiceFun(txId: string, phase: Option<Phase>, req: string, cls: string, fun: string,
                         params: seq<Value>, env: Env)
      modifies this`serviceList, this`serviceListIdx, env`req
      ensures serviceList == old(serviceList) +
                (if phase == Some(Try) then [Entry(txId, req, cls, fun, params)] else [])
      ensures serviceListIdx == old(serviceListIdx) + 1
      ensures env.req == ReqId(parentReq, isFirstNode, env.txNo, serviceListIdx)
    {
      if phase == Some(Try) {
        serviceList := serviceList + [Entry(txId, req, cls, fun, params)];
      }
      serviceListIdx := serviceListIdx + 1;
      env.req := ReqId(parentReq, isFirstNode, env.txNo, serviceListIdx);
    }

    /** commit: a first node inserts a Confirm Wait row per recorded entry (an insert that
        hits an existing key fails the commit with nothing else changed), then the local
        transactions are committed and the coordinator is no longer started; a first node
        then replays its snapshot under Confirm. */
    method Commit(env: Env, log: Log, svc: Services) returns (r: Result<()>, calls: seq<Call>)
      modifies this`isTransaction, this`localTxnOpen, log`rows
      ensures var ins := InsertWaitRows(old(log.rows), old(serviceList), Confirm, log.clock);
        && (r.Err? <==> isFirstNode && !ins.ok)
        && (r.Err? ==> r.error == DuplicateKey && log.rows == ins.rows && calls == []
                       && isTransaction == old(isTransaction) && localTxnOpen == old(localTxnOpen))
        && (r.Ok? ==> !isTransaction && !localTxnOpen)
        && (r.Ok? && isFirstNode ==>
              var task := ConfirmTask(ins.rows, old(Snapshot()), env.AmbientOf(),
                                      Setting(env.txNo, env.localReq, log.clock), svc);
              log.rows == task.rows && calls == task.calls)
        && (!isFirstNode ==> log.rows == old(log.rows) && calls == [])
    {
      var snap := Snapshot();
      calls := [];
      if isFirstNode {
        var ok := InsertEntries(snap.entries, Confirm, log);
        if !ok {
          return Err(DuplicateKey), [];
        }
      }
      localTxnOpen := false;
      isTransaction := false;
      if snap.firstNode {
        calls := ReplayEntries(snap, Confirm, env.AmbientOf(), Setting(env.txNo, env.localReq, log.clock), log, svc);
      }
      r := Ok(());
    }

    /** rollBack: the local transactions are rolled back and the coordinator is no longer
        started; when its phase was Try, the detached task inserts a Cancel Wait row per
        recorded entry and replays the snapshot under Cancel. */
    method RollBack(env: Env, log: Log, svc: Services) returns (calls: seq<Call>)
      modifies this`isTransaction, this`localTxnOpen, log`rows
      ensures !isTransaction && !localTxnOpen
      ensures var task := RollBackTask(old(log.rows), old(Snapshot()), transactionType, env.AmbientOf(),
                                       Setting(env.txNo, env.localReq, log.clock), svc);
        log.rows == task.rows && calls == task.calls
    {
      var snap := Snapshot();
      localTxnOpen := false;
      isTransaction := false;
      calls := [];
      if transactionType == Try {
        var ok := InsertEntries(snap.entries, Cancel, log);
        if ok {
          calls := ReplayEntries(snap, Cancel, env.AmbientOf(), Setting(env.txNo, env.localReq, log.clock), log, svc);
        }
      }
    }

    /** commonRollBack: the coroutine's coordinator is rolled back when it is started. */
    static method CommonRollBack(env: Env, log: Log, svc: Services) returns (calls: seq<Call>)
      modifies log`rows, env.current
      ensures var t := env.current;
        t != null && old(t.isTransaction) ==>
          && !t.isTransaction && !t.localTxnOpen
          && var task := RollBackTask(old(log.rows), old(t.Snapshot()), t.transactionType, env.AmbientOf(),
                                      Setting(env.txNo, env.localReq, log.clock), svc);
             log.rows == task.rows && calls == task.calls
      ensures var t := env.current;
        !(t != null && old(t.isTransaction)) ==>
          log.rows == old(log.rows) && calls == [] && (t != null ==> unchanged(t))
    {
      calls := [];
      var t := env.current;
      if t != null && t.isTransaction {
        calls := t.RollBack(env, log, svc);
      }
    }

    /** execServiceMethod: the idempotent path a participant service runs through. Without a
        phase in the context, or without the phase's method, it fails before touching the
        log. A key whose row is Success answers with the stored result and calls nothing.
        Otherwise the log is prepared (Prepared), the method is called, and a return marks
        the row Success; a throw first rolls back a started coordinator of the coroutine,
        then deletes the row in Try (and rethrows) or applies the failure update outside
        Try (rethrowing only on a local request, else answering null). */
    static method ExecServiceMethod(cls: string, func: string, params: seq<Value>, implemented: set<Phase>,
                                    env: Env, log: Log, svc: Services)
      returns (r: Result<Value>, calls: seq<Call>)
      modifies log`rows, env.current
      ensures env.phase.None? || env.phase.value !in implemented ==>
        r == Err(MethodDispatch) && log.rows == old(log.rows) && calls == [] &&
        (env.current != null ==> unchanged(env.current))
      ensures env.phase.Some? && env.phase.value in implemented ==>
        var k := Key(env.phase.value, env.txId, env.req, cls, func);
        var cached := Cached(old(log.rows), k);
        var p := Prepared(old(log.rows), k, params, log.clock);
        var c := Call(env.phase, env.txId, env.req, env.localReq, cls, func, params);
        var t := env.current;
        var rolled := t != null && old(t.isTransaction);
        && (cached.Some? ==>
              r == Ok(cached.value) && log.rows == old(log.rows) && calls == [] &&
              (t != null ==> unchanged(t)))
        && (cached.None? && svc(c).Returned? ==>
              r == Ok(svc(c).result) && log.rows == MarkSuccess(p, k, svc(c).result, log.clock) &&
              calls == [c] && (t != null ==> unchanged(t)))
        && (cached.None? && svc(c).Threw? ==>
              var task := if rolled
                then RollBackTask(p, old(t.Snapshot()), t.transactionType, env.AmbientOf(),
                                  Setting(env.txNo, env.localReq, log.clock), svc)
                else State(p, [], env.AmbientOf(), 0);
              && calls == [c] + task.calls
              && (rolled ==> !t.isTransaction && !t.localTxnOpen)
              && (!rolled && t != null ==> unchanged(t))
              && (env.phase == Some(Try) ==> r == Err(Thrown) && log.rows == task.rows - {k})
              && (env.phase != Some(Try) ==>
                    r == (if env.localReq then Err(Thrown) else Ok(Null)) &&
                    log.rows == MarkRetry(task.rows, k, log.clock)))
    {
      if env.phase.None? || env.phase.value !in implemented {
        return Err(MethodDispatch), [];
      }
      var phase := env.phase.value;
      var k := Key(phase, env.txId, env.req, cls, func);
      var history := log.Find(k);
      if history.Some? && history.value.status == Success {
        return Ok(history.value.result), [];
      }
      if history.None? {
        var inserted := log.Insert(k, WaitRow(params, true, log.clock));
        assert inserted;
        if phase != Try {
          log.DeleteIfSucceeded(TryKeyOf(k));
        }
      }
      var c := Call(env.phase, env.txId, env.req, env.localReq, cls, func, params);
      calls := [c];
      match svc(c) {
        case Returned(v) =>
          log.UpdateSuccess(k, v);
          r := Ok(v);
        case Threw =>
          var t := env.current;
          if t != null && t.isTransaction {
            var cancels := t.RollBack(env, log, svc);
            calls := calls + cancels;
          }
          if phase == Try {
            log.Delete(k);
            r := Err(Thrown);
          } else {
            log.UpdateRetry(k);
            r := if env.localReq then Err(Thrown) else Ok(Null);
          }
      }
    }
  }

  /** The proxy getService hands out: every method call goes to the service, and a call that
      returns is recorded into the bound coordinator. */
  class InjectService {
    const serviceClass: string
    var transaction: Transaction

    constructor (serviceClass: string, transaction: Transaction)
      ensures this.serviceClass == serviceClass && this.transaction == transaction
    {
      this.serviceClass := serviceClass;
      this.transaction := transaction;
    }

    /** setTransaction: rebinds the proxy and returns it. */
    method SetTransaction(t: Transaction) returns (self: InjectService)
      modifies this`transaction
      ensures transaction == t && self == this
    {
      transaction := t;
      self := this;
    }

    /** __call: the transaction id is read from the bound coordinator and phase and request
        id from the context, all before the call. The service is called with the context; its
        result is returned unchanged, and only a call that returned is recorded, once, with
        the values read before it. */
    method Invoke(fun: string, params: seq<Value>, env: Env, svc: Services) returns (r: Result<Value>, c: Call)
      modifies transaction`serviceList, transaction`serviceListIdx, env`req
      ensures c == Call(old(env.phase), old(env.txId), old(env.req), old(env.localReq), serviceClass, fun, params)
      ensures svc(c).Threw? ==>
        r == Err(Thrown) && unchanged(transaction) && unchanged(env)
      ensures svc(c).Returned? ==>
        && r == Ok(svc(c).result)
        && transaction.serviceList == old(transaction.serviceList) +
             (if old(env.phase) == Some(Try)
              then [Entry(old(transaction.transactionId), old(env.req), serviceClass, fun, params)] else [])
        && transaction.serviceListIdx == old(transaction.serviceListIdx) + 1
        && env.req == ReqId(transaction.parentReq, transaction.isFirstNode, env.txNo, transaction.serviceListIdx)
    {
      var txId := transaction.transactionId;
      var phase := env.phase;
      var req := env.req;
      c := Call(env.phase, env.txId, env.req, env.localReq, serviceClass, fun, params);
      match svc(c) {
        case Threw =>
          r := Err(Thrown);
        case Returned(v) =>
          transaction.AddServiceFun(txId, phase, req, serviceClass, fun, params, env);
          r := Ok(v);
      }
    }
  }
}
