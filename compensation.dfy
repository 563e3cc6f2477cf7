/** The compensation worker's four duties over the invocation log: purge old Success rows,
    re-drive local Confirm/Cancel rows, re-drive remote Confirm/Cancel rows, and cancel local
    Try rows whose transaction never finished. Each duty selects rows with a filter and then
    attempts every selected row once, in the order the query returns them. Times are whole
    seconds; `now` is the worker's clock when the duty runs. */
module Compensation {
  import opened Rpc
  import opened InvocationLog

  /** Success rows are kept for four hours. */
  const PurgeAge: int := 4 * 3600
  /** A Wait row is left alone for a minute after its last change. */
  const QuietPeriod: int := 60
  /** `rpc_tcc.try_timeout_cancel`: how long a local Try may stay unconfirmed. */
  const TryTimeoutCancel: int := 120

  predicate Purgeable(r: Row, now: int) {
    r.status == Success && r.mt <= now - PurgeAge
  }

  /** delHistoryData's DELETE: every Success row last changed at least four hours ago. */
  function Purged(s: Store, now: int): (p: Store)
    ensures p.Keys <= s.Keys
    ensures forall k :: k in s && !Purgeable(s[k], now) ==> k in p && p[k] == s[k]
    ensures forall k :: k in s && Purgeable(s[k], now) ==> k !in p
  {
    map k | k in s && !Purgeable(s[k], now) :: s[k]
  }

  /** The purge never loses a row that is still pending (Wait or Fail), and purging twice at
      the same time is purging once. */
  lemma PurgeKeepsPending(s: Store, now: int, k: Key)
    requires k in s && s[k].status != Success
    ensures k in Purged(s, now) && Purged(s, now)[k] == s[k]
    ensures Purged(Purged(s, now), now) == Purged(s, now)
  {
    var p := Purged(s, now);
    assert Purged(p, now).Keys == p.Keys;
  }

  method DelHistoryData(log: Log, now: int)
    modifies log`rows
    ensures log.rows == Purged(old(log.rows), now)
  {
    log.rows := Purged(log.rows, now);
  }

  /** The query of both repair duties: Wait rows of phase Confirm or Cancel, untouched for the
      quiet period, below their retry limit, and local or remote as asked. */
  predicate RepairCandidate(k: Key, r: Row, now: int, local: bool) {
    && r.status == Wait
    && r.isLocal == local
    && (k.phase == Confirm || k.phase == Cancel)
    && r.mt <= now - QuietPeriod
    && r.executeCount < r.maxRetry
  }

  function Selection(s: Store, now: int, local: bool): (sel: set<Key>)
    ensures sel <= s.Keys
    ensures forall k :: k in s ==> (k in sel <==> RepairCandidate(k, s[k], now, local))
  {
    set k | k in s && RepairCandidate(k, s[k], now, local)
  }

  /** The call a repair makes for a row: the row's phase, id and request id in the context,
      its class, method and stored arguments. `local` is the local-request flag the duty sets
      (the local duty sets it; the remote duty, in a coroutine of its own, does not). */
  function RepairCall(k: Key, r: Row, local: bool): Call {
    Call(Some(k.phase), k.txId, k.req, local, k.cls, k.func, r.params)
  }

  /** `order` lists the keys of `keys`, each exactly once. */
  ghost predicate Lists(order: seq<Key>, keys: set<Key>) {
    && (forall i, j :: 0 <= i < j < |order| ==> order[i] != order[j])
    && (forall k :: k in order <==> k in keys)
  }

  lemma ListsAppend(order: seq<Key>, keys: set<Key>, k: Key)
    requires Lists(order, keys) && k !in keys
    ensures Lists(order + [k], keys + {k})
  {
    var o := order + [k];
    forall i, j | 0 <= i < j < |o| ensures o[i] != o[j] {
      if j == |order| {
        assert o[i] == order[i] && order[i] in keys;
      } else {
        assert o[i] == order[i] && o[j] == order[j];
      }
    }
  }

  /** The calls a repair duty makes when it attempts the rows `order` in that order. */
  function RepairCalls(order: seq<Key>, s: Store, local: bool): (calls: seq<Call>)
    requires forall k :: k in order ==> k in s
    ensures |calls| == |order|
    ensures forall i :: 0 <= i < |order| ==> calls[i] == RepairCall(order[i], s[order[i]], local)
    decreases |order|
  {
    if order == [] then []
    else
      var init := order[..|order| - 1];
      assert forall k :: k in init ==> k in order;
      RepairCalls(init, s, local) + [RepairCall(order[|order| - 1], s[order[|order| - 1]], local)]
  }

  /** What the local duty does to one row it attempts: Success with the result when the
      call returned, nothing when it threw. */
  function LocalAttempt(k: Key, r: Row, svc: Services, clock: int): Row {
    match svc(RepairCall(k, r, true))
    case Returned(v) => Succeeded(r, v, clock)
    case Threw => r
  }

  /** The log after the local duty attempted the rows `keys`; the other rows are as they were. */
  function LocalRepaired(s: Store, keys: set<Key>, svc: Services, clock: int): (p: Store)
    ensures p.Keys == s.Keys
  {
    map k | k in s :: if k in keys then LocalAttempt(k, s[k], svc, clock) else s[k]
  }

  /** The log after the remote duty attempted the rows `keys`: a row whose call returned is
      deleted, a row whose call threw gets the failure update, every other row is as it was. */
  function RemoteRepaired(s: Store, keys: set<Key>, svc: Services, clock: int): (p: Store)
    ensures p.Keys <= s.Keys
  {
    map k | k in s && !(k in keys && svc(RepairCall(k, s[k], false)).Returned?) ::
      if k in keys then Retried(s[k], clock) else s[k]
  }

  /** Attempting one more row of the local duty changes that row only. */
  lemma LocalRepairedStep(s: Store, done: set<Key>, k: Key, svc: Services, clock: int)
    requires k in s && k !in done
    ensures k in LocalRepaired(s, done, svc, clock) && LocalRepaired(s, done, svc, clock)[k] == s[k]
    ensures LocalRepaired(s, done + {k}, svc, clock) ==
              LocalRepaired(s, done, svc, clock)[k := LocalAttempt(k, s[k], svc, clock)]
  {
    var a := LocalRepaired(s, done + {k}, svc, clock);
    var b := LocalRepaired(s, done, svc, clock)[k := LocalAttempt(k, s[k], svc, clock)];
    assert a.Keys == b.Keys;
    forall k' | k' in a ensures a[k'] == b[k'] {
    }
  }

  /** Attempting one more row of the remote duty changes that row only. */
  lemma RemoteRepairedStep(s: Store, done: set<Key>, k: Key, svc: Services, clock: int)
    requires k in s && k !in done
    ensures k in RemoteRepaired(s, done, svc, clock) && RemoteRepaired(s, done, svc, clock)[k] == s[k]
    ensures var o := svc(RepairCall(k, s[k], false));
      RemoteRepaired(s, done + {k}, svc, clock) ==
        if o.Returned? then RemoteRepaired(s, done, svc, clock) - {k}
        else RemoteRepaired(s, done, svc, clock)[k := Retried(s[k], clock)]
  {
    var o := svc(RepairCall(k, s[k], false));
    var a := RemoteRepaired(s, done + {k}, svc, clock);
    var prev := RemoteRepaired(s, done, svc, clock);
    var b := if o.Returned? then prev - {k} else prev[k := Retried(s[k], clock)];
    assert k in prev;
    forall k' ensures k' in a <==> k' in b {
      if k' != k {
        assert k' in a <==> k' in prev;
      }
    }
    forall k' | k' in a ensures a[k'] == b[k'] {
      if k' != k {
        assert a[k'] == prev[k'];
      }
    }
  }

  /** A local repair that succeeded is final: the row is Success with one more execution and
      the result, so the next execServiceMethod under that key answers with the result. */
  lemma LocalRepairIsCached(s: Store, keys: set<Key>, svc: Services, clock: int, k: Key)
    requires k in s && k in keys && svc(RepairCall(k, s[k], true)).Returned?
    ensures var p := LocalRepaired(s, keys, svc, clock);
      var v := svc(RepairCall(k, s[k], true)).result;
      && p[k].status == Success && p[k].executeCount == s[k].executeCount + 1
      && Cached(p, k) == Some(v)
  {
  }

  /** A remote repair moves every selected row forward: it is gone when its call returned,
      and otherwise it has been counted once more and has become Fail exactly when that count
      reached the limit. Rows it did not select are untouched. */
  lemma RemoteRepairProgress(s: Store, now: int, svc: Services, clock: int, k: Key)
    requires k in s
    ensures var sel := Selection(s, now, false);
      var p := RemoteRepaired(s, sel, svc, clock);
      && (k !in sel ==> k in p && p[k] == s[k])
      && (k in sel ==>
            && (k in p <==> svc(RepairCall(k, s[k], false)).Threw?)
            && (k in p ==> p[k].executeCount == s[k].executeCount + 1 &&
                           (p[k].status == Fail <==> s[k].executeCount + 1 >= s[k].maxRetry)))
  {
  }

  /** Successive passes of the remote duty, the j-th at time `ts[j]`; the database clock
      that stamps the rows is taken to agree with the worker's clock at each pass. Each pass
      queries the log as the previous one left it. */
  function RemoteRounds(s: Store, ts: seq<int>, svc: Services): (p: Store)
    ensures p.Keys <= s.Keys
    decreases |ts|
  {
    if ts == [] then s
    else
      var p := RemoteRounds(s, ts[..|ts| - 1], svc);
      var t := ts[|ts| - 1];
      RemoteRepaired(p, Selection(p, t, false), svc, t)
  }

  /** Passes at least a quiet period apart: every pass selects the row again while it is
      Wait, so each failing pass counts one more attempt, and the row is Fail exactly after
      the pass that brings its count to the limit. */
  lemma {:induction false} RemoteRoundsRow(s: Store, ts: seq<int>, svc: Services, k: Key, t0: int)
    requires k in s && RepairCandidate(k, s[k], t0, false)
    requires svc(RepairCall(k, s[k], false)).Threw?
    requires |ts| > 0 ==> ts[0] >= t0
    requires forall j :: 0 < j < |ts| ==> ts[j] >= ts[j - 1] + QuietPeriod
    requires |ts| <= s[k].maxRetry - s[k].executeCount
    ensures var p := RemoteRounds(s, ts, svc);
      && k in p
      && p[k].params == s[k].params && !p[k].isLocal && p[k].maxRetry == s[k].maxRetry
      && p[k].executeCount == s[k].executeCount + |ts|
      && p[k].status == (if |ts| == s[k].maxRetry - s[k].executeCount then Fail else Wait)
      && (|ts| > 0 ==> p[k].mt == ts[|ts| - 1])
    decreases |ts|
  {
    if ts != [] {
      var init := ts[..|ts| - 1];
      var t := ts[|ts| - 1];
      forall j | 0 < j < |init| ensures init[j] >= init[j - 1] + QuietPeriod {
        assert init[j] == ts[j] && init[j - 1] == ts[j - 1];
      }
      RemoteRoundsRow(s, init, svc, k, t0);
      var p := RemoteRounds(s, init, svc);
      if |init| > 0 {
        assert p[k].mt == ts[|ts| - 2];
      }
      assert RepairCandidate(k, p[k], t, false);
      assert RepairCall(k, p[k], false) == RepairCall(k, s[k], false);
      assert k in Selection(p, t, false);
    }
  }

  /** Retries end: a remote row the repair duty selects, and whose call keeps failing, is
      Fail after as many passes (a quiet period apart) as its limit allows, and from then
      on is never selected again, whatever the time. */
  lemma RetriesEnd(s: Store, ts: seq<int>, svc: Services, k: Key, later: int)
    requires k in s && |ts| > 0 && RepairCandidate(k, s[k], ts[0], false)
    requires svc(RepairCall(k, s[k], false)).Threw?
    requires forall j :: 0 < j < |ts| ==> ts[j] >= ts[j - 1] + QuietPeriod
    requires |ts| == s[k].maxRetry - s[k].executeCount
    ensures var p := RemoteRounds(s, ts, svc);
      k in p && p[k].status == Fail && p[k].executeCount == p[k].maxRetry &&
      k !in Selection(p, later, false)
  {
    RemoteRoundsRow(s, ts, svc, k, ts[0]);
  }

  /** The rows of a query result in the order the database returns them, which nothing
      fixes: any listing of the selected keys, each once. */
  method QueryOrder(sel: set<Key>) returns (order: seq<Key>)
    ensures Lists(order, sel)
  {
    var todo := sel;
    order := [];
    while todo != {}
      invariant todo <= sel
      invariant Lists(order, sel - todo)
      decreases |todo|
    {
      var k :| k in todo;
      ListsAppend(order, sel - todo, k);
      assert (sel - todo) + {k} == sel - (todo - {k});
      order := order + [k];
      todo := todo - {k};
    }
  }

  /** The log after the local duty attempted the rows `order` one after the other, each with
      the arguments it had when it was selected. */
  function LocalPass(s: Store, order: seq<Key>, svc: Services, clock: int): (p: Store)
    requires forall k :: k in order ==> k in s
    ensures p.Keys == s.Keys
    ensures forall k :: k in s && k !in order ==> p[k] == s[k]
    decreases |order|
  {
    if order == [] then s
    else
      var init, k := order[..|order| - 1], order[|order| - 1];
      assert forall k' :: k' in init ==> k' in order;
      var p := LocalPass(s, init, svc, clock);
      match svc(RepairCall(k, s[k], true))
      case Returned(v) => MarkSuccess(p, k, v, clock)
      case Threw => p
  }

  /** The log after the remote duty attempted the rows `order` one after the other. */
  function RemotePass(s: Store, order: seq<Key>, svc: Services, clock: int): (p: Store)
    requires forall k :: k in order ==> k in s
    ensures p.Keys <= s.Keys
    ensures forall k :: k in s && k !in order ==> k in p && p[k] == s[k]
    decreases |order|
  {
    if order == [] then s
    else
      var init, k := order[..|order| - 1], order[|order| - 1];
      assert forall k' :: k' in init ==> k' in order;
      var p := RemotePass(s, init, svc, clock);
      match svc(RepairCall(k, s[k], false))
      case Returned(_) => p - {k}
      case Threw => MarkRetry(p, k, clock)
  }

  lemma ListsInit(order: seq<Key>, keys: set<Key>)
    requires order != [] && Lists(order, keys)
    ensures Lists(order[..|order| - 1], keys - {order[|order| - 1]})
    ensures order[|order| - 1] in keys
  {
    var init, last := order[..|order| - 1], order[|order| - 1];
    forall k ensures k in init <==> k in keys - {last} {
      if k in init {
        var i :| 0 <= i < |init| && init[i] == k;
        assert order[i] == k;
      }
    }
    forall i, j | 0 <= i < j < |init| ensures init[i] != init[j] {
      assert init[i] == order[i] && init[j] == order[j];
    }
  }

  /** The local duty's result does not depend on the order the query returns the rows in:
      attempting each selected row once, in any order, gives LocalRepaired. */
  lemma {:induction false} LocalPassAnyOrder(s: Store, order: seq<Key>, keys: set<Key>, svc: Services, clock: int)
    requires Lists(order, keys) && keys <= s.Keys
    ensures forall k :: k in order ==> k in s
    ensures LocalPass(s, order, svc, clock) == LocalRepaired(s, keys, svc, clock)
    decreases |order|
  {
    if order == [] {
      assert keys == {};
      assert LocalRepaired(s, keys, svc, clock) == s;
    } else {
      var init, k := order[..|order| - 1], order[|order| - 1];
      ListsInit(order, keys);
      LocalPassAnyOrder(s, init, keys - {k}, svc, clock);
      LocalRepairedStep(s, keys - {k}, k, svc, clock);
      assert keys - {k} + {k} == keys;
    }
  }

  /** The same for the remote duty and RemoteRepaired. */
  lemma {:induction false} RemotePassAnyOrder(s: Store, order: seq<Key>, keys: set<Key>, svc: Services, clock: int)
    requires Lists(order, keys) && keys <= s.Keys
    ensures forall k :: k in order ==> k in s
    ensures RemotePass(s, order, svc, clock) == RemoteRepaired(s, keys, svc, clock)
    decreases |order|
  {
    if order == [] {
      assert keys == {};
      assert RemoteRepaired(s, keys, svc, clock) == s;
    } else {
      var init, k := order[..|order| - 1], order[|order| - 1];
      ListsInit(order, keys);
      RemotePassAnyOrder(s, init, keys - {k}, svc, clock);
      RemoteRepairedStep(s, keys - {k}, k, svc, clock);
      assert keys - {k} + {k} == keys;
    }
  }

  /** cmpLocalService: every selected row is attempted once, in the order the query returns
      them, with the local-request flag set; a row whose call returned is marked Success with
      the result, and a failure leaves the row as it was. */
  method CmpLocalService(log: Log, now: int, svc: Services) returns (order: seq<Key>, calls: seq<Call>)
    modifies log`rows
    ensures var sel := Selection(old(log.rows), now, true);
      && Lists(order, sel)
      && (forall k :: k in order ==> k in old(log.rows))
      && calls == RepairCalls(order, old(log.rows), true)
      && log.rows == LocalRepaired(old(log.rows), sel, svc, log.clock)
  {
    var snapshot := log.rows;
    var sel := Selection(snapshot, now, true);
    order := QueryOrder(sel);
    LocalPassAnyOrder(snapshot, order, sel, svc, log.clock);
    calls := [];
    for i := 0 to |order|
      invariant calls == RepairCalls(order[..i], snapshot, true)
      invariant log.rows == LocalPass(snapshot, order[..i], svc, log.clock)
    {
      assert order[..i + 1][..i] == order[..i];
      var k := order[i];
      var c := RepairCall(k, snapshot[k], true);
      match svc(c) {
        case Returned(v) =>
          log.UpdateSuccess(k, v);
        case Threw =>
      }
      calls := calls + [c];
    }
    assert order[..|order|] == order;
  }

  /** cmpRemoteService: every selected row is attempted once, in the order the query returns
      them, without the local-request flag; a row whose call returned is deleted, and a row
      whose call threw gets the failure update. */
  method CmpRemoteService(log: Log, now: int, svc: Services) returns (order: seq<Key>, calls: seq<Call>)
    modifies log`rows
    ensures var sel := Selection(old(log.rows), now, false);
      && Lists(order, sel)
      && (forall k :: k in order ==> k in old(log.rows))
      && calls == RepairCalls(order, old(log.rows), false)
      && log.rows == RemoteRepaired(old(log.rows), sel, svc, log.clock)
  {
    var snapshot := log.rows;
    var sel := Selection(snapshot, now, false);
    order := QueryOrder(sel);
    RemotePassAnyOrder(snapshot, order, sel, svc, log.clock);
    calls := [];
    for i := 0 to |order|
      invariant calls == RepairCalls(order[..i], snapshot, false)
      invariant log.rows == RemotePass(snapshot, order[..i], svc, log.clock)
    {
      assert order[..i + 1][..i] == order[..i];
      var k := order[i];
      var c := RepairCall(k, snapshot[k], false);
      match svc(c) {
        case Returned(_) =>
          log.Delete(k);
        case Threw =>
          log.UpdateRetry(k);
      }
      calls := calls + [c];
    }
    assert order[..|order|] == order;
  }

  /** The query of the orphan duty: local Try rows that succeeded, ran at least once, and
      have waited longer than the Try timeout for their Confirm or Cancel. */
  predicate OrphanCandidate(k: Key, r: Row, now: int) {
    && r.status == Success
    && r.isLocal
    && k.phase == Try
    && r.executeCount > 0
    && r.mt <= now - TryTimeoutCancel
  }

  function Orphans(s: Store, now: int): (sel: set<Key>)
    ensures sel <= s.Keys
    ensures forall k :: k in s ==> (k in sel <==> OrphanCandidate(k, s[k], now))
  {
    set k | k in s && OrphanCandidate(k, s[k], now)
  }

  /** The Cancel call the orphan duty makes for a Try row, with the local-request flag set. */
  function OrphanCancelCall(k: Key, r: Row): Call {
    Call(Some(Cancel), k.txId, k.req, true, k.cls, k.func, r.params)
  }

  /** The Cancel of an orphaned Try clears it: when the Cancel reaches execServiceMethod for
      the first time, preparing its key deletes the Success Try row of the same invocation. */
  lemma OrphanCancelClearsTry(s: Store, k: Key, now: int, params: seq<Value>, clock: int)
    requires k in s && OrphanCandidate(k, s[k], now)
    requires k.(phase := Cancel) !in s
    ensures k !in Prepared(s, k.(phase := Cancel), params, clock)
    ensures k.(phase := Cancel) in Prepared(s, k.(phase := Cancel), params, clock)
  {
    assert TryKeyOf(k.(phase := Cancel)) == k;
  }

  /** A non-empty set of rows has one whose `mt` is not below any other's. */
  lemma {:induction false} NewestExists(ks: set<Key>, s: Store)
    requires ks != {} && ks <= s.Keys
    ensures exists k :: k in ks && forall k' :: k' in ks ==> s[k'].mt <= s[k].mt
    decreases |ks|
  {
    var x :| x in ks;
    var rest := ks - {x};
    if rest != {} {
      NewestExists(rest, s);
      var m :| m in rest && forall k' :: k' in rest ==> s[k'].mt <= s[m].mt;
      if s[x].mt <= s[m].mt {
        assert forall k' :: k' in ks ==> s[k'].mt <= s[m].mt;
      } else {
        assert forall k' :: k' in ks ==> s[k'].mt <= s[x].mt;
      }
    } else {
      assert ks == {x};
    }
  }

  /** cancelLocalTryService: every orphaned Try row, newest first, gets one Cancel call with
      its own id and request id; failures are swallowed and the worker writes nothing to the
      log itself. */
  method CancelLocalTryService(log: Log, now: int) returns (order: seq<Key>, calls: seq<Call>)
    ensures var sel := Orphans(log.rows, now);
      && (forall i, j :: 0 <= i < j < |order| ==> order[i] != order[j])
      && (forall k :: k in order <==> k in sel)
      && (forall i, j :: 0 <= i < j < |order| ==> log.rows[order[i]].mt >= log.rows[order[j]].mt)
      && |calls| == |order|
      && (forall i :: 0 <= i < |order| ==> calls[i] == OrphanCancelCall(order[i], log.rows[order[i]]))
  {
    var s := log.rows;
    var sel := Orphans(s, now);
    var todo := sel;
    order, calls := [], [];
    while todo != {}
      invariant todo <= sel
      invariant forall i :: 0 <= i < |order| ==> order[i] in sel - todo
      invariant forall i, j :: 0 <= i < j < |order| ==> order[i] != order[j]
      invariant forall k :: k in order <==> k in sel - todo
      invariant forall i, j :: 0 <= i < j < |order| ==> s[order[i]].mt >= s[order[j]].mt
      invariant forall i, k :: 0 <= i < |order| && k in todo ==> s[order[i]].mt >= s[k].mt
      invariant |calls| == |order|
      invariant forall i :: 0 <= i < |order| ==> calls[i] == OrphanCancelCall(order[i], s[order[i]])
      decreases |todo|
    {
      NewestExists(todo, s);
      var k :| k in todo && forall k' :: k' in todo ==> s[k'].mt <= s[k].mt;
      assert k !in order;
      todo := todo - {k};
      order, calls := order + [k], calls + [OrphanCancelCall(k, s[k])];
    }
  }
}
