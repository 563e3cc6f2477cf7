/** What commit and rollBack do with the coordinator's recorded Try invocations, as functions
    of the log and of a snapshot (the clone) of the coordinator: insert one Wait row per entry
    under the new phase, then replay the entries in recorded order through a service proxy,
    deleting the row after a call that returns and applying the failure update after one that
    throws. The detached task of the source runs here to completion, synchronously. */
module Replay {
  import opened Rpc
  import opened InvocationLog
  import Ids

  /** One serviceList entry: transaction id, request id, service class, method, arguments. */
  datatype Entry = Entry(tcId: string, req: string, cls: string, func: string, params: seq<Value>)

  /** The log key of an entry's Confirm or Cancel row. */
  function EntryKey(phase: Phase, e: Entry): Key {
    Key(phase, e.tcId, e.req, e.cls, e.func)
  }

  function EntryKeys(phase: Phase, es: seq<Entry>): set<Key> {
    set i | 0 <= i < |es| :: EntryKey(phase, es[i])
  }

  predicate DistinctKeys(phase: Phase, es: seq<Entry>) {
    forall i, j :: 0 <= i < j < |es| ==> EntryKey(phase, es[i]) != EntryKey(phase, es[j])
  }

  /** The ambient RPC context fields a replay rewrites. */
  datatype Ambient = Ambient(phase: Option<Phase>, txId: string, req: string)

  /** The clone the replay works on: its recorded entries, whether it was started, its
      first-node flag, its parent request id and its request counter. */
  datatype Snap = Snap(entries: seq<Entry>, active: bool, firstNode: bool,
                       parentReq: Option<string>, idx: nat)

  /** Process state the replay reads but does not change: the static transaction number, the
      local-request flag of the context, and the database clock. */
  datatype Setting = Setting(txNo: nat, local: bool, clock: int)

  /** Where a replay has got to: the log, the service calls made so far, the ambient context
      and the clone's request counter. */
  datatype State = State(rows: Store, calls: seq<Call>, amb: Ambient, idx: nat)

  /** The result of the insert loop; `ok` is false when an insert hit an existing key. */
  datatype Inserted = Inserted(rows: Store, ok: bool)

  /** The insert loop: one Wait row per entry, in order, with `execute_count` 0 and the
      `is_local` column left at its default (0). The first insert that hits an existing key
      throws and the loop stops there. */
  function InsertWaitRows(s: Store, es: seq<Entry>, phase: Phase, clock: int): (r: Inserted)
    ensures forall k :: k in s ==> k in r.rows && r.rows[k] == s[k]
    decreases |es|
  {
    if es == [] then Inserted(s, true)
    else
      var prev := InsertWaitRows(s, es[..|es| - 1], phase, clock);
      var e := es[|es| - 1];
      var k := EntryKey(phase, e);
      if !prev.ok then prev
      else if k in prev.rows then Inserted(prev.rows, false)
      else Inserted(prev.rows[k := WaitRow(e.params, false, clock)], true)
  }

  /** The transaction id in the context when an entry is replayed: commit re-binds it from the
      entry (setTransactionId), rollBack leaves the ambient one. */
  function TxFor(phase: Phase, e: Entry, ambientTx: string): string {
    if phase == Confirm then e.tcId else ambientTx
  }

  /** The call the proxy makes when an entry is replayed. */
  function ReplayCall(phase: Phase, e: Entry, txId: string, local: bool): Call {
    Call(Some(phase), txId, e.req, local, e.cls, e.func, e.params)
  }

  /** One iteration of the replay loop. The phase, transaction id and request id are set on
      the clone (and so in the context) first; getService then throws on a clone that was not
      started, and otherwise the proxy calls the service. A call that returns is recorded
      through addServiceFun (which only advances the clone's counter and the context's
      request id, the phase not being Try) and its row is deleted; a failure of either kind
      applies the failure update to the row. */
  function Step(st: State, e: Entry, phase: Phase, snap: Snap, cfg: Setting, svc: Services): State {
    var tx := TxFor(phase, e, st.amb.txId);
    var amb := Ambient(Some(phase), tx, e.req);
    var k := EntryKey(phase, e);
    if !snap.active then State(MarkRetry(st.rows, k, cfg.clock), st.calls, amb, st.idx)
    else
      var c := ReplayCall(phase, e, tx, cfg.local);
      match svc(c)
      case Returned(_) =>
        State(st.rows - {k}, st.calls + [c],
              amb.(req := Ids.ReqId(snap.parentReq, snap.firstNode, cfg.txNo, st.idx + 1)), st.idx + 1)
      case Threw =>
        State(MarkRetry(st.rows, k, cfg.clock), st.calls + [c], amb, st.idx)
  }

  /** The replay loop over `es`, in order. */
  function ReplayAll(st: State, es: seq<Entry>, phase: Phase, snap: Snap, cfg: Setting, svc: Services): State
    decreases |es|
  {
    if es == [] then st
    else Step(ReplayAll(st, es[..|es| - 1], phase, snap, cfg, svc), es[|es| - 1], phase, snap, cfg, svc)
  }

  /** commit's detached task (run only on the first node, after its inserts and the local
      commit): replay every entry under Confirm. */
  function ConfirmTask(s: Store, snap: Snap, amb: Ambient, cfg: Setting, svc: Services): State {
    ReplayAll(State(s, [], amb, snap.idx), snap.entries, Confirm, snap, cfg, svc)
  }

  /** rollBack's detached task (run only when the phase was Try): insert the Cancel rows, then
      replay every entry under Cancel. An insert that fails ends the task. */
  function CancelTask(s: Store, snap: Snap, amb: Ambient, cfg: Setting, svc: Services): State {
    var ins := InsertWaitRows(s, snap.entries, Cancel, cfg.clock);
    var st := State(ins.rows, [], amb, snap.idx);
    if ins.ok then ReplayAll(st, snap.entries, Cancel, snap, cfg, svc) else st
  }

  /** What rollBack leaves behind: its Cancel task when the coordinator's phase was Try, and
      the log untouched otherwise. */
  function RollBackTask(s: Store, snap: Snap, phase: Phase, amb: Ambient, cfg: Setting, svc: Services): State {
    if phase == Try then CancelTask(s, snap, amb, cfg, svc) else State(s, [], amb, snap.idx)
  }

  /** Replaying one more entry of a list is one more step. */
  lemma ReplayAllNext(st: State, es: seq<Entry>, i: nat, phase: Phase, snap: Snap, cfg: Setting, svc: Services)
    requires i < |es|
    ensures ReplayAll(st, es[..i + 1], phase, snap, cfg, svc) ==
            Step(ReplayAll(st, es[..i], phase, snap, cfg, svc), es[i], phase, snap, cfg, svc)
  {
    assert es[..i + 1][..i] == es[..i];
  }

  /** A step whose call returns deletes the entry's row, records the call and advances the
      clone's counter and the context's request id. */
  lemma StepReturned(st: State, e: Entry, phase: Phase, snap: Snap, cfg: Setting, svc: Services)
    requires snap.active
    requires svc(ReplayCall(phase, e, TxFor(phase, e, st.amb.txId), cfg.local)).Returned?
    ensures var c := ReplayCall(phase, e, TxFor(phase, e, st.amb.txId), cfg.local);
      Step(st, e, phase, snap, cfg, svc) ==
        State(st.rows - {EntryKey(phase, e)}, st.calls + [c],
              Ambient(Some(phase), c.txId, Ids.ReqId(snap.parentReq, snap.firstNode, cfg.txNo, st.idx + 1)),
              st.idx + 1)
  {
  }

  /** The replay calls the service once per entry, in recorded order, when the clone was
      started, and not at all otherwise; under Cancel the transaction id is never changed. */
  lemma {:induction false} ReplayCalls(st: State, es: seq<Entry>, phase: Phase, snap: Snap, cfg: Setting, svc: Services)
    ensures var r := ReplayAll(st, es, phase, snap, cfg, svc);
      && (phase == Cancel ==> r.amb.txId == st.amb.txId)
      && (!snap.active ==> r.calls == st.calls)
      && (snap.active ==>
            && |r.calls| == |st.calls| + |es|
            && r.calls[..|st.calls|] == st.calls
            && forall i :: 0 <= i < |es| ==>
                 r.calls[|st.calls| + i] == ReplayCall(phase, es[i], TxFor(phase, es[i], st.amb.txId), cfg.local))
    decreases |es|
  {
    if es != [] {
      var init := es[..|es| - 1];
      ReplayCalls(st, init, phase, snap, cfg, svc);
      var p := ReplayAll(st, init, phase, snap, cfg, svc);
      var r := ReplayAll(st, es, phase, snap, cfg, svc);
      assert r == Step(p, es[|es| - 1], phase, snap, cfg, svc);
      if snap.active {
        forall i | 0 <= i < |es|
          ensures r.calls[|st.calls| + i] == ReplayCall(phase, es[i], TxFor(phase, es[i], st.amb.txId), cfg.local)
        {
          if i < |es| - 1 {
            assert es[i] == init[i];
          }
        }
      }
    }
  }

  /** Rows whose key is not the key of some entry are not touched by the replay. */
  lemma {:induction false} ReplayFrame(st: State, es: seq<Entry>, phase: Phase, snap: Snap, cfg: Setting, svc: Services, k: Key)
    requires k !in EntryKeys(phase, es)
    ensures var r := ReplayAll(st, es, phase, snap, cfg, svc);
      (k in r.rows <==> k in st.rows) && (k in st.rows ==> r.rows[k] == st.rows[k])
    decreases |es|
  {
    if es != [] {
      var init := es[..|es| - 1];
      assert EntryKeys(phase, init) <= EntryKeys(phase, es) by {
        forall k' | k' in EntryKeys(phase, init) ensures k' in EntryKeys(phase, es) {
          var i :| 0 <= i < |init| && k' == EntryKey(phase, init[i]);
          assert es[i] == init[i];
        }
      }
      assert EntryKey(phase, es[|es| - 1]) in EntryKeys(phase, es);
      ReplayFrame(st, init, phase, snap, cfg, svc, k);
    }
  }

  /** One replay step touches no row but its own entry's. */
  lemma StepOther(st: State, e: Entry, phase: Phase, snap: Snap, cfg: Setting, svc: Services, k: Key)
    requires k != EntryKey(phase, e)
    ensures var r := Step(st, e, phase, snap, cfg, svc);
      (k in r.rows <==> k in st.rows) && (k in st.rows ==> r.rows[k] == st.rows[k])
  {
  }

  /** One replay step deletes its entry's row when the call returned and applies the failure
      update to it otherwise. */
  lemma StepOwn(st: State, e: Entry, phase: Phase, snap: Snap, cfg: Setting, svc: Services)
    ensures var r := Step(st, e, phase, snap, cfg, svc);
      var k := EntryKey(phase, e);
      var returned := snap.active && svc(ReplayCall(phase, e, TxFor(phase, e, st.amb.txId), cfg.local)).Returned?;
      && (k in r.rows <==> k in st.rows && !returned)
      && (k in r.rows ==> r.rows[k] == Retried(st.rows[k], cfg.clock))
  {
  }

  /** With distinct keys, every entry's row is touched exactly once: it is gone when its call
      returned, and otherwise it has had the failure update once (a clone that was not
      started makes no call, so every row gets the failure update). */
  lemma {:induction false} ReplayRows(st: State, es: seq<Entry>, phase: Phase, snap: Snap, cfg: Setting, svc: Services, i: nat)
    requires DistinctKeys(phase, es)
    requires i < |es|
    ensures var r := ReplayAll(st, es, phase, snap, cfg, svc);
      var k := EntryKey(phase, es[i]);
      var returned := snap.active &&
        svc(ReplayCall(phase, es[i], TxFor(phase, es[i], st.amb.txId), cfg.local)).Returned?;
      && (k in r.rows <==> k in st.rows && !returned)
      && (k in r.rows ==> r.rows[k] == Retried(st.rows[k], cfg.clock))
    decreases |es|
  {
    var init := es[..|es| - 1];
    var last := es[|es| - 1];
    var p := ReplayAll(st, init, phase, snap, cfg, svc);
    var k := EntryKey(phase, es[i]);
    DistinctKeysSnoc(phase, es);
    assert ReplayAll(st, es, phase, snap, cfg, svc) == Step(p, last, phase, snap, cfg, svc);
    if i < |es| - 1 {
      assert es[i] == init[i];
      assert k in EntryKeys(phase, init);
      ReplayRows(st, init, phase, snap, cfg, svc, i);
      StepOther(p, last, phase, snap, cfg, svc, k);
    } else {
      ReplayFrame(st, init, phase, snap, cfg, svc, k);
      ReplayCalls(st, init, phase, snap, cfg, svc);
      StepOwn(p, last, phase, snap, cfg, svc);
    }
  }

  /** The keys of a non-empty list are those of all but its last entry, plus the last one's. */
  lemma EntryKeysSnoc(phase: Phase, es: seq<Entry>)
    requires es != []
    ensures EntryKeys(phase, es) == EntryKeys(phase, es[..|es| - 1]) + {EntryKey(phase, es[|es| - 1])}
  {
    var init := es[..|es| - 1];
    forall k | k in EntryKeys(phase, es) ensures k in EntryKeys(phase, init) + {EntryKey(phase, es[|es| - 1])} {
      var j :| 0 <= j < |es| && k == EntryKey(phase, es[j]);
      if j < |init| { assert init[j] == es[j]; }
    }
    forall k | k in EntryKeys(phase, init) ensures k in EntryKeys(phase, es) {
      var j :| 0 <= j < |init| && k == EntryKey(phase, init[j]);
      assert es[j] == init[j];
    }
  }

  /** Distinct keys stay distinct on a prefix, and none of the prefix's keys is the last one's. */
  lemma DistinctKeysSnoc(phase: Phase, es: seq<Entry>)
    requires es != [] && DistinctKeys(phase, es)
    ensures DistinctKeys(phase, es[..|es| - 1])
    ensures EntryKey(phase, es[|es| - 1]) !in EntryKeys(phase, es[..|es| - 1])
  {
    var init := es[..|es| - 1];
    forall a, b | 0 <= a < b < |init| ensures EntryKey(phase, init[a]) != EntryKey(phase, init[b]) {
      assert init[a] == es[a] && init[b] == es[b];
    }
    forall k | k in EntryKeys(phase, init) ensures k != EntryKey(phase, es[|es| - 1]) {
      var j :| 0 <= j < |init| && k == EntryKey(phase, init[j]);
      assert init[j] == es[j];
    }
  }

  /** Inserting Wait rows under keys that are new and distinct always succeeds and adds
      exactly those rows. */
  lemma InsertFresh(s: Store, es: seq<Entry>, phase: Phase, clock: int)
    requires DistinctKeys(phase, es)
    requires forall i :: 0 <= i < |es| ==> EntryKey(phase, es[i]) !in s
    ensures var ins := InsertWaitRows(s, es, phase, clock);
      && ins.ok
      && ins.rows.Keys == s.Keys + EntryKeys(phase, es)
      && (forall k :: k in s ==> ins.rows[k] == s[k])
      && (forall i :: 0 <= i < |es| ==> ins.rows[EntryKey(phase, es[i])] == WaitRow(es[i].params, false, clock))
  {
    InsertFreshRows(s, es, phase, clock);
    InsertOk(s, es, phase, clock);
  }

  /** The induction behind InsertFresh: every insert succeeds and each entry's key holds its
      Wait row. */
  lemma {:induction false} InsertFreshRows(s: Store, es: seq<Entry>, phase: Phase, clock: int)
    requires DistinctKeys(phase, es)
    requires forall i :: 0 <= i < |es| ==> EntryKey(phase, es[i]) !in s
    ensures var ins := InsertWaitRows(s, es, phase, clock);
      && ins.ok
      && (forall i :: 0 <= i < |es| ==> EntryKey(phase, es[i]) in ins.rows)
      && (forall i :: 0 <= i < |es| ==> ins.rows[EntryKey(phase, es[i])] == WaitRow(es[i].params, false, clock))
    decreases |es|
  {
    if es != [] {
      var init := es[..|es| - 1];
      var last := es[|es| - 1];
      var kl := EntryKey(phase, last);
      DistinctKeysSnoc(phase, es);
      forall i | 0 <= i < |init| ensures EntryKey(phase, init[i]) !in s {
        assert init[i] == es[i];
      }
      InsertFreshRows(s, init, phase, clock);
      InsertOk(s, init, phase, clock);
      var prev := InsertWaitRows(s, init, phase, clock);
      assert kl !in prev.rows;
      assert InsertWaitRows(s, es, phase, clock) == Inserted(prev.rows[kl := WaitRow(last.params, false, clock)], true);
      InsertSnocRows(prev.rows, init, last, phase, clock);
      assert es == init + [last];
    }
  }

  /** Adding the last entry's Wait row keeps the earlier entries' rows, whose keys differ. */
  lemma InsertSnocRows(rows: Store, init: seq<Entry>, last: Entry, phase: Phase, clock: int)
    requires EntryKey(phase, last) !in EntryKeys(phase, init)
    requires forall i :: 0 <= i < |init| ==> EntryKey(phase, init[i]) in rows
    requires forall i :: 0 <= i < |init| ==> rows[EntryKey(phase, init[i])] == WaitRow(init[i].params, false, clock)
    ensures var r := rows[EntryKey(phase, last) := WaitRow(last.params, false, clock)];
      var es := init + [last];
      forall i :: 0 <= i < |es| ==> r[EntryKey(phase, es[i])] == WaitRow(es[i].params, false, clock)
  {
    var es := init + [last];
    forall i | 0 <= i < |init| ensures EntryKey(phase, es[i]) != EntryKey(phase, last) {
      assert es[i] == init[i];
      assert EntryKey(phase, init[i]) in EntryKeys(phase, init);
    }
  }

  /** The converse of InsertFresh: when the insert loop gets through the whole list, the
      entries' keys were distinct and none of them had a row, and exactly those rows were
      added. */
  lemma {:induction false} InsertOk(s: Store, es: seq<Entry>, phase: Phase, clock: int)
    requires InsertWaitRows(s, es, phase, clock).ok
    ensures DistinctKeys(phase, es)
    ensures forall i :: 0 <= i < |es| ==> EntryKey(phase, es[i]) !in s
    ensures InsertWaitRows(s, es, phase, clock).rows.Keys == s.Keys + EntryKeys(phase, es)
    decreases |es|
  {
    if es == [] {
      assert EntryKeys(phase, es) == {};
    } else {
      var init := es[..|es| - 1];
      var kl := EntryKey(phase, es[|es| - 1]);
      var prev := InsertWaitRows(s, init, phase, clock);
      assert prev.ok && kl !in prev.rows;
      InsertOk(s, init, phase, clock);
      EntryKeysSnoc(phase, es);
      forall i | 0 <= i < |es| ensures EntryKey(phase, es[i]) !in s {
        if i < |init| { assert es[i] == init[i]; }
      }
      DistinctKeysExtend(phase, es);
    }
  }

  /** The converse of DistinctKeysSnoc. */
  lemma DistinctKeysExtend(phase: Phase, es: seq<Entry>)
    requires es != [] && DistinctKeys(phase, es[..|es| - 1])
    requires EntryKey(phase, es[|es| - 1]) !in EntryKeys(phase, es[..|es| - 1])
    ensures DistinctKeys(phase, es)
  {
    var init := es[..|es| - 1];
    forall i, j | 0 <= i < j < |es| ensures EntryKey(phase, es[i]) != EntryKey(phase, es[j]) {
      assert es[i] == init[i];
      if j < |init| {
        assert es[j] == init[j];
      } else {
        assert EntryKey(phase, init[i]) in EntryKeys(phase, init);
      }
    }
  }

  /** The replay that follows inserts of fresh, distinct keys, for one entry: its row is gone
      when its call returned, and is otherwise a Wait row that has been tried once. */
  lemma FreshEntryOutcome(s: Store, es: seq<Entry>, phase: Phase, snap: Snap, amb: Ambient,
                          cfg: Setting, svc: Services, i: nat)
    requires snap.active
    requires DistinctKeys(phase, es)
    requires forall j :: 0 <= j < |es| ==> EntryKey(phase, es[j]) !in s
    requires i < |es|
    ensures var ins := InsertWaitRows(s, es, phase, cfg.clock);
      var r := ReplayAll(State(ins.rows, [], amb, snap.idx), es, phase, snap, cfg, svc);
      var k := EntryKey(phase, es[i]);
      var c := ReplayCall(phase, es[i], TxFor(phase, es[i], amb.txId), cfg.local);
      && (k in r.rows <==> svc(c).Threw?)
      && (k in r.rows ==> r.rows[k].status == Wait && r.rows[k].executeCount == 1)
  {
    InsertFresh(s, es, phase, cfg.clock);
    var ins := InsertWaitRows(s, es, phase, cfg.clock);
    var st := State(ins.rows, [], amb, snap.idx);
    var k := EntryKey(phase, es[i]);
    assert k in EntryKeys(phase, es);
    assert st.rows[k] == WaitRow(es[i].params, false, cfg.clock);
    ReplayRows(st, es, phase, snap, cfg, svc, i);
  }

  /** FreshEntryOutcome for every entry at once. */
  lemma FreshRows(s: Store, es: seq<Entry>, phase: Phase, snap: Snap, amb: Ambient, cfg: Setting, svc: Services)
    requires snap.active
    requires DistinctKeys(phase, es)
    requires forall j :: 0 <= j < |es| ==> EntryKey(phase, es[j]) !in s
    ensures var ins := InsertWaitRows(s, es, phase, cfg.clock);
      var r := ReplayAll(State(ins.rows, [], amb, snap.idx), es, phase, snap, cfg, svc);
      forall i :: 0 <= i < |es| ==>
        var c := ReplayCall(phase, es[i], TxFor(phase, es[i], amb.txId), cfg.local);
        && (EntryKey(phase, es[i]) in r.rows <==> svc(c).Threw?)
        && (EntryKey(phase, es[i]) in r.rows ==>
              r.rows[EntryKey(phase, es[i])].status == Wait &&
              r.rows[EntryKey(phase, es[i])].executeCount == 1)
  {
    forall i | 0 <= i < |es| {
      FreshEntryOutcome(s, es, phase, snap, amb, cfg, svc, i);
    }
  }

  /** Inserts of fresh, distinct keys followed by the replay of a started clone: every
      insert succeeds, each entry's service is called once, in recorded order, each entry's
      row ends as FreshEntryOutcome says, and no other row of the log changes. */
  lemma ReplayFresh(s: Store, es: seq<Entry>, phase: Phase, snap: Snap, amb: Ambient, cfg: Setting, svc: Services)
    requires snap.active
    requires DistinctKeys(phase, es)
    requires forall j :: 0 <= j < |es| ==> EntryKey(phase, es[j]) !in s
    ensures var ins := InsertWaitRows(s, es, phase, cfg.clock);
      var r := ReplayAll(State(ins.rows, [], amb, snap.idx), es, phase, snap, cfg, svc);
      && ins.ok
      && |r.calls| == |es|
      && (forall i :: 0 <= i < |es| ==>
            r.calls[i] == ReplayCall(phase, es[i], TxFor(phase, es[i], amb.txId), cfg.local))
      && (forall i :: 0 <= i < |es| ==>
            var c := ReplayCall(phase, es[i], TxFor(phase, es[i], amb.txId), cfg.local);
            && (EntryKey(phase, es[i]) in r.rows <==> svc(c).Threw?)
            && (EntryKey(phase, es[i]) in r.rows ==>
                  r.rows[EntryKey(phase, es[i])].status == Wait &&
                  r.rows[EntryKey(phase, es[i])].executeCount == 1))
      && (forall k :: k !in EntryKeys(phase, es) ==>
            (k in r.rows <==> k in s) && (k in s ==> r.rows[k] == s[k]))
  {
    InsertFresh(s, es, phase, cfg.clock);
    FreshCalls(InsertWaitRows(s, es, phase, cfg.clock).rows, es, phase, snap, amb, cfg, svc);
    FreshRows(s, es, phase, snap, amb, cfg, svc);
    FreshFrame(s, es, phase, snap, amb, cfg, svc);
  }

  /** A replay that starts with no calls calls each entry's service once, in recorded order. */
  lemma FreshCalls(rows: Store, es: seq<Entry>, phase: Phase, snap: Snap, amb: Ambient, cfg: Setting, svc: Services)
    requires snap.active
    ensures var r := ReplayAll(State(rows, [], amb, snap.idx), es, phase, snap, cfg, svc);
      && |r.calls| == |es|
      && (forall i :: 0 <= i < |es| ==>
            r.calls[i] == ReplayCall(phase, es[i], TxFor(phase, es[i], amb.txId), cfg.local))
  {
    var st := State(rows, [], amb, snap.idx);
    ReplayCalls(st, es, phase, snap, cfg, svc);
    var r := ReplayAll(st, es, phase, snap, cfg, svc);
    forall i | 0 <= i < |es|
      ensures r.calls[i] == ReplayCall(phase, es[i], TxFor(phase, es[i], amb.txId), cfg.local)
    {
      assert r.calls[|st.calls| + i] == ReplayCall(phase, es[i], TxFor(phase, es[i], st.amb.txId), cfg.local);
    }
  }

  lemma FreshFrame(s: Store, es: seq<Entry>, phase: Phase, snap: Snap, amb: Ambient, cfg: Setting, svc: Services)
    requires DistinctKeys(phase, es)
    requires forall j :: 0 <= j < |es| ==> EntryKey(phase, es[j]) !in s
    ensures var ins := InsertWaitRows(s, es, phase, cfg.clock);
      var r := ReplayAll(State(ins.rows, [], amb, snap.idx), es, phase, snap, cfg, svc);
      forall k :: k !in EntryKeys(phase, es) ==>
        (k in r.rows <==> k in s) && (k in s ==> r.rows[k] == s[k])
  {
    InsertFresh(s, es, phase, cfg.clock);
    var ins := InsertWaitRows(s, es, phase, cfg.clock);
    var st := State(ins.rows, [], amb, snap.idx);
    var r := ReplayAll(st, es, phase, snap, cfg, svc);
    forall k | k !in EntryKeys(phase, es)
      ensures (k in r.rows <==> k in s) && (k in s ==> r.rows[k] == s[k])
    {
      ReplayFrame(st, es, phase, snap, cfg, svc, k);
    }
  }

  /** Commit drives Confirm for exactly the recorded entries: on a started first node whose
      Confirm inserts all succeeded (the outcome commit reports as success), each entry's
      Confirm is called once, in recorded order, under the entry's own transaction id, and afterwards
      each entry's Confirm row is gone if the call returned and is otherwise a Wait row that
      has been tried once; no other row of the log changes. */
  lemma CommitConfirmsRecordedEntries(s: Store, snap: Snap, amb: Ambient, cfg: Setting, svc: Services)
    requires snap.active
    requires InsertWaitRows(s, snap.entries, Confirm, cfg.clock).ok
    ensures var ins := InsertWaitRows(s, snap.entries, Confirm, cfg.clock);
      var r := ConfirmTask(ins.rows, snap, amb, cfg, svc);
      var es := snap.entries;
      && |r.calls| == |es|
      && (forall i :: 0 <= i < |es| ==> r.calls[i] == ReplayCall(Confirm, es[i], es[i].tcId, cfg.local))
      && (forall i :: 0 <= i < |es| ==>
            && (EntryKey(Confirm, es[i]) in r.rows <==> svc(r.calls[i]).Threw?)
            && (EntryKey(Confirm, es[i]) in r.rows ==>
                  r.rows[EntryKey(Confirm, es[i])].status == Wait &&
                  r.rows[EntryKey(Confirm, es[i])].executeCount == 1))
      && (forall k :: k !in EntryKeys(Confirm, es) ==> (k in r.rows <==> k in s) && (k in s ==> r.rows[k] == s[k]))
  {
    InsertOk(s, snap.entries, Confirm, cfg.clock);
    ReplayFresh(s, snap.entries, Confirm, snap, amb, cfg, svc);
  }

  /** Rollback drives Cancel only for the recorded entries: when every Cancel insert
      succeeds, rollBack's task calls Cancel once per recorded entry, in recorded order, under
      the ambient transaction id, and for nothing else; each entry's Cancel row ends deleted
      (the call returned) or as a Wait row tried once; no other row changes. */
  lemma CancelsRecordedEntries(s: Store, snap: Snap, amb: Ambient, cfg: Setting, svc: Services)
    requires snap.active
    requires InsertWaitRows(s, snap.entries, Cancel, cfg.clock).ok
    ensures var r := CancelTask(s, snap, amb, cfg, svc);
      var es := snap.entries;
      && |r.calls| == |es|
      && (forall i :: 0 <= i < |es| ==> r.calls[i] == ReplayCall(Cancel, es[i], amb.txId, cfg.local))
      && (forall i :: 0 <= i < |es| ==>
            && (EntryKey(Cancel, es[i]) in r.rows <==> svc(r.calls[i]).Threw?)
            && (EntryKey(Cancel, es[i]) in r.rows ==>
                  r.rows[EntryKey(Cancel, es[i])].status == Wait &&
                  r.rows[EntryKey(Cancel, es[i])].executeCount == 1))
      && (forall k :: k !in EntryKeys(Cancel, es) ==> (k in r.rows <==> k in s) && (k in s ==> r.rows[k] == s[k]))
  {
    InsertOk(s, snap.entries, Cancel, cfg.clock);
    ReplayFresh(s, snap.entries, Cancel, snap, amb, cfg, svc);
  }
}
