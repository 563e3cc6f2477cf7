/** The invocation log: one row per (phase, transaction id, request id, service class,
    service method) invocation, the single-row updates the coordinator and the compensation
    worker apply to it, and the store itself as an object whose row map they change. */
module InvocationLog {
  import opened Rpc

  /** Row status; the table stores Wait as 0, Fail as 1 and Success as 2. */
  datatype Status = Wait | Fail | Success

  /** Default `max_retry` written into every new row. */
  const MaxRetry: int := 5

  /** The idempotency key: the five columns every lookup, update and delete filters on. */
  datatype Key = Key(phase: Phase, txId: string, req: string, cls: string, func: string)

  /** The other columns of a row. `mt` is the last-modified time in seconds; `result` is
      `Null` until a success stores one. */
  datatype Row = Row(params: seq<Value>, isLocal: bool, status: Status, executeCount: int,
                     maxRetry: int, result: Value, mt: int)

  type Store = map<Key, Row>

  /** A freshly inserted row: Wait, never executed, default retry limit. */
  function WaitRow(params: seq<Value>, isLocal: bool, clock: int): Row {
    Row(params, isLocal, Wait, 0, MaxRetry, Null, clock)
  }

  /** The success update: one more execution, status Success, the result stored. */
  function Succeeded(r: Row, v: Value, clock: int): Row {
    r.(executeCount := r.executeCount + 1, status := Success, result := v, mt := clock)
  }

  /** The failure update `execute_count = execute_count + 1, status = if(execute_count <
      max_retry, status, Fail)`. MySQL assigns a single-table UPDATE left to right, so the
      test already sees the incremented count. */
  function Retried(r: Row, clock: int): (r': Row)
    ensures r'.executeCount == r.executeCount + 1
    ensures r'.status == Fail <==> r.status == Fail || r.executeCount + 1 >= r.maxRetry
    ensures r'.status != Fail ==> r'.status == r.status
    ensures r'.params == r.params && r'.isLocal == r.isLocal && r'.maxRetry == r.maxRetry
    ensures r'.result == r.result
  {
    r.(executeCount := r.executeCount + 1,
       status := if r.executeCount + 1 < r.maxRetry then r.status else Fail,
       mt := clock)
  }

  /** `n` failed attempts in a row. */
  function RetriedTimes(r: Row, n: nat, clock: int): Row
    decreases n
  {
    if n == 0 then r else Retried(RetriedTimes(r, n - 1, clock), clock)
  }

  /** Retry exhaustion: a Wait row that fails `n` more times has counted every attempt, and
      it is Fail exactly when the count has reached `max_retry` — never earlier. */
  lemma {:induction false} RetryExhaustion(r: Row, n: nat, clock: int)
    requires r.status == Wait
    ensures RetriedTimes(r, n, clock).maxRetry == r.maxRetry
    ensures RetriedTimes(r, n, clock).executeCount == r.executeCount + n
    ensures RetriedTimes(r, n, clock).status == Fail <==> n > 0 && r.executeCount + n >= r.maxRetry
    ensures RetriedTimes(r, n, clock).status != Fail ==> RetriedTimes(r, n, clock).status == Wait
    decreases n
  {
    if n > 0 {
      RetryExhaustion(r, n - 1, clock);
    }
  }

  /** The success update on the row under `k`, if there is one (an UPDATE ... WHERE key). */
  function MarkSuccess(s: Store, k: Key, v: Value, clock: int): (p: Store)
    ensures p.Keys == s.Keys
    ensures forall k' :: k' in s && k' != k ==> p[k'] == s[k']
  {
    if k in s then s[k := Succeeded(s[k], v, clock)] else s
  }

  /** The failure update on the row under `k`, if there is one. */
  function MarkRetry(s: Store, k: Key, clock: int): (p: Store)
    ensures p.Keys == s.Keys
    ensures forall k' :: k' in s && k' != k ==> p[k'] == s[k']
  {
    if k in s then s[k := Retried(s[k], clock)] else s
  }

  /** The stored result execServiceMethod answers with instead of calling the service. */
  function Cached(s: Store, k: Key): Option<Value> {
    if k in s && s[k].status == Success then Some(s[k].result) else None
  }

  /** The Try row of the same invocation as a Confirm or Cancel key. */
  function TryKeyOf(k: Key): Key {
    k.(phase := Try)
  }

  /** The log as execServiceMethod leaves it just before the call. A key that already has a
      row (Wait or Fail) is left alone, so the method simply runs again. A key without a row
      gets a local Wait row; outside Try, the Success Try row of the same invocation is
      deleted, because the Confirm or Cancel call supersedes it. */
  function Prepared(s: Store, k: Key, params: seq<Value>, clock: int): (p: Store)
    ensures k in p
    ensures k in s ==> p == s
    ensures k !in s ==> p[k] == WaitRow(params, true, clock)
    ensures k !in s && k.phase != Try ==>
              (TryKeyOf(k) in p <==> TryKeyOf(k) in s && s[TryKeyOf(k)].status != Success)
    ensures forall k' :: k' != k && k' != TryKeyOf(k) ==>
              (k' in p <==> k' in s) && (k' in s ==> p[k'] == s[k'])
    ensures forall k' :: k' in p && k' != k ==> k' in s && p[k'] == s[k']
  {
    if k in s then s
    else
      var inserted := s[k := WaitRow(params, true, clock)];
      var t := TryKeyOf(k);
      if k.phase != Try && t in inserted && inserted[t].status == Success
      then inserted - {t}
      else inserted
  }

  /** Idempotency: once a call has run and its success was recorded, the next call with the
      same key finds the stored result. */
  lemma SuccessIsCached(s: Store, k: Key, params: seq<Value>, v: Value, clock: int)
    ensures Cached(MarkSuccess(Prepared(s, k, params, clock), k, v, clock), k) == Some(v)
  {
  }

  /** Fail is not terminal: a Fail row is neither answered from the log nor replaced, so
      the next call under its key runs the method again, and a return makes the row Success. */
  lemma FailRowRunsAgain(s: Store, k: Key, params: seq<Value>, v: Value, clock: int)
    requires k in s && s[k].status == Fail
    ensures Cached(s, k).None?
    ensures Prepared(s, k, params, clock) == s
    ensures var r := MarkSuccess(s, k, v, clock)[k];
      r.status == Success && r.executeCount == s[k].executeCount + 1 && r.result == v
  {
  }

  /** The durable invocation table. `clock` is the database's clock, which stamps `mt` on
      every insert and update. Each method is one statement against the table. */
  class Log {
    var rows: Store
    var clock: int

    constructor (rows: Store, clock: int)
      ensures this.rows == rows && this.clock == clock
    {
      this.rows := rows;
      this.clock := clock;
    }

    /** SELECT ... WHERE key ... first() */
    method Find(k: Key) returns (r: Option<Row>)
      ensures r.Some? <==> k in rows
      ensures r.Some? ==> r.value == rows[k]
    {
      r := if k in rows then Some(rows[k]) else None;
    }

    /** INSERT: the key is unique, so a second row for a key is refused. */
    method Insert(k: Key, row: Row) returns (ok: bool)
      modifies this`rows
      ensures ok <==> k !in old(rows)
      ensures rows == if ok then old(rows)[k := row] else old(rows)
    {
      ok := k !in rows;
      if ok {
        rows := rows[k := row];
      }
    }

    /** DELETE ... WHERE key */
    method Delete(k: Key)
      modifies this`rows
      ensures rows == old(rows) - {k}
    {
      rows := rows - {k};
    }

    /** DELETE ... WHERE key AND status = Success */
    method DeleteIfSucceeded(k: Key)
      modifies this`rows
      ensures rows == if k in old(rows) && old(rows)[k].status == Success
                      then old(rows) - {k} else old(rows)
    {
      if k in rows && rows[k].status == Success {
        rows := rows - {k};
      }
    }

    /** UPDATE ... SET execute_count+1, status = Success, service_result WHERE key */
    method UpdateSuccess(k: Key, v: Value)
      modifies this`rows
      ensures rows == MarkSuccess(old(rows), k, v, clock)
    {
      rows := MarkSuccess(rows, k, v, clock);
    }

    /** UPDATE ... SET execute_count+1, status = if(execute_count<max_retry, status, Fail) WHERE key */
    method UpdateRetry(k: Key)
      modifies this`rows
      ensures rows == MarkRetry(old(rows), k, clock)
    {
      rows := MarkRetry(rows, k, clock);
    }
  }
}
