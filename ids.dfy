/** The coordinator's pure computations: decimal rendering, hierarchical request ids
    (getTransactionReq), transaction ids (createTransactionId, with the trace id, pid and
    coroutine id folded into one origin string) and the list of connection pools a
    coordinator opens local transactions on (setDbPools). */
module Ids {
  import opened Rpc

  function Digit(d: nat): (c: char)
    requires d < 10
    ensures '0' <= c <= '9'
  {
    ('0' as int + d) as char
  }

  /** PHP's decimal rendering of a non-negative integer. */
  function Dec(n: nat): (r: string)
    ensures 0 < |r|
    ensures n >= 10 ==> |r| >= 2
    ensures forall i :: 0 <= i < |r| ==> '0' <= r[i] <= '9'
    decreases n
  {
    if n < 10 then [Digit(n)] else Dec(n / 10) + [Digit(n % 10)]
  }

  /** Distinct numbers render differently. */
  lemma {:induction false} DecInjective(a: nat, b: nat)
    requires Dec(a) == Dec(b)
    ensures a == b
    decreases a
  {
    if a >= 10 && b >= 10 {
      var da, db := Dec(a), Dec(b);
      assert da[|da| - 1] == Digit(a % 10) && db[|db| - 1] == Digit(b % 10);
      assert a % 10 == b % 10;
      assert da[..|da| - 1] == Dec(a / 10);
      assert db[..|db| - 1] == Dec(b / 10);
      DecInjective(a / 10, b / 10);
    }
  }

  /** The part of a request id that getTransactionReq puts before the index: the parent
      part, then the node part. */
  function ReqPrefix(parentReq: Option<string>, firstNode: bool, txNo: nat): string {
    ParentPart(parentReq) + NodePart(firstNode, txNo)
  }

  /** `parent-` for a non-empty parent. PHP tests `parentReq !== ''`, so a parent that is
      still null contributes a lone "-". */
  function ParentPart(parentReq: Option<string>): string {
    match parentReq
    case None => "-"
    case Some(p) => if p == "" then "" else p + "-"
  }

  /** `transactionNo-` on a node that is not the first. */
  function NodePart(firstNode: bool, txNo: nat): string {
    if firstNode then "" else Dec(txNo) + "-"
  }

  /** getTransactionReq(idx): `parent-` (when the parent is not empty), then `transactionNo-`
      (on a node that is not the first), then the index. */
  function ReqId(parentReq: Option<string>, firstNode: bool, txNo: nat, idx: nat): (r: string)
    ensures parentReq.Some? && parentReq.value != "" ==>
              |parentReq.value| < |r| && r[..|parentReq.value| + 1] == parentReq.value + "-"
    ensures parentReq == Some("") && firstNode ==> r == Dec(idx)
    ensures |Dec(idx)| <= |r| && r[|r| - |Dec(idx)|..] == Dec(idx)
  {
    var pre := ReqPrefix(parentReq, firstNode, txNo);
    assert (pre + Dec(idx))[|pre|..] == Dec(idx);
    pre + Dec(idx)
  }

  /** Within one coordinator (same parent, same first-node flag) distinct indexes give
      distinct request ids, even when the process transaction number has moved on between
      the two (any createTransactionId in the process advances it). */
  lemma {:induction false} ReqIdsDistinct(parentReq: Option<string>, firstNode: bool, t1: nat, t2: nat, i: nat, j: nat)
    requires i != j
    ensures ReqId(parentReq, firstNode, t1, i) != ReqId(parentReq, firstNode, t2, j)
  {
    var pp := ParentPart(parentReq);
    var u := NodePart(firstNode, t1) + Dec(i);
    var v := NodePart(firstNode, t2) + Dec(j);
    TailsDiffer(firstNode, t1, t2, i, j);
    ReqIdSplit(parentReq, firstNode, t1, i);
    ReqIdSplit(parentReq, firstNode, t2, j);
    if pp + u == pp + v {
      PrefixCancels(pp, u, v);
    }
  }

  /** A request id is its parent part followed by the node part and the index. */
  lemma ReqIdSplit(parentReq: Option<string>, firstNode: bool, txNo: nat, idx: nat)
    ensures ReqId(parentReq, firstNode, txNo, idx) ==
              ParentPart(parentReq) + (NodePart(firstNode, txNo) + Dec(idx))
  {
    var a, b, c := ParentPart(parentReq), NodePart(firstNode, txNo), Dec(idx);
    assert ReqId(parentReq, firstNode, txNo, idx) == (a + b) + c;
    ConcatAssoc(a, b, c);
  }

  lemma ConcatAssoc(a: string, b: string, c: string)
    ensures (a + b) + c == a + (b + c)
  {
  }

  lemma PrefixCancels(p: string, u: string, v: string)
    requires p + u == p + v
    ensures u == v
  {
    assert (p + u)[|p|..] == u && (p + v)[|p|..] == v;
  }

  /** The part of a request id after the parent part determines the index: the counter
      rendering holds no "-", so the first "-" ends it. */
  lemma TailsDiffer(firstNode: bool, t1: nat, t2: nat, i: nat, j: nat)
    requires i != j
    ensures NodePart(firstNode, t1) + Dec(i) != NodePart(firstNode, t2) + Dec(j)
  {
    if firstNode {
      assert NodePart(firstNode, t1) + Dec(i) == Dec(i);
      assert NodePart(firstNode, t2) + Dec(j) == Dec(j);
      if Dec(i) == Dec(j) {
        DecInjective(i, j);
      }
    } else {
      var a, b := Dec(t1), Dec(t2);
      var u, v := a + "-" + Dec(i), b + "-" + Dec(j);
      DashEndsCounter(a, Dec(i));
      DashEndsCounter(b, Dec(j));
      if u == v {
        if |a| != |b| {
          assert false;
        }
        assert u[|a| + 1..] == Dec(i) && v[|b| + 1..] == Dec(j);
        DecInjective(i, j);
      }
    }
  }

  /** In `counter-rest`, the first "-" is the one after the counter's digits. */
  lemma DashEndsCounter(a: string, rest: string)
    requires forall k :: 0 <= k < |a| ==> '0' <= a[k] <= '9'
    ensures (a + "-" + rest)[|a|] == '-'
    ensures forall k :: 0 <= k < |a| ==> (a + "-" + rest)[k] != '-'
  {
    forall k | 0 <= k < |a| ensures (a + "-" + rest)[k] != '-' {
      assert (a + "-" + rest)[k] == a[k];
    }
  }

  /** createTransactionId after the process counter was advanced to `txNo`; `origin` stands
      for the trace id, the process id and the coroutine id. */
  function TransactionIdFor(origin: string, txNo: nat): (id: string)
    ensures |origin| < |id| && id[..|origin| + 1] == origin + "-"
  {
    origin + "-" + Dec(txNo)
  }

  /** Two counter values never give the same transaction id. */
  lemma {:induction false} TransactionIdsDistinct(origin: string, a: nat, b: nat)
    requires a != b
    ensures TransactionIdFor(origin, a) != TransactionIdFor(origin, b)
  {
    var pre := origin + "-";
    if TransactionIdFor(origin, a) == TransactionIdFor(origin, b) {
      assert (pre + Dec(a))[|pre|..] == Dec(a);
      assert (pre + Dec(b))[|pre|..] == Dec(b);
      DecInjective(a, b);
    }
  }

  /** PHP's empty() on a string. */
  predicate Falsy(s: string) {
    s == "" || s == "0"
  }

  predicate NoDuplicates(xs: seq<string>) {
    forall i, j :: 0 <= i < j < |xs| ==> xs[i] != xs[j]
  }

  /** The position of the first occurrence of `x` in `xs`. */
  function FirstIndex(xs: seq<string>, x: string): (k: nat)
    requires x in xs
    ensures k < |xs| && xs[k] == x && x !in xs[..k]
  {
    if xs[0] == x then 0 else 1 + FirstIndex(xs[1..], x)
  }

  lemma {:induction false} FirstIndexOfPrefix(xs: seq<string>, ys: seq<string>, x: string)
    requires x in xs
    ensures x in xs + ys && FirstIndex(xs + ys, x) == FirstIndex(xs, x)
  {
    if xs[0] != x {
      assert (xs + ys)[1..] == xs[1..] + ys;
      FirstIndexOfPrefix(xs[1..], ys, x);
    }
  }

  /** array_filter on strings: keeps the entries empty() rejects, in order. */
  function Truthy(xs: seq<string>): (r: seq<string>)
    ensures forall x :: x in r <==> x in xs && !Falsy(x)
  {
    if xs == [] then []
    else if Falsy(xs[0]) then Truthy(xs[1..])
    else [xs[0]] + Truthy(xs[1..])
  }

  /** array_unique: drops every later repetition, keeping first occurrences in their order. */
  function Unique(xs: seq<string>): (r: seq<string>)
    ensures forall x :: x in r <==> x in xs
    ensures NoDuplicates(r)
    ensures forall i, j :: 0 <= i < j < |r| ==>
              r[i] in xs && r[j] in xs && FirstIndex(xs, r[i]) < FirstIndex(xs, r[j])
  {
    if xs == [] then []
    else
      var init, last := xs[..|xs| - 1], xs[|xs| - 1];
      assert xs == init + [last];
      var u := Unique(init);
      forall y | y in init ensures FirstIndex(xs, y) == FirstIndex(init, y) {
        FirstIndexOfPrefix(init, [last], y);
      }
      if last in u then u
      else
        assert FirstIndex(xs, last) == |xs| - 1;
        u + [last]
  }

  const DefaultPool := "default"

  /** setDbPools: the given pools (or `default` when none are given) followed by the
      configured invocation-log pool, without empty entries and without repetitions. */
  function PoolList(given: seq<string>, configured: string): (r: seq<string>)
    ensures NoDuplicates(r)
    ensures forall p :: p in r <==>
              !Falsy(p) && (p in given || p == configured || (given == [] && p == DefaultPool))
    ensures !Falsy(configured) ==> configured in r
    ensures forall i, j :: 0 <= i < j < |r| && r[i] in given && r[j] in given ==>
              FirstIndex(given, r[i]) < FirstIndex(given, r[j])
  {
    var base := (if given != [] then given else [DefaultPool]) + [configured];
    var r := Unique(Truthy(base));
    forall i, j | 0 <= i < j < |r| && r[i] in given && r[j] in given
      ensures FirstIndex(given, r[i]) < FirstIndex(given, r[j])
    {
      TruthyKeepsOrder(base, r[i], r[j]);
      FirstIndexOfPrefix(given, [configured], r[i]);
      FirstIndexOfPrefix(given, [configured], r[j]);
    }
    r
  }

  /** array_filter does not reorder: first occurrences keep their relative order. */
  lemma {:induction false} TruthyKeepsOrder(xs: seq<string>, a: string, b: string)
    requires a in Truthy(xs) && b in Truthy(xs)
    requires FirstIndex(Truthy(xs), a) < FirstIndex(Truthy(xs), b)
    ensures a in xs && b in xs && FirstIndex(xs, a) < FirstIndex(xs, b)
  {
    if xs != [] {
      var t := Truthy(xs);
      if Falsy(xs[0]) {
        assert t == Truthy(xs[1..]);
        TruthyKeepsOrder(xs[1..], a, b);
        assert xs[0] != a && xs[0] != b;
      } else {
        assert t == [xs[0]] + Truthy(xs[1..]);
        if xs[0] == a {
        } else {
          assert t[0] != a && t[0] != b;
          assert FirstIndex(Truthy(xs[1..]), a) < FirstIndex(Truthy(xs[1..]), b);
          TruthyKeepsOrder(xs[1..], a, b);
        }
      }
    }
  }
}
