/** What the per-account transaction lists of the pool compute, as functions of
    the nonce-to-transaction map a list holds. */
module Lists {
  import opened Transactions

  type Items = map<nat, Tx>

  /** Every transaction is filed under its own nonce. */
  ghost predicate Keyed(m: Items) {
    forall n :: n in m ==> m[n].nonce == n
  }

  function Below(m: Items, bound: nat): Items {
    map n | n in m && n < bound :: m[n]
  }

  function From(m: Items, bound: nat): Items {
    map n | n in m && bound <= n :: m[n]
  }

  function With(m: Items, tx: Tx): Items {
    m[tx.nonce := tx]
  }

  function Without(m: Items, other: Items): Items {
    map n | n in m && n !in other :: m[n]
  }

  predicate Payable(tx: Tx, costLimit: nat, gasLimit: nat) {
    tx.cost <= costLimit && tx.gas <= gasLimit
  }

  function KeepPayable(m: Items, costLimit: nat, gasLimit: nat): Items {
    map n | n in m && Payable(m[n], costLimit, gasLimit) :: m[n]
  }

  /** The transactions below the lowest unpayable nonce. */
  function PayablePrefix(m: Items, costLimit: nat, gasLimit: nat): Items {
    map n | n in m && (forall k | k in m && k <= n :: Payable(m[k], costLimit, gasLimit)) :: m[n]
  }

  /** Whether `tx` may take the place of `prior`: both prices must be higher, and
      by at least the required percentage. */
  predicate Outbids(prior: Tx, tx: Tx, priceBump: nat) {
    && prior.feeCap < tx.feeCap
    && prior.tipCap < tx.tipCap
    && (100 + priceBump) * prior.feeCap / 100 <= tx.feeCap
    && (100 + priceBump) * prior.tipCap / 100 <= tx.tipCap
  }

  predicate IsLowest(m: Items, n: nat) {
    n in m && forall k | k in m :: n <= k
  }

  predicate IsHighest(m: Items, n: nat) {
    n in m && forall k | k in m :: k <= n
  }

  lemma {:induction false} LowestExists(m: Items) returns (n: nat)
    requires m != map[]
    ensures IsLowest(m, n)
    decreases |m|
  {
    var k :| k in m;
    var rest := m - {k};
    if rest == map[] {
      assert m.Keys == {k} by { assert forall j :: j in m && j != k ==> j in rest; }
      n := k;
    } else {
      var r := LowestExists(rest);
      n := if k < r then k else r;
      assert forall j :: j in m && j != k ==> j in rest;
    }
  }

  lemma {:induction false} HighestExists(m: Items) returns (n: nat)
    requires m != map[]
    ensures IsHighest(m, n)
    decreases |m|
  {
    var k :| k in m;
    var rest := m - {k};
    if rest == map[] {
      assert m.Keys == {k} by { assert forall j :: j in m && j != k ==> j in rest; }
      n := k;
    } else {
      var r := HighestExists(rest);
      n := if k < r then r else k;
      assert forall j :: j in m && j != k ==> j in rest;
    }
  }

  ghost function Lowest(m: Items): (n: nat)
    requires m != map[]
    ensures IsLowest(m, n)
  {
    assert exists n :: IsLowest(m, n) by { var n := LowestExists(m); }
    var n :| IsLowest(m, n);
    n
  }

  ghost function Highest(m: Items): (n: nat)
    requires m != map[]
    ensures IsHighest(m, n)
  {
    assert exists n :: IsHighest(m, n) by { var n := HighestExists(m); }
    var n :| IsHighest(m, n);
    n
  }

  /** The unbroken run of nonces from the lowest one, or nothing when even the
      lowest nonce lies above `start`. */
  ghost function ReadyRun(m: Items, start: nat): Items {
    if m == map[] || start < Lowest(m) then map[]
    else map n | n in m && (forall k | Lowest(m) <= k <= n :: k in m) :: m[n]
  }

  lemma ReadyRunStarts(m: Items, start: nat)
    ensures m != map[] && Lowest(m) <= start ==> ReadyRun(m, start) != map[]
  {
    if m != map[] && Lowest(m) <= start {
      assert Lowest(m) in ReadyRun(m, start);
    }
  }

  lemma ReadyRunShape(m: Items, start: nat)
    requires ReadyRun(m, start) != map[]
    ensures
      var run := ReadyRun(m, start);
      && m != map[]
      && Lowest(m) <= start
      && (forall n :: n in run <==> Lowest(m) <= n <= Highest(run))
      && (forall n :: n in run ==> n in m && run[n] == m[n])
      && (forall n :: n in m && n !in run ==> Highest(run) < n)
  {
  }

  /** `kept` is what is left of `m` under a cap of `limit` transactions: the
      lowest nonces, as many as fit. */
  ghost predicate IsCapped(m: Items, limit: nat, kept: Items) {
    && (forall n :: n in kept ==> n in m && kept[n] == m[n])
    && |kept| == (if |m| <= limit then |m| else limit)
    && (forall n, k :: n in kept && k in m && k !in kept ==> n < k)
  }

  lemma LowestOf(m: Items)
    requires m != map[]
    ensures exists n :: IsLowest(m, n)
  {
    var n := LowestExists(m);
  }

  lemma HighestOf(m: Items)
    requires m != map[]
    ensures exists n :: IsHighest(m, n)
  {
    var n := HighestExists(m);
  }

  /** The nonces up to the first gap are the executable run. */
  lemma ReadyRunIs(m: Items, start: nat, next: nat)
    requires m != map[] && Lowest(m) <= start
    requires Lowest(m) < next && next !in m
    requires forall k :: Lowest(m) <= k < next ==> k in m
    ensures ReadyRun(m, start) == Below(m, next)
    ensures From(m, next) == Without(m, Below(m, next))
  {
  }

  lemma BelowAll(m: Items, bound: nat)
    requires From(m, bound) == map[]
    ensures Below(m, bound) == m
    ensures 0 < bound && bound - 1 in m ==> Highest(m) == bound - 1
  {
    assert forall n :: n in m && bound <= n ==> n in From(m, bound);
  }

  /** `part` is a piece of `m`. */
  ghost predicate Within(part: Items, m: Items) {
    forall n :: n in part ==> n in m && part[n] == m[n]
  }

  lemma PartSize(part: Items, m: Items)
    requires Within(part, m)
    ensures |part| <= |m| && (|part| == |m| ==> part == m)
  {
    KeysSize(part.Keys, m.Keys);
  }

  lemma {:induction false} KeysSize(part: set<nat>, keys: set<nat>)
    requires part <= keys
    ensures |part| <= |keys| && (|part| == |keys| ==> part == keys)
    decreases part
  {
    if part != {} {
      var n :| n in part;
      KeysSize(part - {n}, keys - {n});
    }
  }

  lemma WithoutBelow(m: Items, bound: nat)
    ensures Without(m, Below(m, bound)) == From(m, bound)
  {
  }

  lemma WithoutWithout(m: Items, part: Items)
    requires Within(part, m)
    ensures Without(m, Without(m, part)) == part
  {
  }

  lemma WithoutAll(m: Items)
    ensures Without(m, m) == map[]
  {
  }

  lemma WithUnion(a: Items, b: Items, tx: Tx)
    ensures With(a + b, tx) == a + With(b, tx)
  {
  }

  /** Adding the next nonce in order. */
  lemma BelowNext(m: Items, bound: nat, n: nat)
    requires Keyed(m)
    requires IsLowest(From(m, bound), n)
    ensures n in m && bound <= n
    ensures Below(m, n + 1) == With(Below(m, bound), m[n])
    ensures From(m, n + 1).Keys < From(m, bound).Keys
  {
    assert n in From(m, bound);
    assert forall k :: k in m && bound <= k ==> k in From(m, bound);
    assert n !in From(m, n + 1).Keys;
  }

  /** Splits off the executable run at the front of a queue. */
  method TakeReady(list: Items, start: nat) returns (run: Items, rest: Items)
    ensures run == ReadyRun(list, start)
    ensures rest == Without(list, run)
  {
    run, rest := map[], list;
    if list == map[] {
      return;
    }
    LowestOf(list);
    var low :| IsLowest(list, low);
    if start < low {
      return;
    }
    var next := low;
    while next in rest
      invariant low <= next
      invariant forall k :: low <= k < next ==> k in list
      invariant run == Below(list, next)
      invariant rest == From(list, next)
      invariant next == low ==> low in rest
      decreases rest
    {
      run := run[next := rest[next]];
      rest := rest - {next};
      assert run == Below(list, next + 1) && rest == From(list, next + 1);
      next := next + 1;
    }
    ReadyRunIs(list, start, next);
  }

  /** Keeps the lowest `limit` nonces. */
  method CapItems(list: Items, limit: nat) returns (kept: Items)
    ensures IsCapped(list, limit, kept)
  {
    kept := list;
    while |kept| > limit
      invariant kept.Keys <= list.Keys && forall n :: n in kept ==> kept[n] == list[n]
      invariant |list| <= limit ==> kept == list
      invariant limit <= |list| ==> limit <= |kept|
      invariant forall n, k :: n in kept && k in list && k !in kept ==> n < k
      decreases |kept|
    {
      HighestOf(kept);
      var top :| IsHighest(kept, top);
      kept := kept - {top};
    }
  }
}
