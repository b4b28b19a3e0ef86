/** What the built clauses mean. The continuation is strict lexicographic order on the key columns
    and the record number; the key search is lexicographic comparison with the search key; the
    filter is OR over AND. All of it through the emitted text, as a backend reads it. */
module KeysetMeaning {
  import opened Wrappers
  import opened SqlValues
  import opened SqlText
  import opened Relation
  import opened Keyset

  // ---- conditions from lists ---------------------------------------------------------------

  lemma {:induction false} ConjOfHolds(ps: seq<Prim>, env: string -> SqlValue, params: seq<SqlValue>)
    requires ps != []
    ensures ConjHolds(ConjOf(ps), env, params) <==> forall i :: 0 <= i < |ps| ==> PrimHolds(ps[i], env, params)
  {
    if |ps| > 1 {
      ConjOfHolds(ps[1..], env, params);
      assert forall i :: 1 <= i < |ps| ==> ps[1..][i - 1] == ps[i];
    }
  }

  lemma {:induction false} CondOfHolds(cs: seq<Conj>, env: string -> SqlValue, params: seq<SqlValue>)
    requires cs != []
    ensures CondHolds(CondOf(cs), env, params) <==> exists i :: 0 <= i < |cs| && ConjHolds(cs[i], env, params)
  {
    if |cs| > 1 {
      CondOfHolds(cs[1..], env, params);
      assert forall i :: 1 <= i < |cs| ==> cs[1..][i - 1] == cs[i];
    }
  }

  /** Plain comparisons numbered from `k`. */
  predicate Consecutive(ps: seq<Prim>, k: nat) {
    forall i :: 0 <= i < |ps| ==> ps[i].Compare? && ps[i].arg == k + i
  }

  lemma {:induction false} ConjOfNumbered(ps: seq<Prim>, k: nat)
    requires ps != [] && Consecutive(ps, k)
    ensures ConjNumbered(ConjOf(ps), k) && ConjArgs(ConjOf(ps)) == |ps|
  {
    if |ps| > 1 {
      ConjOfNumbered(ps[1..], k + 1);
    }
  }

  lemma {:induction false} GroupNumbered(ps: seq<Prim>, k: nat)
    requires ps != [] && Consecutive(ps, k)
    ensures ConjNumbered(Group(ps), k) && ConjArgs(Group(ps)) == |ps|
  {
    ConjOfNumbered(ps, k);
    var inner := Only(ConjOf(ps));
    assert Numbered(inner, k) && CondArgs(inner) == |ps|;
    assert PrimNumbered(Paren(inner), k) && PrimArgs(Paren(inner)) == |ps|;
  }

  /** Numbering goes on in a clause added at the end. */
  lemma {:induction false} CondOfAppend(cs: seq<Conj>, c: Conj, k: nat)
    requires cs != [] && Numbered(CondOf(cs), k) && ConjNumbered(c, k + CondArgs(CondOf(cs)))
    ensures Numbered(CondOf(cs + [c]), k) && CondArgs(CondOf(cs + [c])) == CondArgs(CondOf(cs)) + ConjArgs(c)
  {
    var all := cs + [c];
    if |cs| == 1 {
      assert all[1..] == [c];
      assert CondOf([c]) == Only(c);
    } else {
      var rest := cs[1..];
      assert all[1..] == rest + [c];
      assert CondOf(cs) == Or(cs[0], CondOf(rest));
      CondOfAppend(rest, c, k + ConjArgs(cs[0]));
      assert CondOf(all) == Or(cs[0], CondOf(rest + [c]));
    }
  }

  /** Clause `j` of either builder has `j + 1` placeholders, the first of them number `k + Tri(j)`. */
  lemma {:induction false} ClauseNumbered(kc: seq<KeyCol>, j: nat, cmp: Cmp, k: nat)
    requires j < |kc|
    ensures ConjNumbered(Group(ClausePrims(kc, j, cmp, k)), k)
    ensures ConjArgs(Group(ClausePrims(kc, j, cmp, k))) == j + 1
  {
    GroupNumbered(ClausePrims(kc, j, cmp, k), k);
  }

  lemma {:induction false} ContClausesNumbered(kc: seq<KeyCol>, i: nat, dir: int, k: nat)
    requires 0 < i <= |kc|
    ensures Numbered(CondOf(ContClauses(kc, i, dir, k)), k)
    ensures CondArgs(CondOf(ContClauses(kc, i, dir, k))) == Tri(i)
  {
    var c := ContClause(kc, i - 1, dir, k);
    ClauseNumbered(kc, i - 1, SegCmp(dir, kc[i - 1].desc), k + Tri(i - 1));
    ContClausesAppend(kc, i - 1, dir, k);
    if i == 1 {
      assert ContClauses(kc, 1, dir, k) == [c];
    } else {
      ContClausesNumbered(kc, i - 1, dir, k);
      CondOfAppend(ContClauses(kc, i - 1, dir, k), c, k);
    }
  }

  lemma {:induction false} KeyClausesNumbered(kc: seq<KeyCol>, i: nat, cmp: Cmp, k: nat)
    requires 0 < i <= |kc|
    ensures Numbered(CondOf(KeyClauses(kc, i, cmp, k)), k)
    ensures CondArgs(CondOf(KeyClauses(kc, i, cmp, k))) == Tri(i)
  {
    var c := KeyClause(kc, i - 1, cmp, k);
    ClauseNumbered(kc, i - 1, if i == |kc| then cmp else StrictCmp(cmp), k + Tri(i - 1));
    KeyClausesAppend(kc, i - 1, cmp, k);
    if i == 1 {
      assert KeyClauses(kc, 1, cmp, k) == [c];
    } else {
      KeyClausesNumbered(kc, i - 1, cmp, k);
      CondOfAppend(KeyClauses(kc, i - 1, cmp, k), c, k);
    }
  }

  /** The continuation's placeholders are numbered consecutively from the incoming parameter count,
      and with n key columns there are (n + 1)(n + 2) / 2 of them. */
  lemma {:induction false} ContinuationNumbered(kc: seq<KeyCol>, dir: int, rc: string, k: nat, rn: int)
    ensures Numbered(ContCond(kc, dir, rc, k), k)
    ensures CondArgs(ContCond(kc, dir, rc, k)) == |ContParams(kc, rn)|
    ensures 2 * |ContParams(kc, rn)| == (|kc| + 1) * (|kc| + 2)
  {
    var n := |kc|;
    TriClosedForm(n + 1);
    if n == 0 {
      assert Tri(1) == 1;
      assert ConjArgs(Last(Compare(rc, SegCmp(dir, false), k))) == 1;
    } else {
      ContClausesNumbered(kc, n, dir, k);
      GroupNumbered(TiePrims(kc, dir, rc, k + Tri(n)), k + Tri(n));
      CondOfAppend(ContClauses(kc, n, dir, k), Group(TiePrims(kc, dir, rc, k + Tri(n))), k);
    }
  }

  /** A key search on n columns has n parameters for equality and n(n + 1) / 2 otherwise. */
  lemma {:induction false} KeySearchNumbered(kc: seq<KeyCol>, cmp: Cmp, k: nat)
    ensures Numbered(KeyCond(kc, cmp, k), k)
    ensures CondArgs(KeyCond(kc, cmp, k)) == |KeyParams(kc, cmp)|
    ensures cmp != Eq ==> 2 * |KeyParams(kc, cmp)| == |kc| * (|kc| + 1)
  {
    TriClosedForm(|kc|);
    if kc != [] {
      if cmp == Eq {
        ConjOfNumbered(EqPrims(kc, k), k);
      } else {
        KeyClausesNumbered(kc, |kc|, cmp, k);
      }
    } else {
      assert ConjArgs(Last(OneIsOne)) == 0 && ConjNumbered(Last(OneIsOne), k);
    }
  }

  lemma {:induction false} TriMonotone(i: nat, j: nat)
    requires i <= j
    ensures Tri(i) <= Tri(j)
  {
    if i < j {
      TriMonotone(i, j - 1);
    }
  }

  // ---- lexicographic order, position by position ------------------------------------------------

  /** `y` comes after `x` in a column sorted ascending or descending. */
  predicate Beyond(asc: bool, x: SqlValue, y: SqlValue) {
    if asc then Less(x, y) else Less(y, x)
  }

  /** The tuples agree before position `i` and part there. */
  predicate PartsAt(asc: seq<bool>, xs: seq<SqlValue>, ys: seq<SqlValue>, i: nat)
    requires |asc| == |xs| == |ys| && i < |xs|
  {
    (forall j :: 0 <= j < i ==> ys[j] == xs[j]) && Beyond(asc[i], xs[i], ys[i])
  }

  lemma {:induction false} TupleLessParts(asc: seq<bool>, xs: seq<SqlValue>, ys: seq<SqlValue>)
    requires |asc| == |xs| == |ys|
    ensures TupleLess(asc, xs, ys) <==> exists i :: 0 <= i < |xs| && PartsAt(asc, xs, ys, i)
  {
    if |xs| > 0 {
      var a1, x1, y1 := asc[1..], xs[1..], ys[1..];
      LessTotal(xs[0], xs[0]);
      TupleLessParts(a1, x1, y1);
      if xs[0] == ys[0] {
        if TupleLess(a1, x1, y1) {
          var i :| 0 <= i < |x1| && PartsAt(a1, x1, y1, i);
          assert PartsAt(asc, xs, ys, i + 1) by {
            assert forall j :: 0 < j < i + 1 ==> ys[j] == y1[j - 1] && xs[j] == x1[j - 1];
          }
        }
        if i :| 0 <= i < |xs| && PartsAt(asc, xs, ys, i) {
          assert i > 0;
          assert PartsAt(a1, x1, y1, i - 1);
        }
      } else {
        if Beyond(asc[0], xs[0], ys[0]) {
          assert PartsAt(asc, xs, ys, 0);
        }
        if i :| 0 <= i < |xs| && PartsAt(asc, xs, ys, i) {
          assert i == 0;
        }
      }
    }
  }

  predicate NoNulls(vs: seq<SqlValue>) {
    forall i :: 0 <= i < |vs| ==> vs[i] != Null
  }

  /** The row's values in the key columns. */
  function KeyEnv(kc: seq<KeyCol>, env: string -> SqlValue): (r: seq<SqlValue>)
    ensures |r| == |kc|
  {
    seq(|kc|, i requires 0 <= i < |kc| => env(kc[i].col))
  }

  /** `vs` stands in the parameter list from position `k` on. */
  predicate BoundAt(params: seq<SqlValue>, k: nat, vs: seq<SqlValue>) {
    k + |vs| <= |params| && forall i :: 0 <= i < |vs| ==> params[k + i] == vs[i]
  }

  lemma {:induction false} ClauseParamsAt(kc: seq<KeyCol>, n: nat, j: nat, t: nat)
    requires t <= j < n <= |kc|
    ensures Tri(j) + t < Tri(n) && ClauseParams(kc, n)[Tri(j) + t] == kc[t].val
  {
    TriMonotone(j + 1, n);
    if j < n - 1 {
      ClauseParamsAt(kc, n - 1, j, t);
    }
  }

  /** The parameters of clause `j` within those of all clauses. */
  lemma {:induction false} ClauseBound(kc: seq<KeyCol>, n: nat, j: nat, params: seq<SqlValue>, k: nat)
    requires j < n <= |kc| && BoundAt(params, k, ClauseParams(kc, n))
    ensures BoundAt(params, k + Tri(j), Vals(kc)[..j + 1])
  {
    TriMonotone(j + 1, n);
    forall t | 0 <= t < j + 1
      ensures params[k + Tri(j) + t] == kc[t].val
    {
      ClauseParamsAt(kc, n, j, t);
    }
  }

  lemma {:induction false} EqPrimsHold(kc: seq<KeyCol>, k: nat, env: string -> SqlValue, params: seq<SqlValue>)
    requires BoundAt(params, k, Vals(kc)) && NoNulls(Vals(kc)) && NoNulls(KeyEnv(kc, env))
    ensures forall t :: 0 <= t < |kc| ==>
              (PrimHolds(EqPrims(kc, k)[t], env, params) <==> KeyEnv(kc, env)[t] == Vals(kc)[t])
  {
    forall t | 0 <= t < |kc|
      ensures PrimHolds(EqPrims(kc, k)[t], env, params) <==> KeyEnv(kc, env)[t] == Vals(kc)[t]
    {
      assert EqPrims(kc, k)[t] == Compare(kc[t].col, Eq, k + t);
      assert params[k + t] == Vals(kc)[t];
    }
  }

  /** Equality on the columns `kc`, then one comparison. */
  lemma {:induction false} GroupMeaning(kc: seq<KeyCol>, last: Prim, k: nat, env: string -> SqlValue, params: seq<SqlValue>)
    requires BoundAt(params, k, Vals(kc)) && NoNulls(Vals(kc)) && NoNulls(KeyEnv(kc, env))
    ensures ConjHolds(Group(EqPrims(kc, k) + [last]), env, params) <==>
              KeyEnv(kc, env) == Vals(kc) && PrimHolds(last, env, params)
  {
    var ps := EqPrims(kc, k) + [last];
    ConjOfHolds(ps, env, params);
    EqPrimsHold(kc, k, env, params);
    var inner := Only(ConjOf(ps));
    assert CondHolds(inner, env, params) == ConjHolds(ConjOf(ps), env, params);
    assert PrimHolds(Paren(inner), env, params) == CondHolds(inner, env, params);
    if KeyEnv(kc, env) == Vals(kc) && PrimHolds(last, env, params) {
      forall i | 0 <= i < |ps|
        ensures PrimHolds(ps[i], env, params)
      {
      }
    }
    if forall i :: 0 <= i < |ps| ==> PrimHolds(ps[i], env, params) {
      assert ps[|kc|] == last;
      forall t | 0 <= t < |kc|
        ensures KeyEnv(kc, env)[t] == Vals(kc)[t]
      {
        assert ps[t] == EqPrims(kc, k)[t];
      }
    }
  }

  /** Sort directions of the key columns, then of the record number. */
  function ContAscs(kc: seq<KeyCol>, dir: int): (r: seq<bool>)
    ensures |r| == |kc| + 1
  {
    seq(|kc|, i requires 0 <= i < |kc| => Forward(dir) != kc[i].desc) + [Forward(dir)]
  }

  /** The row lies strictly after the position (key values, record number). */
  predicate AfterPosition(kc: seq<KeyCol>, dir: int, rc: string, rn: int, env: string -> SqlValue) {
    TupleLess(ContAscs(kc, dir), Vals(kc) + [I64(rn)], KeyEnv(kc, env) + [env(rc)])
  }

  /** Clause `j` holds of the row exactly when the row parts from the position at column `j`. */
  lemma {:induction false} ContClauseMeaning(kc: seq<KeyCol>, j: nat, dir: int, rc: string, k: nat, rn: int,
                          env: string -> SqlValue, params: seq<SqlValue>)
    requires j < |kc| && BoundAt(params, k + Tri(j), Vals(kc)[..j + 1])
    requires NoNulls(Vals(kc)) && NoNulls(KeyEnv(kc, env)) && env(rc) != Null
    ensures ConjHolds(ContClause(kc, j, dir, k), env, params) <==>
              PartsAt(ContAscs(kc, dir), Vals(kc) + [I64(rn)], KeyEnv(kc, env) + [env(rc)], j)
  {
    var k' := k + Tri(j);
    var last := Compare(kc[j].col, SegCmp(dir, kc[j].desc), k' + j);
    assert Vals(kc[..j]) == Vals(kc)[..j] && KeyEnv(kc[..j], env) == KeyEnv(kc, env)[..j];
    assert forall t :: 0 <= t < j ==> Vals(kc)[..j][t] == Vals(kc)[..j + 1][t];
    GroupMeaning(kc[..j], last, k', env, params);
    assert params[k' + j] == Vals(kc)[..j + 1][j] == kc[j].val;
    assert kc[j].val == Vals(kc)[j] && env(kc[j].col) == KeyEnv(kc, env)[j];
    assert PrimHolds(last, env, params) <==> Beyond(ContAscs(kc, dir)[j], kc[j].val, env(kc[j].col));
    var xs, ys := Vals(kc) + [I64(rn)], KeyEnv(kc, env) + [env(rc)];
    assert KeyEnv(kc, env)[..j] == Vals(kc)[..j] <==> forall t :: 0 <= t < j ==> ys[t] == xs[t] by {
      assert forall t :: 0 <= t < j ==> ys[t] == KeyEnv(kc, env)[..j][t] && xs[t] == Vals(kc)[..j][t];
    }
  }

  lemma {:induction false} TieMeaning(kc: seq<KeyCol>, dir: int, rc: string, k: nat, rn: int,
                   env: string -> SqlValue, params: seq<SqlValue>)
    requires BoundAt(params, k, Vals(kc) + [I64(rn)])
    requires NoNulls(Vals(kc)) && NoNulls(KeyEnv(kc, env)) && env(rc) != Null
    ensures ConjHolds(Group(TiePrims(kc, dir, rc, k)), env, params) <==>
              PartsAt(ContAscs(kc, dir), Vals(kc) + [I64(rn)], KeyEnv(kc, env) + [env(rc)], |kc|)
  {
    var n := |kc|;
    var last := Compare(rc, SegCmp(dir, false), k + n);
    var xs, ys := Vals(kc) + [I64(rn)], KeyEnv(kc, env) + [env(rc)];
    assert forall t :: 0 <= t < n ==> params[k + t] == xs[t] == Vals(kc)[t];
    GroupMeaning(kc, last, k, env, params);
    assert params[k + n] == xs[n] == I64(rn);
    assert PrimHolds(last, env, params) <==> Beyond(Forward(dir), I64(rn), env(rc));
    assert KeyEnv(kc, env) == Vals(kc) <==> forall t :: 0 <= t < n ==> ys[t] == xs[t] by {
      assert forall t :: 0 <= t < n ==> ys[t] == KeyEnv(kc, env)[t] && xs[t] == Vals(kc)[t];
    }
  }

  lemma {:induction false} BoundSplit(params: seq<SqlValue>, k: nat, a: seq<SqlValue>, b: seq<SqlValue>, ab: seq<SqlValue>)
    requires BoundAt(params, k, ab) && ab == a + b
    ensures BoundAt(params, k, a) && BoundAt(params, k + |a|, b)
  {
    assert forall i :: 0 <= i < |a| ==> ab[i] == a[i];
    forall i | 0 <= i < |b|
      ensures params[k + |a| + i] == b[i]
    {
      assert ab[|a| + i] == b[i];
      assert params[k + (|a| + i)] == ab[|a| + i];
    }
  }

  /** The parameters of the clauses and of the tie-break, where the continuation looks for them. */
  lemma {:induction false} ContParamsBound(kc: seq<KeyCol>, k: nat, rn: int, params: seq<SqlValue>, ps: seq<SqlValue>, n: nat)
    requires ps == ContParams(kc, rn) && n == |kc| && BoundAt(params, k, ps)
    ensures BoundAt(params, k, ClauseParams(kc, n))
    ensures BoundAt(params, k + Tri(n), Vals(kc) + [I64(rn)])
  {
    var a, b := ClauseParams(kc, n), Vals(kc) + [I64(rn)];
    Regroup(a, Vals(kc), [I64(rn)]);
    assert ps == a + b;
    BoundSplit(params, k, a, b, ps);
  }

  /** Each clause says that the row parts from the position at its column. */
  lemma {:induction false} ContClauseAt(kc: seq<KeyCol>, dir: int, rc: string, k: nat, rn: int, env: string -> SqlValue, params: seq<SqlValue>,
                     cs: seq<Conj>, j: nat)
    requires 0 <= j <= |kc| && cs == ContClauses(kc, |kc|, dir, k) + [Group(TiePrims(kc, dir, rc, k + Tri(|kc|)))]
    requires BoundAt(params, k, ClauseParams(kc, |kc|)) && BoundAt(params, k + Tri(|kc|), Vals(kc) + [I64(rn)])
    requires NoNulls(Vals(kc)) && NoNulls(KeyEnv(kc, env)) && env(rc) != Null
    ensures ConjHolds(cs[j], env, params) <==> PartsAt(ContAscs(kc, dir), Vals(kc) + [I64(rn)], KeyEnv(kc, env) + [env(rc)], j)
  {
    var n := |kc|;
    if j < n {
      ClauseBound(kc, n, j, params, k);
      ContClauseMeaning(kc, j, dir, rc, k, rn, env, params);
      assert cs[j] == ContClause(kc, j, dir, k);
    } else {
      TieMeaning(kc, dir, rc, k + Tri(n), rn, env, params);
    }
  }

  /** For any number of segments, any mix of directions, and either way of walking: the
      continuation condition holds of a row exactly when the row is strictly after the position. */
  lemma {:induction false} ContinuationMeaning(kc: seq<KeyCol>, dir: int, rc: string, k: nat, rn: int,
                            env: string -> SqlValue, params: seq<SqlValue>)
    requires BoundAt(params, k, ContParams(kc, rn))
    requires NoNulls(Vals(kc)) && NoNulls(KeyEnv(kc, env)) && env(rc) != Null
    ensures CondHolds(ContCond(kc, dir, rc, k), env, params) <==> AfterPosition(kc, dir, rc, rn, env)
  {
    var n := |kc|;
    var asc, xs, ys := ContAscs(kc, dir), Vals(kc) + [I64(rn)], KeyEnv(kc, env) + [env(rc)];
    TupleLessParts(asc, xs, ys);
    ContParamsBound(kc, k, rn, params, ContParams(kc, rn), n);
    if n == 0 {
      assert params[k] == I64(rn) by { assert params[k + Tri(n) + 0] == (Vals(kc) + [I64(rn)])[0]; }
      EmptyContinuation(dir, rc, k, rn, env, params);
      assert xs == [I64(rn)] && ys == [env(rc)] && asc == [Forward(dir)];
    } else {
      var cs := ContClauses(kc, n, dir, k) + [Group(TiePrims(kc, dir, rc, k + Tri(n)))];
      CondOfHolds(cs, env, params);
      forall j | 0 <= j < n + 1
        ensures ConjHolds(cs[j], env, params) <==> PartsAt(asc, xs, ys, j)
      {
        ContClauseAt(kc, dir, rc, k, rn, env, params, cs, j);
      }
    }
  }

  lemma {:induction false} EmptyContinuation(dir: int, rc: string, k: nat, rn: int, env: string -> SqlValue, params: seq<SqlValue>)
    requires k < |params| && params[k] == I64(rn) && env(rc) != Null
    ensures CondHolds(ContCond([], dir, rc, k), env, params)
        <==> TupleLess([Forward(dir)], [I64(rn)], [env(rc)])
  {
    var p := Compare(rc, SegCmp(dir, false), k);
    assert CondHolds(Only(Last(p)), env, params) == ConjHolds(Last(p), env, params) == PrimHolds(p, env, params);
    LessTotal(I64(rn), env(rc));
  }

  // ---- key search -------------------------------------------------------------------------------

  /** How the row's key tuple must compare with the search tuple, ascending in every column. */
  predicate KeyCompares(cmp: Cmp, search: seq<SqlValue>, row: seq<SqlValue>)
    requires |search| == |row|
  {
    var asc := seq(|row|, _ => true);
    match cmp
    case Eq => row == search
    case Gt => TupleLess(asc, search, row)
    case Ge => row == search || TupleLess(asc, search, row)
    case Lt => TupleLess(asc, row, search)
    case Le => row == search || TupleLess(asc, row, search)
    case Ne => row != search
  }

  lemma {:induction false} SamePrefix(a: seq<SqlValue>, b: seq<SqlValue>, j: nat)
    requires j <= |a| && j <= |b|
    ensures a[..j] == b[..j] <==> forall t :: 0 <= t < j ==> a[t] == b[t]
  {
    assert forall t :: 0 <= t < j ==> a[t] == a[..j][t] && b[t] == b[..j][t];
  }

  lemma {:induction false} KeyClauseMeaning(kc: seq<KeyCol>, j: nat, cmp: Cmp, k: nat, env: string -> SqlValue, params: seq<SqlValue>)
    requires j < |kc| && BoundAt(params, k + Tri(j), Vals(kc)[..j + 1])
    requires NoNulls(Vals(kc)) && NoNulls(KeyEnv(kc, env))
    ensures ConjHolds(KeyClause(kc, j, cmp, k), env, params) <==>
              (forall t :: 0 <= t < j ==> KeyEnv(kc, env)[t] == Vals(kc)[t])
              && Holds(if j == |kc| - 1 then cmp else StrictCmp(cmp), KeyEnv(kc, env)[j], Vals(kc)[j])
  {
    var k' := k + Tri(j);
    var last := Compare(kc[j].col, if j == |kc| - 1 then cmp else StrictCmp(cmp), k' + j);
    assert Vals(kc[..j]) == Vals(kc)[..j] && KeyEnv(kc[..j], env) == KeyEnv(kc, env)[..j];
    assert forall t :: 0 <= t < j ==> Vals(kc)[..j][t] == Vals(kc)[..j + 1][t];
    GroupMeaning(kc[..j], last, k', env, params);
    assert params[k' + j] == Vals(kc)[..j + 1][j] == kc[j].val;
    assert env(kc[j].col) == KeyEnv(kc, env)[j];
    SamePrefix(KeyEnv(kc, env), Vals(kc), j);
  }

  /** Agreement before some column and the clause's comparison there, for one of the columns. */
  predicate SomeClause(cmp: Cmp, search: seq<SqlValue>, row: seq<SqlValue>)
    requires |search| == |row|
  {
    exists j :: 0 <= j < |row| && ClauseAt(cmp, search, row, j)
  }

  predicate ClauseAt(cmp: Cmp, search: seq<SqlValue>, row: seq<SqlValue>, j: nat)
    requires |search| == |row| && j < |row|
  {
    (forall t :: 0 <= t < j ==> row[t] == search[t])
    && Holds(if j == |row| - 1 then cmp else StrictCmp(cmp), row[j], search[j])
  }

  lemma {:induction false} SomeClauseIsComparison(cmp: Cmp, search: seq<SqlValue>, row: seq<SqlValue>)
    requires |search| == |row| && row != [] && NoNulls(search) && NoNulls(row)
    requires cmp in {Gt, Ge, Lt, Le}
    ensures SomeClause(cmp, search, row) <==> KeyCompares(cmp, search, row)
  {
    var n := |row|;
    var asc := seq(n, _ => true);
    TupleLessParts(asc, search, row);
    TupleLessParts(asc, row, search);
    forall i | 0 <= i < n
      ensures Less(row[i], row[i]) == false && Less(search[i], search[i]) == false
    {
      LessTotal(row[i], search[i]);
      LessTotal(search[i], row[i]);
    }
    if j :| 0 <= j < n && ClauseAt(cmp, search, row, j) {
      if row[j] == search[j] {
        assert j == n - 1;
        assert row == search;
      } else if StrictCmp(cmp) == Gt {
        assert PartsAt(asc, search, row, j);
      } else {
        assert PartsAt(asc, row, search, j);
      }
    }
    if KeyCompares(cmp, search, row) {
      if row == search {
        assert ClauseAt(cmp, search, row, n - 1);
      } else if StrictCmp(cmp) == Gt {
        var i :| 0 <= i < n && PartsAt(asc, search, row, i);
        assert ClauseAt(cmp, search, row, i);
      } else {
        var i :| 0 <= i < n && PartsAt(asc, row, search, i);
        assert ClauseAt(cmp, search, row, i);
      }
    }
  }

  /** For =, >, >=, < and <= the key search is lexicographic comparison of the row's key tuple
      with the search tuple. */
  lemma {:induction false} KeySearchMeaning(kc: seq<KeyCol>, cmp: Cmp, k: nat, env: string -> SqlValue, params: seq<SqlValue>)
    requires kc != [] && cmp != Ne
    requires BoundAt(params, k, KeyParams(kc, cmp)) && NoNulls(Vals(kc)) && NoNulls(KeyEnv(kc, env))
    ensures CondHolds(KeyCond(kc, cmp, k), env, params) <==> KeyCompares(cmp, Vals(kc), KeyEnv(kc, env))
  {
    if cmp == Eq {
      var c := ConjOf(EqPrims(kc, k));
      assert CondHolds(Only(c), env, params) == ConjHolds(c, env, params);
      ConjOfHolds(EqPrims(kc, k), env, params);
      EqPrimsHold(kc, k, env, params);
    } else {
      var n := |kc|;
      var cs := KeyClauses(kc, n, cmp, k);
      CondOfHolds(cs, env, params);
      forall j | 0 <= j < n
        ensures ConjHolds(cs[j], env, params) <==> ClauseAt(cmp, Vals(kc), KeyEnv(kc, env), j)
      {
        ClauseBound(kc, n, j, params, k);
        KeyClauseMeaning(kc, j, cmp, k, env, params);
      }
      SomeClauseIsComparison(cmp, Vals(kc), KeyEnv(kc, env));
    }
  }
}
