/** Extended filters: AND binds tighter than OR, placeholders go on from the parameters already
    pushed, and a filter combines with a continuation as `(b) AND (f)`. */
module FilterMeaning {
  import opened Wrappers
  import opened SqlValues
  import opened SqlText
  import opened SqlReading
  import opened Relation
  import opened Keyset
  import opened KeysetMeaning

  predicate TermHolds(t: Term, env: string -> SqlValue) {
    Holds(t.cmp, env(t.col), t.value)
  }

  /** Reading the terms left to right; `sofar` says whether the current run of AND terms holds. */
  predicate RunsHold(terms: seq<Term>, sofar: bool, env: string -> SqlValue)
    requires terms != []
  {
    var now := sofar && TermHolds(terms[0], env);
    if terms[0].connector == OrNext then
      now || (|terms| > 1 && RunsHold(terms[1..], true, env))
    else if |terms| == 1 then now
    else RunsHold(terms[1..], now, env)
  }

  /** What a filter asks of a row; no terms ask nothing. */
  predicate FilterHolds(terms: seq<Term>, env: string -> SqlValue) {
    terms == [] || RunsHold(terms, true, env)
  }

  predicate AllHold(ps: seq<Prim>, env: string -> SqlValue, params: seq<SqlValue>) {
    forall i :: 0 <= i < |ps| ==> PrimHolds(ps[i], env, params)
  }

  predicate SomeGroupHolds(groups: seq<seq<Prim>>, env: string -> SqlValue, params: seq<SqlValue>) {
    groups != [] && ((groups[0] != [] && AllHold(groups[0], env, params)) || SomeGroupHolds(groups[1..], env, params))
  }

  lemma {:induction false} SomeGroupAppend(groups: seq<seq<Prim>>, g: seq<Prim>, env: string -> SqlValue, params: seq<SqlValue>)
    ensures SomeGroupHolds(groups + [g], env, params) <==>
              SomeGroupHolds(groups, env, params) || (g != [] && AllHold(g, env, params))
  {
    if groups == [] {
      assert ([] + [g])[1..] == [];
    } else {
      assert (groups + [g])[1..] == groups[1..] + [g];
      SomeGroupAppend(groups[1..], g, env, params);
    }
  }

  lemma {:induction false} GroupConjMeaning(g: seq<Prim>, env: string -> SqlValue, params: seq<SqlValue>)
    requires g != []
    ensures ConjHolds(if |g| == 1 then Last(g[0]) else Group(g), env, params) <==> AllHold(g, env, params)
  {
    ConjOfHolds(g, env, params);
    var inner := Only(ConjOf(g));
    assert CondHolds(inner, env, params) == ConjHolds(ConjOf(g), env, params);
    assert PrimHolds(Paren(inner), env, params) == CondHolds(inner, env, params);
  }

  lemma {:induction false} GroupsMeaning(groups: seq<seq<Prim>>, env: string -> SqlValue, params: seq<SqlValue>)
    ensures SomeGroupHolds(groups, env, params) <==>
              (GroupConjs(groups) != [] && CondHolds(CondOf(GroupConjs(groups)), env, params))
  {
    if groups != [] {
      GroupsMeaning(groups[1..], env, params);
      var rest := GroupConjs(groups[1..]);
      if groups[0] != [] {
        GroupConjMeaning(groups[0], env, params);
        var c := if |groups[0]| == 1 then Last(groups[0][0]) else Group(groups[0]);
        assert GroupConjs(groups) == [c] + rest;
        assert ([c] + rest)[1..] == rest;
      }
    }
  }

  lemma {:induction false} AllHoldAppend(ps: seq<Prim>, p: Prim, env: string -> SqlValue, params: seq<SqlValue>)
    ensures AllHold(ps + [p], env, params) <==> AllHold(ps, env, params) && PrimHolds(p, env, params)
  {
    assert (ps + [p])[|ps|] == p;
    assert forall i :: 0 <= i < |ps| ==> (ps + [p])[i] == ps[i];
  }

  lemma {:induction false} GroupsFromMeaning(terms: seq<Term>, k: nat, done: seq<seq<Prim>>, cur: seq<Prim>,
                                             env: string -> SqlValue, params: seq<SqlValue>)
    requires BoundAt(params, k, TermVals(terms))
    ensures SomeGroupHolds(GroupsFrom(terms, k, done, cur), env, params) <==>
              SomeGroupHolds(done, env, params)
              || (if terms == [] then cur != [] && AllHold(cur, env, params)
                  else RunsHold(terms, AllHold(cur, env, params), env))
  {
    if terms == [] {
      SomeGroupAppend(done, cur, env, params);
    } else {
      var t := terms[0];
      var p := Compare(t.col, t.cmp, k);
      assert params[k + 0] == TermVals(terms)[0];
      assert PrimHolds(p, env, params) == TermHolds(t, env);
      AllHoldAppend(cur, p, env, params);
      assert BoundAt(params, k + 1, TermVals(terms[1..])) by {
        assert forall i :: 0 <= i < |terms| - 1 ==>
            TermVals(terms[1..])[i] == TermVals(terms)[i + 1] && params[k + (i + 1)] == TermVals(terms)[i + 1];
      }
      if t.connector == OrNext {
        SomeGroupAppend(done, cur + [p], env, params);
        GroupsFromMeaning(terms[1..], k + 1, done + [cur + [p]], [], env, params);
      } else {
        GroupsFromMeaning(terms[1..], k + 1, done, cur + [p], env, params);
      }
    }
  }

  /** The filter clause says of a row exactly what its terms say, AND binding tighter than OR. */
  lemma {:induction false} FilterSays(terms: seq<Term>, k: nat, env: string -> SqlValue, params: seq<SqlValue>)
    requires BoundAt(params, k, TermVals(terms))
    ensures CondHolds(FilterCond(terms, k), env, params) <==> FilterHolds(terms, env)
  {
    if terms == [] {
      assert ConjHolds(Last(OneIsOne), env, params);
    } else {
      GroupsFromMeaning(terms, k, [], [], env, params);
      GroupsMeaning(GroupsFrom(terms, k, [], []), env, params);
      FilterNonEmpty(terms, k, [], []);
    }
  }

  // ---- numbering -------------------------------------------------------------------------------

  function Flat(groups: seq<seq<Prim>>): seq<Prim> {
    if groups == [] then [] else groups[0] + Flat(groups[1..])
  }

  lemma {:induction false} FlatAppend(groups: seq<seq<Prim>>, g: seq<Prim>)
    ensures Flat(groups + [g]) == Flat(groups) + g
  {
    if groups == [] {
      assert ([] + [g])[1..] == [];
    } else {
      assert (groups + [g])[1..] == groups[1..] + [g];
      FlatAppend(groups[1..], g);
    }
  }

  lemma {:induction false} GroupsFromFlat(terms: seq<Term>, k: nat, done: seq<seq<Prim>>, cur: seq<Prim>)
    ensures Flat(GroupsFrom(terms, k, done, cur)) == Flat(done) + cur + TermPrims(terms, k)
  {
    if terms == [] {
      FlatAppend(done, cur);
    } else {
      var p := Compare(terms[0].col, terms[0].cmp, k);
      assert TermPrims(terms, k) == [p] + TermPrims(terms[1..], k + 1);
      if terms[0].connector == OrNext {
        FlatAppend(done, cur + [p]);
        GroupsFromFlat(terms[1..], k + 1, done + [cur + [p]], []);
      } else {
        GroupsFromFlat(terms[1..], k + 1, done, cur + [p]);
      }
    }
  }

  lemma {:induction false} OneOrGroupNumbered(g: seq<Prim>, k: nat)
    requires g != [] && Consecutive(g, k)
    ensures var c := if |g| == 1 then Last(g[0]) else Group(g); ConjNumbered(c, k) && ConjArgs(c) == |g|
  {
    if |g| == 1 {
      assert PrimNumbered(g[0], k) && PrimArgs(g[0]) == 1;
    } else {
      GroupNumbered(g, k);
    }
  }

  lemma {:induction false} GroupsNumbered(groups: seq<seq<Prim>>, k: nat)
    requires Consecutive(Flat(groups), k)
    ensures GroupConjs(groups) == [] ==> Flat(groups) == []
    ensures GroupConjs(groups) != [] ==>
              Numbered(CondOf(GroupConjs(groups)), k) && CondArgs(CondOf(GroupConjs(groups))) == |Flat(groups)|
  {
    if groups != [] {
      var g, rest := groups[0], groups[1..];
      var flat := Flat(groups);
      assert forall i :: 0 <= i < |g| ==> flat[i] == g[i];
      assert forall i :: 0 <= i < |Flat(rest)| ==> flat[|g| + i] == Flat(rest)[i];
      GroupsNumbered(rest, k + |g|);
      if g != [] {
        var c := if |g| == 1 then Last(g[0]) else Group(g);
        OneOrGroupNumbered(g, k);
        var cs := GroupConjs(rest);
        assert GroupConjs(groups) == [c] + cs;
        if cs != [] {
          assert ([c] + cs)[1..] == cs;
        }
      }
    }
  }

  lemma {:induction false} FilterNumbered(terms: seq<Term>, k: nat)
    ensures Numbered(FilterCond(terms, k), k) && CondArgs(FilterCond(terms, k)) == |terms|
  {
    if terms == [] {
      assert PrimArgs(OneIsOne) == 0;
      assert ConjNumbered(Last(OneIsOne), k) && ConjArgs(Last(OneIsOne)) == 0;
    } else {
      GroupsFromFlat(terms, k, [], []);
      assert Flat([]) + [] + TermPrims(terms, k) == TermPrims(terms, k);
      GroupsNumbered(GroupsFrom(terms, k, [], []), k);
      FilterNonEmpty(terms, k, [], []);
    }
  }

  // ---- `(b) AND (f)` -------------------------------------------------------------------------------

  function Both(b: Cond, f: Cond): Cond {
    Only(And(Paren(b), Last(Paren(f))))
  }

  lemma {:induction false} BothText(d: Dialect, b: Cond, f: Cond)
    ensures CondText(d, Both(b, f)) == Parens(CondText(d, b)) + " AND " + Parens(CondText(d, f))
  {
    assert ConjText(d, Last(Paren(f))) == PrimText(d, Paren(f)) == Parens(CondText(d, f));
    assert PrimText(d, Paren(b)) == Parens(CondText(d, b));
  }

  lemma {:induction false} BothNumbered(b: Cond, f: Cond, k: nat)
    requires Numbered(b, k) && Numbered(f, k + CondArgs(b))
    ensures Numbered(Both(b, f), k) && CondArgs(Both(b, f)) == CondArgs(b) + CondArgs(f)
  {
    assert PrimNumbered(Paren(b), k) && PrimArgs(Paren(b)) == CondArgs(b);
    assert PrimNumbered(Paren(f), k + CondArgs(b)) && PrimArgs(Paren(f)) == CondArgs(f);
    assert ConjNumbered(Last(Paren(f)), k + CondArgs(b)) && ConjArgs(Last(Paren(f))) == CondArgs(f);
  }

  lemma {:induction false} BothHolds(b: Cond, f: Cond, env: string -> SqlValue, params: seq<SqlValue>)
    ensures CondHolds(Both(b, f), env, params) <==> CondHolds(b, env, params) && CondHolds(f, env, params)
  {
    assert ConjHolds(Last(Paren(f)), env, params) == PrimHolds(Paren(f), env, params) == CondHolds(f, env, params);
    assert PrimHolds(Paren(b), env, params) == CondHolds(b, env, params);
  }

  // ---- parameters pushed later do not matter ------------------------------------------------------------

  lemma {:induction false} PrimIgnoresLater(p: Prim, k: nat, env: string -> SqlValue, ps: seq<SqlValue>, more: seq<SqlValue>)
    requires PrimNumbered(p, k) && k + PrimArgs(p) <= |ps|
    ensures PrimHolds(p, env, ps + more) <==> PrimHolds(p, env, ps)
    decreases p
  {
    match p
    case Compare(_, _, _) =>
    case OneIsOne =>
    case Paren(e) => CondIgnoresLater(e, k, env, ps, more);
  }

  lemma {:induction false} ConjIgnoresLater(c: Conj, k: nat, env: string -> SqlValue, ps: seq<SqlValue>, more: seq<SqlValue>)
    requires ConjNumbered(c, k) && k + ConjArgs(c) <= |ps|
    ensures ConjHolds(c, env, ps + more) <==> ConjHolds(c, env, ps)
    decreases c
  {
    match c
    case Last(p) => PrimIgnoresLater(p, k, env, ps, more);
    case And(p, rest) =>
      PrimIgnoresLater(p, k, env, ps, more);
      ConjIgnoresLater(rest, k + PrimArgs(p), env, ps, more);
  }

  lemma {:induction false} CondIgnoresLater(e: Cond, k: nat, env: string -> SqlValue, ps: seq<SqlValue>, more: seq<SqlValue>)
    requires Numbered(e, k) && k + CondArgs(e) <= |ps|
    ensures CondHolds(e, env, ps + more) <==> CondHolds(e, env, ps)
    decreases e
  {
    match e
    case Only(c) => ConjIgnoresLater(c, k, env, ps, more);
    case Or(c, others) =>
      ConjIgnoresLater(c, k, env, ps, more);
      CondIgnoresLater(others, k + ConjArgs(c), env, ps, more);
  }

  // ---- the WHERE text of a walk -----------------------------------------------------------------------

  /** The rows a continuation, a filter, or both let through, as text read by a backend: exactly
      those after the position that pass the filter. */
  lemma {:induction false} WalkTextMeaning(d: Dialect, kc: seq<KeyCol>, dir: int, rc: string, rn: int, terms: seq<Term>,
                        env: string -> SqlValue)
    requires NoNulls(Vals(kc)) && NoNulls(KeyEnv(kc, env)) && env(rc) != Null
    ensures var b := ContCond(kc, dir, rc, 0);
            var params := ContParams(kc, rn) + TermVals(terms);
            var f := FilterCond(terms, |ContParams(kc, rn)|);
            && WhereCond(d, CondText(d, Both(b, f)), |params|) == Some(Both(b, f))
            && (CondHolds(Both(b, f), env, params) <==> AfterPosition(kc, dir, rc, rn, env) && FilterHolds(terms, env))
  {
    var b, n := ContCond(kc, dir, rc, 0), |ContParams(kc, rn)|;
    var f := FilterCond(terms, n);
    var params := ContParams(kc, rn) + TermVals(terms);
    ContinuationNumbered(kc, dir, rc, 0, rn);
    FilterNumbered(terms, n);
    BothNumbered(b, f, 0);
    Accepted(d, Both(b, f), |params|);
    BothHolds(b, f, env, params);
    ContinuationMeaning(kc, dir, rc, 0, rn, env, params);
    FilterSays(terms, n, env, params);
  }

  lemma {:induction false} PrimTextNonEmpty(d: Dialect, p: Prim)
    ensures PrimText(d, p) != ""
  {
  }

  lemma {:induction false} ConjTextNonEmpty(d: Dialect, c: Conj)
    ensures ConjText(d, c) != ""
  {
    match c
    case Last(p) => PrimTextNonEmpty(d, p);
    case And(p, _) => PrimTextNonEmpty(d, p);
  }

  lemma {:induction false} CondTextNonEmpty(d: Dialect, e: Cond)
    ensures CondText(d, e) != ""
  {
    match e
    case Only(c) => ConjTextNonEmpty(d, c);
    case Or(c, _) => ConjTextNonEmpty(d, c);
  }

  /** Any condition numbered from the start is accepted by the backend and read as written. */
  lemma {:induction false} Accepted(d: Dialect, e: Cond, n: nat)
    requires Numbered(e, 0) && CondArgs(e) == n
    ensures WhereCond(d, CondText(d, e), n) == Some(e)
  {
    CondTextRoundTrip(d, e);
    CondTextNonEmpty(d, e);
  }

  // ---- combining a start and a filter --------------------------------------------------------------------

  /** `(b) AND (f)`, one of them, or nothing. */
  function Combined(b: Option<string>, f: Option<string>): string {
    match (b, f)
    case (Some(x), Some(y)) => Parens(x) + " AND " + Parens(y)
    case (Some(x), None) => x
    case (None, Some(y)) => y
    case (None, None) => ""
  }

  /** The condition a combined text stands for; the filter's placeholders come after the start's. */
  function CombinedCond(start: Option<Cond>, k: nat, terms: seq<Term>): Cond {
    if start.None? then FilterCond(terms, k)
    else if terms == [] then start.value
    else Both(start.value, FilterCond(terms, k))
  }

  /** The start condition numbers its parameters from 0 and has one for each of `base`. */
  predicate StartOk(start: Option<Cond>, base: seq<SqlValue>) {
    match start
    case None => base == []
    case Some(e) => Numbered(e, 0) && CondArgs(e) == |base|
  }

  /** Whatever combination of start and filter is sent, the backend reads it as that combination. */
  lemma {:induction false} CombinedReads(d: Dialect, start: Option<Cond>, base: seq<SqlValue>, terms: seq<Term>,
                      b: Option<string>, f: Option<string>, params: seq<SqlValue>)
    requires StartOk(start, base) && params == base + TermVals(terms)
    requires (b.Some? <==> start.Some?) && (b.Some? ==> b.value == CondText(d, start.value))
    requires (f.Some? <==> terms != []) && (f.Some? ==> f.value == CondText(d, FilterCond(terms, |base|)))
    ensures WhereCond(d, Combined(b, f), |params|) == Some(CombinedCond(start, |base|, terms))
  {
    FilterNumbered(terms, |base|);
    if start.Some? && terms != [] {
      BothText(d, start.value, FilterCond(terms, |base|));
      BothNumbered(start.value, FilterCond(terms, |base|), 0);
    }
    if start.Some? || terms != [] {
      Accepted(d, CombinedCond(start, |base|, terms), |params|);
    }
  }

  /** It holds of the rows past the start that pass the filter. */
  lemma {:induction false} CombinedHolds(start: Option<Cond>, base: seq<SqlValue>, terms: seq<Term>, env: string -> SqlValue)
    requires StartOk(start, base)
    ensures CondHolds(CombinedCond(start, |base|, terms), env, base + TermVals(terms)) <==>
              (start.Some? ==> CondHolds(start.value, env, base)) && FilterHolds(terms, env)
  {
    var params := base + TermVals(terms);
    FilterSays(terms, |base|, env, params);
    if start.Some? {
      CondIgnoresLater(start.value, 0, env, base, TermVals(terms));
      BothHolds(start.value, FilterCond(terms, |base|), env, params);
    }
  }
}
