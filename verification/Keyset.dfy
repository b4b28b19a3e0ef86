/** The clauses the Get operations are compiled to: key search, continuation after a position,
    extended filters and sort lists. Each builder writes text and pushes parameters; the
    functions beside it name the condition that text is the rendering of. */
module Keyset {
  import opened Wrappers
  import opened SqlValues
  import opened SqlText
  import opened Schema

  /** A key column, the value it is compared with, and the segment's descending flag. */
  datatype KeyCol = KeyCol(col: string, val: SqlValue, desc: bool)

  /** One term of an extended filter, with the connector to the next term. */
  datatype Connector = AndNext | OrNext | End
  datatype Term = Term(col: string, cmp: Cmp, value: SqlValue, connector: Connector)

  // ---- conditions from lists ------------------------------------------------------------

  function ConjOf(ps: seq<Prim>): Conj
    requires ps != []
  {
    if |ps| == 1 then Last(ps[0]) else And(ps[0], ConjOf(ps[1..]))
  }

  function CondOf(cs: seq<Conj>): Cond
    requires cs != []
  {
    if |cs| == 1 then Only(cs[0]) else Or(cs[0], CondOf(cs[1..]))
  }

  function PrimTexts(d: Dialect, ps: seq<Prim>): (r: seq<string>)
    ensures |r| == |ps|
  {
    seq(|ps|, i requires 0 <= i < |ps| => PrimText(d, ps[i]))
  }

  function ConjTexts(d: Dialect, cs: seq<Conj>): (r: seq<string>)
    ensures |r| == |cs|
  {
    seq(|cs|, i requires 0 <= i < |cs| => ConjText(d, cs[i]))
  }

  lemma {:induction false} JoinAnd(d: Dialect, ps: seq<Prim>)
    requires ps != []
    ensures Join(PrimTexts(d, ps), " AND ") == ConjText(d, ConjOf(ps))
  {
    if |ps| > 1 {
      JoinAnd(d, ps[1..]);
      assert PrimTexts(d, ps)[1..] == PrimTexts(d, ps[1..]);
    }
  }

  lemma {:induction false} JoinOr(d: Dialect, cs: seq<Conj>)
    requires cs != []
    ensures Join(ConjTexts(d, cs), " OR ") == CondText(d, CondOf(cs))
  {
    if |cs| > 1 {
      JoinOr(d, cs[1..]);
      assert ConjTexts(d, cs)[1..] == ConjTexts(d, cs[1..]);
    }
  }

  /** `(p1 AND p2 AND ...)` as one conjunct. */
  function Group(ps: seq<Prim>): Conj
    requires ps != []
  {
    Last(Paren(Only(ConjOf(ps))))
  }

  lemma {:induction false} GroupText(d: Dialect, ps: seq<Prim>)
    requires ps != []
    ensures ConjText(d, Group(ps)) == Parens(Join(PrimTexts(d, ps), " AND "))
  {
    JoinAnd(d, ps);
    assert PrimText(d, Paren(Only(ConjOf(ps)))) == Parens(ConjText(d, ConjOf(ps)));
  }

  lemma {:induction false} PrimTextsAppend(d: Dialect, ps: seq<Prim>, p: Prim)
    ensures PrimTexts(d, ps + [p]) == PrimTexts(d, ps) + [PrimText(d, p)]
  {
  }

  lemma {:induction false} ConjTextsAppend(d: Dialect, cs: seq<Conj>, c: Conj)
    ensures ConjTexts(d, cs + [c]) == ConjTexts(d, cs) + [ConjText(d, c)]
  {
  }

  // ---- pieces common to key search and continuation -----------------------------------------

  function Vals(kc: seq<KeyCol>): (r: seq<SqlValue>)
    ensures |r| == |kc|
  {
    seq(|kc|, i requires 0 <= i < |kc| => kc[i].val)
  }

  /** `k1 = ?, k2 = ?, ...`, placeholders from `k` on. */
  function EqPrims(kc: seq<KeyCol>, k: nat): (r: seq<Prim>)
    ensures |r| == |kc|
  {
    seq(|kc|, i requires 0 <= i < |kc| => Compare(kc[i].col, Eq, k + i))
  }

  /** Equal on the first `i` columns, `cmp` on the next. */
  function ClausePrims(kc: seq<KeyCol>, i: nat, cmp: Cmp, k: nat): (r: seq<Prim>)
    requires i < |kc|
    ensures |r| == i + 1
  {
    EqPrims(kc[..i], k) + [Compare(kc[i].col, cmp, k + i)]
  }

  /** 1 + 2 + ... + i */
  function Tri(i: nat): nat {
    if i == 0 then 0 else Tri(i - 1) + i
  }

  lemma {:induction false} TriClosedForm(i: nat)
    ensures 2 * Tri(i) == i * (i + 1)
  {
    if i > 0 {
      TriClosedForm(i - 1);
    }
  }

  /** The parameters of the first `i` clauses. */
  function ClauseParams(kc: seq<KeyCol>, i: nat): (r: seq<SqlValue>)
    requires i <= |kc|
    ensures |r| == Tri(i)
  {
    if i == 0 then [] else ClauseParams(kc, i - 1) + Vals(kc[..i])
  }

  // ---- continuation ---------------------------------------------------------------------------

  function Forward(dir: int): bool {
    dir >= 0
  }

  function SegCmp(dir: int, desc: bool): Cmp {
    if Forward(dir) != desc then Gt else Lt
  }

  /** The first `i` clauses of the continuation. */
  function ContClauses(kc: seq<KeyCol>, i: nat, dir: int, k: nat): (r: seq<Conj>)
    requires i <= |kc|
    ensures |r| == i
  {
    seq(i, j requires 0 <= j < i => ContClause(kc, j, dir, k))
  }

  function ContClause(kc: seq<KeyCol>, j: nat, dir: int, k: nat): Conj
    requires j < |kc|
  {
    Group(ClausePrims(kc, j, SegCmp(dir, kc[j].desc), k + Tri(j)))
  }

  /** Equal on every key column, beyond on the record number. */
  function TiePrims(kc: seq<KeyCol>, dir: int, rc: string, k: nat): (r: seq<Prim>)
    ensures |r| == |kc| + 1
  {
    EqPrims(kc, k) + [Compare(rc, SegCmp(dir, false), k + |kc|)]
  }

  function ContCond(kc: seq<KeyCol>, dir: int, rc: string, k: nat): Cond {
    if kc == [] then Only(Last(Compare(rc, SegCmp(dir, false), k)))
    else CondOf(ContClauses(kc, |kc|, dir, k) + [Group(TiePrims(kc, dir, rc, k + Tri(|kc|)))])
  }

  function ContParams(kc: seq<KeyCol>, rn: int): (r: seq<SqlValue>)
    ensures |r| == Tri(|kc| + 1)
  {
    ClauseParams(kc, |kc|) + Vals(kc) + [I64(rn)]
  }

  /** `push_param`: append a value, return its placeholder. */
  method PushParam(d: Dialect, params: seq<SqlValue>, v: SqlValue) returns (marker: string, params': seq<SqlValue>)
    ensures params' == params + [v] && marker == ParamMarker(d, |params| + 1)
  {
    params' := params + [v];
    marker := ParamMarker(d, |params'|);
  }

  lemma {:induction false} EqPrimsAppend(kc: seq<KeyCol>, j: nat, k: nat)
    requires j < |kc|
    ensures EqPrims(kc[..j + 1], k) == EqPrims(kc[..j], k) + [Compare(kc[j].col, Eq, k + j)]
    ensures Vals(kc[..j + 1]) == Vals(kc[..j]) + [kc[j].val]
  {
  }

  method AddEqPart(d: Dialect, kc: seq<KeyCol>, j: nat, ghost k: nat, parts: seq<string>, params: seq<SqlValue>)
    returns (parts': seq<string>, params': seq<SqlValue>)
    requires j < |kc| && |params| == k + j && parts == PrimTexts(d, EqPrims(kc[..j], k))
    ensures parts' == PrimTexts(d, EqPrims(kc[..j + 1], k)) && params' == params + [kc[j].val]
  {
    var m;
    EqPrimsAppend(kc, j, k);
    PrimTextsAppend(d, EqPrims(kc[..j], k), Compare(kc[j].col, Eq, k + j));
    m, params' := PushParam(d, params, kc[j].val);
    parts' := parts + [Spaced(QuoteIdent(d, kc[j].col), "=", m)];
  }

  method EqParts(d: Dialect, kc: seq<KeyCol>, params: seq<SqlValue>)
    returns (parts: seq<string>, params': seq<SqlValue>)
    ensures parts == PrimTexts(d, EqPrims(kc, |params|))
    ensures params' == params + Vals(kc)
  {
    parts, params' := [], params;
    for j := 0 to |kc|
      invariant parts == PrimTexts(d, EqPrims(kc[..j], |params|))
      invariant params' == params + Vals(kc[..j])
    {
      parts, params' := AddEqPart(d, kc, j, |params|, parts, params');
      assert Vals(kc[..j + 1]) == Vals(kc[..j]) + [kc[j].val];
    }
    assert kc[..|kc|] == kc;
  }

  /** Clause `i`: equal on the columns before it, `cmp` on its own. */
  method BuildClause(d: Dialect, kc: seq<KeyCol>, i: nat, cmp: Cmp, params: seq<SqlValue>)
    returns (clause: string, params': seq<SqlValue>)
    requires i < |kc|
    ensures clause == ConjText(d, Group(ClausePrims(kc, i, cmp, |params|)))
    ensures params' == params + Vals(kc[..i + 1])
  {
    var parts, m;
    parts, params' := EqParts(d, kc[..i], params);
    m, params' := PushParam(d, params', kc[i].val);
    assert params' == params + Vals(kc[..i + 1]);
    parts := parts + [Spaced(QuoteIdent(d, kc[i].col), CmpText(cmp), m)];
    assert parts == PrimTexts(d, ClausePrims(kc, i, cmp, |params|)) by {
      PrimTextsAppend(d, EqPrims(kc[..i], |params|), Compare(kc[i].col, cmp, |params| + i));
      EqPrimsAppend(kc, i, |params|);
    }
    GroupText(d, ClausePrims(kc, i, cmp, |params|));
    clause := Parens(Join(parts, " AND "));
  }

  lemma {:induction false} ContClausesAppend(kc: seq<KeyCol>, i: nat, dir: int, k: nat)
    requires i < |kc|
    ensures ContClauses(kc, i + 1, dir, k) == ContClauses(kc, i, dir, k) + [ContClause(kc, i, dir, k)]
  {
  }

  /** The clauses of the continuation that stop at each key column in turn. */
  method BuildContClauses(d: Dialect, kc: seq<KeyCol>, dir: int, params: seq<SqlValue>)
    returns (clauses: seq<string>, params': seq<SqlValue>)
    ensures clauses == ConjTexts(d, ContClauses(kc, |kc|, dir, |params|))
    ensures params' == params + ClauseParams(kc, |kc|)
  {
    clauses, params' := [], params;
    for i := 0 to |kc|
      invariant clauses == ConjTexts(d, ContClauses(kc, i, dir, |params|))
      invariant params' == params + ClauseParams(kc, i)
    {
      var clause;
      clause, params' := BuildClause(d, kc, i, SegCmp(dir, kc[i].desc), params');
      clauses := clauses + [clause];
      ConjTextsAppend(d, ContClauses(kc, i, dir, |params|), ContClause(kc, i, dir, |params|));
      ContClausesAppend(kc, i, dir, |params|);
    }
  }

  /** The clause for rows whose key ties: decided by the record number. */
  method BuildTie(d: Dialect, kc: seq<KeyCol>, dir: int, lastRn: int, rc: string, params: seq<SqlValue>)
    returns (clause: string, params': seq<SqlValue>)
    ensures clause == ConjText(d, Group(TiePrims(kc, dir, rc, |params|)))
    ensures params' == params + Vals(kc) + [I64(lastRn)]
  {
    var parts, m;
    parts, params' := EqParts(d, kc, params);
    m, params' := PushParam(d, params', I64(lastRn));
    parts := parts + [Spaced(QuoteIdent(d, rc), CmpText(SegCmp(dir, false)), m)];
    PrimTextsAppend(d, EqPrims(kc, |params|), Compare(rc, SegCmp(dir, false), |params| + |kc|));
    GroupText(d, TiePrims(kc, dir, rc, |params|));
    clause := Parens(Join(parts, " AND "));
  }

  method BuildContinuationWhere(d: Dialect, kc: seq<KeyCol>, dir: int, lastRn: int, rc: string, params: seq<SqlValue>)
    returns (text: string, params': seq<SqlValue>)
    ensures text == CondText(d, ContCond(kc, dir, rc, |params|))
    ensures params' == params + ContParams(kc, lastRn)
  {
    if kc == [] {
      var m;
      m, params' := PushParam(d, params, I64(lastRn));
      text := Spaced(QuoteIdent(d, rc), CmpText(SegCmp(dir, false)), m);
      assert text == PrimText(d, Compare(rc, SegCmp(dir, false), |params|));
      assert text == ConjText(d, Last(Compare(rc, SegCmp(dir, false), |params|)));
      return;
    }
    var clauses, tie;
    clauses, params' := BuildContClauses(d, kc, dir, params);
    ghost var k := |params'|;
    tie, params' := BuildTie(d, kc, dir, lastRn, rc, params');
    text := Join(clauses + [tie], " OR ");
    ghost var cs := ContClauses(kc, |kc|, dir, |params|);
    ConjTextsAppend(d, cs, Group(TiePrims(kc, dir, rc, k)));
    JoinOr(d, cs + [Group(TiePrims(kc, dir, rc, k))]);
  }

  // ---- key search -------------------------------------------------------------------------------

  /** The comparison all but the last column of an inequality use. */
  function StrictCmp(cmp: Cmp): Cmp {
    if cmp == Ge || cmp == Gt then Gt else Lt
  }

  function KeyClauses(kc: seq<KeyCol>, i: nat, cmp: Cmp, k: nat): (r: seq<Conj>)
    requires i <= |kc|
    ensures |r| == i
  {
    seq(i, j requires 0 <= j < i => KeyClause(kc, j, cmp, k))
  }

  function KeyClause(kc: seq<KeyCol>, j: nat, cmp: Cmp, k: nat): Conj
    requires j < |kc|
  {
    Group(ClausePrims(kc, j, if j == |kc| - 1 then cmp else StrictCmp(cmp), k + Tri(j)))
  }

  function KeyCond(kc: seq<KeyCol>, cmp: Cmp, k: nat): Cond {
    if kc == [] then Only(Last(OneIsOne))
    else if cmp == Eq then Only(ConjOf(EqPrims(kc, k)))
    else CondOf(KeyClauses(kc, |kc|, cmp, k))
  }

  function KeyParams(kc: seq<KeyCol>, cmp: Cmp): (r: seq<SqlValue>)
    ensures |r| == if cmp == Eq then |kc| else Tri(|kc|)
  {
    if cmp == Eq then Vals(kc) else ClauseParams(kc, |kc|)
  }

  lemma {:induction false} KeyClausesAppend(kc: seq<KeyCol>, i: nat, cmp: Cmp, k: nat)
    requires i < |kc|
    ensures KeyClauses(kc, i + 1, cmp, k) == KeyClauses(kc, i, cmp, k) + [KeyClause(kc, i, cmp, k)]
  {
  }

  method BuildKeyClauses(d: Dialect, kc: seq<KeyCol>, cmp: Cmp, params: seq<SqlValue>)
    returns (clauses: seq<string>, params': seq<SqlValue>)
    ensures clauses == ConjTexts(d, KeyClauses(kc, |kc|, cmp, |params|))
    ensures params' == params + ClauseParams(kc, |kc|)
  {
    clauses, params' := [], params;
    for i := 0 to |kc|
      invariant clauses == ConjTexts(d, KeyClauses(kc, i, cmp, |params|))
      invariant params' == params + ClauseParams(kc, i)
    {
      var clause;
      clause, params' := BuildKeyClause(d, kc, i, cmp, |params|, params');
      assert params' == params + ClauseParams(kc, i + 1) by {
        Regroup(params, ClauseParams(kc, i), Vals(kc[..i + 1]));
      }
      assert clauses + [clause] == ConjTexts(d, KeyClauses(kc, i + 1, cmp, |params|)) by {
        ConjTextsAppend(d, KeyClauses(kc, i, cmp, |params|), KeyClause(kc, i, cmp, |params|));
        KeyClausesAppend(kc, i, cmp, |params|);
      }
      clauses := clauses + [clause];
    }
  }

  method BuildKeyClause(d: Dialect, kc: seq<KeyCol>, i: nat, cmp: Cmp, k: nat, params: seq<SqlValue>)
    returns (clause: string, params': seq<SqlValue>)
    requires i < |kc| && |params| == k + Tri(i)
    ensures clause == ConjText(d, KeyClause(kc, i, cmp, k))
    ensures params' == params + Vals(kc[..i + 1])
  {
    clause, params' := BuildClause(d, kc, i, if i == |kc| - 1 then cmp else StrictCmp(cmp), params);
  }

  method BuildKeyWhere(d: Dialect, kc: seq<KeyCol>, cmp: Cmp, params: seq<SqlValue>)
    returns (text: string, params': seq<SqlValue>)
    ensures text == CondText(d, KeyCond(kc, cmp, |params|))
    ensures params' == params + KeyParams(kc, cmp)
  {
    if kc == [] {
      return "1=1", params;
    }
    var parts;
    if cmp == Eq {
      parts, params' := EqParts(d, kc, params);
      JoinAnd(d, EqPrims(kc, |params|));
      text := Join(parts, " AND ");
    } else {
      parts, params' := BuildKeyClauses(d, kc, cmp, params);
      JoinOr(d, KeyClauses(kc, |kc|, cmp, |params|));
      text := Join(parts, " OR ");
    }
  }

  // ---- sort lists -----------------------------------------------------------------------------

  function RefItems(refs: seq<ColRef>, dir: int): (r: seq<SortItem>)
    ensures |r| == |refs|
  {
    seq(|refs|, i requires 0 <= i < |refs| => SortItem(refs[i].col, Forward(dir) != refs[i].desc))
  }

  function OrderItemsOf(refs: seq<ColRef>, dir: int, tieBreak: bool, rc: string): (r: seq<SortItem>)
    ensures r != []
  {
    RefItems(refs, dir) + (if refs == [] || tieBreak then [SortItem(rc, Forward(dir))] else [])
  }

  method BuildOrderByCols(d: Dialect, refs: seq<ColRef>, dir: int, tieBreak: bool, rc: string)
    returns (text: string)
    ensures text == SortText(d, OrderItemsOf(refs, dir, tieBreak, rc))
  {
    var forward := dir >= 0;
    var parts: seq<string> := [];
    for i := 0 to |refs|
      invariant |parts| == i && forall j :: 0 <= j < i ==> parts[j] == ItemText(d, RefItems(refs, dir)[j])
    {
      var sqlAsc := if refs[i].desc then !forward else forward;
      var part := QuoteIdent(d, refs[i].col) + " " + (if sqlAsc then "ASC" else "DESC");
      assert part == ItemText(d, RefItems(refs, dir)[i]);
      parts := parts + [part];
    }
    if parts == [] || tieBreak {
      var part := QuoteIdent(d, rc) + " " + (if forward then "ASC" else "DESC");
      assert part == ItemText(d, SortItem(rc, Forward(dir)));
      parts := parts + [part];
    }
    assert parts == ItemTexts(d, OrderItemsOf(refs, dir, tieBreak, rc));
    text := Join(parts, ", ");
  }

  // ---- extended filters --------------------------------------------------------------------------

  function TermPrims(terms: seq<Term>, k: nat): (r: seq<Prim>)
    ensures |r| == |terms|
  {
    seq(|terms|, i requires 0 <= i < |terms| => Compare(terms[i].col, terms[i].cmp, k + i))
  }

  function TermVals(terms: seq<Term>): (r: seq<SqlValue>)
    ensures |r| == |terms|
  {
    seq(|terms|, i requires 0 <= i < |terms| => terms[i].value)
  }

  /** Split at each OR connector; `done` holds the finished groups and `cur` the one being filled. */
  function GroupsFrom(terms: seq<Term>, k: nat, done: seq<seq<Prim>>, cur: seq<Prim>): seq<seq<Prim>> {
    if terms == [] then done + [cur]
    else
      var p := Compare(terms[0].col, terms[0].cmp, k);
      if terms[0].connector == OrNext then GroupsFrom(terms[1..], k + 1, done + [cur + [p]], [])
      else GroupsFrom(terms[1..], k + 1, done, cur + [p])
  }

  /** A group of one term is written bare, a longer one in parentheses. */
  function GroupConj(g: seq<Prim>): Conj
    requires g != []
  {
    if |g| == 1 then Last(g[0]) else Group(g)
  }

  /** An empty group is left out. */
  function GroupConjs(groups: seq<seq<Prim>>): seq<Conj> {
    if groups == [] then []
    else if groups[0] == [] then GroupConjs(groups[1..])
    else [GroupConj(groups[0])] + GroupConjs(groups[1..])
  }

  function FilterConjs(terms: seq<Term>, k: nat): seq<Conj> {
    GroupConjs(GroupsFrom(terms, k, [], []))
  }

  lemma {:induction false} GroupConjsNonEmpty(groups: seq<seq<Prim>>, i: nat)
    requires i < |groups| && groups[i] != []
    ensures GroupConjs(groups) != []
  {
    if groups[0] == [] {
      GroupConjsNonEmpty(groups[1..], i - 1);
    }
  }

  lemma {:induction false} FilterNonEmpty(terms: seq<Term>, k: nat, done: seq<seq<Prim>>, cur: seq<Prim>)
    requires terms != [] || cur != [] || (exists i :: 0 <= i < |done| && done[i] != [])
    ensures GroupConjs(GroupsFrom(terms, k, done, cur)) != []
  {
    if terms == [] {
      if cur != [] {
        GroupConjsNonEmpty(done + [cur], |done|);
      } else {
        var i :| 0 <= i < |done| && done[i] != [];
        assert (done + [cur])[i] == done[i];
        GroupConjsNonEmpty(done + [cur], i);
      }
    } else {
      var p := Compare(terms[0].col, terms[0].cmp, k);
      if terms[0].connector == OrNext {
        assert (done + [cur + [p]])[|done|] == cur + [p];
        FilterNonEmpty(terms[1..], k + 1, done + [cur + [p]], []);
      } else {
        FilterNonEmpty(terms[1..], k + 1, done, cur + [p]);
      }
    }
  }

  function FilterCond(terms: seq<Term>, k: nat): Cond {
    if terms == [] then Only(Last(OneIsOne))
    else
      FilterNonEmpty(terms, k, [], []);
      CondOf(FilterConjs(terms, k))
  }

  function GroupTexts(d: Dialect, groups: seq<seq<Prim>>): (r: seq<seq<string>>)
    ensures |r| == |groups|
  {
    seq(|groups|, i requires 0 <= i < |groups| => PrimTexts(d, groups[i]))
  }

  /** One more term joins the group being filled, and closes it when an OR follows. */
  lemma {:induction false} SplitStep(d: Dialect, terms: seq<Term>, k: nat, i: nat, done: seq<seq<string>>, cur: seq<string>,
                                     gDone: seq<seq<Prim>>, gCur: seq<Prim>, p: Prim)
    requires i < |terms| && p == Compare(terms[i].col, terms[i].cmp, k + i)
    requires done == GroupTexts(d, gDone) && cur == PrimTexts(d, gCur)
    ensures cur + [PrimText(d, p)] == PrimTexts(d, gCur + [p])
    ensures done + [cur + [PrimText(d, p)]] == GroupTexts(d, gDone + [gCur + [p]])
    ensures GroupsFrom(terms[i..], k + i, gDone, gCur)
         == if terms[i].connector == OrNext then GroupsFrom(terms[i + 1..], k + i + 1, gDone + [gCur + [p]], [])
            else GroupsFrom(terms[i + 1..], k + i + 1, gDone, gCur + [p])
  {
    PrimTextsAppend(d, gCur, p);
    GroupTextsAppend(d, gDone, gCur + [p]);
    assert terms[i..][1..] == terms[i + 1..];
  }

  /** Splitting the terms into groups, on text. */
  method SplitTerms(d: Dialect, terms: seq<Term>, params: seq<SqlValue>)
    returns (groups: seq<seq<string>>, params': seq<SqlValue>)
    ensures groups == GroupTexts(d, GroupsFrom(terms, |params|, [], []))
    ensures params' == params + TermVals(terms)
  {
    params' := params;
    var done: seq<seq<string>>, cur: seq<string> := [], [];
    ghost var gDone: seq<seq<Prim>>, gCur: seq<Prim> := [], [];
    for i := 0 to |terms|
      invariant params' == params + TermVals(terms)[..i]
      invariant done == GroupTexts(d, gDone) && cur == PrimTexts(d, gCur)
      invariant GroupsFrom(terms, |params|, [], []) == GroupsFrom(terms[i..], |params| + i, gDone, gCur)
    {
      var t, marker := terms[i], "";
      marker, params' := PushParam(d, params', t.value);
      ghost var p := Compare(t.col, t.cmp, |params| + i);
      SplitStep(d, terms, |params|, i, done, cur, gDone, gCur, p);
      cur := cur + [Spaced(QuoteIdent(d, t.col), CmpText(t.cmp), marker)];
      gCur := gCur + [p];
      if t.connector == OrNext {
        done, cur := done + [cur], [];
        gDone, gCur := gDone + [gCur], [];
      }
    }
    assert terms[|terms|..] == [];
    GroupTextsAppend(d, gDone, gCur);
    groups := done + [cur];
  }

  lemma {:induction false} GroupTextsAppend(d: Dialect, groups: seq<seq<Prim>>, g: seq<Prim>)
    ensures GroupTexts(d, groups + [g]) == GroupTexts(d, groups) + [PrimTexts(d, g)]
  {
  }

  lemma {:induction false} ConjTextsPrepend(d: Dialect, c: Conj, cs: seq<Conj>)
    ensures ConjTexts(d, [c] + cs) == [ConjText(d, c)] + ConjTexts(d, cs)
  {
  }

  /** The texts so far and those of the groups left make up the whole. */
  ghost predicate Rendered(d: Dialect, gs: seq<seq<Prim>>, parts: seq<string>, left: seq<seq<Prim>>) {
    ConjTexts(d, GroupConjs(gs)) == parts + ConjTexts(d, GroupConjs(left))
  }

  lemma {:induction false} GroupStep(d: Dialect, gs: seq<seq<Prim>>, parts: seq<string>, left: seq<seq<Prim>>)
    requires left != [] && Rendered(d, gs, parts, left)
    ensures Rendered(d, gs, parts + (if left[0] == [] then [] else [ConjText(d, GroupConj(left[0]))]), left[1..])
  {
    if left[0] == [] {
      assert parts + [] == parts;
    } else {
      var c, rest := GroupConj(left[0]), GroupConjs(left[1..]);
      ConjTextsPrepend(d, c, rest);
      assert parts + ([ConjText(d, c)] + ConjTexts(d, rest)) == parts + [ConjText(d, c)] + ConjTexts(d, rest);
    }
  }

  /** The text of a group, if it has one. */
  method RenderGroup(d: Dialect, group: seq<string>, ghost gs: seq<seq<Prim>>, parts: seq<string>, ghost left: seq<seq<Prim>>)
    returns (parts': seq<string>)
    requires left != [] && group == PrimTexts(d, left[0]) && Rendered(d, gs, parts, left)
    ensures Rendered(d, gs, parts', left[1..])
  {
    parts' := parts;
    GroupStep(d, gs, parts, left);
    if group != [] {
      var part;
      if |group| == 1 {
        part := group[0];
      } else {
        GroupText(d, left[0]);
        part := Parens(Join(group, " AND "));
      }
      assert part == ConjText(d, GroupConj(left[0]));
      parts' := parts + [part];
    } else {
      assert parts + [] == parts;
    }
  }

  /** One text per non-empty group. */
  method RenderGroups(d: Dialect, groups: seq<seq<string>>, ghost gs: seq<seq<Prim>>) returns (parts: seq<string>)
    requires groups == GroupTexts(d, gs)
    ensures parts == ConjTexts(d, GroupConjs(gs))
  {
    parts := [];
    for i := 0 to |groups|
      invariant Rendered(d, gs, parts, gs[i..])
    {
      parts := RenderGroup(d, groups[i], gs, parts, gs[i..]);
      assert gs[i..][1..] == gs[i + 1..];
    }
    assert gs[|groups|..] == [];
  }

  method BuildFilterWhere(d: Dialect, terms: seq<Term>, params: seq<SqlValue>)
    returns (text: string, params': seq<SqlValue>)
    ensures text == CondText(d, FilterCond(terms, |params|))
    ensures params' == params + TermVals(terms)
  {
    if terms == [] {
      return "1=1", params;
    }
    var groups, parts;
    groups, params' := SplitTerms(d, terms, params);
    parts := RenderGroups(d, groups, GroupsFrom(terms, |params|, [], []));
    FilterNonEmpty(terms, |params|, [], []);
    JoinOr(d, FilterConjs(terms, |params|));
    text := Join(parts, " OR ");
  }
}
