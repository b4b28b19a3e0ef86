/** The descriptor an extended operation is called with, and the reply it writes. */
module Descriptor {
  import opened Wrappers
  import opened Bytes
  import opened SqlValues
  import opened Schema
  import opened RecordCodec
  import opened Keyset

  // ---- filter terms --------------------------------------------------------------------------------

  function CmpForCode(code: byte): Option<Cmp> {
    if code == 0 then Some(Eq)
    else if code == 1 then Some(Gt)
    else if code == 2 then Some(Ge)
    else if code == 3 then Some(Lt)
    else if code == 4 then Some(Le)
    else if code == 5 then Some(Ne)
    else None
  }

  /** The field that starts at a byte offset (compared as 16-bit numbers). */
  function StartsAt(fields: seq<IntField>, offset: nat): Option<IntField> {
    if fields == [] then None
    else if fields[0].offset % 0x1_0000 == offset then Some(fields[0])
    else StartsAt(fields[1..], offset)
  }

  function Covering(fields: seq<IntField>, offset: nat): Option<IntField> {
    if fields == [] then None
    else if fields[0].offset <= offset < fields[0].offset + fields[0].length then Some(fields[0])
    else Covering(fields[1..], offset)
  }

  function FieldAtOffset(fields: seq<IntField>, offset: nat): Option<IntField> {
    match StartsAt(fields, offset)
    case Some(f) => Some(f)
    case None => Covering(fields, offset)
  }

  /** A term's bytes read as the leading part of its field, the rest zero. */
  function DecodeTermValue(f: IntField, b: seq<byte>): SqlValue {
    var n := Min(|b|, f.length);
    DecodeField(f, b[..n] + Zeros(f.length - n))
  }

  function U16(b: seq<byte>, at: nat): nat
    requires at + 2 <= |b|
  {
    LeNat(b[at..at + 2])
  }

  function ConnectorOf(b: byte, isLast: bool): Connector {
    if isLast then End else if b == 1 then AndNext else if b == 2 then OrNext else End
  }

  /** A term as it stands in the buffer. */
  datatype RawTerm = RawTerm(fieldType: byte, offset: nat, cmpCode: byte, connector: byte, value: seq<byte>)

  /** The term at the head of `b`. */
  function FirstRaw(b: seq<byte>): (r: Option<RawTerm>)
    ensures r.Some? ==> 7 + |r.value.value| <= |b|
  {
    if |b| < 7 then None
    else
      var len := U16(b, 1);
      if 7 + len > |b| then None
      else Some(RawTerm(b[0], U16(b, 3), b[5], b[6], b[7..7 + len]))
  }

  function TermSize(t: RawTerm): nat {
    7 + |t.value|
  }

  /** `n` terms at the head of `b`, and their size. */
  function RawTerms(b: seq<byte>, n: nat): (r: Option<(seq<RawTerm>, nat)>)
    ensures r.Some? ==> r.value.1 <= |b| && |r.value.0| == n
    decreases n
  {
    if n == 0 then Some(([], 0))
    else
      match FirstRaw(b)
      case None => None
      case Some(t) =>
        match RawTerms(b[TermSize(t)..], n - 1)
        case None => None
        case Some((ts, more)) => Some(([t] + ts, TermSize(t) + more))
  }

  /** The comparison code is known and some field lies at the offset. */
  predicate Resolvable(fields: seq<IntField>, t: RawTerm) {
    CmpForCode(t.cmpCode).Some? && FieldAtOffset(fields, t.offset).Some?
  }

  function Resolve(fields: seq<IntField>, t: RawTerm, isLast: bool): Term
    requires Resolvable(fields, t)
  {
    var f := FieldAtOffset(fields, t.offset).value;
    Term(f.name, CmpForCode(t.cmpCode).value, DecodeTermValue(f, t.value), ConnectorOf(t.connector, isLast))
  }

  predicate AllResolvable(fields: seq<IntField>, ts: seq<RawTerm>) {
    forall i :: 0 <= i < |ts| ==> Resolvable(fields, ts[i])
  }

  /** The first terms of `n`, resolved; the last of the `n` ends the chain. */
  function ResolveAll(fields: seq<IntField>, ts: seq<RawTerm>, n: nat): (r: seq<Term>)
    requires AllResolvable(fields, ts)
    ensures |r| == |ts|
  {
    seq(|ts|, i requires 0 <= i < |ts| => Resolve(fields, ts[i], i + 1 == n))
  }

  /** `n` terms with their columns and values, and their size. */
  function Terms(fields: seq<IntField>, b: seq<byte>, n: nat): Option<(seq<Term>, nat)> {
    match RawTerms(b, n)
    case None => None
    case Some((ts, size)) =>
      if AllResolvable(fields, ts) then Some((ResolveAll(fields, ts, n), size)) else None
  }

  /** The term at byte `off`. */
  method ParseRaw(desc: seq<byte>, off: nat) returns (res: Option<RawTerm>)
    requires off <= |desc|
    ensures res == FirstRaw(desc[off..])
  {
    if off + 7 > |desc| {
      return None;
    }
    ghost var b := desc[off..];
    assert b[1..3] == desc[off + 1..off + 3] && b[3..5] == desc[off + 3..off + 5];
    var fieldLen, fieldOff := U16(desc, off + 1), U16(desc, off + 3);
    var valueStart := off + 7;
    if valueStart + fieldLen > |desc| {
      return None;
    }
    assert b[7..7 + fieldLen] == desc[valueStart..valueStart + fieldLen];
    res := Some(RawTerm(desc[off], fieldOff, desc[off + 5], desc[off + 6], desc[valueStart..valueStart + fieldLen]));
  }

  /** The next term of a list of `n`, and where the one after it starts; None when the list cannot be read. */
  method NextRaw(desc: seq<byte>, off: nat, ghost start: nat, ghost n: nat, ghost raws: seq<RawTerm>)
    returns (res: Option<RawTerm>, off': nat, ghost raws': seq<RawTerm>)
    requires start <= off <= |desc| && |raws| < n && Continues(desc, start, n, raws, off)
    ensures off <= off' <= |desc|
    ensures match res
            case None => RawTerms(desc[start..], n) == None
            case Some(t) => raws' == raws + [t] && Continues(desc, start, n, raws', off')
  {
    res := ParseRaw(desc, off);
    off', raws' := off, raws;
    if res.Some? {
      ContinuesPast(desc, start, n, raws, off, res.value, off + TermSize(res.value));
      off', raws' := off + TermSize(res.value), raws + [res.value];
    } else {
      ContinuesNowhere(desc, start, n, raws, off);
    }
  }

  /** `parse_filter_terms`; every byte it reads lies inside the buffer. */
  method ParseFilterTerms(fields: seq<IntField>, desc: seq<byte>, start: nat, n: nat)
    returns (res: Option<(seq<Term>, nat)>)
    requires start <= |desc| && NoFloats(fields)
    ensures match Terms(fields, desc[start..], n)
            case None => res == None
            case Some((ts, size)) => res == Some((ts, start + size))
  {
    var off: nat := start;
    var terms: seq<Term> := [];
    ghost var raws: seq<RawTerm> := [];
    ContinuesStart(desc, start, n);
    for i := 0 to n
      invariant start <= off <= |desc| && |raws| == i
      invariant AllResolvable(fields, raws) && terms == ResolveAll(fields, raws, n)
      invariant Continues(desc, start, n, raws, off)
    {
      ghost var before := raws;
      var raw;
      raw, off, raws := NextRaw(desc, off, start, n, raws);
      if raw.None? {
        return None;
      }
      var term := ResolveTerm(fields, raw.value, i + 1 == n);
      if term.None? {
        UnresolvableFails(fields, desc, start, n, before, raw.value, off);
        return None;
      }
      ResolveAppend(fields, before, raw.value, n);
      terms := terms + [term.value];
    }
    AllContinued(desc, start, n, raws, off);
    res := Some((terms, off));
  }

  method ResolveTerm(fields: seq<IntField>, t: RawTerm, last: bool) returns (res: Option<Term>)
    requires NoFloats(fields)
    ensures res == if Resolvable(fields, t) then Some(Resolve(fields, t, last)) else None
  {
    var cmp := CmpForCode(t.cmpCode);
    var field := FieldAtOffset(fields, t.offset);
    if cmp.None? || field.None? {
      return None;
    }
    res := Some(Term(field.value.name, cmp.value, DecodeTermValue(field.value, t.value), ConnectorOf(t.connector, last)));
  }

  lemma {:induction false} AllContinued(desc: seq<byte>, start: nat, n: nat, raws: seq<RawTerm>, off: nat)
    requires start <= off <= |desc| && |raws| == n && Continues(desc, start, n, raws, off)
    ensures RawTerms(desc[start..], n) == Some((raws, off - start))
  {
    assert raws + [] == raws;
  }

  /** Having read `raws` from the first `used` bytes, the whole is these and what the rest gives. */
  predicate MadeUp(whole: Option<(seq<RawTerm>, nat)>, rest: Option<(seq<RawTerm>, nat)>, raws: seq<RawTerm>, used: nat) {
    match rest
    case None => whole == None
    case Some((ts, size)) => whole == Some((raws + ts, used + size))
  }

  /** Having read `raws`, what is left to read starts at byte `off`. */
  ghost predicate Continues(desc: seq<byte>, start: nat, n: nat, raws: seq<RawTerm>, off: nat)
    requires start <= off <= |desc| && |raws| <= n
  {
    MadeUp(RawTerms(desc[start..], n), RawTerms(desc[off..], n - |raws|), raws, off - start)
  }

  lemma {:induction false} ContinuesStart(desc: seq<byte>, start: nat, n: nat)
    requires start <= |desc|
    ensures Continues(desc, start, n, [], start)
  {
    match RawTerms(desc[start..], n)
    case None =>
    case Some((ts, _)) => assert [] + ts == ts;
  }

  lemma {:induction false} ContinuesNowhere(desc: seq<byte>, start: nat, n: nat, raws: seq<RawTerm>, off: nat)
    requires start <= off <= |desc| && |raws| < n && Continues(desc, start, n, raws, off) && FirstRaw(desc[off..]) == None
    ensures RawTerms(desc[start..], n) == None
  {
  }

  /** A list with one more term at its head. */
  function Prepended(t: RawTerm, more: Option<(seq<RawTerm>, nat)>): Option<(seq<RawTerm>, nat)> {
    match more
    case None => None
    case Some((ts, size)) => Some(([t] + ts, TermSize(t) + size))
  }

  lemma {:induction false} MadeUpStep(whole: Option<(seq<RawTerm>, nat)>, rest: Option<(seq<RawTerm>, nat)>,
                                      raws: seq<RawTerm>, used: nat, t: RawTerm)
    requires MadeUp(whole, Prepended(t, rest), raws, used)
    ensures MadeUp(whole, rest, raws + [t], used + TermSize(t))
  {
    match rest
    case None =>
    case Some((ts, size)) => assert raws + ([t] + ts) == raws + [t] + ts;
  }

  lemma {:induction false} RawTermsHead(b: seq<byte>, n: nat, t: RawTerm)
    requires n > 0 && FirstRaw(b) == Some(t)
    ensures RawTerms(b, n) == Prepended(t, RawTerms(b[TermSize(t)..], n - 1))
  {
  }

  lemma {:induction false} ContinuesPast(desc: seq<byte>, start: nat, n: nat, raws: seq<RawTerm>, off: nat, t: RawTerm, next: nat)
    requires start <= off <= |desc| && |raws| < n && Continues(desc, start, n, raws, off)
    requires FirstRaw(desc[off..]) == Some(t) && next == off + TermSize(t)
    ensures next <= |desc| && Continues(desc, start, n, raws + [t], next)
  {
    assert desc[off..][TermSize(t)..] == desc[next..];
    MadeUpPast(desc[off..], desc[next..], n - |raws|, t, RawTerms(desc[start..], n), raws, off - start);
    assert n - |raws + [t]| == n - |raws| - 1;
  }

  lemma {:induction false} MadeUpPast(b: seq<byte>, c: seq<byte>, n: nat, t: RawTerm,
                                      whole: Option<(seq<RawTerm>, nat)>, raws: seq<RawTerm>, used: nat)
    requires n > 0 && FirstRaw(b) == Some(t) && c == b[TermSize(t)..] && MadeUp(whole, RawTerms(b, n), raws, used)
    ensures MadeUp(whole, RawTerms(c, n - 1), raws + [t], used + TermSize(t))
  {
    RawTermsHead(b, n, t);
    MadeUpStep(whole, RawTerms(c, n - 1), raws, used, t);
  }

  lemma {:induction false} UnresolvableFails(fields: seq<IntField>, desc: seq<byte>, start: nat, n: nat, raws: seq<RawTerm>, t: RawTerm, off: nat)
    requires start <= off <= |desc| && |raws| < n && Continues(desc, start, n, raws + [t], off)
    requires !Resolvable(fields, t)
    ensures Terms(fields, desc[start..], n) == None
  {
    if RawTerms(desc[start..], n).Some? {
      var ts := RawTerms(desc[start..], n).value.0;
      assert ts[|raws|] == t;
    }
  }

  lemma {:induction false} ResolveAppend(fields: seq<IntField>, ts: seq<RawTerm>, t: RawTerm, n: nat)
    requires AllResolvable(fields, ts) && Resolvable(fields, t)
    ensures AllResolvable(fields, ts + [t])
    ensures ResolveAll(fields, ts + [t], n) == ResolveAll(fields, ts, n) + [Resolve(fields, t, |ts| + 1 == n)]
  {
  }

  // ---- the whole descriptor --------------------------------------------------------------------------

  /** A field piece to return: length and offset. */
  datatype Extract = Extract(len: nat, off: nat)

  datatype Gne = Gne(descriptionLen: nat, currency: byte, rejectCount: nat, numberTerms: nat, maxRecs: nat,
                     extracts: seq<Extract>, terms: seq<Term>)

  function Extracts(b: seq<byte>, n: nat): (r: Option<seq<Extract>>)
    ensures r.Some? ==> |r.value| == n && 4 * n <= |b|
    decreases n
  {
    if n == 0 then Some([])
    else if |b| < 4 then None
    else
      match Extracts(b[4..], n - 1)
      case None => None
      case Some(es) => Some([Extract(U16(b, 0), U16(b, 2))] + es)
  }

  /** What `parse_gne` makes of a descriptor. */
  function ReadGne(fields: seq<IntField>, desc: seq<byte>): Option<Gne> {
    if |desc| < 8 then None
    else
      var n := U16(desc, 6);
      match Terms(fields, desc[8..], n)
      case None => None
      case Some((terms, size)) =>
        match ReadRetrieval(desc[8 + size..])
        case None => None
        case Some((maxRecs, es)) => Some(Gne(U16(desc, 0), desc[2], U16(desc, 4), n, maxRecs, es, terms))
  }

  /** The retrieval header: the record limit and the field pieces. */
  function ReadRetrieval(b: seq<byte>): Option<(nat, seq<Extract>)> {
    if |b| < 4 then None
    else
      match Extracts(b[4..], U16(b, 2))
      case None => None
      case Some(es) => Some((U16(b, 0), es))
  }

  method ParseRetrieval(desc: seq<byte>, start: nat) returns (res: Option<(nat, seq<Extract>)>)
    requires start <= |desc|
    ensures res == ReadRetrieval(desc[start..])
  {
    var off: nat := start;
    if off + 4 > |desc| {
      return None;
    }
    ghost var b := desc[off..];
    assert b[0..2] == desc[off..off + 2] && b[2..4] == desc[off + 2..off + 4];
    var maxRecs, noFields := U16(desc, off), U16(desc, off + 2);
    off := off + 4;
    assert b[4..] == desc[off..];
    var extracts := ParseExtracts(desc, off, noFields);
    match extracts
    case None => res := None;
    case Some(es) => res := Some((maxRecs, es));
  }

  lemma {:induction false} ExtractsStep(b: seq<byte>, n: nat)
    requires n > 0 && |b| >= 4
    ensures Extracts(b, n) ==
              match Extracts(b[4..], n - 1)
              case None => None
              case Some(es) => Some([Extract(U16(b, 0), U16(b, 2))] + es)
  {
  }

  method ParseExtracts(desc: seq<byte>, start: nat, n: nat) returns (res: Option<seq<Extract>>)
    requires start <= |desc|
    ensures res == Extracts(desc[start..], n)
  {
    var off: nat := start;
    var extracts: seq<Extract> := [];
    ghost var whole := Extracts(desc[start..], n);
    assert forall es: seq<Extract> :: [] + es == es;
    for i := 0 to n
      invariant start <= off <= |desc| && |extracts| == i
      invariant match Extracts(desc[off..], n - i)
                case None => whole == None
                case Some(es) => whole == Some(extracts + es)
    {
      if off + 4 > |desc| {
        return None;
      }
      ghost var b := desc[off..];
      ExtractsStep(b, n - i);
      assert b[0..2] == desc[off..off + 2] && b[2..4] == desc[off + 2..off + 4] && b[4..] == desc[off + 4..];
      var e := Extract(U16(desc, off), U16(desc, off + 2));
      assert forall es: seq<Extract> :: extracts + ([e] + es) == extracts + [e] + es;
      extracts := extracts + [e];
      off := off + 4;
    }
    assert extracts + [] == extracts;
    res := Some(extracts);
  }

  method ParseGne(fields: seq<IntField>, desc: seq<byte>) returns (res: Option<Gne>)
    requires NoFloats(fields)
    ensures res == ReadGne(fields, desc)
  {
    if |desc| < 8 {
      return None;
    }
    var n := U16(desc, 6);
    var parsed := ParseFilterTerms(fields, desc, 8, n);
    if parsed.None? {
      return None;
    }
    var (terms, off) := parsed.value;
    var tail := ParseRetrieval(desc, off);
    if tail.None? {
      return None;
    }
    res := Some(Gne(U16(desc, 0), desc[2], U16(desc, 4), n, tail.value.0, tail.value.1, terms));
  }

  // ---- encoding -----------------------------------------------------------------------------------------

  predicate RawTermOk(t: RawTerm) {
    t.offset < 0x1_0000 && |t.value| < 0x1_0000
  }

  function EncodeTerm(t: RawTerm): (r: seq<byte>)
    ensures |r| == 7 + |t.value|
  {
    [t.fieldType] + LeBytes(|t.value|, 2) + LeBytes(t.offset, 2) + [t.cmpCode, t.connector] + t.value
  }

  function EncodeTerms(ts: seq<RawTerm>): seq<byte> {
    if ts == [] then [] else EncodeTerm(ts[0]) + EncodeTerms(ts[1..])
  }

  lemma {:induction false} TermBytes(t: RawTerm, rest: seq<byte>)
    requires RawTermOk(t)
    ensures var b := EncodeTerm(t) + rest; FirstRaw(b) == Some(t) && b[TermSize(t)..] == rest
  {
    var b := EncodeTerm(t) + rest;
    assert Pow256(2) == 256 * Pow256(1) == 256 * (256 * Pow256(0));
    LeNatOfBytes(|t.value|, 2);
    LeNatOfBytes(t.offset, 2);
    assert b[1..3] == LeBytes(|t.value|, 2);
    assert b[3..5] == LeBytes(t.offset, 2);
    assert b[7..7 + |t.value|] == t.value;
  }

  /** Reading `n` terms at the head of `b` gives `ts`, `size` bytes long. */
  predicate ReadsAs(b: seq<byte>, n: nat, ts: seq<RawTerm>, size: nat) {
    match RawTerms(b, n)
    case None => false
    case Some((us, k)) => us == ts && k == size
  }

  lemma {:induction false} RawTermsCons(b: seq<byte>, t: RawTerm, more: seq<byte>, n: nat, us: seq<RawTerm>, k: nat)
    requires FirstRaw(b) == Some(t) && b[TermSize(t)..] == more && ReadsAs(more, n, us, k)
    ensures ReadsAs(b, n + 1, [t] + us, TermSize(t) + k)
  {
  }

  lemma {:induction false} EncodedStep(t: RawTerm, us: seq<RawTerm>, rest: seq<byte>)
    ensures EncodeTerms([t] + us) + rest == EncodeTerm(t) + (EncodeTerms(us) + rest)
    ensures |EncodeTerms([t] + us)| == TermSize(t) + |EncodeTerms(us)|
  {
    assert ([t] + us)[1..] == us;
  }

  /** Encoded terms are read back as those terms, whatever follows, and end where they end. */
  lemma {:induction false} TermsRoundTrip(ts: seq<RawTerm>, rest: seq<byte>, b: seq<byte>)
    requires forall i :: 0 <= i < |ts| ==> RawTermOk(ts[i])
    requires b == EncodeTerms(ts) + rest
    ensures ReadsAs(b, |ts|, ts, |EncodeTerms(ts)|)
  {
    if ts != [] {
      var t, us := ts[0], ts[1..];
      assert ts == [t] + us;
      EncodedStep(t, us, rest);
      var more := EncodeTerms(us) + rest;
      TermsRoundTrip(us, rest, more);
      TermBytes(t, more);
      RawTermsCons(b, t, more, |us|, us, |EncodeTerms(us)|);
    }
  }

  /** Conversely, what is read from a buffer, encoded again, is what stands at its head. */
  lemma {:induction false} TermsAreEncoded(b: seq<byte>, n: nat)
    requires RawTerms(b, n).Some?
    ensures var (ts, size) := RawTerms(b, n).value;
            EncodeTerms(ts) == b[..size] && forall i :: 0 <= i < |ts| ==> RawTermOk(ts[i])
    decreases n
  {
    if n > 0 {
      var t := FirstRaw(b).value;
      RawTermBytes(b, t, TermSize(t));
      var rest := b[TermSize(t)..];
      TermsAreEncoded(rest, n - 1);
      var (us, k) := RawTerms(rest, n - 1).value;
      var ts := [t] + us;
      assert ts[1..] == us;
      assert b[..TermSize(t) + k] == b[..TermSize(t)] + rest[..k];
    }
  }

  lemma {:induction false} RawTermBytes(b: seq<byte>, raw: RawTerm, size: nat)
    requires |b| >= 7 && size == 7 + U16(b, 1) <= |b|
    requires raw == RawTerm(b[0], U16(b, 3), b[5], b[6], b[7..size])
    ensures RawTermOk(raw) && EncodeTerm(raw) == b[..size]
  {
    assert Pow256(2) == 256 * Pow256(1) == 256 * (256 * Pow256(0));
    LeNatBound(b[1..3]);
    LeNatBound(b[3..5]);
    LeBytesOfNat(b[1..3]);
    LeBytesOfNat(b[3..5]);
    assert b[..size] == [b[0]] + b[1..3] + b[3..5] + [b[5], b[6]] + b[7..size];
  }

  function EncodeExtracts(es: seq<Extract>): (r: seq<byte>)
    ensures |r| == 4 * |es|
  {
    if es == [] then [] else LeBytes(es[0].len, 2) + LeBytes(es[0].off, 2) + EncodeExtracts(es[1..])
  }

  predicate ExtractOk(e: Extract) {
    e.len < 0x1_0000 && e.off < 0x1_0000
  }

  lemma {:induction false} ExtractsCons(e: Extract, more: seq<byte>, n: nat, es: seq<Extract>)
    requires ExtractOk(e) && Extracts(more, n) == Some(es)
    ensures Extracts(LeBytes(e.len, 2) + LeBytes(e.off, 2) + more, n + 1) == Some([e] + es)
  {
    TwoU16(e.len, e.off, more);
    ExtractsStep(LeBytes(e.len, 2) + LeBytes(e.off, 2) + more, n + 1);
  }

  lemma {:induction false} ExtractsRoundTrip(es: seq<Extract>, rest: seq<byte>)
    requires forall i :: 0 <= i < |es| ==> ExtractOk(es[i])
    ensures Extracts(EncodeExtracts(es) + rest, |es|) == Some(es)
  {
    if es != [] {
      ExtractsRoundTrip(es[1..], rest);
      ExtractsCons(es[0], EncodeExtracts(es[1..]) + rest, |es| - 1, es[1..]);
      assert EncodeExtracts(es) + rest == LeBytes(es[0].len, 2) + LeBytes(es[0].off, 2) + (EncodeExtracts(es[1..]) + rest);
      assert es == [es[0]] + es[1..];
    }
  }

  lemma {:induction false} TwoU16(x: nat, y: nat, rest: seq<byte>)
    requires x < 0x1_0000 && y < 0x1_0000
    ensures var b := LeBytes(x, 2) + LeBytes(y, 2) + rest;
            U16(b, 0) == x && U16(b, 2) == y && b[4..] == rest
  {
    var b := LeBytes(x, 2) + LeBytes(y, 2) + rest;
    assert Pow256(2) == 256 * Pow256(1) == 256 * (256 * Pow256(0));
    LeNatOfBytes(x, 2);
    LeNatOfBytes(y, 2);
    assert b[0..2] == LeBytes(x, 2) && b[2..4] == LeBytes(y, 2);
  }

  /** A descriptor as a caller writes it. */
  datatype RawGne = RawGne(descriptionLen: nat, currency: byte, pad: byte, rejectCount: nat,
                           terms: seq<RawTerm>, maxRecs: nat, extracts: seq<Extract>)

  predicate RawGneOk(fields: seq<IntField>, g: RawGne) {
    && g.descriptionLen < 0x1_0000 && g.rejectCount < 0x1_0000 && g.maxRecs < 0x1_0000
    && |g.terms| < 0x1_0000 && |g.extracts| < 0x1_0000
    && (forall i :: 0 <= i < |g.terms| ==> RawTermOk(g.terms[i])) && AllResolvable(fields, g.terms)
    && (forall i :: 0 <= i < |g.extracts| ==> ExtractOk(g.extracts[i]))
  }

  function EncodeGne(g: RawGne): seq<byte> {
    LeBytes(g.descriptionLen, 2) + [g.currency, g.pad] + LeBytes(g.rejectCount, 2) + LeBytes(|g.terms|, 2)
    + EncodeTerms(g.terms) + LeBytes(g.maxRecs, 2) + LeBytes(|g.extracts|, 2) + EncodeExtracts(g.extracts)
  }

  lemma {:induction false} HeaderReads(g: RawGne, rest: seq<byte>)
    requires g.descriptionLen < 0x1_0000 && g.rejectCount < 0x1_0000 && |g.terms| < 0x1_0000
    ensures var d := LeBytes(g.descriptionLen, 2) + [g.currency, g.pad] + LeBytes(g.rejectCount, 2) + LeBytes(|g.terms|, 2) + rest;
            && U16(d, 0) == g.descriptionLen && d[2] == g.currency && U16(d, 4) == g.rejectCount
            && U16(d, 6) == |g.terms| && d[8..] == rest
  {
    var d := LeBytes(g.descriptionLen, 2) + [g.currency, g.pad] + LeBytes(g.rejectCount, 2) + LeBytes(|g.terms|, 2) + rest;
    assert Pow256(2) == 256 * Pow256(1) == 256 * (256 * Pow256(0));
    LeNatOfBytes(g.descriptionLen, 2);
    LeNatOfBytes(g.rejectCount, 2);
    LeNatOfBytes(|g.terms|, 2);
    assert d[0..2] == LeBytes(g.descriptionLen, 2) && d[4..6] == LeBytes(g.rejectCount, 2) && d[6..8] == LeBytes(|g.terms|, 2);
  }

  /** Encoding a descriptor and parsing it gives its terms, extracts and counts, whatever follows it
      in the buffer. */
  lemma {:induction false} GneRoundTrip(fields: seq<IntField>, g: RawGne, rest: seq<byte>)
    requires RawGneOk(fields, g)
    ensures ReadGne(fields, EncodeGne(g) + rest) ==
              Some(Gne(g.descriptionLen, g.currency, g.rejectCount, |g.terms|, g.maxRecs, g.extracts,
                       ResolveAll(fields, g.terms, |g.terms|)))
  {
    var tail := LeBytes(g.maxRecs, 2) + LeBytes(|g.extracts|, 2) + (EncodeExtracts(g.extracts) + rest);
    var size, body, desc := |EncodeTerms(g.terms)|, EncodeTerms(g.terms) + tail, EncodeGne(g) + rest;
    GneLayout(g, rest, tail, body);
    HeaderReads(g, body);
    TermsRoundTrip(g.terms, tail, body);
    TermsResolve(fields, body, g.terms, size);
    RetrievalReads(g, rest);
    assert body[size..] == tail;
    GneOfParts(fields, desc, body, ResolveAll(fields, g.terms, |g.terms|), size, g.maxRecs, g.extracts);
  }

  lemma {:induction false} TermsResolve(fields: seq<IntField>, b: seq<byte>, ts: seq<RawTerm>, size: nat)
    requires RawTerms(b, |ts|) == Some((ts, size)) && AllResolvable(fields, ts)
    ensures Terms(fields, b, |ts|) == Some((ResolveAll(fields, ts, |ts|), size))
  {
  }

  lemma {:induction false} GneOfParts(fields: seq<IntField>, desc: seq<byte>, body: seq<byte>, ts: seq<Term>, size: nat,
                                      maxRecs: nat, es: seq<Extract>)
    requires |desc| >= 8 && desc[8..] == body && size <= |body|
    requires Terms(fields, body, U16(desc, 6)) == Some((ts, size)) && ReadRetrieval(body[size..]) == Some((maxRecs, es))
    ensures ReadGne(fields, desc) == Some(Gne(U16(desc, 0), desc[2], U16(desc, 4), U16(desc, 6), maxRecs, es, ts))
  {
    assert desc[8 + size..] == body[size..];
  }

  lemma {:induction false} RetrievalReads(g: RawGne, rest: seq<byte>)
    requires g.maxRecs < 0x1_0000 && |g.extracts| < 0x1_0000
    requires forall i :: 0 <= i < |g.extracts| ==> ExtractOk(g.extracts[i])
    ensures ReadRetrieval(LeBytes(g.maxRecs, 2) + LeBytes(|g.extracts|, 2) + (EncodeExtracts(g.extracts) + rest))
         == Some((g.maxRecs, g.extracts))
  {
    TwoU16(g.maxRecs, |g.extracts|, EncodeExtracts(g.extracts) + rest);
    ExtractsRoundTrip(g.extracts, rest);
  }

  lemma {:induction false} GneLayout(g: RawGne, rest: seq<byte>, tail: seq<byte>, body: seq<byte>)
    requires tail == LeBytes(g.maxRecs, 2) + LeBytes(|g.extracts|, 2) + (EncodeExtracts(g.extracts) + rest)
    requires body == EncodeTerms(g.terms) + tail
    ensures EncodeGne(g) + rest ==
              LeBytes(g.descriptionLen, 2) + [g.currency, g.pad] + LeBytes(g.rejectCount, 2) + LeBytes(|g.terms|, 2) + body
  {
  }

  // ---- projection -----------------------------------------------------------------------------------------

  /** One extract of a record, zero-filled past the record's end. */
  function Piece(packed: seq<byte>, e: Extract): (r: seq<byte>)
    ensures |r| == e.len
  {
    if e.off + e.len <= |packed| then packed[e.off..e.off + e.len]
    else
      var have := if e.off < |packed| then |packed| - e.off else 0;
      (if have > 0 then packed[e.off..] else []) + Zeros(e.len - have)
  }

  function Pieces(packed: seq<byte>, es: seq<Extract>): seq<byte> {
    if es == [] then [] else Piece(packed, es[0]) + Pieces(packed, es[1..])
  }

  /** No extracts ask for the whole record. */
  function Projected(packed: seq<byte>, es: seq<Extract>): seq<byte> {
    if es == [] then packed else Pieces(packed, es)
  }

  method Project(packed: seq<byte>, es: seq<Extract>) returns (out: seq<byte>)
    ensures out == Projected(packed, es)
  {
    if es == [] {
      return packed;
    }
    out := [];
    for i := 0 to |es|
      invariant Pieces(packed, es) == out + Pieces(packed, es[i..])
    {
      var piece := CopyPiece(packed, es[i]);
      PiecesStep(packed, es, i, out);
      out := out + piece;
    }
    assert Pieces(packed, es[|es|..]) == [];
    assert out + [] == out;
  }

  lemma {:induction false} PiecesStep(packed: seq<byte>, es: seq<Extract>, i: nat, out: seq<byte>)
    requires i < |es|
    ensures out + Pieces(packed, es[i..]) == out + Piece(packed, es[i]) + Pieces(packed, es[i + 1..])
  {
    assert es[i..][1..] == es[i + 1..];
  }

  method CopyPiece(packed: seq<byte>, e: Extract) returns (out: seq<byte>)
    ensures out == Piece(packed, e)
  {
    var start, end := e.off, e.off + e.len;
    if end <= |packed| {
      return packed[start..end];
    }
    out := [];
    var have := if start < |packed| then |packed| - start else 0;
    if have > 0 {
      out := packed[start..start + have];
    }
    out := out + Zeros(e.len - have);
  }

  // ---- the reply ---------------------------------------------------------------------------------------------

  /** A record of the reply: its number and its projected bytes. */
  datatype Item = Item(recnum: int, data: seq<byte>)

  function ItemBytes(it: Item): (r: seq<byte>)
    ensures |r| == 6 + |it.data|
  {
    LeBytes(|it.data|, 2) + LeBytes(if it.recnum > 0 then it.recnum else 0, 4) + it.data
  }

  function ItemsBytes(items: seq<Item>): seq<byte> {
    if items == [] then [] else ItemBytes(items[0]) + ItemsBytes(items[1..])
  }

  function ReplyBytes(items: seq<Item>): seq<byte> {
    LeBytes(|items|, 2) + ItemsBytes(items)
  }

  /** How a caller reads the reply. */
  function ReadItems(b: seq<byte>, n: nat): Option<seq<Item>>
    decreases n
  {
    if n == 0 then Some([])
    else if |b| < 6 then None
    else
      var len := U16(b, 0);
      if 6 + len > |b| then None
      else
        match ReadItems(b[6 + len..], n - 1)
        case None => None
        case Some(items) => Some([Item(LeNat(b[2..6]), b[6..6 + len])] + items)
  }

  function ReadReply(b: seq<byte>): Option<seq<Item>> {
    if |b| < 2 then None else ReadItems(b[2..], U16(b, 0))
  }

  predicate ItemOk(it: Item) {
    |it.data| < 0x1_0000 && 0 <= it.recnum < 0x1_0000_0000
  }

  lemma {:induction false} ItemReads(it: Item, rest: seq<byte>)
    requires ItemOk(it)
    ensures var b := ItemBytes(it) + rest;
            && U16(b, 0) == |it.data| && LeNat(b[2..6]) == it.recnum
            && b[6..6 + |it.data|] == it.data && b[6 + |it.data|..] == rest
  {
    var b := ItemBytes(it) + rest;
    assert Pow256(2) == 256 * Pow256(1) == 256 * (256 * Pow256(0));
    assert Pow256(4) == 256 * Pow256(3) == 256 * (256 * Pow256(2));
    LeNatOfBytes(|it.data|, 2);
    LeNatOfBytes(it.recnum, 4);
    assert b[0..2] == LeBytes(|it.data|, 2) && b[2..6] == LeBytes(it.recnum, 4);
  }

  lemma {:induction false} FirstItemReads(it: Item, items: seq<Item>, more: seq<byte>)
    requires ItemOk(it) && ReadItems(more, |items|) == Some(items)
    ensures ReadItems(ItemBytes(it) + more, |items| + 1) == Some([it] + items)
  {
    ItemReads(it, more);
  }

  lemma {:induction false} ItemsRoundTrip(items: seq<Item>, rest: seq<byte>)
    requires forall i :: 0 <= i < |items| ==> ItemOk(items[i])
    ensures ReadItems(ItemsBytes(items) + rest, |items|) == Some(items)
  {
    if items != [] {
      var more := ItemsBytes(items[1..]) + rest;
      Regroup(ItemBytes(items[0]), ItemsBytes(items[1..]), rest);
      ItemsRoundTrip(items[1..], rest);
      FirstItemReads(items[0], items[1..], more);
      assert items == [items[0]] + items[1..];
    }
  }

  /** The reply decodes back to exactly the records it was written from. */
  lemma {:induction false} ReplyRoundTrip(items: seq<Item>)
    requires |items| < 0x1_0000 && forall i :: 0 <= i < |items| ==> ItemOk(items[i])
    ensures ReadReply(ReplyBytes(items)) == Some(items)
  {
    var b := ReplyBytes(items);
    assert Pow256(2) == 256 * Pow256(1) == 256 * (256 * Pow256(0));
    LeNatOfBytes(|items|, 2);
    assert b[0..2] == LeBytes(|items|, 2) && b[2..] == ItemsBytes(items) + [];
    ItemsRoundTrip(items, []);
  }
}
