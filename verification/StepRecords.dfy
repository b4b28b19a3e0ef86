/** What a step operation hands out when the record number is a field. */
module StepRecords {
  import opened Bytes
  import opened Decimal
  import opened SqlValues
  import opened Relation
  import opened Schema
  import opened RecordCodec
  import opened CodecRoundTrip
  import opened KeyBuffer
  import opened Selected

  /** The second of two fields holds what was packed into it. */
  lemma {:induction false} SecondSlot(f: IntField, g: IntField, a: string, b: string, n: nat)
    requires f.offset + f.length == g.offset && g.offset + g.length == n
    ensures var record := PackAll([f, g], [a, b], Zeros(n));
            |record| == n && SlotOf(g, record) == PackSlot(g.nativeType, Zeros(g.length), b)
  {
    var one := PackField(f, a, Zeros(n));
    assert [f, g][1..] == [g] && [a, b][1..] == [b] && [g][1..] == [] && [b][1..] == [];
    assert PackAll([f, g], [a, b], Zeros(n)) == PackAll([g], [b], one);
    assert PackAll([g], [b], one) == PackField(g, b, one);
    PackFieldSetsSlot(g, b, one);
    PackFieldKeepsSlot(g, f, a, Zeros(n));
    assert SlotOf(g, Zeros(n)) == Zeros(g.length);
  }

  lemma {:induction false} OneAndNothing()
    ensures IntSlot(Zeros(4), "1") == [1, 0, 0, 0] && IntSlot(Zeros(4), "") == [0, 0, 0, 0]
  {
    IntSlotWrites(Zeros(4), 1, [1, 0, 0, 0]);
    assert IntText(1) == "1";
    assert ParseI64("") == 0;
    LeBytesPrefix(0, 8, 4);
  }

  lemma {:induction false} AutoincSecondTexts(r: Row)
    requires r == Row(1, map["F1" := I64(0)])
    ensures ColumnTexts(FieldVals(AUTOINC_SECOND, r)) == ["0", "1"] && StepTexts(AUTOINC_SECOND, r) == ["1", ""]
  {
    var meta := AUTOINC_SECOND;
    assert SameIgnoringCase(meta.fields[1].name, meta.recnumCol);
    assert FieldVals(meta, r) == [I64(0), I64(1)];
  }

  /** Of F1 = 0, F2 = 1, with F2 the record number, a Get hands out the record and a step one whose F2
      is 0. */
  lemma {:induction false} AutoincSecondShifts(r: Row)
    requires r == Row(1, map["F1" := I64(0)])
    ensures ImageOf(AUTOINC_SECOND, r)[4..8] == [1, 0, 0, 0]
    ensures StepImage(AUTOINC_SECOND, r)[4..8] == [0, 0, 0, 0]
  {
    var f, g := AUTOINC_SECOND.fields[0], AUTOINC_SECOND.fields[1];
    AutoincSecondTexts(r);
    SecondSlot(f, g, "0", "1", 8);
    SecondSlot(f, g, "1", "", 8);
    AutoincSlot("1");
    AutoincSlot("");
    OneAndNothing();
    assert AUTOINC_SECOND.fields == [f, g];
  }

  lemma {:induction false} AutoincSlot(val: string)
    ensures PackSlot(TYPE_AUTOINC, Zeros(4), val) == IntSlot(Zeros(4), val)
  {
  }
}
