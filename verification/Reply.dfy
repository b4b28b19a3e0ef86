/** The reply of an extended operation: as many projected records as fit the caller's buffer. */
module Reply {
  import opened Wrappers
  import opened Bytes
  import opened Relation
  import opened Selected
  import opened Descriptor
  import opened Batches

  /** Bytes a row, as it is read, takes in the reply. */
  function RowSize(read: Row -> Read, row: Row, es: seq<Extract>): nat {
    6 + |Projected(read(row).record, es)|
  }

  function SizeOf(read: Row -> Read, es: seq<Extract>): Row -> nat {
    row => RowSize(read, row, es)
  }

  /** How many rows a reply takes: two bytes go to the count. */
  function Fitting(read: Row -> Read, rows: seq<Row>, es: seq<Extract>, cap: nat, max: nat): (k: nat)
    ensures k <= |rows| && k <= max
  {
    FittingFrom(Sizes(rows, SizeOf(read, es)), 0, cap, 2, max)
  }

  function RowItem(read: Row -> Read, row: Row, es: seq<Extract>): Item {
    Item(read(row).recnum, Projected(read(row).record, es))
  }

  function RowItems(read: Row -> Read, rows: seq<Row>, es: seq<Extract>): (r: seq<Item>)
    ensures |r| == |rows|
  {
    seq(|rows|, i requires 0 <= i < |rows| => RowItem(read, rows[i], es))
  }

  lemma {:induction false} ItemsBytesAppend(items: seq<Item>, it: Item)
    ensures ItemsBytes(items + [it]) == ItemsBytes(items) + ItemBytes(it)
  {
    var all := items + [it];
    if items == [] {
      assert all == [it] && all[1..] == [];
      assert ItemsBytes(all) == ItemBytes(it) + [];
    } else {
      var rest := items[1..];
      ItemsBytesAppend(rest, it);
      assert all[0] == items[0] && all[1..] == rest + [it];
      Regroup(ItemBytes(items[0]), ItemsBytes(rest), ItemBytes(it));
    }
  }

  /** Writing the count and the records. */
  method WriteReply(items: seq<Item>) returns (out: seq<byte>)
    ensures out == ReplyBytes(items)
  {
    out := LeBytes(|items|, 2);
    for i := 0 to |items|
      invariant out == LeBytes(|items|, 2) + ItemsBytes(items[..i])
    {
      ItemsBytesAppend(items[..i], items[i]);
      assert items[..i + 1] == items[..i] + [items[i]];
      Regroup(LeBytes(|items|, 2), ItemsBytes(items[..i]), ItemBytes(items[i]));
      out := out + ItemBytes(items[i]);
    }
    assert items[..|items|] == items;
  }

  lemma {:induction false} RowItemsAppend(read: Row -> Read, rows: seq<Row>, row: Row, es: seq<Extract>)
    ensures RowItems(read, rows + [row], es) == RowItems(read, rows, es) + [RowItem(read, row, es)]
  {
  }

  lemma {:induction false} RowItemsCons(read: Row -> Read, row: Row, rows: seq<Row>, es: seq<Extract>)
    ensures ItemsBytes(RowItems(read, [row] + rows, es)) == ItemBytes(RowItem(read, row, es)) + ItemsBytes(RowItems(read, rows, es))
  {
    var items := RowItems(read, [row] + rows, es);
    assert items[0] == RowItem(read, row, es) && items[1..] == RowItems(read, rows, es);
  }

  lemma {:induction false} SizeCons(read: Row -> Read, rows: seq<Row>, es: seq<Extract>)
    requires rows != []
    ensures |ItemsBytes(RowItems(read, rows, es))| == RowSize(read, rows[0], es) + |ItemsBytes(RowItems(read, rows[1..], es))|
  {
    RowItemsCons(read, rows[0], rows[1..], es);
    assert rows == [rows[0]] + rows[1..];
  }

  lemma {:induction false} ItemsSize(read: Row -> Read, rows: seq<Row>, es: seq<Extract>, sizes: seq<nat>, i: nat, k: nat, part: seq<Row>)
    requires i + k <= |rows| && sizes == Sizes(rows, SizeOf(read, es)) && part == rows[i..i + k]
    ensures |ItemsBytes(RowItems(read, part, es))| == TotalSize(sizes, i, k)
    decreases k
  {
    if k > 0 {
      var rest := part[1..];
      assert part[0] == rows[i] && rest == rows[i + 1..i + 1 + (k - 1)];
      SizeCons(read, part, es);
      ItemsSize(read, rows, es, sizes, i + 1, k - 1, rest);
    } else {
      assert RowItems(read, part, es) == [];
    }
  }

  /** The rows of a reply have record numbers and sizes its fields can hold. */
  predicate Representable(read: Row -> Read, rows: seq<Row>, es: seq<Extract>) {
    forall i :: 0 <= i < |rows| ==> ItemOk(RowItem(read, rows[i], es))
  }

  /** What is promised of a reply holding `out`, with `ahead` the rows it was taken from. */
  predicate ExactReply(read: Row -> Read, ahead: seq<Row>, es: seq<Extract>, max: nat, cap: nat, out: seq<Row>, bytes: seq<byte>) {
    && |bytes| <= cap
    && 0 < |out| <= max
    && |out| <= |ahead| && out == ahead[..|out|]
    && (|out| < max && |out| < |ahead| ==> |bytes| + RowSize(read, ahead[|out|], es) > cap)
    && (Representable(read, out, es) && |out| < 0x1_0000 ==> ReadReply(bytes) == Some(RowItems(read, out, es)))
  }

  lemma {:induction false} FittingReply(read: Row -> Read, ahead: seq<Row>, es: seq<Extract>, max: nat, cap: nat, k: nat)
    requires cap >= 2 && k == Fitting(read, ahead, es, cap, max) && k > 0
    ensures ExactReply(read, ahead, es, max, cap, ahead[..k], ReplyBytes(RowItems(read, ahead[..k], es)))
  {
    var out := ahead[..k];
    FittingFits(Sizes(ahead, SizeOf(read, es)), 0, cap, 2, max, k);
    ItemsSize(read, ahead, es, Sizes(ahead, SizeOf(read, es)), 0, k, out);
    if Representable(read, out, es) && |out| < 0x1_0000 {
      ReplyRoundTrip(RowItems(read, out, es));
    }
  }

  function Concat(outs: seq<seq<Row>>): seq<Row> {
    if outs == [] then [] else Concat(outs[..|outs| - 1]) + outs[|outs| - 1]
  }

}
