/**
 * What one message does to the session, stated at the byte level: which
 * payload offsets each field comes from, which single entry changes, and
 * which messages leave the session as it was.
 */
module ProtocolFacts {
  import opened Wrappers
  import opened BigEndian
  import opened StructFormat
  import opened Text
  import opened Vwap
  import opened Protocol

  /** `SystemEventFormat` is 11 bytes long. */
  lemma SystemEventSize()
    ensures Size(SystemEventFormat) == 11
  {
    var f := SystemEventFormat;
    assert SizeFrom(f, 4) == 0;
    assert SizeFrom(f, 3) == 1;
    assert SizeFrom(f, 2) == 7;
    assert SizeFrom(f, 1) == 9;
  }

  lemma SystemEventOffsets()
    ensures Offset(SystemEventFormat, 2) == 4
    ensures Offset(SystemEventFormat, 3) == 10
  {
    var f := SystemEventFormat;
    assert Offset(f, 1) == 2;
    assert Offset(f, 2) == 4;
  }

  /** Where the fields of `SystemEventFormat` that the decoder reads lie in a 11-byte payload. */
  lemma SystemEventRead(msg: seq<byte>)
    requires |msg| == 11
    ensures Unpack(SystemEventFormat, msg).Some?
    ensures Unpack(SystemEventFormat, msg).value[2] == Bytes(msg[4..10])
    ensures Unpack(SystemEventFormat, msg).value[3] == Bytes(msg[10..11])
  {
    SystemEventSize();
    SystemEventOffsets();
    UnpackAt(SystemEventFormat, msg, 2);
    UnpackAt(SystemEventFormat, msg, 3);
  }

  /** `StockDirectoryFormat` is 38 bytes long. */
  lemma StockDirectorySize()
    ensures Size(StockDirectoryFormat) == 38
  {
    var f := StockDirectoryFormat;
    assert SizeFrom(f, 17) == 0;
    assert SizeFrom(f, 16) == 1;
    assert SizeFrom(f, 15) == 5;
    assert SizeFrom(f, 14) == 6;
    assert SizeFrom(f, 13) == 7;
    assert SizeFrom(f, 12) == 8;
    assert SizeFrom(f, 11) == 9;
    assert SizeFrom(f, 10) == 10;
    assert SizeFrom(f, 9) == 12;
    assert SizeFrom(f, 8) == 13;
    assert SizeFrom(f, 7) == 14;
    assert SizeFrom(f, 6) == 18;
    assert SizeFrom(f, 5) == 19;
    assert SizeFrom(f, 4) == 20;
    assert SizeFrom(f, 3) == 28;
    assert SizeFrom(f, 2) == 34;
    assert SizeFrom(f, 1) == 36;
  }

  lemma StockDirectoryOffsets()
    ensures Offset(StockDirectoryFormat, 0) == 0
    ensures Offset(StockDirectoryFormat, 3) == 10
  {
    var f := StockDirectoryFormat;
    assert Offset(f, 1) == 2;
    assert Offset(f, 2) == 4;
  }

  /** Where the fields of `StockDirectoryFormat` that the decoder reads lie in a 38-byte payload. */
  lemma StockDirectoryRead(msg: seq<byte>)
    requires |msg| == 38
    ensures Unpack(StockDirectoryFormat, msg).Some?
    ensures Unpack(StockDirectoryFormat, msg).value[0] == Int(FromBytes(msg[0..2]))
    ensures Unpack(StockDirectoryFormat, msg).value[3] == Bytes(msg[10..18])
  {
    StockDirectorySize();
    StockDirectoryOffsets();
    UnpackAt(StockDirectoryFormat, msg, 0);
    UnpackAt(StockDirectoryFormat, msg, 3);
  }

  /** `AddOrderFormat` is 35 bytes long. */
  lemma AddOrderSize()
    ensures Size(AddOrderFormat) == 35
  {
    var f := AddOrderFormat;
    assert SizeFrom(f, 8) == 0;
    assert SizeFrom(f, 7) == 4;
    assert SizeFrom(f, 6) == 12;
    assert SizeFrom(f, 5) == 16;
    assert SizeFrom(f, 4) == 17;
    assert SizeFrom(f, 3) == 25;
    assert SizeFrom(f, 2) == 31;
    assert SizeFrom(f, 1) == 33;
  }

  lemma AddOrderOffsets()
    ensures Offset(AddOrderFormat, 3) == 10
    ensures Offset(AddOrderFormat, 7) == 31
  {
    var f := AddOrderFormat;
    assert Offset(f, 1) == 2;
    assert Offset(f, 2) == 4;
    assert Offset(f, 3) == 10;
    assert Offset(f, 4) == 18;
    assert Offset(f, 5) == 19;
    assert Offset(f, 6) == 23;
  }

  /** Where the fields of `AddOrderFormat` that the decoder reads lie in a 35-byte payload. */
  lemma AddOrderRead(msg: seq<byte>)
    requires |msg| == 35
    ensures Unpack(AddOrderFormat, msg).Some?
    ensures Unpack(AddOrderFormat, msg).value[3] == Int(FromBytes(msg[10..18]))
    ensures Unpack(AddOrderFormat, msg).value[7] == Int(FromBytes(msg[31..35]))
  {
    AddOrderSize();
    AddOrderOffsets();
    UnpackAt(AddOrderFormat, msg, 3);
    UnpackAt(AddOrderFormat, msg, 7);
  }

  /** `AddOrderMpidFormat` is 39 bytes long. */
  lemma AddOrderMpidSize()
    ensures Size(AddOrderMpidFormat) == 39
  {
    var f := AddOrderMpidFormat;
    assert SizeFrom(f, 9) == 0;
    assert SizeFrom(f, 8) == 4;
    assert SizeFrom(f, 7) == 8;
    assert SizeFrom(f, 6) == 16;
    assert SizeFrom(f, 5) == 20;
    assert SizeFrom(f, 4) == 21;
    assert SizeFrom(f, 3) == 29;
    assert SizeFrom(f, 2) == 35;
    assert SizeFrom(f, 1) == 37;
  }

  lemma AddOrderMpidOffsets()
    ensures Offset(AddOrderMpidFormat, 3) == 10
    ensures Offset(AddOrderMpidFormat, 7) == 31
  {
    var f := AddOrderMpidFormat;
    assert Offset(f, 1) == 2;
    assert Offset(f, 2) == 4;
    assert Offset(f, 3) == 10;
    assert Offset(f, 4) == 18;
    assert Offset(f, 5) == 19;
    assert Offset(f, 6) == 23;
  }

  /** Where the fields of `AddOrderMpidFormat` that the decoder reads lie in a 39-byte payload. */
  lemma AddOrderMpidRead(msg: seq<byte>)
    requires |msg| == 39
    ensures Unpack(AddOrderMpidFormat, msg).Some?
    ensures Unpack(AddOrderMpidFormat, msg).value[3] == Int(FromBytes(msg[10..18]))
    ensures Unpack(AddOrderMpidFormat, msg).value[7] == Int(FromBytes(msg[31..35]))
  {
    AddOrderMpidSize();
    AddOrderMpidOffsets();
    UnpackAt(AddOrderMpidFormat, msg, 3);
    UnpackAt(AddOrderMpidFormat, msg, 7);
  }

  /** `OrderExecutedFormat` is 30 bytes long. */
  lemma OrderExecutedSize()
    ensures Size(OrderExecutedFormat) == 30
  {
    var f := OrderExecutedFormat;
    assert SizeFrom(f, 6) == 0;
    assert SizeFrom(f, 5) == 8;
    assert SizeFrom(f, 4) == 12;
    assert SizeFrom(f, 3) == 20;
    assert SizeFrom(f, 2) == 26;
    assert SizeFrom(f, 1) == 28;
  }

  lemma OrderExecutedOffsets()
    ensures Offset(OrderExecutedFormat, 0) == 0
    ensures Offset(OrderExecutedFormat, 2) == 4
    ensures Offset(OrderExecutedFormat, 3) == 10
    ensures Offset(OrderExecutedFormat, 4) == 18
  {
    var f := OrderExecutedFormat;
    assert Offset(f, 1) == 2;
    assert Offset(f, 2) == 4;
    assert Offset(f, 3) == 10;
  }

  /** Where the fields of `OrderExecutedFormat` that the decoder reads lie in a 30-byte payload. */
  lemma OrderExecutedRead(msg: seq<byte>)
    requires |msg| == 30
    ensures Unpack(OrderExecutedFormat, msg).Some?
    ensures Unpack(OrderExecutedFormat, msg).value[0] == Int(FromBytes(msg[0..2]))
    ensures Unpack(OrderExecutedFormat, msg).value[2] == Bytes(msg[4..10])
    ensures Unpack(OrderExecutedFormat, msg).value[3] == Int(FromBytes(msg[10..18]))
    ensures Unpack(OrderExecutedFormat, msg).value[4] == Int(FromBytes(msg[18..22]))
  {
    OrderExecutedSize();
    OrderExecutedOffsets();
    UnpackAt(OrderExecutedFormat, msg, 0);
    UnpackAt(OrderExecutedFormat, msg, 2);
    UnpackAt(OrderExecutedFormat, msg, 3);
    UnpackAt(OrderExecutedFormat, msg, 4);
  }

  /** `OrderExecutedWithPriceFormat` is 35 bytes long. */
  lemma OrderExecutedWithPriceSize()
    ensures Size(OrderExecutedWithPriceFormat) == 35
  {
    var f := OrderExecutedWithPriceFormat;
    assert SizeFrom(f, 8) == 0;
    assert SizeFrom(f, 7) == 4;
    assert SizeFrom(f, 6) == 5;
    assert SizeFrom(f, 5) == 13;
    assert SizeFrom(f, 4) == 17;
    assert SizeFrom(f, 3) == 25;
    assert SizeFrom(f, 2) == 31;
    assert SizeFrom(f, 1) == 33;
  }

  lemma OrderExecutedWithPriceOffsets()
    ensures Offset(OrderExecutedWithPriceFormat, 0) == 0
    ensures Offset(OrderExecutedWithPriceFormat, 2) == 4
    ensures Offset(OrderExecutedWithPriceFormat, 4) == 18
    ensures Offset(OrderExecutedWithPriceFormat, 6) == 30
    ensures Offset(OrderExecutedWithPriceFormat, 7) == 31
  {
    var f := OrderExecutedWithPriceFormat;
    assert Offset(f, 1) == 2;
    assert Offset(f, 2) == 4;
    assert Offset(f, 3) == 10;
    assert Offset(f, 4) == 18;
    assert Offset(f, 5) == 22;
    assert Offset(f, 6) == 30;
  }

  /** Where the fields of `OrderExecutedWithPriceFormat` that the decoder reads lie in a 35-byte payload. */
  lemma OrderExecutedWithPriceRead(msg: seq<byte>)
    requires |msg| == 35
    ensures Unpack(OrderExecutedWithPriceFormat, msg).Some?
    ensures Unpack(OrderExecutedWithPriceFormat, msg).value[0] == Int(FromBytes(msg[0..2]))
    ensures Unpack(OrderExecutedWithPriceFormat, msg).value[2] == Bytes(msg[4..10])
    ensures Unpack(OrderExecutedWithPriceFormat, msg).value[4] == Int(FromBytes(msg[18..22]))
    ensures Unpack(OrderExecutedWithPriceFormat, msg).value[6] == Bytes(msg[30..31])
    ensures Unpack(OrderExecutedWithPriceFormat, msg).value[7] == Int(FromBytes(msg[31..35]))
  {
    OrderExecutedWithPriceSize();
    OrderExecutedWithPriceOffsets();
    UnpackAt(OrderExecutedWithPriceFormat, msg, 0);
    UnpackAt(OrderExecutedWithPriceFormat, msg, 2);
    UnpackAt(OrderExecutedWithPriceFormat, msg, 4);
    UnpackAt(OrderExecutedWithPriceFormat, msg, 6);
    UnpackAt(OrderExecutedWithPriceFormat, msg, 7);
  }

  /** `OrderReplaceFormat` is 34 bytes long. */
  lemma OrderReplaceSize()
    ensures Size(OrderReplaceFormat) == 34
  {
    var f := OrderReplaceFormat;
    assert SizeFrom(f, 7) == 0;
    assert SizeFrom(f, 6) == 4;
    assert SizeFrom(f, 5) == 8;
    assert SizeFrom(f, 4) == 16;
    assert SizeFrom(f, 3) == 24;
    assert SizeFrom(f, 2) == 30;
    assert SizeFrom(f, 1) == 32;
  }

  lemma OrderReplaceOffsets()
    ensures Offset(OrderReplaceFormat, 4) == 18
    ensures Offset(OrderReplaceFormat, 6) == 30
  {
    var f := OrderReplaceFormat;
    assert Offset(f, 1) == 2;
    assert Offset(f, 2) == 4;
    assert Offset(f, 3) == 10;
    assert Offset(f, 4) == 18;
    assert Offset(f, 5) == 26;
  }

  /** Where the fields of `OrderReplaceFormat` that the decoder reads lie in a 34-byte payload. */
  lemma OrderReplaceRead(msg: seq<byte>)
    requires |msg| == 34
    ensures Unpack(OrderReplaceFormat, msg).Some?
    ensures Unpack(OrderReplaceFormat, msg).value[4] == Int(FromBytes(msg[18..26]))
    ensures Unpack(OrderReplaceFormat, msg).value[6] == Int(FromBytes(msg[30..34]))
  {
    OrderReplaceSize();
    OrderReplaceOffsets();
    UnpackAt(OrderReplaceFormat, msg, 4);
    UnpackAt(OrderReplaceFormat, msg, 6);
  }

  /** `TradeFormat` is 43 bytes long. */
  lemma TradeSize()
    ensures Size(TradeFormat) == 43
  {
    var f := TradeFormat;
    assert SizeFrom(f, 9) == 0;
    assert SizeFrom(f, 8) == 8;
    assert SizeFrom(f, 7) == 12;
    assert SizeFrom(f, 6) == 20;
    assert SizeFrom(f, 5) == 24;
    assert SizeFrom(f, 4) == 25;
    assert SizeFrom(f, 3) == 33;
    assert SizeFrom(f, 2) == 39;
    assert SizeFrom(f, 1) == 41;
  }

  lemma TradeOffsets()
    ensures Offset(TradeFormat, 0) == 0
    ensures Offset(TradeFormat, 2) == 4
    ensures Offset(TradeFormat, 5) == 19
    ensures Offset(TradeFormat, 7) == 31
  {
    var f := TradeFormat;
    assert Offset(f, 1) == 2;
    assert Offset(f, 2) == 4;
    assert Offset(f, 3) == 10;
    assert Offset(f, 4) == 18;
    assert Offset(f, 5) == 19;
    assert Offset(f, 6) == 23;
  }

  /** Where the fields of `TradeFormat` that the decoder reads lie in a 43-byte payload. */
  lemma TradeRead(msg: seq<byte>)
    requires |msg| == 43
    ensures Unpack(TradeFormat, msg).Some?
    ensures Unpack(TradeFormat, msg).value[0] == Int(FromBytes(msg[0..2]))
    ensures Unpack(TradeFormat, msg).value[2] == Bytes(msg[4..10])
    ensures Unpack(TradeFormat, msg).value[5] == Int(FromBytes(msg[19..23]))
    ensures Unpack(TradeFormat, msg).value[7] == Int(FromBytes(msg[31..35]))
  {
    TradeSize();
    TradeOffsets();
    UnpackAt(TradeFormat, msg, 0);
    UnpackAt(TradeFormat, msg, 2);
    UnpackAt(TradeFormat, msg, 5);
    UnpackAt(TradeFormat, msg, 7);
  }

  /** Every format the decoder unpacks is exactly as long as the payload the reader cuts for its tag. */
  lemma FormatsMatchTable()
    ensures Size(SystemEventFormat) == AllowedProtocols['S']
    ensures Size(StockDirectoryFormat) == AllowedProtocols['R']
    ensures Size(AddOrderFormat) == AllowedProtocols['A']
    ensures Size(AddOrderMpidFormat) == AllowedProtocols['F']
    ensures Size(OrderExecutedFormat) == AllowedProtocols['E']
    ensures Size(OrderExecutedWithPriceFormat) == AllowedProtocols['C']
    ensures Size(OrderReplaceFormat) == AllowedProtocols['U']
    ensures Size(TradeFormat) == AllowedProtocols['P']
  {
    SystemEventSize();
    StockDirectorySize();
    AddOrderSize();
    AddOrderMpidSize();
    OrderExecutedSize();
    OrderExecutedWithPriceSize();
    OrderReplaceSize();
    TradeSize();
  }

  /** System Event (S): code 'Q' records the open, 'M' the close, at the timestamp in bytes 4..10. */
  lemma SystemEventStep(st: State, msg: seq<byte>)
    ensures |msg| != 11 ==> Step(st, 'S', msg) == st
    ensures |msg| == 11 && msg[10] == 'Q' as byte ==>
      Step(st, 'S', msg) == st.(marketStarts := Some(FromBytes(msg[4..10])))
    ensures |msg| == 11 && msg[10] == 'M' as byte ==>
      Step(st, 'S', msg) == st.(marketEnds := Some(FromBytes(msg[4..10])))
    ensures |msg| == 11 && msg[10] != 'Q' as byte && msg[10] != 'M' as byte ==> Step(st, 'S', msg) == st
  {
    SystemEventSize();
    if |msg| == 11 {
      SystemEventRead(msg);
      assert msg[10..11] == [msg[10]];
    }
  }

  /** Stock Directory (R): locator from bytes 0..2 names the stripped ASCII symbol in bytes 10..18. */
  lemma StockDirectoryStep(st: State, msg: seq<byte>)
    ensures |msg| != 38 ==> Step(st, 'R', msg) == st
    ensures |msg| == 38 && DecodeAscii(msg[10..18]).None? ==> Step(st, 'R', msg) == st
    ensures |msg| == 38 && DecodeAscii(msg[10..18]).Some? ==>
      Step(st, 'R', msg) ==
        st.(symbols := st.symbols[FromBytes(msg[0..2]) := Strip(DecodeAscii(msg[10..18]).value)])
  {
    StockDirectorySize();
    if |msg| == 38 {
      StockDirectoryRead(msg);
    }
  }

  /** Add Order (A): the order id in bytes 10..18 gets the price in bytes 31..35. */
  lemma AddOrderStep(st: State, msg: seq<byte>)
    ensures |msg| != 35 ==> Step(st, 'A', msg) == st
    ensures |msg| == 35 ==>
      Step(st, 'A', msg) == st.(orders := st.orders[FromBytes(msg[10..18]) := FromBytes(msg[31..35])])
  {
    AddOrderSize();
    if |msg| == 35 {
      AddOrderRead(msg);
    }
  }

  /** Add Order with MPID (F): the same update as A, from a 39-byte payload. */
  lemma AddOrderMpidStep(st: State, msg: seq<byte>)
    ensures |msg| != 39 ==> Step(st, 'F', msg) == st
    ensures |msg| == 39 ==>
      Step(st, 'F', msg) == st.(orders := st.orders[FromBytes(msg[10..18]) := FromBytes(msg[31..35])])
  {
    AddOrderMpidSize();
    if |msg| == 39 {
      AddOrderMpidRead(msg);
    }
  }

  /**
   * Order Executed (E) after the open: the order id in bytes 10..18 must be
   * known; the fill carries the executed quantity (bytes 18..22), the order's
   * recorded price and the hour of the timestamp, and goes to the ledger of
   * the locator in bytes 0..2.
   */
  lemma OrderExecutedStep(st: State, msg: seq<byte>)
    requires Truthy(st.marketStarts)
    ensures |msg| != 30 ==> Step(st, 'E', msg) == st
    ensures |msg| == 30 && FromBytes(msg[10..18]) !in st.orders ==> Step(st, 'E', msg) == st
    ensures |msg| == 30 && FromBytes(msg[10..18]) in st.orders ==>
      Step(st, 'E', msg) == AppendFill(st, FromBytes(msg[0..2]),
        Fill(FromBytes(msg[18..22]), st.orders[FromBytes(msg[10..18])], Hour(FromBytes(msg[4..10]))))
  {
    OrderExecutedSize();
    if |msg| == 30 {
      OrderExecutedRead(msg);
    }
  }

  /**
   * Order Executed with Price (C) never records a fill: its printable flag is
   * a bytes object, which never equals the str "Y".
   */
  lemma OrderExecutedWithPriceIgnored(st: State, msg: seq<byte>)
    ensures Step(st, 'C', msg) == st
  {
  }

  /** Order Replace (U): the new order id in bytes 18..26 gets the new price in bytes 30..34. */
  lemma OrderReplaceStep(st: State, msg: seq<byte>)
    ensures |msg| != 34 ==> Step(st, 'U', msg) == st
    ensures |msg| == 34 ==>
      Step(st, 'U', msg) == st.(orders := st.orders[FromBytes(msg[18..26]) := FromBytes(msg[30..34])])
  {
    OrderReplaceSize();
    if |msg| == 34 {
      OrderReplaceRead(msg);
    }
  }

  /**
   * Trade (P) after the open: a fill of the shares in bytes 19..23 at the
   * price in bytes 31..35, in the hour of the timestamp, for the locator in
   * bytes 0..2.
   */
  lemma TradeStep(st: State, msg: seq<byte>)
    requires Truthy(st.marketStarts)
    ensures |msg| != 43 ==> Step(st, 'P', msg) == st
    ensures |msg| == 43 ==>
      Step(st, 'P', msg) == AppendFill(st, FromBytes(msg[0..2]),
        Fill(FromBytes(msg[19..23]), FromBytes(msg[31..35]), Hour(FromBytes(msg[4..10]))))
  {
    TradeSize();
    if |msg| == 43 {
      TradeRead(msg);
    }
  }

  /** Until the open has been seen (or while it is at timestamp 0), no message adds a fill. */
  lemma NoFillsBeforeOpen(st: State, tag: char, msg: seq<byte>)
    requires !Truthy(st.marketStarts)
    ensures Step(st, tag, msg).fills == st.fills
    ensures Step(st, tag, msg).fillOrder == st.fillOrder
    ensures tag in {'E', 'C', 'P'} ==> Step(st, tag, msg) == st
  {
  }

  /** A tag without a branch in the decoder leaves the session as it was. */
  lemma UndecodedTagIgnored(st: State, tag: char, msg: seq<byte>)
    requires tag !in {'S', 'R', 'A', 'F', 'E', 'C', 'U', 'P'}
    ensures Step(st, tag, msg) == st
  {
  }

  /** Every message keeps the ledger well formed. */
  lemma StepPreservesValid(st: State, tag: char, msg: seq<byte>)
    requires st.Valid()
    ensures Step(st, tag, msg).Valid()
  {
  }

  /** Every message only appends to the ledger. */
  lemma StepExtends(st: State, tag: char, msg: seq<byte>)
    ensures LedgerExtends(st, Step(st, tag, msg))
  {
  }

  /** Only a System Event message moves the open and close markers. */
  lemma OnlySystemEventsMoveMarkers(st: State, tag: char, msg: seq<byte>)
    requires tag != 'S'
    ensures Step(st, tag, msg).marketStarts == st.marketStarts
    ensures Step(st, tag, msg).marketEnds == st.marketEnds
  {
  }

  /**
   * An Add Order for order id `id` at 12.3400 followed, after the open, by an
   * Order Executed of 100 shares of that order in hour 9 on a fresh locator
   * leaves exactly the fill (100, 12.3400, 9) there, whose VWAP is 12.34.
   */
  lemma AddThenExecute(st: State, add: seq<byte>, exec: seq<byte>, id: nat)
    requires Truthy(st.marketStarts)
    requires |add| == 35 && FromBytes(add[10..18]) == id && FromBytes(add[31..35]) == 123400
    requires |exec| == 30 && FromBytes(exec[10..18]) == id && FromBytes(exec[18..22]) == 100
    requires Hour(FromBytes(exec[4..10])) == 9 && FromBytes(exec[0..2]) !in st.fills
    ensures var after := Step(Step(st, 'A', add), 'E', exec);
      && FromBytes(exec[0..2]) in after.fills
      && after.fills[FromBytes(exec[0..2])] == [Fill(100, 123400, 9)]
      && VwapSeries(after.fills[FromBytes(exec[0..2])]) == map[9 := 12.34]
  {
    AddOrderStep(st, add);
    var mid := Step(st, 'A', add);
    assert mid.orders[id] == 123400;
    OrderExecutedStep(mid, exec);
    SingleFill(Fill(100, 123400, 9));
  }
}
