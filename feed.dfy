/**
 * The session as the program keeps it: the order table, the symbol
 * directory, the fill ledger and the two market markers, updated in place
 * by `parser_message` and the `parse_file` loop, then joined per symbol.
 */
module Feed {
  import opened Wrappers
  import opened BigEndian
  import opened StructFormat
  import opened Text
  import opened Vwap
  import opened Protocol
  import opened ProtocolFacts
  import opened Framing
  import opened Join

  class Session {
    /** order id -> price in ticks */
    var orders: map<nat, nat>
    /** stock locator -> symbol */
    var symbolsMapping: map<nat, string>
    /** stock locator -> fills in arrival order */
    var orderFills: map<nat, seq<Fill>>
    /** the ledger's locators in insertion order */
    var fillOrder: seq<nat>
    var marketStarts: Option<nat>
    var marketEnds: Option<nat>

    /** The session as a value. */
    function Snapshot(): State
      reads this
    {
      State(orders, symbolsMapping, orderFills, fillOrder, marketStarts, marketEnds)
    }

    ghost predicate Valid()
      reads this
    {
      Snapshot().Valid()
    }

    /** Empty tables and ledger, both markers unset. */
    constructor()
      ensures Snapshot() == Initial
      ensures Valid()
    {
      orders := map[];
      symbolsMapping := map[];
      orderFills := map[];
      fillOrder := [];
      marketStarts := None;
      marketEnds := None;
    }

    /** `order_fills[loc].append(f)` */
    method Append(loc: nat, f: Fill)
      modifies this
      ensures Snapshot() == AppendFill(old(Snapshot()), loc, f)
      ensures old(Valid()) ==> Valid()
    {
      if loc in orderFills {
        orderFills := orderFills[loc := orderFills[loc] + [f]];
      } else {
        orderFills := orderFills[loc := [f]];
        fillOrder := fillOrder + [loc];
      }
    }

    /**
     * `parser_message(tag, msg)`: decodes one payload and updates the
     * session in place; a payload that fails to unpack, an unknown order id
     * or an undecodable symbol leaves everything as it was.
     */
    method ParserMessage(tag: char, msg: seq<byte>)
      modifies this
      ensures Snapshot() == Step(old(Snapshot()), tag, msg)
      ensures old(Valid()) ==> Valid()
    {
      if tag == 'S' {
        SystemEvent(msg);
      } else if tag == 'R' {
        StockDirectory(msg);
      } else if tag == 'A' {
        AddOrder(AddOrderFormat, msg);
      } else if tag == 'F' {
        AddOrder(AddOrderMpidFormat, msg);
      } else if tag == 'E' && Truthy(marketStarts) {
        OrderExecuted(msg);
      } else if tag == 'C' && Truthy(marketStarts) {
        OrderExecutedWithPrice(msg);
      } else if tag == 'U' {
        OrderReplace(msg);
      } else if tag == 'P' && Truthy(marketStarts) {
        Trade(msg);
      }
      if old(Valid()) {
        StepPreservesValid(old(Snapshot()), tag, msg);
      }
    }

    method SystemEvent(msg: seq<byte>)
      modifies this
      ensures Snapshot() == OnSystemEvent(old(Snapshot()), msg)
    {
      var payload := Unpack(SystemEventFormat, msg);
      if payload.Some? {
        var v := payload.value;
        if v[3] == Bytes(['Q' as byte]) {
          marketStarts := Some(FromBytes(v[2].b));
        } else if v[3] == Bytes(['M' as byte]) {
          marketEnds := Some(FromBytes(v[2].b));
        }
      }
    }

    method StockDirectory(msg: seq<byte>)
      modifies this
      ensures Snapshot() == OnStockDirectory(old(Snapshot()), msg)
    {
      var payload := Unpack(StockDirectoryFormat, msg);
      if payload.Some? {
        var v := payload.value;
        var text := DecodeAscii(v[3].b);
        if text.Some? {
          symbolsMapping := symbolsMapping[v[0].n := Strip(text.value)];
        }
      }
    }

    method AddOrder(format: seq<Item>, msg: seq<byte>)
      requires format == AddOrderFormat || format == AddOrderMpidFormat
      modifies this
      ensures Snapshot() == OnAddOrder(old(Snapshot()), format, msg)
    {
      var payload := Unpack(format, msg);
      if payload.Some? {
        var v := payload.value;
        orders := orders[v[3].n := v[7].n];
      }
    }

    method OrderExecuted(msg: seq<byte>)
      modifies this
      ensures Snapshot() == OnOrderExecuted(old(Snapshot()), msg)
    {
      var payload := Unpack(OrderExecutedFormat, msg);
      if payload.Some? {
        var v := payload.value;
        var id := v[3].n;
        if id in orders {
          Append(v[0].n, Fill(v[4].n, orders[id], Hour(FromBytes(v[2].b))));
        }
      }
    }

    method OrderExecutedWithPrice(msg: seq<byte>)
      modifies this
      ensures Snapshot() == OnOrderExecutedWithPrice(old(Snapshot()), msg)
    {
      var payload := Unpack(OrderExecutedWithPriceFormat, msg);
      if payload.Some? {
        var v := payload.value;
        if PyEqualsStr(v[6], "Y") {
          // The append of (v[4], v[7], hour of v[2]) to the ledger of v[0]
          // sits here in the source; a bytes object never equals a str.
          assert false;
        }
      }
    }

    method OrderReplace(msg: seq<byte>)
      modifies this
      ensures Snapshot() == OnOrderReplace(old(Snapshot()), msg)
    {
      var payload := Unpack(OrderReplaceFormat, msg);
      if payload.Some? {
        var v := payload.value;
        orders := orders[v[4].n := v[6].n];
      }
    }

    method Trade(msg: seq<byte>)
      modifies this
      ensures Snapshot() == OnTrade(old(Snapshot()), msg)
    {
      var payload := Unpack(TradeFormat, msg);
      if payload.Some? {
        var v := payload.value;
        Append(v[0].n, Fill(v[5].n, v[7].n, Hour(FromBytes(v[2].b))));
      }
    }

    /**
     * The `parse_file` loop over the decompressed input: until the close
     * marker is truthy, read a tag byte, skip it if the table lacks it, and
     * otherwise hand the next table-length bytes to the decoder. At the end
     * of the input the loop stops with `Exhausted`.
     */
    method ParseFile(data: seq<byte>) returns (outcome: Outcome)
      modifies this
      ensures (Snapshot(), outcome) == Run(old(Snapshot()), data, 0)
      ensures old(Valid()) ==> Valid()
    {
      var pos := 0;
      while !Truthy(marketEnds)
        invariant pos <= |data|
        invariant Run(Snapshot(), data, pos) == Run(old(Snapshot()), data, 0)
        invariant old(Valid()) ==> Valid()
        decreases |data| - pos
      {
        if pos == |data| {
          return Exhausted;
        }
        var b := data[pos];
        if b >= 128 {
          return Aborted(pos);
        }
        var tag := b as char;
        if tag !in AllowedProtocols {
          pos := pos + 1;
          continue;
        }
        var next := Min(pos + 1 + AllowedProtocols[tag], |data|);
        ParserMessage(tag, data[pos + 1..next]);
        assert NextFrame(data, pos) == Message(tag, data[pos + 1..next], next);
        pos := next;
      }
      outcome := Closed(pos);
    }

    /**
     * The join in `main`: for each ledger locator in insertion order, the
     * VWAP series of its fills under its symbol; the first locator without
     * a directory entry stops it.
     */
    method VwapBySymbol() returns (r: Result<map<string, map<nat, real>>, nat>)
      requires Valid()
      ensures r == SymbolVwaps(fillOrder, orderFills, symbolsMapping)
    {
      var bySymbol: map<string, map<nat, real>> := map[];
      for i := 0 to |fillOrder|
        invariant SymbolVwaps(fillOrder[..i], orderFills, symbolsMapping) == Success(bySymbol)
      {
        var loc := fillOrder[i];
        assert fillOrder[..i + 1][..i] == fillOrder[..i];
        if loc !in symbolsMapping {
          assert forall j :: 0 <= j < i ==> fillOrder[j] in symbolsMapping by {
            forall j | 0 <= j < i
              ensures fillOrder[j] in symbolsMapping
            {
              assert fillOrder[..i][j] == fillOrder[j];
            }
          }
          FailsAtFirstUnmapped(fillOrder, orderFills, symbolsMapping, i);
          return Failure(loc);
        }
        var series := CalculateVwap(orderFills[loc]);
        assert series == VwapSeries(orderFills[loc]);
        bySymbol := bySymbol[symbolsMapping[loc] := series];
      }
      assert fillOrder[..|fillOrder|] == fillOrder;
      r := Success(bySymbol);
    }
  }

  /** What a whole run produces. */
  datatype Report =
    | DecodeAborted(pos: nat)
    | UnmappedLocator(loc: nat)
    | Vwaps(bySymbol: map<string, map<nat, real>>)

  /** Decode the whole input from an empty session, then join the ledger per symbol. */
  function Pipeline(data: seq<byte>): Report
  {
    var (st, outcome) := Run(Initial, data, 0);
    if outcome.Aborted? then DecodeAborted(outcome.pos)
    else
      RunPreservesValid(Initial, data, 0);
      match SymbolVwaps(st.fillOrder, st.fills, st.symbols)
      case Failure(loc) => UnmappedLocator(loc)
      case Success(m) => Vwaps(m)
  }

  /** The program's core from input bytes to the per-symbol VWAP series. */
  method Analyze(data: seq<byte>) returns (report: Report)
    ensures report == Pipeline(data)
  {
    var session := new Session();
    var outcome := session.ParseFile(data);
    if outcome.Aborted? {
      return DecodeAborted(outcome.pos);
    }
    var r := session.VwapBySymbol();
    match r {
      case Failure(loc) => report := UnmappedLocator(loc);
      case Success(m) => report := Vwaps(m);
    }
  }

  /** Bytes after the frame that closes the market do not change the report. */
  lemma PipelineIgnoresBytesAfterClose(data: seq<byte>, tail: seq<byte>)
    requires Run(Initial, data, 0).1.Closed?
    ensures Run(Initial, data, 0).1.pos <= |data|
    ensures Pipeline(data[..Run(Initial, data, 0).1.pos] + tail) == Pipeline(data)
  {
    UnreadAfterClose(Initial, data, 0, tail);
  }
}
