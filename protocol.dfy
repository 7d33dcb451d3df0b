/**
 * The per-message decoder and the session state it updates
 * (`parser_message`): fixed-layout big-endian messages of a TotalView-ITCH
 * 5.0 style feed, the order price table, the symbol directory, the fill
 * ledger and the two market markers.
 */
module Protocol {
  import opened Wrappers
  import opened BigEndian
  import opened StructFormat
  import opened Text
  import opened Vwap

  /** Payload length (tag byte excluded) of every message type the reader knows. */
  const AllowedProtocols: map<char, nat> := map[
    'A' := 35, 'B' := 18, 'C' := 35, 'D' := 18, 'E' := 30, 'F' := 39, 'H' := 24,
    'I' := 49, 'J' := 34, 'K' := 27, 'L' := 25, 'N' := 19, 'P' := 43, 'Q' := 39,
    'R' := 38, 'S' := 11, 'U' := 34, 'V' := 34, 'W' := 11, 'X' := 22, 'Y' := 19,
    'h' := 20]

  /** The 6-byte nanoseconds-since-midnight timestamp every message carries as item 2. */
  const Timestamp: Item := Str(6)

  // The struct formats the decoder unpacks, item for item.
  const SystemEventFormat: seq<Item> := [H, H, Timestamp, C]
  const StockDirectoryFormat: seq<Item> :=
    [H, H, Timestamp, Str(8), C, C, I, C, C, Str(2), C, C, C, C, C, I, C]
  const AddOrderFormat: seq<Item> := [H, H, Timestamp, Q, C, I, Str(8), I]
  const AddOrderMpidFormat: seq<Item> := [H, H, Timestamp, Q, C, I, Str(8), I, Str(4)]
  const OrderExecutedFormat: seq<Item> := [H, H, Timestamp, Q, I, Q]
  const OrderExecutedWithPriceFormat: seq<Item> := [H, H, Timestamp, Q, I, Q, C, I]
  const OrderReplaceFormat: seq<Item> := [H, H, Timestamp, Q, Q, I, I]
  const TradeFormat: seq<Item> := [H, H, Timestamp, Q, C, I, Str(8), I, Q]

  const NanosPerHour: nat := 3600000000000

  /** `get_hour`: the hour-of-day bucket of a nanoseconds-since-midnight timestamp. */
  function Hour(ns: nat): (h: nat)
    ensures h * NanosPerHour <= ns < (h + 1) * NanosPerHour
  {
    ns / NanosPerHour
  }

  /**
   * The session: order id -> price in ticks, locator -> symbol, locator ->
   * fills in arrival order, the locators of the fill ledger in the order they
   * were first inserted (the ledger is an insertion-ordered dictionary), and
   * the market-open and market-close timestamps (None until seen).
   */
  datatype State = State(
    orders: map<nat, nat>,
    symbols: map<nat, string>,
    fills: map<nat, seq<Fill>>,
    fillOrder: seq<nat>,
    marketStarts: Option<nat>,
    marketEnds: Option<nat>)
  {
    /** fillOrder lists each ledger key exactly once, and no ledger entry is empty. */
    ghost predicate Valid()
    {
      && (forall j, k :: 0 <= j < k < |fillOrder| ==> fillOrder[j] != fillOrder[k])
      && (forall loc :: loc in fills <==> loc in fillOrder)
      && (forall loc :: loc in fills ==> fills[loc] != [])
    }
  }

  /** The ledger of b is the ledger of a with fills appended: no fill and no locator is ever dropped. */
  ghost predicate LedgerExtends(a: State, b: State)
  {
    && (forall loc :: loc in a.fills ==> loc in b.fills && a.fills[loc] <= b.fills[loc])
    && a.fillOrder <= b.fillOrder
  }

  const Initial: State := State(map[], map[], map[], [], None, None)

  /** Python truthiness of a marker: set, and not the timestamp 0. */
  predicate Truthy(marker: Option<nat>)
  {
    marker.Some? && marker.value != 0
  }

  /** Python's `==` between an int or bytes object and a str: never true. */
  predicate PyEqualsStr(v: Value, s: string)
  {
    match v
    case Int(_) => false
    case Bytes(_) => false
  }

  /** `order_fills[loc].append(f)` on the insertion-ordered ledger. */
  function AppendFill(st: State, loc: nat, f: Fill): (r: State)
    ensures st.Valid() ==> r.Valid()
    ensures LedgerExtends(st, r)
    ensures loc in r.fills && |r.fills[loc]| > 0 && r.fills[loc][|r.fills[loc]| - 1] == f
    ensures loc in st.fills ==> r.fills[loc][..|r.fills[loc]| - 1] == st.fills[loc]
    ensures loc !in st.fills ==> |r.fills[loc]| == 1
    ensures r.fillOrder == if loc in st.fills then st.fillOrder else st.fillOrder + [loc]
    ensures forall other :: other != loc ==> (other in r.fills <==> other in st.fills)
    ensures forall other :: other != loc && other in st.fills ==> r.fills[other] == st.fills[other]
    ensures r == st.(fills := r.fills, fillOrder := r.fillOrder)
  {
    if loc in st.fills then
      st.(fills := st.fills[loc := st.fills[loc] + [f]])
    else
      st.(fills := st.fills[loc := [f]], fillOrder := st.fillOrder + [loc])
  }

  function OnSystemEvent(st: State, msg: seq<byte>): State
  {
    match Unpack(SystemEventFormat, msg)
    case None => st
    case Some(v) =>
      if v[3] == Bytes(['Q' as byte]) then st.(marketStarts := Some(FromBytes(v[2].b)))
      else if v[3] == Bytes(['M' as byte]) then st.(marketEnds := Some(FromBytes(v[2].b)))
      else st
  }

  function OnStockDirectory(st: State, msg: seq<byte>): State
  {
    match Unpack(StockDirectoryFormat, msg)
    case None => st
    case Some(v) =>
      match DecodeAscii(v[3].b)
      case None => st
      case Some(text) => st.(symbols := st.symbols[v[0].n := Strip(text)])
  }

  function OnAddOrder(st: State, format: seq<Item>, msg: seq<byte>): State
    requires format == AddOrderFormat || format == AddOrderMpidFormat
  {
    match Unpack(format, msg)
    case None => st
    case Some(v) => st.(orders := st.orders[v[3].n := v[7].n])
  }

  function OnOrderExecuted(st: State, msg: seq<byte>): State
  {
    match Unpack(OrderExecutedFormat, msg)
    case None => st
    case Some(v) =>
      var id := v[3].n;
      if id !in st.orders then st
      else AppendFill(st, v[0].n, Fill(v[4].n, st.orders[id], Hour(FromBytes(v[2].b))))
  }

  function OnOrderExecutedWithPrice(st: State, msg: seq<byte>): State
  {
    match Unpack(OrderExecutedWithPriceFormat, msg)
    case None => st
    case Some(v) =>
      var loc, fill := v[0].n, Fill(v[4].n, v[7].n, Hour(FromBytes(v[2].b)));
      if PyEqualsStr(v[6], "Y") then AppendFill(st, loc, fill) else st
  }

  function OnOrderReplace(st: State, msg: seq<byte>): State
  {
    match Unpack(OrderReplaceFormat, msg)
    case None => st
    case Some(v) => st.(orders := st.orders[v[4].n := v[6].n])
  }

  function OnTrade(st: State, msg: seq<byte>): State
  {
    match Unpack(TradeFormat, msg)
    case None => st
    case Some(v) => AppendFill(st, v[0].n, Fill(v[5].n, v[7].n, Hour(FromBytes(v[2].b))))
  }

  /**
   * `parser_message(tag, msg)`: the state after one message. A payload of
   * the wrong size, an unknown order id or an undecodable symbol raises in
   * the original, where the exception is swallowed: the state is unchanged.
   */
  function Step(st: State, tag: char, msg: seq<byte>): State
  {
    if tag == 'S' then OnSystemEvent(st, msg)
    else if tag == 'R' then OnStockDirectory(st, msg)
    else if tag == 'A' then OnAddOrder(st, AddOrderFormat, msg)
    else if tag == 'F' then OnAddOrder(st, AddOrderMpidFormat, msg)
    else if tag == 'E' && Truthy(st.marketStarts) then OnOrderExecuted(st, msg)
    else if tag == 'C' && Truthy(st.marketStarts) then OnOrderExecutedWithPrice(st, msg)
    else if tag == 'U' then OnOrderReplace(st, msg)
    else if tag == 'P' && Truthy(st.marketStarts) then OnTrade(st, msg)
    else st
  }
}
