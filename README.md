# Hourly VWAP from a TotalView-ITCH 5.0 feed, in Dafny

This project models the core of `nasdaq_runinning_vmap.py`. That program reads a
NASDAQ TotalView-ITCH 5.0 style binary feed and computes, per stock symbol, a
cumulative volume-weighted average price (VWAP) for every hour of the day in
which the stock traded.

It has four parts, each modelled here:

- **Frame loop** (`parse_file`). The program reads one tag byte. A tag that is
  missing from the payload-length table is skipped one byte at a time. A known
  tag is followed by exactly that many payload bytes. The loop ends once the
  market-close marker is truthy.
  - `Framing.Run` is the specification.
  - `Feed.Session.ParseFile` is the loop. It updates the session in place.
- **Decoder** (`parser_message`). It unpacks big-endian fixed-offset fields for
  the tags S, R, A, F, E, C, U and P. It then updates the session:
  - the order table (order id → price);
  - the symbol directory (stock locator → symbol);
  - the insertion-ordered fill ledger (locator → list of (qty, price, hour));
  - the market open and close markers.

  Any error inside a message is swallowed, so the session stays as it was.
  - `Protocol.Step` is the specification.
  - `Feed.Session.ParserMessage` is the in-place update.
  - `ProtocolFacts` states, per tag, which payload bytes feed which entry.
- **Hour bucketing** (`get_hour`): `Protocol.Hour`.
- **Cumulative VWAP** (`calculate_vwap`) and the per-symbol join in `main`.
  - `Vwap.CalculateVwap` and `Feed.Session.VwapBySymbol` are the loops.
  - `Vwap.VwapSeries` and `Join.SymbolVwaps` are their specifications.
  - `Feed.Analyze` runs the whole pipeline. It is proved equal to `Feed.Pipeline`.

Prices are kept as integer ticks of 1/10000 of a currency unit, where the
original divides by `10**4` into a float. Turnover sums are exact integers. A
VWAP is the real number `(turnover / 10000) / volume`, or `0` when the
cumulative volume is 0.

The session is `Protocol.State` as a value and `Feed.Session` as an object.
Its ledger carries an invariant, `State.Valid`:

- the insertion order lists each locator with fills exactly once;
- no locator has an empty list.

The Order Executed With Price message (C) never records a fill, in the source
or in the model. Its printable flag is unpacked as a one-byte `bytes` object
and compared with the `str` `'Y'`, and in Python that comparison is always
false. The model reproduces this and proves it
(`ProtocolFacts.OrderExecutedWithPriceIgnored`). It is most likely a latent
defect: the flag was meant to be compared with `b'Y'`. The model does not guess
the fix.

Module layout:

| file | module | contents |
|---|---|---|
| wrappers.dfy | Wrappers | `Option`, `Result` |
| big_endian.dfy | BigEndian | unsigned big-endian integers (`int.from_bytes(..., 'big')` and struct `H`/`I`/`Q`) |
| struct_format.dfy | StructFormat | `struct.unpack` for network-order formats of `H I Q c Ns` |
| text.dfy | Text | ASCII `bytes.decode` and `str.strip` |
| vwap.dfy | Vwap | fills, range sums, the VWAP series, `calculate_vwap` |
| protocol.dfy | Protocol | table, formats, `get_hour`, session state, the decoder as a function |
| protocol_facts.dfy | ProtocolFacts | layouts and per-tag effects of the decoder |
| framing.dfy | Framing | the frame loop as a function, and its properties |
| join.dfy | Join | the per-symbol join |
| feed.dfy | Feed | the `Session` class, its methods and the whole pipeline |

## Model

| member | source | states |
|---|---|---|
| BigEndian.FromBytes | nasdaq_runinning_vmap.py:86 | the big-endian value of n bytes is below 256^n |
| BigEndian.FromBytesCons | nasdaq_runinning_vmap.py:86 | the leading byte weighs 256^(number of bytes after it) |
| BigEndian.FromToBytes | nasdaq_runinning_vmap.py:112 | encoding a value below 256^w into w bytes and decoding it gives the value back |
| BigEndian.ToFromBytes | nasdaq_runinning_vmap.py:112 | decoding then re-encoding at the same width gives back the bytes |
| StructFormat.Unpack | nasdaq_runinning_vmap.py:83 | unpacking succeeds exactly when the buffer has the format's size; then one value per item, bytes for `c`/`Ns` and an integer otherwise |
| StructFormat.UnpackAt | nasdaq_runinning_vmap.py:93 | item k is read from the Width(item) bytes at the sum of the widths before it |
| Text.DecodeAscii | nasdaq_runinning_vmap.py:94 | decoding succeeds exactly when every byte is ASCII, and then keeps every byte as a character |
| Text.Strip | nasdaq_runinning_vmap.py:94 | the result is the slice of the input after the leading whitespace; only whitespace follows it; it neither starts nor ends with whitespace |
| Text.StripIdempotent | nasdaq_runinning_vmap.py:94 | stripping twice is stripping once |
| Protocol.Hour | nasdaq_runinning_vmap.py:24-27 | the hour h of a timestamp satisfies h·3.6e12 ≤ ns < (h+1)·3.6e12 |
| Protocol.AppendFill | nasdaq_runinning_vmap.py:114 | appending a fill keeps the ledger valid; it adds exactly that fill at the end of that locator's list; it adds a new locator at the end of the insertion order; it changes no other list |
| ProtocolFacts.FormatsMatchTable | nasdaq_runinning_vmap.py:20 | every struct layout the decoder unpacks has exactly the table's payload length: S=11, R=38, A=35, F=39, E=30, C=35, U=34, P=43 |
| ProtocolFacts.SystemEventRead | nasdaq_runinning_vmap.py:83 | in an 11-byte System Event payload the timestamp is bytes 4..10 and the event code is byte 10 |
| ProtocolFacts.StockDirectoryRead | nasdaq_runinning_vmap.py:93-94 | in a 38-byte Stock Directory payload the locator is bytes 0..2 and the symbol is bytes 10..18 |
| ProtocolFacts.AddOrderRead | nasdaq_runinning_vmap.py:99-100 | in a 35-byte Add Order payload the order id is bytes 10..18 and the price is bytes 31..35 |
| ProtocolFacts.AddOrderMpidRead | nasdaq_runinning_vmap.py:105-106 | in a 39-byte Add Order (MPID) payload the order id is bytes 10..18 and the price is bytes 31..35 |
| ProtocolFacts.OrderExecutedRead | nasdaq_runinning_vmap.py:111-112 | in a 30-byte Order Executed payload: locator 0..2, timestamp 4..10, order id 10..18, quantity 18..22 |
| ProtocolFacts.OrderExecutedWithPriceRead | nasdaq_runinning_vmap.py:118-121 | in a 35-byte Order Executed With Price payload: locator 0..2, timestamp 4..10, quantity 18..22, printable flag byte 30, price 31..35 |
| ProtocolFacts.OrderReplaceRead | nasdaq_runinning_vmap.py:126-127 | in a 34-byte Order Replace payload the new order id is bytes 18..26 and the price is bytes 30..34 |
| ProtocolFacts.TradeRead | nasdaq_runinning_vmap.py:133-135 | in a 43-byte Trade payload: locator 0..2, timestamp 4..10, shares 19..23, price 31..35 |
| ProtocolFacts.SystemEventStep | nasdaq_runinning_vmap.py:81-89 | code 'Q' sets the open marker and code 'M' the close marker to the 48-bit timestamp; any other code or a wrong-sized payload changes nothing |
| ProtocolFacts.StockDirectoryStep | nasdaq_runinning_vmap.py:91-95 | the locator is mapped to the stripped symbol, overwriting any earlier entry; a non-ASCII symbol or a wrong-sized payload changes nothing |
| ProtocolFacts.AddOrderStep | nasdaq_runinning_vmap.py:97-101 | exactly one order-table entry is set, id → price; a wrong-sized payload changes nothing |
| ProtocolFacts.AddOrderMpidStep | nasdaq_runinning_vmap.py:103-107 | exactly one order-table entry is set, id → price; a wrong-sized payload changes nothing |
| ProtocolFacts.OrderExecutedStep | nasdaq_runinning_vmap.py:109-114 | after the open, the fill (quantity, recorded price of the order, hour) is appended to the locator's ledger; an unknown order id or a wrong-sized payload changes nothing |
| ProtocolFacts.OrderExecutedWithPriceIgnored | nasdaq_runinning_vmap.py:116-122 | a C message never changes the session |
| ProtocolFacts.OrderReplaceStep | nasdaq_runinning_vmap.py:124-129 | exactly one order-table entry is set, new id → new price; a wrong-sized payload changes nothing |
| ProtocolFacts.TradeStep | nasdaq_runinning_vmap.py:131-136 | after the open, the fill (shares, price, hour) is appended to the locator's ledger; a wrong-sized payload changes nothing |
| ProtocolFacts.NoFillsBeforeOpen | nasdaq_runinning_vmap.py:109-137 | while the open marker is unset or 0, no message changes the ledger, and E, C and P messages change nothing at all |
| ProtocolFacts.UndecodedTagIgnored | nasdaq_runinning_vmap.py:137 | a tag other than S, R, A, F, E, C, U, P changes nothing |
| ProtocolFacts.StepPreservesValid | nasdaq_runinning_vmap.py:66-140 | every message keeps the ledger valid |
| ProtocolFacts.StepExtends | nasdaq_runinning_vmap.py:66-140 | every message only appends: no fill and no locator is ever removed from the ledger |
| ProtocolFacts.OnlySystemEventsMoveMarkers | nasdaq_runinning_vmap.py:79-89 | only S changes the open and close markers |
| ProtocolFacts.AddThenExecute | nasdaq_runinning_vmap.py:97-114 | Add Order at 12.3400, then Execute of 100 shares in hour 9, leaves the fill (100, 12.3400, 9), whose VWAP series is {9: 12.34} |
| Framing.NextFrame | nasdaq_runinning_vmap.py:155-159 | a non-ASCII tag aborts; a tag missing from the table skips one byte; a known tag takes exactly its table length of payload, or what remains of the input |
| Framing.UnknownTagSkipsOneByte | nasdaq_runinning_vmap.py:157 | an unknown tag consumes one byte and changes no state |
| Framing.KnownTagReadsWholeFrame | nasdaq_runinning_vmap.py:159 | a known tag with a whole frame left consumes 1 + table length bytes and decodes exactly that payload |
| Framing.ShortPayloadIgnored | nasdaq_runinning_vmap.py:139-140 | a payload cut short by the end of input fails to unpack for every table tag, and the swallowed error leaves the whole session unchanged |
| Framing.ClosedIffMarketEnds | nasdaq_runinning_vmap.py:154 | the run ends Closed exactly when the final close marker is truthy |
| Framing.OutcomeInRange | nasdaq_runinning_vmap.py:154-159 | the cursor never moves backwards or past the input: where the run closes or aborts lies between its start and the end of the input |
| Framing.UnreadAfterClose | nasdaq_runinning_vmap.py:154 | once the run closes at p, any bytes may replace those from p on without changing the run |
| Framing.RunPreservesValid | nasdaq_runinning_vmap.py:154-159 | a whole run keeps the ledger valid |
| Framing.RunExtends | nasdaq_runinning_vmap.py:154-159 | a whole run only appends to the ledger |
| Vwap.AppendOne | nasdaq_runinning_vmap.py:49-51 | one more fill adds its price·qty and qty to the range sums covering its hour |
| Vwap.Concat | nasdaq_runinning_vmap.py:45-51 | the range sums distribute over concatenation |
| Vwap.Split | nasdaq_runinning_vmap.py:54-56 | the sums over (lo, hi] are the sums over (lo, mid] plus (mid, hi] |
| Vwap.EmptyRange | nasdaq_runinning_vmap.py:48 | an empty hour range has zero sums |
| Vwap.NoVolumeNoTurnover | nasdaq_runinning_vmap.py:59-62 | zero volume over a range implies zero turnover over it |
| Vwap.Permutation | nasdaq_runinning_vmap.py:45-51 | reordering fills leaves every range sum unchanged |
| Vwap.OrderIndependent | nasdaq_runinning_vmap.py:29-64 | reordering fills leaves the whole VWAP series unchanged |
| Vwap.VolumeMonotone | nasdaq_runinning_vmap.py:56 | cumulative volume Q(h) never decreases as h grows |
| Vwap.VwapTimesVolume | nasdaq_runinning_vmap.py:59-62 | VWAP(h)·Q(h) equals the cumulative turnover S(h) in currency units |
| Vwap.Blend | nasdaq_runinning_vmap.py:54-62 | VWAP(h2)·Q(h2) = VWAP(h1)·Q(h1) + turnover of the hours in (h1, h2] |
| Vwap.ZeroVolumeZeroVwap | nasdaq_runinning_vmap.py:61-62 | with no volume up to and including h, VWAP(h) is exactly 0 |
| Vwap.ZeroVolume | nasdaq_runinning_vmap.py:56 | fills of quantity 0 up to h give cumulative volume 0 |
| Vwap.TwoTradesExample | nasdaq_runinning_vmap.py:45-62 | 50 @ 10.00 and 150 @ 20.00 in one hour: turnover 3500, volume 200, VWAP 17.50 |
| Vwap.SingleFill | nasdaq_runinning_vmap.py:45-62 | a single fill of positive quantity has its own price as VWAP |
| Vwap.SortedHours | nasdaq_runinning_vmap.py:54 | returns the hours of the set in strictly increasing order, each exactly once |
| Vwap.Least | nasdaq_runinning_vmap.py:54 | a non-empty finite set of hours has a least element |
| Vwap.NextHour | nasdaq_runinning_vmap.py:54-56 | the running sums through the k-th sorted hour are those through the previous hour plus that hour's bucket |
| Vwap.AddToBucket | nasdaq_runinning_vmap.py:47-51 | creating the bucket at (0, 0) and adding price·qty and qty keeps every bucket equal to its hour's sums |
| Vwap.BucketByHour | nasdaq_runinning_vmap.py:45-51 | the keys of `trades` are the hours of the fills; each entry is that hour's (Σ price·qty, Σ qty) |
| Vwap.CalculateVwap | nasdaq_runinning_vmap.py:29-64 | the keys of the result are exactly the hours of the fills; each value is S(h)/Q(h) over all fills with hour ≤ h, or 0 when Q(h) = 0 |
| Join.SymbolVwaps | nasdaq_runinning_vmap.py:207-210 | the join succeeds exactly when every ledger locator has a directory entry; a failure names a locator without one; on success the keys are the symbols of the ledger's locators |
| Join.FailsAtFirstUnmapped | nasdaq_runinning_vmap.py:208-209 | the failure is the first locator, in ledger order, that has no directory entry |
| Join.LastWriterWins | nasdaq_runinning_vmap.py:210 | a symbol holds the series of the last locator in ledger order that maps to it |
| Feed.Session.constructor | nasdaq_runinning_vmap.py:13-15 | a new session has empty tables and ledger and unset markers (line 22) |
| Feed.Session.Append | nasdaq_runinning_vmap.py:114 | the in-place append does what `AppendFill` specifies and keeps the session valid |
| Feed.Session.ParserMessage | nasdaq_runinning_vmap.py:66-140 | the in-place update leaves the session equal to `Step` of its old value and keeps it valid |
| Feed.Session.SystemEvent | nasdaq_runinning_vmap.py:81-89 | the in-place S update equals `OnSystemEvent` |
| Feed.Session.StockDirectory | nasdaq_runinning_vmap.py:91-95 | the in-place R update equals `OnStockDirectory` |
| Feed.Session.AddOrder | nasdaq_runinning_vmap.py:97-107 | the in-place A/F update equals `OnAddOrder` |
| Feed.Session.OrderExecuted | nasdaq_runinning_vmap.py:109-114 | the in-place E update equals `OnOrderExecuted` |
| Feed.Session.OrderExecutedWithPrice | nasdaq_runinning_vmap.py:116-122 | the in-place C update equals `OnOrderExecutedWithPrice`; its append branch is unreachable |
| Feed.Session.OrderReplace | nasdaq_runinning_vmap.py:124-129 | the in-place U update equals `OnOrderReplace` |
| Feed.Session.Trade | nasdaq_runinning_vmap.py:131-136 | the in-place P update equals `OnTrade` |
| Feed.Session.ParseFile | nasdaq_runinning_vmap.py:154-164 | the loop leaves the session and outcome that `Run` gives from the old session at position 0, and keeps the session valid |
| Feed.Session.VwapBySymbol | nasdaq_runinning_vmap.py:207-210 | the join loop returns `SymbolVwaps` of the ledger, its insertion order and the directory |
| Feed.Analyze | nasdaq_runinning_vmap.py:204-210 | decoding from a fresh session and then joining returns `Pipeline(data)` |
| Feed.PipelineIgnoresBytesAfterClose | nasdaq_runinning_vmap.py:154 | bytes after the frame that closes the market do not change the report |

## Left out

- Reading the gzip file, opening and closing it, and `file.read` are left out. The input is the already decompressed byte sequence.
- JSON output (`json_to_file`), the output file name (`path_leaf`), the command line and the interactive prompt, and the `time_it` decorator are left out. They are I/O, path plumbing and instrumentation.
- `print`, `traceback` and the progress counter are left out. A swallowed exception is modelled as an unchanged session.
- Floating point is not modelled. Prices are exact integer ticks instead of `price/10**4` floats, `get_hour` divides integers instead of using `ns // 3.6e12`, and VWAP is an exact real instead of a double. For 48-bit timestamps the float hour equals the integer one.
- The commented-out thread pool and lock are not modelled. That concurrency is not live code.
- Framing.Run: at end of input without a close event, the original reads `b''` forever and never returns. The model stops with `Exhausted`, and `Feed.Pipeline` goes on to the join from there.
- Framing.Run: a tag byte ≥ 128 makes `.decode()` raise outside the message handler, which ends the program. The model stops with `Aborted(pos)`, and the report is `DecodeAborted`.
- Join.SymbolVwaps: a locator without a directory entry raises `KeyError` in `main`, which ends the program. The model returns `Failure(loc)`, and the report is `UnmappedLocator`.
- Text.DecodeAscii: only ASCII symbol bytes decode. A symbol holding valid multi-byte UTF-8 counts as a decoding failure, so the directory is left unchanged, whereas Python would store it. ITCH symbols are ASCII.
