/**
 * The per-symbol join at the end of a run: for every locator of the fill
 * ledger, in ledger order, look up its symbol and store the VWAP series of
 * its fills under that symbol.
 */
module Join {
  import opened Wrappers
  import opened Vwap

  /**
   * `vwap_symbol_wise[symbols_mapping[loc]] = calculate_vwap(records)` over
   * the ledger in insertion order `order`. A locator without a directory
   * entry raises `KeyError`, which ends the program: `Failure(loc)`. A later
   * locator with the same symbol overwrites an earlier one.
   */
  function SymbolVwaps(order: seq<nat>, fills: map<nat, seq<Fill>>, symbols: map<nat, string>)
    : (r: Result<map<string, map<nat, real>>, nat>)
    requires forall loc :: loc in order ==> loc in fills
    ensures r.Success? <==> forall loc :: loc in order ==> loc in symbols
    ensures r.Failure? ==> r.error in order && r.error !in symbols
    ensures r.Success? ==> r.value.Keys == set loc | loc in order && loc in symbols :: symbols[loc]
  {
    if order == [] then Success(map[])
    else
      var init, loc := order[..|order| - 1], order[|order| - 1];
      assert forall l :: l in order <==> l in init || l == loc;
      match SymbolVwaps(init, fills, symbols)
      case Failure(e) => Failure(e)
      case Success(m) =>
        if loc !in symbols then Failure(loc)
        else Success(m[symbols[loc] := VwapSeries(fills[loc])])
  }

  /** The join fails at the first locator, in ledger order, that has no directory entry. */
  lemma {:induction false} FailsAtFirstUnmapped(order: seq<nat>, fills: map<nat, seq<Fill>>, symbols: map<nat, string>, i: nat)
    requires forall loc :: loc in order ==> loc in fills
    requires i < |order| && order[i] !in symbols
    requires forall j :: 0 <= j < i ==> order[j] in symbols
    ensures SymbolVwaps(order, fills, symbols) == Failure(order[i])
    decreases |order|
  {
    var init := order[..|order| - 1];
    if i < |order| - 1 {
      assert init[i] == order[i];
      FailsAtFirstUnmapped(init, fills, symbols, i);
    } else {
      assert forall l :: l in init ==> l in symbols by {
        forall l | l in init
          ensures l in symbols
        {
          var j :| 0 <= j < |init| && init[j] == l;
          assert order[j] == l;
        }
      }
    }
  }

  /**
   * A locator whose symbol no later locator shares contributes its own
   * series under that symbol: the last writer for a symbol wins.
   */
  lemma {:induction false} LastWriterWins(order: seq<nat>, fills: map<nat, seq<Fill>>, symbols: map<nat, string>, j: nat)
    requires forall loc :: loc in order ==> loc in fills
    requires SymbolVwaps(order, fills, symbols).Success?
    requires j < |order|
    requires forall k :: j < k < |order| ==> symbols[order[k]] != symbols[order[j]]
    ensures order[j] in symbols
    ensures SymbolVwaps(order, fills, symbols).value[symbols[order[j]]] == VwapSeries(fills[order[j]])
    decreases |order|
  {
    var init := order[..|order| - 1];
    assert order[j] in order;
    if j < |order| - 1 {
      assert init[j] == order[j];
      assert forall k :: j < k < |init| ==> init[k] == order[k];
      LastWriterWins(init, fills, symbols, j);
    }
  }
}
