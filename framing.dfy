/**
 * The frame loop (`parse_file`) over an already decompressed byte stream:
 * a one-byte tag, then exactly the table's payload length for a known tag,
 * until the market-close marker is set.
 */
module Framing {
  import opened BigEndian
  import opened StructFormat
  import opened Protocol
  import opened ProtocolFacts

  /**
   * How a run of the loop ends. `Closed(pos)`: the close marker became
   * truthy and `pos` bytes were consumed. `Exhausted`: the input ran out
   * before any close (the original keeps reading empty tags forever there).
   * `Aborted(pos)`: the tag byte at `pos` is not ASCII and decoding it as
   * UTF-8 raises outside the per-message error handler.
   */
  datatype Outcome = Closed(pos: nat) | Exhausted | Aborted(pos: nat)

  /** What the loop does with the byte at the cursor. */
  datatype Frame =
    | BadTag
    | Skip
    | Message(tag: char, payload: seq<byte>, next: nat)

  function Min(a: nat, b: nat): nat
  {
    if a <= b then a else b
  }

  /**
   * One iteration of the loop body at `pos`: a non-ASCII tag aborts, a tag
   * missing from the table skips one byte, and a known tag reads up to its
   * payload length (fewer bytes at the end of the input).
   */
  function NextFrame(data: seq<byte>, pos: nat): (fr: Frame)
    requires pos < |data|
    ensures fr.BadTag? <==> data[pos] >= 128
    ensures fr.Skip? <==> data[pos] < 128 && data[pos] as char !in AllowedProtocols
    ensures fr.Message? ==>
      && fr.tag == data[pos] as char && fr.tag in AllowedProtocols
      && pos < fr.next <= |data|
      && fr.payload == data[pos + 1..fr.next]
      && (pos + 1 + AllowedProtocols[fr.tag] <= |data| ==> fr.next == pos + 1 + AllowedProtocols[fr.tag])
      && (pos + 1 + AllowedProtocols[fr.tag] > |data| ==> fr.next == |data|)
  {
    if data[pos] >= 128 then BadTag
    else
      var tag := data[pos] as char;
      if tag !in AllowedProtocols then Skip
      else
        var next := Min(pos + 1 + AllowedProtocols[tag], |data|);
        Message(tag, data[pos + 1..next], next)
  }

  /**
   * `while not market_ends: ...` from cursor `pos`: the final session and
   * how the loop ended.
   */
  function Run(st: State, data: seq<byte>, pos: nat): (State, Outcome)
    requires pos <= |data|
    decreases |data| - pos
  {
    if Truthy(st.marketEnds) then (st, Closed(pos))
    else if pos == |data| then (st, Exhausted)
    else
      match NextFrame(data, pos)
      case BadTag => (st, Aborted(pos))
      case Skip => Run(st, data, pos + 1)
      case Message(tag, payload, next) => Run(Step(st, tag, payload), data, next)
  }

  /** A tag outside the table consumes exactly one byte and changes nothing. */
  lemma UnknownTagSkipsOneByte(st: State, data: seq<byte>, pos: nat)
    requires pos < |data| && !Truthy(st.marketEnds)
    requires data[pos] < 128 && data[pos] as char !in AllowedProtocols
    ensures Run(st, data, pos) == Run(st, data, pos + 1)
  {
  }

  /** A known tag with a whole frame left consumes exactly 1 + its table length and decodes that payload. */
  lemma KnownTagReadsWholeFrame(st: State, data: seq<byte>, pos: nat, tag: char)
    requires pos < |data| && !Truthy(st.marketEnds)
    requires data[pos] < 128 && tag == data[pos] as char && tag in AllowedProtocols
    requires pos + 1 + AllowedProtocols[tag] <= |data|
    ensures Run(st, data, pos) ==
      Run(Step(st, tag, data[pos + 1..pos + 1 + AllowedProtocols[tag]]), data, pos + 1 + AllowedProtocols[tag])
  {
  }

  /**
   * A payload cut short by the end of the input fails to unpack for every
   * tag the decoder handles, and the swallowed error leaves the session as
   * it was.
   */
  lemma ShortPayloadIgnored(st: State, tag: char, payload: seq<byte>)
    requires tag in AllowedProtocols && |payload| < AllowedProtocols[tag]
    ensures Step(st, tag, payload) == st
  {
    FormatsMatchTable();
  }

  /** The loop ends with Closed exactly when the final close marker is truthy. */
  lemma {:induction false} ClosedIffMarketEnds(st: State, data: seq<byte>, pos: nat)
    requires pos <= |data|
    ensures Run(st, data, pos).1.Closed? <==> Truthy(Run(st, data, pos).0.marketEnds)
    decreases |data| - pos
  {
    if !Truthy(st.marketEnds) && pos < |data| {
      match NextFrame(data, pos)
      case BadTag =>
      case Skip => ClosedIffMarketEnds(st, data, pos + 1);
      case Message(tag, payload, next) => ClosedIffMarketEnds(Step(st, tag, payload), data, next);
    }
  }

  /** The cursor never moves backwards: a Closed or Aborted position lies between the start and the end. */
  lemma {:induction false} OutcomeInRange(st: State, data: seq<byte>, pos: nat)
    requires pos <= |data|
    ensures Run(st, data, pos).1.Closed? ==> pos <= Run(st, data, pos).1.pos <= |data|
    ensures Run(st, data, pos).1.Closed? && !Truthy(st.marketEnds) ==> pos < Run(st, data, pos).1.pos
    ensures Run(st, data, pos).1.Aborted? ==> pos <= Run(st, data, pos).1.pos < |data|
    decreases |data| - pos
  {
    if !Truthy(st.marketEnds) && pos < |data| {
      match NextFrame(data, pos)
      case BadTag =>
      case Skip => OutcomeInRange(st, data, pos + 1);
      case Message(tag, payload, next) => OutcomeInRange(Step(st, tag, payload), data, next);
    }
  }

  /**
   * Nothing after the close is read: once the run closes at p, replacing
   * every byte from p on by any other bytes gives the same run.
   */
  lemma {:induction false} UnreadAfterClose(st: State, data: seq<byte>, pos: nat, tail: seq<byte>)
    requires pos <= |data| && Run(st, data, pos).1.Closed?
    ensures pos <= Run(st, data, pos).1.pos <= |data|
    ensures var p := Run(st, data, pos).1.pos;
      Run(st, data[..p] + tail, pos) == Run(st, data, pos)
    decreases |data| - pos
  {
    OutcomeInRange(st, data, pos);
    var p := Run(st, data, pos).1.pos;
    var data' := data[..p] + tail;
    if Truthy(st.marketEnds) {
    } else {
      assert pos < |data|;
      assert data'[pos] == data[pos];
      match NextFrame(data, pos)
      case BadTag =>
      case Skip =>
        UnreadAfterClose(st, data, pos + 1, tail);
      case Message(tag, payload, next) =>
        var st' := Step(st, tag, payload);
        UnreadAfterClose(st', data, next, tail);
        if next == |data| && pos + 1 + AllowedProtocols[tag] > |data| {
          ShortPayloadIgnored(st, tag, payload);
          assert false;
        }
        assert next == pos + 1 + AllowedProtocols[tag];
        assert data'[pos + 1..next] == payload;
        assert NextFrame(data', pos) == Message(tag, payload, next);
    }
  }

  /** The run keeps the ledger well formed. */
  lemma {:induction false} RunPreservesValid(st: State, data: seq<byte>, pos: nat)
    requires pos <= |data| && st.Valid()
    ensures Run(st, data, pos).0.Valid()
    decreases |data| - pos
  {
    if !Truthy(st.marketEnds) && pos < |data| {
      match NextFrame(data, pos)
      case BadTag =>
      case Skip => RunPreservesValid(st, data, pos + 1);
      case Message(tag, payload, next) =>
        StepPreservesValid(st, tag, payload);
        RunPreservesValid(Step(st, tag, payload), data, next);
    }
  }

  /** The run only appends to the ledger. */
  lemma {:induction false} RunExtends(st: State, data: seq<byte>, pos: nat)
    requires pos <= |data|
    ensures LedgerExtends(st, Run(st, data, pos).0)
    decreases |data| - pos
  {
    if !Truthy(st.marketEnds) && pos < |data| {
      match NextFrame(data, pos)
      case BadTag =>
      case Skip => RunExtends(st, data, pos + 1);
      case Message(tag, payload, next) =>
        var st' := Step(st, tag, payload);
        RunExtends(st', data, next);
        StepExtends(st, tag, payload);
    }
  }
}
