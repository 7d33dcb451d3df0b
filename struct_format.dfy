/**
 * The part of Python's `struct.unpack` that the decoder relies on: a format
 * in network byte order (`!`, no padding) made of the items `H` (u16), `I`
 * (u32), `Q` (u64), `c` (one byte) and `Ns` (N raw bytes).
 */
module StructFormat {
  import opened Wrappers
  import opened BigEndian

  /** One item of a format string; `C` is the `c` item, `Str(n)` is `ns`. */
  datatype Item = H | I | Q | C | Str(n: nat)

  /** A decoded item: integers for `H`/`I`/`Q`, bytes objects for `c`/`ns`. */
  datatype Value = Int(n: nat) | Bytes(b: seq<byte>)

  function Width(item: Item): nat
  {
    match item
    case H => 2
    case I => 4
    case Q => 8
    case C => 1
    case Str(n) => n
  }

  /** Size of the items from index k to the end of the format. */
  function SizeFrom(format: seq<Item>, k: nat): nat
    decreases |format| - k
  {
    if k >= |format| then 0 else Width(format[k]) + SizeFrom(format, k + 1)
  }

  /** `struct.calcsize` of a network-order format. */
  function Size(format: seq<Item>): nat
  {
    SizeFrom(format, 0)
  }

  /** Byte offset of item k: the size of the items before it. */
  function Offset(format: seq<Item>, k: nat): nat
    requires k <= |format|
  {
    if k == 0 then 0 else Offset(format, k - 1) + Width(format[k - 1])
  }

  /** The items before k and the items from k on make up the whole size. */
  lemma {:induction false} SizeSplit(format: seq<Item>, k: nat)
    requires k <= |format|
    ensures Offset(format, k) + SizeFrom(format, k) == Size(format)
  {
    if k > 0 {
      SizeSplit(format, k - 1);
    }
  }

  /** Item k lies inside a buffer of the format's size. */
  lemma ItemFits(format: seq<Item>, k: nat)
    requires k < |format|
    ensures Offset(format, k) + Width(format[k]) <= Size(format)
  {
    SizeSplit(format, k);
  }

  /** How one item turns its bytes into a value. */
  function Read(item: Item, b: seq<byte>): Value
  {
    match item
    case C => Bytes(b)
    case Str(_) => Bytes(b)
    case _ => Int(FromBytes(b))
  }

  /**
   * `struct.unpack(format, msg)`: fails (raises `struct.error`) unless the
   * buffer has exactly the format's size; otherwise one value per item.
   * Lemma UnpackAt says which bytes each value is read from.
   */
  function Unpack(format: seq<Item>, msg: seq<byte>): (r: Option<seq<Value>>)
    ensures r.Some? <==> |msg| == Size(format)
    ensures r.Some? ==> |r.value| == |format|
    ensures r.Some? ==> forall k :: 0 <= k < |format| ==> (r.value[k].Bytes? <==> format[k].C? || format[k].Str?)
  {
    if |msg| == Size(format) then Some(UnpackFrom(format, msg, 0)) else None
  }

  /** Reads the items from index j on, each at its own offset. */
  function UnpackFrom(format: seq<Item>, msg: seq<byte>, j: nat): (vs: seq<Value>)
    requires |msg| == Size(format) && j <= |format|
    ensures |vs| == |format| - j
    ensures forall k :: j <= k < |format| ==> (vs[k - j].Bytes? <==> format[k].C? || format[k].Str?)
    decreases |format| - j
  {
    if j == |format| then []
    else
      ItemFits(format, j);
      var o := Offset(format, j);
      [Read(format[j], msg[o..o + Width(format[j])])] + UnpackFrom(format, msg, j + 1)
  }

  lemma {:induction false} UnpackFromAt(format: seq<Item>, msg: seq<byte>, j: nat, k: nat)
    requires |msg| == Size(format) && j <= k < |format|
    ensures Offset(format, k) + Width(format[k]) <= |msg|
    ensures UnpackFrom(format, msg, j)[k - j] ==
      Read(format[k], msg[Offset(format, k)..Offset(format, k) + Width(format[k])])
    decreases k - j
  {
    ItemFits(format, k);
    if j < k {
      UnpackFromAt(format, msg, j + 1, k);
    }
  }

  /**
   * Item k of an unpacked buffer is read from the Width(format[k]) bytes at
   * Offset(format, k): an integer for `H`/`I`/`Q`, a bytes object for `c`/`ns`.
   */
  lemma UnpackAt(format: seq<Item>, msg: seq<byte>, k: nat)
    requires |msg| == Size(format) && k < |format|
    ensures Offset(format, k) + Width(format[k]) <= |msg|
    ensures Unpack(format, msg).value[k] ==
      Read(format[k], msg[Offset(format, k)..Offset(format, k) + Width(format[k])])
  {
    UnpackFromAt(format, msg, 0, k);
  }
}
