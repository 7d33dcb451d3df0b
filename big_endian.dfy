/**
 * Unsigned big-endian integers, as read by `int.from_bytes(b, 'big')` and by
 * the `H`, `I` and `Q` items of a network-order (`!`) struct format.
 */
module BigEndian {

  newtype byte = x: int | 0 <= x < 256

  /** 256 to the power n: one more than the largest value n bytes can hold. */
  function Pow256(n: nat): (r: nat)
    ensures r >= 1
  {
    if n == 0 then 1 else 256 * Pow256(n - 1)
  }

  /** The value of b read most significant byte first. */
  function FromBytes(b: seq<byte>): (r: nat)
    ensures r < Pow256(|b|)
  {
    if b == [] then 0
    else
      var hi := FromBytes(b[..|b| - 1]);
      assert hi + 1 <= Pow256(|b| - 1);
      assert (hi + 1) * 256 <= Pow256(|b| - 1) * 256;
      hi * 256 + b[|b| - 1] as nat
  }

  /** The width-byte big-endian encoding of n (n taken modulo 256^width). */
  function ToBytes(n: nat, width: nat): (b: seq<byte>)
    ensures |b| == width
  {
    if width == 0 then [] else ToBytes(n / 256, width - 1) + [(n % 256) as byte]
  }

  /** Prepending a byte adds it with weight 256^(number of bytes after it). */
  lemma {:induction false} FromBytesCons(b0: byte, rest: seq<byte>)
    ensures FromBytes([b0] + rest) == b0 as nat * Pow256(|rest|) + FromBytes(rest)
    decreases |rest|
  {
    var s := [b0] + rest;
    if rest != [] {
      var init, last := rest[..|rest| - 1], rest[|rest| - 1] as nat;
      assert s[..|s| - 1] == [b0] + init;
      FromBytesCons(b0, init);
      var w, lo := Pow256(|init|), FromBytes(init);
      assert FromBytes(s) == (b0 as nat * w + lo) * 256 + last;
      Distribute(b0 as nat, w, lo);
      assert Pow256(|rest|) == w * 256;
    } else {
      assert s[..|s| - 1] == [];
    }
  }

  lemma Distribute(a: nat, w: nat, lo: nat)
    ensures (a * w + lo) * 256 == a * (w * 256) + lo * 256
  {
  }

  /** Decoding an encoding gives back every value that fits in the width. */
  lemma {:induction false} FromToBytes(n: nat, width: nat)
    requires n < Pow256(width)
    ensures FromBytes(ToBytes(n, width)) == n
  {
    if width > 0 {
      var b := ToBytes(n, width);
      assert b[..width - 1] == ToBytes(n / 256, width - 1);
      FromToBytes(n / 256, width - 1);
    }
  }

  /** Encoding a decoded value at the same width gives back the bytes. */
  lemma {:induction false} ToFromBytes(b: seq<byte>)
    ensures ToBytes(FromBytes(b), |b|) == b
  {
    if b != [] {
      var init, last := b[..|b| - 1], b[|b| - 1];
      var n := FromBytes(b);
      assert n == FromBytes(init) * 256 + last as nat;
      assert n / 256 == FromBytes(init) && n % 256 == last as nat;
      ToFromBytes(init);
      assert b == init + [last];
    }
  }
}
