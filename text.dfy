/**
 * The two string operations the directory decoder applies to a symbol field:
 * `bytes.decode()` (restricted here to ASCII) and `str.strip()`.
 */
module Text {
  import opened Wrappers
  import opened BigEndian

  /** Python's `str.isspace` on the ASCII range: \t \n \v \f \r, the separators 0x1C-0x1F, and space. */
  predicate IsSpace(c: char)
  {
    var n := c as int;
    n == 32 || 9 <= n <= 13 || 28 <= n <= 31
  }

  /** Decodes bytes that are all ASCII; anything else is a decoding error. */
  function DecodeAscii(b: seq<byte>): (r: Option<string>)
    ensures r.Some? <==> forall k :: 0 <= k < |b| ==> b[k] < 128
    ensures r.Some? ==> |r.value| == |b| && forall k :: 0 <= k < |b| ==> r.value[k] as int == b[k] as int
  {
    if forall k :: 0 <= k < |b| ==> b[k] < 128 then
      Some(seq(|b|, k requires 0 <= k < |b| => b[k] as int as char))
    else None
  }

  /** Number of whitespace characters at the front of s. */
  function LeadingSpaces(s: string): (n: nat)
    ensures n <= |s|
    ensures forall k :: 0 <= k < n ==> IsSpace(s[k])
    ensures n < |s| ==> !IsSpace(s[n])
  {
    if s == [] || !IsSpace(s[0]) then 0 else 1 + LeadingSpaces(s[1..])
  }

  /** Number of whitespace characters at the back of s. */
  function TrailingSpaces(s: string): (n: nat)
    ensures n <= |s|
    ensures forall k :: |s| - n <= k < |s| ==> IsSpace(s[k])
    ensures n < |s| ==> !IsSpace(s[|s| - n - 1])
  {
    if s == [] || !IsSpace(s[|s| - 1]) then 0 else 1 + TrailingSpaces(s[..|s| - 1])
  }

  /**
   * `str.strip()`: s without its leading and trailing whitespace. The
   * result is the part of s that starts after the leading whitespace, the
   * characters after it are all whitespace, and it neither starts nor ends
   * with whitespace.
   */
  function Strip(s: string): (r: string)
    ensures LeadingSpaces(s) + |r| <= |s|
    ensures r == s[LeadingSpaces(s)..LeadingSpaces(s) + |r|]
    ensures forall k :: LeadingSpaces(s) + |r| <= k < |s| ==> IsSpace(s[k])
    ensures r != [] ==> !IsSpace(r[0]) && !IsSpace(r[|r| - 1])
  {
    var i := LeadingSpaces(s);
    var t := s[i..];
    var r := t[..|t| - TrailingSpaces(t)];
    assert forall k :: i + |r| <= k < |s| ==> s[k] == t[k - i];
    r
  }

  /** Stripping twice is stripping once. */
  lemma StripIdempotent(s: string)
    ensures Strip(Strip(s)) == Strip(s)
  {
    var r := Strip(s);
    if r != [] {
      assert LeadingSpaces(r) == 0;
      assert TrailingSpaces(r) == 0;
    }
  }
}
