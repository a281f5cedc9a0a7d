/** Types, constants and sequence helpers shared by the modules of the Foki model. */
module Base {
  datatype Option<+T> = None | Some(value: T)

  type byte = b: int | 0 <= b < 256

  /** The 32-bit physical address space. */
  const ADDRESS_SPACE: int := 0x1_0000_0000

  /** Largest installed memory for which no address the allocator computes can wrap. */
  const MAX_INSTALLED: int := 0x4000_0000

  /** The sum of two 32-bit numbers in 32-bit arithmetic. */
  function Sum32(a: int, b: int): (r: int)
    ensures 0 <= a < ADDRESS_SPACE && 0 <= b < ADDRESS_SPACE ==> r == (a + b) % ADDRESS_SPACE
  {
    if a + b < ADDRESS_SPACE then a + b else a + b - ADDRESS_SPACE
  }

  /** The four little-endian bytes of a 32-bit number. */
  function Le32(n: int): (r: seq<byte>)
    ensures |r| == 4
  {
    [n % 256, n / 256 % 256, n / 65536 % 256, n / 16777216 % 256]
  }

  /** The number held by four little-endian bytes at offset i. */
  function FromLe32(s: seq<byte>, i: int): (n: int)
    requires 0 <= i && i + 4 <= |s|
    ensures 0 <= n < ADDRESS_SPACE
  {
    var b0: int, b1: int, b2: int, b3: int := s[i], s[i + 1], s[i + 2], s[i + 3];
    b0 + 256 * b1 + 65536 * b2 + 16777216 * b3
  }

  /** Low byte first; and reading gives the number back. */
  lemma Le32RoundTrip(n: int)
    requires 0 <= n < ADDRESS_SPACE
    ensures var b0: int, b1: int, b2: int, b3: int := Le32(n)[0], Le32(n)[1], Le32(n)[2], Le32(n)[3];
            n == b0 + 0x100 * b1 + 0x1_0000 * b2 + 0x100_0000 * b3
    ensures FromLe32(Le32(n), 0) == n
  {
    var q := n / 256;
    var r := q / 256;
    assert n / 65536 == r && n / 16777216 == r / 256;
  }

  /** s with the items w written at offset i. */
  function Splice<T>(s: seq<T>, i: int, w: seq<T>): (r: seq<T>)
    requires 0 <= i && i + |w| <= |s|
    ensures |r| == |s|
  {
    seq(|s|, k requires 0 <= k < |s| => if i <= k < i + |w| then w[k - i] else s[k])
  }

  /** What a "shift the tail down one slot" loop leaves in a table of which the first n entries
      are in use: entry i is dropped, each later entry is adjusted and moved down, and the slot
      that falls out of use keeps an adjusted copy of the last entry. */
  function Compact<T>(s: seq<T>, i: int, n: int, adjust: T -> T): (r: seq<T>)
    requires 0 <= i < n <= |s|
    ensures |r| == |s|
  {
    seq(|s|, k requires 0 <= k < |s| =>
      if i <= k < n - 1 then adjust(s[k + 1]) else if i < k == n - 1 then adjust(s[k]) else s[k])
  }

  lemma CompactIs<T>(s: seq<T>, i: int, n: int, adjust: T -> T, r: seq<T>)
    requires 0 <= i < n <= |s| && |r| == |s|
    requires forall k :: 0 <= k < i || n <= k < |s| ==> r[k] == s[k]
    requires forall k :: i <= k < n - 1 ==> r[k] == adjust(s[k + 1])
    requires r[n - 1] == if i < n - 1 then adjust(s[n - 1]) else s[n - 1]
    ensures r == Compact(s, i, n, adjust)
  {
  }

  lemma DivUnique(n: int, d: int, q: int, r: int)
    requires 0 < d && 0 <= r < d && n == q * d + r
    ensures n / d == q
  {
    var q' := n / d;
    if q' < q { Spread(q', q, d); }
    if q < q' { Spread(q, q', d); }
  }

  lemma {:induction false} Spread(a: int, b: int, d: int)
    requires 0 < d && a < b
    ensures a * d + d <= b * d
    decreases b - a
  {
    assert b * d == (b - 1) * d + d;
    if a < b - 1 { Spread(a, b - 1, d); }
  }
}
