/** Machine words of the trace format: bytes, 32-bit and 64-bit bit patterns, and their
    little-endian layout in the file. */
module Words {
  import opened Arithmetic

  type byte = x: int | 0 <= x < 0x100
  type word = x: int | 0 <= x < 0x1_0000_0000
  type long = x: int | 0 <= x < 0x1_0000_0000_0000_0000

  datatype Option<+T> = None | Some(value: T)

  function Pow256(n: nat): (p: nat)
    ensures p > 0
  {
    if n == 0 then 1 else 256 * Pow256(n - 1)
  }

  /** The low `n` bytes of `x`, least significant first. */
  function LittleEndian(x: nat, n: nat): (s: seq<byte>)
    ensures |s| == n
  {
    if n == 0 then [] else [x % 256] + LittleEndian(x / 256, n - 1)
  }

  /** The number whose bytes, least significant first, are `s`. */
  function Value(s: seq<byte>): (x: nat)
    ensures x < Pow256(|s|)
  {
    if s == [] then 0 else s[0] + 256 * Value(s[1..])
  }

  lemma Append(a: seq<byte>, b: seq<byte>, c: seq<byte>)
    ensures a + b + c == a + (b + c)
  {
  }

  lemma {:induction false} ValueOfLittleEndian(x: nat, n: nat)
    requires x < Pow256(n)
    ensures Value(LittleEndian(x, n)) == x
  {
    if n > 0 {
      var s := LittleEndian(x, n);
      assert s[1..] == LittleEndian(x / 256, n - 1);
      ValueOfLittleEndian(x / 256, n - 1);
    }
  }

  lemma {:induction false} LittleEndianOfValue(s: seq<byte>)
    ensures LittleEndian(Value(s), |s|) == s
  {
    if s != [] {
      LittleEndianOfValue(s[1..]);
      assert Value(s) % 256 == s[0] && Value(s) / 256 == Value(s[1..]);
      assert s == [s[0]] + s[1..];
    }
  }

  lemma PowersOf256()
    ensures Pow256(4) == 0x1_0000_0000
    ensures Pow256(8) == 0x1_0000_0000_0000_0000
  {
    assert Pow256(2) == 0x1_0000;
    assert Pow256(4) == 256 * (256 * Pow256(2));
    assert Pow256(6) == 256 * (256 * Pow256(4));
    assert Pow256(8) == 256 * (256 * Pow256(6));
  }

  /** The two's complement reading of a 32-bit pattern. */
  function Signed(w: word): (x: int)
    ensures -0x8000_0000 <= x < 0x8000_0000
  {
    if w < 0x8000_0000 then w else w - 0x1_0000_0000
  }

  /** How often the loop `for (i = 0; i < n; ++i)` runs when `w` is the pattern of `n`. */
  function Count(w: word): (n: nat)
    ensures n == if Signed(w) > 0 then Signed(w) else 0
  {
    if w < 0x8000_0000 then w else 0
  }

  function Zeros(n: nat): (s: seq<byte>)
    ensures |s| == n && forall i :: 0 <= i < n ==> s[i] == 0
  {
    seq(n, i => 0)
  }

  /** The number of padding bytes after an `n`-byte item. */
  function Padding(n: nat): (p: nat) {
    (4 - n % 4) % 4
  }

  /** Signed patterns are congruent to unsigned ones; loops run as often as a non-negative pattern says. */
  lemma SignedMeans(w: word)
    ensures (Signed(w) - w) % 0x1_0000_0000 == 0
    ensures Count(w) == if w < 0x8000_0000 then w else 0
  {
  }

  /** Padding is the least that makes a multiple of four. */
  lemma PaddingMeans(n: nat, p: nat)
    ensures p == Padding(n) <==> p < 4 && (n + p) % 4 == 0
  {
  }

  /** Byte `i` of a little-endian number. */
  lemma {:induction false} ByteMeans(x: nat, n: nat, i: nat)
    requires i < n
    ensures LittleEndian(x, n)[i] == x / Pow256(i) % 256
  {
    if i > 0 {
      ByteMeans(x / 256, n - 1, i - 1);
      Quotients(x, Pow256(i - 1));
    }
  }

  lemma Quotients(x: nat, p: nat)
    requires p > 0
    ensures x / 256 / p == x / (256 * p)
  {
    var q := x / 256 / p;
    var r := x / 256 - q * p;
    assert 0 <= r < p && x == 256 * (q * p + r) + x % 256;
    assert x == q * (256 * p) + (256 * r + x % 256);
    assert 256 * r + x % 256 < 256 * p;
    DivMod(q, 256 * r + x % 256, 256 * p);
  }
}
