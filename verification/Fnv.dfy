/** The 64-bit FNV-1a fingerprint of a probe's input, and how sensitive it is. */
module Fnv {
  import opened Prelude

  const OFFSET_BASIS: u64 := 0xcbf2_9ce4_8422_2325
  const PRIME: int := 0x0000_0100_0000_01b3

  /** The inverse of the prime among the 64-bit words: the product of the two is
      one more than a multiple of 2^64. */
  const PRIME_INVERSE: int := 0xce96_5057_aff6_957b
  const INVERSE_QUOTIENT: int := 0xce_9650_590f

  /** Exclusive or, bit by bit from the least significant. */
  function Xor(a: nat, b: nat): nat
    decreases a + b
  {
    if a == 0 && b == 0 then 0 else 2 * Xor(a / 2, b / 2) + (a % 2 + b % 2) % 2
  }

  function Pow2(n: nat): (p: nat)
    ensures p > 0
  {
    if n == 0 then 1 else 2 * Pow2(n - 1)
  }

  lemma {:induction false} XorBelow(a: nat, b: nat, bits: nat)
    requires a < Pow2(bits) && b < Pow2(bits)
    ensures Xor(a, b) < Pow2(bits)
  {
    if bits > 0 {
      XorBelow(a / 2, b / 2, bits - 1);
    }
  }

  lemma XorLastBit(a: nat, x: nat, b: nat, y: nat)
    requires x < 2 && y < 2
    ensures Xor(2 * a + x, 2 * b + y) == 2 * Xor(a, b) + (x + y) % 2
  {
    assert (2 * a + x) / 2 == a && (2 * b + y) / 2 == b;
  }

  lemma ParityBack(x: nat, y: nat)
    requires x < 2 && y < 2
    ensures ((x + y) % 2 + y) % 2 == x
  {
  }

  lemma LastBitBack(m: nat, z: nat, b: nat, y: nat, x: nat)
    requires x < 2 && y < 2 && z == (x + y) % 2
    ensures Xor(2 * m + z, 2 * b + y) == 2 * Xor(m, b) + x
  {
    ParityBack(x, y);
    XorLastBit(m, z, b, y);
  }

  lemma LastBitCancels(a: nat, x: nat, b: nat, y: nat)
    requires x < 2 && y < 2 && Xor(Xor(a, b), b) == a
    ensures Xor(Xor(2 * a + x, 2 * b + y), 2 * b + y) == 2 * a + x
  {
    var m, z := Xor(a, b), (x + y) % 2;
    var mixed := 2 * m + z;
    assert Xor(2 * a + x, 2 * b + y) == mixed by {
      XorLastBit(a, x, b, y);
    }
    LastBitBack(m, z, b, y, x);
  }

  lemma {:induction false} XorCancels(a: nat, b: nat)
    ensures Xor(Xor(a, b), b) == a
    decreases a + b
  {
    if a != 0 || b != 0 {
      XorCancels(a / 2, b / 2);
      LastBitCancels(a / 2, a % 2, b / 2, b % 2);
      assert 2 * (a / 2) + a % 2 == a && 2 * (b / 2) + b % 2 == b;
    }
  }

  lemma {:induction false} XorCommutes(a: nat, b: nat)
    ensures Xor(a, b) == Xor(b, a)
    decreases a + b
  {
    if a != 0 || b != 0 {
      XorCommutes(a / 2, b / 2);
    }
  }

  lemma {:induction false} Pow2Adds(m: nat, n: nat)
    ensures Pow2(m + n) == Pow2(m) * Pow2(n)
  {
    if m > 0 {
      Pow2Adds(m - 1, n);
    }
  }

  lemma WordBits()
    ensures Pow2(64) == U64_LIMIT
  {
    assert Pow2(4) == 16;
    Pow2Adds(4, 4);
    Pow2Adds(8, 8);
    Pow2Adds(16, 16);
    Pow2Adds(32, 32);
  }

  /** Exclusive or of a word with a byte, as a word. */
  function Mix(hash: u64, b: byte): (mixed: u64)
    ensures Xor(mixed, b) == hash
  {
    WordBits();
    XorBelow(hash, b, 64);
    XorCancels(hash, b);
    Xor(hash, b)
  }

  /** Multiplication by the prime that wraps at 64 bits. */
  function Spread(hash: u64): u64 {
    hash * PRIME % U64_LIMIT
  }

  lemma RemainderOf(x: int, multiple: int, word: u64)
    requires x == word + U64_LIMIT * multiple
    ensures x % U64_LIMIT == word
  {
  }

  /** The wrapping product loses nothing: the inverse brings every word back. */
  lemma SpreadUndone(hash: u64)
    ensures Spread(hash) * PRIME_INVERSE % U64_LIMIT == hash
  {
    var quotient := hash * PRIME / U64_LIMIT;
    calc {
      Spread(hash) * PRIME_INVERSE;
      (hash * PRIME - quotient * U64_LIMIT) * PRIME_INVERSE;
      hash * (PRIME * PRIME_INVERSE) - quotient * U64_LIMIT * PRIME_INVERSE;
      { assert PRIME * PRIME_INVERSE == 1 + U64_LIMIT * INVERSE_QUOTIENT; }
      hash + U64_LIMIT * (hash * INVERSE_QUOTIENT - quotient * PRIME_INVERSE);
    }
    RemainderOf(Spread(hash) * PRIME_INVERSE, hash * INVERSE_QUOTIENT - quotient * PRIME_INVERSE, hash);
  }

  function Absorb(hash: u64, b: byte): u64 {
    Spread(Mix(hash, b))
  }

  /** The hash state after absorbing `bytes` from the state `hash`. */
  function Fold(hash: u64, bytes: seq<byte>): u64
    decreases |bytes|
  {
    if bytes == [] then hash else Absorb(Fold(hash, bytes[..|bytes| - 1]), bytes[|bytes| - 1])
  }

  /** The fingerprint: the loop as it is written. */
  method Hash(bytes: seq<byte>) returns (hash: u64)
    ensures hash == Fold(OFFSET_BASIS, bytes)
  {
    hash := OFFSET_BASIS;
    for i := 0 to |bytes|
      invariant hash == Fold(OFFSET_BASIS, bytes[..i])
    {
      assert bytes[..i + 1][..i] == bytes[..i];
      hash := Mix(hash, bytes[i]);
      hash := Spread(hash);
    }
    assert bytes[..|bytes|] == bytes;
  }

  /** One step loses nothing about the state it started from, and nothing about the
      byte it absorbed. */
  lemma AbsorbInjective(h: u64, g: u64, b: byte, c: byte)
    ensures Absorb(h, b) == Absorb(g, b) <==> h == g
    ensures Absorb(h, b) == Absorb(h, c) <==> b == c
  {
    SpreadUndone(Mix(h, b));
    SpreadUndone(Mix(g, b));
    SpreadUndone(Mix(h, c));
    XorCommutes(h, b);
    XorCommutes(h, c);
    XorCancels(b, h);
    XorCancels(c, h);
  }

  /** Whatever follows can neither create nor hide a difference between two states. */
  lemma {:induction false} SuffixNeverHides(h: u64, g: u64, suffix: seq<byte>)
    ensures Fold(h, suffix) == Fold(g, suffix) <==> h == g
    decreases |suffix|
  {
    if suffix != [] {
      var front, last := suffix[..|suffix| - 1], suffix[|suffix| - 1];
      SuffixNeverHides(h, g, front);
      AbsorbInjective(Fold(h, front), Fold(g, front), last, last);
    }
  }

  lemma {:induction false} FoldConcat(h: u64, a: seq<byte>, b: seq<byte>)
    ensures Fold(h, a + b) == Fold(Fold(h, a), b)
    decreases |b|
  {
    if b == [] {
      assert a + b == a;
    } else {
      var front := b[..|b| - 1];
      FoldConcat(h, a, front);
      assert (a + b)[..|a + b| - 1] == a + front;
    }
  }

  /** Two inputs with a common tail hash alike exactly when what precedes it does. */
  lemma CommonTailCancels(p: seq<byte>, q: seq<byte>, tail: seq<byte>)
    ensures Fold(OFFSET_BASIS, p + tail) == Fold(OFFSET_BASIS, q + tail)
       <==> Fold(OFFSET_BASIS, p) == Fold(OFFSET_BASIS, q)
  {
    FoldConcat(OFFSET_BASIS, p, tail);
    FoldConcat(OFFSET_BASIS, q, tail);
    SuffixNeverHides(Fold(OFFSET_BASIS, p), Fold(OFFSET_BASIS, q), tail);
  }

  /** Changing one byte, anywhere in an input of any length, changes the fingerprint. */
  lemma OneByteChangesTheHash(bytes: seq<byte>, at: nat, b: byte)
    requires at < |bytes|
    ensures Fold(OFFSET_BASIS, bytes[at := b]) == Fold(OFFSET_BASIS, bytes) <==> b == bytes[at]
  {
    var before, tail := bytes[..at], bytes[at + 1..];
    assert bytes == (before + [bytes[at]]) + tail;
    assert bytes[at := b] == (before + [b]) + tail;
    CommonTailCancels(before + [b], before + [bytes[at]], tail);
    assert (before + [b])[..at] == before == (before + [bytes[at]])[..at];
    var h := Fold(OFFSET_BASIS, before);
    AbsorbInjective(h, h, b, bytes[at]);
  }

  // ----- bit by bit

  predicate Bits(x: seq<nat>) { forall k :: 0 <= k < |x| ==> x[k] < 2 }

  /** `high` followed by the bits of `x`. */
  function Extend(high: nat, x: seq<nat>): nat {
    if x == [] then high else 2 * Extend(high, x[..|x| - 1]) + x[|x| - 1]
  }

  function XorBits(x: seq<nat>, y: seq<nat>): seq<nat>
    requires |x| == |y|
  {
    seq(|x|, k requires 0 <= k < |x| => (x[k] + y[k]) % 2)
  }

  /** Exclusive or acts on every bit by itself. */
  lemma {:induction false} XorBitwise(a: nat, x: seq<nat>, b: nat, y: seq<nat>)
    requires |x| == |y| && Bits(x) && Bits(y)
    ensures Xor(Extend(a, x), Extend(b, y)) == Extend(Xor(a, b), XorBits(x, y))
  {
    hide Xor;
    if x != [] {
      var n := |x| - 1;
      XorBitwise(a, x[..n], b, y[..n]);
      XorLastBit(Extend(a, x[..n]), x[n], Extend(b, y[..n]), y[n]);
      assert XorBits(x, y)[..n] == XorBits(x[..n], y[..n]);
    }
  }

  // ----- which hash it is

  /** A step exclusive-ors first and multiplies second: undoing the product and then the
      exclusive or, in that order, brings the state back. */
  lemma AbsorbUndone(hash: u64, b: byte)
    ensures Xor(Absorb(hash, b) * PRIME_INVERSE % 0x1_0000_0000_0000_0000, b) == hash
  {
    SpreadUndone(Mix(hash, b));
  }

  lemma {:induction false} XorWithNothing(a: nat)
    ensures Xor(a, 0) == a
  {
    if a != 0 {
      XorWithNothing(a / 2);
    }
  }

  lemma BasisWithA()
    ensures Xor(0xcbf2_9ce4_8422_2325, 0x61) == 0xcbf2_9ce4_8422_2344
  {
    hide Xor;
    XorWithNothing(0xcbf2_9ce4_8422_23);
    XorLastBit(0xcbf2_9ce4_8422_23, 0, 0, 0);
    XorLastBit(0xcbf2_9ce4_8422_23 * 2, 0, 0, 1);
    XorLastBit(0xcbf2_9ce4_8422_23 * 4, 1, 1, 1);
    XorLastBit(0xcbf2_9ce4_8422_23 * 8 + 1, 0, 3, 0);
    XorLastBit(0xcbf2_9ce4_8422_23 * 16 + 2, 0, 6, 0);
    XorLastBit(0xcbf2_9ce4_8422_23 * 32 + 4, 1, 12, 0);
    XorLastBit(0xcbf2_9ce4_8422_23 * 64 + 9, 0, 24, 0);
    XorLastBit(0xcbf2_9ce4_8422_23 * 128 + 18, 1, 48, 1);
  }

  /** The published fingerprints of nothing and of the letter a. */
  lemma KnownAnswers()
    ensures Fold(OFFSET_BASIS, []) == 0xcbf2_9ce4_8422_2325
    ensures Fold(OFFSET_BASIS, [0x61]) == 0xaf63_dc4c_8601_ec8c
  {
    hide Xor;
    assert [0x61][..0] == [];
    BasisWithA();
    assert Spread(0xcbf2_9ce4_8422_2344) == 0xaf63_dc4c_8601_ec8c;
  }
}
