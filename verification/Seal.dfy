/** The 128-bit FNV-1a digest a projection is sealed with (section 2 of
    draft-eastlake-fnv): bytes folded in one at a time, each by an exclusive or
    into the low byte and a wrapping multiplication by an odd prime. */
module Seal {

  const WORD := 0x1_0000_0000_0000_0000_0000_0000_0000_0000
  const NOTHING_DIGESTED: u128 := 0x6c62_272e_07bb_0142_62b8_2175_6295_c58d
  const FNV_PRIME := 0x100_0000_0000_0000_0000_013b

  /** The inverse of the prime modulo the word: it is odd, so it has one. */
  ghost const PRIME_INVERSE := 0xb104_1ad2_562f_f2ff_2ff2_ff2f_f2ff_2ff3

  type byte = b: nat | b < 0x100
  type u128 = d: nat | d < WORD witness 0

  /** Exclusive or, bit by bit. */
  function Xor(a: nat, b: nat): (r: nat)
    decreases a + b
  {
    if a == 0 && b == 0 then 0
    else (a + b) % 2 + 2 * Xor(a / 2, b / 2)
  }

  lemma BitAndRest(bit: nat, rest: nat)
    requires bit < 2
    ensures (bit + 2 * rest) % 2 == bit && (bit + 2 * rest) / 2 == rest
  {
  }

  lemma XorBits(a: nat, b: nat)
    requires a != 0 || b != 0
    ensures Xor(a, b) % 2 == (a + b) % 2 && Xor(a, b) / 2 == Xor(a / 2, b / 2)
  {
    BitAndRest((a + b) % 2, Xor(a / 2, b / 2));
  }

  lemma SameBits(a: nat, b: nat)
    requires a % 2 == b % 2 && a / 2 == b / 2
    ensures a == b
  {
  }

  lemma ParityCancels(a: nat, b: nat, r: nat)
    requires r % 2 == (a + b) % 2
    ensures (r + b) % 2 == a % 2
  {
  }

  /** Exclusive or by the same bits undoes itself. */
  lemma {:induction false} XorCancels(a: nat, b: nat)
    ensures Xor(Xor(a, b), b) == a
    decreases a + b
  {
    if a != 0 || b != 0 {
      XorCancels(a / 2, b / 2);
      var r := Xor(a, b);
      XorBits(a, b);
      XorBits(r, b);
      ParityCancels(a, b, r);
      SameBits(Xor(r, b), a);
    }
  }

  lemma {:induction false} XorCommutes(a: nat, b: nat)
    ensures Xor(a, b) == Xor(b, a)
    decreases a + b
  {
    if a != 0 || b != 0 {
      XorCommutes(a / 2, b / 2);
    }
  }

  function Pow2(n: nat): (r: nat) {
    if n == 0 then 1 else 2 * Pow2(n - 1)
  }

  /** Exclusive or stays within the word. */
  lemma {:induction false} XorBounded(a: nat, b: nat, n: nat)
    requires a < Pow2(n) && b < Pow2(n)
    ensures Xor(a, b) < Pow2(n)
    decreases n
  {
    if n != 0 && (a != 0 || b != 0) {
      XorBounded(a / 2, b / 2, n - 1);
    }
  }

  lemma {:induction false} Pow2Adds(m: nat, n: nat)
    ensures Pow2(m + n) == Pow2(m) * Pow2(n)
  {
    if m != 0 {
      Pow2Adds(m - 1, n);
    }
  }

  lemma WordIsPow2()
    ensures Pow2(128) == WORD
  {
    hide Pow2;
    Pow2Of8();
    Pow2Adds(8, 8);
    assert Pow2(16) == 0x1_0000;
    Pow2Adds(16, 16);
    assert Pow2(32) == 0x1_0000_0000;
    Pow2Adds(32, 32);
    assert Pow2(64) == 0x1_0000_0000_0000_0000;
    Pow2Adds(64, 64);
  }

  lemma Pow2Of8()
    ensures Pow2(8) == 0x100
  {
    assert Pow2(4) == 16;
    Pow2Adds(4, 4);
  }

  lemma XorFits(d: u128, b: byte)
    ensures Xor(d, b) < WORD
  {
    WordIsPow2();
    XorBounded(d, b, 128);
  }

  /** A digest over a sequence, whatever its step. */
  function FoldLeft<D, T>(step: (D, T) -> D, from: D, items: seq<T>): (digest: D)
    decreases |items|
  {
    if items == [] then from else FoldLeft(step, step(from, items[0]), items[1..])
  }

  /** Folding a concatenation is going on from the first part's fold. */
  lemma {:induction false} FoldOfConcat<D, T>(step: (D, T) -> D, from: D, first: seq<T>, second: seq<T>)
    ensures FoldLeft(step, from, first + second) == FoldLeft(step, FoldLeft(step, from, first), second)
    decreases |first|
  {
    if first == [] {
      assert first + second == second;
    } else {
      assert (first + second)[0] == first[0] && (first + second)[1..] == first[1..] + second;
      FoldOfConcat(step, step(from, first[0]), first[1..], second);
    }
  }

  /** A fold whose steps are injective is injective in where it starts. */
  lemma {:induction false} FoldInjectiveInStart<D(!new), T(!new)>(step: (D, T) -> D, d: D, e: D, items: seq<T>)
    requires forall x, y, t :: step(x, t) == step(y, t) ==> x == y
    ensures FoldLeft(step, d, items) == FoldLeft(step, e, items) <==> d == e
    decreases |items|
  {
    if items != [] {
      FoldInjectiveInStart(step, step(d, items[0]), step(e, items[0]), items[1..]);
    }
  }

  /** Two inputs that differ in exactly one item never fold to one digest. */
  lemma OneItemApart<D(!new), T(!new)>(step: (D, T) -> D, from: D, before: seq<T>, b: T, c: T, after: seq<T>)
    requires forall x, y, t :: step(x, t) == step(y, t) ==> x == y
    requires step(FoldLeft(step, from, before), b) != step(FoldLeft(step, from, before), c)
    ensures FoldLeft(step, from, before + [b] + after) != FoldLeft(step, from, before + [c] + after)
  {
    var d := FoldLeft(step, from, before);
    forall x | x == b || x == c
      ensures FoldLeft(step, from, before + [x] + after) == FoldLeft(step, step(d, x), after)
    {
      assert before + [x] + after == before + ([x] + after);
      FoldOfConcat(step, from, before, [x] + after);
      assert ([x] + after)[0] == x && ([x] + after)[1..] == after;
    }
    FoldInjectiveInStart(step, step(d, b), step(d, c), after);
  }

  /** One byte folded in: an exclusive or, then a multiplication that wraps. */
  function DigestByte(digest: u128, b: byte): (r: u128) {
    (Xor(digest, b) * FNV_PRIME) % WORD
  }

  /** The digest of `bytes`, going on from `from`. */
  function Digest(from: u128, bytes: seq<byte>): u128 {
    FoldLeft(DigestByte, from, bytes)
  }

  /** The loop's state at each byte is the digest of the bytes before it. */
  method Digested(from: u128, bytes: seq<byte>) returns (digest: u128)
    ensures digest == Digest(from, bytes)
  {
    digest := from;
    for i := 0 to |bytes|
      invariant digest == Digest(from, bytes[..i])
    {
      FoldOfConcat(DigestByte, from, bytes[..i], [bytes[i]]);
      assert bytes[..i + 1] == bytes[..i] + [bytes[i]];
      digest := DigestByte(digest, bytes[i]);
    }
    assert bytes[..|bytes|] == bytes;
  }

  /** Multiplying by the prime loses nothing, even as it wraps. */
  lemma PrimeMultiplicationInjective(a: nat, b: nat)
    requires a < WORD && b < WORD
    requires (a * FNV_PRIME) % WORD == (b * FNV_PRIME) % WORD
    ensures a == b
  {
    ghost var wraps := 213999254309421075624096729;
    assert FNV_PRIME * PRIME_INVERSE == 1 + wraps * WORD;
    ghost var t := (a * FNV_PRIME) / WORD - (b * FNV_PRIME) / WORD;
    assert (a - b) * FNV_PRIME == t * WORD;
    MultipleOfWord(a - b, t * PRIME_INVERSE - wraps * (a - b)) by {
      calc {
        (a - b) + (a - b) * (wraps * WORD);
        (a - b) * (FNV_PRIME * PRIME_INVERSE);
        t * WORD * PRIME_INVERSE;
      }
    }
  }

  lemma MultipleOfWord(d: int, t: int)
    requires -WORD < d < WORD && d == t * WORD
    ensures d == 0
  {
  }

  /** One byte's step is injective in the digest, and in the byte. */
  lemma StepInjective(d: u128, e: u128, b: byte, c: byte)
    requires DigestByte(d, b) == DigestByte(e, c)
    requires d == e || b == c
    ensures d == e && b == c
  {
    XorFits(d, b);
    XorFits(e, c);
    PrimeMultiplicationInjective(Xor(d, b), Xor(e, c));
    XorInjective(d, e, b, c);
  }

  lemma XorInjective(d: nat, e: nat, b: nat, c: nat)
    requires Xor(d, b) == Xor(e, c)
    requires d == e || b == c
    ensures d == e && b == c
  {
    XorCancels(d, b);
    XorCancels(e, c);
    XorCommutes(d, b);
    XorCommutes(e, c);
    XorCancels(b, d);
    XorCancels(c, e);
  }

  /** The seal of a concatenation is the second part's, going on from the
      first's. */
  lemma DigestOfConcat(from: u128, first: seq<byte>, second: seq<byte>)
    ensures Digest(from, first + second) == Digest(Digest(from, first), second)
  {
    FoldOfConcat(DigestByte, from, first, second);
  }

  /** Two inputs that differ in exactly one byte never share a digest. */
  lemma OneByteApart(from: u128, before: seq<byte>, b: byte, c: byte, after: seq<byte>)
    requires b != c
    ensures Digest(from, before + [b] + after) != Digest(from, before + [c] + after)
  {
    forall x: u128, y: u128, t: byte | DigestByte(x, t) == DigestByte(y, t)
      ensures x == y
    {
      StepInjective(x, y, t, t);
    }
    var d := Digest(from, before);
    if DigestByte(d, b) == DigestByte(d, c) {
      StepInjective(d, d, b, c);
    }
    OneItemApart(DigestByte, from, before, b, c, after);
  }
}
