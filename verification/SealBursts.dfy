/** The seal sees any damage within eight bytes in a row. The digest's prime is a
    power of two and a small number: a difference between two digests stays the sum of
    a small part and a shifted one, and no run of eight differing bytes can bring both
    back to nothing. */
module SealBursts {
  import opened Seal

  const SHIFT := 0x100_0000_0000_0000_0000_0000
  /** How many times the shift is the word. */
  const LIFT := 0x100_0000_0000

  /** Exclusive or with few bits changes a number by little. */
  lemma {:induction false} XorNear(a: nat, b: nat, n: nat)
    requires b < Pow2(n)
    ensures Xor(a, b) - a < Pow2(n) && a - Xor(a, b) < Pow2(n)
    decreases n, a
  {
    if a != 0 || b != 0 {
      if n == 0 {
        XorNear(a / 2, 0, 0);
      } else {
        XorNear(a / 2, b / 2, n - 1);
      }
    }
  }

  /** Two digests a small part and a shifted one apart, one byte further on each. */
  lemma StepDifference(d: u128, e: u128, b: byte, c: byte, small: int, shifted: int, words: int)
    returns (a: int, more: int)
    requires d - e == small + shifted * SHIFT + words * WORD
    ensures -510 <= a - small <= 510
    ensures Xor(d, b) - Xor(e, c) == a + shifted * SHIFT + words * WORD
    ensures DigestByte(d, b) - DigestByte(e, c) == 315 * a + (315 * shifted + a) * SHIFT + more * WORD
  {
    Pow2Of8();
    XorNear(d, b, 8);
    XorNear(e, c, 8);
    hide Xor;
    var x, y := Xor(d, b), Xor(e, c);
    a := small + (x - d) - (y - e);
    var p, q := x * FNV_PRIME / WORD, y * FNV_PRIME / WORD;
    more := shifted * 0x1_0000_0000_0000 + words * FNV_PRIME - p + q;
    assert (x - y) * FNV_PRIME == (a + shifted * SHIFT + words * WORD) * FNV_PRIME;
  }

  function Last(a: seq<int>): int {
    if a == [] then 0 else a[|a| - 1]
  }

  /** The shifted part that differences leave behind. */
  function Weigh(a: seq<int>): int {
    if a == [] then 0 else 315 * Weigh(a[..|a| - 1]) + a[|a| - 1]
  }

  predicate Small(a: seq<int>) {
    forall i :: 0 <= i < |a| ==> -510 <= a[i] - 315 * Last(a[..i]) <= 510
  }

  lemma DigestOneMore(from: u128, x: seq<byte>, n: nat)
    requires n < |x|
    ensures Digest(from, x[..n + 1]) == DigestByte(Digest(from, x[..n]), x[n])
  {
    assert x[..n + 1] == x[..n] + [x[n]];
    DigestOfConcat(from, x[..n], [x[n]]);
    hide DigestByte;
    var d, one := Digest(from, x[..n]), [x[n]];
    assert one[1..] == [];
    assert FoldLeft(DigestByte, DigestByte(d, x[n]), one[1..]) == DigestByte(d, x[n]);
  }

  lemma SmallOneMore(a: seq<int>, last: int)
    requires Small(a) && -510 <= last - 315 * Last(a) <= 510
    ensures Small(a + [last]) && Weigh(a + [last]) == 315 * Weigh(a) + last && Last(a + [last]) == last
  {
    var longer := a + [last];
    assert longer[..|a|] == a;
    forall i | 0 <= i < |longer|
      ensures -510 <= longer[i] - 315 * Last(longer[..i]) <= 510
    {
      if i < |a| {
        assert longer[..i] == a[..i];
      }
    }
  }

  lemma NothingApart()
    ensures Small([]) && Weigh([]) == 0 && Last([]) == 0
  {
  }

  lemma NothingDigested(from: u128, x: seq<byte>)
    ensures Digest(from, x[..0]) == from
  {
  }

  /** The digests of two inputs as they are read alongside: the differences they pick up
      at each byte, and where those leave them. */
  lemma {:induction false} Differences(from: u128, x: seq<byte>, y: seq<byte>, n: nat) returns (a: seq<int>, words: int)
    requires |x| == |y| && n <= |x|
    ensures |a| == n && Small(a)
    ensures n > 0 ==> a[0] == Xor(from, x[0]) - Xor(from, y[0])
    ensures Digest(from, x[..n]) - Digest(from, y[..n]) == 315 * Last(a) + Weigh(a) * SHIFT + words * WORD
  {
    hide DigestByte, Digest, Small, Weigh, Last, Xor;
    if n == 0 {
      a, words := [], 0;
      NothingApart();
      assert x[..0] == y[..0];
    } else {
      var before: seq<int>, earlier: int := Differences(from, x, y, n - 1);
      var d, e := Digest(from, x[..n - 1]), Digest(from, y[..n - 1]);
      var last, more := StepDifference(d, e, x[n - 1], y[n - 1], 315 * Last(before), Weigh(before), earlier);
      DigestOneMore(from, x, n - 1);
      DigestOneMore(from, y, n - 1);
      SmallOneMore(before, last);
      a, words := before + [last], more;
      if n == 1 {
        NothingApart();
        NothingDigested(from, x);
        NothingDigested(from, y);
      }
    }
  }

  // ----- nothing brings both parts back -----

  /** No seven parts of at most one, weighed, come to a multiple of what the shift lacks
      of the word. */
  lemma NoCombination(a: int, b: int, c: int, d: int, e: int, f: int, g: int, words: int)
    requires -1 <= a <= 1 && -1 <= b <= 1 && -1 <= c <= 1 && -1 <= d <= 1 && -1 <= e <= 1 && -1 <= f <= 1 && -1 <= g <= 1
    requires 315 * (315 * (315 * (315 * (315 * (315 * a + b) + c) + d) + e) + f) + g == words * LIFT
    ensures a == 0
  {
  }

  /** What is a multiple once multiplied by the small number was one before. */
  lemma DividedBySmall(weight: int, words: int) returns (fewer: int)
    requires 315 * weight == words * LIFT
    ensures weight == fewer * LIFT
  {
    fewer := 205940273139 * words - 59 * weight;
  }

  lemma WeighSeven(a: seq<int>)
    requires |a| == 7
    ensures Weigh(a)
            == 315 * (315 * (315 * (315 * (315 * (315 * a[0] + a[1]) + a[2]) + a[3]) + a[4]) + a[5]) + a[6]
  {
    hide Weigh;
    NothingApart();
    assert a[..7] == a && a[..0] == [];
    WeighNext(a, 0);
    WeighNext(a, 1);
    WeighNext(a, 2);
    WeighNext(a, 3);
    WeighNext(a, 4);
    WeighNext(a, 5);
    WeighNext(a, 6);
  }

  lemma WeighNext(a: seq<int>, n: nat)
    requires n < |a|
    ensures Weigh(a[..n + 1]) == 315 * Weigh(a[..n]) + a[n]
  {
    assert a[..n + 1][..n] == a[..n];
  }

  lemma SmallAt(a: seq<int>, i: nat)
    requires Small(a) && i < |a|
    ensures -510 <= a[i] - 315 * (if i == 0 then 0 else a[i - 1]) <= 510
  {
  }

  /** Differences that end at nothing were at most one all along. */
  lemma {:induction false} AtMostOne(a: seq<int>, i: nat)
    requires Small(a) && a != [] && Last(a) == 0 && i < |a|
    ensures -1 <= a[i] <= 1
    decreases |a| - i
  {
    if i + 1 < |a| {
      AtMostOne(a, i + 1);
      SmallAt(a, i + 1);
    }
  }

  function Cap(n: nat): nat {
    if n == 0 then 510 else 315 * Cap(n - 1) + 510
  }

  lemma {:induction false} Capped(a: seq<int>, i: nat)
    requires Small(a) && i < |a|
    ensures a[i] <= Cap(i) && -a[i] <= Cap(i)
  {
    SmallAt(a, i);
    if i > 0 {
      Capped(a, i - 1);
    }
  }

  lemma CapOfSeven()
    ensures 315 * Cap(7) < SHIFT
  {
    assert Cap(1) == 161160 && Cap(2) == 50765910;
    assert Cap(3) == 15991262160 && Cap(4) == 5037247580910;
    assert Cap(5) == 1586732987987160 && Cap(6) == 499820891215955910;
    assert Cap(7) == 157443580733026112160;
  }

  lemma MultipleOfShift(d: int, t: int)
    requires -SHIFT < d < SHIFT && d == t * SHIFT
    ensures d == 0 && t == 0
  {
  }

  lemma EndsAtNothing(a: seq<int>, words: int)
    requires |a| == 8 && Small(a) && 315 * Last(a) + Weigh(a) * SHIFT + words * WORD == 0
    ensures Last(a) == 0 && Weigh(a) == -words * LIFT
  {
    hide Small, Weigh, Cap;
    Capped(a, 7);
    CapOfSeven();
    MultipleOfShift(315 * Last(a), -Weigh(a) - words * LIFT);
  }

  lemma WeighedToNothing(a: seq<int>, words: int)
    requires |a| == 8 && Small(a) && Last(a) == 0 && Weigh(a) == words * LIFT
    ensures a[0] == 0
  {
    hide Small, Weigh;
    forall i | 0 <= i < 8
      ensures -1 <= a[i] <= 1
    {
      AtMostOne(a, i);
    }
    var front := a[..7];
    WeighSeven(front);
    WeighNext(a, 7);
    assert a[..8] == a && a[7] == 0;
    var fewer := DividedBySmall(Weigh(front), words);
    NoCombination(a[0], a[1], a[2], a[3], a[4], a[5], a[6], fewer);
  }

  /** Eight bytes that digest alike begin alike. */
  lemma FirstOfEightAlike(from: u128, x: seq<byte>, y: seq<byte>)
    requires |x| == |y| == 8 && Digest(from, x) == Digest(from, y)
    ensures x[0] == y[0]
  {
    hide DigestByte, Digest, Small, Weigh, Last, Xor;
    var a: seq<int>, words: int := Differences(from, x, y, 8);
    assert x[..8] == x && y[..8] == y;
    EndsAtNothing(a, words);
    WeighedToNothing(a, -words);
    XorInjective(from, from, x[0], y[0]);
  }

  /** Up to eight bytes are told by their digest, wherever it goes on from. */
  lemma {:induction false} EightBytesApart(from: u128, x: seq<byte>, y: seq<byte>)
    requires |x| == |y| <= 8 && Digest(from, x) == Digest(from, y)
    ensures x == y
    decreases |x|
  {
    hide DigestByte, Digest;
    if x != [] {
      var padding: seq<byte> := seq(8 - |x|, _ => 0);
      DigestOfConcat(from, x, padding);
      DigestOfConcat(from, y, padding);
      FirstOfEightAlike(from, x + padding, y + padding);
      var next := Digest(from, [x[0]]);
      assert x == [x[0]] + x[1..] && y == [x[0]] + y[1..];
      DigestOfConcat(from, [x[0]], x[1..]);
      DigestOfConcat(from, [x[0]], y[1..]);
      EightBytesApart(next, x[1..], y[1..]);
    }
  }

  /** Two inputs that differ only within eight bytes in a row never share a digest. */
  lemma BurstApart(from: u128, before: seq<byte>, x: seq<byte>, y: seq<byte>, after: seq<byte>)
    requires |x| == |y| <= 8 && x != y
    ensures Digest(from, before + x + after) != Digest(from, before + y + after)
  {
    forall d: u128, e: u128, t: byte | DigestByte(d, t) == DigestByte(e, t)
      ensures d == e
    {
      StepInjective(d, e, t, t);
    }
    var start := Digest(from, before);
    DigestOfConcat(from, before + x, after);
    DigestOfConcat(from, before + y, after);
    DigestOfConcat(from, before, x);
    DigestOfConcat(from, before, y);
    FoldInjectiveInStart(DigestByte, Digest(start, x), Digest(start, y), after);
    if Digest(start, x) == Digest(start, y) {
      EightBytesApart(start, x, y);
    }
  }
}
