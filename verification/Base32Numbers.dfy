/** Base32 on numbers: the bytes and the characters are one number, in base 256 and in base 32. */
module Base32Numbers {
  import opened Wrappers
  import opened Bits
  import opened Regroup
  import opened Base32

  /** The number whose digits these are, most significant first. */
  function Number(digits: seq<nat>, base: nat): nat {
    if digits == [] then 0 else Number(digits[..|digits| - 1], base) * base + digits[|digits| - 1]
  }

  lemma {:induction false} ValueOfTogether(a: seq<bool>, b: seq<bool>)
    ensures ValueOf(a + b) == ValueOf(a) * Pow2(|b|) + ValueOf(b)
    decreases |b|
  {
    if b == [] {
      assert a + b == a;
    } else {
      var front := b[..|b| - 1];
      ValueOfTogether(a, front);
      assert (a + b)[..|a + b| - 1] == a + front;
      TwiceOver(ValueOf(a), Pow2(|front|), ValueOf(front));
    }
  }

  lemma TwiceOver(x: nat, p: nat, y: nat)
    ensures 2 * (x * p + y) == x * (2 * p) + 2 * y
  {
  }

  lemma {:induction false} ValueOfZeros(k: nat)
    ensures ValueOf(Zeros(k)) == 0
  {
    if k > 0 {
      ValueOfZeros(k - 1);
      assert Zeros(k)[..k - 1] == Zeros(k - 1);
    }
  }

  lemma {:induction false} SpreadBehind(xs: seq<nat>, x: nat, w: nat)
    ensures Spread(xs + [x], w) == Spread(xs, w) + BitsOf(x, w)
    decreases |xs|
  {
    if xs == [] {
      assert ([x])[1..] == [];
      assert Spread([x], w) == BitsOf(x, w) + Spread([], w);
    } else {
      SpreadBehind(xs[1..], x, w);
      assert (xs + [x])[1..] == xs[1..] + [x];
      assert (xs + [x])[0] == xs[0];
      Reassociate(BitsOf(xs[0], w), Spread(xs[1..], w), BitsOf(x, w));
    }
  }

  /** Digits of `w` bits spell the number their bits do. */
  lemma {:induction false} NumberOfBits(xs: seq<nat>, w: nat)
    requires Fit(xs, w)
    ensures ValueOf(Spread(xs, w)) == Number(xs, Pow2(w))
    decreases |xs|
  {
    if xs != [] {
      var front, last := xs[..|xs| - 1], xs[|xs| - 1];
      NumberOfBits(front, w);
      assert xs == front + [last];
      SpreadBehind(front, last, w);
      ValueOfTogether(Spread(front, w), BitsOf(last, w));
      ValueOfBitsOf(last, w);
      SmallRemainder(last, Pow2(w));
    }
  }

  lemma NumberOfBytes(bytes: seq<nat>)
    requires Bytes(bytes)
    ensures ValueOf(Spread(bytes, 8)) == Number(bytes, 256)
  {
    BytesFit(bytes);
    Powers();
    NumberOfBits(bytes, 8);
  }

  lemma NumberOfLetters(qs: seq<nat>)
    requires Letters(qs)
    ensures ValueOf(Spread(qs, 5)) == Number(qs, 32)
  {
    LettersFit(qs);
    Powers();
    NumberOfBits(qs, 5);
  }

  /** What a character of the alphabet stands for: A to Z are 0 to 25, then 2 to 7. */
  function Digit(c: char): int {
    if 'A' <= c <= 'Z' then c as int - 'A' as int else c as int - '2' as int + 26
  }

  lemma LettersAreDigits(qs: seq<nat>, k: nat)
    requires Letters(qs) && k < |qs|
    ensures Digit(Text(qs)[k]) == qs[k]
  {
    LetterCode(qs[k]);
  }

  /** The encoding spells, in base 32, the number the bytes spell in base 256, with fewer than five zero bits behind. */
  lemma EncodesTheNumber(bytes: seq<nat>) returns (qs: seq<nat>, pad: nat)
    requires Bytes(bytes)
    ensures pad < 5 && 5 * |qs| == 8 * |bytes| + pad && Letters(qs)
    ensures Number(qs, 32) == Number(bytes, 256) * Pow2(pad)
    ensures |Encode(bytes)| == |qs| && forall k :: 0 <= k < |qs| ==> Digit(Encode(bytes)[k]) == qs[k]
  {
    qs := Groups(bytes);
    pad := PaddedHold(Spread(bytes, 8), 5);
    SpreadLength(bytes, 8);
    SpreadLength(qs, 5);
    NumberOfBytes(bytes);
    NumberOfLetters(qs);
    ValueOfTogether(Spread(bytes, 8), Zeros(pad));
    ValueOfZeros(pad);
    forall k | 0 <= k < |qs| ensures Digit(Encode(bytes)[k]) == qs[k] {
      LettersAreDigits(qs, k);
    }
  }

  /** Decoding drops the bits behind the last whole byte, fewer than eight, and keeps the number in front of them. */
  lemma DecodesTheNumber(text: string, upper: char -> string, qs: seq<nat>) returns (bits: nat, rest: nat)
    requires Indices(Clean(text, upper)) == Some(qs)
    ensures var out := Decode(text, upper);
      && out.Some? && 5 * |qs| == 8 * |out.value| + bits && bits < 8 && rest < Pow2(bits)
      && Number(qs, 32) == Number(out.value, 256) * Pow2(bits) + rest && Bytes(out.value)
  {
    var out := Gather(Spread(qs, 5), 8);
    var tail := GatherHold(Spread(qs, 5), 8);
    bits, rest := |tail|, ValueOf(tail);
    BitsOfValueOf(tail);
    SpreadLength(out, 8);
    SpreadLength(qs, 5);
    BytesFit(out);
    NumberOfLetters(qs);
    NumberOfBytes(out);
    ValueOfTogether(Spread(out, 8), tail);
  }

  // ----- what is read past -----

  /** Dashes, padding and white space, as code points. */
  const SEPARATORS: set<int> := {
    0x2D, 0x3D, 0x9, 0xA, 0xB, 0xC, 0xD, 0x20, 0xA0, 0x1680, 0x2000, 0x2001, 0x2002, 0x2003, 0x2004, 0x2005, 0x2006,
    0x2007, 0x2008, 0x2009, 0x200A, 0x2028, 0x2029, 0x202F, 0x205F, 0x3000, 0xFEFF}

  lemma SeparatorIff(c: char)
    ensures Dropped(c) <==> c as int in SEPARATORS
  {
  }

  lemma {:induction false} UppercaseTogether(a: string, b: string, upper: char -> string)
    ensures Uppercase(a + b, upper) == Uppercase(a, upper) + Uppercase(b, upper)
    decreases |a|
  {
    if a == [] {
      assert a + b == b;
    } else {
      assert (a + b)[1..] == a[1..] + b && (a + b)[0] == a[0];
      UppercaseTogether(a[1..], b, upper);
    }
  }

  lemma KeptFirst(text: string, rest: string)
    requires text != [] && text[1..] == rest
    ensures Kept(text) == (if Dropped(text[0]) then [] else [text[0]]) + Kept(rest)
  {
  }

  lemma Associate(a: string, b: string, c: string)
    ensures a + (b + c) == (a + b) + c
  {
  }

  lemma {:induction false} KeptTogether(a: string, b: string)
    ensures Kept(a + b) == Kept(a) + Kept(b)
    decreases |a|
  {
    if a == [] {
      assert a + b == b;
    } else {
      KeptTogether(a[1..], b);
      KeptFirst(a, a[1..]);
      KeptFirst(a + b, a[1..] + b);
      Associate(if Dropped(a[0]) then [] else [a[0]], Kept(a[1..]), Kept(b));
    }
  }

  lemma CleanTogether(a: string, b: string, upper: char -> string)
    ensures Clean(a + b, upper) == Clean(a, upper) + Clean(b, upper)
  {
    UppercaseTogether(a, b, upper);
    KeptTogether(Uppercase(a, upper), Uppercase(b, upper));
  }

  lemma CleanOne(c: char, upper: char -> string)
    requires upper(c) == [c]
    ensures Clean([c], upper) == if c as int in SEPARATORS then [] else [c]
  {
    SeparatorIff(c);
    assert [c][1..] == [];
    assert Uppercase([c], upper) == [c];
    assert Kept([c]) == (if Dropped(c) then [] else [c]) + Kept([]);
  }

  /** Exactly the separators may be put anywhere in a text, or taken out, without changing what is read. */
  lemma SeparatorsAreIgnored(a: string, c: char, b: string, upper: char -> string)
    requires upper(c) == [c]
    ensures Clean(a + [c] + b, upper) == if c as int in SEPARATORS then Clean(a + b, upper)
      else Clean(a, upper) + [c] + Clean(b, upper)
    ensures c as int in SEPARATORS ==> Decode(a + [c] + b, upper) == Decode(a + b, upper)
  {
    CleanOne(c, upper);
    CleanTogether(a + [c], b, upper);
    CleanTogether(a, [c], upper);
    CleanTogether(a, b, upper);
  }
}
