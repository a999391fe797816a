/** Writing numbers out as bits and reading the bits back in groups of another width, through an accumulator. */
module Regroup {
  import opened Bits

  /** The numbers' bits one after another, `w` of each. */
  function Spread(xs: seq<nat>, w: nat): seq<bool> {
    if xs == [] then [] else BitsOf(xs[0], w) + Spread(xs[1..], w)
  }

  /** `w` bits at a time; what does not fill a group is dropped. */
  function Gather(bits: seq<bool>, w: nat): seq<nat>
    requires w > 0
    decreases |bits|
  {
    if |bits| < w then [] else [ValueOf(bits[..w])] + Gather(bits[w..], w)
  }

  /** `w` bits at a time, the last group filled up with zeros. */
  function GatherPadded(bits: seq<bool>, w: nat): seq<nat>
    requires w > 0
    decreases |bits|
  {
    if bits == [] then []
    else if |bits| < w then [ValueOf(bits + Zeros(w - |bits|))]
    else [ValueOf(bits[..w])] + GatherPadded(bits[w..], w)
  }

  /** Every number fits in `w` bits. */
  ghost predicate Fit(xs: seq<nat>, w: nat) {
    forall i :: 0 <= i < |xs| ==> xs[i] < Pow2(w)
  }

  // ----- there and back -----

  lemma SpreadCons(x: nat, xs: seq<nat>, w: nat)
    ensures Spread([x] + xs, w) == BitsOf(x, w) + Spread(xs, w)
  {
    assert ([x] + xs)[1..] == xs;
  }

  lemma FitCons(x: nat, xs: seq<nat>, w: nat)
    requires x < Pow2(w) && Fit(xs, w)
    ensures Fit([x] + xs, w)
  {
  }

  lemma Reassociate(a: seq<bool>, b: seq<bool>, c: seq<bool>)
    ensures a + (b + c) == (a + b) + c
  {
  }

  /** The padded groups hold the bits, and fewer zeros than a group. */
  lemma {:induction false} PaddedHold(bits: seq<bool>, w: nat) returns (pad: nat)
    requires w > 0
    ensures pad < w && Spread(GatherPadded(bits, w), w) == bits + Zeros(pad) && Fit(GatherPadded(bits, w), w)
    decreases |bits|
  {
    if bits == [] {
      pad := 0;
    } else if |bits| < w {
      pad := w - |bits|;
      BitsOfValueOf(bits + Zeros(pad));
      SpreadCons(ValueOf(bits + Zeros(pad)), [], w);
    } else {
      pad := PaddedHold(bits[w..], w);
      BitsOfValueOf(bits[..w]);
      SpreadCons(ValueOf(bits[..w]), GatherPadded(bits[w..], w), w);
      FitCons(ValueOf(bits[..w]), GatherPadded(bits[w..], w), w);
      Reassociate(bits[..w], bits[w..], Zeros(pad));
      assert bits == bits[..w] + bits[w..];
    }
  }

  lemma {:induction false} GatherHold(bits: seq<bool>, w: nat) returns (rest: seq<bool>)
    requires w > 0
    ensures |rest| < w && Spread(Gather(bits, w), w) + rest == bits && Fit(Gather(bits, w), w)
    decreases |bits|
  {
    if |bits| < w {
      rest := bits;
      assert Spread([], w) + rest == rest;
    } else {
      rest := GatherHold(bits[w..], w);
      var first, more := ValueOf(bits[..w]), Gather(bits[w..], w);
      BitsOfValueOf(bits[..w]);
      SpreadCons(first, more, w);
      FitCons(first, more, w);
      Reassociate(bits[..w], Spread(more, w), rest);
      assert bits == bits[..w] + bits[w..];
    }
  }

  lemma FirstGroup(x: nat, more: seq<bool>, w: nat)
    requires w > 0 && x < Pow2(w)
    ensures Gather(BitsOf(x, w) + more, w) == [x] + Gather(more, w)
  {
    var all := BitsOf(x, w) + more;
    assert all[..w] == BitsOf(x, w) && all[w..] == more;
    ValueOfBitsOf(x, w);
    SmallRemainder(x, Pow2(w));
  }

  lemma SmallRemainder(x: nat, m: nat)
    requires x < m
    ensures x % m == x
  {
  }

  /** Whole numbers come back out of their bits, whatever little follows. */
  lemma {:induction false} GatherSpread(xs: seq<nat>, w: nat, rest: seq<bool>)
    requires |rest| < w && Fit(xs, w)
    ensures Gather(Spread(xs, w) + rest, w) == xs
  {
    if xs == [] {
      assert Spread(xs, w) + rest == rest;
    } else {
      GatherSpread(xs[1..], w, rest);
      Reassociate(BitsOf(xs[0], w), Spread(xs[1..], w), rest);
      FirstGroup(xs[0], Spread(xs[1..], w) + rest, w);
      assert xs == [xs[0]] + xs[1..];
    }
  }

  lemma SpreadInjective(a: seq<nat>, b: seq<nat>, w: nat)
    requires w > 0 && Fit(a, w) && Fit(b, w) && Spread(a, w) == Spread(b, w)
    ensures a == b
  {
    GatherSpread(a, w, []);
    GatherSpread(b, w, []);
    assert Spread(a, w) + [] == Spread(a, w);
  }

  // ----- through an accumulator -----

  /** The next number is shifted in. */
  lemma NextIn(value: nat, held: nat, xs: seq<nat>, i: nat, w: nat, width: nat)
    requires i < |xs| && xs[i] < Pow2(w) && held + w <= width
    ensures BitsOf(value, held) + Spread(xs[i..], w) ==
      BitsOf(ShiftIn(value, w, xs[i], width), held + w) + Spread(xs[i + 1..], w)
  {
    assert xs[i..][1..] == xs[i + 1..];
    ShiftedIn(value, held, xs[i], w, width);
    Reassociate(BitsOf(value, held), BitsOf(xs[i], w), Spread(xs[i + 1..], w));
  }

  lemma SplitOff(value: nat, held: nat, w: nat, rest: seq<bool>)
    requires w <= held
    ensures var all := BitsOf(value, held) + rest;
      all[..w] == BitsOf(value, held)[..w] && all[w..] == BitsOf(value, held - w) + rest &&
        ValueOf(all[..w]) == ReadOut(value, held - w, w)
  {
    ReadFrom(value, held, w);
    Reassociate(BitsOf(ReadOut(value, held - w, w), w), BitsOf(value, held - w), rest);
  }

  /** A group read off the accumulator is the next group of the bits. */
  lemma GroupOut(value: nat, held: nat, rest: seq<bool>, w: nat)
    requires 0 < w <= held
    ensures Gather(BitsOf(value, held) + rest, w) ==
      [ReadOut(value, held - w, w)] + Gather(BitsOf(value, held - w) + rest, w)
    ensures GatherPadded(BitsOf(value, held) + rest, w) ==
      [ReadOut(value, held - w, w)] + GatherPadded(BitsOf(value, held - w) + rest, w)
  {
    SplitOff(value, held, w, rest);
  }

  lemma LastGroupIs(bits: seq<bool>, x: nat, w: nat)
    requires 0 < |bits| < w && BitsOf(x, w) == bits + Zeros(w - |bits|)
    ensures GatherPadded(bits, w) == [x % Pow2(w)]
  {
    ValueOfBitsOf(x, w);
  }

  lemma {:induction false} ShiftedUp(value: nat, held: nat, up: nat, width: nat, x: nat)
    requires held + up <= width && x == ShiftIn(value, up, 0, width)
    ensures BitsOf(x, held + up) == BitsOf(value, held) + Zeros(up)
  {
    ZeroBits(up);
    ShiftedIn(value, held, 0, up, width);
  }

  /** The bits left at the end, shifted up, are the last group, zeros filled in. */
  lemma {:induction false} LastGroup(value: nat, held: nat, w: nat, width: nat, x: nat)
    requires 0 < held < w <= width && x == ShiftIn(value, w - held, 0, width)
    ensures GatherPadded(BitsOf(value, held), w) == [x % Pow2(w)]
  {
    ShiftedUp(value, held, w - held, width, x);
    LastGroupIs(BitsOf(value, held), x, w);
  }
}
