/** Base32 without padding (section 6 of RFC 4648), as sign-in secrets are written. */
module Base32 {
  import opened Wrappers
  import opened Bits
  import opened Regroup

  const ALPHABET: string := "ABCDEFGHIJKLMNOPQRSTUVWXYZ234567"

  /** Shifts work on 32-bit integers. */
  const WIDTH: nat := 32

  lemma Powers()
    ensures Pow2(5) == 32 && Pow2(8) == 256
  {
  }

  ghost predicate Bytes(bytes: seq<nat>) {
    forall i :: 0 <= i < |bytes| ==> bytes[i] < 256
  }

  ghost predicate Letters(qs: seq<nat>) {
    forall i :: 0 <= i < |qs| ==> qs[i] < 32
  }

  lemma LettersFit(qs: seq<nat>)
    ensures Letters(qs) <==> Fit(qs, 5)
  {
    Powers();
  }

  lemma BytesFit(bytes: seq<nat>)
    ensures Bytes(bytes) <==> Fit(bytes, 8)
  {
    Powers();
  }

  // ----- the encoding, on bits -----

  function Text(qs: seq<nat>): (text: string)
    requires Letters(qs)
    ensures |text| == |qs| && forall k :: 0 <= k < |qs| ==> text[k] == ALPHABET[qs[k]]
  {
    seq(|qs|, k requires 0 <= k < |qs| => ALPHABET[qs[k]])
  }

  /** The bytes' bits in groups of five, the last filled up with zeros. */
  function Groups(bytes: seq<nat>): (qs: seq<nat>)
    ensures Letters(qs)
  {
    assert Letters(GatherPadded(Spread(bytes, 8), 5)) by {
      var pad := PaddedHold(Spread(bytes, 8), 5);
      LettersFit(GatherPadded(Spread(bytes, 8), 5));
    }
    GatherPadded(Spread(bytes, 8), 5)
  }

  function Encode(bytes: seq<nat>): string { Text(Groups(bytes)) }

  // ----- reading it back -----

  function Find(c: char, from: nat): (r: Option<nat>)
    requires from <= 32
    decreases 32 - from
    ensures r.Some? ==> r.value < 32 && ALPHABET[r.value] == c
    ensures r.None? ==> forall k :: from <= k < 32 ==> ALPHABET[k] != c
  {
    if from == 32 then None else if ALPHABET[from] == c then Some(from) else Find(c, from + 1)
  }

  /** Every letter has a place in the alphabet, and nothing else has. */
  lemma AlphabetPlaces(c: char)
    ensures c in ALPHABET <==> exists k :: 0 <= k < 32 && ALPHABET[k] == c
  {
    assert |ALPHABET| == 32;
  }

  function IndexOf(c: char): (r: Option<nat>)
    ensures r.Some? ==> r.value < 32 && ALPHABET[r.value] == c
    ensures r.None? <==> c !in ALPHABET
  {
    AlphabetPlaces(c);
    Find(c, 0)
  }

  predicate Whitespace(c: char) {
    var n := c as int;
    || 0x9 <= n <= 0xD || n == 0x20 || n == 0xA0 || n == 0x1680 || 0x2000 <= n <= 0x200A
    || n == 0x2028 || n == 0x2029 || n == 0x202F || n == 0x205F || n == 0x3000 || n == 0xFEFF
  }

  predicate Dropped(c: char) { Whitespace(c) || c == '=' || c == '-' }

  function Uppercase(text: string, upper: char -> string): string {
    if text == [] then [] else upper(text[0]) + Uppercase(text[1..], upper)
  }

  function Kept(text: string): string {
    if text == [] then [] else (if Dropped(text[0]) then [] else [text[0]]) + Kept(text[1..])
  }

  /**
   * Upper case, less spaces, dashes and padding. `upper` is the platform's case mapping, which may
   * turn one letter into several.
   */
  function Clean(text: string, upper: char -> string): string { Kept(Uppercase(text, upper)) }

  /** The case mapping leaves the alphabet's own letters and digits alone. */
  ghost predicate KeepsAlphabet(upper: char -> string) {
    forall c :: c in ALPHABET ==> upper(c) == [c]
  }

  function Indices(text: string): (qs: Option<seq<nat>>)
    ensures qs.Some? ==> |qs.value| == |text| && Letters(qs.value) && forall k ::
      0 <= k < |text| ==> text[k] == ALPHABET[qs.value[k]]
  {
    if text == [] then Some([])
    else
      var first, rest := IndexOf(text[0]), Indices(text[1..]);
      if first.Some? && rest.Some? then Some([first.value] + rest.value) else None
  }

  /** Whole bytes out of the characters' bits, five of each; `None` where the decoder throws. */
  function Decode(text: string, upper: char -> string): Option<seq<nat>> {
    var qs := Indices(Clean(text, upper));
    if qs.Some? then Some(Gather(Spread(qs.value, 5), 8)) else None
  }

  // ----- the encoder -----

  /** What is written, the bits in hand and the bytes still to come make up the answer. */
  ghost predicate Writes(bytes: seq<nat>, i: nat, value: nat, bits: nat, qs: seq<nat>)
    requires i <= |bytes|
  {
    qs + GatherPadded(BitsOf(value, bits) + Spread(bytes[i..], 8), 5) == Groups(bytes)
  }

  method Base32Encode(bytes: seq<nat>) returns (out: string)
    requires Bytes(bytes)
    ensures out == Encode(bytes)
  {
    var bits: nat, value: nat := 0, 0;
    var qs: seq<nat> := [];
    WritesAtStart(bytes);
    for i := 0 to |bytes|
      invariant bits < 5 && Writes(bytes, i, value, bits, qs)
    {
      WritesOn(bytes, i, value, bits, qs);
      value := ShiftIn(value, 8, bytes[i], WIDTH);
      bits := bits + 8;
      while bits >= 5
        invariant bits < 13 && Writes(bytes, i + 1, value, bits, qs)
      {
        EmitKeepsWrites(bytes, i + 1, value, bits, qs);
        qs := qs + [ReadOut(value, bits - 5, 5)];
        bits := bits - 5;
      }
    }
    WritesAtEnd(bytes, value, bits, qs);
    if bits > 0 {
      qs := qs + [ShiftIn(value, 5 - bits, 0, WIDTH) % 32];
    }
    out := Text(qs);
  }

  lemma WritesAtStart(bytes: seq<nat>)
    ensures Writes(bytes, 0, 0, 0, [])
  {
    assert bytes[0..] == bytes;
    assert BitsOf(0, 0) + Spread(bytes, 8) == Spread(bytes, 8);
  }

  lemma WritesOn(bytes: seq<nat>, i: nat, value: nat, bits: nat, qs: seq<nat>)
    requires i < |bytes| && bits < 5 && Bytes(bytes) && Writes(bytes, i, value, bits, qs)
    ensures Writes(bytes, i + 1, ShiftIn(value, 8, bytes[i], WIDTH), bits + 8, qs)
  {
    Powers();
    NextIn(value, bits, bytes, i, 8, WIDTH);
  }

  lemma WritesAtEnd(bytes: seq<nat>, value: nat, bits: nat, qs: seq<nat>)
    requires bits < 5 && Writes(bytes, |bytes|, value, bits, qs)
    ensures Groups(bytes) == if bits > 0 then qs + [ShiftIn(value, 5 - bits, 0, WIDTH) % 32] else qs
  {
    assert bytes[|bytes|..] == [];
    assert BitsOf(value, bits) + Spread([], 8) == BitsOf(value, bits);
    if bits > 0 {
      Powers();
      LastGroup(value, bits, 5, WIDTH, ShiftIn(value, 5 - bits, 0, WIDTH));
    }
  }

  lemma Snoc(qs: seq<nat>, q: nat, more: seq<nat>)
    ensures qs + ([q] + more) == (qs + [q]) + more
  {
  }

  lemma EmitKeepsWrites(bytes: seq<nat>, i: nat, value: nat, bits: nat, qs: seq<nat>)
    requires i <= |bytes| && bits >= 5 && Writes(bytes, i, value, bits, qs)
    ensures Writes(bytes, i, value, bits - 5, qs + [ReadOut(value, bits - 5, 5)])
  {
    var rest := Spread(bytes[i..], 8);
    GroupOut(value, bits, rest, 5);
    Snoc(qs, ReadOut(value, bits - 5, 5), GatherPadded(BitsOf(value, bits - 5) + rest, 5));
  }

  // ----- the decoder -----

  /** What is decoded, the bits in hand and the text still to read make up the answer. */
  ghost predicate Reads(clean: string, i: nat, value: nat, bits: nat, bytes: seq<nat>)
    requires i <= |clean|
  {
    var whole, rest := Indices(clean), Indices(clean[i..]);
    && (whole.None? <==> rest.None?)
    && (whole.Some? ==>
      bytes + Gather(BitsOf(value, bits) + Spread(rest.value, 5), 8) == Gather(Spread(whole.value, 5), 8))
  }

  method Base32Decode(text: string, upper: char -> string) returns (out: Option<seq<nat>>)
    ensures out == Decode(text, upper)
  {
    var clean := Clean(text, upper);
    var bits: nat, value: nat := 0, 0;
    var bytes: seq<nat> := [];
    ReadsAtStart(clean);
    for i := 0 to |clean|
      invariant bits < 8 && Reads(clean, i, value, bits, bytes)
    {
      var index := IndexOf(clean[i]);
      if index.None? {
        NotBase32(clean, i, value, bits, bytes);
        return None;
      }
      ReadsOn(clean, i, value, bits, bytes, index.value);
      value := ShiftIn(value, 5, index.value, WIDTH);
      bits := bits + 5;
      if bits >= 8 {
        EmitKeepsReads(clean, i + 1, value, bits, bytes);
        bytes := bytes + [ReadOut(value, bits - 8, 8)];
        bits := bits - 8;
      }
    }
    ReadsAtEnd(clean, value, bits, bytes);
    out := Some(bytes);
  }

  lemma ReadsAtStart(clean: string)
    ensures Reads(clean, 0, 0, 0, [])
  {
    assert clean[0..] == clean;
    if Indices(clean).Some? {
      assert BitsOf(0, 0) + Spread(Indices(clean).value, 5) == Spread(Indices(clean).value, 5);
    }
  }

  lemma ReadsAtEnd(clean: string, value: nat, bits: nat, bytes: seq<nat>)
    requires bits < 8 && Reads(clean, |clean|, value, bits, bytes)
    ensures Indices(clean).Some? && Gather(Spread(Indices(clean).value, 5), 8) == bytes
  {
    assert clean[|clean|..] == [];
    assert BitsOf(value, bits) + Spread([], 5) == BitsOf(value, bits);
  }

  lemma NotBase32(clean: string, i: nat, value: nat, bits: nat, bytes: seq<nat>)
    requires i < |clean| && Reads(clean, i, value, bits, bytes) && IndexOf(clean[i]).None?
    ensures Indices(clean).None?
  {
    assert clean[i..][0] == clean[i];
  }

  lemma ReadsOn(clean: string, i: nat, value: nat, bits: nat, bytes: seq<nat>, q: nat)
    requires i < |clean| && bits < 8 && Reads(clean, i, value, bits, bytes) && IndexOf(clean[i]) == Some(q)
    ensures Reads(clean, i + 1, ShiftIn(value, 5, q, WIDTH), bits + 5, bytes)
  {
    assert clean[i..][0] == clean[i] && clean[i..][1..] == clean[i + 1..];
    var rest := Indices(clean[i + 1..]);
    if rest.Some? {
      var qs := [q] + rest.value;
      assert Indices(clean[i..]).value == qs;
      Powers();
      assert qs[0..] == qs && qs[1..] == rest.value;
      NextIn(value, bits, qs, 0, 5, WIDTH);
    }
  }

  lemma EmitKeepsReads(clean: string, i: nat, value: nat, bits: nat, bytes: seq<nat>)
    requires i <= |clean| && bits >= 8 && Reads(clean, i, value, bits, bytes)
    ensures Reads(clean, i, value, bits - 8, bytes + [ReadOut(value, bits - 8, 8)])
  {
    var rest := Indices(clean[i..]);
    if rest.Some? {
      GroupOut(value, bits, Spread(rest.value, 5), 8);
      Snoc(bytes, ReadOut(value, bits - 8, 8), Gather(BitsOf(value, bits - 8) + Spread(rest.value, 5), 8));
    }
  }

  // ----- text and indices -----

  lemma LetterCode(i: nat)
    requires i < 32
    ensures ALPHABET[i] as int == if i < 26 then 'A' as int + i else '2' as int + i - 26
  {
  }

  lemma AlphabetDistinct(i: nat, j: nat)
    requires i < 32 && j < 32 && ALPHABET[i] == ALPHABET[j]
    ensures i == j
  {
    LetterCode(i);
    LetterCode(j);
  }

  lemma IndexOfLetter(q: nat)
    requires q < 32
    ensures IndexOf(ALPHABET[q]) == Some(q)
  {
    assert ALPHABET[q] in ALPHABET;
    AlphabetDistinct(IndexOf(ALPHABET[q]).value, q);
  }

  lemma {:induction false} IndicesOfText(qs: seq<nat>)
    requires Letters(qs)
    ensures Indices(Text(qs)) == Some(qs)
  {
    if qs != [] {
      IndicesOfText(qs[1..]);
      assert Text(qs)[1..] == Text(qs[1..]);
      IndexOfLetter(qs[0]);
      assert qs == [qs[0]] + qs[1..];
    }
  }

  lemma CodeIsKept(c: char)
    requires 'A' as int <= c as int <= 'Z' as int || '2' as int <= c as int <= '7' as int
    ensures !Dropped(c)
  {
  }

  lemma AlphabetIsKept(c: char)
    requires c in ALPHABET
    ensures !Dropped(c)
  {
    LetterCode(IndexOf(c).value);
    CodeIsKept(c);
  }

  lemma CleanLetter(c: char, rest: string, upper: char -> string)
    requires KeepsAlphabet(upper) && c in ALPHABET
    ensures Clean([c] + rest, upper) == [c] + Clean(rest, upper)
  {
    var text := [c] + rest;
    assert text[1..] == rest && upper(c) == [c];
    var up := Uppercase(text, upper);
    assert up == [c] + Uppercase(rest, upper);
    assert up[1..] == Uppercase(rest, upper);
    AlphabetIsKept(c);
  }

  lemma {:induction false} CleanKeepsAlphabet(text: string, upper: char -> string)
    requires KeepsAlphabet(upper) && forall k :: 0 <= k < |text| ==> text[k] in ALPHABET
    ensures Clean(text, upper) == text
  {
    if text != [] {
      CleanKeepsAlphabet(text[1..], upper);
      CleanLetter(text[0], text[1..], upper);
      assert text == [text[0]] + text[1..];
    }
  }

  // ----- round trips -----

  lemma {:induction false} SpreadLength(xs: seq<nat>, w: nat)
    requires w == 5 || w == 8
    ensures |Spread(xs, w)| == w * |xs|
  {
    if xs != [] {
      SpreadLength(xs[1..], w);
    }
  }

  /** Any text that cleans to the encoding of some bytes, in lower case or broken into groups, decodes to them. */
  lemma DecodesWhatWasEncoded(bytes: seq<nat>, text: string, upper: char -> string)
    requires Bytes(bytes) && Clean(text, upper) == Encode(bytes)
    ensures Decode(text, upper) == Some(bytes)
  {
    IndicesOfText(Groups(bytes));
    var pad := PaddedHold(Spread(bytes, 8), 5);
    BytesFit(bytes);
    GatherSpread(bytes, 8, Zeros(pad));
  }

  /** Decoding the encoding gives back the bytes; it has ceil(8n/5) characters, all of the alphabet, with no padding. */
  lemma RoundTrip(bytes: seq<nat>, upper: char -> string)
    requires Bytes(bytes) && KeepsAlphabet(upper)
    ensures Decode(Encode(bytes), upper) == Some(bytes)
    ensures |Encode(bytes)| == (8 * |bytes| + 4) / 5
    ensures forall k :: 0 <= k < |Encode(bytes)| ==> Encode(bytes)[k] in ALPHABET
  {
    CleanKeepsAlphabet(Encode(bytes), upper);
    DecodesWhatWasEncoded(bytes, Encode(bytes), upper);
    var pad := PaddedHold(Spread(bytes, 8), 5);
    SpreadLength(bytes, 8);
    SpreadLength(Groups(bytes), 5);
  }

  lemma {:induction false} IndicesFailIff(text: string)
    ensures Indices(text).None? <==> exists k :: 0 <= k < |text| && text[k] !in ALPHABET
  {
    if text != [] {
      IndicesFailIff(text[1..]);
      if Indices(text[1..]).None? {
        var k :| 0 <= k < |text[1..]| && text[1..][k] !in ALPHABET;
        assert text[k + 1] !in ALPHABET;
      }
      if k :| 0 <= k < |text| && text[k] !in ALPHABET && k > 0 {
        assert text[1..][k - 1] !in ALPHABET;
      }
    }
  }

  /** The decoder throws exactly when something outside the alphabet is left after cleaning. */
  lemma DecodeFailsIff(text: string, upper: char -> string)
    ensures Decode(text, upper).None? <==> exists k ::
      0 <= k < |Clean(text, upper)| && Clean(text, upper)[k] !in ALPHABET
  {
    IndicesFailIff(Clean(text, upper));
  }

  /** The bits after the last whole byte. */
  function LeftOver(bits: seq<bool>): seq<bool> {
    bits[|bits| - |bits| % 8..]
  }

  ghost predicate FewZeros(bits: seq<bool>) {
    |bits| < 5 && forall k :: 0 <= k < |bits| ==> !bits[k]
  }

  lemma SameEndIff(whole: seq<bool>, rest: seq<bool>, pad: nat)
    requires pad < 5 && (|whole| + |rest|) % 5 == 0 && (|whole| + pad) % 5 == 0
    ensures whole + rest == whole + Zeros(pad) <==> FewZeros(rest)
  {
    if whole + rest == whole + Zeros(pad) {
      assert rest == (whole + rest)[|whole|..] && Zeros(pad) == (whole + Zeros(pad))[|whole|..];
    }
    if FewZeros(rest) {
      assert |rest| == pad;
      assert rest == Zeros(pad);
    }
  }

  lemma TailIs(whole: seq<bool>, rest: seq<bool>, m: nat)
    requires |whole| == 8 * m && |rest| < 8
    ensures LeftOver(whole + rest) == rest
  {
    assert |whole + rest| % 8 == |rest|;
  }

  lemma {:induction false} GroupsAgainIff(qs: seq<nat>)
    requires Letters(qs)
    ensures Groups(Gather(Spread(qs, 5), 8)) == qs <==> FewZeros(LeftOver(Spread(qs, 5)))
  {
    var bytes := Gather(Spread(qs, 5), 8);
    var rest := GatherHold(Spread(qs, 5), 8);
    SpreadLength(bytes, 8);
    TailIs(Spread(bytes, 8), rest, |bytes|);
    SameGroupsIff(qs, bytes, rest);
  }

  lemma {:induction false} PaddedLengths(qs: seq<nat>, bytes: seq<nat>, rest: seq<bool>, pad: nat)
    requires Spread(bytes, 8) + rest == Spread(qs, 5) && Spread(Groups(bytes), 5) == Spread(bytes, 8) + Zeros(pad)
    ensures (|Spread(bytes, 8)| + pad) % 5 == 0 && (|Spread(bytes, 8)| + |rest|) % 5 == 0
  {
    SpreadLength(Groups(bytes), 5);
    SpreadLength(qs, 5);
    assert |Spread(bytes, 8)| + |rest| == |Spread(bytes, 8) + rest|;
    assert |Spread(bytes, 8)| + pad == |Spread(bytes, 8) + Zeros(pad)|;
  }

  lemma {:induction false} SameGroupsIff(qs: seq<nat>, bytes: seq<nat>, rest: seq<bool>)
    requires Letters(qs) && Spread(bytes, 8) + rest == Spread(qs, 5)
    ensures Groups(bytes) == qs <==> FewZeros(rest)
  {
    var pad := PaddedHold(Spread(bytes, 8), 5);
    PaddedLengths(qs, bytes, rest, pad);
    SameEndIff(Spread(bytes, 8), rest, pad);
    if FewZeros(rest) {
      LettersFit(qs);
      LettersFit(Groups(bytes));
      SpreadInjective(qs, Groups(bytes), 5);
    }
  }

  /**
   * Encoding what was decoded gives back the text, cleaned, exactly when fewer than five bits were
   * left over and they are zeros.
   */
  lemma EncodesWhatWasDecodedIff(text: string, upper: char -> string)
    requires Indices(Clean(text, upper)).Some?
    ensures Decode(text, upper).Some?
    ensures Encode(Decode(text, upper).value) == Clean(text, upper) <==>
      FewZeros(LeftOver(Spread(Indices(Clean(text, upper)).value, 5)))
  {
    var clean := Clean(text, upper);
    var qs := Indices(clean).value;
    assert Text(qs) == clean;
    GroupsAgainIff(qs);
    IndicesOfText(Groups(Gather(Spread(qs, 5), 8)));
  }
}
