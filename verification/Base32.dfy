/** The base32 codec of the TOTP secrets (lib/crypto.js).

    Both loops of the source keep an accumulator that is shifted left and never masked, so it wraps
    around as a 32-bit integer. The specification does not mention it: text and bytes are related
    through the bit strings they stand for, as in section 6 of RFC 4648 (without padding).
 */
module Base32 {
  import opened Shared

  type Digit = d: int | 0 <= d < 32

  const ALPHABET := "ABCDEFGHIJKLMNOPQRSTUVWXYZ234567"

  // ---------- bit strings ----------

  /** v shifted left by k bits, before any wrap-around. */
  function Shl(v: nat, k: nat): nat {
    if k == 0 then v else 2 * Shl(v, k - 1)
  }

  /** v shifted right by k bits (`>>>`). */
  function Shr(v: nat, k: nat): nat {
    if k == 0 then v else Shr(v / 2, k - 1)
  }

  /** The n low-order bits of v, most significant first. */
  function LowBits(v: nat, n: nat): (bits: seq<bool>)
    ensures |bits| == n
  {
    if n == 0 then [] else LowBits(v / 2, n - 1) + [v % 2 == 1]
  }

  /** The digits as one bit string, w bits each. */
  function Bits(digits: seq<nat>, w: nat): seq<bool> {
    if digits == [] then []
    else
      var n := |digits| - 1;
      Bits(digits[..n], w) + LowBits(digits[n], w)
  }

  predicate AllZero(bits: seq<bool>) {
    forall i :: 0 <= i < |bits| ==> !bits[i]
  }

  lemma BitsAppend(digits: seq<nat>, d: nat, w: nat)
    ensures Bits(digits + [d], w) == Bits(digits, w) + LowBits(d, w)
  {
    assert (digits + [d])[..|digits|] == digits;
  }

  lemma PrefixStep<T>(s: seq<T>, n: nat)
    requires n < |s|
    ensures s[..n + 1] == s[..n] + [s[n]]
  {
  }

  lemma {:induction false} BitsLength(digits: seq<nat>, w: nat)
    ensures |Bits(digits, w)| == w * |digits|
  {
    if digits != [] {
      var n := |digits| - 1;
      BitsLength(digits[..n], w);
      assert w * |digits| == w * n + w;
    }
  }

  lemma {:induction false} LowBitsSplit(v: nat, a: nat, b: nat)
    ensures LowBits(v, a + b) == LowBits(Shr(v, b), a) + LowBits(v, b)
  {
    if b > 0 {
      LowBitsSplit(v / 2, a, b - 1);
    }
  }

  /** Adding m * 2^n does not change the n low-order bits. */
  lemma {:induction false} LowBitsPeriodic(v: nat, m: nat, n: nat)
    ensures LowBits(v + Shl(m, n), n) == LowBits(v, n)
  {
    if n > 0 {
      LowBitsPeriodic(v / 2, m, n - 1);
      assert (v + Shl(m, n)) / 2 == v / 2 + Shl(m, n - 1);
    }
  }

  lemma {:induction false} LowBitsInjective(v: nat, u: nat, n: nat)
    requires v < Shl(1, n) && u < Shl(1, n)
    requires LowBits(v, n) == LowBits(u, n)
    ensures v == u
  {
    if n > 0 {
      var a, b := LowBits(v, n), LowBits(u, n);
      assert a[n - 1] == b[n - 1];
      assert a[..n - 1] == LowBits(v / 2, n - 1) && b[..n - 1] == LowBits(u / 2, n - 1);
      LowBitsInjective(v / 2, u / 2, n - 1);
    }
  }

  lemma {:induction false} BitsInjective(a: seq<nat>, b: seq<nat>, w: nat)
    requires |a| == |b| && Bits(a, w) == Bits(b, w)
    requires forall i :: 0 <= i < |a| ==> a[i] < Shl(1, w) && b[i] < Shl(1, w)
    ensures a == b
  {
    if a != [] {
      var n := |a| - 1;
      var x, y, k := Bits(a, w), Bits(b, w), |Bits(a, w)| - w;
      assert x[..k] == Bits(a[..n], w) && y[..k] == Bits(b[..n], w);
      assert x[k..] == LowBits(a[n], w) && y[k..] == LowBits(b[n], w);
      BitsInjective(a[..n], b[..n], w);
      LowBitsInjective(a[n], b[n], w);
      assert a == a[..n] + [a[n]] && b == b[..n] + [b[n]];
    }
  }

  // ---------- 32-bit accumulators ----------

  /** The value a 32-bit integer keeps of n. */
  function Wrap32(n: nat): (w: nat)
    ensures w < 0x1_0000_0000
  {
    n % 0x1_0000_0000
  }

  lemma {:induction false} ShlTwice(v: nat, a: nat, b: nat)
    ensures Shl(v, a + b) == Shl(Shl(v, a), b)
  {
    if b > 0 {
      ShlTwice(v, a, b - 1);
    }
  }

  lemma Shl4(v: nat)
    ensures Shl(v, 4) == 16 * v
  {
    assert Shl(v, 1) == 2 * v;
    assert Shl(v, 3) == 2 * Shl(v, 2);
  }

  lemma Shl5(v: nat)
    ensures Shl(v, 5) == 32 * v
  {
    Shl4(v);
  }

  lemma Shl8(v: nat)
    ensures Shl(v, 8) == 256 * v
  {
    Shl4(v);
    Shl4(Shl(v, 4));
    ShlTwice(v, 4, 4);
  }

  lemma Shl32(v: nat)
    ensures Shl(v, 32) == 0x1_0000_0000 * v
  {
    Shl8(v);
    Shl8(Shl(v, 8));
    ShlTwice(v, 8, 8);
    Shl8(Shl(v, 16));
    ShlTwice(v, 16, 8);
    Shl8(Shl(v, 24));
    ShlTwice(v, 24, 8);
  }

  /** Wrap-around loses nothing of the 32 low-order bits. */
  lemma WrapKeepsLowBits(x: nat, n: nat)
    requires n <= 32
    ensures LowBits(Wrap32(x), n) == LowBits(x, n)
  {
    var m := x / 0x1_0000_0000;
    Shl32(m);
    ShlTwice(m, 32 - n, n);
    LowBitsPeriodic(Wrap32(x), Shl(m, 32 - n), n);
  }

  lemma {:induction false} ShrUndoesShl(v: nat, d: nat, w: nat)
    requires d < Shl(1, w)
    ensures Shr(Shl(v, w) + d, w) == v
  {
    if w > 0 {
      assert (Shl(v, w) + d) / 2 == Shl(v, w - 1) + d / 2;
      ShrUndoesShl(v, d / 2, w - 1);
    }
  }

  /** Shifting a digit of w bits in below the n useful bits of an accumulator, with wrap-around. */
  lemma ShiftIn(value: nat, d: nat, n: nat, w: nat)
    requires n + w <= 32 && d < Shl(1, w)
    ensures LowBits(Wrap32(Shl(value, w) + d), n + w) == LowBits(value, n) + LowBits(d, w)
  {
    var x := Shl(value, w) + d;
    WrapKeepsLowBits(x, n + w);
    LowBitsSplit(x, n, w);
    ShrUndoesShl(value, d, w);
    LowBitsPeriodic(d, value, w);
  }

  /** `done` followed by the n bits of the accumulator stays what was read when a digit is read. */
  lemma AccumulatorTakes(done: seq<bool>, value: nat, n: nat, read: seq<bool>, d: nat, w: nat)
    requires done + LowBits(value, n) == read
    requires n + w <= 32 && d < Shl(1, w)
    ensures done + LowBits(Wrap32(Shl(value, w) + d), n + w) == read + LowBits(d, w)
  {
    ShiftIn(value, d, n, w);
    Assoc(done, LowBits(value, n), LowBits(d, w));
  }

  /** ... and when the w top bits move out of the accumulator. */
  lemma AccumulatorGives(done: seq<bool>, value: nat, n: nat, read: seq<bool>, w: nat)
    requires done + LowBits(value, n) == read && w <= n
    ensures done + LowBits(Shr(value, n - w), w) + LowBits(value, n - w) == read
  {
    LowBitsSplit(value, w, n - w);
    Assoc(done, LowBits(Shr(value, n - w), w), LowBits(value, n - w));
  }

  /** Masking with 31 keeps five bits, masking with 255 eight. */
  lemma MaskKeepsLowBits(x: nat)
    ensures LowBits(x % 32, 5) == LowBits(x, 5)
    ensures LowBits(x % 256, 8) == LowBits(x, 8)
  {
    Shl5(x / 32);
    LowBitsPeriodic(x % 32, x / 32, 5);
    Shl8(x / 256);
    LowBitsPeriodic(x % 256, x / 256, 8);
  }

  // ---------- alphabet ----------

  predicate IsSymbol(c: char) {
    'A' <= c <= 'Z' || '2' <= c <= '7'
  }

  function IndexOf(c: char): (i: int)
    ensures IsSymbol(c) ==> 0 <= i < 32 && ALPHABET[i] == c
    ensures !IsSymbol(c) ==> i == -1
  {
    if 'A' <= c <= 'Z' then (c - 'A') as int
    else if '2' <= c <= '7' then 26 + (c - '2') as int
    else -1
  }

  lemma SymbolIndex(i: Digit)
    ensures IsSymbol(ALPHABET[i]) && IndexOf(ALPHABET[i]) == i
  {
    if i < 26 {
      assert ALPHABET[i] == 'A' + i as char;
    } else {
      assert ALPHABET[i] == '2' + (i - 26) as char;
    }
  }

  predicate Symbols(text: string) {
    forall c :: c in text ==> IsSymbol(c)
  }

  function Indices(text: string): (ds: seq<nat>)
    requires Symbols(text)
    ensures |ds| == |text| && forall i :: 0 <= i < |ds| ==> ds[i] < 32 && ALPHABET[ds[i]] == text[i]
  {
    seq(|text|, i requires 0 <= i < |text| => assert text[i] in text; IndexOf(text[i]))
  }

  /** The bit string a text of alphabet symbols stands for, five bits a symbol. */
  function TextBits(text: string): seq<bool>
    requires Symbols(text)
  {
    Bits(Indices(text), 5)
  }

  /** The bit string a byte string stands for. */
  function ByteBits(bytes: seq<Byte>): seq<bool> {
    Bits(bytes, 8)
  }

  /** RFC 4648, section 6, without padding characters: the bits of the bytes, filled up with zero
      bits to a whole number of symbols. */
  predicate IsEncoding(text: string, bytes: seq<Byte>) {
    && Symbols(text)
    && var k := 5 * |text| - 8 * |bytes|;
    && 0 <= k < 5
    && |TextBits(text)| == |ByteBits(bytes)| + k
    && TextBits(text)[..|ByteBits(bytes)|] == ByteBits(bytes)
    && AllZero(TextBits(text)[|ByteBits(bytes)|..])
  }

  /** The whole bytes among the bits of the text; what is left over is dropped. */
  predicate IsDecoding(bytes: seq<Byte>, text: string)
    requires Symbols(text)
  {
    && |bytes| == 5 * |text| / 8
    && ByteBits(bytes) <= TextBits(text)
  }

  // ---------- the codec ----------

  lemma TextBitsAppend(text: string, i: Digit, w: nat)
    requires w == 5 && Symbols(text)
    ensures Symbols(text + [ALPHABET[i]])
    ensures TextBits(text + [ALPHABET[i]]) == TextBits(text) + LowBits(i, w)
  {
    SymbolIndex(i);
    var t := text + [ALPHABET[i]];
    forall c | c in t ensures IsSymbol(c) { }
    assert Indices(t) == Indices(text) + [i];
    BitsAppend(Indices(text), i, w);
  }

  /** The symbols written so far and the bits still in the accumulator are the bits read so far. */
  predicate Encoding(text: string, value: nat, bits: nat, read: seq<Byte>) {
    && Symbols(text)
    && 5 * |text| + bits == 8 * |read|
    && TextBits(text) + LowBits(value, bits) == ByteBits(read)
  }

  lemma EncodingTakesByte(text: string, value: nat, bits: nat, read: seq<Byte>, b: Byte, w: nat)
    requires w == 8 && bits < 5 && Encoding(text, value, bits, read)
    ensures Encoding(text, Wrap32(Shl(value, w) + b), bits + w, read + [b])
  {
    Shl8(1);
    AccumulatorTakes(TextBits(text), value, bits, ByteBits(read), b, w);
    BitsAppend(read, b, w);
  }

  lemma EncodingEmits(text: string, value: nat, bits: nat, read: seq<Byte>, top: Digit, w: nat)
    requires w == 5 && bits >= w && Encoding(text, value, bits, read)
    requires top == Shr(value, bits - w) % 32
    ensures Encoding(text + [ALPHABET[top]], value, bits - w, read)
  {
    AccumulatorGives(TextBits(text), value, bits, ByteBits(read), w);
    MaskKeepsLowBits(Shr(value, bits - w));
    TextBitsAppend(text, top, w);
  }

  lemma EncodingStarts(bytes: seq<Byte>)
    ensures Encoding("", 0, 0, bytes[..0])
  {
  }

  /** base32Encode (lib/crypto.js:198-212). */
  method Encode(bytes: seq<Byte>) returns (text: string)
    ensures IsEncoding(text, bytes)
    ensures |text| == (8 * |bytes| + 4) / 5
  {
    hide Shl, Shr, Wrap32, LowBits, Bits, TextBits, ByteBits, Encoding;
    var bits: nat, value: nat := 0, 0;
    text := "";
    EncodingStarts(bytes);
    for n := 0 to |bytes|
      invariant bits < 5 && Encoding(text, value, bits, bytes[..n])
    {
      EncodingTakesByte(text, value, bits, bytes[..n], bytes[n], 8);
      PrefixStep(bytes, n);
      value := Wrap32(Shl(value, 8) + bytes[n]);
      bits := bits + 8;
      while bits >= 5
        invariant bits <= 12 && Encoding(text, value, bits, bytes[..n + 1])
      {
        var top := Shr(value, bits - 5) % 32;
        EncodingEmits(text, value, bits, bytes[..n + 1], top, 5);
        text := text + [ALPHABET[top]];
        bits := bits - 5;
      }
    }
    assert bytes[..|bytes|] == bytes;
    EncodingEnds(text, value, bits, bytes);
    if bits > 0 {
      text := text + [ALPHABET[Wrap32(Shl(value, 5 - bits)) % 32]];
    }
  }

  lemma EncodingEnds(text: string, value: nat, bits: nat, bytes: seq<Byte>)
    requires bits < 5 && Encoding(text, value, bits, bytes)
    ensures bits == 0 ==> IsEncoding(text, bytes)
    ensures bits > 0 ==> IsEncoding(text + [ALPHABET[Wrap32(Shl(value, 5 - bits)) % 32]], bytes)
  {
    BitsLength(bytes, 8);
    BitsLength(Indices(text), 5);
    if bits > 0 {
      var last: Digit := Wrap32(Shl(value, 5 - bits)) % 32;
      LastSymbol(value, bits);
      TextBitsAppend(text, last, 5);
      var whole := TextBits(text + [ALPHABET[last]]);
      assert whole == ByteBits(bytes) + LowBits(0, 5 - bits);
      assert whole[|ByteBits(bytes)|..] == LowBits(0, 5 - bits);
    }
  }

  /** The last symbol holds the remaining bits and then zeros. */
  lemma LastSymbol(value: nat, bits: nat)
    requires 0 < bits < 5
    ensures LowBits(Wrap32(Shl(value, 5 - bits)) % 32, 5) == LowBits(value, bits) + LowBits(0, 5 - bits)
    ensures AllZero(LowBits(0, 5 - bits))
  {
    MaskKeepsLowBits(Wrap32(Shl(value, 5 - bits)));
    assert Shl(1, 5 - bits) > 0;
    ShiftIn(value, 0, bits, 5 - bits);
    ZeroBits(5 - bits);
  }

  lemma {:induction false} ZeroBits(n: nat)
    ensures AllZero(LowBits(0, n))
  {
    if n > 0 { ZeroBits(n - 1); }
  }

  /** toUpperCase of one character, after the Unicode case mappings. Besides the letters a to z these
      are all the characters whose upper case holds a letter A to Z; of any other only matters that its
      upper case holds neither a symbol nor a padding character. */
  function UpperOf(c: char): string {
    if 'a' <= c <= 'z' then ['A' + (c - 'a')]
    else
      var n := c as int;
      if n == 0x131 then "I"
      else if n == 0x17F then "S"
      else if n == 0xDF then "SS"
      else if n == 0x149 then [0x2BC as char, 'N']
      else if n == 0x1F0 then ['J', 0x30C as char]
      else if n == 0x1E96 then ['H', 0x331 as char]
      else if n == 0x1E97 then ['T', 0x308 as char]
      else if n == 0x1E98 then ['W', 0x30A as char]
      else if n == 0x1E99 then ['Y', 0x30A as char]
      else if n == 0x1E9A then ['A', 0x2BE as char]
      else if n == 0xFB00 then "FF"
      else if n == 0xFB01 then "FI"
      else if n == 0xFB02 then "FL"
      else if n == 0xFB03 then "FFI"
      else if n == 0xFB04 then "FFL"
      else if n == 0xFB05 || n == 0xFB06 then "ST"
      else [c]
  }

  function Upper(text: string): string {
    if text == [] then [] else Upper(text[..|text| - 1]) + UpperOf(text[|text| - 1])
  }

  function StripPadding(text: string): string {
    if text != [] && text[|text| - 1] == '=' then StripPadding(text[..|text| - 1]) else text
  }

  function KeepSymbols(text: string): (kept: string)
    ensures Symbols(kept)
  {
    if text == [] then []
    else
      var n := |text| - 1;
      KeepSymbols(text[..n]) + if IsSymbol(text[n]) then [text[n]] else []
  }

  /** What base32Decode looks at (lib/crypto.js:215-218). */
  function Clean(text: string): (clean: string)
    ensures Symbols(clean)
  {
    KeepSymbols(StripPadding(Upper(text)))
  }

  /** The bytes written so far and the bits still in the accumulator are the bits read so far. */
  predicate Decoding(bytes: seq<Byte>, current: nat, bits: nat, read: string) {
    && Symbols(read)
    && 8 * |bytes| + bits == 5 * |read|
    && ByteBits(bytes) + LowBits(current, bits) == TextBits(read)
  }

  lemma DecodingTakesSymbol(bytes: seq<Byte>, current: nat, bits: nat, read: string, c: char, w: nat)
    requires w == 5 && bits < 8 && Decoding(bytes, current, bits, read) && IsSymbol(c)
    ensures Decoding(bytes, Wrap32(Shl(current, w) + IndexOf(c)), bits + w, read + [c])
  {
    hide Shl, Wrap32, LowBits, Bits, TextBits, ByteBits, IndexOf;
    Shl5(1);
    AccumulatorTakes(ByteBits(bytes), current, bits, TextBits(read), IndexOf(c), w);
    TextBitsAppend(read, IndexOf(c), w);
  }

  lemma DecodingEmits(bytes: seq<Byte>, current: nat, bits: nat, read: string, b: Byte, w: nat)
    requires w == 8 && bits >= w && Decoding(bytes, current, bits, read)
    requires b == Shr(current, bits - w) % 256
    ensures Decoding(bytes + [b], current, bits - w, read)
  {
    AccumulatorGives(ByteBits(bytes), current, bits, TextBits(read), w);
    MaskKeepsLowBits(Shr(current, bits - w));
    BitsAppend(bytes, b, w);
  }

  lemma DecodingStarts(clean: string)
    ensures Decoding([], 0, 0, clean[..0])
  {
  }

  lemma DecodingEnds(bytes: seq<Byte>, current: nat, bits: nat, clean: string)
    requires bits < 8 && Decoding(bytes, current, bits, clean)
    ensures IsDecoding(bytes, clean)
  {
  }

  /** base32Decode (lib/crypto.js:214-233). */
  method Decode(input: string) returns (bytes: seq<Byte>)
    ensures IsDecoding(bytes, Clean(input))
  {
    hide Shl, Shr, Wrap32, LowBits, Bits, TextBits, ByteBits, Decoding;
    var clean := Clean(input);
    var bits: nat, current: nat := 0, 0;
    bytes := [];
    DecodingStarts(clean);
    for n := 0 to |clean|
      invariant bits < 8 && Decoding(bytes, current, bits, clean[..n])
    {
      assert clean[n] in clean;
      var idx := IndexOf(clean[n]);
      DecodingTakesSymbol(bytes, current, bits, clean[..n], clean[n], 5);
      PrefixStep(clean, n);
      current := Wrap32(Shl(current, 5) + idx);
      bits := bits + 5;
      if bits >= 8 {
        var b := Shr(current, bits - 8) % 256;
        DecodingEmits(bytes, current, bits, clean[..n + 1], b, 8);
        bytes := bytes + [b];
        bits := bits - 8;
      }
    }
    assert clean[..|clean|] == clean;
    DecodingEnds(bytes, current, bits, clean);
  }

  // ---------- what the codec is for ----------

  lemma ByteRange(bytes: seq<Byte>)
    ensures forall i :: 0 <= i < |bytes| ==> bytes[i] < Shl(1, 8)
  {
    Shl8(1);
  }

  /** A text of symbols is its own cleaned form, whatever padding follows it. */
  lemma {:induction false} CleanSymbols(text: string, padding: string)
    requires Symbols(text) && (forall c :: c in padding ==> c == '=')
    ensures Clean(text + padding) == text
  {
    forall i | 0 <= i < |text + padding| ensures SymbolOrPadding((text + padding)[i]) {
      assert if i < |text| then text[i] in text else padding[i - |text|] in padding;
    }
    UpperSymbols(text + padding);
    StripAllPadding(text, padding);
    StripSymbols(text);
    KeepAll(text);
  }

  predicate SymbolOrPadding(c: char) { IsSymbol(c) || c == '=' }

  lemma {:induction false} UpperSymbols(text: string)
    requires forall i :: 0 <= i < |text| ==> SymbolOrPadding(text[i])
    ensures Upper(text) == text
    decreases |text|
  {
    hide UpperOf, IsSymbol, SymbolOrPadding;
    if text != [] {
      var n := |text| - 1;
      UpperSymbols(text[..n]);
      SymbolIsUpper(text[n]);
      assert text == text[..n] + [text[n]];
    }
  }

  lemma SymbolIsUpper(c: char)
    requires SymbolOrPadding(c)
    ensures UpperOf(c) == [c]
  {
  }

  lemma {:induction false} StripAllPadding(text: string, padding: string)
    requires forall c :: c in padding ==> c == '='
    ensures StripPadding(text + padding) == StripPadding(text)
  {
    if padding == [] {
      assert text + padding == text;
    } else {
      var n := |padding| - 1;
      assert padding[n] in padding;
      assert forall c :: c in padding[..n] ==> c in padding;
      assert (text + padding)[..|text + padding| - 1] == text + padding[..n];
      StripAllPadding(text, padding[..n]);
    }
  }

  lemma StripSymbols(text: string)
    requires Symbols(text)
    ensures StripPadding(text) == text
  {
    if text != [] { assert text[|text| - 1] in text; }
  }

  lemma {:induction false} KeepAll(text: string)
    requires Symbols(text)
    ensures KeepSymbols(text) == text
  {
    if text != [] {
      var n := |text| - 1;
      assert text[n] in text;
      KeepAll(text[..n]);
      assert text == text[..n] + [text[n]];
    }
  }

  /** A decoding of an encoding of the bytes is the bytes. */
  lemma RoundTrip(bytes: seq<Byte>, text: string, back: seq<Byte>)
    requires IsEncoding(text, bytes) && IsDecoding(back, text)
    ensures back == bytes
  {
    BitsLength(bytes, 8);
    BitsLength(back, 8);
    assert ByteBits(back) == TextBits(text)[..8 * |back|];
    ByteRange(bytes);
    ByteRange(back);
    BitsInjective(bytes, back, 8);
  }

  /** base32Decode undoes base32Encode for every byte string, also when the encoding is followed by
      the padding characters of RFC 4648. */
  method EncodeThenDecode(bytes: seq<Byte>, padding: string) returns (text: string, back: seq<Byte>)
    requires forall c :: c in padding ==> c == '='
    ensures |text| == (8 * |bytes| + 4) / 5
    ensures back == bytes
  {
    text := Encode(bytes);
    back := Decode(text + padding);
    CleanSymbols(text, padding);
    RoundTrip(bytes, text, back);
  }

  /** The texts base32Encode can produce: no symbol too many, and zero bits at the end. */
  predicate Canonical(text: string)
    requires Symbols(text)
  {
    5 * |text| % 8 < 5 && |TextBits(text)| == 5 * |text|
    && AllZero(TextBits(text)[8 * (5 * |text| / 8)..])
  }

  /** Two texts of symbols with the same bits are the same. */
  lemma TextsInjective(a: string, b: string)
    requires Symbols(a) && Symbols(b) && |a| == |b| && TextBits(a) == TextBits(b)
    ensures a == b
  {
    Shl5(1);
    BitsInjective(Indices(a), Indices(b), 5);
    hide Bits;
    forall i | 0 <= i < |a| ensures a[i] == b[i] {
      assert Indices(a)[i] == Indices(b)[i];
    }
  }

  /** Bits that agree up to place n and are all zero behind it. */
  lemma ZeroFilled(x: seq<bool>, y: seq<bool>, n: nat)
    requires |x| == |y| && n <= |x| && x[..n] == y[..n] && AllZero(x[n..]) && AllZero(y[n..])
    ensures x == y
  {
    forall i | 0 <= i < |x| ensures x[i] == y[i] {
      if i < n { assert x[i] == x[..n][i] == y[..n][i] == y[i]; }
      else { assert x[i] == x[n..][i - n] && y[i] == y[n..][i - n]; }
    }
  }

  /** Decoding and encoding again gives the text back exactly when it is canonical. */
  lemma ReencodeIffCanonical(text: string, bytes: seq<Byte>, again: string)
    requires Symbols(text) && IsDecoding(bytes, text) && IsEncoding(again, bytes)
    ensures again == text <==> Canonical(text)
  {
    BitsLength(bytes, 8);
    BitsLength(Indices(text), 5);
    BitsLength(Indices(again), 5);
    hide Bits, Symbols, AllZero;
    if Canonical(text) {
      assert |again| == |text|;
      ZeroFilled(TextBits(text), TextBits(again), |ByteBits(bytes)|);
      TextsInjective(text, again);
    }
  }

  // ---------- the alphabet ----------

  /** Table 3 of RFC 4648: A to Z stand for 0 to 25, and 2 to 7 for 26 to 31. */
  lemma AlphabetIs(d: Digit)
    ensures |ALPHABET| == 32
    ensures ALPHABET[d] as int == if d < 26 then 'A' as int + d else '2' as int + (d - 26)
  {
    if d < 26 { assert IndexOf('A' + d as char) == d; } else { assert IndexOf('2' + (d - 26) as char) == d; }
  }
}
