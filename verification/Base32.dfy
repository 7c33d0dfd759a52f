/**
 Base32 (RFC 4648 section 6). The decoder keeps its bits in a 64-bit buffer
 that overflows on long secrets; the bytes it emits are right all the same.
 Text is ASCII here.
 */
module Base32 {
  import opened Bytes

  const ALPHABET := "ABCDEFGHIJKLMNOPQRSTUVWXYZ234567"
  const TWO_64 := 0x1_0000_0000_0000_0000

  function Upper(c: char): char {
    if 'a' <= c <= 'z' then (c as int - 32) as char else c
  }

  /** Upper case, without padding characters. */
  function Cleaned(s: string): string {
    if s == [] then []
    else if s[0] == '=' then Cleaned(s[1..])
    else [Upper(s[0])] + Cleaned(s[1..])
  }

  predicate IsSymbol(c: char) {
    'A' <= c <= 'Z' || '2' <= c <= '7'
  }

  predicate AllSymbols(s: string) {
    forall i :: 0 <= i < |s| ==> IsSymbol(s[i])
  }

  function Symbol(v: nat): (c: char)
    requires v < 32
    ensures IsSymbol(c) && SymbolValue(c) == v
  {
    if v < 26 then (65 + v) as char else (24 + v) as char
  }

  /** What the decoder takes a character for. */
  function SymbolValue(c: char): (v: nat)
    requires IsSymbol(c)
    ensures v < 32
  {
    if 'A' <= c <= 'Z' then c as int - 65 else c as int - 24
  }

  /** The characters accepted are those of the alphabet; each stands for its first, and only, place in it. */
  lemma AlphabetOrder(c: char)
    ensures |ALPHABET| == 32 && (IsSymbol(c) <==> c in ALPHABET)
    ensures forall v :: 0 <= v < 32 ==> ALPHABET[v] == Symbol(v)
    ensures IsSymbol(c) ==> forall v :: 0 <= v < 32 ==> (ALPHABET[v] == c <==> v == SymbolValue(c))
  {
  }

  // ---------------------------------------------------------------------------
  // Bit strings
  // ---------------------------------------------------------------------------

  type bit = x: int | 0 <= x < 2
  type bits = seq<bit>

  /** The number a bit string denotes, most significant bit first. */
  function Num(b: bits): nat {
    if b == [] then 0 else Num(b[..|b| - 1]) * 2 + b[|b| - 1]
  }

  /** The low n bits of a number. */
  function Bits(v: nat, n: nat): (b: bits)
    ensures |b| == n
  {
    if n == 0 then [] else Bits(v / 2, n - 1) + [v % 2]
  }

  /** The number shifted right by k bits. */
  function ShiftRight(v: nat, k: nat): nat {
    if k == 0 then v else ShiftRight(v / 2, k - 1)
  }

  function Two(n: nat): nat {
    if n == 0 then 1 else 2 * Two(n - 1)
  }

  lemma {:induction false} NumBound(b: bits)
    ensures Num(b) < Two(|b|)
  {
    if b != [] {
      NumBound(b[..|b| - 1]);
    }
  }

  lemma {:induction false} NumOfBits(v: nat, n: nat)
    requires v < Two(n)
    ensures Num(Bits(v, n)) == v
  {
    if n > 0 {
      NumOfBits(v / 2, n - 1);
      assert Bits(v, n)[..n - 1] == Bits(v / 2, n - 1);
    }
  }

  lemma {:induction false} BitsOfNum(b: bits)
    ensures Bits(Num(b), |b|) == b
  {
    if b != [] {
      BitsOfNum(b[..|b| - 1]);
    }
  }

  /** The bits above position k are those of the shifted number. */
  lemma {:induction false} BitsShift(v: nat, n: nat, k: nat)
    ensures Bits(v, n + k) == Bits(ShiftRight(v, k), n) + Bits(v, k)
  {
    if k > 0 {
      BitsShift(v / 2, n, k - 1);
    }
  }

  /** A number doubled j times. */
  function Doubled(q: nat, j: nat): nat {
    if j == 0 then q else 2 * Doubled(q, j - 1)
  }

  lemma {:induction false} DoubledTwice(q: nat, i: nat, j: nat)
    ensures Doubled(Doubled(q, i), j) == Doubled(q, i + j)
  {
    if j > 0 {
      DoubledTwice(q, i, j - 1);
    }
  }

  lemma DoublingPowers(q: nat)
    ensures Doubled(q, 8) == 256 * q && Doubled(q, 64) == TWO_64 * q
  {
    Doubled8(q);
    DoubledTwice(q, 32, 32);
    Doubled32(q);
    Doubled32(0x1_0000_0000 * q);
  }

  lemma Doubled32(q: nat)
    ensures Doubled(q, 32) == 0x1_0000_0000 * q
  {
    DoubledTwice(q, 16, 16);
    Doubled16(q);
    Doubled16(0x1_0000 * q);
  }

  lemma Doubled16(q: nat)
    ensures Doubled(q, 16) == 0x1_0000 * q
  {
    DoubledTwice(q, 8, 8);
    Doubled8(q);
    Doubled8(256 * q);
  }

  lemma Doubled8(q: nat)
    ensures Doubled(q, 8) == 256 * q
  {
    DoubledTwice(q, 4, 4);
    Doubled4(q);
    Doubled4(16 * q);
  }

  lemma Doubled4(q: nat)
    ensures Doubled(q, 4) == 16 * q
  {
    assert Doubled(q, 1) == 2 * q;
    assert Doubled(q, 2) == 4 * q;
    assert Doubled(q, 3) == 8 * q;
  }

  /** What was doubled j times does not show in the low j bits. */
  lemma {:induction false} BitsIgnore(r: nat, q: nat, j: nat, n: nat)
    requires n <= j
    ensures Bits(r + Doubled(q, j), n) == Bits(r, n)
  {
    if n > 0 {
      BitsIgnore(r / 2, q, j - 1, n - 1);
    }
  }

  function SymbolBits(s: string): (b: bits)
    requires AllSymbols(s)
    ensures |b| == 5 * |s|
  {
    if s == [] then [] else Bits(SymbolValue(s[0]), 5) + SymbolBits(s[1..])
  }

  function ByteBits(s: bytes): (b: bits)
    ensures |b| == 8 * |s|
  {
    if s == [] then [] else Bits(s[0], 8) + ByteBits(s[1..])
  }

  lemma {:induction false} SymbolBitsSnoc(s: string, c: char)
    requires AllSymbols(s) && IsSymbol(c)
    ensures SymbolBits(s + [c]) == SymbolBits(s) + Bits(SymbolValue(c), 5)
  {
    if s == [] {
      assert [c][1..] == [];
    } else {
      SymbolBitsSnoc(s[1..], c);
      assert (s + [c])[1..] == s[1..] + [c];
    }
  }

  lemma {:induction false} ByteBitsSnoc(s: bytes, b: byte)
    ensures ByteBits(s + [b]) == ByteBits(s) + Bits(b, 8)
  {
    if s == [] {
      assert [b][1..] == [];
    } else {
      ByteBitsSnoc(s[1..], b);
      assert (s + [b])[1..] == s[1..] + [b];
    }
  }

  /** The whole bytes at the front of a bit string. */
  function Pack(b: bits): bytes {
    if |b| < 8 then [] else
      NumBound(b[..8]);
      [Num(b[..8])] + Pack(b[8..])
  }

  lemma {:induction false} PackBytes(s: bytes, rest: bits)
    requires |rest| < 8
    ensures Pack(ByteBits(s) + rest) == s
  {
    if s != [] {
      var b := ByteBits(s) + rest;
      PackBytes(s[1..], rest);
      assert b[..8] == Bits(s[0], 8) && b[8..] == ByteBits(s[1..]) + rest;
      NumOfBits(s[0], 8);
    } else {
      assert ByteBits(s) + rest == rest;
    }
  }

  // ---------------------------------------------------------------------------
  // The decoder
  // ---------------------------------------------------------------------------

  /**
   The decoded secret: the whole bytes at the front of the bit string that the
   symbols spell; nothing at all if some character is not a symbol.
   */
  function Decoded(text: string): bytes {
    var s := Cleaned(text);
    if AllSymbols(s) then Pack(SymbolBits(s)) else []
  }

  /** The symbols spell the bytes emitted so far and the k low bits of the buffer. */
  ghost predicate Spelled(s: string, done: bytes, buffer: nat, k: nat) {
    AllSymbols(s) && SymbolBits(s) == ByteBits(done) + Bits(buffer, k)
  }

  method DecodeBase32(base32: string) returns (result: bytes)
    ensures result == Decoded(base32)
  {
    hide SymbolBits, ByteBits, Bits;
    var cleaned := Cleaned(base32);
    result := [];
    var buffer: nat, bitsInBuffer: nat := 0, 0;
    for i := 0 to |cleaned|
      invariant bitsInBuffer < 8 && Spelled(cleaned[..i], result, buffer, bitsInBuffer)
    {
      var ch := cleaned[i];
      if !IsSymbol(ch) {
        return [];
      }
      var value := SymbolValue(ch);
      assert cleaned[..i + 1] == cleaned[..i] + [ch];
      OneSymbol(cleaned[..i], ch, result, buffer, bitsInBuffer);
      buffer := (buffer * 32 + value) % TWO_64;
      bitsInBuffer := bitsInBuffer + 5;
      if bitsInBuffer >= 8 {
        bitsInBuffer := bitsInBuffer - 8;
        OneByte(cleaned[..i + 1], result, buffer, bitsInBuffer);
        result := result + [ShiftRight(buffer, bitsInBuffer) % 256];
      }
    }
    assert cleaned[..|cleaned|] == cleaned;
    PackBytes(result, Bits(buffer, bitsInBuffer));
  }

  /** A bit shifted in at the low end. */
  lemma BitAppends(high: nat, b: bit, k: nat)
    ensures Bits(high * 2 + b, k + 1) == Bits(high, k) + [b]
  {
  }

  /** Five bits shifted in one after the other are the bits of the symbol. */
  lemma SymbolAppends(high: nat, value: nat, k: nat)
    requires value < 32
    ensures Bits(high * 32 + value, k + 5) == Bits(high, k) + Bits(value, 5)
  {
    hide Bits;
    var a, b, c, d, e := FiveBits(value);
    FiveAppend(high, a, b, c, d, e, k);
    FiveAppend(0, a, b, c, d, e, 0);
    assert ((((high * 2 + a) * 2 + b) * 2 + c) * 2 + d) * 2 + e == high * 32 + value;
    NoBits();
  }

  lemma FiveBits(value: nat) returns (a: bit, b: bit, c: bit, d: bit, e: bit)
    requires value < 32
    ensures value == 16 * a + 8 * b + 4 * c + 2 * d + e
  {
    var h1 := value / 2;
    var h2 := h1 / 2;
    var h3 := h2 / 2;
    a, b, c, d, e := h3 / 2, h3 % 2, h2 % 2, h1 % 2, value % 2;
  }

  lemma NoBits()
    ensures Bits(0, 0) == []
  {
  }

  lemma FiveAppend(high: nat, a: bit, b: bit, c: bit, d: bit, e: bit, k: nat)
    ensures Bits(((((high * 2 + a) * 2 + b) * 2 + c) * 2 + d) * 2 + e, k + 5) == Bits(high, k) + [a, b, c, d, e]
  {
    hide Bits;
    BitAppends(high, a, k);
    BitAppends(high * 2 + a, b, k + 1);
    BitAppends((high * 2 + a) * 2 + b, c, k + 2);
    BitAppends(((high * 2 + a) * 2 + b) * 2 + c, d, k + 3);
    BitAppends((((high * 2 + a) * 2 + b) * 2 + c) * 2 + d, e, k + 4);
  }

  /** What the 64-bit buffer loses when a symbol is shifted in was used before. */
  lemma BufferStep(buffer: nat, value: nat, k: nat)
    requires value < 32 && k < 8
    ensures Bits((buffer * 32 + value) % TWO_64, k + 5) == Bits(buffer, k) + Bits(value, 5)
  {
    hide Bits, Doubled;
    var x := buffer * 32 + value;
    SymbolAppends(buffer, value, k);
    DoublingPowers(x / TWO_64);
    BitsIgnore(x % TWO_64, x / TWO_64, 64, k + 5);
  }

  lemma OneSymbol(s: string, c: char, done: bytes, buffer: nat, k: nat)
    requires IsSymbol(c) && k < 8 && Spelled(s, done, buffer, k)
    ensures Spelled(s + [c], done, (buffer * 32 + SymbolValue(c)) % TWO_64, k + 5)
  {
    SymbolBitsSnoc(s, c);
    BufferStep(buffer, SymbolValue(c), k);
    Associate(ByteBits(done), Bits(buffer, k), Bits(SymbolValue(c), 5));
  }

  lemma Associate(a: bits, b: bits, c: bits)
    ensures (a + b) + c == a + (b + c)
  {
  }

  /** Taking the eight bits above the first k out of the buffer. */
  lemma OneByte(s: string, done: bytes, buffer: nat, k: nat)
    requires Spelled(s, done, buffer, k + 8)
    ensures Spelled(s, done + [ShiftRight(buffer, k) % 256], buffer, k)
  {
    hide Bits, Doubled, ShiftRight;
    var y := ShiftRight(buffer, k);
    BitsShift(buffer, 8, k);
    DoublingPowers(y / 256);
    BitsIgnore(y % 256, y / 256, 8, 8);
    ByteBitsSnoc(done, y % 256);
    Associate(ByteBits(done), Bits(y % 256, 8), Bits(buffer, k));
  }

  // ---------------------------------------------------------------------------
  // The encoding of RFC 4648 section 6, and the round trip
  // ---------------------------------------------------------------------------

  function Fill(n: nat): bits {
    seq(n, _ => 0)
  }

  /** Five bits to a symbol; a short last group is filled with zero bits. */
  function Symbols(b: bits): (s: string)
    ensures AllSymbols(s)
  {
    if b == [] then []
    else if |b| < 5 then
      NumBound(b + Fill(5 - |b|));
      assert Two(5) == 32;
      [Symbol(Num(b + Fill(5 - |b|)))]
    else
      NumBound(b[..5]);
      assert Two(5) == 32;
      [Symbol(Num(b[..5]))] + Symbols(b[5..])
  }

  function Padding(n: nat): string {
    seq(n, _ => '=')
  }

  /** The symbols of all the bits, padded to a multiple of eight characters. */
  function Encode(data: bytes): string {
    var s := Symbols(ByteBits(data));
    s + Padding((8 - |s| % 8) % 8)
  }

  lemma GroupSpells(b: bits)
    requires |b| >= 5
    ensures SymbolBits(Symbols(b)) == b[..5] + SymbolBits(Symbols(b[5..]))
  {
    hide Num, Bits;
    NumBound(b[..5]);
    assert Two(5) == 32;
    BitsOfNum(b[..5]);
    assert Symbols(b)[1..] == Symbols(b[5..]);
  }

  lemma LastGroupSpells(b: bits)
    requires 0 < |b| < 5
    ensures SymbolBits(Symbols(b)) == b + Fill(5 - |b|)
  {
    hide Num, Bits;
    var c := b + Fill(5 - |b|);
    NumBound(c);
    assert Two(5) == 32;
    BitsOfNum(c);
    assert Symbols(b)[1..] == [];
  }

  /** The symbols spell all the bits, and up to four zeros more. */
  lemma {:induction false} SymbolsSpell(b: bits)
    ensures exists n :: 0 <= n < 5 && SymbolBits(Symbols(b)) == b + Fill(n)
  {
    hide SymbolBits, Symbols;
    if b == [] {
      NothingSpells();
      assert SymbolBits(Symbols(b)) == b + Fill(0);
    } else if |b| < 5 {
      LastGroupSpells(b);
    } else {
      SymbolsSpell(b[5..]);
      GroupSpells(b);
      var n :| 0 <= n < 5 && SymbolBits(Symbols(b[5..])) == b[5..] + Fill(n);
      assert SymbolBits(Symbols(b)) == b[..5] + (b[5..] + Fill(n)) == b + Fill(n);
    }
  }

  lemma NothingSpells()
    ensures SymbolBits(Symbols([])) == []
  {
  }

  predicate SameLetter(c: char, d: char) {
    c == d || ('a' <= c <= 'z' && 'A' <= d <= 'Z' && c as int - 'a' as int == d as int - 'A' as int)
  }

  /** The text is the symbols, perhaps in lower case, with padding characters wherever. */
  predicate Writes(text: string, s: string) {
    if text == [] then s == []
    else if text[0] == '=' then Writes(text[1..], s)
    else s != [] && SameLetter(text[0], s[0]) && Writes(text[1..], s[1..])
  }

  lemma {:induction false} WritesIsCleaned(text: string, s: string)
    requires Writes(text, s) && AllSymbols(s)
    ensures Cleaned(text) == s
  {
    if text != [] {
      if text[0] == '=' {
        WritesIsCleaned(text[1..], s);
      } else {
        WritesIsCleaned(text[1..], s[1..]);
        assert s == [s[0]] + s[1..];
      }
    }
  }

  lemma {:induction false} PaddedWrites(s: string, n: nat)
    requires AllSymbols(s)
    ensures Writes(s + Padding(n), s)
  {
    if s != [] {
      PaddedWrites(s[1..], n);
      assert (s + Padding(n))[1..] == s[1..] + Padding(n);
    } else if n > 0 {
      PaddedWrites(s, n - 1);
      assert (s + Padding(n))[1..] == s + Padding(n - 1);
    }
  }

  /** Decoding undoes the encoding, in either case of the letters and however padded, as RFC 4648 pads it or not. */
  lemma DecodeInvertsEncode(data: bytes, text: string)
    requires text == Encode(data) || Writes(text, Symbols(ByteBits(data)))
    ensures Decoded(text) == data
  {
    hide Symbols, SymbolBits, ByteBits, Pack, Cleaned, Writes;
    var s := Symbols(ByteBits(data));
    PaddedWrites(s, (8 - |s| % 8) % 8);
    WritesIsCleaned(text, s);
    SymbolsSpell(ByteBits(data));
    var n :| 0 <= n < 5 && SymbolBits(s) == ByteBits(data) + Fill(n);
    PackBytes(data, Fill(n));
  }

  /** The decoder reads n symbols as exactly floor(5n / 8) bytes, the leading ones of their bits. */
  lemma DecodedIsLeadingBits(text: string)
    requires AllSymbols(Cleaned(text))
    ensures var b := SymbolBits(Cleaned(text));
            |Decoded(text)| == 5 * |Cleaned(text)| / 8 && ByteBits(Decoded(text)) == b[..8 * |Decoded(text)|]
  {
    PackSpells(SymbolBits(Cleaned(text)));
  }

  lemma {:induction false} PackSpells(b: bits)
    ensures |Pack(b)| == |b| / 8 && ByteBits(Pack(b)) == b[..8 * |Pack(b)|]
  {
    if |b| >= 8 {
      PackSpells(b[8..]);
      BitsOfNum(b[..8]);
      var n := 8 * |Pack(b[8..])|;
      assert Pack(b)[1..] == Pack(b[8..]);
      assert b[..8 + n] == b[..8] + b[8..][..n];
    }
  }

  /** A single character that is no letter, no digit from 2 to 7 and no padding spoils the whole text. */
  lemma OtherCharacterSpoils(text: string, i: nat)
    requires i < |text|
    requires var c := text[i]; !('A' <= c <= 'Z' || 'a' <= c <= 'z' || '2' <= c <= '7' || c == '=')
    ensures Decoded(text) == []
  {
    OtherIsKept(text, i);
  }

  lemma {:induction false} OtherIsKept(text: string, i: nat)
    requires i < |text| && text[i] != '=' && !IsSymbol(Upper(text[i]))
    ensures !AllSymbols(Cleaned(text))
  {
    if i == 0 {
      assert Cleaned(text)[0] == Upper(text[0]);
    } else {
      OtherIsKept(text[1..], i - 1);
      var rest := Cleaned(text[1..]);
      var k :| 0 <= k < |rest| && !IsSymbol(rest[k]);
      assert text[0] != '=' ==> Cleaned(text)[k + 1] == rest[k];
    }
  }
}
