/**
 The PUT command that stores a credential. Its length bytes are one byte wide;
 the command can be read back exactly as long as the payload stays below 256.
 */
module Put {
  import opened Arithmetic
  import opened Bytes
  import Base32
  import Tlv

  datatype OathType = HOTP | TOTP {
    function Code(): nat { if HOTP? then 1 else 2 }
  }

  datatype OathAlgorithm = SHA1 | SHA256 | SHA512 {
    function Code(): nat { if SHA1? then 1 else if SHA256? then 2 else 3 }
  }

  type uint32 = x: int | 0 <= x < 0x1_0000_0000

  datatype CredentialData = CredentialData(
    name: bytes, secret: string, kind: OathType, algorithm: OathAlgorithm,
    digits: int, counter: uint32, requireTouch: bool)

  const TAG_NAME: byte := 0x71
  const TAG_KEY: byte := 0x73
  const TAG_PROPERTY: byte := 0x78
  const TAG_IMF: byte := 0x7a
  const HEADER: bytes := [0x00, 0x01, 0x00, 0x00]

  /** The low byte of an int. */
  function Low(x: int): byte {
    x % 256
  }

  // ---------------------------------------------------------------------------
  // What is stored
  // ---------------------------------------------------------------------------

  /** What a card that follows the PUT grammar reads. */
  datatype Stored = Stored(name: bytes, kind: OathType, algorithm: OathAlgorithm, digits: byte,
                           key: bytes, touch: bool, counter: Option<nat>)

  function NameField(data: CredentialData): bytes {
    if |data.name| > 64 then data.name[..64] else data.name
  }

  function KeyField(key: bytes): bytes {
    if |key| < 14 then key + seq(14 - |key|, _ => 0) else key
  }

  /** What the daemon means to store. */
  function Intended(data: CredentialData): Stored {
    Stored(if |data.name| > 64 then data.name[..64] else data.name, data.kind, data.algorithm, data.digits % 256,
           KeyField(Base32.Decoded(data.secret)), data.requireTouch,
           if data.kind == HOTP then Some(data.counter) else None)
  }

  /** The length of the payload, before it is squeezed into one byte. */
  function PayloadLength(data: CredentialData): nat {
    (2 + |NameField(data)|) + (4 + |KeyField(Base32.Decoded(data.secret))|) +
    (if data.requireTouch then 2 else 0) + (if data.kind == HOTP then 6 else 0)
  }

  // ---------------------------------------------------------------------------
  // The grammar, read from the card's side: PROPERTY is a tag and a value, the
  // other fields are tag, length and value. The numbers are those of the card.
  // ---------------------------------------------------------------------------

  function KindOf(code: nat): Option<OathType> {
    match code
    case 1 => Some(HOTP)
    case 2 => Some(TOTP)
    case _ => None
  }

  function AlgorithmOf(code: nat): Option<OathAlgorithm> {
    match code
    case 1 => Some(SHA1)
    case 2 => Some(SHA256)
    case 3 => Some(SHA512)
    case _ => None
  }

  function DecodeCounter(d: bytes, pos: nat): Option<Option<nat>> {
    if pos == |d| then Some(None)
    else if Tlv.Fits(d, pos) && d[pos] == 0x7a && d[pos + 1] == 4 && pos + 6 == |d| then
      Some(Some(BigEndian(d[pos + 2..pos + 6])))
    else None
  }

  function DecodePayload(d: bytes): Option<Stored> {
    if !Tlv.Fits(d, 0) || d[0] != 0x71 then None
    else
      var k := Tlv.Next(d, 0);
      if !Tlv.Fits(d, k) || d[k] != 0x73 || d[k + 1] < 2 then None
      else
        var key := Tlv.EntryAt(d, k).value;
        var p := Tlv.Next(d, k);
        var touch := p + 2 <= |d| && d[p] == 0x78;
        match (KindOf(key[0] / 16), AlgorithmOf(key[0] % 16), DecodeCounter(d, if touch then p + 2 else p))
        case (Some(kind), Some(algorithm), Some(counter)) =>
          Some(Stored(Tlv.EntryAt(d, 0).value, kind, algorithm, key[1], key[2..],
                      touch && d[p + 1] / 2 % 2 == 1, counter))
        case _ => None
  }

  function DecodePut(apdu: bytes): Option<Stored> {
    if |apdu| >= 5 && apdu[..4] == [0x00, 0x01, 0x00, 0x00] && |apdu| - 5 == apdu[4] then DecodePayload(apdu[5..])
    else None
  }

  // ---------------------------------------------------------------------------
  // The command
  // ---------------------------------------------------------------------------

  function KeyEntry(data: CredentialData, key: bytes): bytes {
    [Low(data.kind.Code() * 16 + data.algorithm.Code()), Low(data.digits)] + key
  }

  function Field(tag: byte, value: bytes): bytes {
    [tag, Low(|value|)] + value
  }

  function Property(data: CredentialData): bytes {
    if data.requireTouch then [TAG_PROPERTY, 0x02] else []
  }

  function CounterBytes(c: uint32): bytes {
    [Low(c / 0x100_0000), Low(c / 0x1_0000), Low(c / 0x100), Low(c)]
  }

  function Imf(data: CredentialData): bytes {
    if data.kind == HOTP then [TAG_IMF, 0x04] + CounterBytes(data.counter) else []
  }

  function PutPayload(data: CredentialData): bytes {
    var key := KeyEntry(data, KeyField(Base32.Decoded(data.secret)));
    Field(TAG_NAME, NameField(data)) + Field(TAG_KEY, key) + Property(data) + Imf(data)
  }

  function PutCommand(data: CredentialData): bytes {
    if Base32.Decoded(data.secret) == [] then []
    else HEADER + [Low(|PutPayload(data)|)] + PutPayload(data)
  }

  method CreatePutCommand(data: CredentialData) returns (command: bytes)
    ensures command == PutCommand(data)
  {
    command := HEADER;
    var nameBytes := data.name;
    if |nameBytes| > 64 {
      nameBytes := nameBytes[..64];
    }
    var tlvData := [TAG_NAME, Low(|nameBytes|)] + nameBytes;
    var keyBytes := Base32.DecodeBase32(data.secret);
    if keyBytes == [] {
      return [];
    }
    keyBytes := PadKey(keyBytes);
    var algoByte := Low(data.kind.Code() * 16 + data.algorithm.Code());
    var keyTagData := [algoByte, Low(data.digits)] + keyBytes;
    tlvData := tlvData + ([TAG_KEY, Low(|keyTagData|)] + keyTagData);
    var properties: bytes := [];
    if data.requireTouch {
      properties := [TAG_PROPERTY, 0x02];
    }
    tlvData := tlvData + properties;
    var imf: bytes := [];
    if data.kind == HOTP {
      imf := [TAG_IMF, 0x04] + CounterBytes(data.counter);
    }
    tlvData := tlvData + imf;
    command := command + [Low(|tlvData|)] + tlvData;
  }

  /** The loop that appends zero bytes to a short key. */
  method PadKey(decoded: bytes) returns (keyBytes: bytes)
    ensures keyBytes == KeyField(decoded)
  {
    keyBytes := decoded;
    ghost var n := 0;
    while |keyBytes| < 14
      invariant keyBytes == decoded + seq(n, _ => 0) && (n == 0 || |keyBytes| <= 14)
    {
      keyBytes := keyBytes + [0x00];
      n := n + 1;
    }
  }

  // ---------------------------------------------------------------------------
  // Reading it back
  // ---------------------------------------------------------------------------

  /**
   There is a command exactly if the secret decodes to something; it is
   readable, and reads as intended, exactly if its payload fits its length byte.
   */
  lemma PutReadsBack(data: CredentialData)
    ensures PutCommand(data) == [] <==> Base32.Decoded(data.secret) == []
    ensures Base32.Decoded(data.secret) != [] ==>
              && |PutCommand(data)| == 5 + PayloadLength(data)
              && PutCommand(data)[4] == PayloadLength(data) % 256
              && (DecodePut(PutCommand(data)) == Some(Intended(data)) <==> PayloadLength(data) <= 255)
  {
    var payload := PutPayload(data);
    assert |payload| == PayloadLength(data);
    HeaderReadsBack(payload);
    if PayloadLength(data) <= 255 {
      PayloadReadsBack(data);
    }
  }

  lemma HeaderReadsBack(payload: bytes)
    ensures var command := HEADER + [Low(|payload|)] + payload;
            && |command| == 5 + |payload| && command[4] == |payload| % 256
            && DecodePut(command) == if |payload| <= 255 then DecodePayload(payload) else None
  {
  }

  lemma PayloadReadsBack(data: CredentialData)
    requires PayloadLength(data) <= 255
    ensures DecodePayload(PutPayload(data)) == Some(Intended(data))
  {
    hide DecodeCounter, Field, Property, Imf, NameField, KeyField, Low;
    var name, value := NameField(data), KeyEntry(data, KeyField(Base32.Decoded(data.secret)));
    var tail := Property(data) + Imf(data);
    TwoEntries(name, value, tail);
    var front := Field(TAG_NAME, name) + Field(TAG_KEY, value);
    assert front + Property(data) + Imf(data) == front + tail;
    PropertiesReadBack(data, front);
    CodesReadBack(data);
    assert KindOf(value[0] / 16) == Some(data.kind) && AlgorithmOf(value[0] % 16) == Some(data.algorithm);
    IntendedIs(data);
    assert value[2..] == KeyField(Base32.Decoded(data.secret));
  }

  lemma IntendedIs(data: CredentialData)
    ensures Intended(data).name == NameField(data) && Intended(data).digits == Low(data.digits)
  {
  }

  lemma TwoEntries(name: bytes, value: bytes, tail: bytes)
    requires |name| <= 255 && |value| <= 255
    ensures var d := (Field(TAG_NAME, name) + Field(TAG_KEY, value)) + tail;
            && Tlv.Fits(d, 0) && Tlv.EntryAt(d, 0) == Tlv.Entry(TAG_NAME, name)
            && var k := Tlv.Next(d, 0);
               Tlv.Fits(d, k) && Tlv.EntryAt(d, k) == Tlv.Entry(TAG_KEY, value)
               && Tlv.Next(d, k) == |Field(TAG_NAME, name) + Field(TAG_KEY, value)|
  {
  }

  /** What follows the key: the optional property, then the optional counter. */
  lemma PropertiesReadBack(data: CredentialData, front: bytes)
    ensures var d, p := front + (Property(data) + Imf(data)), |front|;
            && data.requireTouch == (p + 2 <= |d| && d[p] == 0x78)
            && (data.requireTouch ==> d[p + 1] == 2)
            && DecodeCounter(d, if data.requireTouch then p + 2 else p) == Some(Intended(data).counter)
  {
    hide CounterBytes, DecodeCounter, Intended;
    var tail := Property(data) + Imf(data);
    var d, p := front + tail, |front|;
    assert d[p..] == tail;
    assert tail != [] ==> d[p] == tail[0];
    assert data.requireTouch ==> d[p + 1] == tail[1];
    var pos := p + |Property(data)|;
    assert d[pos..] == Imf(data);
    CounterReadsBack(data, d, pos);
  }

  lemma CodesReadBack(data: CredentialData)
    ensures var b := Low(data.kind.Code() * 16 + data.algorithm.Code());
            KindOf(b / 16) == Some(data.kind) && AlgorithmOf(b % 16) == Some(data.algorithm)
  {
    hide Low;
    Nibbles(data.kind.Code(), data.algorithm.Code());
  }

  lemma Nibbles(high: nat, low: nat)
    requires high < 16 && low < 16
    ensures Low(high * 16 + low) / 16 == high && Low(high * 16 + low) % 16 == low
  {
  }

  lemma CounterReadsBack(data: CredentialData, d: bytes, pos: nat)
    requires pos <= |d| && d[pos..] == Imf(data)
    ensures DecodeCounter(d, pos) == Some(Intended(data).counter)
  {
    if data.kind == HOTP {
      var imf := [TAG_IMF, 0x04] + CounterBytes(data.counter);
      assert forall k {:trigger imf[k]} :: 0 <= k < 6 ==> d[pos + k] == d[pos..][k] == imf[k];
      assert d[pos + 0] == TAG_IMF && d[pos + 1] == imf[1] == 4;
      assert d[pos + 2..pos + 6] == imf[2..6] == CounterBytes(data.counter);
      CounterDenotes(data.counter);
    }
  }

  lemma CounterDenotes(c: uint32)
    ensures BigEndian(CounterBytes(c)) == c
  {
    hide Word32, Low;
    BigEndianFour(CounterBytes(c));
    Quarters(c);
  }

  lemma Quarters(c: uint32)
    ensures Word32(Low(c / 0x100_0000), Low(c / 0x1_0000), Low(c / 0x100), Low(c)) == c
  {
    var q1 := c / 0x100;
    var q2 := q1 / 0x100;
    assert c / 0x1_0000 == q2;
    assert c / 0x100_0000 == q2 / 0x100;
    assert c == q1 * 0x100 + Low(c);
    assert q1 == q2 * 0x100 + Low(q1);
    assert q2 == Low(q2 / 0x100) * 0x100 + Low(q2);
  }

  /** Type and algorithm travel as these numbers, in the byte after the key's tag and length. */
  lemma CodesOnTheWire(data: CredentialData)
    requires Base32.Decoded(data.secret) != []
    ensures var at := 5 + 2 + (if |data.name| > 64 then 64 else |data.name|);
            var command := PutCommand(data);
            && |command| > at + 2 && command[at] == 0x73
            && (command[at + 2] / 16 == 1 <==> data.kind == HOTP) && (command[at + 2] / 16 == 2 <==> data.kind == TOTP)
            && (command[at + 2] % 16 == 1 <==> data.algorithm == SHA1)
            && (command[at + 2] % 16 == 2 <==> data.algorithm == SHA256)
            && (command[at + 2] % 16 == 3 <==> data.algorithm == SHA512)
  {
    hide Low, KeyField, Property, Imf, Base32.Decoded;
    var name, value := NameField(data), KeyEntry(data, KeyField(Base32.Decoded(data.secret)));
    var tail := Property(data) + Imf(data);
    var front := HEADER + [Low(|PutPayload(data)|)] + Field(TAG_NAME, name);
    assert PutCommand(data) == front + ([TAG_KEY, Low(|value|), value[0]] + (value[1..] + tail)) by {
      assert value == [value[0]] + value[1..];
    }
    CodesReadBack(data);
  }

  /** Up to 177 key bytes every credential fits; with one more, some do not. */
  lemma KeyLimit(data: CredentialData)
    requires 1 <= |Base32.Decoded(data.secret)|
    ensures |Base32.Decoded(data.secret)| <= 177 ==> PayloadLength(data) <= 255
    ensures |Base32.Decoded(data.secret)| > 177 && |data.name| >= 64 && data.requireTouch && data.kind == HOTP ==>
              PayloadLength(data) > 255
  {
  }

  /** From the secret as the user types it to the key on the card, filled with zeros to 14 bytes. */
  lemma SecretReachesCard(data: CredentialData, key: bytes)
    requires data.secret == Base32.Encode(key) || Base32.Writes(data.secret, Base32.Symbols(Base32.ByteBits(key)))
    requires 1 <= |key| <= 177
    ensures DecodePut(PutCommand(data)).Some?
    ensures var stored := DecodePut(PutCommand(data)).value.key;
            && |stored| == (if |key| < 14 then 14 else |key|) && stored[..|key|] == key
            && forall k :: |key| <= k < |stored| ==> stored[k] == 0
  {
    hide Base32.Encode, Base32.Writes, Base32.Symbols, Base32.ByteBits, Base32.Decoded, PutCommand, DecodePut;
    Base32.DecodeInvertsEncode(key, data.secret);
    PutReadsBack(data);
  }
}
