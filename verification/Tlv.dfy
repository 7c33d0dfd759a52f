/**
 Tag-length-value data. Every cursor loop of the daemon that walks such data
 sees one thing: the entries given by Entries, the maximal prefix of complete
 tag/length/value triples. The module pins that function down in both
 directions and refines three of the loops to it; the parsers of the other
 modules refine theirs to it as well.
 */
module Tlv {
  import opened Bytes

  datatype Entry = Entry(tag: byte, value: bytes)

  /** A complete entry lies at the cursor. */
  predicate Fits(data: bytes, pos: nat) {
    pos + 2 <= |data| && pos + 2 + data[pos + 1] <= |data|
  }

  function EntryAt(data: bytes, pos: nat): Entry
    requires Fits(data, pos)
  {
    Entry(data[pos], data[pos + 2..pos + 2 + data[pos + 1]])
  }

  function Next(data: bytes, pos: nat): (next: nat)
    requires Fits(data, pos)
    ensures pos < next <= |data|
  {
    pos + 2 + data[pos + 1]
  }

  /** The complete entries from the cursor on. */
  function EntriesFrom(data: bytes, pos: nat): seq<Entry>
    decreases |data| - pos
  {
    if Fits(data, pos) then [EntryAt(data, pos)] + EntriesFrom(data, Next(data, pos)) else []
  }

  /** The complete entries at the front of the data. */
  function Entries(data: bytes): seq<Entry> {
    EntriesFrom(data, 0)
  }

  /** Where the walk stops. */
  function StopsAt(data: bytes, pos: nat): nat
    decreases |data| - pos
  {
    if Fits(data, pos) then StopsAt(data, Next(data, pos)) else pos
  }

  predicate Encodable(es: seq<Entry>) {
    forall i :: 0 <= i < |es| ==> |es[i].value| < 256
  }

  function EncodeEntry(e: Entry): bytes
    requires |e.value| < 256
  {
    [e.tag, |e.value|] + e.value
  }

  function Encode(es: seq<Entry>): bytes
    requires Encodable(es)
  {
    if es == [] then [] else EncodeEntry(es[0]) + Encode(es[1..])
  }

  /** Nothing is lost or invented, and the walk stops only where no entry fits. */
  lemma {:induction false} EntriesAreMaximalPrefix(data: bytes, pos: nat)
    requires pos <= |data|
    ensures var stop := StopsAt(data, pos);
            && pos <= stop <= |data| && !Fits(data, stop)
            && Encodable(EntriesFrom(data, pos))
            && Encode(EntriesFrom(data, pos)) == data[pos..stop]
    decreases |data| - pos
  {
    if Fits(data, pos) {
      var next, es := Next(data, pos), EntriesFrom(data, pos);
      EntriesAreMaximalPrefix(data, next);
      assert es[1..] == EntriesFrom(data, next);
      assert EncodeEntry(es[0]) == data[pos..next];
    }
  }

  lemma Associate(a: bytes, b: bytes, c: bytes)
    ensures (a + b) + c == a + (b + c)
  {
  }

  lemma EntryLies(front: bytes, e: Entry, rest: bytes)
    requires |e.value| < 256
    ensures var data := (front + EncodeEntry(e)) + rest;
            && Fits(data, |front|) && EntryAt(data, |front|) == e
            && Next(data, |front|) == |front + EncodeEntry(e)|
  {
  }

  /** The walk undoes the encoding, whatever incomplete tail follows. */
  lemma {:induction false} EntriesOfEncoding(front: bytes, es: seq<Entry>, tail: bytes)
    requires Encodable(es) && !Fits(tail, 0)
    ensures var data := front + (Encode(es) + tail);
            && EntriesFrom(data, |front|) == es
            && StopsAt(data, |front|) == |data| - |tail|
    decreases |es|
  {
    var data := front + (Encode(es) + tail);
    if es == [] {
      assert forall k :: 0 <= k < |tail| ==> data[|front| + k] == tail[k];
    } else {
      var e := EncodeEntry(es[0]);
      EntriesOfEncoding(front + e, es[1..], tail);
      EntryLies(front, es[0], Encode(es[1..]) + tail);
      Associate(e, Encode(es[1..]), tail);
      Associate(front, e, Encode(es[1..]) + tail);
      assert [es[0]] + es[1..] == es;
    }
  }

  lemma EntriesEncode(es: seq<Entry>, tail: bytes)
    requires Encodable(es) && !Fits(tail, 0)
    ensures Entries(Encode(es) + tail) == es
  {
    EntriesOfEncoding([], es, tail);
    assert [] + (Encode(es) + tail) == Encode(es) + tail;
  }

  /** The entries before a cursor and those after it make up all of them. */
  ghost predicate ReadSoFar(data: bytes, pos: nat, done: seq<Entry>) {
    Entries(data) == done + EntriesFrom(data, pos)
  }

  /** Before the walk nothing is read, and no field has a value. */
  lemma NothingRead(data: bytes)
    ensures ReadSoFar(data, 0, []) && BigEndian([]) == 0
    ensures forall tag, size :: LastValue([], tag, size) == None
  {
    assert [] + EntriesFrom(data, 0) == EntriesFrom(data, 0);
  }

  lemma AllRead(data: bytes, pos: nat, done: seq<Entry>)
    requires pos <= |data| && !Fits(data, pos) && ReadSoFar(data, pos, done)
    ensures Entries(data) == done
  {
    assert done + [] == done;
  }

  lemma ReadOne(data: bytes, pos: nat, done: seq<Entry>)
    requires Fits(data, pos) && ReadSoFar(data, pos, done)
    ensures ReadSoFar(data, Next(data, pos), done + [EntryAt(data, pos)])
  {
  }

  // ---------------------------------------------------------------------------
  // First match
  // ---------------------------------------------------------------------------

  /** The value of the first entry with the tag. */
  function FirstValue(es: seq<Entry>, tag: byte): Option<bytes> {
    if es == [] then None
    else if es[0].tag == tag then Some(es[0].value)
    else FirstValue(es[1..], tag)
  }

  lemma {:induction false} FirstIndex(es: seq<Entry>, tag: byte) returns (n: nat)
    ensures n <= |es| && forall j :: 0 <= j < n ==> es[j].tag != tag
    ensures FirstValue(es, tag) == if n == |es| then None else Some(es[n].value)
    ensures n < |es| ==> es[n].tag == tag
  {
    if es == [] || es[0].tag == tag {
      n := 0;
    } else {
      n := FirstIndex(es[1..], tag);
      assert forall j :: 0 < j < |es| ==> es[j] == es[1..][j - 1];
      n := n + 1;
    }
  }

  lemma FirstValueIsFirst(es: seq<Entry>, tag: byte, v: bytes)
    ensures FirstValue(es, tag) == Some(v) <==>
            exists i :: 0 <= i < |es| && es[i] == Entry(tag, v) && forall j :: 0 <= j < i ==> es[j].tag != tag
    ensures FirstValue(es, tag) == None <==> forall e <- es :: e.tag != tag
  {
    hide FirstValue;
    var n := FirstIndex(es, tag);
    if n < |es| {
      assert es[n] == Entry(tag, es[n].value) && es[n] in es;
    }
  }

  method FindTlvTag(data: bytes, tag: byte) returns (r: bytes)
    ensures r == FirstValue(Entries(data), tag).GetOr([])
  {
    var pos := 0;
    while pos < |data| - 1
      invariant 0 <= pos <= |data|
      invariant FirstValue(Entries(data), tag) == FirstValue(EntriesFrom(data, pos), tag)
    {
      var len := data[pos + 1];
      if pos + 2 + len > |data| {
        break;
      }
      assert EntriesFrom(data, pos)[1..] == EntriesFrom(data, Next(data, pos));
      if data[pos] == tag {
        return data[pos + 2..pos + 2 + len];
      }
      pos := pos + 2 + len;
    }
    return [];
  }

  // ---------------------------------------------------------------------------
  // Last match: SELECT and the Management application
  // ---------------------------------------------------------------------------

  predicate Matches(e: Entry, tag: byte, size: Option<nat>) {
    e.tag == tag && (size.Some? ==> |e.value| == size.value)
  }

  /** The value of the last entry with the tag (and, if asked, that length). */
  function LastValue(es: seq<Entry>, tag: byte, size: Option<nat>): Option<bytes> {
    if es == [] then None
    else if Matches(es[|es| - 1], tag, size) then Some(es[|es| - 1].value)
    else LastValue(es[..|es| - 1], tag, size)
  }

  lemma LastValueSnoc(es: seq<Entry>, e: Entry, tag: byte, size: Option<nat>)
    ensures LastValue(es + [e], tag, size) ==
            if Matches(e, tag, size) then Some(e.value) else LastValue(es, tag, size)
  {
  }

  lemma {:induction false} LastValueIsLast(es: seq<Entry>, tag: byte, size: Option<nat>, v: bytes)
    ensures LastValue(es, tag, size) == Some(v) <==>
            exists i :: 0 <= i < |es| && Matches(es[i], tag, size) && es[i].value == v &&
                        forall j :: i < j < |es| ==> !Matches(es[j], tag, size)
  {
    if es != [] {
      var n := |es| - 1;
      LastValueIsLast(es[..n], tag, size, v);
      if Matches(es[n], tag, size) {
      } else if LastValue(es[..n], tag, size) == Some(v) {
        var i :| 0 <= i < n && Matches(es[..n][i], tag, size) && es[..n][i].value == v &&
                 forall j :: i < j < n ==> !Matches(es[..n][j], tag, size);
        forall j | i < j < |es| ensures !Matches(es[j], tag, size) {
          assert j < n ==> es[j] == es[..n][j];
        }
        assert Matches(es[i], tag, size);
      } else {
        forall i | 0 <= i < |es| && Matches(es[i], tag, size) && es[i].value == v
          ensures exists j :: i < j < |es| && Matches(es[j], tag, size)
        {
          assert Matches(es[..n][i], tag, size);
          var j :| i < j < n && Matches(es[..n][j], tag, size);
          assert Matches(es[j], tag, size);
        }
      }
    }
  }

  const TAG_NAME_SALT: byte := 0x71
  const TAG_CHALLENGE: byte := 0x74
  const TAG_VERSION: byte := 0x79
  const TAG_SERIAL_NUMBER: byte := 0x8F

  /** What a SELECT of the OATH application tells. */
  datatype SelectInfo = SelectInfo(deviceId: string, challenge: bytes, version: bytes,
                                   requiresPassword: bool, serial: nat)

  function HexDigit(n: nat): char
    requires n < 16
  {
    "0123456789abcdef"[n]
  }

  function Hex(s: bytes): (h: string)
    ensures |h| == 2 * |s|
  {
    if s == [] then [] else [HexDigit(s[0] / 16), HexDigit(s[0] % 16)] + Hex(s[1..])
  }

  /** The device id: the serial number padded to 16 digits, else the salt, else what it was. */
  function DeviceIdOf(es: seq<Entry>, before: string): string {
    match LastValue(es, TAG_SERIAL_NUMBER, Some(4))
    case Some(serial) => "00000000" + Hex(serial)
    case None =>
      match LastValue(es, TAG_NAME_SALT, None)
      case Some(salt) => if salt == [] then before else Hex(salt)
      case None => before
  }

  /** Every field is that of the last entry that carries it, or its value before the call. */
  function SelectSpec(es: seq<Entry>, before: SelectInfo): SelectInfo {
    SelectInfo(
      DeviceIdOf(es, before.deviceId),
      LastValue(es, TAG_CHALLENGE, None).GetOr(before.challenge),
      LastValue(es, TAG_VERSION, Some(3)).GetOr(before.version),
      LastValue(es, TAG_CHALLENGE, None).Some?,
      BigEndian(LastValue(es, TAG_SERIAL_NUMBER, Some(4)).GetOr([])))
  }

  method ParseSelectResponse(response: bytes, before: SelectInfo) returns (ok: bool, info: SelectInfo)
    ensures |response| < 2 || StatusWord(response) != SW_SUCCESS ==> !ok && info == before
    ensures |response| >= 2 && StatusWord(response) == SW_SUCCESS ==>
              info == SelectSpec(Entries(Payload(response)), before) && ok == (info.deviceId != "")
  {
    hide BigEndian, Word32, LastValue, EntriesFrom, ReadSoFar, Hex;
    info := before;
    if |response| < 2 || StatusWord(response) != SW_SUCCESS {
      return false, info;
    }
    var data := Payload(response);
    NothingRead(data);
    var nameSalt: bytes, serialNumber: bytes, hasChallengeTag := [], [], false;
    info := info.(requiresPassword := false, serial := 0);
    ghost var done := [];
    var pos := 0;
    while pos < |data| - 1
      invariant 0 <= pos <= |data|
      invariant ReadSoFar(data, pos, done)
      invariant nameSalt == LastValue(done, TAG_NAME_SALT, None).GetOr([])
      invariant hasChallengeTag == LastValue(done, TAG_CHALLENGE, None).Some?
      invariant serialNumber == LastValue(done, TAG_SERIAL_NUMBER, Some(4)).GetOr([])
      invariant serialNumber != [] <==> LastValue(done, TAG_SERIAL_NUMBER, Some(4)).Some?
      invariant info == SelectInfo(before.deviceId,
                                   LastValue(done, TAG_CHALLENGE, None).GetOr(before.challenge),
                                   LastValue(done, TAG_VERSION, Some(3)).GetOr(before.version),
                                   false, BigEndian(serialNumber))
    {
      var tag, len := data[pos], data[pos + 1];
      if pos + 2 + len > |data| {
        break;
      }
      var value := data[pos + 2..pos + 2 + len];
      ghost var e := EntryAt(data, pos);
      ReadOne(data, pos, done);
      LastValueSnoc(done, e, TAG_NAME_SALT, None);
      LastValueSnoc(done, e, TAG_CHALLENGE, None);
      LastValueSnoc(done, e, TAG_VERSION, Some(3));
      LastValueSnoc(done, e, TAG_SERIAL_NUMBER, Some(4));
      if tag == TAG_NAME_SALT {
        nameSalt := value;
      } else if tag == TAG_CHALLENGE {
        info := info.(challenge := value);
        hasChallengeTag := true;
      } else if tag == TAG_VERSION {
        if len == 3 {
          info := info.(version := value);
        }
      } else if tag == TAG_SERIAL_NUMBER {
        if len == 4 {
          BigEndianFour(value);
          serialNumber := value;
          info := info.(serial := Word32(value[0], value[1], value[2], value[3]));
        }
      }
      done := done + [e];
      pos := pos + 2 + len;
    }
    AllRead(data, pos, done);
    if serialNumber != [] {
      info := info.(deviceId := "00000000" + Hex(serialNumber));
    } else if nameSalt != [] {
      info := info.(deviceId := Hex(nameSalt));
    }
    info := info.(requiresPassword := hasChallengeTag);
    ok := info.deviceId != "";
  }

  /** The answer a card gives to SELECT. */
  function SelectEntries(version: bytes, salt: bytes, challenge: Option<bytes>, serial: Option<bytes>): seq<Entry> {
    [Entry(0x79, version)] + [Entry(0x71, salt)]
    + (match challenge case None => [] case Some(c) => [Entry(0x74, c)])
    + (match serial case None => [] case Some(n) => [Entry(0x8F, n)])
  }

  /** What the fields read from a list of entries are. */
  ghost predicate Reads(es: seq<Entry>, version: Option<bytes>, salt: Option<bytes>, challenge: Option<bytes>,
                        serial: Option<bytes>)
  {
    && LastValue(es, TAG_VERSION, Some(3)) == version && LastValue(es, TAG_NAME_SALT, None) == salt
    && LastValue(es, TAG_CHALLENGE, None) == challenge && LastValue(es, TAG_SERIAL_NUMBER, Some(4)) == serial
  }

  lemma ReadsSnoc(es: seq<Entry>, e: Entry, version: Option<bytes>, salt: Option<bytes>, challenge: Option<bytes>,
                  serial: Option<bytes>)
    requires Reads(es, version, salt, challenge, serial)
    ensures Reads(es + [e],
                  if Matches(e, TAG_VERSION, Some(3)) then Some(e.value) else version,
                  if Matches(e, TAG_NAME_SALT, None) then Some(e.value) else salt,
                  if Matches(e, TAG_CHALLENGE, None) then Some(e.value) else challenge,
                  if Matches(e, TAG_SERIAL_NUMBER, Some(4)) then Some(e.value) else serial)
  {
    LastValueSnoc(es, e, TAG_VERSION, Some(3));
    LastValueSnoc(es, e, TAG_NAME_SALT, None);
    LastValueSnoc(es, e, TAG_CHALLENGE, None);
    LastValueSnoc(es, e, TAG_SERIAL_NUMBER, Some(4));
  }

  /**
   SELECT tells what the card encoded: its version and challenge, that a
   password is needed exactly if there is a challenge, and an id made of the
   serial number or else the salt. A version that is not three bytes long and a
   serial number that is not four are not taken.
   */
  lemma SelectReadsBack(version: bytes, salt: bytes, challenge: Option<bytes>, serial: Option<bytes>, before: SelectInfo)
    requires Encodable(SelectEntries(version, salt, challenge, serial))
    ensures var numbered := serial.Some? && |serial.value| == 4;
            SelectSpec(Entries(Encode(SelectEntries(version, salt, challenge, serial))), before) ==
            SelectInfo(if numbered then "00000000" + Hex(serial.value) else if salt != [] then Hex(salt) else before.deviceId,
                       challenge.GetOr(before.challenge), if |version| == 3 then version else before.version,
                       challenge.Some?, if numbered then BigEndian(serial.value) else 0)
  {
    hide Hex, LastValue, Encode, Entries, EntriesFrom, SelectEntries, Encodable;
    var es := SelectEntries(version, salt, challenge, serial);
    NoTail(es);
    SelectReads(version, salt, challenge, serial);
  }

  lemma {:induction false} EncodeSnoc(es: seq<Entry>, e: Entry)
    requires Encodable(es + [e])
    ensures Encodable(es) && |e.value| < 256
    ensures Encode(es + [e]) == Encode(es) + EncodeEntry(e)
  {
    assert forall k :: 0 <= k < |es| ==> (es + [e])[k] == es[k];
    assert (es + [e])[|es|] == e;
    if es == [] {
      assert es + [e] == [e] && [e][1..] == [];
      assert EncodeEntry(e) + [] == EncodeEntry(e) && [] + EncodeEntry(e) == EncodeEntry(e);
    } else {
      assert (es + [e])[1..] == es[1..] + [e];
      EncodeSnoc(es[1..], e);
      Associate(EncodeEntry(es[0]), Encode(es[1..]), EncodeEntry(e));
    }
  }

  /** Without its last two bytes an encoding lacks its last entry; those bytes are the last of its value. */
  lemma CutInLastEntry(front: seq<Entry>, e: Entry)
    requires Encodable(front + [e]) && e.tag != 0x90
    ensures var data := Encode(front + [e]);
            && |data| >= 2
            && (StatusWord(data) == SW_SUCCESS <==> |e.value| >= 2 && StatusWord(e.value) == SW_SUCCESS)
            && (|e.value| >= 2 ==> Entries(Payload(data)) == front)
  {
    hide Encode, Entries;
    EncodeSnoc(front, e);
    assert (front + [e])[|front|] == e;
    var data, v := Encode(front) + EncodeEntry(e), e.value;
    if |v| >= 2 {
      assert data[|data| - 2..] == v[|v| - 2..];
      var tail := [e.tag, |v|] + v[..|v| - 2];
      assert Payload(data) == Encode(front) + tail;
      EntriesEncode(front, tail);
    } else if |v| == 1 {
      assert data[|data| - 2..] == [1, v[0]];
      TwoBytes(1, v[0]);
    } else {
      assert data[|data| - 2..] == [e.tag, 0];
      TwoBytes(e.tag, 0);
    }
  }

  lemma TwoBytes(a: byte, b: byte)
    ensures BigEndian([a, b]) == a * 256 + b
  {
    var s: bytes := [a, b];
    assert s[..1] == [a] && s[..1][..0] == [];
    assert BigEndian(s[..1]) == a;
  }

  lemma VersionAlone(version: bytes)
    ensures DeviceIdOf([Entry(TAG_VERSION, version)], "") == ""
  {
    var es := [Entry(TAG_VERSION, version)];
    assert es[..|es| - 1] == [];
    assert LastValue(es, TAG_SERIAL_NUMBER, Some(4)) == None && LastValue(es, TAG_NAME_SALT, None) == None;
  }

  lemma NoTail(es: seq<Entry>)
    requires Encodable(es)
    ensures Entries(Encode(es)) == es
  {
    EntriesEncode(es, []);
    assert Encode(es) + [] == Encode(es);
  }

  lemma SelectReads(version: bytes, salt: bytes, challenge: Option<bytes>, serial: Option<bytes>)
    ensures Reads(SelectEntries(version, salt, challenge, serial), if |version| == 3 then Some(version) else None,
                  Some(salt), challenge, if serial.Some? && |serial.value| == 4 then serial else None)
  {
    hide Reads;
    var taken := if |version| == 3 then Some(version) else None;
    var one := [Entry(TAG_VERSION, version)];
    var two := one + [Entry(TAG_NAME_SALT, salt)];
    NothingReads();
    assert [] + one == one;
    ReadsSnoc([], one[0], None, None, None, None);
    ReadsSnoc(one, two[1], taken, None, None, None);
    assert two + [] == two;
    var three := two + (match challenge case None => [] case Some(c) => [Entry(TAG_CHALLENGE, c)]);
    if challenge.Some? {
      ReadsSnoc(two, three[2], taken, Some(salt), None, None);
    }
    assert three + [] == three;
    if serial.Some? {
      ReadsSnoc(three, Entry(TAG_SERIAL_NUMBER, serial.value), taken, Some(salt), challenge, None);
    }
  }

  lemma NothingReads()
    ensures Reads([], None, None, None, None)
  {
  }

  function Worth(c: char): int {
    if '0' <= c <= '9' then c as int - '0' as int else c as int - 'a' as int + 10
  }

  /** The number that hexadecimal digits denote, behind those already read. */
  function HexNumber(h: string, before: int): int
    decreases |h|
  {
    if h == "" then before else HexNumber(h[1..], before * 16 + Worth(h[0]))
  }

  /** The digits of a byte string denote its number. */
  lemma HexSpells(s: bytes)
    ensures |Hex(s)| == 2 * |s| && HexNumber(Hex(s), 0) == BigEndian(s)
  {
    HexSpellsOn([], s);
    assert [] + s == s;
  }

  lemma {:induction false} HexSpellsOn(done: bytes, s: bytes)
    ensures HexNumber(Hex(s), BigEndian(done)) == BigEndian(done + s)
    decreases |s|
  {
    hide Hex, HexNumber, Worth, BigEndian;
    if s == [] {
      NothingSpelled(BigEndian(done));
      assert done + s == done;
    } else {
      TwoDigits(Hex(s), BigEndian(done));
      ByteSpelled(s);
      OneByteMore(done, s[0]);
      HexSpellsOn(done + [s[0]], s[1..]);
      assert done + [s[0]] + s[1..] == done + s;
    }
  }

  lemma NothingSpelled(before: int)
    ensures HexNumber(Hex([]), before) == before
  {
  }

  lemma OneByteMore(done: bytes, b: byte)
    ensures BigEndian(done + [b]) == BigEndian(done) * 256 + b
  {
    assert (done + [b])[..|done|] == done;
  }

  lemma TwoDigits(h: string, before: int)
    requires |h| >= 2
    ensures HexNumber(h, before) == HexNumber(h[2..], before * 256 + Worth(h[0]) * 16 + Worth(h[1]))
  {
    hide Worth;
    assert h[1..][1..] == h[2..] && h[1..][0] == h[1];
  }

  lemma ByteSpelled(s: bytes)
    requires s != []
    ensures Hex(s)[2..] == Hex(s[1..]) && Worth(Hex(s)[0]) * 16 + Worth(Hex(s)[1]) == s[0]
  {
    DigitSpelled(s[0] / 16);
    DigitSpelled(s[0] % 16);
  }

  lemma DigitSpelled(n: nat)
    requires n < 16
    ensures Worth(HexDigit(n)) == n
  {
  }

  /** A device id read from the card spells only hexadecimal digits, so never a slash. */
  lemma {:induction false} HexDigitsOnly(s: bytes, k: nat)
    requires k < |Hex(s)|
    ensures Hex(s)[k] in "0123456789abcdef"
  {
    if k >= 2 {
      HexDigitsOnly(s[1..], k - 2);
    }
  }

  lemma {:induction false} HexInjective(a: bytes, b: bytes)
    requires Hex(a) == Hex(b)
    ensures a == b
  {
    if a != [] {
      assert |b| == |a|;
      assert Hex(a)[2..] == Hex(a[1..]) && Hex(b)[2..] == Hex(b[1..]);
      HexInjective(a[1..], b[1..]);
      HexDigitInjective(a[0] / 16, b[0] / 16);
      HexDigitInjective(a[0] % 16, b[0] % 16);
      assert a == [a[0]] + a[1..] && b == [b[0]] + b[1..];
    }
  }

  lemma HexDigitInjective(i: nat, j: nat)
    requires i < 16 && j < 16
    ensures HexDigit(i) == HexDigit(j) ==> i == j
  {
  }

  /** What a device is told apart by: its serial number behind four zero bytes, else its salt. */
  function Identity(es: seq<Entry>): bytes {
    match LastValue(es, TAG_SERIAL_NUMBER, Some(4))
    case Some(serial) => [0, 0, 0, 0] + serial
    case None => LastValue(es, TAG_NAME_SALT, None).GetOr([])
  }

  /**
   Two answers to SELECT give the same device id exactly if they name the same
   identity, so ids clash only for a salt of four zero bytes and a serial
   number; and an id spells hexadecimal digits only.
   */
  lemma DeviceIdsTellApart(es: seq<Entry>, fs: seq<Entry>)
    ensures DeviceIdOf(es, "") == DeviceIdOf(fs, "") <==> Identity(es) == Identity(fs)
    ensures forall c <- DeviceIdOf(es, "") :: c in "0123456789abcdef"
  {
    DeviceIdIsHex(es);
    DeviceIdIsHex(fs);
    if DeviceIdOf(es, "") == DeviceIdOf(fs, "") {
      HexInjective(Identity(es), Identity(fs));
    }
    forall k | 0 <= k < |Hex(Identity(es))| ensures Hex(Identity(es))[k] in "0123456789abcdef" {
      HexDigitsOnly(Identity(es), k);
    }
  }

  lemma DeviceIdIsHex(es: seq<Entry>)
    ensures DeviceIdOf(es, "") == Hex(Identity(es))
  {
    match LastValue(es, TAG_SERIAL_NUMBER, Some(4))
    case Some(serial) => FourZeros(serial);
    case None =>
  }

  lemma FourZeros(s: bytes)
    ensures Hex([0, 0, 0, 0] + s) == "00000000" + Hex(s)
  {
    ZeroByte([0, 0, 0] + s);
    ZeroByte([0, 0] + s);
    ZeroByte([0] + s);
    ZeroByte(s);
    assert [0] + ([0, 0, 0] + s) == [0, 0, 0, 0] + s;
    assert [0] + ([0, 0] + s) == [0, 0, 0] + s && [0] + ([0] + s) == [0, 0] + s;
    assert "00" + ("00" + ("00" + ("00" + Hex(s)))) == "00000000" + Hex(s);
  }

  lemma ZeroByte(s: bytes)
    ensures Hex([0] + s) == "00" + Hex(s)
  {
    assert ([0] + s)[1..] == s;
  }

  /** The entries before the first one that reads 90 00. */
  function UpToStatus(es: seq<Entry>): seq<Entry> {
    if es == [] || es[0] == Entry(0x90, []) then [] else [es[0]] + UpToStatus(es[1..])
  }

  /** It is the longest prefix without a 90 00. */
  lemma {:induction false} UpToStatusIsLongest(es: seq<Entry>)
    ensures var n := |UpToStatus(es)|;
            && n <= |es| && UpToStatus(es) == es[..n]
            && (n == |es| || es[n] == Entry(0x90, []))
            && forall j :: 0 <= j < n ==> es[j] != Entry(0x90, [])
  {
    if es != [] && es[0] != Entry(0x90, []) {
      UpToStatusIsLongest(es[1..]);
      var n := |UpToStatus(es)|;
      assert es[..n] == [es[0]] + es[1..][..n - 1];
      assert forall j :: 0 < j < n ==> es[j] == es[1..][j - 1];
    }
  }

  predicate NoStatus(es: seq<Entry>) {
    forall i :: 0 <= i < |es| ==> es[i] != Entry(0x90, [])
  }

  lemma {:induction false} UpToStatusIs(done: seq<Entry>, rest: seq<Entry>)
    requires NoStatus(done) && (rest == [] || rest[0] == Entry(0x90, []))
    ensures UpToStatus(done + rest) == done
  {
    if done != [] {
      UpToStatusIs(done[1..], rest);
      assert (done + rest)[1..] == done[1..] + rest;
    }
  }

  /** The table a later entry overwrites an earlier one in. */
  function Table(es: seq<Entry>): map<byte, bytes> {
    if es == [] then map[] else Table(es[..|es| - 1])[es[|es| - 1].tag := es[|es| - 1].value]
  }

  lemma {:induction false} TableIsLastValue(es: seq<Entry>, tag: byte)
    ensures tag in Table(es) <==> LastValue(es, tag, None).Some?
    ensures tag in Table(es) ==> LastValue(es, tag, None) == Some(Table(es)[tag])
  {
    if es != [] {
      TableIsLastValue(es[..|es| - 1], tag);
    }
  }

  lemma TableSnoc(es: seq<Entry>, e: Entry)
    ensures Table(es + [e]) == Table(es)[e.tag := e.value]
  {
  }

  method ParseTlv(data: bytes) returns (result: map<byte, bytes>)
    ensures result == Table(UpToStatus(Entries(data)))
  {
    result := map[];
    var pos := 0;
    ghost var done := [];
    while pos < |data|
      invariant 0 <= pos <= |data|
      invariant ReadSoFar(data, pos, done) && NoStatus(done)
      invariant result == Table(done)
    {
      if pos + 1 < |data| && data[pos] == 0x90 && data[pos + 1] == 0x00 {
        break;
      }
      if pos + 2 > |data| {
        break;
      }
      var tag, length := data[pos], data[pos + 1];
      if pos + 2 + length > |data| {
        break;
      }
      ghost var e := EntryAt(data, pos);
      ReadOne(data, pos, done);
      TableSnoc(done, e);
      result := result[tag := data[pos + 2..pos + 2 + length]];
      done := done + [e];
      pos := pos + 2 + length;
    }
    UpToStatusIs(done, EntriesFrom(data, pos));
  }
}
