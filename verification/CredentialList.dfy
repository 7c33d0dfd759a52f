/**
 The two credential lists a card can send: the answer to CALCULATE ALL
 (YubiKey) and the answer to LIST in its first extended version (Nitrokey).
 Both parsers walk TLV entries; what they make of the entries is stated here
 without a cursor, and both undo the card's encoding.
 */
module CredentialList {
  import opened Bytes
  import Codes
  import opened CredentialId
  import opened Put
  import Tlv

  const TAG_NAME_LIST: byte := 0x72
  const TAG_TOTP_RESPONSE: byte := 0x76
  const TAG_HOTP: byte := 0x77
  const TAG_TOUCH: byte := 0x7c

  datatype Credential = Credential(
    name: bytes, issuer: bytes, account: bytes, period: nat,
    isTotp: bool, kind: OathType, algorithmCode: nat, touch: bool,
    digits: nat, code: string, validUntil: nat)

  /** A credential as it is before anything but its name is known. */
  function Named(name: bytes): (c: Credential)
    ensures c.period > 0
  {
    var id := ParseId(name, true);
    Credential(name, id.issuer, id.account, id.period, true, TOTP, SHA1.Code(), false, 6, "", 0)
  }

  /** What the entry after the name adds; None where the source divides by zero. */
  function Answered(c: Credential, e: Tlv.Entry, now: nat): Option<Credential>
    requires c.period > 0
  {
    if e.tag == TAG_TOUCH then Some(c.(touch := true))
    else if e.tag == TAG_HOTP then
      Some(c.(isTotp := false, kind := HOTP, period := ParseId(c.name, false).period))
    else if e.tag == TAG_TOTP_RESPONSE && |e.value| >= 5 then
      match Codes.Formatted(e.value, e.value[0])
      case None => None
      case Some(code) =>
        Some(c.(code := code, digits := e.value[0], kind := TOTP, validUntil := Codes.ValidUntil(now, c.period)))
    else Some(c)
  }

  function Prepend(cs: seq<Credential>, rest: Option<seq<Credential>>): Option<seq<Credential>> {
    match rest
    case None => None
    case Some(t) => Some(cs + t)
  }

  /**
   The credentials a sequence of entries lists. A name takes whatever entry
   follows it as its answer; entries elsewhere are skipped. The clock is read
   once per credential: clock(n) for the n-th.
   */
  function Listed(es: seq<Tlv.Entry>, clock: nat -> nat, n: nat): Option<seq<Credential>> {
    if es == [] then Some([])
    else if es[0].tag != TAG_NAME then Listed(es[1..], clock, n)
    else if |es| == 1 then Some([Named(es[0].value)])
    else
      match Answered(Named(es[0].value), es[1], clock(n))
      case None => None
      case Some(c) => Prepend([c], Listed(es[2..], clock, n + 1))
  }

  lemma PrependTwice(a: seq<Credential>, b: seq<Credential>, rest: Option<seq<Credential>>)
    ensures Prepend(a, Prepend(b, rest)) == Prepend(a + b, rest)
  {
    if rest.Some? {
      assert a + (b + rest.value) == (a + b) + rest.value;
    }
  }

  lemma PrependNothing(cs: seq<Credential>, rest: Option<seq<Credential>>)
    ensures Prepend(cs, Some([])) == Some(cs) && Prepend([], rest) == rest
  {
    assert cs + [] == cs;
    assert rest.Some? ==> [] + rest.value == rest.value;
  }

  method ParseAnswer(c: Credential, e: Tlv.Entry, now: nat) returns (r: Option<Credential>)
    requires c.period > 0
    ensures r == Answered(c, e, now)
  {
    if e.tag == TAG_TOUCH {
      return Some(c.(touch := true));
    } else if e.tag == TAG_HOTP {
      return Some(c.(isTotp := false, kind := HOTP, period := ParseId(c.name, false).period));
    } else if e.tag == TAG_TOTP_RESPONSE && |e.value| >= 5 {
      var digits := e.value[0];
      var code := Codes.FormatCode(e.value, digits);
      if code == None {
        return None;
      }
      var timeInPeriod := now % c.period;
      var validityRemaining := c.period - timeInPeriod;
      return Some(c.(code := code.value, digits := digits, kind := TOTP, validUntil := now + validityRemaining));
    }
    return Some(c);
  }

  /** What is still listed from a cursor on. */
  function ListedFrom(data: bytes, i: nat, clock: nat -> nat, n: nat): Option<seq<Credential>> {
    Listed(Tlv.EntriesFrom(data, i), clock, n)
  }

  /** The credentials so far and those still to come make up the whole list. */
  ghost predicate ListedSoFar(data: bytes, i: nat, clock: nat -> nat, cs: seq<Credential>) {
    ListedFrom(data, 0, clock, 0) == Prepend(cs, ListedFrom(data, i, clock, |cs|))
  }

  lemma SkipOther(data: bytes, i: nat, clock: nat -> nat, cs: seq<Credential>)
    requires Tlv.Fits(data, i) && data[i] != TAG_NAME && ListedSoFar(data, i, clock, cs)
    ensures ListedSoFar(data, Tlv.Next(data, i), clock, cs)
  {
  }

  lemma TakeLast(data: bytes, i: nat, clock: nat -> nat, cs: seq<Credential>)
    requires Tlv.Fits(data, i) && data[i] == TAG_NAME && !Tlv.Fits(data, Tlv.Next(data, i))
    requires ListedSoFar(data, i, clock, cs)
    ensures ListedFrom(data, 0, clock, 0) == Some(cs + [Named(Tlv.EntryAt(data, i).value)])
  {
    assert Tlv.EntriesFrom(data, i) == [Tlv.EntryAt(data, i)];
  }

  lemma TakePair(data: bytes, i: nat, clock: nat -> nat, cs: seq<Credential>)
    requires Tlv.Fits(data, i) && data[i] == TAG_NAME && Tlv.Fits(data, Tlv.Next(data, i))
    requires ListedSoFar(data, i, clock, cs)
    ensures var k := Tlv.Next(data, i);
            match Answered(Named(Tlv.EntryAt(data, i).value), Tlv.EntryAt(data, k), clock(|cs|))
            case None => ListedFrom(data, 0, clock, 0) == None
            case Some(c) => ListedSoFar(data, Tlv.Next(data, k), clock, cs + [c])
  {
    var k := Tlv.Next(data, i);
    var es := Tlv.EntriesFrom(data, i);
    assert es[1..] == Tlv.EntriesFrom(data, k);
    assert es[2..] == es[1..][1..] == Tlv.EntriesFrom(data, Tlv.Next(data, k));
    match Answered(Named(Tlv.EntryAt(data, i).value), Tlv.EntryAt(data, k), clock(|cs|))
    case None =>
    case Some(c) => PrependTwice(cs, [c], ListedFrom(data, Tlv.Next(data, k), clock, |cs| + 1));
  }

  lemma TakeNothing(data: bytes, i: nat, clock: nat -> nat, cs: seq<Credential>)
    requires !Tlv.Fits(data, i) && ListedSoFar(data, i, clock, cs)
    ensures ListedFrom(data, 0, clock, 0) == Some(cs)
  {
    PrependNothing(cs, None);
  }

  /** What an answer to CALCULATE ALL lists: nothing unless it ends in 90 00. */
  function AllCalculated(response: bytes, clock: nat -> nat): Option<seq<Credential>> {
    if |response| < 2 || StatusWord(response) != SW_SUCCESS then Some([])
    else Listed(Tlv.Entries(Payload(response)), clock, 0)
  }

  /** A listing without credentials is one without names. */
  lemma {:induction false} NothingListed(es: seq<Tlv.Entry>, clock: nat -> nat, n: nat)
    ensures Listed(es, clock, n) == Some([]) <==> forall e <- es :: e.tag != TAG_NAME
  {
    hide Named, Answered;
    if es != [] {
      NothingListed(es[1..], clock, n);
      assert es == [es[0]] + es[1..];
    }
  }

  method ParseCalculateAllResponse(response: bytes, clock: nat -> nat) returns (r: Option<seq<Credential>>)
    ensures r == AllCalculated(response, clock)
  {
    if |response| < 2 || StatusWord(response) != SW_SUCCESS {
      return Some([]);
    }
    r := ParseListing(Payload(response), clock);
  }

  /** The cursor loop over the data. */
  method ParseListing(data: bytes, clock: nat -> nat) returns (r: Option<seq<Credential>>)
    ensures r == ListedFrom(data, 0, clock, 0)
  {
    hide Named, Answered, Tlv.EntriesFrom;
    var credentials := [];
    var i := 0;
    PrependNothing([], ListedFrom(data, 0, clock, 0));
    while i < |data|
      invariant 0 <= i <= |data| && ListedSoFar(data, i, clock, credentials)
    {
      if i + 2 > |data| {
        break;
      }
      var tag, length := data[i], data[i + 1];
      if i + 2 + length > |data| {
        break;
      }
      var next := i + 2 + length;
      if tag == TAG_NAME {
        var cred := Named(data[i + 2..next]);
        if next + 2 <= |data| {
          var respTag, respLength := data[next], data[next + 1];
          if next + 2 + respLength > |data| {
            TakeLast(data, i, clock, credentials);
            return Some(credentials + [cred]);
          }
          var answer := ParseAnswer(cred, Tlv.EntryAt(data, next), clock(|credentials|));
          TakePair(data, i, clock, credentials);
          if answer == None {
            return None;
          }
          credentials := credentials + [answer.value];
          i := next + 2 + respLength;
        } else {
          TakeLast(data, i, clock, credentials);
          return Some(credentials + [cred]);
        }
      } else {
        SkipOther(data, i, clock, credentials);
        i := next;
      }
    }
    TakeNothing(data, i, clock, credentials);
    return Some(credentials);
  }

  // ---------------------------------------------------------------------------
  // CALCULATE ALL: encoding and parsing undo each other
  // ---------------------------------------------------------------------------

  /** What the card says of a credential; a silent entry is any other that follows a name, even a name. */
  datatype Body =
    | Code(digits: byte, word: bytes)
    | CounterBased(info: bytes)
    | TouchFirst(info: bytes)
    | Silent(tag: byte, info: bytes)

  datatype Record = Record(name: bytes, body: Body)

  predicate Sendable(r: Record) {
    |r.name| < 256 &&
    match r.body
    case Code(_, word) => |word| == 4
    case CounterBased(info) => |info| < 256
    case TouchFirst(info) => |info| < 256
    case Silent(tag, info) => |info| < 256 && tag !in {0x77, 0x7c} && (tag == 0x76 ==> |info| < 5)
  }

  predicate AllSendable(rs: seq<Record>) {
    forall i :: 0 <= i < |rs| ==> Sendable(rs[i])
  }

  function AnswerEntry(b: Body): Tlv.Entry {
    match b
    case Code(digits, word) => Tlv.Entry(0x76, [digits] + word)
    case CounterBased(info) => Tlv.Entry(0x77, info)
    case TouchFirst(info) => Tlv.Entry(0x7c, info)
    case Silent(tag, info) => Tlv.Entry(tag, info)
  }

  /** The entries of the records, name before answer. */
  function RecordEntries(rs: seq<Record>): (es: seq<Tlv.Entry>)
    ensures AllSendable(rs) ==> Tlv.Encodable(es)
  {
    if rs == [] then []
    else [Tlv.Entry(0x71, rs[0].name), AnswerEntry(rs[0].body)] + RecordEntries(rs[1..])
  }

  function RecordBytes(rs: seq<Record>): bytes
    requires AllSendable(rs)
  {
    Tlv.Encode(RecordEntries(rs))
  }

  /** The digits can be shown right: see Codes.FormattedRight. */
  predicate Showable(r: Record) {
    match r.body
    case Code(digits, word) =>
      1 <= digits <= 9 || (digits >= 10 && BigEndian(word) < Codes.Modulus(digits))
    case _ => true
  }

  /** The credential tells what the record said, at the time the clock was read. */
  ghost predicate Tells(c: Credential, r: Record, now: nat) {
    && c.name == r.name
    && c.issuer == ParseId(r.name, true).issuer && c.account == ParseId(r.name, true).account
    && c.touch == r.body.TouchFirst?
    && c.isTotp == !r.body.CounterBased?
    && c.kind == (if r.body.CounterBased? then HOTP else TOTP) && c.algorithmCode == 1
    && c.period == (if r.body.CounterBased? then 0 else ParseId(r.name, true).period)
    && match r.body
       case Code(digits, word) =>
         && c.digits == digits && Codes.IsCode(c.code, BigEndian(word), digits)
         && now < c.validUntil && Codes.Step(c.validUntil - 1, c.period) == Codes.Step(now, c.period)
         && Codes.Step(c.validUntil, c.period) == Codes.Step(now, c.period) + 1
       case _ => c.code == "" && c.validUntil == 0 && c.digits == 6
  }

  lemma AnswerTells(r: Record, now: nat)
    requires Sendable(r)
    ensures var a := Answered(Named(r.name), AnswerEntry(r.body), now);
            (a.Some? && Tells(a.value, r, now)) <==> Showable(r)
  {
    hide ParseId, Codes.IsCode, Codes.Formatted;
    if r.body.Code? {
      var raw := [r.body.digits] + r.body.word;
      assert raw[1..5] == r.body.word;
      Codes.FormattedRight(raw, r.body.digits);
      var period := Named(r.name).period;
      Codes.StepLastsUntil(now, now, period);
      Codes.StepLastsUntil(now, Codes.ValidUntil(now, period) - 1, period);
    }
  }

  /** Every record is told, in order. */
  ghost predicate AllTell(cs: seq<Credential>, rs: seq<Record>, clock: nat -> nat, n: nat) {
    |cs| == |rs| && forall k :: 0 <= k < |rs| ==> Tells(cs[k], rs[k], clock(n + k))
  }

  lemma {:induction false} ListedTells(rs: seq<Record>, clock: nat -> nat, n: nat)
    requires AllSendable(rs)
    ensures var list := Listed(RecordEntries(rs), clock, n);
            (list.Some? && AllTell(list.value, rs, clock, n)) <==> forall k :: 0 <= k < |rs| ==> Showable(rs[k])
  {
    hide Tells, AllTell, Showable, Sendable, Answered, Named, AnswerEntry, Listed, RecordEntries;
    RecordsUnfold(rs, clock, n);
    if rs == [] {
      NothingToTell(clock, n);
    } else {
      AnswerTells(rs[0], clock(n));
      ListedTells(rs[1..], clock, n + 1);
      TellsCons(rs, clock, n);
      assert (forall k :: 0 <= k < |rs| ==> Showable(rs[k])) <==>
             Showable(rs[0]) && forall k :: 0 <= k < |rs[1..]| ==> Showable(rs[1..][k]) by {
        assert forall k :: 0 < k < |rs| ==> rs[k] == rs[1..][k - 1];
      }
      assert Answered(Named(rs[0].name), AnswerEntry(rs[0].body), clock(n)).None? ==> !Showable(rs[0]);
    }
  }

  lemma NothingToTell(clock: nat -> nat, n: nat)
    ensures AllTell([], [], clock, n)
  {
  }

  lemma RecordsUnfold(rs: seq<Record>, clock: nat -> nat, n: nat)
    ensures Listed(RecordEntries(rs), clock, n) ==
            if rs == [] then Some([])
            else
              match Answered(Named(rs[0].name), AnswerEntry(rs[0].body), clock(n))
              case None => None
              case Some(c) => Prepend([c], Listed(RecordEntries(rs[1..]), clock, n + 1))
  {
    hide Answered, Named, AnswerEntry;
    if rs != [] {
      assert RecordEntries(rs)[2..] == RecordEntries(rs[1..]);
    }
  }

  lemma TellsCons(rs: seq<Record>, clock: nat -> nat, n: nat)
    requires rs != []
    ensures forall c: Credential, cs: seq<Credential> ::
              AllTell([c] + cs, rs, clock, n) <==> Tells(c, rs[0], clock(n)) && AllTell(cs, rs[1..], clock, n + 1)
  {
    hide Tells;
    forall c: Credential, cs: seq<Credential>
      ensures AllTell([c] + cs, rs, clock, n) <==> Tells(c, rs[0], clock(n)) && AllTell(cs, rs[1..], clock, n + 1)
    {
      var all := [c] + cs;
      if AllTell(all, rs, clock, n) {
        assert Tells(all[0], rs[0], clock(n + 0));
        forall k | 0 <= k < |rs[1..]| ensures Tells(cs[k], rs[1..][k], clock(n + 1 + k)) {
          assert Tells(all[k + 1], rs[k + 1], clock(n + (k + 1)));
        }
      }
    }
  }

  /**
   The parser gets back exactly the records the card encoded, in order, if and
   only if every code among them has a digit count it can show.
   */
  lemma ParseInvertsEncode(rs: seq<Record>, clock: nat -> nat)
    requires AllSendable(rs)
    ensures var list := Listed(Tlv.Entries(RecordBytes(rs)), clock, 0);
            (list.Some? && AllTell(list.value, rs, clock, 0)) <==> forall k :: 0 <= k < |rs| ==> Showable(rs[k])
  {
    Tlv.NoTail(RecordEntries(rs));
    ListedTells(rs, clock, 0);
  }

  // ---------------------------------------------------------------------------
  // CALCULATE: the answer for one credential
  // ---------------------------------------------------------------------------

  predicate IsCodeEntry(e: Tlv.Entry) {
    e.tag == TAG_TOTP_RESPONSE && |e.value| >= 5
  }

  /** The code of the first entry that holds one; none reads as no text, and None is the division by zero. */
  function FirstCode(es: seq<Tlv.Entry>): Option<string> {
    if es == [] then Some("")
    else if IsCodeEntry(es[0]) then Codes.Formatted(es[0].value, es[0].value[0])
    else FirstCode(es[1..])
  }

  /** The code in an answer, which must end in 90 00. */
  function CodeIn(response: bytes): Option<string> {
    if |response| < 2 || StatusWord(response) != SW_SUCCESS then Some("")
    else FirstCode(Tlv.Entries(Payload(response)))
  }

  method ParseCode(response: bytes) returns (code: Option<string>)
    ensures code == CodeIn(response)
  {
    hide FirstCode, Tlv.EntriesFrom, Codes.Formatted;
    if |response| < 2 || StatusWord(response) != SW_SUCCESS {
      return Some("");
    }
    var data := Payload(response);
    var i := 0;
    while i < |data|
      invariant 0 <= i <= |data| && FirstCode(Tlv.Entries(data)) == FirstCode(Tlv.EntriesFrom(data, i))
    {
      if i + 2 > |data| {
        break;
      }
      var tag, length := data[i], data[i + 1];
      if i + 2 + length > |data| {
        break;
      }
      FirstCodeFrom(data, i);
      if tag == TAG_TOTP_RESPONSE && length >= 5 {
        var raw := data[i + 2..i + 2 + length];
        code := Codes.FormatCode(raw, raw[0]);
        return;
      }
      i := i + 2 + length;
    }
    FirstCodeFrom(data, i);
    return Some("");
  }

  lemma FirstCodeFrom(data: bytes, i: nat)
    requires i <= |data|
    ensures FirstCode(Tlv.EntriesFrom(data, i)) ==
            if !Tlv.Fits(data, i) then Some("")
            else
              var e := Tlv.EntryAt(data, i);
              if IsCodeEntry(e) then Codes.Formatted(e.value, e.value[0])
              else FirstCode(Tlv.EntriesFrom(data, Tlv.Next(data, i)))
  {
  }

  /**
   Whatever other entries surround it, the code comes back as its digits if and
   only if its digit count can be shown.
   */
  lemma CodeReadsBack(before: seq<Tlv.Entry>, digits: byte, word: bytes, after: seq<Tlv.Entry>)
    requires |word| == 4 && forall e <- before :: !IsCodeEntry(e)
    requires Tlv.Encodable(before + [AnswerEntry(Code(digits, word))] + after)
    ensures var es := before + [AnswerEntry(Code(digits, word))] + after;
            var code := FirstCode(Tlv.Entries(Tlv.Encode(es)));
            (code.Some? && Codes.IsCode(code.value, BigEndian(word), digits)) <==> Showable(Record([], Code(digits, word)))
  {
    var e := AnswerEntry(Code(digits, word));
    var es := before + [e] + after;
    Tlv.NoTail(es);
    SkipToCode(before, e, after);
    assert e.value[1..5] == word;
    Codes.FormattedRight(e.value, digits);
  }

  lemma {:induction false} SkipToCode(before: seq<Tlv.Entry>, e: Tlv.Entry, after: seq<Tlv.Entry>)
    requires IsCodeEntry(e) && forall x <- before :: !IsCodeEntry(x)
    ensures FirstCode(before + [e] + after) == Codes.Formatted(e.value, e.value[0])
  {
    if before != [] {
      assert (before + [e] + after)[1..] == before[1..] + [e] + after;
      SkipToCode(before[1..], e, after);
    }
  }

  /** An answer without an entry that can hold a code reads as no text. */
  lemma {:induction false} NoCodeNoText(es: seq<Tlv.Entry>)
    requires forall e <- es :: e.tag != 0x76 || |e.value| < 5
    ensures FirstCode(es) == Some("")
  {
    if es != [] {
      assert es[0] in es;
      NoCodeNoText(es[1..]);
    }
  }

  // ---------------------------------------------------------------------------
  // LIST, extended version 1
  // ---------------------------------------------------------------------------

  /** One element of the list; None if it is too short to be one. */
  function ListElement(value: bytes): Option<Credential> {
    if |value| < 3 then None
    else
      var name := value[1..|value| - 1];
      var isTotp := value[0] / 16 == 2;
      var id := ParseId(name, isTotp);
      Some(Credential(name, id.issuer, id.account, id.period, isTotp, if isTotp then TOTP else HOTP,
                      value[0] % 16, value[|value| - 1] % 2 == 1, 6, "", 0))
  }

  /** What an entry lists. */
  function ElementOf(e: Tlv.Entry): seq<Credential> {
    if e.tag == TAG_NAME_LIST && ListElement(e.value).Some? then [ListElement(e.value).value] else []
  }

  function ListV1(es: seq<Tlv.Entry>): seq<Credential> {
    if es == [] then [] else ElementOf(es[0]) + ListV1(es[1..])
  }

  lemma ListV1From(data: bytes, i: nat)
    requires i <= |data|
    ensures ListV1(Tlv.EntriesFrom(data, i)) ==
            if !Tlv.Fits(data, i) then []
            else ElementOf(Tlv.EntryAt(data, i)) + ListV1(Tlv.EntriesFrom(data, Tlv.Next(data, i)))
  {
  }

  lemma Regroup(a: seq<Credential>, b: seq<Credential>, c: seq<Credential>)
    ensures a + (b + c) == (a + b) + c
  {
  }

  /** What an answer lists: nothing unless it ends in 90 00. */
  function AllListed(response: bytes): seq<Credential> {
    if |response| < 2 || StatusWord(response) != SW_SUCCESS then [] else ListV1(Tlv.Entries(Payload(response)))
  }

  method ParseCredentialListV1(response: bytes) returns (credentials: seq<Credential>)
    ensures credentials == AllListed(response)
  {
    hide ListElement, ListV1, Tlv.EntriesFrom;
    credentials := [];
    if |response| < 2 || StatusWord(response) != SW_SUCCESS {
      return;
    }
    var data := Payload(response);
    var i := 0;
    while i < |data|
      invariant 0 <= i <= |data|
      invariant ListV1(Tlv.Entries(data)) == credentials + ListV1(Tlv.EntriesFrom(data, i))
    {
      if i + 2 > |data| {
        break;
      }
      var tag, length := data[i], data[i + 1];
      if i + 2 + length > |data| {
        break;
      }
      ListV1From(data, i);
      Regroup(credentials, ElementOf(Tlv.EntryAt(data, i)), ListV1(Tlv.EntriesFrom(data, i + 2 + length)));
      if tag == TAG_NAME_LIST {
        var element := ListElement(data[i + 2..i + 2 + length]);
        if element.Some? {
          credentials := credentials + [element.value];
        }
      }
      i := i + 2 + length;
    }
    ListV1From(data, i);
  }

  /** What the card says of a credential: type and algorithm as PUT wrote them, name, properties. */
  datatype ListRecord = ListRecord(kind: OathType, algorithm: OathAlgorithm, name: bytes, properties: byte)

  predicate AllEncodable(rs: seq<ListRecord>) {
    forall i :: 0 <= i < |rs| ==> |rs[i].name| <= 253
  }

  /** Type and algorithm in one byte, as PUT writes them. */
  function TypeByte(r: ListRecord): byte {
    (if r.kind == HOTP then 0x10 else 0x20) + match r.algorithm case SHA1 => 1 case SHA256 => 2 case SHA512 => 3
  }

  function ListEntries(rs: seq<ListRecord>): (es: seq<Tlv.Entry>)
    ensures AllEncodable(rs) ==> Tlv.Encodable(es)
  {
    if rs == [] then []
    else [Tlv.Entry(0x72, [TypeByte(rs[0])] + rs[0].name + [rs[0].properties])] + ListEntries(rs[1..])
  }

  ghost predicate TellsElement(c: Credential, r: ListRecord) {
    && c.name == r.name && c.kind == r.kind && c.isTotp == (r.kind == TOTP)
    && c.algorithmCode == (match r.algorithm case SHA1 => 1 case SHA256 => 2 case SHA512 => 3)
    && c.touch == (r.properties % 2 == 1)
    && c.period == (if r.kind == TOTP then ParseId(r.name, true).period else 0)
    && c.issuer == ParseId(r.name, true).issuer && c.account == ParseId(r.name, true).account
    && c.code == "" && c.validUntil == 0 && c.digits == 6
  }

  /** Every element is told, in order. */
  ghost predicate AllToldElements(cs: seq<Credential>, rs: seq<ListRecord>) {
    |cs| == |rs| && forall k :: 0 <= k < |rs| ==> TellsElement(cs[k], rs[k])
  }

  lemma SamePartsEitherWay(name: bytes)
    ensures ParseId(name, true).issuer == ParseId(name, false).issuer
    ensures ParseId(name, true).account == ParseId(name, false).account
  {
  }

  lemma ElementTells(r: ListRecord)
    requires |r.name| <= 253
    ensures var cs := ElementOf(ListEntries([r])[0]);
            if r.name == [] then cs == [] else |cs| == 1 && TellsElement(cs[0], r)
  {
    hide ParseId;
    SamePartsEitherWay(r.name);
    var value := [TypeByte(r)] + r.name + [r.properties];
    assert value[1..|value| - 1] == r.name;
  }

  /** Any type byte between 20 and 2F means TOTP, any other HOTP; an element of fewer than three bytes is none. */
  lemma AnyTypeByte(value: bytes)
    ensures |value| < 3 <==> ListElement(value) == None
    ensures |value| >= 3 ==>
              var c := ListElement(value).value;
              c.isTotp == (0x20 <= value[0] <= 0x2F) && c.kind == (if c.isTotp then TOTP else HOTP)
  {
    hide ParseId;
    if |value| >= 3 {
      assert value[0] / 16 == 2 <==> 0x20 <= value[0] <= 0x2F;
    }
  }

  /** The parser gets back exactly the listed credentials, in order, if and only if each has a name. */
  lemma ListV1InvertsEncode(rs: seq<ListRecord>)
    requires AllEncodable(rs)
    ensures AllToldElements(ListV1(Tlv.Entries(Tlv.Encode(ListEntries(rs)))), rs) <==>
              forall k :: 0 <= k < |rs| ==> rs[k].name != []
  {
    hide AllToldElements, ListEntries;
    Tlv.NoTail(ListEntries(rs));
    ListV1Tells(rs);
  }

  lemma {:induction false} ListV1Tells(rs: seq<ListRecord>)
    requires AllEncodable(rs)
    ensures var cs := ListV1(ListEntries(rs));
            |cs| <= |rs| && (AllToldElements(cs, rs) <==> forall k :: 0 <= k < |rs| ==> rs[k].name != [])
  {
    hide ElementOf, TellsElement;
    if rs != [] {
      ElementTells(rs[0]);
      ListV1Tells(rs[1..]);
      var es := ListEntries(rs);
      assert es[1..] == ListEntries(rs[1..]) && es[0] == ListEntries([rs[0]])[0];
      var first, rest := ElementOf(es[0]), ListV1(es[1..]);
      assert ListV1(es) == first + rest;
      if rs[0].name != [] {
        ToldCons(first[0], rest, rs);
        assert first == [first[0]];
      }
    }
  }

  lemma ToldCons(c: Credential, cs: seq<Credential>, rs: seq<ListRecord>)
    requires rs != [] && TellsElement(c, rs[0])
    ensures AllToldElements([c] + cs, rs) <==> AllToldElements(cs, rs[1..])
  {
    hide TellsElement;
    var all := [c] + cs;
    if AllToldElements(all, rs) {
      forall k | 0 <= k < |rs[1..]| ensures TellsElement(cs[k], rs[1..][k]) {
        assert TellsElement(all[k + 1], rs[k + 1]);
      }
    }
    if AllToldElements(cs, rs[1..]) {
      forall k | 0 <= k < |rs| ensures TellsElement(all[k], rs[k]) {
        assert k > 0 ==> TellsElement(cs[k - 1], rs[1..][k - 1]);
      }
    }
  }

  lemma SuccessIs(response: bytes)
    ensures StatusWord(response) == SW_SUCCESS <==> |response| >= 2 && response[|response| - 2..] == [0x90, 0x00]
  {
    if |response| >= 2 {
      var two := response[|response| - 2..];
      assert two[..1][..0] == [] && two[..1] == [two[0]];
      assert BigEndian(two[..1]) == two[0];
    }
  }

  /** Only an answer that ends in 90 00 is looked at, up to there; any other lists nothing and holds no code. */
  lemma OnlySuccessIsRead(response: bytes, clock: nat -> nat)
    ensures var n := |response|;
            if n >= 2 && response[n - 2..] == [0x90, 0x00] then
              && AllCalculated(response, clock) == Listed(Tlv.Entries(response[..n - 2]), clock, 0)
              && AllListed(response) == ListV1(Tlv.Entries(response[..n - 2]))
              && CodeIn(response) == FirstCode(Tlv.Entries(response[..n - 2]))
            else AllCalculated(response, clock) == Some([]) && AllListed(response) == [] && CodeIn(response) == Some("")
  {
    hide Listed, ListV1, FirstCode, Tlv.Entries, StatusWord;
    SuccessIs(response);
  }
}
