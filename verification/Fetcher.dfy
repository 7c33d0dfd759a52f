/**
 Fetching extended device information: other applets are selected one after
 the other, and the OATH applet is to be selected again in the end. The card
 may answer each command in any way, depending on all that was sent before.
 */
module Fetcher {
  import opened Bytes
  import Tlv

  /** The answer to the last command of everything sent so far; empty if there was none. */
  type Card = seq<bytes> -> bytes

  datatype Info = Info(serial: nat, firmware: bytes, formFactor: nat)

  datatype Outcome = Outcome(ok: bool, info: Info, trace: seq<bytes>)

  const SELECT: bytes := [0x00, 0xA4, 0x04, 0x00]
  const SELECT_OATH: bytes := SELECT + [0x07, 0xA0, 0x00, 0x00, 0x05, 0x27, 0x21, 0x01, 0x00]
  const SELECT_MANAGEMENT: bytes := SELECT + [0x08, 0xA0, 0x00, 0x00, 0x05, 0x27, 0x20, 0x01, 0x01]
  /** The two identifiers are the same in the source. */
  const SELECT_OTP: bytes := SELECT_MANAGEMENT
  const SELECT_PIV: bytes := SELECT + [0x09, 0xA0, 0x00, 0x00, 0x03, 0x08, 0x00, 0x00, 0x10, 0x00]
  const GET_DEVICE_INFO: bytes := [0x00, 0x01, 0x13, 0x00]
  const OTP_GET_SERIAL: bytes := [0x00, 0x01, 0x10, 0x00, 0x00]
  const PIV_GET_SERIAL: bytes := [0x00, 0xF8, 0x00, 0x00]

  const NO_VERSION: bytes := [0, 0, 0]
  const NEO_VERSION: bytes := [3, 4, 0]
  const USB_A_KEYCHAIN := 1

  const NOTHING := Info(0, NO_VERSION, 0)

  // ---------------------------------------------------------------------------
  // Reading answers
  // ---------------------------------------------------------------------------

  predicate Ok(response: bytes) {
    |response| >= 2 && StatusWord(response) == SW_SUCCESS
  }

  /** OTP and PIV: four bytes in front. */
  function SerialOf(response: bytes): Option<nat> {
    if |response| < 6 || !Ok(response) then None else Some(BigEndian(response[..4]))
  }

  const TAG_SERIAL: byte := 0x02
  const TAG_FORM_FACTOR: byte := 0x04
  const TAG_FIRMWARE_VERSION: byte := 0x05

  /** The TLV data behind the length byte. */
  function DeviceInfoData(response: bytes): bytes
    requires |response| >= 2
  {
    if |response| == 2 then response[1..] else response[1..|response| - 2]
  }

  /** Each field is that of the last entry with its tag, if that entry has a fitting length. */
  function DeviceInfoOf(es: seq<Tlv.Entry>): Info {
    var serial := Tlv.LastValue(es, TAG_SERIAL, None).GetOr([]);
    var firmware := Tlv.LastValue(es, TAG_FIRMWARE_VERSION, None).GetOr([]);
    var formFactor := Tlv.LastValue(es, TAG_FORM_FACTOR, None).GetOr([]);
    Info(if |serial| == 4 then BigEndian(serial) else 0,
         if |firmware| >= 3 then firmware[..3] else NO_VERSION,
         if |formFactor| == 1 then formFactor[0] else 0)
  }

  function DeviceInfo(response: bytes): Option<Info> {
    if !Ok(response) then None
    else
      var es := Tlv.UpToStatus(Tlv.Entries(DeviceInfoData(response)));
      if es == [] then None else Some(DeviceInfoOf(es))
  }

  lemma TableIsEmpty(es: seq<Tlv.Entry>)
    ensures Tlv.Table(es) == map[] <==> es == []
  {
    if es != [] {
      assert es[|es| - 1].tag in Tlv.Table(es);
    }
  }

  method ParseDeviceInfoResponse(response: bytes) returns (info: Option<Info>)
    ensures info == DeviceInfo(response)
  {
    if |response| < 2 || StatusWord(response) != SW_SUCCESS {
      return None;
    }
    var data := DeviceInfoData(response);
    var table := Tlv.ParseTlv(data);
    ghost var es := Tlv.UpToStatus(Tlv.Entries(data));
    TableIsEmpty(es);
    if table == map[] {
      return None;
    }
    Tlv.TableIsLastValue(es, TAG_SERIAL);
    Tlv.TableIsLastValue(es, TAG_FIRMWARE_VERSION);
    Tlv.TableIsLastValue(es, TAG_FORM_FACTOR);
    var out := NOTHING;
    if TAG_SERIAL in table {
      var serial := table[TAG_SERIAL];
      if |serial| == 4 {
        BigEndianFour(serial);
        out := out.(serial := Word32(serial[0], serial[1], serial[2], serial[3]));
      }
    }
    if TAG_FIRMWARE_VERSION in table {
      var firmware := table[TAG_FIRMWARE_VERSION];
      if |firmware| >= 3 {
        out := out.(firmware := firmware[..3]);
      }
    }
    if TAG_FORM_FACTOR in table {
      var formFactor := table[TAG_FORM_FACTOR];
      if |formFactor| == 1 {
        out := out.(formFactor := formFactor[0]);
      }
    }
    info := Some(out);
  }

  /** The firmware a SELECT of OATH reports, if it reports a device at all. */
  function FirmwareOf(response: bytes): Option<bytes> {
    if !Ok(response) then None
    else
      var info := Tlv.SelectSpec(Tlv.Entries(Payload(response)), Tlv.SelectInfo("", [], NO_VERSION, false, 0));
      if info.deviceId == "" then None else Some(info.version)
  }

  // ---------------------------------------------------------------------------
  // The strategies
  // ---------------------------------------------------------------------------

  function WithSerial(info: Info, serial: nat): Info {
    if serial != 0 then info.(serial := serial) else info
  }

  function Management(card: Card, info: Info, trace: seq<bytes>): Outcome {
    var t1 := trace + [SELECT_MANAGEMENT];
    if !Ok(card(t1)) then Outcome(false, info, t1)
    else
      var t2 := t1 + [GET_DEVICE_INFO];
      match DeviceInfo(card(t2))
      case None => Outcome(false, info, t2)
      case Some(found) =>
        var t3 := t2 + [SELECT_OATH];
        Outcome(Ok(card(t3)), found.(serial := WithSerial(info, found.serial).serial), t3)
  }

  /** Select OATH twice: to restore it and to read its firmware. */
  function Restored(card: Card, info: Info, trace: seq<bytes>): Outcome {
    var t1 := trace + [SELECT_OATH];
    if !Ok(card(t1)) then Outcome(false, info, t1)
    else
      var t2 := t1 + [SELECT_OATH];
      match FirmwareOf(card(t2))
      case None => Outcome(false, info, t2)
      case Some(firmware) => Outcome(true, info.(firmware := firmware, formFactor := 0), t2)
  }

  function Otp(card: Card, neo: bool, info: Info, trace: seq<bytes>): Outcome {
    var t1 := trace + [SELECT_OTP];
    if !Ok(card(t1)) then Outcome(false, info, t1)
    else
      var t2 := t1 + [OTP_GET_SERIAL];
      match SerialOf(card(t2))
      case None => Outcome(false, info, t2 + [SELECT_OATH])
      case Some(serial) =>
        var info' := WithSerial(info, serial);
        if neo then Outcome(true, info'.(firmware := NEO_VERSION, formFactor := USB_A_KEYCHAIN), t2)
        else Restored(card, info', t2)
  }

  function Piv(card: Card, info: Info, trace: seq<bytes>): Outcome {
    var t1 := trace + [SELECT_PIV];
    if !Ok(card(t1)) then Outcome(false, info, t1)
    else
      var t2 := t1 + [PIV_GET_SERIAL];
      match SerialOf(card(t2))
      case None => Outcome(false, info, t2 + [SELECT_OATH])
      case Some(serial) => Restored(card, WithSerial(info, serial), t2)
  }

  /** The status word is taken off before a parser that looks for one. */
  function OathOnly(card: Card, info: Info, trace: seq<bytes>): Outcome {
    var t1 := trace + [SELECT_OATH];
    if !Ok(card(t1)) then Outcome(false, info, t1)
    else
      match FirmwareOf(Payload(card(t1)))
      case None => Outcome(false, info, t1)
      case Some(firmware) => Outcome(true, Info(0, firmware, 0), t1)
  }

  /** What the session knew before: the serial number and firmware of its own SELECT. */
  datatype Known = Known(serial: nat, firmware: bytes)

  function Fetched(card: Card, known: Known, neo: bool, trace: seq<bytes>): Outcome {
    var start := NOTHING.(serial := known.serial);
    var management := Management(card, start, trace);
    if management.ok then management
    else if known.serial != 0 then
      var t := management.trace + [SELECT_OATH];
      Outcome(Ok(card(t)), management.info.(firmware := known.firmware, formFactor := 0), t)
    else
      var otp := Otp(card, neo, management.info, management.trace);
      if otp.ok then otp
      else
        var piv := Piv(card, otp.info, otp.trace);
        if piv.ok then piv else OathOnly(card, piv.info, piv.trace)
  }

  class ExtendedDeviceInfoFetcher {
    const card: Card
    const known: Known
    var trace: seq<bytes>
    var info: Info

    constructor (card: Card, known: Known)
      ensures this.card == card && this.known == known && trace == [] && info == NOTHING
    {
      this.card, this.known := card, known;
      trace, info := [], NOTHING;
    }

    function Now(ok: bool): Outcome
      reads this
    {
      Outcome(ok, info, trace)
    }

    method Send(apdu: bytes) returns (response: bytes)
      modifies this`trace
      ensures trace == old(trace) + [apdu] && response == card(trace)
    {
      trace := trace + [apdu];
      response := card(trace);
    }

    method ReselectOath() returns (ok: bool)
      modifies this`trace
      ensures trace == old(trace) + [SELECT_OATH] && ok == Ok(card(trace))
    {
      var response := Send(SELECT_OATH);
      ok := Ok(response);
    }

    method TryManagementApi() returns (ok: bool)
      modifies this
      ensures Now(ok) == Management(card, old(info), old(trace))
    {
      var selected := Send(SELECT_MANAGEMENT);
      if !Ok(selected) {
        return false;
      }
      var response := Send(GET_DEVICE_INFO);
      if response == [] {
        return false;
      }
      var found := ParseDeviceInfoResponse(response);
      if found == None {
        return false;
      }
      if found.value.serial != 0 {
        info := info.(serial := found.value.serial);
      }
      info := info.(firmware := found.value.firmware, formFactor := found.value.formFactor);
      ok := ReselectOath();
    }

    method UpdateFirmwareFromOathSelect() returns (ok: bool)
      modifies this
      ensures trace == old(trace) + [SELECT_OATH] && ok == FirmwareOf(card(trace)).Some?
      ensures info == if ok then old(info).(firmware := FirmwareOf(card(trace)).value) else old(info)
    {
      var response := Send(SELECT_OATH);
      var parsed, select := Tlv.ParseSelectResponse(response, Tlv.SelectInfo("", [], NO_VERSION, false, 0));
      if !parsed {
        return false;
      }
      info := info.(firmware := select.version);
      ok := true;
    }

    method TryOtpApi(neo: bool) returns (ok: bool)
      modifies this
      ensures Now(ok) == Otp(card, neo, old(info), old(trace))
    {
      var selected := Send(SELECT_OTP);
      if !Ok(selected) {
        return false;
      }
      var response := Send(OTP_GET_SERIAL);
      var serial := SerialOf(response);
      if serial == None {
        var _ := ReselectOath();
        return false;
      }
      if serial.value != 0 {
        info := info.(serial := serial.value);
      }
      if neo {
        info := info.(formFactor := USB_A_KEYCHAIN, firmware := NEO_VERSION);
        return true;
      }
      ok := ReselectOath();
      if !ok {
        return;
      }
      ok := UpdateFirmwareFromOathSelect();
      if ok {
        info := info.(formFactor := 0);
      }
    }

    method TryPivApi() returns (ok: bool)
      modifies this
      ensures Now(ok) == Piv(card, old(info), old(trace))
    {
      var selected := Send(SELECT_PIV);
      if !Ok(selected) {
        return false;
      }
      var response := Send(PIV_GET_SERIAL);
      var serial := SerialOf(response);
      if serial == None {
        var _ := ReselectOath();
        return false;
      }
      if serial.value != 0 {
        info := info.(serial := serial.value);
      }
      ok := ReselectOath();
      if !ok {
        return;
      }
      ok := UpdateFirmwareFromOathSelect();
      if ok {
        info := info.(formFactor := 0);
      }
    }

    method TryOathSelectOnly() returns (ok: bool)
      modifies this
      ensures Now(ok) == OathOnly(card, old(info), old(trace))
    {
      var response := Send(SELECT_OATH);
      if !Ok(response) {
        return false;
      }
      var parsed, select := Tlv.ParseSelectResponse(Payload(response), Tlv.SelectInfo("", [], NO_VERSION, false, 0));
      if !parsed {
        return false;
      }
      info := Info(0, select.version, 0);
      ok := true;
    }

    method Fetch(neo: bool) returns (ok: bool)
      modifies this
      ensures Now(ok) == Fetched(card, known, neo, old(trace))
    {
      info := NOTHING;
      if known.serial != 0 {
        info := info.(serial := known.serial);
      }
      ok := TryManagementApi();
      if ok {
        return;
      }
      if known.serial != 0 {
        ok := ReselectOath();
        info := info.(firmware := known.firmware, formFactor := 0);
        return;
      }
      ok := TryOtpApi(neo);
      if ok {
        return;
      }
      ok := TryPivApi();
      if ok {
        return;
      }
      ok := TryOathSelectOnly();
    }
  }

  // ---------------------------------------------------------------------------
  // What is reported
  // ---------------------------------------------------------------------------

  /** The commands as the card's applets know them. */
  datatype Command = SelectOath | SelectManagement | DeviceInfoQuery | OtpSerialQuery | SelectPiv | PivSerialQuery

  function Wire(c: Command): bytes {
    match c
    case SelectOath => [0x00, 0xA4, 0x04, 0x00, 0x07, 0xA0, 0x00, 0x00, 0x05, 0x27, 0x21, 0x01, 0x00]
    case SelectManagement => [0x00, 0xA4, 0x04, 0x00, 0x08, 0xA0, 0x00, 0x00, 0x05, 0x27, 0x20, 0x01, 0x01]
    case DeviceInfoQuery => [0x00, 0x01, 0x13, 0x00]
    case OtpSerialQuery => [0x00, 0x01, 0x10, 0x00, 0x00]
    case SelectPiv => [0x00, 0xA4, 0x04, 0x00, 0x09, 0xA0, 0x00, 0x00, 0x03, 0x08, 0x00, 0x00, 0x10, 0x00]
    case PivSerialQuery => [0x00, 0xF8, 0x00, 0x00]
  }

  lemma WireIs()
    ensures SELECT_OATH == Wire(SelectOath) && SELECT_MANAGEMENT == SELECT_OTP == Wire(SelectManagement)
    ensures SELECT_PIV == Wire(SelectPiv) && GET_DEVICE_INFO == Wire(DeviceInfoQuery)
    ensures OTP_GET_SERIAL == Wire(OtpSerialQuery) && PIV_GET_SERIAL == Wire(PivSerialQuery)
  {
  }

  /** The entries give the tag one value, or do not hold it. */
  ghost predicate Says(es: seq<Tlv.Entry>, tag: byte, value: Option<bytes>) {
    match value
    case None => forall e <- es :: e.tag != tag
    case Some(v) => Tlv.Entry(tag, v) in es && forall e <- es :: e.tag == tag ==> e.value == v
  }

  lemma SaysIsLast(es: seq<Tlv.Entry>, tag: byte, value: Option<bytes>)
    requires Says(es, tag, value)
    ensures Tlv.LastValue(es, tag, None) == value
  {
    var v := Tlv.LastValue(es, tag, None);
    if v.Some? {
      Tlv.LastValueIsLast(es, tag, None, v.value);
    } else if value.Some? {
      var i :| 0 <= i < |es| && es[i] == Tlv.Entry(tag, value.value);
      MatchIsFound(es, tag, i);
    }
  }

  lemma {:induction false} MatchIsFound(es: seq<Tlv.Entry>, tag: byte, i: nat)
    requires i < |es| && es[i].tag == tag
    ensures Tlv.LastValue(es, tag, None).Some?
  {
    if i < |es| - 1 {
      MatchIsFound(es[..|es| - 1], tag, i);
    }
  }

  /**
   From what the management applet encodes, among whatever other entries but a
   90 00, come the serial number (tag 02, if of four bytes), the first three
   bytes of the firmware version (tag 05) and the form factor (tag 04, if of
   one byte); what is not told is zero, and no entries at all is no answer.
   */
  lemma DeviceInfoReadsBack(length: byte, es: seq<Tlv.Entry>, serial: Option<bytes>, firmware: Option<bytes>,
                            formFactor: Option<bytes>)
    requires Tlv.Encodable(es) && Tlv.NoStatus(es)
    requires Says(es, 0x02, serial) && Says(es, 0x05, firmware) && Says(es, 0x04, formFactor)
    ensures DeviceInfo([length] + Tlv.Encode(es) + [0x90, 0x00]) ==
            if es == [] then None
            else
              Some(Info(if serial.Some? && |serial.value| == 4 then BigEndian(serial.value) else 0,
                        if firmware.Some? && |firmware.value| >= 3 then firmware.value[..3] else [0, 0, 0],
                        if formFactor.Some? && |formFactor.value| == 1 then formFactor.value[0] else 0))
  {
    hide Ok, Says, BigEndian, Tlv.Encode, Tlv.Entries, Tlv.UpToStatus, Tlv.LastValue;
    var data := Tlv.Encode(es);
    var response := [length] + data + [0x90, 0x00];
    SuccessIsOk([length] + data);
    assert DeviceInfoData(response) == data;
    Tlv.NoTail(es);
    Tlv.UpToStatusIs(es, []);
    assert es + [] == es;
    SaysIsLast(es, 0x02, serial);
    SaysIsLast(es, 0x05, firmware);
    SaysIsLast(es, 0x04, formFactor);
  }

  /** An answer to a query for a serial number tells its first four bytes, if it ends in 90 00 and has four more bytes. */
  lemma SerialReadsBack(response: bytes)
    ensures SerialOf(response) ==
            if |response| >= 6 && response[|response| - 2..] == [0x90, 0x00] then Some(BigEndian(response[..4])) else None
  {
    hide BigEndian;
    OkIs(response);
  }

  lemma OkIs(response: bytes)
    ensures Ok(response) <==> |response| >= 2 && response[|response| - 2..] == [0x90, 0x00]
  {
    if |response| >= 2 {
      var two := response[|response| - 2..];
      assert two == [two[0], two[1]];
      Tlv.TwoBytes(two[0], two[1]);
    }
  }

  /** The firmware version is the one the card's answer to SELECT holds, if that names a device. */
  lemma FirmwareReadsBack(version: bytes, salt: bytes, challenge: Option<bytes>, serial: Option<bytes>)
    requires Tlv.Encodable(Tlv.SelectEntries(version, salt, challenge, serial)) && salt != []
    ensures FirmwareOf(Tlv.Encode(Tlv.SelectEntries(version, salt, challenge, serial)) + [0x90, 0x00])
            == Some(if |version| == 3 then version else [0, 0, 0])
  {
    hide Ok, Tlv.Encode, Tlv.Entries, Tlv.SelectSpec;
    var data := Tlv.Encode(Tlv.SelectEntries(version, salt, challenge, serial));
    SuccessIsOk(data);
    Tlv.SelectReadsBack(version, salt, challenge, serial, Tlv.SelectInfo("", [], NO_VERSION, false, 0));
  }

  /**
   A management applet that answers is all it takes: its device information is
   reported, with the serial number known before if it has none itself.
   */
  lemma ManagementIsEnough(card: Card, known: Known, neo: bool, trace: seq<bytes>, found: Info)
    requires var selected := trace + [Wire(SelectManagement)];
             var queried := selected + [Wire(DeviceInfoQuery)];
             Ok(card(selected)) && DeviceInfo(card(queried)) == Some(found) && Ok(card(queried + [Wire(SelectOath)]))
    ensures Fetched(card, known, neo, trace) ==
            Outcome(true, Info(if found.serial != 0 then found.serial else known.serial, found.firmware, found.formFactor),
                    trace + [Wire(SelectManagement)] + [Wire(DeviceInfoQuery)] + [Wire(SelectOath)])
  {
    hide Ok, DeviceInfo, Otp, Piv, OathOnly, Wire, SELECT_OATH, SELECT_MANAGEMENT, SELECT_OTP, SELECT_PIV, GET_DEVICE_INFO;
    WireIs();
  }

  /** What the management applet told, if it was there. */
  function ManagementTold(card: Card, trace: seq<bytes>): Option<Info> {
    var selected := trace + [Wire(SelectManagement)];
    if Ok(card(selected)) then DeviceInfo(card(selected + [Wire(DeviceInfoQuery)])) else None
  }

  /** What has been sent when the management applet is done. */
  function PastManagement(card: Card, trace: seq<bytes>): seq<bytes> {
    var selected := trace + [Wire(SelectManagement)];
    if !Ok(card(selected)) then selected
    else if ManagementTold(card, trace).None? then selected + [Wire(DeviceInfoQuery)]
    else selected + [Wire(DeviceInfoQuery)] + [Wire(SelectOath)]
  }

  /** It told nothing, or OATH could not be selected again after it. */
  predicate NoManagement(card: Card, trace: seq<bytes>) {
    ManagementTold(card, trace).Some? ==> !Ok(card(PastManagement(card, trace)))
  }

  function FirstOf(serial: nat, before: nat): nat {
    if serial != 0 then serial else before
  }

  /** The serial number known after that: the one it told, even if it was in vain, or the one before. */
  function SerialSoFar(card: Card, known: Known, trace: seq<bytes>): nat {
    match ManagementTold(card, trace)
    case Some(found) => FirstOf(found.serial, known.serial)
    case None => known.serial
  }

  /** Then, if one was known from SELECT, it is reported with the firmware of that SELECT. */
  lemma KnownSerialSuffices(card: Card, known: Known, neo: bool, trace: seq<bytes>)
    requires known.serial != 0 && NoManagement(card, trace)
    ensures var t := PastManagement(card, trace) + [Wire(SelectOath)];
            Fetched(card, known, neo, trace)
            == Outcome(Ok(card(t)), Info(SerialSoFar(card, known, trace), known.firmware, 0), t)
  {
    hide Ok, DeviceInfo, Otp, Piv, OathOnly, Wire, SELECT_OATH, SELECT_MANAGEMENT, SELECT_OTP, SELECT_PIV, GET_DEVICE_INFO;
    WireIs();
  }

  lemma ManagementFails(card: Card, known: Known, trace: seq<bytes>)
    requires NoManagement(card, trace)
    ensures var o := Management(card, NOTHING.(serial := known.serial), trace);
            !o.ok && o.trace == PastManagement(card, trace) && o.info.serial == SerialSoFar(card, known, trace)
  {
    hide Ok, DeviceInfo, Wire, SELECT_OATH, SELECT_MANAGEMENT, GET_DEVICE_INFO;
    WireIs();
  }

  /** An applet that tells serial numbers: how it is selected and asked. */
  datatype Teller = Teller(select: bytes, query: bytes)

  function OtpTeller(): Teller {
    Teller(Wire(SelectManagement), Wire(OtpSerialQuery))
  }

  function PivTeller(): Teller {
    Teller(Wire(SelectPiv), Wire(PivSerialQuery))
  }

  /** The serial number the applet tells after what was sent before. */
  function SerialTold(card: Card, a: Teller, t: seq<bytes>): Option<nat> {
    if Ok(card(t + [a.select])) then SerialOf(card(t + [a.select] + [a.query])) else None
  }

  /** What has been sent when the applet and the two SELECTs of OATH after it are done. */
  function PastTeller(card: Card, a: Teller, t: seq<bytes>): seq<bytes> {
    var again := t + [a.select] + [a.query] + [Wire(SelectOath)];
    if !Ok(card(t + [a.select])) then t + [a.select]
    else if SerialTold(card, a, t).None? || !Ok(card(again)) then again
    else again + [Wire(SelectOath)]
  }

  /** The firmware that the second of these SELECTs told, if all went well. */
  function FirmwareTold(card: Card, a: Teller, t: seq<bytes>): Option<bytes> {
    var again := t + [a.select] + [a.query] + [Wire(SelectOath)];
    if SerialTold(card, a, t).Some? && Ok(card(again)) then FirmwareOf(card(again + [Wire(SelectOath)])) else None
  }

  lemma OtpOutcome(card: Card, neo: bool, info: Info, t: seq<bytes>)
    ensures var o, told := Otp(card, neo, info, t), SerialTold(card, OtpTeller(), t);
            var serial := FirstOf(told.GetOr(0), info.serial);
            && o.info.serial == serial
            && (neo && told.Some? ==>
                  o == Outcome(true, Info(serial, [3, 4, 0], 1),
                               t + [Wire(SelectManagement)] + [Wire(OtpSerialQuery)]))
            && (!(neo && told.Some?) ==>
                  && o.trace == PastTeller(card, OtpTeller(), t)
                  && match FirmwareTold(card, OtpTeller(), t)
                     case Some(firmware) => o.ok && o.info == Info(serial, firmware, 0)
                     case None => !o.ok)
  {
    hide Ok, FirmwareOf, SerialOf, Wire, SELECT_OATH, SELECT_MANAGEMENT, SELECT_OTP, OTP_GET_SERIAL;
    WireIs();
  }

  lemma PivOutcome(card: Card, info: Info, t: seq<bytes>)
    ensures var o := Piv(card, info, t);
            var serial := FirstOf(SerialTold(card, PivTeller(), t).GetOr(0), info.serial);
            && o.trace == PastTeller(card, PivTeller(), t)
            && match FirmwareTold(card, PivTeller(), t)
               case Some(firmware) => o.ok && o.info == Info(serial, firmware, 0)
               case None => !o.ok
  {
    hide Ok, FirmwareOf, SerialOf, Wire, SELECT_OATH, SELECT_PIV, PIV_GET_SERIAL;
    WireIs();
  }

  /**
   Otherwise the OTP applet's serial number is reported, or one that is known by
   then if it is zero: with a NEO reader name as firmware 3.4.0 and form factor
   1, else with the firmware that a second SELECT of OATH tells.
   */
  lemma OtpIsReported(card: Card, known: Known, neo: bool, trace: seq<bytes>)
    requires var t := PastManagement(card, trace);
             && known.serial == 0 && NoManagement(card, trace) && SerialTold(card, OtpTeller(), t).Some?
             && (neo || FirmwareTold(card, OtpTeller(), t).Some?)
    ensures var t := PastManagement(card, trace);
            var serial := FirstOf(SerialTold(card, OtpTeller(), t).value, SerialSoFar(card, known, trace));
            var queried := t + [Wire(SelectManagement)] + [Wire(OtpSerialQuery)];
            Fetched(card, known, neo, trace) ==
            if neo then Outcome(true, Info(serial, [3, 4, 0], 1), queried)
            else Outcome(true, Info(serial, FirmwareTold(card, OtpTeller(), t).value, 0),
                         queried + [Wire(SelectOath)] + [Wire(SelectOath)])
  {
    hide Ok, DeviceInfo, Management, Otp, Piv, OathOnly, FirmwareOf, SerialOf, Wire, NoManagement, PastManagement,
      SerialSoFar;
    ManagementFails(card, known, trace);
    OtpOutcome(card, neo, Management(card, NOTHING.(serial := known.serial), trace).info, PastManagement(card, trace));
  }

  /** Neither the OTP applet told a serial number that could be used, nor the PIV applet after it. */
  predicate NoOtp(card: Card, neo: bool, t: seq<bytes>) {
    if neo then SerialTold(card, OtpTeller(), t).None? else FirmwareTold(card, OtpTeller(), t).None?
  }

  /** After that the PIV applet's, or the last one known by then if it is zero, with the firmware of a SELECT. */
  lemma PivIsReported(card: Card, known: Known, neo: bool, trace: seq<bytes>)
    requires var t := PastManagement(card, trace);
             && known.serial == 0 && NoManagement(card, trace) && NoOtp(card, neo, t)
             && FirmwareTold(card, PivTeller(), PastTeller(card, OtpTeller(), t)).Some?
    ensures var t := PastManagement(card, trace);
            var u := PastTeller(card, OtpTeller(), t);
            var before := FirstOf(SerialTold(card, OtpTeller(), t).GetOr(0), SerialSoFar(card, known, trace));
            var serial := FirstOf(SerialTold(card, PivTeller(), u).GetOr(0), before);
            Fetched(card, known, neo, trace) ==
            Outcome(true, Info(serial, FirmwareTold(card, PivTeller(), u).value, 0), PastTeller(card, PivTeller(), u))
  {
    hide Ok, DeviceInfo, Management, Otp, Piv, OathOnly, FirmwareOf, SerialOf, Wire, NoManagement, PastManagement,
      SerialSoFar, SerialTold, PastTeller;
    ManagementFails(card, known, trace);
    var management := Management(card, NOTHING.(serial := known.serial), trace);
    OtpFails(card, neo, management.info, management.trace);
    var otp := Otp(card, neo, management.info, management.trace);
    PivOutcome(card, otp.info, otp.trace);
  }

  lemma OtpFails(card: Card, neo: bool, info: Info, t: seq<bytes>)
    requires NoOtp(card, neo, t)
    ensures var o := Otp(card, neo, info, t);
            && !o.ok && o.trace == PastTeller(card, OtpTeller(), t)
            && o.info.serial == FirstOf(SerialTold(card, OtpTeller(), t).GetOr(0), info.serial)
  {
    hide Ok, Otp, FirmwareOf, SerialOf, Wire;
    OtpOutcome(card, neo, info, t);
  }

  /** If none of the three is of use, one more SELECT of OATH decides; no serial number is reported then. */
  lemma LastResortIsTaken(card: Card, known: Known, neo: bool, trace: seq<bytes>)
    requires var t := PastManagement(card, trace);
             && known.serial == 0 && NoManagement(card, trace) && NoOtp(card, neo, t)
             && FirmwareTold(card, PivTeller(), PastTeller(card, OtpTeller(), t)).None?
    ensures var o := Fetched(card, known, neo, trace);
            var u := PastTeller(card, OtpTeller(), PastManagement(card, trace));
            var t := PastTeller(card, PivTeller(), u) + [Wire(SelectOath)];
            && o.trace == t
            && (o.ok <==> Ok(card(t)) && FirmwareOf(Payload(card(t))).Some?)
            && (o.ok ==> o.info == Info(0, FirmwareOf(Payload(card(t))).value, 0))
  {
    hide Ok, DeviceInfo, Management, Otp, Piv, FirmwareOf, SerialOf, Wire, NoManagement, PastManagement,
      SerialSoFar, SerialTold, PastTeller, SELECT_OATH;
    ManagementFails(card, known, trace);
    var management := Management(card, NOTHING.(serial := known.serial), trace);
    OtpFails(card, neo, management.info, management.trace);
    var otp := Otp(card, neo, management.info, management.trace);
    PivOutcome(card, otp.info, otp.trace);
    WireIs();
    OkHasTwoBytes();
  }

  lemma OkHasTwoBytes()
    ensures forall response :: Ok(response) ==> |response| >= 2
  {
  }

  // ---------------------------------------------------------------------------
  // What is left selected
  // ---------------------------------------------------------------------------

  predicate IsSelect(apdu: bytes) {
    |apdu| >= 4 && apdu[..4] == SELECT
  }

  /** The last SELECT the card accepted. */
  function LastAccepted(card: Card, trace: seq<bytes>): Option<bytes> {
    if trace == [] then None
    else
      var apdu := trace[|trace| - 1];
      if IsSelect(apdu) && Ok(card(trace)) then Some(apdu) else LastAccepted(card, trace[..|trace| - 1])
  }

  lemma AcceptedSnoc(card: Card, trace: seq<bytes>, apdu: bytes)
    ensures LastAccepted(card, trace + [apdu]) ==
            if IsSelect(apdu) && Ok(card(trace + [apdu])) then Some(apdu) else LastAccepted(card, trace)
  {
  }

  lemma Selects()
    ensures IsSelect(SELECT_OATH) && IsSelect(SELECT_OTP) && !IsSelect(OTP_GET_SERIAL) && SELECT_OATH != SELECT_OTP
  {
    assert OTP_GET_SERIAL[..4][1] == 0x01 && SELECT[1] == 0xA4;
    assert SELECT_OATH[4] == 0x07 && SELECT_OTP[4] == 0x08;
  }

  /**
   The reader name says NEO, no serial number is known, the management applet
   is of no help, and the OTP applet is selected and tells a serial number.
   */
  predicate TrustsReaderName(card: Card, known: Known, neo: bool, trace: seq<bytes>) {
    var management := Management(card, NOTHING.(serial := known.serial), trace);
    var otp := management.trace + [SELECT_OTP];
    neo && known.serial == 0 && !management.ok && Ok(card(otp)) && SerialOf(card(otp + [OTP_GET_SERIAL])).Some?
  }

  lemma RestoredIsOath(card: Card, info: Info, trace: seq<bytes>)
    requires Restored(card, info, trace).ok
    ensures var t := Restored(card, info, trace).trace;
            LastAccepted(card, t) == Some(SELECT_OATH) && t[|t| - 1] == SELECT_OATH
  {
  }

  /**
   Whatever the card answers, a successful fetch leaves OATH selected last,
   except exactly when it trusted the reader name, which leaves the OTP applet
   selected.
   */
  lemma FetchRestoresOath(card: Card, known: Known, neo: bool, trace: seq<bytes>)
    requires Fetched(card, known, neo, trace).ok
    ensures LastAccepted(card, Fetched(card, known, neo, trace).trace) ==
            Some(if TrustsReaderName(card, known, neo, trace) then SELECT_OTP else SELECT_OATH)
  {
    hide LastAccepted, IsSelect, DeviceInfo, FirmwareOf, SerialOf;
    Selects();
    var management := Management(card, NOTHING.(serial := known.serial), trace);
    var t := Fetched(card, known, neo, trace).trace;
    if management.ok || known.serial != 0 {
      AcceptedSnoc(card, t[..|t| - 1], SELECT_OATH);
      assert t == t[..|t| - 1] + [SELECT_OATH];
    } else {
      OthersRestoreOath(card, known, neo, trace, management);
    }
  }

  lemma OthersRestoreOath(card: Card, known: Known, neo: bool, trace: seq<bytes>, management: Outcome)
    requires management == Management(card, NOTHING.(serial := known.serial), trace) && !management.ok
    requires known.serial == 0 && Fetched(card, known, neo, trace).ok
    ensures LastAccepted(card, Fetched(card, known, neo, trace).trace) ==
            Some(if TrustsReaderName(card, known, neo, trace) then SELECT_OTP else SELECT_OATH)
  {
    hide LastAccepted, IsSelect, DeviceInfo, FirmwareOf, SerialOf, Management;
    Selects();
    var otp := Otp(card, neo, management.info, management.trace);
    if otp.ok {
      OtpLeaves(card, neo, management.info, management.trace);
    } else {
      var piv := Piv(card, otp.info, otp.trace);
      if piv.ok {
        PivLeaves(card, otp.info, otp.trace);
      } else {
        AcceptedSnoc(card, piv.trace, SELECT_OATH);
      }
    }
  }

  lemma OtpLeaves(card: Card, neo: bool, info: Info, trace: seq<bytes>)
    requires Otp(card, neo, info, trace).ok
    ensures LastAccepted(card, Otp(card, neo, info, trace).trace) == Some(if neo then SELECT_OTP else SELECT_OATH)
  {
    hide LastAccepted, IsSelect, FirmwareOf, Restored;
    Selects();
    var t1 := trace + [SELECT_OTP];
    AcceptedSnoc(card, trace, SELECT_OTP);
    AcceptedSnoc(card, t1, OTP_GET_SERIAL);
    if !neo {
      RestoredIsOath(card, WithSerial(info, SerialOf(card(t1 + [OTP_GET_SERIAL])).value), t1 + [OTP_GET_SERIAL]);
    }
  }

  lemma PivLeaves(card: Card, info: Info, trace: seq<bytes>)
    requires Piv(card, info, trace).ok
    ensures LastAccepted(card, Piv(card, info, trace).trace) == Some(SELECT_OATH)
  {
  }

  /** A card without management applet whose OTP applet tells serial number 1, after so many commands. */
  function NeoCard(before: nat): Card {
    trace =>
      if |trace| == before + 2 then [0x90, 0x00]
      else if |trace| == before + 3 then [0x00, 0x00, 0x00, 0x01, 0x90, 0x00]
      else []
  }

  /** With a NEO reader name and no serial number known, that card is left with the OTP applet selected. */
  lemma NeoCardIsLeftOnOtp(known: Known, trace: seq<bytes>)
    requires known.serial == 0
    ensures var o := Fetched(NeoCard(|trace|), known, true, trace);
            o.ok && o.info.serial == 1 && LastAccepted(NeoCard(|trace|), o.trace) == Some(SELECT_OTP)
  {
    hide LastAccepted, Ok, SerialOf, DeviceInfo, Restored, Piv, OathOnly, SELECT_MANAGEMENT, OTP_GET_SERIAL;
    var card, start := NeoCard(|trace|), NOTHING.(serial := known.serial);
    var t1 := trace + [SELECT_MANAGEMENT];
    var t3 := t1 + [SELECT_OTP] + [OTP_GET_SERIAL];
    NeoAnswers();
    assert card(t1) == [] && card(t1 + [SELECT_OTP]) == [0x90, 0x00] && card(t3) == [0x00, 0x00, 0x00, 0x01, 0x90, 0x00];
    assert Management(card, start, trace) == Outcome(false, start, t1);
    assert Otp(card, true, start, t1).ok && Otp(card, true, start, t1).info.serial == 1;
    FetchRestoresOath(card, known, true, trace);
  }

  lemma NeoAnswers()
    ensures !Ok([]) && Ok([0x90, 0x00]) && SerialOf([0x00, 0x00, 0x00, 0x01, 0x90, 0x00]) == Some(1)
  {
    hide Ok, BigEndian;
    var serial: bytes, success: bytes := [0x00, 0x00, 0x00, 0x01], [0x90, 0x00];
    SuccessIsOk([]);
    SuccessIsOk(serial);
    EmptyFails();
    assert [] + success == success;
    assert serial + success == [0x00, 0x00, 0x00, 0x01, 0x90, 0x00];
    assert (serial + success)[..4] == serial;
    BigEndianFour(serial);
  }

  lemma EmptyFails()
    ensures !Ok([])
  {
  }

  lemma SuccessIsOk(data: bytes)
    ensures Ok(data + [0x90, 0x00]) && Payload(data + [0x90, 0x00]) == data
  {
    EndsWell(data);
  }

  /**
   Every card is left with OATH selected by every successful fetch if and only
   if the reader name does not say NEO or a serial number is known beforehand.
   */
  lemma EveryCardKeepsOath(known: Known, neo: bool, trace: seq<bytes>)
    ensures (forall card: Card :: Fetched(card, known, neo, trace).ok ==>
               LastAccepted(card, Fetched(card, known, neo, trace).trace) == Some(SELECT_OATH))
            <==> !neo || known.serial != 0
  {
    hide Fetched, LastAccepted;
    Selects();
    forall card: Card | Fetched(card, known, neo, trace).ok && (!neo || known.serial != 0)
      ensures LastAccepted(card, Fetched(card, known, neo, trace).trace) == Some(SELECT_OATH)
    {
      FetchRestoresOath(card, known, neo, trace);
    }
    if neo && known.serial == 0 {
      NeoCardIsLeftOnOtp(known, trace);
      assert Fetched(NeoCard(|trace|), known, neo, trace).ok;
    }
  }

  /** Nothing but these was sent since. */
  ghost predicate Extends(before: seq<bytes>, after: seq<bytes>) {
    before <= after
    && forall k :: |before| <= k < |after| ==>
         after[k] == SELECT_MANAGEMENT || after[k] == GET_DEVICE_INFO || after[k] == SELECT_OATH
  }

  /**
   A serial number known from SELECT is never replaced by zero, only by another
   that the card reports, and then neither OTP nor PIV is asked.
   */
  lemma KnownSerialIsKept(card: Card, known: Known, neo: bool, trace: seq<bytes>)
    requires known.serial != 0
    ensures var o := Fetched(card, known, neo, trace);
            && o.info.serial != 0
            && (o.info.serial != known.serial ==>
                  DeviceInfo(card(trace + [SELECT_MANAGEMENT] + [GET_DEVICE_INFO])).Some?
                  && o.info.serial == DeviceInfo(card(trace + [SELECT_MANAGEMENT] + [GET_DEVICE_INFO])).value.serial)
            && Extends(trace, o.trace)
  {
    hide DeviceInfo;
    var o := Fetched(card, known, neo, trace);
    assert Extends(trace, trace + [SELECT_MANAGEMENT]);
    assert Extends(trace, trace + [SELECT_MANAGEMENT] + [GET_DEVICE_INFO]);
    assert Extends(trace, trace + [SELECT_MANAGEMENT] + [GET_DEVICE_INFO] + [SELECT_OATH]);
    assert Extends(trace, o.trace);
  }

  /**
   The last resort looks for a status word it has just taken off. On the answer
   a card encodes it succeeds if and only if there is a challenge or a serial
   number whose last bytes read 90 00: they are taken for the status word, and
   the entry they are cut from is lost.
   */
  lemma LastResortNeedsTwoStatusWords(card: Card, info: Info, trace: seq<bytes>,
                                      version: bytes, salt: bytes, challenge: Option<bytes>, serial: Option<bytes>)
    requires |version| == 3 && 0 < |salt| < 256
    requires (challenge.Some? ==> |challenge.value| < 256) && (serial.Some? ==> |serial.value| == 4)
    requires Tlv.Encodable(Tlv.SelectEntries(version, salt, challenge, serial))
    requires card(trace + [SELECT_OATH]) ==
             Tlv.Encode(Tlv.SelectEntries(version, salt, challenge, serial)) + [0x90, 0x00]
    ensures OathOnly(card, info, trace).ok <==>
              (serial.Some? && Ok(serial.value)) || (serial.None? && challenge.Some? && Ok(challenge.value))
    ensures OathOnly(card, info, trace).ok ==> OathOnly(card, info, trace).info == Info(0, version, 0)
  {
    hide Ok, OathOnly, Tlv.Encode, Tlv.LastValue, Tlv.Hex;
    if serial.Some? {
      var front := Tlv.SelectEntries(version, salt, challenge, None);
      LastResortOn(card, info, trace, front, Tlv.Entry(Tlv.TAG_SERIAL_NUMBER, serial.value)) by {
        assert front + [Tlv.Entry(Tlv.TAG_SERIAL_NUMBER, serial.value)] == Tlv.SelectEntries(version, salt, challenge, serial);
      }
      Tlv.SelectReads(version, salt, challenge, None);
    } else if challenge.Some? {
      var front := Tlv.SelectEntries(version, salt, None, None);
      LastResortOn(card, info, trace, front, Tlv.Entry(Tlv.TAG_CHALLENGE, challenge.value)) by {
        assert front + [Tlv.Entry(Tlv.TAG_CHALLENGE, challenge.value)] == Tlv.SelectEntries(version, salt, challenge, serial);
      }
      Tlv.SelectReads(version, salt, None, None);
    } else {
      var front := [Tlv.Entry(Tlv.TAG_VERSION, version)];
      LastResortOn(card, info, trace, front, Tlv.Entry(Tlv.TAG_NAME_SALT, salt)) by {
        assert front + [Tlv.Entry(Tlv.TAG_NAME_SALT, salt)] == Tlv.SelectEntries(version, salt, challenge, serial);
      }
      Tlv.VersionAlone(version);
    }
  }

  lemma LastResortOn(card: Card, info: Info, trace: seq<bytes>, front: seq<Tlv.Entry>, last: Tlv.Entry)
    requires last.tag != 0x90 && Tlv.Encodable(front + [last])
    requires card(trace + [SELECT_OATH]) == Tlv.Encode(front + [last]) + [0x90, 0x00]
    ensures OathOnly(card, info, trace).ok <==> Ok(last.value) && Tlv.DeviceIdOf(front, "") != ""
    ensures OathOnly(card, info, trace).ok ==>
              OathOnly(card, info, trace).info == Info(0, Tlv.LastValue(front, Tlv.TAG_VERSION, Some(3)).GetOr(NO_VERSION), 0)
  {
    hide Tlv.Encode, Tlv.Entries, Tlv.DeviceIdOf;
    SuccessIsOk(Tlv.Encode(front + [last]));
    Tlv.CutInLastEntry(front, last);
  }
}
