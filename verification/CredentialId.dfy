/**
 Credential ids: an optional "period/" prefix, an optional "issuer:" and the
 account. Ids are held as their UTF-8 bytes. The parser is the regular
 expression ^((\d+)/)?(([^:]+):)?(.+)$; a saved TOTP credential gets the prefix
 unless its period is 30.
 */
module CredentialId {
  import opened Bytes
  import Codes

  const SLASH: byte := 0x2F
  const COLON: byte := 0x3A
  const LF: byte := 0x0A
  const DEFAULT_PERIOD := 30
  const INT_MAX := 0x7FFF_FFFF

  predicate IsDigit(b: byte) {
    0x30 <= b <= 0x39
  }

  predicate Digits(s: bytes, to: nat)
    requires to <= |s|
  {
    forall k :: 0 <= k < to ==> IsDigit(s[k])
  }

  predicate Free(s: bytes, from: nat, to: nat, b: byte)
    requires from <= to <= |s|
  {
    forall k :: from <= k < to ==> s[k] != b
  }

  // ---------------------------------------------------------------------------
  // The regular expression
  // ---------------------------------------------------------------------------

  /** Where group 3 starts when \d+ takes d digits; 0 means the first group is skipped. */
  function AfterPeriod(d: nat): nat {
    if d == 0 then 0 else d + 1
  }

  /** Where group 5 starts when moreover [^:]+ takes i bytes; 0 means the issuer group is skipped. */
  function AfterIssuer(d: nat, i: nat): nat {
    AfterPeriod(d) + if i == 0 then 0 else i + 1
  }

  predicate PeriodFits(s: bytes, d: nat) {
    d == 0 || (d < |s| && Digits(s, d) && s[d] == SLASH)
  }

  predicate IssuerFits(s: bytes, from: nat, i: nat) {
    i == 0 || (from + i < |s| && Free(s, from, from + i, COLON) && s[from + i] == COLON)
  }

  /** $ matches at the very end and before a final line feed. */
  function End(s: bytes): (e: nat)
    ensures e <= |s|
  {
    if s != [] && s[|s| - 1] == LF then |s| - 1 else |s|
  }

  predicate AccountFits(s: bytes, from: nat) {
    from < End(s) && Free(s, from, End(s), LF)
  }

  /** One way to match the whole id. */
  predicate Matches(s: bytes, d: nat, i: nat) {
    && PeriodFits(s, d)
    && IssuerFits(s, AfterPeriod(d), i)
    && AccountFits(s, AfterIssuer(d, i))
  }

  /**
   The match a backtracking engine finds: greedy groups are tried before they
   are skipped, and longer repetitions before shorter ones.
   */
  ghost predicate IsFirstMatch(s: bytes, d: nat, i: nat) {
    && Matches(s, d, i)
    && forall d': nat, i': nat :: Matches(s, d', i') ==> d' < d || (d' == d && i' <= i)
  }

  /** Where the digits at the front end. */
  function DigitRun(s: bytes, from: nat): (n: nat)
    requires from <= |s| && Digits(s, from)
    ensures from <= n <= |s| && Digits(s, n) && (n < |s| ==> !IsDigit(s[n]))
    decreases |s| - from
  {
    if from < |s| && IsDigit(s[from]) then DigitRun(s, from + 1) else from
  }

  /** Where the bytes other than colons from a position on end. */
  function NonColonRun(s: bytes, from: nat): (n: nat)
    requires from <= |s|
    ensures from <= n <= |s| && Free(s, from, n, COLON) && (n < |s| ==> s[n] == COLON)
    decreases |s| - from
  {
    if from < |s| && s[from] != COLON then NonColonRun(s, from + 1) else from
  }

  /** The second half of the expression, from a given position. */
  function MatchFrom(s: bytes, from: nat): Option<nat>
    requires from <= |s|
  {
    var n := NonColonRun(s, from);
    if n > from && n < |s| && AccountFits(s, n + 1) then Some(n - from)
    else if AccountFits(s, from) then Some(0)
    else None
  }

  function Match(s: bytes): Option<(nat, nat)> {
    var d := DigitRun(s, 0);
    var rest := if d > 0 && d < |s| && s[d] == SLASH then MatchFrom(s, d + 1) else None;
    if rest.Some? then Some((d, rest.value))
    else
      match MatchFrom(s, 0)
      case Some(i) => Some((0, i))
      case None => None
  }

  lemma MatchFromIsFirst(s: bytes, from: nat, i: nat)
    requires from <= |s| && IssuerFits(s, from, i) && AccountFits(s, from + if i == 0 then 0 else i + 1)
    ensures MatchFrom(s, from).Some? && i <= MatchFrom(s, from).value
  {
  }

  lemma MatchFromFits(s: bytes, from: nat)
    requires from <= |s|
    ensures match MatchFrom(s, from)
            case Some(i) => IssuerFits(s, from, i) && AccountFits(s, from + if i == 0 then 0 else i + 1)
            case None => true
  {
  }

  lemma MatchFits(s: bytes)
    ensures match Match(s)
            case Some(m) => Matches(s, m.0, m.1)
            case None => true
  {
  }

  /** The function above finds what the engine finds, and fails only where no match exists. */
  lemma MatchIsFirst(s: bytes)
    ensures match Match(s)
            case Some(m) => IsFirstMatch(s, m.0, m.1)
            case None => forall d: nat, i: nat :: !Matches(s, d, i)
  {
    var run := DigitRun(s, 0);
    if run > 0 && run < |s| && s[run] == SLASH {
      MatchFromFits(s, run + 1);
    }
    MatchFromFits(s, 0);
    forall d: nat, i: nat | Matches(s, d, i)
      ensures Match(s).Some? && (d < Match(s).value.0 || (d == Match(s).value.0 && i <= Match(s).value.1))
    {
      assert d > 0 ==> run == d;
      MatchFromIsFirst(s, AfterPeriod(d), i);
    }
  }

  // ---------------------------------------------------------------------------
  // Parsing and saving
  // ---------------------------------------------------------------------------

  datatype Parsed = Parsed(period: nat, issuer: bytes, account: bytes)

  /** Decimal digits as text, and text as bytes. */
  function Text(s: bytes): (t: string)
    requires Digits(s, |s|)
    ensures |t| == |s| && Codes.AllDigits(t)
  {
    seq(|s|, i requires 0 <= i < |s| => s[i] as char)
  }

  function DigitByte(c: char): (b: byte)
    requires Codes.IsDigit(c)
    ensures IsDigit(b) && b as char == c
  {
    c as int
  }

  function Ascii(t: string): (s: bytes)
    requires Codes.AllDigits(t)
    ensures |s| == |t| && Digits(s, |s|)
  {
    seq(|t|, i requires 0 <= i < |t| => DigitByte(t[i]))
  }

  /** The period group 2 stands for; a number out of the int range, or 0, is ignored. */
  function PeriodOf(digits: bytes): nat
    requires Digits(digits, |digits|)
  {
    var v := Codes.ValueOf(Text(digits));
    if 0 < v <= INT_MAX then v else DEFAULT_PERIOD
  }

  /** What is captured by one way to match. */
  function Captured(id: bytes, isTotp: bool, d: nat, i: nat): Parsed
    requires Matches(id, d, i)
  {
    Parsed(if !isTotp then 0 else if d > 0 then PeriodOf(id[..d]) else DEFAULT_PERIOD,
           id[AfterPeriod(d)..AfterPeriod(d) + i],
           id[AfterIssuer(d, i)..End(id)])
  }

  function ParseId(id: bytes, isTotp: bool): (p: Parsed)
    ensures isTotp ==> p.period > 0
    ensures !isTotp ==> p.period == 0
  {
    MatchFits(id);
    if id == [] || Match(id).None? then Parsed(if isTotp then DEFAULT_PERIOD else 0, [], id)
    else Captured(id, isTotp, Match(id).value.0, Match(id).value.1)
  }

  lemma ParseIs(id: bytes, isTotp: bool, d: nat, i: nat)
    requires Match(id) == Some((d, i))
    ensures Matches(id, d, i) && ParseId(id, isTotp) == Captured(id, isTotp, d, i)
  {
  }

  lemma {:induction false} DigitRunBefore(s: bytes, b: byte, from: nat)
    requires from <= |s| && Digits(s, from) && !IsDigit(b)
    ensures Digits(s + [b], from) && DigitRun(s + [b], from) == DigitRun(s, from)
    decreases |s| - from
  {
    if from < |s| && IsDigit(s[from]) {
      DigitRunBefore(s, b, from + 1);
    }
  }

  lemma {:induction false} NonColonRunBefore(s: bytes, b: byte, from: nat)
    requires from <= |s| && b != COLON
    ensures NonColonRun(s + [b], from) == if NonColonRun(s, from) < |s| then NonColonRun(s, from) else |s| + 1
    decreases |s| - from
  {
    if from < |s| && s[from] != COLON {
      NonColonRunBefore(s, b, from + 1);
    } else if from == |s| {
      assert NonColonRun(s + [b], |s| + 1) == |s| + 1;
    }
  }

  lemma AccountBeforeLineFeed(s: bytes, from: nat)
    requires Free(s, 0, |s|, LF)
    ensures AccountFits(s + [LF], from) <==> AccountFits(s, from)
  {
    assert End(s + [LF]) == |s| == End(s);
  }

  lemma MatchFromBeforeLineFeed(s: bytes, from: nat)
    requires from <= |s| && Free(s, 0, |s|, LF)
    ensures MatchFrom(s + [LF], from) == MatchFrom(s, from)
  {
    NonColonRunBefore(s, LF, from);
    var n := NonColonRun(s, from);
    AccountBeforeLineFeed(s, from);
    if n < |s| {
      AccountBeforeLineFeed(s, n + 1);
    }
  }

  /** `$` matches before a line feed at the very end, so the parser drops one there. */
  lemma FinalLineFeedIsDropped(id: bytes, isTotp: bool)
    requires id != [] && forall k :: 0 <= k < |id| ==> id[k] != 0x0A
    ensures ParseId(id + [0x0A], isTotp) == ParseId(id, isTotp)
  {
    hide MatchFrom;
    DigitRunBefore(id, LF, 0);
    var d := DigitRun(id, 0);
    if d < |id| {
      MatchFromBeforeLineFeed(id, d + 1);
    }
    MatchFromBeforeLineFeed(id, 0);
    WholeIdMatches(id);
    var (e, i) := Match(id).value;
    assert Match(id + [LF]) == Match(id);
    ParseIs(id, isTotp, e, i);
    ParseIs(id + [LF], isTotp, e, i);
    SameCapture(id, isTotp, e, i);
  }

  lemma WholeIdMatches(id: bytes)
    requires id != [] && Free(id, 0, |id|, LF)
    ensures Match(id).Some?
  {
    MatchIsFirst(id);
    assert Matches(id, 0, 0);
  }

  lemma SameCapture(id: bytes, isTotp: bool, d: nat, i: nat)
    requires id != [] && Free(id, 0, |id|, LF) && Matches(id, d, i) && Matches(id + [LF], d, i)
    ensures Captured(id + [LF], isTotp, d, i) == Captured(id, isTotp, d, i)
  {
    var more := id + [LF];
    assert End(more) == |id| == End(id);
    assert more[..d] == id[..d];
    assert more[AfterPeriod(d)..AfterPeriod(d) + i] == id[AfterPeriod(d)..AfterPeriod(d) + i];
    assert more[AfterIssuer(d, i)..|id|] == id[AfterIssuer(d, i)..|id|];
  }

  /** An account cut out of an id holds no line feed: `.` does not match one. */
  lemma AccountHoldsNoLineFeed(id: bytes, isTotp: bool)
    requires ParseId(id, isTotp).account != id
    ensures 0x0A !in ParseId(id, isTotp).account
  {
    var (d, i) := Match(id).value;
    ParseIs(id, isTotp, d, i);
  }

  /** The name of a credential before the period is written into it. */
  function FullName(issuer: bytes, account: bytes): bytes {
    if issuer == [] then account else issuer + [0x3A] + account
  }

  /** The name under which it is stored. */
  function SavedName(name: bytes, isTotp: bool, period: nat): bytes {
    if isTotp && period != 30 then Ascii(Codes.Decimal(period)) + [0x2F] + name else name
  }

  /** The parser would take something off the front of the name as a period. */
  ghost predicate HasPeriodPrefix(name: bytes) {
    exists d: nat :: 0 < d < |name| - 1 && PeriodFits(name, d)
  }

  ghost predicate MadeOf(id: bytes, prefix: bytes, issuer: bytes, account: bytes, tail: bytes) {
    && (prefix == [] || PeriodFits(prefix, |prefix| - 1))
    && (tail == [] || tail == [0x0A])
    && id == prefix + (FullName(issuer, account) + tail)
  }

  /** Prefix, issuer and account put together again are the id. */
  lemma PartsMakeId(id: bytes, isTotp: bool)
    ensures var p := ParseId(id, isTotp);
            exists prefix: bytes, tail: bytes :: MadeOf(id, prefix, p.issuer, p.account, tail)
  {
    hide Captured, Match;
    var p := ParseId(id, isTotp);
    if id == [] || Match(id).None? {
      assert [] + (id + []) == id;
      assert MadeOf(id, [], p.issuer, p.account, []);
    } else {
      var (d, i) := Match(id).value;
      ParseIs(id, isTotp, d, i);
      CapturedMakesId(id, isTotp, d, i);
      assert MadeOf(id, id[..AfterPeriod(d)], p.issuer, p.account, id[End(id)..]);
    }
  }

  lemma CapturedMakesId(id: bytes, isTotp: bool, d: nat, i: nat)
    requires Matches(id, d, i)
    ensures var p := Captured(id, isTotp, d, i);
            MadeOf(id, id[..AfterPeriod(d)], p.issuer, p.account, id[End(id)..])
  {
    var p := Captured(id, isTotp, d, i);
    NameInside(id, AfterPeriod(d), AfterIssuer(d, i), End(id), p.issuer, p.account);
    ThreeParts(id, AfterPeriod(d), End(id));
    if d > 0 {
      PrefixFits(id, d);
    }
  }

  lemma PrefixFits(id: bytes, d: nat)
    requires d > 0 && PeriodFits(id, d)
    ensures PeriodFits(id[..d + 1], d)
  {
  }

  lemma ThreeParts(id: bytes, from: nat, end: nat)
    requires from <= end <= |id|
    ensures id == id[..from] + (id[from..end] + id[end..])
  {
  }

  lemma NameInside(id: bytes, from: nat, next: nat, end: nat, issuer: bytes, account: bytes)
    requires from <= next <= end <= |id| && account == id[next..end]
    requires (next == from && issuer == []) ||
             (next > from + 1 && issuer == id[from..next - 1] && id[next - 1] == COLON)
    ensures FullName(issuer, account) == id[from..end]
  {
  }

  // ---------------------------------------------------------------------------
  // Saving and parsing undo each other
  // ---------------------------------------------------------------------------

  /** The issuer and account that the text of a name can tell apart. */
  predicate Plain(issuer: bytes, account: bytes) {
    && Free(issuer, 0, |issuer|, COLON)
    && account != [] && Free(account, 0, |account|, LF)
    && (issuer == [] ==> Free(account, 0, |account|, COLON))
  }

  /** The id ends in the name, which starts at the given position. */
  ghost predicate EndsInName(id: bytes, from: nat, issuer: bytes, account: bytes) {
    && |id| == from + |FullName(issuer, account)|
    && (forall k {:trigger id[k]} :: from <= k < from + |issuer| ==> id[k] == issuer[k - from])
    && (issuer != [] ==> id[from + |issuer|] == COLON)
    && (forall k {:trigger id[k]} :: |id| - |account| <= k < |id| ==> id[k] == account[k - (|id| - |account|)])
  }

  lemma NameAfter(front: bytes, issuer: bytes, account: bytes)
    ensures EndsInName(front + FullName(issuer, account), |front|, issuer, account)
  {
  }

  lemma MatchInName(id: bytes, from: nat, issuer: bytes, account: bytes)
    requires Plain(issuer, account) && EndsInName(id, from, issuer, account)
    ensures End(id) == |id| && MatchFrom(id, from) == Some(|issuer|)
    ensures AccountFits(id, |id| - |account|)
  {
  }

  lemma NameParts(id: bytes, from: nat, issuer: bytes, account: bytes)
    requires EndsInName(id, from, issuer, account)
    ensures id[from..from + |issuer|] == issuer && id[|id| - |account|..|id|] == account
  {
  }

  /** The second half of the expression finds the issuer and the account at the end of an id. */
  lemma CapturedFromName(id: bytes, isTotp: bool, d: nat, issuer: bytes, account: bytes)
    requires Plain(issuer, account) && PeriodFits(id, d) && EndsInName(id, AfterPeriod(d), issuer, account)
    ensures MatchFrom(id, AfterPeriod(d)) == Some(|issuer|) && Matches(id, d, |issuer|)
    ensures Captured(id, isTotp, d, |issuer|).issuer == issuer
    ensures Captured(id, isTotp, d, |issuer|).account == account
  {
    hide MatchFrom, Plain, IssuerFits, AccountFits;
    MatchInName(id, AfterPeriod(d), issuer, account);
    MatchFromFits(id, AfterPeriod(d));
    NameParts(id, AfterPeriod(d), issuer, account);
  }

  lemma PeriodInFront(digits: bytes, rest: bytes)
    requires digits != [] && Digits(digits, |digits|)
    ensures var id := (digits + [SLASH]) + rest;
            DigitRun(id, 0) == |digits| && PeriodFits(id, |digits|) && id[..|digits|] == digits
  {
  }

  lemma MatchTakesPeriod(s: bytes, d: nat)
    requires d > 0 && DigitRun(s, 0) == d && PeriodFits(s, d) && MatchFrom(s, d + 1).Some?
    ensures Match(s) == Some((d, MatchFrom(s, d + 1).value))
  {
  }

  /**
   A number written in front is the period if it fits a positive 32-bit int;
   otherwise it is dropped and the period is 30.
   */
  lemma WithWrittenPeriod(issuer: bytes, account: bytes, period: nat)
    requires Plain(issuer, account)
    ensures ParseId(Ascii(Codes.Decimal(period)) + [0x2F] + FullName(issuer, account), true) ==
            Parsed(if 0 < period <= 0x7FFF_FFFF then period else 30, issuer, account)
  {
    var numeral := Codes.Decimal(period);
    var digits, name := Ascii(numeral), FullName(issuer, account);
    var id := (digits + [SLASH]) + name;
    PeriodInFront(digits, name);
    NameAfter(digits + [SLASH], issuer, account);
    CapturedFromName(id, true, |digits|, issuer, account);
    MatchTakesPeriod(id, |digits|);
    ParseIs(id, true, |digits|, |issuer|);
    assert Text(digits) == numeral;
  }

  lemma NameAlone(issuer: bytes, account: bytes)
    ensures EndsInName(FullName(issuer, account), 0, issuer, account)
  {
  }

  /** Nothing to take off the front. */
  lemma PlainParse(issuer: bytes, account: bytes, isTotp: bool)
    requires Plain(issuer, account) && !HasPeriodPrefix(FullName(issuer, account))
    ensures ParseId(FullName(issuer, account), isTotp) == Parsed(if isTotp then 30 else 0, issuer, account)
  {
    var name := FullName(issuer, account);
    NameAlone(issuer, account);
    CapturedFromName(name, isTotp, 0, issuer, account);
    NoPrefixToTake(name);
    ParseIs(name, isTotp, 0, |issuer|);
  }

  lemma NoPrefixToTake(name: bytes)
    requires !HasPeriodPrefix(name) && MatchFrom(name, 0).Some?
    ensures Match(name) == Some((0, MatchFrom(name, 0).value))
  {
    var d := DigitRun(name, 0);
    if d > 0 && d < |name| && name[d] == SLASH {
      assert PeriodFits(name, d) && d == |name| - 1;
    }
  }

  /** A prefix that can be read as a period is, so issuer and account come out shorter. */
  lemma PrefixIsTaken(issuer: bytes, account: bytes, isTotp: bool)
    requires Plain(issuer, account) && HasPeriodPrefix(FullName(issuer, account))
    ensures ParseId(FullName(issuer, account), isTotp).issuer != issuer ||
            ParseId(FullName(issuer, account), isTotp).account != account
  {
    var name := FullName(issuer, account);
    var d: nat :| 0 < d < |name| - 1 && PeriodFits(name, d);
    RestFits(d, issuer, account);
    MatchTakesPeriod(name, d);
    var i := MatchFrom(name, d + 1).value;
    ParseIs(name, isTotp, d, i);
    assert End(name) == |name|;
    assert |FullName(name[d + 1..d + 1 + i], name[AfterIssuer(d, i)..End(name)])| < |name|;
  }

  lemma RestFits(d: nat, issuer: bytes, account: bytes)
    requires Plain(issuer, account)
    requires var name := FullName(issuer, account); 0 < d < |name| - 1 && PeriodFits(name, d)
    ensures var name := FullName(issuer, account);
            DigitRun(name, 0) == d && MatchFrom(name, d + 1).Some? && End(name) == |name|
  {
    NameAlone(issuer, account);
    RestOfName(FullName(issuer, account), d, issuer, account);
  }

  lemma RestOfName(name: bytes, d: nat, issuer: bytes, account: bytes)
    requires Plain(issuer, account) && EndsInName(name, 0, issuer, account)
    requires 0 < d < |name| - 1 && PeriodFits(name, d)
    ensures DigitRun(name, 0) == d && MatchFrom(name, d + 1).Some? && End(name) == |name|
  {
  }

  /**
   What was saved is what is parsed, except exactly when no prefix is written
   (period 30, or HOTP) and the name itself begins with digits and a slash.
   */
  lemma SavedIdRoundTrip(issuer: bytes, account: bytes, isTotp: bool, period: nat)
    requires Plain(issuer, account) && 0 < period <= INT_MAX
    ensures ParseId(SavedName(FullName(issuer, account), isTotp, period), isTotp) ==
            Parsed(if isTotp then period else 0, issuer, account) <==>
            ((isTotp && period != 30) || !HasPeriodPrefix(FullName(issuer, account)))
  {
    if isTotp && period != 30 {
      WithWrittenPeriod(issuer, account, period);
    } else if HasPeriodPrefix(FullName(issuer, account)) {
      PrefixIsTaken(issuer, account, isTotp);
    } else {
      PlainParse(issuer, account, isTotp);
    }
  }
}
