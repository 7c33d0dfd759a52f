/**
 The cache of TOTP codes and the background workers that fill it. Requests,
 worker steps, answers on the main thread, seeding after CALCULATE ALL,
 disconnects and the clock interleave freely.

 A code is kept symbolically, as the account and the counter it was computed
 for: two codes are the same for every secret if and only if these are.
 */
module CodeCache {
  import opened Arithmetic
  import opened Bytes
  import Codes

  datatype Account = Account(device: string, name: string)

  /** The truncated HMAC of the account's secret and this counter. */
  datatype Code = Code(account: Account, counter: nat)

  datatype Cached = Cached(code: Code, validUntil: nat, period: nat)

  /** What a worker has come to: nothing yet, a code, or a result posted to the main thread. */
  datatype Stage = Working | Calculated(code: Code) | Posted(result: Option<Code>, validUntil: nat, period: nat)

  datatype Generation = Generation(account: Account, stage: Stage)

  /** An entry of a device's credential list after CALCULATE ALL, with the clock readings it was made from. */
  datatype Listed = Listed(name: string, isTotp: bool, touch: bool, hasCode: bool, challengedAt: nat, stampedAt: nat)

  /** An answer from the cache, and when it was decided. */
  datatype Hit = Hit(account: Account, entry: Cached, at: nat)

  /** A codeGenerated signal; without a code it reports an error. */
  datatype Answer = Answer(account: Account, code: Option<Code>, validUntil: nat)

  datatype State = State(
    cache: map<string, Cached>, pending: set<string>,
    flight: map<nat, Generation>, next: nat, replies: seq<Hit>,
    devices: set<string>, clock: nat, unanswered: set<Account>, hits: seq<Hit>, answers: seq<Answer>)

  datatype Action =
    | Request(account: Account)
    | Calculate(worker: nat)
    | Fail(worker: nat)
    | Stamp(worker: nat, found: bool)
    | Complete(worker: nat)
    | Reply
    | Seed(device: string, list: seq<Listed>)
    | Connect(device: string)
    | Disconnect(device: string)
    | Forget(device: string)
    | ServiceLost
    | Tick(seconds: nat)

  const INITIAL := State(map[], {}, map[], 0, [], {}, 0, {}, [], [])

  /** The period of each account's credential. */
  type Periods = Account -> nat

  const DEFAULT_PERIOD := 30

  // ---------------------------------------------------------------------------
  // Keys
  // ---------------------------------------------------------------------------

  const SLASH := "/"

  function Key(a: Account): string {
    a.device + SLASH + a.name
  }

  predicate SlashFree(device: string) {
    '/' !in device
  }

  function Prefix(device: string): string {
    device + SLASH
  }

  /** Keys are different for different accounts, and a device's prefix finds exactly its own keys. */
  lemma KeysAreDistinct(a: Account, b: Account)
    requires SlashFree(a.device) && SlashFree(b.device)
    ensures Key(a) == Key(b) <==> a == b
    ensures Prefix(a.device) <= Key(b) <==> a.device == b.device
  {
    if Prefix(a.device) <= Key(b) {
      var n, m := |a.device|, |b.device|;
      assert Prefix(a.device)[n] == Key(b)[n] == '/';
      assert Key(b)[m] == '/' && forall k :: 0 <= k < m ==> Key(b)[k] == b.device[k] != '/';
      assert forall k :: 0 <= k < n ==> Key(b)[k] == Prefix(a.device)[k] == a.device[k] != '/';
    }
    if Key(a) == Key(b) {
      assert Prefix(a.device) <= Key(a);
      assert Key(a)[|a.device| + 1..] == a.name && Key(b)[|b.device| + 1..] == b.name;
    }
    assert a.device == b.device ==> Prefix(a.device) == Key(b)[..|a.device| + 1];
  }

  /** Two devices can share a key exactly if the prefix of one is a prefix of the other's. */
  lemma DevicesThatShareKeys(d: string, e: string)
    ensures (exists m, n :: Key(Account(d, m)) == Key(Account(e, n))) <==> Prefix(d) <= Prefix(e) || Prefix(e) <= Prefix(d)
  {
    var p, q := Prefix(d), Prefix(e);
    if p <= q {
      Extends(d, e);
    } else if q <= p {
      Extends(e, d);
    } else {
      forall m, n ensures Key(Account(d, m)) != Key(Account(e, n)) {
        BothPrefixes(p, q, Key(Account(d, m)), Key(Account(e, n)));
      }
    }
  }

  lemma Extends(d: string, e: string)
    requires Prefix(d) <= Prefix(e)
    ensures Key(Account(d, Prefix(e)[|Prefix(d)|..])) == Key(Account(e, ""))
  {
    assert Prefix(e) + "" == Prefix(e) == Prefix(d) + Prefix(e)[|Prefix(d)|..];
  }

  lemma BothPrefixes(p: string, q: string, a: string, b: string)
    requires p <= a && q <= b && !(p <= q) && !(q <= p)
    ensures a != b
  {
  }

  // ---------------------------------------------------------------------------
  // What each step does
  // ---------------------------------------------------------------------------

  /** More than half of the period left. */
  predicate Usable(entry: Cached, now: nat) {
    entry.validUntil - now > entry.period / 2
  }

  /** Everybody who waits for the account is answered. */
  function Answered(s: State, answer: Answer): State {
    s.(unanswered := s.unanswered - {answer.account}, answers := s.answers + [answer])
  }

  function Requested(s: State, a: Account): State {
    var key := Key(a);
    if a.device == "" || a.name == "" then Answered(s, Answer(a, None, 0))
    else if key in s.cache && Usable(s.cache[key], s.clock) then
      var hit := Hit(a, s.cache[key], s.clock);
      s.(replies := s.replies + [hit], hits := s.hits + [hit], unanswered := s.unanswered + {a})
    else
      var s1 := s.(cache := s.cache - {key});
      if key in s.pending then s1.(unanswered := s.unanswered + {a})
      else if a.device !in s.devices then Answered(s1, Answer(a, None, 0))
      else
        s1.(pending := s.pending + {key}, flight := s.flight[s.next := Generation(a, Working)], next := s.next + 1,
            unanswered := s.unanswered + {a})
  }

  /** The oldest answer from the cache is sent. */
  function Replied(s: State): State
    requires s.replies != []
  {
    var hit := s.replies[0];
    Answered(s.(replies := s.replies[1..]), Answer(hit.account, Some(hit.entry.code), hit.entry.validUntil))
  }

  function Completed(s: State, worker: nat): State
    requires worker in s.flight && s.flight[worker].stage.Posted?
  {
    var g := s.flight[worker];
    var key := Key(g.account);
    var cache := if g.stage.result.Some? && g.stage.validUntil > 0
                 then s.cache[key := Cached(g.stage.result.value, g.stage.validUntil, g.stage.period)]
                 else s.cache;
    var s1 := s.(pending := s.pending - {key}, flight := s.flight - {worker}, cache := cache);
    Answered(s1, Answer(g.account, g.stage.result, g.stage.validUntil))
  }

  function ListedUntil(device: string, c: Listed, periods: Periods): nat {
    var period := periods(Account(device, c.name));
    if c.isTotp && c.hasCode && period > 0 then Codes.ValidUntil(c.stampedAt, period) else 0
  }

  /** CALCULATE ALL always sends the challenge of a 30 second period. */
  function ListedCode(device: string, c: Listed): Code {
    Code(Account(device, c.name), c.challengedAt / DEFAULT_PERIOD)
  }

  predicate Seeds(device: string, c: Listed, now: nat, periods: Periods) {
    c.isTotp && !c.touch && c.hasCode && ListedUntil(device, c, periods) > now
  }

  function Seeded(cache: map<string, Cached>, device: string, list: seq<Listed>, now: nat, periods: Periods)
    : map<string, Cached>
  {
    if list == [] then cache
    else
      var c := list[|list| - 1];
      var before := Seeded(cache, device, list[..|list| - 1], now, periods);
      if Seeds(device, c, now, periods) then
        before[Key(Account(device, c.name)) :=
          Cached(ListedCode(device, c), ListedUntil(device, c, periods), periods(Account(device, c.name)))]
      else before
  }

  function Cleared(s: State, device: string): State {
    s.(cache := map k | k in s.cache && !(Prefix(device) <= k) :: s.cache[k],
       pending := set k | k in s.pending && !(Prefix(device) <= k))
  }

  predicate Enabled(s: State, a: Action, periods: Periods) {
    match a
    case Calculate(w) => w in s.flight && s.flight[w].stage.Working? && periods(s.flight[w].account) > 0
    case Fail(w) => w in s.flight && s.flight[w].stage.Working?
    case Stamp(w, _) => w in s.flight && s.flight[w].stage.Calculated? && periods(s.flight[w].account) > 0
    case Complete(w) => w in s.flight && s.flight[w].stage.Posted?
    case Reply => s.replies != []
    case Seed(_, list) => forall c <- list :: c.challengedAt <= c.stampedAt <= s.clock
    case Connect(device) => SlashFree(device)
    case _ => true
  }

  function Advanced(s: State, worker: nat, stage: Stage): State
    requires worker in s.flight
  {
    s.(flight := s.flight[worker := s.flight[worker].(stage := stage)])
  }

  function Step(s: State, a: Action, periods: Periods): State
    requires Enabled(s, a, periods)
  {
    match a
    case Request(account) => Requested(s, account)
    case Calculate(w) =>
      var account := s.flight[w].account;
      Advanced(s, w, Calculated(Code(account, Codes.Step(s.clock, periods(account)))))
    case Fail(w) => Advanced(s, w, Posted(None, 0, DEFAULT_PERIOD))
    case Stamp(w, found) =>
      var period := if found then periods(s.flight[w].account) else DEFAULT_PERIOD;
      Advanced(s, w, Posted(Some(s.flight[w].stage.code), Codes.ValidUntil(s.clock, period), period))
    case Complete(w) => Completed(s, w)
    case Reply => Replied(s)
    case Seed(device, list) =>
      if device in s.devices then s.(cache := Seeded(s.cache, device, list, s.clock, periods)) else s
    case Connect(device) => s.(devices := s.devices + {device})
    case Disconnect(device) => Cleared(s, device).(devices := s.devices - {device})
    case Forget(device) => s.(devices := s.devices - {device})
    case ServiceLost => s.(devices := {})
    case Tick(seconds) => s.(clock := s.clock + seconds)
  }

  predicate Runs(s: State, actions: seq<Action>, periods: Periods)
    decreases |actions|
  {
    actions == [] || (Enabled(s, actions[0], periods) && Runs(Step(s, actions[0], periods), actions[1..], periods))
  }

  function After(s: State, actions: seq<Action>, periods: Periods): State
    requires Runs(s, actions, periods)
    decreases |actions|
  {
    if actions == [] then s else After(Step(s, actions[0], periods), actions[1..], periods)
  }

  // ---------------------------------------------------------------------------
  // The object
  // ---------------------------------------------------------------------------

  class CredentialService {
    var codeCache: map<string, Cached>
    var pendingGenerations: set<string>
    var flight: map<nat, Generation>
    var next: nat
    var replies: seq<Hit>
    var devices: set<string>
    var clock: nat
    var unanswered: set<Account>
    var hits: seq<Hit>
    var answers: seq<Answer>

    constructor ()
      ensures Fields() == INITIAL
    {
      codeCache, pendingGenerations, flight, next, replies := map[], {}, map[], 0, [];
      devices, clock, unanswered, hits, answers := {}, 0, {}, [], [];
    }

    function Fields(): State
      reads this
    {
      State(codeCache, pendingGenerations, flight, next, replies, devices, clock, unanswered, hits, answers)
    }

    method CodeGenerated(account: Account, code: Option<Code>, validUntil: nat)
      modifies this
      ensures Fields() == Answered(old(Fields()), Answer(account, code, validUntil))
    {
      unanswered := unanswered - {account};
      answers := answers + [Answer(account, code, validUntil)];
    }

    method GenerateCodeAsync(a: Account)
      modifies this
      ensures Fields() == Requested(old(Fields()), a)
    {
      if a.device == "" || a.name == "" {
        CodeGenerated(a, None, 0);
        return;
      }
      var key := Key(a);
      if key in codeCache {
        var it := codeCache[key];
        var remaining, minRemaining := it.validUntil - clock, it.period / 2;
        if remaining > minRemaining {
          var hit := Hit(a, it, clock);
          replies, hits, unanswered := replies + [hit], hits + [hit], unanswered + {a};
          return;
        }
      }
      codeCache := codeCache - {key};
      if key in pendingGenerations {
        unanswered := unanswered + {a};
        return;
      }
      if a.device !in devices {
        CodeGenerated(a, None, 0);
        return;
      }
      pendingGenerations := pendingGenerations + {key};
      flight, next := flight[next := Generation(a, Working)], next + 1;
      unanswered := unanswered + {a};
    }

    /** The worker's result, handled on the main thread. */
    method FinishGeneration(worker: nat)
      requires worker in flight && flight[worker].stage.Posted?
      modifies this
      ensures Fields() == Completed(old(Fields()), worker)
    {
      var g := flight[worker];
      flight := flight - {worker};
      var key := Key(g.account);
      pendingGenerations := pendingGenerations - {key};
      if g.stage.result.Some? && g.stage.validUntil > 0 {
        codeCache := codeCache[key := Cached(g.stage.result.value, g.stage.validUntil, g.stage.period)];
      }
      CodeGenerated(g.account, g.stage.result, g.stage.validUntil);
    }

    /** The queued answer of a cache hit. */
    method SendReply()
      requires replies != []
      modifies this
      ensures Fields() == Replied(old(Fields()))
    {
      var hit := replies[0];
      replies := replies[1..];
      CodeGenerated(hit.account, Some(hit.entry.code), hit.entry.validUntil);
    }

    method SeedCacheFromCredentials(device: string, list: seq<Listed>, periods: Periods)
      modifies this
      ensures Fields() == if device in old(devices)
                          then old(Fields()).(cache := Seeded(old(codeCache), device, list, clock, periods))
                          else old(Fields())
    {
      if device !in devices {
        return;
      }
      for i := 0 to |list|
        invariant Fields() == old(Fields()).(cache := Seeded(old(codeCache), device, list[..i], clock, periods))
      {
        var cred := list[i];
        assert list[..i + 1][..i] == list[..i];
        var validUntil := ListedUntil(device, cred, periods);
        if !cred.isTotp || cred.touch || !cred.hasCode || validUntil <= 0 {
          continue;
        }
        if validUntil <= clock {
          continue;
        }
        var key := Key(Account(device, cred.name));
        codeCache := codeCache[key := Cached(ListedCode(device, cred), validUntil, periods(Account(device, cred.name)))];
      }
      assert list[..|list|] == list;
    }

    method ClearCacheForDevice(device: string)
      modifies this
      ensures Fields() == Cleared(old(Fields()), device)
    {
      var prefix := Prefix(device);
      var toVisit := codeCache.Keys;
      while toVisit != {}
        invariant toVisit <= codeCache.Keys
        invariant Fields() == old(Fields()).(cache := codeCache)
        invariant codeCache == map k | k in old(codeCache) && (k in toVisit || !(prefix <= k)) :: old(codeCache)[k]
      {
        var key :| key in toVisit;
        toVisit := toVisit - {key};
        if prefix <= key {
          codeCache := codeCache - {key};
        }
      }
      assert codeCache == Cleared(old(Fields()), device).cache;
      var toCheck := pendingGenerations;
      while toCheck != {}
        invariant toCheck <= pendingGenerations
        invariant Fields() == old(Fields()).(cache := Cleared(old(Fields()), device).cache, pending := pendingGenerations)
        invariant pendingGenerations == set k | k in old(pendingGenerations) && (k in toCheck || !(prefix <= k))
      {
        var key :| key in toCheck;
        toCheck := toCheck - {key};
        if prefix <= key {
          pendingGenerations := pendingGenerations - {key};
        }
      }
      assert pendingGenerations == Cleared(old(Fields()), device).pending;
    }
  }

  // ---------------------------------------------------------------------------
  // What holds in every run
  // ---------------------------------------------------------------------------

  /** An entry ends with a step of its period, and the clock has reached that step. */
  ghost predicate StampedInTime(validUntil: nat, period: nat, now: nat) {
    period > 0 && validUntil == (validUntil / period) * period && validUntil <= now + period
  }

  ghost predicate EntryRight(key: string, entry: Cached, now: nat) {
    && key == Key(entry.code.account) && SlashFree(entry.code.account.device)
    && StampedInTime(entry.validUntil, entry.period, now)
  }

  ghost predicate EntriesRight(cache: map<string, Cached>, now: nat) {
    forall k <- cache :: EntryRight(k, cache[k], now)
  }

  ghost predicate CacheRight(s: State) {
    EntriesRight(s.cache, s.clock)
  }

  ghost predicate GenerationRight(g: Generation, now: nat) {
    && SlashFree(g.account.device)
    && match g.stage
       case Working => true
       case Calculated(code) => code.account == g.account
       case Posted(result, validUntil, period) =>
         result.Some? ==> result.value.account == g.account && StampedInTime(validUntil, period, now)
  }

  ghost predicate FlightRight(s: State) {
    forall w <- s.flight :: w < s.next && GenerationRight(s.flight[w], s.clock)
  }

  /** The keys of the generations in flight. */
  ghost function KeysInFlight(s: State): set<string> {
    set w | w in s.flight :: Key(s.flight[w].account)
  }

  ghost predicate InFlight(s: State, a: Account) {
    exists w :: w in s.flight && s.flight[w].account == a
  }

  ghost predicate BeingReplied(s: State, a: Account) {
    exists k :: 0 <= k < |s.replies| && s.replies[k].account == a
  }

  /** Every unanswered request has a worker or a posted answer of its own. */
  ghost predicate NoneLost(s: State) {
    forall a <- s.unanswered :: SlashFree(a.device) ==> InFlight(s, a) || BeingReplied(s, a)
  }

  /** Answered from the cache with more than half of the period left, while the entry's last step runs. */
  ghost predicate HitRight(h: Hit) {
    && Usable(h.entry, h.at)
    && EntryRight(Key(h.account), h.entry, h.at)
  }

  ghost predicate HitsRight(s: State) {
    && (forall h <- s.hits :: HitRight(h))
    && (forall h <- s.replies :: h in s.hits)
  }

  /** A code goes to the account it belongs to. */
  predicate AnswerRight(a: Answer) {
    a.code.Some? && SlashFree(a.account.device) ==> a.code.value.account == a.account
  }

  ghost predicate AnswersRight(s: State) {
    forall a <- s.answers :: AnswerRight(a)
  }

  ghost predicate DevicesRight(s: State) {
    forall d <- s.devices :: SlashFree(d)
  }

  ghost predicate Invariant(s: State) {
    && CacheRight(s) && FlightRight(s) && s.pending <= KeysInFlight(s) && NoneLost(s) && HitsRight(s) && AnswersRight(s)
    && DevicesRight(s)
  }

  lemma StampIsInTime(t: nat, now: nat, period: nat)
    requires period > 0 && t <= now
    ensures StampedInTime(Codes.ValidUntil(t, period), period, now)
    ensures Codes.ValidUntil(t, period) / period == Codes.Step(t, period) + 1
    ensures Codes.ValidUntil(t, period) == (Codes.Step(t, period) + 1) * period
  {
    var u := Codes.ValidUntil(t, period);
    Codes.StepLastsUntil(t, t, period);
    assert u == (t / period) * period + period;
    assert u / period == t / period + 1;
  }

  /** What a request does to the cache and what it answers at once. */
  lemma RequestKeepsEntries(s: State, a: Account)
    requires CacheRight(s) && HitsRight(s) && AnswersRight(s) && DevicesRight(s)
    ensures var t := Requested(s, a); CacheRight(t) && HitsRight(t) && AnswersRight(t) && DevicesRight(t)
  {
    hide EntryRight;
    var t := Requested(s, a);
    if t.hits != s.hits {
      assert HitRight(Hit(a, s.cache[Key(a)], s.clock));
    }
  }

  lemma RequestKeepsFlight(s: State, a: Account)
    requires FlightRight(s) && DevicesRight(s)
    ensures FlightRight(Requested(s, a))
  {
  }

  lemma RequestKeepsInvariant(s: State, a: Account)
    requires Invariant(s)
    ensures Invariant(Requested(s, a))
  {
    hide CacheRight, HitsRight, AnswersRight, DevicesRight, FlightRight;
    NextIsNew(s);
    RequestKeepsEntries(s, a);
    RequestKeepsFlight(s, a);
    var t := Requested(s, a);
    forall b | b in t.unanswered && SlashFree(b.device) ensures InFlight(t, b) || BeingReplied(t, b) {
      RequestLosesNone(s, a, b);
    }
    forall k | k in t.pending ensures k in KeysInFlight(t) {
      if k in s.pending {
        assert k in KeysInFlight(s);
        var w :| w in s.flight && Key(s.flight[w].account) == k;
        assert w in t.flight && t.flight[w] == s.flight[w];
      } else {
        assert s.next in t.flight && t.flight[s.next].account == a;
      }
    }
  }

  lemma RequestLosesNone(s: State, a: Account, b: Account)
    requires Invariant(s) && b in Requested(s, a).unanswered && SlashFree(b.device)
    ensures InFlight(Requested(s, a), b) || BeingReplied(Requested(s, a), b)
  {
    var t := Requested(s, a);
    assert s.next !in s.flight;
    if b in s.unanswered {
      if InFlight(s, b) {
        var w :| w in s.flight && s.flight[w].account == b;
        assert w in t.flight && t.flight[w].account == b;
      } else {
        var k :| 0 <= k < |s.replies| && s.replies[k].account == b;
        assert t.replies[k].account == b;
      }
    } else if t.replies != s.replies {
      assert t.replies[|s.replies|].account == b;
    } else if t.flight != s.flight {
      assert s.next in t.flight;
    } else {
      assert Key(b) in KeysInFlight(s);
      var w :| w in s.flight && Key(s.flight[w].account) == Key(b);
      KeysAreDistinct(s.flight[w].account, b);
    }
  }

  lemma CompletionKeepsInvariant(s: State, worker: nat)
    requires Invariant(s) && worker in s.flight && s.flight[worker].stage.Posted?
    ensures Invariant(Completed(s, worker))
  {
    var t := Completed(s, worker);
    var g := s.flight[worker];
    assert GenerationRight(g, s.clock);
    forall b | b in t.unanswered && SlashFree(b.device) ensures InFlight(t, b) || BeingReplied(t, b) {
      if InFlight(s, b) {
        var w :| w in s.flight && s.flight[w].account == b;
        assert w in t.flight;
      } else {
        var k :| 0 <= k < |s.replies| && s.replies[k].account == b;
        assert t.replies[k].account == b;
      }
    }
    forall k | k in t.pending ensures k in KeysInFlight(t) {
      var w :| w in s.flight && Key(s.flight[w].account) == k;
      assert w in t.flight;
    }
  }

  /** A worker that moves on keeps its account. */
  lemma WorkerKeepsInvariant(s: State, worker: nat, stage: Stage)
    requires Invariant(s) && worker in s.flight && GenerationRight(Generation(s.flight[worker].account, stage), s.clock)
    ensures Invariant(Advanced(s, worker, stage))
  {
    var t := Advanced(s, worker, stage);
    assert forall w <- s.flight :: w in t.flight && t.flight[w].account == s.flight[w].account;
    assert KeysInFlight(t) == KeysInFlight(s);
    forall b | b in t.unanswered && SlashFree(b.device) ensures InFlight(t, b) || BeingReplied(t, b) {
      if InFlight(s, b) {
        var w :| w in s.flight && s.flight[w].account == b;
        assert w in t.flight && t.flight[w].account == b;
      }
    }
  }

  lemma {:induction false} SeedKeepsCacheRight(cache: map<string, Cached>, device: string, list: seq<Listed>,
                                               now: nat, periods: Periods)
    requires SlashFree(device) && EntriesRight(cache, now)
    requires forall c <- list :: c.challengedAt <= c.stampedAt <= now
    ensures EntriesRight(Seeded(cache, device, list, now, periods), now)
  {
    if list != [] {
      var c := list[|list| - 1];
      SeedKeepsCacheRight(cache, device, list[..|list| - 1], now, periods);
      if Seeds(device, c, now, periods) {
        var account := Account(device, c.name);
        StampIsInTime(c.stampedAt, now, periods(account));
        var before := Seeded(cache, device, list[..|list| - 1], now, periods);
        var entry := Cached(ListedCode(device, c), ListedUntil(device, c, periods), periods(account));
        assert EntryRight(Key(account), entry, now);
        assert Seeded(cache, device, list, now, periods) == before[Key(account) := entry];
      }
    }
  }

  lemma OtherKeepsInvariant(s: State, t: State)
    requires Invariant(s) && s.clock <= t.clock && DevicesRight(t)
    requires t.flight == s.flight && t.next == s.next && t.pending <= s.pending && t.hits == s.hits
    requires forall k <- t.cache :: k in s.cache && t.cache[k] == s.cache[k]
    requires t.replies == s.replies && t.unanswered == s.unanswered && t.answers == s.answers
    ensures Invariant(t)
  {
  }

  lemma OnlyTheCache(s: State, t: State)
    requires Invariant(s) && t == s.(cache := t.cache) && CacheRight(t)
    ensures Invariant(t)
  {
  }

  lemma ReplyKeepsInvariant(s: State)
    requires Invariant(s) && s.replies != []
    ensures Invariant(Replied(s))
  {
    var hit := s.replies[0];
    assert HitRight(hit);
    if SlashFree(hit.account.device) {
      KeysAreDistinct(hit.entry.code.account, hit.account);
    }
  }

  lemma StepKeepsInvariant(s: State, a: Action, periods: Periods)
    requires Invariant(s) && Enabled(s, a, periods)
    ensures Invariant(Step(s, a, periods))
  {
    hide InFlight, BeingReplied, KeysInFlight, Seeded, Requested, Completed;
    match a
    case Request(account) => RequestKeepsInvariant(s, account);
    case Calculate(w) =>
      var code := Code(s.flight[w].account, Codes.Step(s.clock, periods(s.flight[w].account)));
      WorkerKeepsInvariant(s, w, Calculated(code));
    case Fail(w) => WorkerKeepsInvariant(s, w, Posted(None, 0, DEFAULT_PERIOD));
    case Stamp(w, found) =>
      var period := if found then periods(s.flight[w].account) else DEFAULT_PERIOD;
      StampIsInTime(s.clock, s.clock, period);
      WorkerKeepsInvariant(s, w, Posted(Some(s.flight[w].stage.code), Codes.ValidUntil(s.clock, period), period));
    case Complete(w) => CompletionKeepsInvariant(s, w);
    case Reply => ReplyKeepsInvariant(s);
    case Seed(device, list) =>
      if device in s.devices {
        SeedKeepsCacheRight(s.cache, device, list, s.clock, periods);
        assert Step(s, a, periods).cache == Seeded(s.cache, device, list, s.clock, periods);
        OnlyTheCache(s, Step(s, a, periods));
      }
    case _ => OtherKeepsInvariant(s, Step(s, a, periods));
  }

  lemma {:induction false} EveryRunKeepsInvariant(s: State, actions: seq<Action>, periods: Periods)
    requires Invariant(s) && Runs(s, actions, periods)
    ensures Invariant(After(s, actions, periods))
    decreases |actions|
  {
    if actions != [] {
      StepKeepsInvariant(s, actions[0], periods);
      EveryRunKeepsInvariant(Step(s, actions[0], periods), actions[1..], periods);
    }
  }

  /**
   In every run, disconnects included, the keys marked pending have a
   generation in flight, and every unanswered request for a device whose id
   holds no slash has a generation or a posted answer of its own.
   */
  lemma NoRequestIsLost(actions: seq<Action>, periods: Periods)
    requires Runs(INITIAL, actions, periods)
    ensures var s := After(INITIAL, actions, periods);
            && s.pending <= KeysInFlight(s)
            && forall a :: a in s.unanswered && SlashFree(a.device) ==> InFlight(s, a) || BeingReplied(s, a)
  {
    EveryRunKeepsInvariant(INITIAL, actions, periods);
  }

  /** In every run a code that is sent, from the cache or from a worker, is a code of the account it is sent for. */
  lemma EveryAnswerIsForItsAccount(actions: seq<Action>, periods: Periods, k: nat)
    requires Runs(INITIAL, actions, periods) && k < |After(INITIAL, actions, periods).answers|
    ensures var a := After(INITIAL, actions, periods).answers[k];
            a.code.Some? && SlashFree(a.account.device) ==> a.code.value.account == a.account
  {
    EveryRunKeepsInvariant(INITIAL, actions, periods);
    assert AnswerRight(After(INITIAL, actions, periods).answers[k]);
  }

  ghost predicate AnsweredSince(s: State, a: Account, n: nat) {
    exists k :: n <= k < |s.answers| && s.answers[k].account == a
  }

  /** A step that no longer waits for an account has answered it. */
  lemma StepKeepsInHand(s: State, action: Action, periods: Periods, a: Account, n: nat)
    requires Enabled(s, action, periods) && n <= |s.answers|
    requires a in s.unanswered || AnsweredSince(s, a, n)
    ensures var t := Step(s, action, periods);
            n <= |t.answers| && (a in t.unanswered || AnsweredSince(t, a, n))
  {
    hide Seeded, Key;
    var t := Step(s, action, periods);
    assert s.answers <= t.answers;
    if AnsweredSince(s, a, n) {
      var k :| n <= k < |s.answers| && s.answers[k].account == a;
      assert t.answers[k].account == a;
    } else if a !in t.unanswered {
      assert t.answers[|s.answers|].account == a;
    }
  }

  lemma {:induction false} RunKeepsInHand(s: State, actions: seq<Action>, periods: Periods, a: Account, n: nat)
    requires Runs(s, actions, periods) && n <= |s.answers|
    requires a in s.unanswered || AnsweredSince(s, a, n)
    ensures var t := After(s, actions, periods); a in t.unanswered || AnsweredSince(t, a, n)
    decreases |actions|
  {
    hide AnsweredSince;
    if actions != [] {
      StepKeepsInHand(s, actions[0], periods, a, n);
      RunKeepsInHand(Step(s, actions[0], periods), actions[1..], periods, a, n);
    }
  }

  /**
   Whatever was done before a request and is done after it, the request has
   been answered since, or a generation or a posted answer for it is on its way.
   */
  lemma EveryRequestIsInHand(before: seq<Action>, a: Account, later: seq<Action>, periods: Periods)
    requires Runs(INITIAL, before, periods) && Runs(After(INITIAL, before, periods), [Request(a)] + later, periods)
    requires SlashFree(a.device)
    ensures var s := After(INITIAL, before, periods);
            var t := After(s, [Request(a)] + later, periods);
            AnsweredSince(t, a, |s.answers|) || InFlight(t, a) || BeingReplied(t, a)
  {
    hide Requested;
    EveryRunKeepsInvariant(INITIAL, before, periods);
    var s := After(INITIAL, before, periods);
    EveryRunKeepsInvariant(s, [Request(a)] + later, periods);
    assert ([Request(a)] + later)[0] == Request(a) && ([Request(a)] + later)[1..] == later;
    RequestIsNoted(s, a);
    RunKeepsInHand(Requested(s, a), later, periods, a, |s.answers|);
  }

  lemma RequestIsNoted(s: State, a: Account)
    ensures var t := Requested(s, a);
            |s.answers| <= |t.answers| && (a in t.unanswered || AnsweredSince(t, a, |s.answers|))
  {
    var t := Requested(s, a);
    assert |t.answers| > |s.answers| ==> t.answers[|s.answers|].account == a;
  }

  function Requests(actions: seq<Action>): nat
    decreases |actions|
  {
    if actions == [] then 0 else (if actions[0].Request? then 1 else 0) + Requests(actions[1..])
  }

  lemma StepAnswersNothingUnasked(s: State, a: Action, periods: Periods)
    requires Enabled(s, a, periods)
    ensures var t := Step(s, a, periods);
            |t.answers| + |t.replies| + |t.flight|
            <= |s.answers| + |s.replies| + |s.flight| + if a.Request? then 1 else 0
  {
    hide Seeded, Key, Requested, Completed;
    var t := Step(s, a, periods);
    if a.Request? {
      RequestCounts(s, a.account);
    } else if a.Complete? {
      CompletionCounts(s, a.worker);
    } else {
      SameSize(s.flight, t.flight);
    }
  }

  lemma RequestCounts(s: State, a: Account)
    ensures var t := Requested(s, a);
            |t.answers| + |t.replies| + |t.flight| <= |s.answers| + |s.replies| + |s.flight| + 1
  {
    hide Key, Usable;
    OneMore(s.flight, s.next, Generation(a, Working));
  }

  lemma CompletionCounts(s: State, worker: nat)
    requires worker in s.flight && s.flight[worker].stage.Posted?
    ensures var t := Completed(s, worker);
            |t.answers| + |t.replies| + |t.flight| == |s.answers| + |s.replies| + |s.flight|
  {
    hide Key;
    OneLess(s.flight, worker);
  }

  lemma OneMore<T>(m: map<nat, T>, k: nat, v: T)
    ensures |m[k := v]| <= |m| + 1
  {
    assert m[k := v].Keys == m.Keys + {k};
    assert |m.Keys| == |m| && |m[k := v].Keys| == |m[k := v]|;
  }

  lemma OneLess<T>(m: map<nat, T>, k: nat)
    requires k in m
    ensures |m - {k}| + 1 == |m|
  {
    assert (m - {k}).Keys == m.Keys - {k};
    assert |m.Keys| == |m| && |(m - {k}).Keys| == |m - {k}|;
  }

  lemma SameSize<T>(m: map<nat, T>, n: map<nat, T>)
    requires m.Keys == n.Keys
    ensures |m| == |n|
  {
    assert |m.Keys| == |m| && |n.Keys| == |n|;
  }

  lemma {:induction false} RunAnswersNothingUnasked(s: State, actions: seq<Action>, periods: Periods)
    requires Runs(s, actions, periods)
    ensures var t := After(s, actions, periods);
            |t.answers| + |t.replies| + |t.flight| <= |s.answers| + |s.replies| + |s.flight| + Requests(actions)
    decreases |actions|
  {
    if actions != [] {
      StepAnswersNothingUnasked(s, actions[0], periods);
      RunAnswersNothingUnasked(Step(s, actions[0], periods), actions[1..], periods);
    }
  }

  /** In every run the answers given, posted and being generated are together no more than the requests. */
  lemma NothingIsAnsweredUnasked(actions: seq<Action>, periods: Periods)
    requires Runs(INITIAL, actions, periods)
    ensures var s := After(INITIAL, actions, periods);
            |s.answers| + |s.replies| + |s.flight| <= Requests(actions)
  {
    RunAnswersNothingUnasked(INITIAL, actions, periods);
  }

  // ---------------------------------------------------------------------------
  // Answers without a code
  // ---------------------------------------------------------------------------

  ghost predicate NoErrors(s: State) {
    && (forall a <- s.answers :: a.code.Some?)
    && forall w <- s.flight :: s.flight[w].stage.Posted? ==> s.flight[w].stage.result.Some?
  }

  /**
   A worker fails, a request names no device or no credential, or its device is
   away with nothing pending for it and nothing cached for over half a period.
   */
  predicate Troubled(s: State, a: Action) {
    || a.Fail?
    || (a.Request? &&
        (|| a.account.device == "" || a.account.name == ""
         || (&& a.account.device !in s.devices
             && Key(a.account) !in s.pending
             && !(Key(a.account) in s.cache
                  && 2 * (s.cache[Key(a.account)].validUntil - s.clock) > s.cache[Key(a.account)].period))))
  }

  lemma RequestKeepsNoErrors(s: State, a: Account)
    requires NoErrors(s)
    ensures NoErrors(Requested(s, a)) <==> !Troubled(s, Request(a))
  {
    hide Key;
    var t := Requested(s, a);
    if Troubled(s, Request(a)) {
      assert t.answers[|s.answers|] == Answer(a, None, 0) && t.answers[|s.answers|] in t.answers;
    }
  }

  lemma StepKeepsNoErrors(s: State, a: Action, periods: Periods)
    requires NoErrors(s) && Enabled(s, a, periods)
    ensures NoErrors(Step(s, a, periods)) <==> !Troubled(s, a)
  {
    hide Seeded, Requested, Key;
    if a.Request? {
      RequestKeepsNoErrors(s, a.account);
    } else if a.Fail? {
      assert Step(s, a, periods).flight[a.worker].stage == Posted(None, 0, DEFAULT_PERIOD);
    }
  }

  ghost predicate NeverErrors(s: State, actions: seq<Action>, periods: Periods)
    requires Runs(s, actions, periods)
    decreases |actions|
  {
    NoErrors(s) && (actions == [] || NeverErrors(Step(s, actions[0], periods), actions[1..], periods))
  }

  ghost predicate UntroubledRun(s: State, actions: seq<Action>, periods: Periods)
    requires Runs(s, actions, periods)
    decreases |actions|
  {
    actions == [] || (!Troubled(s, actions[0]) && UntroubledRun(Step(s, actions[0], periods), actions[1..], periods))
  }

  lemma {:induction false} RunKeepsNoErrors(s: State, actions: seq<Action>, periods: Periods)
    requires NoErrors(s) && Runs(s, actions, periods)
    ensures NeverErrors(s, actions, periods) <==> UntroubledRun(s, actions, periods)
    ensures UntroubledRun(s, actions, periods) ==> NoErrors(After(s, actions, periods))
    decreases |actions|
  {
    hide NoErrors, Troubled;
    if actions != [] {
      StepKeepsNoErrors(s, actions[0], periods);
      if Troubled(s, actions[0]) {
        assert !NeverErrors(Step(s, actions[0], periods), actions[1..], periods);
      } else {
        RunKeepsNoErrors(Step(s, actions[0], periods), actions[1..], periods);
      }
    }
  }

  /**
   Throughout a run every answer given or posted carries a code if and only if
   no worker fails, every request names a device and a credential, and each is
   made of a connected device, while one is pending or when the cache can serve it.
   */
  lemma ErrorsExactlyIfTroubled(actions: seq<Action>, periods: Periods)
    requires Runs(INITIAL, actions, periods)
    ensures NeverErrors(INITIAL, actions, periods) <==> UntroubledRun(INITIAL, actions, periods)
    ensures UntroubledRun(INITIAL, actions, periods) ==>
              forall a <- After(INITIAL, actions, periods).answers :: a.code.Some?
  {
    RunKeepsNoErrors(INITIAL, actions, periods);
  }

  /**
   A request of a connected device that nothing is pending or fit to be served
   for, with no time passing, is answered with the code of the moment and the
   end of its step, which then are in the cache.
   */
  lemma FreshCodeIsSent(s: State, a: Account, periods: Periods)
    requires a.device != "" && a.name != "" && a.device in s.devices && periods(a) > 0 && Key(a) !in s.pending
    requires Key(a) in s.cache ==> 2 * (s.cache[Key(a)].validUntil - s.clock) <= s.cache[Key(a)].period
    ensures var actions := [Request(a), Calculate(s.next)] + [Stamp(s.next, true), Complete(s.next)];
            && Runs(s, actions, periods)
            && var t := After(s, actions, periods);
               var code := Code(a, s.clock / periods(a));
               var end := (s.clock / periods(a) + 1) * periods(a);
               && t.answers == s.answers + [Answer(a, Some(code), end)] && t.unanswered == s.unanswered - {a}
               && t.cache == s.cache[Key(a) := Cached(code, end, periods(a))]
               && t.pending == s.pending && t.flight == s.flight - {s.next} && t.hits == s.hits
  {
    hide Key, Runs, After;
    GenerationStarts(s, a, periods);
    var s2 := After(s, [Request(a), Calculate(s.next)], periods);
    GenerationEnds(s2, s.next, periods);
    RunsJoin(s, [Request(a), Calculate(s.next)], [Stamp(s.next, true), Complete(s.next)], periods);
    assert s2.flight - {s.next} == s.flight - {s.next};
  }

  lemma GenerationStarts(s: State, a: Account, periods: Periods)
    requires a.device != "" && a.name != "" && a.device in s.devices && periods(a) > 0 && Key(a) !in s.pending
    requires Key(a) in s.cache ==> 2 * (s.cache[Key(a)].validUntil - s.clock) <= s.cache[Key(a)].period
    ensures Runs(s, [Request(a), Calculate(s.next)], periods)
    ensures After(s, [Request(a), Calculate(s.next)], periods)
            == s.(cache := s.cache - {Key(a)}, pending := s.pending + {Key(a)},
                  flight := s.flight[s.next := Generation(a, Calculated(Code(a, s.clock / periods(a))))],
                  next := s.next + 1, unanswered := s.unanswered + {a})
  {
    hide Key, Runs, After;
    TwoSteps(s, Request(a), Calculate(s.next), periods);
  }

  lemma GenerationEnds(s: State, w: nat, periods: Periods)
    requires w in s.flight && s.flight[w].stage.Calculated? && periods(s.flight[w].account) > 0
    ensures var a := s.flight[w].account;
            var code := s.flight[w].stage.code;
            var end := (s.clock / periods(a) + 1) * periods(a);
            && Runs(s, [Stamp(w, true), Complete(w)], periods)
            && After(s, [Stamp(w, true), Complete(w)], periods)
               == s.(cache := s.cache[Key(a) := Cached(code, end, periods(a))],
                     pending := s.pending - {Key(a)}, flight := s.flight - {w},
                     unanswered := s.unanswered - {a}, answers := s.answers + [Answer(a, Some(code), end)])
  {
    hide Key;
    var a := s.flight[w].account;
    StampIsInTime(s.clock, s.clock, periods(a));
    MulMonotone(1, s.clock / periods(a) + 1, periods(a));
    TwoSteps(s, Stamp(w, true), Complete(w), periods);
  }

  /** With more than half of its period left a cached code is what the caller gets, and no worker starts. */
  lemma CachedCodeIsSent(s: State, a: Account, periods: Periods)
    requires a.device != "" && a.name != "" && Key(a) in s.cache && s.replies == []
    requires 2 * (s.cache[Key(a)].validUntil - s.clock) > s.cache[Key(a)].period
    ensures var entry := s.cache[Key(a)];
            && Runs(s, [Request(a), Reply], periods)
            && After(s, [Request(a), Reply], periods)
               == s.(hits := s.hits + [Hit(a, entry, s.clock)], unanswered := s.unanswered - {a},
                     answers := s.answers + [Answer(a, Some(entry.code), entry.validUntil)])
  {
    hide Key;
    TwoSteps(s, Request(a), Reply, periods);
  }

  // ---------------------------------------------------------------------------
  // What seeding and disconnecting leave
  // ---------------------------------------------------------------------------

  /** The listed code is a TOTP code that needs no touch, has not expired and belongs under the key. */
  predicate SeedsKey(device: string, c: Listed, now: nat, periods: Periods, key: string) {
    var a := Account(device, c.name);
    && key == a.device + "/" + a.name
    && c.isTotp && !c.touch && c.hasCode && periods(a) > 0
    && c.stampedAt + (periods(a) - c.stampedAt % periods(a)) > now
  }

  /** After seeding, a key holds what it held before if no listed code can be cached under it. */
  lemma {:induction false} SeedingLeavesOthers(cache: map<string, Cached>, device: string, list: seq<Listed>,
                                               now: nat, periods: Periods, key: string)
    requires forall c <- list :: !SeedsKey(device, c, now, periods, key)
    ensures var r := Seeded(cache, device, list, now, periods);
            (key in r <==> key in cache) && (key in r ==> r[key] == cache[key])
  {
    if list != [] {
      var n := |list| - 1;
      assert list[n] in list && forall b <- list[..n] :: b in list;
      SeedingLeavesOthers(cache, device, list[..n], now, periods, key);
    }
  }

  /** And otherwise the last of those that can. */
  lemma {:induction false} SeededIsLastListed(cache: map<string, Cached>, device: string, list: seq<Listed>,
                                              now: nat, periods: Periods, i: nat)
    requires i < |list| && SeedsKey(device, list[i], now, periods, device + "/" + list[i].name)
    requires forall j :: i < j < |list| ==> list[j].name == list[i].name ==>
               !SeedsKey(device, list[j], now, periods, device + "/" + list[i].name)
    ensures var r, c, p := Seeded(cache, device, list, now, periods), list[i], periods(Account(device, list[i].name));
            && device + "/" + c.name in r
            && r[device + "/" + c.name]
               == Cached(Code(Account(device, c.name), c.challengedAt / 30), c.stampedAt + (p - c.stampedAt % p), p)
  {
    var n := |list| - 1;
    if i < n {
      assert list[..n][i] == list[i] && forall j :: 0 <= j < n ==> list[..n][j] == list[j];
      SeededIsLastListed(cache, device, list[..n], now, periods, i);
      var key := device + "/" + list[i].name;
      assert Key(Account(device, list[n].name)) == key ==> list[n].name == list[i].name by {
        assert Key(Account(device, list[n].name))[|device| + 1..] == list[n].name && key[|device| + 1..] == list[i].name;
      }
    }
  }

  /**
   A disconnect takes exactly the device's own codes and pending keys away and
   leaves every other device's, all generations and all answers.
   */
  lemma DisconnectTakesItsOwn(s: State, device: string, b: Account, periods: Periods)
    requires SlashFree(device) && SlashFree(b.device)
    ensures var t := Step(s, Disconnect(device), periods);
            && (Key(b) in t.cache <==> b.device != device && Key(b) in s.cache)
            && (Key(b) in t.cache ==> t.cache[Key(b)] == s.cache[Key(b)])
            && (Key(b) in t.pending <==> b.device != device && Key(b) in s.pending)
            && t == s.(cache := t.cache, pending := t.pending, devices := s.devices - {device})
  {
    KeysAreDistinct(Account(device, ""), b);
  }

  /** The device leaves with this step. */
  predicate Removes(a: Action, device: string) {
    a == Disconnect(device) || a == Forget(device) || a == ServiceLost
  }

  lemma {:induction false} ConnectedIsLastWord(s: State, actions: seq<Action>, periods: Periods, device: string)
    requires Runs(s, actions, periods)
    ensures device in After(s, actions, periods).devices <==>
              || (device in s.devices && forall a <- actions :: !Removes(a, device))
              || (exists i :: 0 <= i < |actions| && actions[i] == Connect(device)
                              && forall j :: i < j < |actions| ==> !Removes(actions[j], device))
    decreases |actions|
  {
    if actions != [] {
      var first, rest := actions[0], actions[1..];
      var t := Step(s, first, periods);
      ConnectedIsLastWord(t, rest, periods, device);
      StepConnects(s, first, periods, device);
      assert first in actions && forall a <- actions :: a == first || a in rest;
      assert forall i :: 0 <= i < |rest| ==> rest[i] == actions[i + 1];
      assert (forall a <- rest :: !Removes(a, device)) <==> forall j :: 0 < j < |actions| ==> !Removes(actions[j], device);
      if i :| 0 <= i < |rest| && rest[i] == Connect(device) && forall j :: i < j < |rest| ==> !Removes(rest[j], device) {
        assert actions[i + 1] == Connect(device);
        assert forall j :: i + 1 < j < |actions| ==> actions[j] == rest[j - 1];
      }
    }
  }

  lemma StepConnects(s: State, a: Action, periods: Periods, device: string)
    requires Enabled(s, a, periods)
    ensures device in Step(s, a, periods).devices <==> a == Connect(device) || (device in s.devices && !Removes(a, device))
  {
    hide Seeded, Key;
  }

  /** A device counts as connected exactly if it has connected and has not left since. */
  lemma DeviceIsConnected(actions: seq<Action>, periods: Periods, device: string)
    requires Runs(INITIAL, actions, periods)
    ensures device in After(INITIAL, actions, periods).devices <==>
              exists i :: 0 <= i < |actions| && actions[i] == Connect(device)
                          && forall j :: i < j < |actions| ==>
                               actions[j] != Disconnect(device) && actions[j] != Forget(device) && actions[j] != ServiceLost
  {
    ConnectedIsLastWord(INITIAL, actions, periods, device);
    if i :| 0 <= i < |actions| && actions[i] == Connect(device)
            && forall j :: i < j < |actions| ==> !Removes(actions[j], device) {
      assert forall j :: i < j < |actions| ==> !Removes(actions[j], device);
    }
  }

  /** The counter's step has begun and not ended. */
  predicate InStep(t: nat, counter: nat, period: nat) {
    counter * period <= t < counter * period + period
  }

  /** The code is the one RFC 6238 gives for the moment of the answer. */
  predicate Current(h: Hit, periods: Periods)
    requires periods(h.account) > 0
  {
    h.entry.code == Code(h.account, Codes.Step(h.at, periods(h.account)))
  }

  /**
   In every run an answer from the cache has more than half of its period left
   and carries the code of the current step if and only if the moment lies in
   the step of the code's counter; stamped with the credential's own period,
   that is if and only if the code was computed for the step in which it was
   stamped.
   */
  lemma CachedAnswerIsCurrent(actions: seq<Action>, periods: Periods, k: nat)
    requires Runs(INITIAL, actions, periods) && k < |After(INITIAL, actions, periods).hits|
    ensures var h := After(INITIAL, actions, periods).hits[k];
            && 2 * (h.entry.validUntil - h.at) > h.entry.period
            && (SlashFree(h.account.device) ==> h.entry.code.account == h.account)
            && (SlashFree(h.account.device) && periods(h.account) > 0 ==>
                  (Current(h, periods) <==> InStep(h.at, h.entry.code.counter, periods(h.account))))
            && (SlashFree(h.account.device) && h.entry.period == periods(h.account) > 0 ==>
                  (Current(h, periods) <==> h.entry.code.counter + 1 == h.entry.validUntil / h.entry.period))
  {
    EveryRunKeepsInvariant(INITIAL, actions, periods);
    var h := After(INITIAL, actions, periods).hits[k];
    assert HitRight(h);
    if SlashFree(h.account.device) {
      KeysAreDistinct(h.entry.code.account, h.account);
      HitStep(h);
      if periods(h.account) > 0 {
        StepWindow(h.at, h.entry.code.counter, periods(h.account));
      }
    }
  }

  lemma StepWindow(t: nat, counter: nat, period: nat)
    requires period > 0
    ensures Codes.Step(t, period) == counter <==> InStep(t, counter, period)
  {
    if InStep(t, counter, period) {
      QuotientIs(t, period, counter);
    }
  }

  /** The moment of the answer lies in the step in which the entry was stamped. */
  lemma HitStep(h: Hit)
    requires HitRight(h)
    ensures Codes.Step(h.at, h.entry.period) + 1 == h.entry.validUntil / h.entry.period
  {
    var p, q := h.entry.period, h.entry.validUntil / h.entry.period;
    assert (q - 1) * p == q * p - p;
    QuotientIs(h.at, p, q - 1);
  }

  // ---------------------------------------------------------------------------
  // Runs in which every code is stamped in its own step
  // ---------------------------------------------------------------------------

  /**
   A worker stamps with the credential's period, within the step of its
   challenge; what is seeded was stamped in the step that its 30 second counter
   numbers, which for a period of 30 means in the step of its challenge.
   */
  ghost predicate Prompt(s: State, a: Action, periods: Periods)
    requires Enabled(s, a, periods)
  {
    match a
    case Stamp(w, found) =>
      var period := periods(s.flight[w].account);
      (found || period == DEFAULT_PERIOD) && Codes.Step(s.clock, period) == s.flight[w].stage.code.counter
    case Seed(device, list) => forall c <- list :: Seeds(device, c, s.clock, periods) ==> PromptlyListed(device, c, periods)
    case _ => true
  }

  predicate PromptlyListed(device: string, c: Listed, periods: Periods) {
    var period := periods(Account(device, c.name));
    period > 0 && c.challengedAt / DEFAULT_PERIOD == Codes.Step(c.stampedAt, period)
  }

  ghost predicate PromptRun(s: State, actions: seq<Action>, periods: Periods)
    requires Runs(s, actions, periods)
    decreases |actions|
  {
    actions == [] || (Prompt(s, actions[0], periods) && PromptRun(Step(s, actions[0], periods), actions[1..], periods))
  }

  /** The code was computed for the step that ends at validUntil. */
  predicate MadeInStep(code: Code, validUntil: nat, period: nat, periods: Periods) {
    period == periods(code.account) && period > 0 && validUntil == (code.counter + 1) * period
  }

  ghost predicate EntriesPrompt(cache: map<string, Cached>, periods: Periods) {
    forall k <- cache :: MadeInStep(cache[k].code, cache[k].validUntil, cache[k].period, periods)
  }

  ghost predicate AllPrompt(s: State, periods: Periods) {
    && EntriesPrompt(s.cache, periods)
    && (forall w <- s.flight :: s.flight[w].stage.Posted? && s.flight[w].stage.result.Some? ==>
          var g := s.flight[w].stage; MadeInStep(g.result.value, g.validUntil, g.period, periods))
    && (forall h <- s.hits :: MadeInStep(h.entry.code, h.entry.validUntil, h.entry.period, periods))
    && forall a <- s.answers :: a.code.Some? ==>
         MadeInStep(a.code.value, a.validUntil, periods(a.code.value.account), periods)
  }

  lemma {:induction false} SeedKeepsPrompt(cache: map<string, Cached>, device: string, list: seq<Listed>,
                                           now: nat, periods: Periods)
    requires EntriesPrompt(cache, periods)
    requires forall c <- list :: Seeds(device, c, now, periods) ==> PromptlyListed(device, c, periods)
    ensures EntriesPrompt(Seeded(cache, device, list, now, periods), periods)
  {
    if list != [] {
      var c := list[|list| - 1];
      SeedKeepsPrompt(cache, device, list[..|list| - 1], now, periods);
      if Seeds(device, c, now, periods) {
        StampIsInTime(c.stampedAt, c.stampedAt, periods(Account(device, c.name)));
      }
    }
  }

  lemma GenerationIsRight(s: State, w: nat)
    requires Invariant(s) && w in s.flight
    ensures GenerationRight(s.flight[w], s.clock)
  {
  }

  lemma StepKeepsPrompt(s: State, a: Action, periods: Periods)
    requires Invariant(s) && Enabled(s, a, periods) && Prompt(s, a, periods) && AllPrompt(s, periods)
    ensures AllPrompt(Step(s, a, periods), periods)
  {
    hide Invariant, Seeded;
    match a
    case Stamp(w, _) =>
      GenerationIsRight(s, w);
      StampIsInTime(s.clock, s.clock, periods(s.flight[w].account));
    case Seed(device, list) => SeedKeepsPrompt(s.cache, device, list, s.clock, periods);
    case Reply => RepliesAreHits(s);
    case _ =>
  }

  lemma RepliesAreHits(s: State)
    requires Invariant(s) && s.replies != []
    ensures s.replies[0] in s.hits
  {
  }

  lemma {:induction false} RunKeepsPrompt(s: State, actions: seq<Action>, periods: Periods)
    requires Invariant(s) && AllPrompt(s, periods) && Runs(s, actions, periods) && PromptRun(s, actions, periods)
    ensures AllPrompt(After(s, actions, periods), periods)
    decreases |actions|
  {
    hide Invariant, AllPrompt;
    if actions != [] {
      StepKeepsInvariant(s, actions[0], periods);
      StepKeepsPrompt(s, actions[0], periods);
      RunKeepsPrompt(Step(s, actions[0], periods), actions[1..], periods);
    }
  }

  /** In such runs every answer from the cache is the code of the current step. */
  lemma PromptRunsServeCurrentCodes(actions: seq<Action>, periods: Periods, k: nat)
    requires Runs(INITIAL, actions, periods) && PromptRun(INITIAL, actions, periods)
    requires k < |After(INITIAL, actions, periods).hits|
    ensures var h := After(INITIAL, actions, periods).hits[k];
            SlashFree(h.account.device) ==> periods(h.account) > 0 && Current(h, periods)
  {
    RunKeepsPrompt(INITIAL, actions, periods);
    CachedAnswerIsCurrent(actions, periods, k);
    var h := After(INITIAL, actions, periods).hits[k];
    assert MadeInStep(h.entry.code, h.entry.validUntil, h.entry.period, periods);
    QuotientIs(h.entry.validUntil, h.entry.period, h.entry.code.counter + 1);
  }

  /** And every code sent, from the cache or by a worker, is sent with the end of its own step. */
  lemma PromptRunsTellTheEnd(actions: seq<Action>, periods: Periods, k: nat)
    requires Runs(INITIAL, actions, periods) && PromptRun(INITIAL, actions, periods)
    requires k < |After(INITIAL, actions, periods).answers|
    ensures var a := After(INITIAL, actions, periods).answers[k];
            a.code.Some? && SlashFree(a.account.device) ==>
              && a.code.value.account == a.account && periods(a.account) > 0
              && a.validUntil == (a.code.value.counter + 1) * periods(a.account)
  {
    RunKeepsPrompt(INITIAL, actions, periods);
    EveryAnswerIsForItsAccount(actions, periods, k);
    var a := After(INITIAL, actions, periods).answers[k];
    assert a.code.Some? ==> MadeInStep(a.code.value, a.validUntil, periods(a.code.value.account), periods);
  }

  /**
   Otherwise not: a code stamped after its step has passed is served to the
   next request, if that comes before half of the new step is over.
   */
  lemma LateStampIsServed(s: State, w: nat, periods: Periods)
    requires w in s.flight && s.flight[w].stage.Calculated? && periods(s.flight[w].account) > 0
    requires s.flight[w].account.device != "" && s.flight[w].account.name != ""
    requires var a := s.flight[w].account;
             && s.flight[w].stage.code.account == a
             && s.flight[w].stage.code.counter != Codes.Step(s.clock, periods(a))
             && periods(a) - s.clock % periods(a) > periods(a) / 2
    ensures var a := s.flight[w].account;
            var actions := [Stamp(w, true), Complete(w), Request(a)];
            && Runs(s, actions, periods)
            && var hits := After(s, actions, periods).hits;
               |hits| == |s.hits| + 1 && hits[|s.hits|].account == a && !Current(hits[|s.hits|], periods)
  {
    var a := s.flight[w].account;
    var s1 := Step(s, Stamp(w, true), periods);
    var s2 := Step(s1, Complete(w), periods);
    assert s2.clock == s.clock && Key(a) in s2.cache;
    assert Usable(s2.cache[Key(a)], s2.clock);
    ThreeSteps(s, Stamp(w, true), Complete(w), Request(a), periods);
  }

  /**
   From the start: a code computed in the first step and stamped in the second
   is served to a request in the second.
   */
  lemma LateStampIsReached(a: Account, periods: Periods)
    requires SlashFree(a.device) && a.device != "" && a.name != "" && periods(a) > 0
    ensures var first := [Connect(a.device), Request(a)] + [Calculate(0)] + [Tick(periods(a))];
            var actions := first + [Stamp(0, true), Complete(0), Request(a)];
            && Runs(INITIAL, actions, periods)
            && var hits := After(INITIAL, actions, periods).hits;
               |hits| == 1 && hits[0].account == a && !Current(hits[0], periods)
  {
    var p := periods(a);
    var s2 := Step(Step(INITIAL, Connect(a.device), periods), Request(a), periods);
    TwoSteps(INITIAL, Connect(a.device), Request(a), periods);
    OneStep(s2, Calculate(0), periods);
    RunsJoin(INITIAL, [Connect(a.device), Request(a)], [Calculate(0)], periods);
    var s3 := Step(s2, Calculate(0), periods);
    OneStep(s3, Tick(p), periods);
    RunsJoin(INITIAL, [Connect(a.device), Request(a)] + [Calculate(0)], [Tick(p)], periods);
    var s := Step(s3, Tick(p), periods);
    assert s.clock == p && s.flight[0] == Generation(a, Calculated(Code(a, Codes.Step(0, p))));
    QuotientIs(0, p, 0);
    QuotientIs(p, p, 1);
    LateStampIsServed(s, 0, periods);
    RunsJoin(INITIAL, [Connect(a.device), Request(a)] + [Calculate(0)] + [Tick(p)],
             [Stamp(0, true), Complete(0), Request(a)], periods);
  }

  lemma TwoSteps(s: State, a: Action, b: Action, periods: Periods)
    requires Enabled(s, a, periods) && Enabled(Step(s, a, periods), b, periods)
    ensures Runs(s, [a, b], periods) && After(s, [a, b], periods) == Step(Step(s, a, periods), b, periods)
  {
    hide Step, Enabled;
    assert [a, b][1..] == [b];
    OneStep(Step(s, a, periods), b, periods);
  }

  lemma ThreeSteps(s: State, a: Action, b: Action, c: Action, periods: Periods)
    requires Enabled(s, a, periods) && Enabled(Step(s, a, periods), b, periods)
    requires Enabled(Step(Step(s, a, periods), b, periods), c, periods)
    ensures Runs(s, [a, b, c], periods)
    ensures After(s, [a, b, c], periods) == Step(Step(Step(s, a, periods), b, periods), c, periods)
  {
    hide Step, Enabled;
    assert [a, b, c][1..] == [b, c] && [b, c][1..] == [c] && [c][1..] == [];
    var s1 := Step(s, a, periods);
    var s2 := Step(s1, b, periods);
    var s3 := Step(s2, c, periods);
    assert Runs(s3, [], periods) && After(s3, [], periods) == s3;
    assert Runs(s2, [c], periods) && After(s2, [c], periods) == s3;
    assert Runs(s1, [b, c], periods) && After(s1, [b, c], periods) == s3;
  }

  /** Nothing is cached, the device connects, its clock reads t, and a code just computed and listed is seeded. */
  function SeedRun(a: Account, t: nat): seq<Action> {
    [Connect(a.device), Tick(t), Seed(a.device, [Listed(a.name, true, false, true, t, t)])] + [Request(a)]
  }

  lemma SeededAnswer(a: Account, t: nat, periods: Periods)
    requires SlashFree(a.device) && a.device != "" && a.name != "" && periods(a) > 0
    ensures var entry := Cached(Code(a, t / DEFAULT_PERIOD), Codes.ValidUntil(t, periods(a)), periods(a));
            && Runs(INITIAL, SeedRun(a, t), periods)
            && After(INITIAL, SeedRun(a, t), periods).hits == if Usable(entry, t) then [Hit(a, entry, t)] else []
  {
    var c := Listed(a.name, true, false, true, t, t);
    var s1 := Step(INITIAL, Connect(a.device), periods);
    var s2 := Step(s1, Tick(t), periods);
    SeedsOne(a, t, periods);
    var s3 := Step(s2, Seed(a.device, [c]), periods);
    ThreeSteps(INITIAL, Connect(a.device), Tick(t), Seed(a.device, [c]), periods);
    OneStep(s3, Request(a), periods);
    RunsJoin(INITIAL, [Connect(a.device), Tick(t), Seed(a.device, [c])], [Request(a)], periods);
  }

  lemma SeedsOne(a: Account, t: nat, periods: Periods)
    requires periods(a) > 0
    ensures var entry := Cached(Code(a, t / DEFAULT_PERIOD), Codes.ValidUntil(t, periods(a)), periods(a));
            Seeded(map[], a.device, [Listed(a.name, true, false, true, t, t)], t, periods) == map[Key(a) := entry]
  {
    assert [Listed(a.name, true, false, true, t, t)][..0] == [];
    Codes.StepLastsUntil(t, t, periods(a));
  }

  lemma OneStep(s: State, a: Action, periods: Periods)
    requires Enabled(s, a, periods)
    ensures Runs(s, [a], periods) && After(s, [a], periods) == Step(s, a, periods)
  {
    assert [a][1..] == [];
  }

  /** Every answer from the cache is the code of the current step. */
  ghost predicate AllCurrent(s: State, periods: Periods) {
    forall h <- s.hits :: periods(h.account) > 0 && Current(h, periods)
  }

  ghost predicate SeedIsRight(a: Account, t: nat, periods: Periods) {
    Runs(INITIAL, SeedRun(a, t), periods) && AllCurrent(After(INITIAL, SeedRun(a, t), periods), periods)
  }

  /**
   A code seeded as soon as it was computed is right at every moment if and
   only if its period is the 30 seconds of the challenge that CALCULATE ALL
   sends; with any other it is wrong at thirty of its periods.
   */
  lemma SeedingIsRightForThirtySeconds(a: Account, periods: Periods)
    requires SlashFree(a.device) && a.device != "" && a.name != "" && periods(a) > 0
    ensures (forall t: nat :: SeedIsRight(a, t, periods)) <==> periods(a) == DEFAULT_PERIOD
    ensures periods(a) != DEFAULT_PERIOD ==> !SeedIsRight(a, 30 * periods(a), periods)
  {
    hide SeedIsRight;
    if periods(a) == DEFAULT_PERIOD {
      forall t: nat ensures SeedIsRight(a, t, periods) {
        ThirtySecondsAreRight(a, t, periods);
      }
    } else {
      OtherPeriodIsWrong(a, periods);
    }
  }

  lemma ThirtySecondsAreRight(a: Account, t: nat, periods: Periods)
    requires SlashFree(a.device) && a.device != "" && a.name != "" && periods(a) == DEFAULT_PERIOD
    ensures SeedIsRight(a, t, periods)
  {
    hide After, Runs;
    SeededAnswer(a, t, periods);
  }

  lemma OtherPeriodIsWrong(a: Account, periods: Periods)
    requires SlashFree(a.device) && a.device != "" && a.name != "" && periods(a) > 0 && periods(a) != DEFAULT_PERIOD
    ensures !SeedIsRight(a, 30 * periods(a), periods)
  {
    hide After, Runs;
    var p := periods(a);
    var t := 30 * p;
    SeededAnswer(a, t, periods);
    QuotientIs(t, p, 30);
    MultipleStarts(p);
    assert t / DEFAULT_PERIOD == p;
    var h := Hit(a, Cached(Code(a, p), Codes.ValidUntil(t, p), p), t);
    var hits := After(INITIAL, SeedRun(a, t), periods).hits;
    assert hits == [h] && hits[0] == h && !Current(h, periods);
    assert hits[0] in hits;
  }

  lemma MultipleStarts(p: nat)
    requires p > 0
    ensures Codes.ValidUntil(30 * p, p) == 30 * p + p
  {
    QuotientIs(30 * p, p, 30);
  }

  // ---------------------------------------------------------------------------
  // De-duplication
  // ---------------------------------------------------------------------------

  ghost predicate OneEach(s: State) {
    && s.pending == KeysInFlight(s)
    && (forall v <- s.flight, w <- s.flight :: v != w ==> Key(s.flight[v].account) != Key(s.flight[w].account))
  }

  lemma NextIsNew(s: State)
    requires Invariant(s)
    ensures s.next !in s.flight
  {
  }

  lemma RequestKeepsOneEach(s: State, a: Account)
    requires Invariant(s) && OneEach(s)
    ensures OneEach(Requested(s, a))
  {
    hide Key, Invariant;
    NextIsNew(s);
    var t := Requested(s, a);
    if t.flight != s.flight {
      assert t.flight == s.flight[s.next := Generation(a, Working)];
      assert forall w <- s.flight :: Key(s.flight[w].account) in KeysInFlight(s);
      assert KeysInFlight(t) == KeysInFlight(s) + {Key(a)} by {
        assert s.next in t.flight && forall w <- s.flight :: w in t.flight && t.flight[w] == s.flight[w];
      }
    }
  }

  lemma CompletionKeepsOneEach(s: State, worker: nat)
    requires OneEach(s) && worker in s.flight && s.flight[worker].stage.Posted?
    ensures OneEach(Completed(s, worker))
  {
    hide Key;
    var t, key := Completed(s, worker), Key(s.flight[worker].account);
    assert forall w <- t.flight :: w in s.flight && t.flight[w] == s.flight[w] && Key(t.flight[w].account) != key;
    forall k | k in s.pending - {key} ensures k in KeysInFlight(t) {
      var w :| w in s.flight && Key(s.flight[w].account) == k;
      assert w in t.flight;
    }
  }

  lemma OtherKeepsOneEach(s: State, t: State)
    requires OneEach(s) && t.pending == s.pending && t.flight.Keys == s.flight.Keys
    requires forall w <- s.flight :: t.flight[w].account == s.flight[w].account
    ensures OneEach(t)
  {
  }

  /** No generation of the device's keys is in flight when it disconnects. */
  ghost predicate Quiet(s: State, a: Action) {
    a.Disconnect? ==> forall w <- s.flight :: !(Prefix(a.device) <= Key(s.flight[w].account))
  }

  /** A disconnect keeps de-duplication if and only if the device has no generation in flight. */
  lemma DisconnectKeepsOneEach(s: State, device: string, periods: Periods)
    requires Invariant(s) && OneEach(s)
    ensures OneEach(Step(s, Disconnect(device), periods)) <==> Quiet(s, Disconnect(device))
    ensures SlashFree(device) ==> (Quiet(s, Disconnect(device)) <==> forall w <- s.flight :: s.flight[w].account.device != device)
  {
    var t := Step(s, Disconnect(device), periods);
    assert t.flight == s.flight && KeysInFlight(t) == KeysInFlight(s);
    assert t.pending == set k | k in s.pending && !(Prefix(device) <= k);
    forall w | w in s.flight ensures Key(s.flight[w].account) in s.pending && GenerationRight(s.flight[w], s.clock) {
      assert Key(s.flight[w].account) in KeysInFlight(s);
    }
    if SlashFree(device) {
      forall w | w in s.flight
        ensures Prefix(device) <= Key(s.flight[w].account) <==> s.flight[w].account.device == device
      {
        KeysAreDistinct(Account(device, ""), s.flight[w].account);
      }
    }
  }

  lemma StepKeepsOneEach(s: State, a: Action, periods: Periods)
    requires Invariant(s) && OneEach(s) && Enabled(s, a, periods)
    ensures OneEach(Step(s, a, periods)) <==> Quiet(s, a)
  {
    hide Invariant, OneEach, Requested, Completed, Seeded, KeysInFlight;
    if a.Disconnect? {
      DisconnectKeepsOneEach(s, a.device, periods);
    } else if a.Request? {
      RequestKeepsOneEach(s, a.account);
    } else if a.Complete? {
      CompletionKeepsOneEach(s, a.worker);
    } else {
      OtherKeepsOneEach(s, Step(s, a, periods));
    }
  }

  /** In every state of the run the pending keys are exactly those in flight, and no key is in flight twice. */
  ghost predicate AlwaysOneEach(s: State, actions: seq<Action>, periods: Periods)
    requires Runs(s, actions, periods)
    decreases |actions|
  {
    OneEach(s) && (actions == [] || AlwaysOneEach(Step(s, actions[0], periods), actions[1..], periods))
  }

  ghost predicate QuietRun(s: State, actions: seq<Action>, periods: Periods)
    requires Runs(s, actions, periods)
    decreases |actions|
  {
    actions == [] || (Quiet(s, actions[0]) && QuietRun(Step(s, actions[0], periods), actions[1..], periods))
  }

  lemma {:induction false} RunKeepsOneEach(s: State, actions: seq<Action>, periods: Periods)
    requires Invariant(s) && OneEach(s) && Runs(s, actions, periods)
    ensures AlwaysOneEach(s, actions, periods) <==> QuietRun(s, actions, periods)
    decreases |actions|
  {
    hide Invariant, OneEach, Quiet;
    if actions != [] {
      var t := Step(s, actions[0], periods);
      StepKeepsInvariant(s, actions[0], periods);
      StepKeepsOneEach(s, actions[0], periods);
      if Quiet(s, actions[0]) {
        RunKeepsOneEach(t, actions[1..], periods);
      } else {
        assert !OneEach(t);
        assert !AlwaysOneEach(t, actions[1..], periods);
      }
    }
  }

  /**
   De-duplication holds throughout a run if and only if no device disconnects
   while a generation of its own is in flight.
   */
  lemma OneGenerationPerKey(actions: seq<Action>, periods: Periods)
    requires Runs(INITIAL, actions, periods)
    ensures AlwaysOneEach(INITIAL, actions, periods) <==> QuietRun(INITIAL, actions, periods)
  {
    RunKeepsOneEach(INITIAL, actions, periods);
  }

  /** Where it fails, a second generation for the same credential can start beside the first. */
  lemma DisconnectAllowsTwo(s: State, w: nat, periods: Periods)
    requires Invariant(s) && w in s.flight && s.flight[w].account.device != "" && s.flight[w].account.name != ""
    ensures var a := s.flight[w].account;
            var actions := [Disconnect(a.device), Connect(a.device), Request(a)];
            && Runs(s, actions, periods)
            && var t := After(s, actions, periods);
               w in t.flight && s.next in t.flight && w != s.next
               && t.flight[w].account == a && t.flight[s.next].account == a
  {
    var a := s.flight[w].account;
    assert GenerationRight(s.flight[w], s.clock);
    var s1 := Step(s, Disconnect(a.device), periods);
    var s2 := Step(s1, Connect(a.device), periods);
    assert Prefix(a.device) <= Key(a);
    assert Key(a) !in s2.cache && Key(a) !in s2.pending;
    ThreeSteps(s, Disconnect(a.device), Connect(a.device), Request(a), periods);
  }

  lemma {:induction false} RunsJoin(s: State, xs: seq<Action>, ys: seq<Action>, periods: Periods)
    requires Runs(s, xs, periods) && Runs(After(s, xs, periods), ys, periods)
    ensures Runs(s, xs + ys, periods) && After(s, xs + ys, periods) == After(After(s, xs, periods), ys, periods)
    decreases |xs|
  {
    if xs == [] {
      assert xs + ys == ys;
    } else {
      assert (xs + ys)[1..] == xs[1..] + ys;
      RunsJoin(Step(s, xs[0], periods), xs[1..], ys, periods);
    }
  }

  /** From the start, for every credential of a device. */
  lemma TwoGenerationsAreReached(a: Account, periods: Periods)
    requires SlashFree(a.device) && a.device != "" && a.name != ""
    ensures var d := a.device;
            var actions := [Connect(d), Request(a)] + [Disconnect(d), Connect(d), Request(a)];
            && Runs(INITIAL, actions, periods)
            && var t := After(INITIAL, actions, periods);
               0 in t.flight && 1 in t.flight && t.flight[0].account == t.flight[1].account == a
  {
    var d := a.device;
    var first := [Connect(d), Request(a)];
    var s := Step(Step(INITIAL, Connect(d), periods), Request(a), periods);
    TwoSteps(INITIAL, Connect(d), Request(a), periods);
    assert s.flight == map[0 := Generation(a, Working)] && s.next == 1;
    EveryRunKeepsInvariant(INITIAL, first, periods);
    DisconnectAllowsTwo(s, 0, periods);
    RunsJoin(INITIAL, first, [Disconnect(d), Connect(d), Request(a)], periods);
  }
}
