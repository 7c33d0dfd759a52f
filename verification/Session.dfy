/**
 The APDU exchange of one session: rate limit, one retry after a card reset,
 and reassembly of answers that the card sends in pieces (61 XX, ISO/IEC
 7816-4). The card, the reader and the reconnect machinery are an environment
 that may answer anything.
 */
module Session {
  import opened Bytes
  import Codes
  import opened CredentialList
  import Put
  import Tlv

  /** What SCardTransmit gives back. */
  datatype Reply = Received(data: bytes) | CardReset | Failed

  /** A transmission ahead: its reply and the time it takes. */
  datatype Transmission = Transmission(reply: Reply, takes: nat)

  /** What ends the wait for a reconnect: a signal, with the new card handle, or failure or timeout. */
  datatype WakeUp = Ready(handle: nat) | NotReady

  /** A wait ahead: what ends it and the time it takes. */
  datatype Wait = Wait(how: WakeUp, takes: nat)

  datatype Event =
    | Sent(at: nat, handle: nat, apdu: bytes)
    | ResetSignalled(command: bytes)
    | Woken(how: WakeUp)

  /** The environment: what it will do, what has happened, and the clock in milliseconds. */
  datatype World = World(script: seq<Transmission>, waits: seq<Wait>, clock: nat, log: seq<Event>)

  /** The fields of the session that the exchange uses. */
  datatype State = State(cardHandle: nat, rateLimitMs: nat, lastOperation: nat)

  const RECONNECT_TIMEOUT_MS := 10000

  const SEND_REMAINING: bytes := [0x00, 0xA5, 0x00, 0x00, 0x00]

  // ---------------------------------------------------------------------------
  // What the exchange does
  // ---------------------------------------------------------------------------

  /** An environment with nothing left to say fails. */
  function NextReply(w: World): Reply {
    if w.script == [] then Failed else w.script[0].reply
  }

  function AfterTransmit(w: World, handle: nat, apdu: bytes): World {
    var log := w.log + [Sent(w.clock, handle, apdu)];
    if w.script == [] then w.(log := log)
    else w.(script := w.script[1..], clock := w.clock + w.script[0].takes, log := log)
  }

  /** An environment with no answer left lets the wait time out. */
  function NextWait(w: World): Wait {
    if w.waits == [] then Wait(NotReady, RECONNECT_TIMEOUT_MS) else w.waits[0]
  }

  function NextWakeUp(w: World): WakeUp {
    NextWait(w).how
  }

  function AfterWait(w: World): World {
    w.(waits := if w.waits == [] then [] else w.waits[1..], clock := w.clock + NextWait(w).takes,
       log := w.log + [Woken(NextWakeUp(w))])
  }

  /** The rate limit: how long to sleep before a command. */
  function Pause(s: State, clock: nat): nat {
    if s.rateLimitMs > 0 && s.lastOperation > 0 && clock - s.lastOperation < s.rateLimitMs
    then s.rateLimitMs - (clock - s.lastOperation) else 0
  }

  /** The reassembly: payloads are joined until an answer does not end in 61 XX or does not come. */
  function Reassembled(response: bytes, w: World, handle: nat, acc: bytes): (bytes, World)
    decreases |w.script|
  {
    if |response| < 2 then (acc, w)
    else if response[|response| - 2] != 0x61 then (acc + response, w)
    else
      var joined := acc + Payload(response);
      var w' := AfterTransmit(w, handle, SEND_REMAINING);
      match NextReply(w)
      case Received(next) => Reassembled(next, w', handle, joined)
      case _ => (joined, w')
  }

  /** The whole exchange: result, session and world afterwards. */
  function Exchange(s: State, w: World, command: bytes, retryCount: nat): (bytes, State, World)
    decreases 1 - retryCount
  {
    if s.cardHandle == 0 then ([], s, w)
    else
      var w0 := w.(clock := w.clock + Pause(s, w.clock));
      var w1 := AfterTransmit(w0, s.cardHandle, command);
      var s1 := s.(lastOperation := w1.clock);
      match NextReply(w)
      case Received(data) =>
        var (reply, w2) := Reassembled(data, w1, s.cardHandle, []);
        (reply, s1, w2)
      case Failed => ([], s1, w1)
      case CardReset =>
        if retryCount != 0 then ([], s1, w1)
        else
          var w2 := AfterWait(w1.(log := w1.log + [ResetSignalled(command)]));
          match NextWakeUp(w)
          case NotReady => ([], s1, w2)
          case Ready(handle) => Exchange(s1.(cardHandle := handle), w2, command, retryCount + 1)
  }

  // ---------------------------------------------------------------------------
  // The objects that do it
  // ---------------------------------------------------------------------------

  class Pcsc {
    var world: World

    constructor (w: World)
      ensures world == w
    {
      world := w;
    }

    method Transmit(handle: nat, apdu: bytes) returns (reply: Reply)
      modifies this
      ensures reply == NextReply(old(world)) && world == AfterTransmit(old(world), handle, apdu)
    {
      reply := NextReply(world);
      world := AfterTransmit(world, handle, apdu);
    }

    method Sleep(ms: nat)
      modifies this
      ensures world == old(world).(clock := old(world).clock + ms)
    {
      world := world.(clock := world.clock + ms);
    }

    /** Emits cardResetDetected and blocks until the reconnect is decided. */
    method AwaitReconnect(command: bytes) returns (how: WakeUp)
      modifies this
      ensures how == NextWakeUp(old(world))
      ensures world == AfterWait(old(world).(log := old(world).log + [ResetSignalled(command)]))
    {
      world := world.(log := world.log + [ResetSignalled(command)]);
      how := NextWakeUp(world);
      world := AfterWait(world);
    }
  }

  class YkOathSession {
    var cardHandle: nat
    var rateLimitMs: nat
    var lastOperation: nat
    const pcsc: Pcsc

    constructor (handle: nat, rate: nat, pcsc: Pcsc)
      ensures Fields() == State(handle, rate, 0) && this.pcsc == pcsc
    {
      cardHandle, rateLimitMs, lastOperation := handle, rate, 0;
      this.pcsc := pcsc;
    }

    function Fields(): State
      reads this
    {
      State(cardHandle, rateLimitMs, lastOperation)
    }

    method SendApdu(command: bytes, retryCount: nat) returns (result: bytes)
      modifies this, pcsc
      ensures (result, Fields(), pcsc.world) == Exchange(old(Fields()), old(pcsc.world), command, retryCount)
      decreases 1 - retryCount
    {
      if cardHandle == 0 {
        return [];
      }
      if rateLimitMs > 0 && lastOperation > 0 {
        var elapsed := pcsc.world.clock - lastOperation;
        if elapsed < rateLimitMs {
          pcsc.Sleep(rateLimitMs - elapsed);
        }
      }
      var reply := pcsc.Transmit(cardHandle, command);
      lastOperation := pcsc.world.clock;
      if !reply.Received? {
        if reply == CardReset && retryCount == 0 {
          var how := pcsc.AwaitReconnect(command);
          if how.Ready? {
            cardHandle := how.handle;
            result := SendApdu(command, retryCount + 1);
            return;
          }
        }
        return [];
      }
      var response := reply.data;
      result := [];
      ghost var first, w1 := response, pcsc.world;
      while |response| >= 2
        invariant Fields() == State(old(cardHandle), old(rateLimitMs), w1.clock)
        invariant Reassembled(first, w1, cardHandle, []) == Reassembled(response, pcsc.world, cardHandle, result)
        decreases |pcsc.world.script|, |response|
      {
        var sw1 := response[|response| - 2];
        assert result + response == result + Payload(response) + response[|response| - 2..];
        result := result + Payload(response);
        if sw1 == 0x61 {
          var more := pcsc.Transmit(cardHandle, SEND_REMAINING);
          if !more.Received? {
            break;
          }
          response := more.data;
        } else {
          result := result + response[|response| - 2..];
          break;
        }
      }
    }
  }

  // ---------------------------------------------------------------------------
  // What goes over the wire, for every environment
  // ---------------------------------------------------------------------------

  ghost predicate OnlyRemaining(es: seq<Event>, handle: nat) {
    forall k :: 0 <= k < |es| ==> es[k].Sent? && es[k].handle == handle && es[k].apdu == [0x00, 0xA5, 0x00, 0x00, 0x00]
  }

  /** One attempt: the command itself, not before its time, then nothing but SEND REMAINING, all on one handle. */
  ghost predicate Attempt(es: seq<Event>, handle: nat, command: bytes, earliest: int) {
    if handle == 0 then es == []
    else
      && es != [] && es[0].Sent? && es[0].handle == handle && es[0].apdu == command && es[0].at >= earliest
      && OnlyRemaining(es[1..], handle)
  }

  /** The rate limit in force: no limit before the first operation. */
  function Earliest(s: State): int {
    if s.rateLimitMs > 0 && s.lastOperation > 0 then s.lastOperation + s.rateLimitMs else 0
  }

  /** A first attempt, and a second one only if the first was answered by a reset and a reconnect succeeded. */
  ghost predicate AttemptOrRetry(es: seq<Event>, s: State, command: bytes) {
    || Attempt(es, s.cardHandle, command, Earliest(s))
    || (&& |es| >= 3 && Attempt(es[..1], s.cardHandle, command, Earliest(s))
        && es[1] == ResetSignalled(command) && es[2].Woken?
        && match es[2].how
           case NotReady => |es| == 3
           case Ready(handle) => Attempt(es[3..], handle, command, Earliest(s.(lastOperation := es[0].at))))
  }

  /** The log only grows; what was added. */
  function Added(before: World, after: World): seq<Event> {
    if |after.log| < |before.log| then [] else after.log[|before.log|..]
  }

  lemma {:induction false} ReassemblyOnlyAsksForMore(response: bytes, w: World, handle: nat, acc: bytes)
    ensures var after := Reassembled(response, w, handle, acc).1;
            w.log <= after.log && OnlyRemaining(Added(w, after), handle)
    decreases |w.script|
  {
    if |response| >= 2 && response[|response| - 2] == 0x61 {
      var w' := AfterTransmit(w, handle, SEND_REMAINING);
      assert w'.log == w.log + [Sent(w.clock, handle, SEND_REMAINING)];
      match NextReply(w)
      case Received(next) =>
        ReassemblyOnlyAsksForMore(next, w', handle, acc + Payload(response));
        var after := Reassembled(next, w', handle, acc + Payload(response)).1;
        assert Added(w, after) == [Sent(w.clock, handle, SEND_REMAINING)] + Added(w', after);
      case _ =>
    }
  }

  /** One attempt without a retry, whatever the environment does. */
  lemma SecondAttempt(s: State, w: World, command: bytes)
    ensures var (_, s', after) := Exchange(s, w, command, 1);
            && w.log <= after.log && Attempt(Added(w, after), s.cardHandle, command, Earliest(s))
            && s'.cardHandle == s.cardHandle
  {
    if s.cardHandle != 0 {
      var w0 := w.(clock := w.clock + Pause(s, w.clock));
      var w1 := AfterTransmit(w0, s.cardHandle, command);
      assert Added(w, w1) == [Sent(w0.clock, s.cardHandle, command)];
      match NextReply(w)
      case Received(data) =>
        ReassemblyOnlyAsksForMore(data, w1, s.cardHandle, []);
        var after := Reassembled(data, w1, s.cardHandle, []).1;
        assert Added(w, after) == Added(w, w1) + Added(w1, after);
      case _ =>
    }
  }

  /**
   Whatever the card, the reader and the reconnect machinery do, the caller's
   command goes out at most twice, the second time only after a reset was
   signalled and the reconnect succeeded, on the handle it brought; everything
   else sent is SEND REMAINING, and the rate limit is kept.
   */
  lemma CommandGoesOutAtMostTwice(s: State, w: World, command: bytes)
    ensures var after := Exchange(s, w, command, 0).2;
            w.log <= after.log && AttemptOrRetry(Added(w, after), s, command)
  {
    hide Reassembled, OnlyRemaining, Attempt;
    if s.cardHandle == 0 || NextReply(w) != CardReset {
      SecondAttempt(s, w, command);
      assert Exchange(s, w, command, 0) == Exchange(s, w, command, 1);
    } else {
      RetryAfterReset(s, w, command);
    }
  }

  lemma RetryAfterReset(s: State, w: World, command: bytes)
    requires s.cardHandle != 0 && NextReply(w) == CardReset
    ensures var after := Exchange(s, w, command, 0).2;
            w.log <= after.log && AttemptOrRetry(Added(w, after), s, command)
  {
    hide Exchange, Attempt, AttemptOrRetry, Added, AfterTransmit, AfterWait;
    var w0 := w.(clock := w.clock + Pause(s, w.clock));
    var w1 := AfterTransmit(w0, s.cardHandle, command);
    var w2 := AfterWait(w1.(log := w1.log + [ResetSignalled(command)]));
    var first := [Sent(w0.clock, s.cardHandle, command), ResetSignalled(command), Woken(NextWakeUp(w))];
    ResetUnfolds(s, w, command);
    match NextWakeUp(w)
    case NotReady =>
      AddedJoins(w, w2, w2, first);
      RetryShape(s, command, first, []);
    case Ready(handle) =>
      var s1 := s.(lastOperation := w1.clock, cardHandle := handle);
      SecondAttempt(s1, w2, command);
      var after := Exchange(s1, w2, command, 1).2;
      AddedJoins(w, w2, after, first);
      EarlierAllowsMore(Added(w2, after), handle, command, Earliest(s1), Earliest(s.(lastOperation := w0.clock)));
      RetryShape(s, command, first, Added(w2, after));
  }

  lemma ResetUnfolds(s: State, w: World, command: bytes)
    requires s.cardHandle != 0 && NextReply(w) == CardReset
    ensures var w0 := w.(clock := w.clock + Pause(s, w.clock));
            var w1 := AfterTransmit(w0, s.cardHandle, command);
            var w2 := AfterWait(w1.(log := w1.log + [ResetSignalled(command)]));
            && w0.clock <= w1.clock
            && w2.log == w.log + [Sent(w0.clock, s.cardHandle, command), ResetSignalled(command), Woken(NextWakeUp(w))]
            && Exchange(s, w, command, 0).2 ==
               match NextWakeUp(w)
               case NotReady => w2
               case Ready(handle) => Exchange(s.(lastOperation := w1.clock, cardHandle := handle), w2, command, 1).2
    ensures s.rateLimitMs > 0 ==> w.clock + Pause(s, w.clock) >= Earliest(s)
  {
  }

  lemma AddedJoins(before: World, mid: World, after: World, es: seq<Event>)
    requires mid.log == before.log + es && mid.log <= after.log
    ensures before.log <= after.log && Added(before, after) == es + Added(mid, after)
    ensures mid == after ==> Added(mid, after) == []
  {
  }

  lemma EarlierAllowsMore(es: seq<Event>, handle: nat, command: bytes, earliest: int, earlier: int)
    requires Attempt(es, handle, command, earliest) && earlier <= earliest
    ensures Attempt(es, handle, command, earlier)
  {
  }

  lemma RetryShape(s: State, command: bytes, first: seq<Event>, second: seq<Event>)
    requires s.cardHandle != 0 && |first| == 3 && first[0].Sent? && first[0].handle == s.cardHandle
    requires first[0].apdu == command && first[0].at >= Earliest(s)
    requires first[1] == ResetSignalled(command) && first[2].Woken?
    requires match first[2].how
             case NotReady => second == []
             case Ready(handle) => Attempt(second, handle, command, Earliest(s.(lastOperation := first[0].at)))
    ensures AttemptOrRetry(first + second, s, command)
  {
  }

  // ---------------------------------------------------------------------------
  // What the session remembers, and the distance it keeps between commands
  // ---------------------------------------------------------------------------

  /** The moment a command goes out: at once, or as soon as the limit after the last operation allows. */
  function SentAt(s: State, clock: nat): nat {
    if s.rateLimitMs > 0 && s.lastOperation > 0 && s.lastOperation + s.rateLimitMs > clock
    then s.lastOperation + s.rateLimitMs else clock
  }

  /** How long the environment takes for a transmission ahead. */
  function Takes(w: World, k: nat): nat {
    if k < |w.script| then w.script[k].takes else 0
  }

  lemma AttemptRemembers(s: State, w: World, command: bytes)
    requires s.cardHandle != 0
    ensures var (_, t, after) := Exchange(s, w, command, 1);
            && t == s.(lastOperation := SentAt(s, w.clock) + Takes(w, 0))
            && after.clock >= t.lastOperation && w.log <= after.log
            && var es := Added(w, after);
               es != [] && es[0] == Sent(SentAt(s, w.clock), s.cardHandle, command) && OnlyRemaining(es[1..], s.cardHandle)
  {
    var w0 := w.(clock := w.clock + Pause(s, w.clock));
    var w1 := AfterTransmit(w0, s.cardHandle, command);
    assert Added(w, w1) == [Sent(w0.clock, s.cardHandle, command)];
    match NextReply(w)
    case Received(data) =>
      ReassemblyOnlyAsksForMore(data, w1, s.cardHandle, []);
      ReassemblyTakesTime(data, w1, s.cardHandle, []);
      var after := Reassembled(data, w1, s.cardHandle, []).1;
      assert Added(w, after) == Added(w, w1) + Added(w1, after);
    case _ =>
  }

  lemma {:induction false} ReassemblyTakesTime(response: bytes, w: World, handle: nat, acc: bytes)
    ensures Reassembled(response, w, handle, acc).1.clock >= w.clock
    decreases |w.script|
  {
    if |response| >= 2 && response[|response| - 2] == 0x61 && NextReply(w).Received? {
      ReassemblyTakesTime(NextReply(w).data, AfterTransmit(w, handle, SEND_REMAINING), handle, acc + Payload(response));
    }
  }

  /** The first transmission was answered by a reset, and the reconnect succeeded. */
  predicate Retried(w: World) {
    NextReply(w) == CardReset && NextWakeUp(w).Ready?
  }

  /** Session and world after the first attempt, the signal and the reconnect. */
  function BeforeRetry(s: State, w: World, command: bytes): (State, World)
    requires s.cardHandle != 0 && Retried(w)
  {
    var w0 := w.(clock := w.clock + Pause(s, w.clock));
    var w1 := AfterTransmit(w0, s.cardHandle, command);
    (s.(lastOperation := w1.clock, cardHandle := NextWakeUp(w).handle),
     AfterWait(w1.(log := w1.log + [ResetSignalled(command)])))
  }

  lemma RetryIs(s: State, w: World, command: bytes)
    requires s.cardHandle != 0 && Retried(w)
    ensures var (s1, w2) := BeforeRetry(s, w, command);
            var first := SentAt(s, w.clock) + Takes(w, 0);
            && Exchange(s, w, command, 0) == Exchange(s1, w2, command, 1)
            && s1 == s.(cardHandle := NextWakeUp(w).handle, lastOperation := first)
            && w2.clock == first + NextWait(w).takes && Takes(w2, 0) == Takes(w, 1)
            && w2.log == w.log
               + [Sent(SentAt(s, w.clock), s.cardHandle, command), ResetSignalled(command), Woken(NextWakeUp(w))]
  {
    hide Exchange, BeforeRetry;
    RetryUnfolds(s, w, command);
    BeforeRetryIs(s, w, command);
  }

  lemma RetryUnfolds(s: State, w: World, command: bytes)
    requires s.cardHandle != 0 && Retried(w)
    ensures var (s1, w2) := BeforeRetry(s, w, command); Exchange(s, w, command, 0) == Exchange(s1, w2, command, 1)
  {
    hide Reassembled, AfterTransmit, AfterWait, Pause;
  }

  lemma BeforeRetryIs(s: State, w: World, command: bytes)
    requires s.cardHandle != 0 && Retried(w)
    ensures var (s1, w2) := BeforeRetry(s, w, command);
            var first := SentAt(s, w.clock) + Takes(w, 0);
            && s1 == s.(cardHandle := NextWakeUp(w).handle, lastOperation := first)
            && w2.clock == first + NextWait(w).takes && Takes(w2, 0) == Takes(w, 1)
            && w2.log == w.log
               + [Sent(SentAt(s, w.clock), s.cardHandle, command), ResetSignalled(command), Woken(NextWakeUp(w))]
  {
  }

  lemma OneAttempt(s: State, w: World, command: bytes)
    requires NextReply(w) != CardReset
    ensures Exchange(s, w, command, 0) == Exchange(s, w, command, 1)
  {
  }

  /** A reset without a reconnect ends the exchange. */
  lemma ResetWithoutRetry(s: State, w: World, command: bytes)
    requires s.cardHandle != 0 && NextReply(w) == CardReset && !Retried(w)
    ensures var (reply, t, after) := Exchange(s, w, command, 0);
            && reply == [] && t == s.(lastOperation := SentAt(s, w.clock) + Takes(w, 0)) && after.clock >= t.lastOperation
            && after.log == w.log
               + [Sent(SentAt(s, w.clock), s.cardHandle, command), ResetSignalled(command), Woken(NotReady)]
  {
    hide Reassembled;
  }

  /**
   After an exchange the session remembers when its last command was through,
   on success and on failure alike, and has the handle of the reconnect if
   there was one; the limit stays, and without a card nothing happens at all.
   */
  lemma ExchangeRemembers(s: State, w: World, command: bytes)
    ensures var (_, t, after) := Exchange(s, w, command, 0);
            var first := SentAt(s, w.clock) + Takes(w, 0);
            && t.rateLimitMs == s.rateLimitMs
            && (s.cardHandle == 0 ==> t == s && after == w)
            && (s.cardHandle != 0 && !Retried(w) ==> t == s.(lastOperation := first))
            && (s.cardHandle != 0 && Retried(w) ==>
                  && t.cardHandle == NextWakeUp(w).handle
                  && t.lastOperation ==
                     if t.cardHandle == 0 then first
                     else SentAt(s.(lastOperation := first), first + NextWait(w).takes) + Takes(w, 1))
            && (s.cardHandle != 0 ==> SentAt(s, w.clock) <= t.lastOperation <= after.clock)
  {
    if s.cardHandle != 0 {
      hide Exchange, BeforeRetry;
      if NextReply(w) != CardReset {
        OneAttempt(s, w, command);
        AttemptRemembers(s, w, command);
      } else if Retried(w) {
        RetryIs(s, w, command);
        var (s1, w2) := BeforeRetry(s, w, command);
        if s1.cardHandle != 0 {
          AttemptRemembers(s1, w2, command);
        } else {
          NoCardNothing(s1, w2, command);
        }
      } else {
        ResetWithoutRetry(s, w, command);
      }
    }
  }

  lemma NoCardNothing(s: State, w: World, command: bytes)
    requires s.cardHandle == 0
    ensures Exchange(s, w, command, 1) == ([], s, w)
  {
  }

  /** A reset is signalled, and a reconnect awaited, exactly if the first transmission reports one. */
  lemma ResetIsSignalled(s: State, w: World, command: bytes)
    requires s.cardHandle != 0
    ensures var es := Added(w, Exchange(s, w, command, 0).2);
            && es != [] && es[0] == Sent(SentAt(s, w.clock), s.cardHandle, command)
            && (NextReply(w) == CardReset ==> |es| >= 3 && es[1] == ResetSignalled(command) && es[2] == Woken(NextWakeUp(w)))
            && (NextReply(w) != CardReset ==> forall k :: 0 <= k < |es| ==> es[k].Sent?)
  {
    hide Exchange, BeforeRetry, SentAt, Takes, NextWakeUp, NextReply;
    var first := [Sent(SentAt(s, w.clock), s.cardHandle, command), ResetSignalled(command), Woken(NextWakeUp(w))];
    if NextReply(w) != CardReset {
      OneAttempt(s, w, command);
      AttemptRemembers(s, w, command);
      var es := Added(w, Exchange(s, w, command, 1).2);
      assert forall k :: 1 <= k < |es| ==> es[k] == es[1..][k - 1];
    } else if Retried(w) {
      RetryIs(s, w, command);
      var (s1, w2) := BeforeRetry(s, w, command);
      SecondAttempt(s1, w2, command);
      AddedJoins(w, w2, Exchange(s1, w2, command, 1).2, first);
    } else {
      ResetWithoutRetry(s, w, command);
    }
  }

  /** The caller gets nothing unless the command was received, at the first attempt or at the retry. */
  lemma UnansweredGivesNothing(s: State, w: World, command: bytes)
    requires || s.cardHandle == 0
             || (!NextReply(w).Received? && !Retried(w))
             || (Retried(w) && (NextWakeUp(w).handle == 0 || |w.script| < 2 || !w.script[1].reply.Received?))
    ensures Exchange(s, w, command, 0).0 == []
  {
    if s.cardHandle != 0 && Retried(w) {
      var (s1, w2) := BeforeRetry(s, w, command);
      assert Exchange(s, w, command, 0) == Exchange(s1, w2, command, 1);
    }
  }

  /** Commands one after the other, each after some time. */
  datatype Turn = Turn(idle: nat, command: bytes)

  function Converse(s: State, w: World, turns: seq<Turn>): (State, World)
    decreases |turns|
  {
    if turns == [] then (s, w)
    else
      var (_, t, after) := Exchange(s, w.(clock := w.clock + turns[0].idle), turns[0].command, 0);
      Converse(t, after, turns[1..])
  }

  predicate IsCommand(e: Event) {
    e.Sent? && e.apdu != [0x00, 0xA5, 0x00, 0x00, 0x00]
  }

  /** Any two commands are at least so far apart. */
  ghost predicate Spaced(es: seq<Event>, limit: nat) {
    forall i, j :: 0 <= i < j < |es| && IsCommand(es[i]) && IsCommand(es[j]) ==> es[j].at >= es[i].at + limit
  }

  /** The commands so far went out no later than the operation remembered. */
  ghost predicate Remembered(es: seq<Event>, last: nat) {
    forall e <- es :: IsCommand(e) ==> 0 < e.at <= last
  }

  ghost predicate Kept(es: seq<Event>, limit: nat, last: nat) {
    Spaced(es, limit) && Remembered(es, last)
  }

  lemma AttemptKeeps(log: seq<Event>, es: seq<Event>, handle: nat, limit: nat, last: nat, now: nat)
    requires Kept(log, limit, last)
    requires es != [] && es[0].Sent? && OnlyRemaining(es[1..], handle) && 0 < es[0].at <= now && last <= now
    requires last > 0 ==> es[0].at >= last + limit
    ensures Kept(log + es, limit, now)
  {
    var all := log + es;
    assert forall k :: |log| < k < |all| ==> all[k] == es[1..][k - |log| - 1];
    assert forall k :: |log| < k < |all| ==> !IsCommand(all[k]);
    assert forall k :: 0 <= k < |log| ==> all[k] == log[k] && log[k] in log;
  }

  lemma SignalsKeep(log: seq<Event>, es: seq<Event>, limit: nat, last: nat)
    requires Kept(log, limit, last) && forall e <- es :: !IsCommand(e)
    ensures Kept(log + es, limit, last)
  {
    var all := log + es;
    assert forall k :: |log| <= k < |all| ==> all[k] == es[k - |log|] && es[k - |log|] in es;
    assert forall k :: 0 <= k < |log| ==> all[k] == log[k];
  }

  lemma AttemptKeepsDistance(s: State, w: World, command: bytes)
    requires s.cardHandle != 0 && w.clock > 0 && s.lastOperation <= w.clock
    requires Kept(w.log, s.rateLimitMs, s.lastOperation)
    ensures var (_, t, after) := Exchange(s, w, command, 1); Kept(after.log, s.rateLimitMs, t.lastOperation)
  {
    hide Exchange, Kept, OnlyRemaining;
    AttemptRemembers(s, w, command);
    var (_, t, after) := Exchange(s, w, command, 1);
    AttemptKeeps(w.log, Added(w, after), s.cardHandle, s.rateLimitMs, s.lastOperation, t.lastOperation);
    assert after.log == w.log + Added(w, after);
  }

  lemma ResetKeepsDistance(s: State, w: World, command: bytes)
    requires s.cardHandle != 0 && w.clock > 0 && s.lastOperation <= w.clock && NextReply(w) == CardReset
    requires Kept(w.log, s.rateLimitMs, s.lastOperation)
    ensures var last := SentAt(s, w.clock) + Takes(w, 0);
            && (!Retried(w) ==> Kept(Exchange(s, w, command, 0).2.log, s.rateLimitMs, last))
            && (Retried(w) ==> Kept(BeforeRetry(s, w, command).1.log, s.rateLimitMs, last))
  {
    hide Exchange, Kept;
    var last := SentAt(s, w.clock) + Takes(w, 0);
    var sent := [Sent(SentAt(s, w.clock), s.cardHandle, command)];
    var rest := [ResetSignalled(command), Woken(NextWakeUp(w))];
    ResetUnfolds(s, w, command);
    AttemptKeeps(w.log, sent, s.cardHandle, s.rateLimitMs, s.lastOperation, last);
    SignalsKeep(w.log + sent, rest, s.rateLimitMs, last);
    assert w.log + sent + rest
      == w.log + [Sent(SentAt(s, w.clock), s.cardHandle, command), ResetSignalled(command), Woken(NextWakeUp(w))];
  }

  lemma ExchangeKeepsDistance(s: State, w: World, command: bytes)
    requires w.clock > 0 && s.lastOperation <= w.clock && Kept(w.log, s.rateLimitMs, s.lastOperation)
    ensures var (_, t, after) := Exchange(s, w, command, 0);
            after.clock > 0 && t.lastOperation <= after.clock && Kept(after.log, t.rateLimitMs, t.lastOperation)
  {
    hide Kept, Reassembled;
    ExchangeRemembers(s, w, command);
    if s.cardHandle != 0 {
      if NextReply(w) != CardReset {
        AttemptKeepsDistance(s, w, command);
        AttemptRemembers(s, w, command);
        OneAttempt(s, w, command);
      } else {
        ResetKeepsDistance(s, w, command);
        if Retried(w) {
          RetryIs(s, w, command);
          var (s1, w2) := BeforeRetry(s, w, command);
          if s1.cardHandle != 0 {
            AttemptKeepsDistance(s1, w2, command);
          }
        }
      }
    }
  }

  lemma {:induction false} ConversationKeepsDistance(s: State, w: World, turns: seq<Turn>)
    requires w.clock > 0 && s.lastOperation <= w.clock && Kept(w.log, s.rateLimitMs, s.lastOperation)
    ensures var (t, after) := Converse(s, w, turns);
            t.rateLimitMs == s.rateLimitMs && Kept(after.log, s.rateLimitMs, t.lastOperation)
    decreases |turns|
  {
    hide Exchange, Kept;
    if turns != [] {
      var w' := w.(clock := w.clock + turns[0].idle);
      ExchangeKeepsDistance(s, w', turns[0].command);
      ExchangeRemembers(s, w', turns[0].command);
      var (_, t, after) := Exchange(s, w', turns[0].command, 0);
      ConversationKeepsDistance(t, after, turns[1..]);
    }
  }

  /**
   However many commands a session is given, however long it is left alone
   between them and whatever the environment does, any two commands it sends,
   retries included, are at least the rate limit apart.
   */
  lemma CommandsKeepTheirDistance(handle: nat, rateLimitMs: nat, w: World, turns: seq<Turn>)
    requires w.clock > 0 && w.log == []
    ensures var log := Converse(State(handle, rateLimitMs, 0), w, turns).1.log;
            forall i, j :: 0 <= i < j < |log| && IsCommand(log[i]) && IsCommand(log[j]) ==>
              log[j].at >= log[i].at + rateLimitMs
  {
    ConversationKeepsDistance(State(handle, rateLimitMs, 0), w, turns);
  }

  // ---------------------------------------------------------------------------
  // Reassembly keeps the answer, wherever the card cuts it
  // ---------------------------------------------------------------------------

  /** A piece of an answer with more to follow; the card says how much in a byte the exchange ignores. */
  datatype Fragment = Fragment(data: bytes, more: byte, takes: nat)

  function Joined(fs: seq<Fragment>): bytes {
    if fs == [] then [] else fs[0].data + Joined(fs[1..])
  }

  function Piece(f: Fragment): Transmission {
    Transmission(Received(f.data + [0x61, f.more]), f.takes)
  }

  function Pieces(fs: seq<Fragment>): seq<Transmission> {
    if fs == [] then [] else [Piece(fs[0])] + Pieces(fs[1..])
  }

  /** What ends a chain: a last answer with its status word, or something that is no answer. */
  predicate Ends(reply: Reply) {
    match reply
    case Received(data) => |data| < 2 || data[|data| - 2] != 0x61
    case _ => true
  }

  /** What the end of a chain contributes. */
  function Contribution(reply: Reply): bytes {
    match reply
    case Received(data) => if |data| < 2 then [] else data
    case _ => []
  }

  /** A chain of fragments comes back joined, whatever ends it; only a last answer adds its status word. */
  lemma {:induction false} ChainIsJoined(fs: seq<Fragment>, end: Reply, response: bytes, w: World, handle: nat, acc: bytes)
    requires Ends(end)
    requires fs == [] ==> end == Received(response)
    requires fs != [] ==> Received(response) == Piece(fs[0]).reply
    requires fs != [] ==> Pieces(fs[1..]) <= w.script && |fs| - 1 <= |w.script|
    requires fs != [] ==> NextReply(w.(script := w.script[|fs| - 1..])) == end
    ensures Reassembled(response, w, handle, acc).0 == acc + Joined(fs) + Contribution(end)
    decreases |fs|
  {
    if fs == [] {
      assert acc + [] + Contribution(end) == acc + Contribution(end);
      assert acc + [] == acc;
    } else {
      PiecesLength(fs[1..]);
      assert Payload(response) == fs[0].data;
      var joined := acc + fs[0].data;
      var w' := AfterTransmit(w, handle, SEND_REMAINING);
      assert joined + Joined(fs[1..]) == acc + Joined(fs);
      if |fs| == 1 {
        assert w.script[0..] == w.script;
        match end
        case Received(last) => ChainIsJoined([], end, last, w', handle, joined);
        case _ => assert joined + Joined([]) + [] == acc + Joined(fs) + Contribution(end);
      } else {
        var rest := fs[1..];
        assert w.script[0] == Pieces(rest)[0] == Piece(rest[0]);
        assert w'.script == w.script[1..];
        assert Pieces(rest)[1..] == Pieces(rest[1..]);
        assert w'.script[|rest| - 1..] == w.script[|fs| - 1..];
        ChainIsJoined(rest, end, rest[0].data + [0x61, rest[0].more], w', handle, joined);
      }
    }
  }

  lemma PiecesLength(fs: seq<Fragment>)
    ensures |Pieces(fs)| == |fs|
  {
  }

  /** The script of an answer sent in pieces, ended by `end`. */
  function Script(fs: seq<Fragment>, end: Transmission): seq<Transmission> {
    Pieces(fs) + [end]
  }

  /** The environment is about to answer the command so: at once, or after one reset and a reconnect. */
  ghost predicate WillAnswer(w: World, fs: seq<Fragment>, end: Transmission) {
    || Script(fs, end) <= w.script
    || (&& w.script != [] && w.script[0].reply == CardReset && Script(fs, end) <= w.script[1..]
        && w.waits != [] && w.waits[0].how.Ready? && w.waits[0].how.handle != 0)
  }

  /** Only a chain that starts is joined: a transmission that fails at once has nothing before it. */
  lemma FirstAttemptJoins(s: State, w: World, command: bytes, retryCount: nat, fs: seq<Fragment>, end: Transmission)
    requires s.cardHandle != 0 && Ends(end.reply) && (fs == [] ==> end.reply.Received?)
    requires Script(fs, end) <= w.script
    ensures Exchange(s, w, command, retryCount).0 == Joined(fs) + Contribution(end.reply)
  {
    hide Reassembled, Joined;
    PiecesLength(fs);
    var script := Script(fs, end);
    assert w.script[|fs|] == script[|fs|] == end;
    assert script[0] == w.script[0];
    var w1 := AfterTransmit(w.(clock := w.clock + Pause(s, w.clock)), s.cardHandle, command);
    assert w1.script == w.script[1..];
    var response := script[0].reply.data;
    if fs != [] {
      PiecesLength(fs[1..]);
      assert Pieces(fs)[1..] == Pieces(fs[1..]);
    }
    assert fs != [] ==> w1.script[|fs| - 1..] == w.script[|fs|..];
    assert Received(response) == if fs == [] then end.reply else Piece(fs[0]).reply;
    ChainIsJoined(fs, end.reply, response, w1, s.cardHandle, []);
    assert [] + Joined(fs) == Joined(fs);
  }

  /**
   The answer the caller gets is what the card sent, joined, whatever the cut
   points and whether or not the card was reset on the way.
   */
  lemma ExchangeJoins(s: State, w: World, command: bytes, fs: seq<Fragment>, end: Transmission)
    requires s.cardHandle != 0 && Ends(end.reply) && (fs == [] ==> end.reply.Received?)
    requires WillAnswer(w, fs, end)
    ensures Exchange(s, w, command, 0).0 == Joined(fs) + Contribution(end.reply)
  {
    if Script(fs, end) <= w.script {
      FirstAttemptJoins(s, w, command, 0, fs, end);
    } else {
      var w1 := AfterTransmit(w.(clock := w.clock + Pause(s, w.clock)), s.cardHandle, command);
      var w2 := AfterWait(w1.(log := w1.log + [ResetSignalled(command)]));
      var s1 := s.(lastOperation := w1.clock, cardHandle := w.waits[0].how.handle);
      FirstAttemptJoins(s1, w2, command, 1, fs, end);
    }
  }

  /**
   CALCULATE ALL from end to end: the card encodes its credentials, cuts the
   answer anywhere, perhaps is reset before it answers; reassembling and
   parsing gives back exactly those credentials, in order, if and only if each
   code has a digit count that can be shown.
   */
  lemma CalculateAllSurvivesChaining(s: State, w: World, command: bytes, clock: nat -> nat,
                                     rs: seq<Record>, fs: seq<Fragment>, last: bytes, takes: nat)
    requires AllSendable(rs) && s.cardHandle != 0
    requires Joined(fs) + last == RecordBytes(rs)
    requires WillAnswer(w, fs, Transmission(Received(last + [0x90, 0x00]), takes))
    ensures var list := AllCalculated(Exchange(s, w, command, 0).0, clock);
            (list.Some? && AllTell(list.value, rs, clock, 0)) <==> forall k :: 0 <= k < |rs| ==> Showable(rs[k])
  {
    hide Exchange, RecordBytes, WillAnswer, Joined, Listed, AllTell;
    AnswerSurvivesChaining(s, w, command, RecordBytes(rs), fs, last, takes);
    ParseInvertsEncode(rs, clock);
  }

  /** An answer sent in pieces, whatever it is, comes back with its status word. */
  lemma AnswerSurvivesChaining(s: State, w: World, command: bytes, data: bytes, fs: seq<Fragment>, last: bytes, takes: nat)
    requires s.cardHandle != 0 && Joined(fs) + last == data
    requires WillAnswer(w, fs, Transmission(Received(last + [0x90, 0x00]), takes))
    ensures var answer := Exchange(s, w, command, 0).0;
            && answer == data + [0x90, 0x00]
            && |answer| >= 2 && StatusWord(answer) == SW_SUCCESS && Payload(answer) == data
  {
    hide Exchange, WillAnswer, Joined;
    ExchangeJoins(s, w, command, fs, Transmission(Received(last + [0x90, 0x00]), takes));
    assert Joined(fs) + (last + [0x90, 0x00]) == data + [0x90, 0x00];
    EndsWell(data);
  }

  /** The same for LIST in its first extended version: exactly the elements sent, if and only if each has a name. */
  lemma ListV1SurvivesChaining(s: State, w: World, command: bytes, rs: seq<ListRecord>,
                               fs: seq<Fragment>, last: bytes, takes: nat)
    requires AllEncodable(rs) && s.cardHandle != 0
    requires Joined(fs) + last == Tlv.Encode(ListEntries(rs))
    requires WillAnswer(w, fs, Transmission(Received(last + [0x90, 0x00]), takes))
    ensures AllToldElements(AllListed(Exchange(s, w, command, 0).0), rs) <==> forall k :: 0 <= k < |rs| ==> rs[k].name != []
  {
    hide Exchange, WillAnswer, Joined, ListEntries, Tlv.Encode, ListV1, AllToldElements;
    AnswerSurvivesChaining(s, w, command, Tlv.Encode(ListEntries(rs)), fs, last, takes);
    ListV1InvertsEncode(rs);
  }

  /** And for CALCULATE: the code comes back, if and only if its digit count can be shown. */
  lemma CodeSurvivesChaining(s: State, w: World, command: bytes, before: seq<Tlv.Entry>, digits: byte, word: bytes,
                             after: seq<Tlv.Entry>, fs: seq<Fragment>, last: bytes, takes: nat)
    requires |word| == 4 && forall e <- before :: !IsCodeEntry(e)
    requires Tlv.Encodable(before + [AnswerEntry(Code(digits, word))] + after) && s.cardHandle != 0
    requires Joined(fs) + last == Tlv.Encode(before + [AnswerEntry(Code(digits, word))] + after)
    requires WillAnswer(w, fs, Transmission(Received(last + [0x90, 0x00]), takes))
    ensures var code := CodeIn(Exchange(s, w, command, 0).0);
            (code.Some? && Codes.IsCode(code.value, BigEndian(word), digits)) <==>
              Showable(Record([], Code(digits, word)))
  {
    hide Exchange, WillAnswer, Joined, Tlv.Encode, FirstCode;
    var data := Tlv.Encode(before + [AnswerEntry(Code(digits, word))] + after);
    AnswerSurvivesChaining(s, w, command, data, fs, last, takes);
    CodeReadsBack(before, digits, word, after);
  }

  /**
   A chain that breaks off gives the payloads received so far, without a
   status word. The listing parser then takes the last two payload bytes for
   one: it lists something exactly if they are 90 00 and a name is among the
   entries before them.
   */
  lemma BrokenChainHasNoStatusWord(s: State, w: World, command: bytes, clock: nat -> nat,
                                   fs: seq<Fragment>, end: Transmission)
    requires s.cardHandle != 0 && fs != [] && WillAnswer(w, fs, end)
    requires end.reply.Received? ==> |end.reply.data| < 2
    ensures Exchange(s, w, command, 0).0 == Joined(fs)
    ensures var all := Joined(fs);
            AllCalculated(Exchange(s, w, command, 0).0, clock) == Some([]) <==>
              || |all| < 2 || StatusWord(all) != SW_SUCCESS
              || forall e <- Tlv.Entries(Payload(all)) :: e.tag != Put.TAG_NAME
  {
    ExchangeJoins(s, w, command, fs, end);
    var all := Joined(fs);
    assert all + [] == all;
    if |all| >= 2 {
      NothingListed(Tlv.Entries(Payload(all)), clock, 0);
    }
  }

  /** A broken chain that is read as a complete listing: one piece 71 01 41 90 00, then a failure. */
  lemma BrokenChainCanList(s: State, command: bytes, clock: nat -> nat)
    requires s.cardHandle != 0
    ensures var broken := [Piece(Fragment([Put.TAG_NAME, 0x01, 0x41, 0x90, 0x00], 0x10, 0)), Transmission(Failed, 0)];
            AllCalculated(Exchange(s, World(broken, [], 0, []), command, 0).0, clock) == Some([Named([0x41])])
  {
    hide Exchange, Reassembled, Named, StatusWord, Tlv.Entries;
    var data: bytes := [Put.TAG_NAME, 0x01, 0x41];
    var f, end := Fragment(data + [0x90, 0x00], 0x10, 0), Transmission(Failed, 0);
    assert f.data == [Put.TAG_NAME, 0x01, 0x41, 0x90, 0x00];
    assert [f][1..] == [] && Joined([f]) == f.data + [] == f.data && Pieces([f]) == [Piece(f)];
    var w := World([Piece(f), end], [], 0, []);
    assert Script([f], end) == w.script;
    ExchangeJoins(s, w, command, [f], end);
    assert f.data + [] == f.data;
    EndsWell(data);
    var e := Tlv.Entry(Put.TAG_NAME, [0x41]);
    assert Tlv.EncodeEntry(e) == data && Tlv.Encode([e]) == data;
    Tlv.NoTail([e]);
  }
}
