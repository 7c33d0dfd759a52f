/**
 The reconnect coordinator: one delayed reconnect at a time. A request
 replaces the one before it. The reconnect function may run an event loop of
 its own, so between the moment the timer fires and the moment the function
 returns, further requests, cancellations and even whole further timeouts can
 happen: a timeout is therefore two steps here, and calls form a stack.
 */
module Coordinator {
  import opened Bytes

  type Id = string

  datatype Timer = NoTimer | Running | Fired

  /** A call of the reconnect function in progress: where the log records it, whether the device was there. */
  datatype Call = Call(at: nat, present: bool)

  datatype Event =
    | Started(id: Id, reader: string)
    | Cancelled
    | Called(target: Id, reader: string)
    | Completed(call: Option<nat>, id: Id, success: bool)

  /** The fields of the coordinator, the calls in progress and what has happened. */
  datatype State = State(timer: Timer, id: Id, reader: string, command: bytes, target: Option<Id>,
                         calls: seq<Call>, log: seq<Event>)

  datatype Action =
    | Request(id: Id, reader: string, command: bytes)
    | Cancel
    | Timeout(present: bool)
    | Return(outcome: bool)

  const INITIAL := State(NoTimer, "", "", [], None, [], [])

  // ---------------------------------------------------------------------------
  // What each step does
  // ---------------------------------------------------------------------------

  function Cleaned(s: State): State {
    s.(id := "", reader := "", command := [])
  }

  predicate Enabled(s: State, a: Action) {
    match a
    case Timeout(_) => s.timer == Running
    case Return(_) => s.calls != []
    case _ => true
  }

  function Step(s: State, a: Action): State
    requires Enabled(s, a)
  {
    match a
    case Request(id, reader, command) =>
      s.(timer := Running, id := id, reader := reader, command := command, target := Some(id),
         log := s.log + [Cancelled, Started(id, reader)])
    case Cancel => Cleaned(s).(timer := NoTimer, log := s.log + [Cancelled])
    case Timeout(present) =>
      if s.target == None then Cleaned(s).(timer := Fired, log := s.log + [Completed(None, s.id, false)])
      else
        s.(timer := Fired, calls := s.calls + [Call(|s.log|, present)],
           log := s.log + [Called(s.target.value, s.reader)])
    case Return(outcome) =>
      var call := s.calls[|s.calls| - 1];
      Cleaned(s).(timer := NoTimer, calls := s.calls[..|s.calls| - 1],
                  log := s.log + [Completed(Some(call.at), s.id, call.present && outcome)])
  }

  predicate Runs(s: State, actions: seq<Action>)
    decreases |actions|
  {
    actions == [] || (Enabled(s, actions[0]) && Runs(Step(s, actions[0]), actions[1..]))
  }

  function After(s: State, actions: seq<Action>): State
    requires Runs(s, actions)
    decreases |actions|
  {
    if actions == [] then s else After(Step(s, actions[0]), actions[1..])
  }

  // ---------------------------------------------------------------------------
  // The object
  // ---------------------------------------------------------------------------

  class DeviceReconnectCoordinator {
    var timer: Timer
    var deviceId: Id
    var readerName: string
    var command: bytes
    var reconnectFunc: Option<Id>
    var calls: seq<Call>
    var log: seq<Event>

    constructor ()
      ensures Fields() == INITIAL
    {
      timer, deviceId, readerName, command := NoTimer, "", "", [];
      reconnectFunc, calls, log := None, [], [];
    }

    function Fields(): State
      reads this
    {
      State(timer, deviceId, readerName, command, reconnectFunc, calls, log)
    }

    method Cleanup()
      modifies this
      ensures Fields() == Cleaned(old(Fields()))
    {
      deviceId, readerName, command := "", "", [];
    }

    method CancelReconnect()
      modifies this
      ensures Fields() == Step(old(Fields()), Cancel)
    {
      if timer != NoTimer {
        timer := NoTimer;
      }
      Cleanup();
      log := log + [Cancelled];
    }

    method SetReconnectFunction(target: Id)
      modifies this
      ensures Fields() == old(Fields()).(target := Some(target))
    {
      reconnectFunc := Some(target);
    }

    method StartReconnect(id: Id, reader: string, apdu: bytes)
      modifies this
      ensures Fields() == Step(old(Fields()), Cancel).(timer := Running, id := id, reader := reader, command := apdu,
                               log := old(log) + [Cancelled, Started(id, reader)])
    {
      CancelReconnect();
      deviceId, readerName, command := id, reader, apdu;
      log := log + [Started(id, reader)];
      timer := Running;
    }

    /** OathDeviceManager::reconnectDeviceAsync. */
    method ReconnectDeviceAsync(id: Id, reader: string, apdu: bytes)
      modifies this
      ensures Fields() == Step(old(Fields()), Request(id, reader, apdu))
    {
      SetReconnectFunction(id);
      StartReconnect(id, reader, apdu);
    }

    /** onTimeout up to and including the call of the reconnect function. */
    method TimeoutBegins(present: bool)
      requires timer == Running
      modifies this
      ensures Fields() == Step(old(Fields()), Timeout(present))
    {
      timer := Fired;
      if reconnectFunc == None {
        var idCopy := deviceId;
        Cleanup();
        log := log + [Completed(None, idCopy, false)];
        return;
      }
      calls := calls + [Call(|log|, present)];
      log := log + [Called(reconnectFunc.value, readerName)];
    }

    /** The rest of onTimeout, when the function has returned. */
    method TimeoutEnds(outcome: bool)
      requires calls != []
      modifies this
      ensures Fields() == Step(old(Fields()), Return(outcome))
    {
      var call := calls[|calls| - 1];
      calls := calls[..|calls| - 1];
      if timer != NoTimer {
        timer := NoTimer;
      }
      var idCopy, success := deviceId, call.present && outcome;
      Cleanup();
      log := log + [Completed(Some(call.at), idCopy, success)];
    }
  }

  // ---------------------------------------------------------------------------
  // What holds in every run
  // ---------------------------------------------------------------------------

  /** The device a log leaves current: the last request not yet cancelled or completed. */
  function Current(log: seq<Event>, before: Id): Id {
    if log == [] then before
    else
      match log[|log| - 1]
      case Started(id, _) => id
      case Cancelled => ""
      case Completed(_, _, _) => ""
      case Called(_, _) => Current(log[..|log| - 1], before)
  }

  lemma CurrentSnoc(log: seq<Event>, e: Event, before: Id)
    ensures Current(log + [e], before) == match e
                                          case Started(id, _) => id
                                          case Called(_, _) => Current(log, before)
                                          case _ => ""
  {
  }

  lemma {:induction false} CurrentComposes(a: seq<Event>, b: seq<Event>, before: Id)
    ensures Current(a + b, before) == Current(b, Current(a, before))
  {
    if b == [] {
      assert a + b == a;
    } else {
      var n := |b| - 1;
      assert (a + b)[..|a| + n] == a + b[..n];
      CurrentComposes(a, b[..n], before);
    }
  }

  /** A call is made for the device current at the time; a completion carries the device current when it is sent. */
  ghost predicate EventRight(log: seq<Event>, i: nat)
    requires i < |log|
  {
    match log[i]
    case Called(target, _) => target == Current(log[..i], "")
    case Completed(call, id, _) =>
      id == Current(log[..i], "") && (call.Some? ==> call.value < i && log[call.value].Called?)
    case _ => true
  }

  ghost predicate LogRight(log: seq<Event>) {
    forall i: nat :: i < |log| ==> EventRight(log, i)
  }

  function Completions(log: seq<Event>, call: nat): nat {
    if log == [] then 0
    else
      var last := log[|log| - 1];
      Completions(log[..|log| - 1], call) + if last.Completed? && last.call == Some(call) then 1 else 0
  }

  ghost predicate Open(calls: seq<Call>, call: nat) {
    exists k :: 0 <= k < |calls| && calls[k].at == call
  }

  /** Calls in progress are in the log and innermost last. */
  ghost predicate CallsInOrder(s: State) {
    && (forall k :: 0 <= k < |s.calls| ==> s.calls[k].at < |s.log| && s.log[s.calls[k].at].Called?)
    && (forall j, k :: 0 <= j < k < |s.calls| ==> s.calls[j].at < s.calls[k].at)
  }

  /** A call in progress has not been completed; every other call has been completed exactly once. */
  ghost predicate CallsSettled(s: State) {
    forall c: nat :: c < |s.log| && s.log[c].Called? ==> Completions(s.log, c) == if Open(s.calls, c) then 0 else 1
  }

  ghost predicate NoneAhead(s: State) {
    forall c: nat :: c >= |s.log| ==> Completions(s.log, c) == 0
  }

  /** A request that is still current has its timer running or is behind a call in progress. */
  ghost predicate RequestAlive(s: State) {
    && (s.timer == Running ==> s.target == Some(s.id))
    && (s.timer == NoTimer ==> s.id == "")
    && (s.timer == Fired && s.id != "" ==> s.calls != [])
  }

  ghost predicate Invariant(s: State) {
    && LogRight(s.log) && s.id == Current(s.log, "")
    && CallsInOrder(s) && CallsSettled(s) && NoneAhead(s) && RequestAlive(s)
  }

  lemma LogRightSnoc(log: seq<Event>, e: Event)
    requires LogRight(log) && EventRight(log + [e], |log|)
    ensures LogRight(log + [e])
  {
    forall i: nat | i < |log + [e]| ensures EventRight(log + [e], i) {
      assert (log + [e])[..i] == if i < |log| then log[..i] else log;
      assert i < |log| ==> EventRight(log, i);
    }
  }

  lemma CompletionsSnoc(log: seq<Event>, e: Event, c: nat)
    ensures Completions(log + [e], c) == Completions(log, c) + if e.Completed? && e.call == Some(c) then 1 else 0
  {
  }

  /** An event that is neither a call nor the completion of one settles nothing and unsettles nothing. */
  lemma OthersSettleNothing(s: State, t: State, e: Event)
    requires CallsInOrder(s) && CallsSettled(s) && NoneAhead(s)
    requires t.log == s.log + [e] && t.calls == s.calls && !e.Called? && (e.Completed? ==> e.call == None)
    ensures CallsInOrder(t) && CallsSettled(t) && NoneAhead(t)
  {
    hide Completions, Open;
    forall c: nat ensures Completions(t.log, c) == Completions(s.log, c) {
      CompletionsSnoc(s.log, e, c);
    }
  }

  lemma OtherEvent(s: State, t: State, e: Event)
    requires Invariant(s) && t.log == s.log + [e] && t.calls == s.calls && !e.Called?
    requires e.Completed? ==> e.call == None && e.id == s.id
    ensures LogRight(t.log) && CallsInOrder(t) && CallsSettled(t) && NoneAhead(t)
    ensures Current(t.log, "") == if e.Started? then e.id else ""
  {
    hide LogRight, CallsInOrder, CallsSettled, NoneAhead, Current;
    assert t.log[..|s.log|] == s.log;
    LogRightSnoc(s.log, e);
    CurrentSnoc(s.log, e, "");
    OthersSettleNothing(s, t, e);
  }

  /** A call that begins is open, and no completion is its own yet. */
  lemma CallOpens(s: State, t: State, call: Call, e: Event)
    requires CallsInOrder(s) && CallsSettled(s) && NoneAhead(s)
    requires t.log == s.log + [e] && e.Called? && t.calls == s.calls + [call] && call.at == |s.log|
    ensures CallsInOrder(t) && CallsSettled(t) && NoneAhead(t)
  {
    hide Completions, Open;
    forall c: nat ensures Completions(t.log, c) == Completions(s.log, c) {
      CompletionsSnoc(s.log, e, c);
    }
    forall c: nat | c < |t.log| && t.log[c].Called? ensures Completions(t.log, c) == if Open(t.calls, c) then 0 else 1 {
      assert c < |s.log| ==> t.log[c] == s.log[c];
      OpenSnoc(s.calls, call, c);
      if c == |s.log| {
        NewIsNotOpen(s);
      }
    }
  }

  lemma NewIsNotOpen(s: State)
    requires CallsInOrder(s)
    ensures !Open(s.calls, |s.log|)
  {
  }

  lemma CallBegins(s: State, present: bool)
    requires Invariant(s) && s.timer == Running
    ensures Invariant(Step(s, Timeout(present)))
  {
    hide LogRight, CallsInOrder, CallsSettled, NoneAhead, Current;
    var t := Step(s, Timeout(present));
    var e := Called(s.target.value, s.reader);
    assert t.log == s.log + [e] && t.log[..|s.log|] == s.log;
    LogRightSnoc(s.log, e);
    CurrentSnoc(s.log, e, "");
    CallOpens(s, t, Call(|s.log|, present), e);
  }

  lemma OpenSnoc(calls: seq<Call>, call: Call, c: nat)
    ensures Open(calls + [call], c) <==> Open(calls, c) || call.at == c
  {
    assert (calls + [call])[|calls|] == call;
    forall k | 0 <= k < |calls| && calls[k].at == c ensures Open(calls + [call], c) {
      assert (calls + [call])[k] == calls[k];
    }
  }

  lemma CompletesOwnCall(log: seq<Event>, e: Event)
    requires e.Completed? && e.id == Current(log, "")
    requires e.call.Some? ==> e.call.value < |log| && log[e.call.value].Called?
    ensures EventRight(log + [e], |log|)
  {
  }

  /** The innermost call ends: it is completed now, and every other call stays as it was. */
  lemma InnermostSettles(s: State, t: State, e: Event)
    requires CallsInOrder(s) && CallsSettled(s) && NoneAhead(s) && s.calls != []
    requires t.calls == s.calls[..|s.calls| - 1] && t.log == s.log + [e]
    requires e.Completed? && e.call == Some(s.calls[|s.calls| - 1].at)
    ensures CallsSettled(t) && NoneAhead(t)
  {
    hide Completions;
    var call := s.calls[|s.calls| - 1];
    assert s.calls == t.calls + [call];
    forall c: nat ensures Completions(t.log, c) == Completions(s.log, c) + if c == call.at then 1 else 0 {
      CompletionsSnoc(s.log, e, c);
    }
    forall c: nat | c < |t.log| && t.log[c].Called? ensures Completions(t.log, c) == if Open(t.calls, c) then 0 else 1 {
      assert t.log[c] == s.log[c];
      OpenSnoc(t.calls, call, c);
    }
  }

  lemma CallEnds(s: State, outcome: bool)
    requires Invariant(s) && s.calls != []
    ensures Invariant(Step(s, Return(outcome)))
  {
    hide EventRight, Completions, Current, CallsSettled, NoneAhead;
    var t := Step(s, Return(outcome));
    var call := s.calls[|s.calls| - 1];
    var e := Completed(Some(call.at), s.id, call.present && outcome);
    assert t.log == s.log + [e] && t.log[..|s.log|] == s.log;
    CompletesOwnCall(s.log, e);
    LogRightSnoc(s.log, e);
    CurrentSnoc(s.log, e, "");
    InnermostSettles(s, t, e);
  }

  lemma StepKeepsInvariant(s: State, a: Action)
    requires Invariant(s) && Enabled(s, a)
    ensures Invariant(Step(s, a))
  {
    hide LogRight, CallsInOrder, CallsSettled, NoneAhead, Current;
    match a
    case Request(id, reader, command) =>
      var cancelled := Step(s, Cancel);
      OtherEvent(s, cancelled, Cancelled);
      assert Invariant(cancelled);
      OtherEvent(cancelled, Step(s, a), Started(id, reader)) by {
        assert s.log + [Cancelled, Started(id, reader)] == cancelled.log + [Started(id, reader)];
      }
    case Cancel => OtherEvent(s, Step(s, a), Cancelled);
    case Timeout(present) =>
      assert s.target == Some(s.id);
      CallBegins(s, present);
    case Return(outcome) => CallEnds(s, outcome);
  }

  /** The invariant holds after every run. */
  lemma {:induction false} EveryRunKeepsInvariant(s: State, actions: seq<Action>)
    requires Invariant(s) && Runs(s, actions)
    ensures Invariant(After(s, actions))
    decreases |actions|
  {
    if actions != [] {
      StepKeepsInvariant(s, actions[0]);
      EveryRunKeepsInvariant(Step(s, actions[0]), actions[1..]);
    }
  }

  /** The log of a whole run, from the coordinator's construction on. */
  function History(actions: seq<Action>): seq<Event>
    requires Runs(INITIAL, actions)
  {
    After(INITIAL, actions).log
  }

  lemma RunIsRight(actions: seq<Action>)
    requires Runs(INITIAL, actions)
    ensures Invariant(After(INITIAL, actions))
  {
    EveryRunKeepsInvariant(INITIAL, actions);
  }

  /**
   In every run a call reaches the device of the request that was current, and
   is completed exactly once unless it is still in progress.
   */
  lemma EveryCallCompletesOnce(actions: seq<Action>, c: nat)
    requires Runs(INITIAL, actions) && c < |History(actions)| && History(actions)[c].Called?
    ensures History(actions)[c].target == Current(History(actions)[..c], "")
    ensures Completions(History(actions), c) == if Open(After(INITIAL, actions).calls, c) then 0 else 1
  {
    RunIsRight(actions);
    assert EventRight(History(actions), c);
  }

  /** What ends a request: the event after it that is not a call. */
  ghost predicate EndsRequest(log: seq<Event>, i: nat, j: nat) {
    i < j < |log| && log[i].Started? && !log[j].Called? && forall k :: i < k < j ==> log[k].Called?
  }

  /**
   In every run a request ends by being cancelled or superseded, or by a
   completion with its own device id; until then it is the current one, and a
   step that leads on to its completion is always possible.
   */
  lemma EveryRequestEndsOnce(actions: seq<Action>, i: nat)
    requires Runs(INITIAL, actions) && i < |History(actions)| && History(actions)[i].Started?
    ensures var log := History(actions);
            forall j: nat :: EndsRequest(log, i, j) && log[j].Completed? ==> log[j].id == log[i].id
    ensures var s := After(INITIAL, actions);
            (forall k :: i < k < |s.log| ==> s.log[k].Called?) ==>
              s.id == s.log[i].id && (s.id != "" ==> s.timer == Running || s.calls != [])
  {
    RunIsRight(actions);
    var log := History(actions);
    forall j: nat | EndsRequest(log, i, j) ensures Current(log[..j], "") == log[i].id && EventRight(log, j) {
      OnlyCallsSince(log, i, j);
    }
    if forall k :: i < k < |log| ==> log[k].Called? {
      OnlyCallsSince(log, i, |log|);
      assert log[..|log|] == log;
    }
  }

  lemma {:induction false} OnlyCallsSince(log: seq<Event>, i: nat, j: nat)
    requires i < j <= |log| && log[i].Started? && forall k :: i < k < j ==> log[k].Called?
    ensures Current(log[..j], "") == log[i].id
    decreases j
  {
    assert log[..j][..j - 1] == log[..j - 1];
    if i < j - 1 {
      OnlyCallsSince(log, i, j - 1);
    }
  }

  /**
   A completion carries the id of the device that was called if and only if
   nothing happened during the call, or the last thing that did was a request
   for the same device.
   */
  lemma CompletionCarriesOwnId(actions: seq<Action>, i: nat)
    requires Runs(INITIAL, actions) && i < |History(actions)|
    requires History(actions)[i].Completed? && History(actions)[i].call.Some?
    ensures var log := History(actions);
            var c := log[i].call.value;
            c < i && log[c].Called?
            && (log[i].id == log[c].target <==> Current(log[c + 1..i], log[c].target) == log[c].target)
            && (i == c + 1 ==> log[i].id == log[c].target)
  {
    RunIsRight(actions);
    var log := History(actions);
    assert EventRight(log, i);
    var c := log[i].call.value;
    assert EventRight(log, c);
    assert log[..i] == log[..c + 1] + log[c + 1..i] && log[..c + 1] == log[..c] + [log[c]];
    CurrentSnoc(log[..c], log[c], "");
    CurrentComposes(log[..c + 1], log[c + 1..i], "");
  }

  /** Neither a request nor a cancellation. */
  predicate LeavesAlone(actions: seq<Action>) {
    forall k :: 0 <= k < |actions| ==> actions[k].Timeout? || actions[k].Return?
  }

  /**
   A request made while no call is in progress, and then left alone, can only
   go one way: its timer fires, its device is called, the completion carries
   its id and the outcome, and the coordinator is idle again.
   */
  lemma RequestLeftAlone(s: State, id: Id, reader: string, command: bytes, actions: seq<Action>)
    requires s.calls == [] && LeavesAlone(actions) && Runs(Step(s, Request(id, reader, command)), actions)
    ensures |actions| <= 2 && (|actions| >= 1 ==> actions[0].Timeout?) && (|actions| == 2 ==> actions[1].Return?)
    ensures var after := After(Step(s, Request(id, reader, command)), actions);
            var started := s.log + [Cancelled, Started(id, reader)];
            match |actions|
            case 0 => after.log == started && after.timer == Running && after.command == command
            case 1 => after.log == started + [Called(id, reader)] && after.calls == [Call(|started|, actions[0].present)]
            case _ =>
              && after == Cleaned(s).(timer := NoTimer, target := Some(id), log := after.log)
              && after.log == started + [Called(id, reader)] +
                 [Completed(Some(|started|), id, actions[0].present && actions[1].outcome)]
  {
    hide LeavesAlone;
    var requested := Step(s, Request(id, reader, command));
    assert requested.log == s.log + [Cancelled, Started(id, reader)];
    if actions != [] {
      FirstIsLeftAlone(actions);
      var called := Step(requested, actions[0]);
      OnlyReturns(called, actions[1..]);
      assert |actions| == 2 ==> actions[1] == actions[1..][0];
    }
  }

  lemma FirstIsLeftAlone(actions: seq<Action>)
    requires actions != [] && LeavesAlone(actions)
    ensures (actions[0].Timeout? || actions[0].Return?) && LeavesAlone(actions[1..])
  {
  }

  /** With one call in progress and the timer fired, left alone, only the return is possible. */
  lemma OnlyReturns(s: State, actions: seq<Action>)
    requires |s.calls| == 1 && s.timer == Fired && LeavesAlone(actions) && Runs(s, actions)
    ensures actions == [] || (|actions| == 1 && actions[0].Return? && After(s, actions) == Step(s, actions[0]))
  {
  }

  /** Left alone, the request can only go on by its timer firing. */
  ghost predicate CertainlyCalled(s: State, request: Action)
    requires request.Request?
  {
    forall actions: seq<Action> :: actions != [] && LeavesAlone(actions) && Runs(Step(s, request), actions) ==> actions[0].Timeout?
  }

  /** A request left alone is certain to be called exactly if no call is in progress when it is made. */
  lemma RequestIsCertainWhenIdle(s: State, id: Id, reader: string, command: bytes)
    ensures CertainlyCalled(s, Request(id, reader, command)) <==> s.calls == []
  {
    var requested := Step(s, Request(id, reader, command));
    if s.calls == [] {
      forall actions: seq<Action> | actions != [] && LeavesAlone(actions) && Runs(requested, actions)
        ensures actions[0].Timeout?
      {
        RequestLeftAlone(s, id, reader, command, actions);
      }
    } else {
      var lost := [Return(true)];
      assert Runs(Step(requested, Return(true)), lost[1..]);
      assert LeavesAlone(lost) && Runs(requested, lost);
    }
  }

  predicate MakesNoRequest(actions: seq<Action>) {
    forall k :: 0 <= k < |actions| ==> !actions[k].Request?
  }

  /** Without a running timer nothing is called until another request is made. */
  lemma {:induction false} NoTimerNoCall(s: State, actions: seq<Action>)
    requires s.timer != Running && MakesNoRequest(actions) && Runs(s, actions)
    ensures var log := After(s, actions).log;
            s.log <= log && forall k :: |s.log| <= k < |log| ==> !log[k].Called?
    decreases |actions|
  {
    if actions != [] {
      assert !actions[0].Request?;
      NoTimerNoCall(Step(s, actions[0]), actions[1..]);
    }
  }

  /** After a cancellation nothing is called before somebody makes another request, and no device is current. */
  lemma CancellationStops(s: State, later: seq<Action>)
    requires MakesNoRequest(later) && Runs(Step(s, Cancel), later)
    ensures var t := Step(s, Cancel);
            var log := After(t, later).log;
            t.id == "" && t.log == s.log + [Cancelled] && t.log <= log && forall k :: |t.log| <= k < |log| ==> !log[k].Called?
  {
    NoTimerNoCall(Step(s, Cancel), later);
  }

  /** A timeout without a function reports a failure for the current device, and nothing is ever called for it. */
  lemma WithoutFunctionItFails(s: State, present: bool, later: seq<Action>)
    requires s.timer == Running && s.target == None && MakesNoRequest(later) && Runs(Step(s, Timeout(present)), later)
    ensures var t := Step(s, Timeout(present));
            var log := After(t, later).log;
            t.log == s.log + [Completed(None, s.id, false)] && t.id == "" && t.calls == s.calls
            && t.log <= log && forall k :: |t.log| <= k < |log| ==> !log[k].Called?
  {
    NoTimerNoCall(Step(s, Timeout(present)), later);
  }

  /**
   Otherwise it is lost when that call returns: it is answered with the outcome
   of the other device, its timer is gone, and whatever happens next, nothing
   is called before somebody makes another request.
   */
  lemma RequestDuringCallIsLost(s: State, id: Id, reader: string, command: bytes, outcome: bool, later: seq<Action>)
    requires s.calls != [] && MakesNoRequest(later)
    requires Runs(Step(Step(s, Request(id, reader, command)), Return(outcome)), later)
    ensures var call := s.calls[|s.calls| - 1];
            var lost := Step(Step(s, Request(id, reader, command)), Return(outcome));
            && lost.timer == NoTimer
            && lost.log == s.log + [Cancelled, Started(id, reader)] +
               [Completed(Some(call.at), id, call.present && outcome)]
            && var log := After(lost, later).log;
               lost.log <= log && forall k :: |lost.log| <= k < |log| ==> !log[k].Called?
  {
    NoTimerNoCall(Step(Step(s, Request(id, reader, command)), Return(outcome)), later);
  }

  /** From the start: the second device is told that it was reconnected, although only the first was called. */
  lemma LosingIsReached(a: Id, b: Id, ra: string, rb: string)
    ensures var actions := [Request(a, ra, []), Timeout(true), Request(b, rb, []), Return(true)];
            && Runs(INITIAL, actions)
            && History(actions) == [Cancelled, Started(a, ra), Called(a, ra), Cancelled, Started(b, rb),
                                    Completed(Some(2), b, true)]
  {
    hide Runs, After;
    var s1 := Step(INITIAL, Request(a, ra, []));
    var s2 := Step(s1, Timeout(true));
    var s3 := Step(s2, Request(b, rb, []));
    assert s1.log == [Cancelled, Started(a, ra)];
    assert s2.log == [Cancelled, Started(a, ra), Called(a, ra)] && s2.calls == [Call(2, true)];
    assert s3.log == [Cancelled, Started(a, ra), Called(a, ra), Cancelled, Started(b, rb)] && s3.calls == s2.calls;
    FourSteps(INITIAL, Request(a, ra, []), Timeout(true), Request(b, rb, []), Return(true));
  }

  lemma FourSteps(s: State, a: Action, b: Action, c: Action, d: Action)
    requires Enabled(s, a) && Enabled(Step(s, a), b) && Enabled(Step(Step(s, a), b), c)
    requires Enabled(Step(Step(Step(s, a), b), c), d)
    ensures Runs(s, [a, b, c, d]) && After(s, [a, b, c, d]) == Step(Step(Step(Step(s, a), b), c), d)
  {
    hide Step, Enabled;
    assert [a, b, c, d][1..] == [b, c, d] && [b, c, d][1..] == [c, d] && [c, d][1..] == [d] && [d][1..] == [];
    var s1 := Step(s, a);
    var s2 := Step(s1, b);
    var s3 := Step(s2, c);
    var s4 := Step(s3, d);
    assert Runs(s4, []) && After(s4, []) == s4;
    assert Runs(s3, [d]) && After(s3, [d]) == s4;
    assert Runs(s2, [c, d]) && After(s2, [c, d]) == s4;
    assert Runs(s1, [b, c, d]) && After(s1, [b, c, d]) == s4;
  }
}
