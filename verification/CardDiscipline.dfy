/**
 How the operations of one device share its card: any number of threads, each
 taking the card mutex, opening a PC/SC transaction, selecting the OATH
 applet and validating the password before it sends its command, interleaved
 with other applications and with setPassword, which takes no mutex. A card
 reset in mid-operation is not part of this model.
 */
module CardDiscipline {
  import opened Bytes

  /** What the card keeps between commands: a SELECT ends any earlier validation and may ask for a password. */
  datatype Card = Card(oathSelected: bool, validated: bool, challenged: bool)

  /** Arguments say whether a password was given. */
  datatype Op =
    | Generate
    | Add
    | Delete
    | Fetch(given: bool)
    | Authenticate(given: bool)
    | Change(protected: bool, protects: bool)
    | CancelPending

  datatype Place =
    | Waiting | Entered | Opening | Selecting | Deciding | AuthSelecting | Validating | Reselecting | Sending | Closing
    | Unprotected

  /** A thread: its operation, where it is, and what it has decided on the way. */
  datatype Thread = Thread(op: Op, place: Place, skip: bool, auth: bool, selectedBefore: bool)

  datatype Holder = Ours | Other(app: nat)

  /** A command sent for an operation, with the state it found. */
  datatype Sent = Sent(thread: Thread, ownTransaction: bool, card: Card, password: bool)

  datatype State = State(threads: map<nat, Thread>, mutex: Option<nat>, transaction: Option<Holder>,
                         card: Card, password: bool, log: seq<Sent>)

  /** What SELECT comes to: accepted with or without a challenge, or not. */
  datatype Selection = Challenged | Plain | Refused(after: Card)

  /** SendList is a list command that another may follow in the same fetch; it leaves the card as it is. */
  datatype Action =
    | Start(t: nat, op: Op)
    | Lock(t: nat)
    | Look(t: nat)
    | Abandon(t: nat)
    | Begin(t: nat, ok: bool)
    | Select(t: nat, answer: Selection)
    | Decide(t: nat)
    | Validate(t: nat, ok: bool, after: Card)
    | SendList(t: nat)
    | Send(t: nat, after: Card)
    | Close(t: nat)
    | SetPassword(nonEmpty: bool)
    | OtherBegin(app: nat)
    | OtherEnd(app: nat)
    | OtherTransmit(app: nat, after: Card)

  const INITIAL := State(map[], None, None, Card(false, false, false), false, [])

  // ---------------------------------------------------------------------------
  // What each step does
  // ---------------------------------------------------------------------------

  predicate At(s: State, t: nat, place: Place) {
    t in s.threads && s.threads[t].place == place
  }

  predicate Enabled(s: State, a: Action) {
    match a
    case Start(t, _) => t !in s.threads
    case Lock(t) => At(s, t, Waiting) && s.mutex == None
    case Look(t) => At(s, t, Entered)
    case Abandon(t) => At(s, t, Entered)
    case Begin(t, ok) => At(s, t, Opening) && (ok ==> s.transaction == None)
    case Select(t, _) =>
      At(s, t, Selecting) || At(s, t, AuthSelecting) || At(s, t, Reselecting)
      || (At(s, t, Unprotected) && s.transaction == None)
    case Decide(t) => At(s, t, Deciding)
    case Validate(t, _, _) => At(s, t, Validating)
    case SendList(t) => At(s, t, Sending) && s.threads[t].op.Fetch?
    case Send(t, _) => At(s, t, Sending)
    case Close(t) => At(s, t, Closing)
    case SetPassword(_) => true
    case OtherBegin(_) => s.transaction == None
    case OtherEnd(app) => s.transaction == Some(Other(app))
    case OtherTransmit(app, _) => s.transaction == None || s.transaction == Some(Other(app))
  }

  function Put(s: State, t: nat, thread: Thread): State {
    s.(threads := s.threads[t := thread])
  }

  /** The thread is done and its locks are released. */
  function Leave(s: State, t: nat): State {
    s.(threads := s.threads - {t}, mutex := None)
  }

  /** The second look at the password; without authentication the command comes next. */
  function Decided(s: State, th: Thread): Thread {
    var auth := match th.op
                case Generate => s.password
                case Add => s.password
                case Delete => s.password
                case Fetch(given) => given || s.password
                case Authenticate(_) => true
                case Change(protected, _) => protected
                case CancelPending => false;
    th.(auth := auth, place := if auth then AuthSelecting else AfterAuth(th.op))
  }

  /** Setting a new password selects the applet once more. */
  function AfterAuth(op: Op): Place {
    match op
    case Authenticate(_) => Closing
    case Change(_, protects) => if protects then Reselecting else Sending
    case _ => Sending
  }

  function Selected(s: State, t: nat, answer: Selection): State
    requires t in s.threads
  {
    var th := s.threads[t];
    var card := if answer.Refused? then answer.after else Card(true, false, answer.Challenged?);
    var s1 := s.(card := card);
    match th.place
    case Unprotected => Leave(s1, t)
    case AuthSelecting => Put(s1, t, th.(place := if answer.Challenged? then Validating else Closing))
    case Reselecting => Put(s1, t, th.(place := if answer.Refused? then Closing else Sending))
    case _ => Put(s1, t, th.(place := if answer.Refused? then Closing else Deciding))
  }

  function Validated(s: State, t: nat, ok: bool, after: Card): State
    requires t in s.threads
  {
    var th := s.threads[t];
    if !ok then Put(s, t, th.(place := Closing)).(card := after)
    else
      var password := match th.op
                      case Fetch(_) => true
                      case Authenticate(given) => given
                      case _ => s.password;
      Put(s, t, th.(place := AfterAuth(th.op))).(card := s.card.(validated := true), password := password)
  }

  /** A command goes out. */
  function Logged(s: State, t: nat): State
    requires t in s.threads
  {
    s.(log := s.log + [Sent(s.threads[t], s.transaction == Some(Ours) && s.mutex == Some(t), s.card, s.password)])
  }

  function Step(s: State, a: Action): State
    requires Enabled(s, a)
  {
    match a
    case Start(t, op) => Put(s, t, Thread(op, Waiting, false, false, false))
    case Lock(t) => Put(s, t, s.threads[t].(place := Entered)).(mutex := Some(t))
    case Look(t) =>
      var th := s.threads[t];
      Put(s, t, th.(skip := th.op == Generate && s.password,
                    place := if th.op == CancelPending then Unprotected else Opening))
    case Abandon(t) => Leave(s, t)
    case Begin(t, ok) =>
      var th := s.threads[t];
      if !ok then Leave(s, t)
      else
        Put(s, t, th.(selectedBefore := s.card.oathSelected, place := if th.skip then Deciding else Selecting))
        .(transaction := Some(Ours))
    case Select(t, answer) => Selected(s, t, answer)
    case Decide(t) => Put(s, t, Decided(s, s.threads[t]))
    case Validate(t, ok, after) => Validated(s, t, ok, after)
    case SendList(t) => Logged(s, t)
    case Send(t, after) => Put(Logged(s, t), t, s.threads[t].(place := Closing)).(card := after)
    case Close(t) => Leave(s, t).(transaction := None)
    case SetPassword(nonEmpty) => s.(password := nonEmpty)
    case OtherBegin(app) => s.(transaction := Some(Other(app)))
    case OtherEnd(_) => s.(transaction := None)
    case OtherTransmit(_, after) => s.(card := after)
  }

  predicate Runs(s: State, actions: seq<Action>)
    decreases |actions|
  {
    actions == [] || (Enabled(s, actions[0]) && Runs(Step(s, actions[0]), actions[1..]))
  }

  function After(s: State, actions: seq<Action>): State
    requires Runs(s, actions)
    decreases |actions|
  {
    if actions == [] then s else After(Step(s, actions[0]), actions[1..])
  }

  // ---------------------------------------------------------------------------
  // The discipline
  // ---------------------------------------------------------------------------

  predicate InTransaction(place: Place) {
    place in {Selecting, Deciding, AuthSelecting, Validating, Reselecting, Sending, Closing}
  }

  /** Setting a new password goes out after a SELECT of its own, which ends the validation. */
  predicate SetsCode(op: Op) {
    op.Change? && op.protects
  }

  /** The password was there at the first look and gone at the second: neither look led to a SELECT. */
  predicate PasswordVanished(th: Thread) {
    th.skip && !th.auth
  }

  /** What a command finds when it is sent. */
  ghost predicate Disciplined(e: Sent) {
    && e.ownTransaction
    && (e.thread.skip ==> e.thread.op == Generate)
    && (e.card.oathSelected <==> !PasswordVanished(e.thread) || e.thread.selectedBefore)
    && (SetsCode(e.thread.op) ==> !e.card.validated)
    && (!SetsCode(e.thread.op) && e.thread.auth ==> e.card.validated)
    && (e.thread.op == Fetch(true) || e.thread.op == Change(true, false) ==> e.card.validated)
    && !e.thread.op.Authenticate? && e.thread.op != CancelPending
  }

  /** What a thread that holds the card knows of it, place by place. */
  ghost predicate Knows(th: Thread, card: Card) {
    && (th.skip ==> th.op == Generate)
    && th.op != CancelPending
    && match th.place
       case Selecting => !th.skip
       case Deciding => if th.skip then card.oathSelected == th.selectedBefore else card.oathSelected
       case AuthSelecting => th.auth && (th.op.Change? ==> th.op.protected)
       case Validating => th.auth && (th.op.Change? ==> th.op.protected) && card.oathSelected && card.challenged
       case Reselecting => SetsCode(th.op)
       case Sending => Disciplined(Sent(th, true, card, false))
       case _ => true
  }

  /** One thread holds the mutex; the others wait for it. */
  ghost predicate Exclusive(s: State) {
    && (s.mutex.Some? ==> s.mutex.value in s.threads && s.threads[s.mutex.value].place != Waiting)
    && forall t <- s.threads :: s.mutex == Some(t) || s.threads[t].place == Waiting
  }

  /** Our transaction is open exactly while the holder of the mutex is inside one. */
  ghost predicate HoldsCard(s: State) {
    s.transaction == Some(Ours) <==>
      s.mutex.Some? && s.mutex.value in s.threads && InTransaction(s.threads[s.mutex.value].place)
  }

  ghost predicate HolderKnows(s: State) {
    forall t <- s.threads :: InTransaction(s.threads[t].place) ==> Knows(s.threads[t], s.card)
  }

  ghost predicate BeforeCard(s: State) {
    forall t <- s.threads :: s.threads[t].place in {Opening, Unprotected} ==>
      && (s.threads[t].skip ==> s.threads[t].op == Generate)
      && (s.threads[t].op == CancelPending <==> s.threads[t].place == Unprotected)
  }

  ghost predicate LogDisciplined(s: State) {
    forall k :: 0 <= k < |s.log| ==> Disciplined(s.log[k])
  }

  ghost predicate Invariant(s: State) {
    Exclusive(s) && HoldsCard(s) && HolderKnows(s) && BeforeCard(s) && LogDisciplined(s)
  }

  /** What must hold of the thread that has the card when it moves on. */
  ghost predicate HolderRight(th: Thread, s: State) {
    && th.place != Waiting
    && (s.transaction == Some(Ours) <==> InTransaction(th.place))
    && (InTransaction(th.place) ==> Knows(th, s.card))
    && (th.place in {Opening, Unprotected} ==>
          (th.skip ==> th.op == Generate) && (th.op == CancelPending <==> th.place == Unprotected))
  }

  lemma HolderIs(s: State, t: nat)
    requires Invariant(s) && t in s.threads && s.threads[t].place != Waiting
    ensures s.mutex == Some(t) && HolderRight(s.threads[t], s)
  {
  }

  /** The thread that holds the mutex moves; the others stay where they are. */
  lemma HolderMoves(s: State, u: State, t: nat)
    requires Invariant(s) && s.mutex == Some(t) && u.mutex == s.mutex && u.threads.Keys == s.threads.Keys
    requires t in s.threads && forall v <- s.threads :: v != t ==> u.threads[v] == s.threads[v]
    requires HolderRight(u.threads[t], u) && LogDisciplined(u)
    ensures Invariant(u)
  {
    hide Knows, LogDisciplined;
  }

  lemma HolderLeaves(s: State, u: State, t: nat)
    requires Invariant(s) && s.mutex == Some(t) && u.threads == s.threads - {t} && u.mutex == None
    requires u.transaction != Some(Ours) && u.log == s.log
    ensures Invariant(u)
  {
  }

  /** Steps that no thread inside a transaction can notice. */
  lemma OthersMove(s: State, u: State)
    requires Invariant(s) && u.threads == s.threads && u.mutex == s.mutex && u.log == s.log
    requires u.card != s.card ==> s.transaction != Some(Ours)
    requires u.transaction == Some(Ours) <==> s.transaction == Some(Ours)
    ensures Invariant(u)
  {
  }

  lemma ThreadArrives(s: State, t: nat, op: Op)
    requires Invariant(s) && t !in s.threads
    ensures Invariant(Step(s, Start(t, op)))
  {
    hide Knows;
  }

  lemma ThreadLocks(s: State, t: nat)
    requires Invariant(s) && At(s, t, Waiting) && s.mutex == None
    ensures Invariant(Step(s, Lock(t)))
  {
  }

  /** The step of the thread that holds the mutex. */
  function Mover(a: Action): Option<nat> {
    match a
    case Look(t) => Some(t)
    case Abandon(t) => Some(t)
    case Begin(t, _) => Some(t)
    case Select(t, _) => Some(t)
    case Decide(t) => Some(t)
    case Validate(t, _, _) => Some(t)
    case SendList(t) => Some(t)
    case Send(t, _) => Some(t)
    case Close(t) => Some(t)
    case _ => None
  }

  predicate Sends(a: Action) {
    a.SendList? || a.Send?
  }

  lemma SelectIsRight(s: State, t: nat, answer: Selection)
    requires Enabled(s, Select(t, answer)) && s.mutex == Some(t) && HolderRight(s.threads[t], s)
    ensures var u := Selected(s, t, answer);
            if t in u.threads then HolderRight(u.threads[t], u) else u.transaction != Some(Ours)
  {
  }

  lemma DecisionIsRight(s: State, t: nat)
    requires Enabled(s, Decide(t)) && s.mutex == Some(t) && HolderRight(s.threads[t], s)
    ensures HolderRight(Decided(s, s.threads[t]), s)
  {
  }

  lemma ValidationIsRight(s: State, t: nat, ok: bool, after: Card)
    requires Enabled(s, Validate(t, ok, after)) && s.mutex == Some(t) && HolderRight(s.threads[t], s)
    ensures var u := Validated(s, t, ok, after); t in u.threads && HolderRight(u.threads[t], u)
  {
  }

  lemma SenderIsRight(s: State, t: nat)
    requires At(s, t, Sending) && HolderRight(s.threads[t], s)
    ensures Disciplined(Sent(s.threads[t], true, s.card, s.password)) && s.transaction == Some(Ours)
  {
  }

  lemma MoverIsRight(s: State, a: Action, t: nat)
    requires Enabled(s, a) && Mover(a) == Some(t) && s.mutex == Some(t) && HolderRight(s.threads[t], s)
    ensures t in Step(s, a).threads ==> HolderRight(Step(s, a).threads[t], Step(s, a))
    ensures t !in Step(s, a).threads ==> Step(s, a).transaction != Some(Ours)
    ensures Sends(a) ==> Disciplined(Sent(s.threads[t], true, s.card, s.password)) && s.transaction == Some(Ours)
  {
    hide Disciplined, Selected, Decided, Validated;
    if a.Select? {
      SelectIsRight(s, t, a.answer);
    } else if a.Decide? {
      DecisionIsRight(s, t);
    } else if a.Validate? {
      ValidationIsRight(s, t, a.ok, a.after);
    } else if Sends(a) {
      SenderIsRight(s, t);
    }
  }

  lemma MoveKeepsInvariant(s: State, a: Action, t: nat)
    requires Invariant(s) && Enabled(s, a) && Mover(a) == Some(t)
    ensures Invariant(Step(s, a))
  {
    hide Invariant, LogDisciplined, HolderRight, Disciplined;
    HolderIs(s, t);
    MoverIsRight(s, a, t);
    var u := Step(s, a);
    if t !in u.threads {
      LogKept(s, u);
      HolderLeaves(s, u, t);
    } else {
      if Sends(a) {
        LogGrows(s, u);
      } else {
        LogKept(s, u);
      }
      HolderMoves(s, u, t);
    }
  }

  lemma LogKept(s: State, u: State)
    requires Invariant(s) && u.log == s.log
    ensures LogDisciplined(u)
  {
  }

  lemma LogGrows(s: State, u: State)
    requires Invariant(s) && |u.log| == |s.log| + 1 && s.log <= u.log && Disciplined(u.log[|s.log|])
    ensures LogDisciplined(u)
  {
  }

  lemma StepKeepsInvariant(s: State, a: Action)
    requires Invariant(s) && Enabled(s, a)
    ensures Invariant(Step(s, a))
  {
    hide Invariant;
    if Mover(a).Some? {
      MoveKeepsInvariant(s, a, Mover(a).value);
    } else if a.Start? {
      ThreadArrives(s, a.t, a.op);
    } else if a.Lock? {
      ThreadLocks(s, a.t);
    } else {
      OthersMove(s, Step(s, a));
    }
  }

  lemma {:induction false} EveryRunKeepsInvariant(s: State, actions: seq<Action>)
    requires Invariant(s) && Runs(s, actions)
    ensures Invariant(After(s, actions))
    decreases |actions|
  {
    if actions != [] {
      StepKeepsInvariant(s, actions[0]);
      EveryRunKeepsInvariant(Step(s, actions[0]), actions[1..]);
    }
  }

  /**
   In every run every command goes out inside the transaction of its own
   thread; OATH is selected if and only if the password did not vanish
   between the two looks or OATH had been left selected before the
   transaction; and when the operation saw a password, the command follows a
   successful VALIDATE since the last SELECT, except SET CODE, which never does.
   */
  lemma EveryCommandIsDisciplined(actions: seq<Action>, k: nat)
    requires Runs(INITIAL, actions) && k < |After(INITIAL, actions).log|
    ensures Disciplined(After(INITIAL, actions).log[k])
  {
    EveryRunKeepsInvariant(INITIAL, actions);
  }

  /** In every run at most one thread is past the mutex, and our transaction is open only while it is inside one. */
  lemma EveryTransactionIsEnded(actions: seq<Action>)
    requires Runs(INITIAL, actions)
    ensures var s := After(INITIAL, actions);
            && (forall t <- s.threads, u <- s.threads ::
                  s.threads[t].place != Waiting && s.threads[u].place != Waiting ==> t == u)
            && (s.transaction == Some(Ours) <==> exists t :: t in s.threads && InTransaction(s.threads[t].place))
  {
    EveryRunKeepsInvariant(INITIAL, actions);
    var s := After(INITIAL, actions);
    assert forall t <- s.threads :: s.mutex == Some(t) || s.threads[t].place == Waiting;
  }

  /** A command is logged when it is sent, and only a fetch can send another after it. */
  lemma OneCommandEach(s: State, a: Action)
    requires Enabled(s, a)
    ensures Step(s, a).log != s.log <==> a.SendList? || a.Send?
    ensures Step(s, a).log != s.log ==>
              && |Step(s, a).log| == |s.log| + 1 && s.log <= Step(s, a).log
              && Step(s, a).log[|s.log|].thread == s.threads[a.t] && Step(s, a).log[|s.log|].card == s.card
              && (!s.threads[a.t].op.Fetch? ==>
                    forall after: Card :: !Enabled(Step(s, a), Send(a.t, after)) && !Enabled(Step(s, a), SendList(a.t)))
  {
    hide Decided, AfterAuth, Validated, Selected;
    LogOf(s, a);
  }

  lemma LogOf(s: State, a: Action)
    requires Enabled(s, a)
    ensures Step(s, a).log != s.log <==> a.SendList? || a.Send?
  {
    if a.SendList? || a.Send? {
      assert |Step(s, a).log| == |s.log| + 1;
    }
  }

  /**
   While another application has the card nobody else takes its transaction or
   sends anything; it ends when that application ends it.
   */
  lemma OthersAreLeftAlone(s: State, a: Action, app: nat)
    requires Invariant(s) && Enabled(s, a) && s.transaction == Some(Other(app))
    ensures Step(s, a).transaction == if a == OtherEnd(app) then None else s.transaction
    ensures Step(s, a).card != s.card ==> a.OtherTransmit? && a.app == app
    ensures Step(s, a).log == s.log
  {
    hide Knows, Decided, LogDisciplined, BeforeCard;
    if Mover(a).Some? {
      HolderIs(s, Mover(a).value);
    }
  }

  // ---------------------------------------------------------------------------
  // A stored password is validated before the command
  // ---------------------------------------------------------------------------

  /** In every run a VALIDATE goes out in our transaction to the OATH applet, which has asked for a password. */
  lemma EveryValidateWasAskedFor(actions: seq<Action>, t: nat)
    requires Runs(INITIAL, actions) && At(After(INITIAL, actions), t, Validating)
    ensures var s := After(INITIAL, actions);
            s.transaction == Some(Ours) && s.card.oathSelected && s.card.challenged
  {
    EveryRunKeepsInvariant(INITIAL, actions);
    HolderIs(After(INITIAL, actions), t);
  }

  /** Operations whose command a card with a password refuses unless it was validated. */
  predicate Needs(op: Op) {
    op.Generate? || op.Add? || op.Delete? || op.Fetch?
  }

  /** With a password stored, the command about to go out follows its validation. */
  predicate Ready(th: Thread, password: bool, card: Card) {
    th.place == Sending && Needs(th.op) && password ==> card.validated
  }

  ghost predicate Guarded(s: State) {
    && (forall t <- s.threads :: Ready(s.threads[t], s.password, s.card))
    && forall k :: 0 <= k < |s.log| ==>
         (Needs(s.log[k].thread.op) && s.log[k].password ==> s.log[k].card.validated)
  }

  /** No password is stored at the moment a command that needs one is about to go out without. */
  ghost predicate Timely(s: State, a: Action) {
    a == SetPassword(true) ==> forall t <- s.threads :: Ready(s.threads[t], true, s.card)
  }

  lemma MoverIsReady(s: State, a: Action, t: nat)
    requires Enabled(s, a) && Mover(a) == Some(t)
    requires HolderRight(s.threads[t], s) && Ready(s.threads[t], s.password, s.card)
    ensures var u := Step(s, a); t in u.threads ==> Ready(u.threads[t], u.password, u.card)
  {
    hide Disciplined;
  }

  lemma MoveKeepsGuard(s: State, a: Action, t: nat)
    requires Invariant(s) && Guarded(s) && Enabled(s, a) && Mover(a) == Some(t)
    ensures Guarded(Step(s, a))
  {
    hide Invariant, HolderRight, Step;
    HolderIs(s, t);
    MoverIsReady(s, a, t);
    OthersWait(s, a, t);
    MoverLogs(s, a, t);
  }

  lemma OthersWait(s: State, a: Action, t: nat)
    requires Invariant(s) && Enabled(s, a) && Mover(a) == Some(t)
    ensures forall v <- Step(s, a).threads :: v != t ==> Step(s, a).threads[v].place == Waiting
  {
    hide HoldsCard, HolderKnows, BeforeCard, LogDisciplined, Step;
    OthersStay(s, a, t);
  }

  /** The log grows by the command of a thread that stands ready. */
  lemma MoverLogs(s: State, a: Action, t: nat)
    requires Enabled(s, a) && Mover(a) == Some(t)
    ensures var u := Step(s, a);
            forall k :: 0 <= k < |u.log| ==>
              || (k < |s.log| && u.log[k] == s.log[k])
              || (At(s, t, Sending)
                  && u.log[k] == Sent(s.threads[t], u.log[k].ownTransaction, s.card, s.password))
  {
    hide Decided;
  }

  lemma OthersKeepGuard(s: State, a: Action)
    requires Invariant(s) && Guarded(s) && Enabled(s, a) && Mover(a) == None
    ensures Guarded(Step(s, a)) <==> Timely(s, a)
  {
    hide BeforeCard, LogDisciplined, Knows;
    assert Step(s, a).log == s.log;
  }

  lemma StepKeepsGuard(s: State, a: Action)
    requires Invariant(s) && Guarded(s) && Enabled(s, a)
    ensures Guarded(Step(s, a)) <==> Timely(s, a)
  {
    hide Invariant, Guarded;
    if Mover(a).Some? {
      MoveKeepsGuard(s, a, Mover(a).value);
    } else {
      OthersKeepGuard(s, a);
    }
  }

  ghost predicate TimelyRun(s: State, actions: seq<Action>)
    requires Runs(s, actions)
    decreases |actions|
  {
    actions == [] || (Timely(s, actions[0]) && TimelyRun(Step(s, actions[0]), actions[1..]))
  }

  ghost predicate AlwaysGuarded(s: State, actions: seq<Action>)
    requires Runs(s, actions)
    decreases |actions|
  {
    Guarded(s) && (actions == [] || AlwaysGuarded(Step(s, actions[0]), actions[1..]))
  }

  lemma {:induction false} RunKeepsGuard(s: State, actions: seq<Action>)
    requires Invariant(s) && Guarded(s) && Runs(s, actions)
    ensures AlwaysGuarded(s, actions) <==> TimelyRun(s, actions)
    ensures TimelyRun(s, actions) ==> Guarded(After(s, actions))
    decreases |actions|
  {
    hide Invariant, Guarded, Timely;
    if actions != [] {
      StepKeepsInvariant(s, actions[0]);
      StepKeepsGuard(s, actions[0]);
      if Timely(s, actions[0]) {
        RunKeepsGuard(Step(s, actions[0]), actions[1..]);
      } else {
        assert !AlwaysGuarded(Step(s, actions[0]), actions[1..]);
      }
    }
  }

  /**
   Throughout a run every CALCULATE, PUT, DELETE or fetch that is about to go
   out while a password is stored finds the password validated, if and only if
   no password is ever stored while such a command stands ready without.
   */
  lemma GuardedExactlyIfTimely(actions: seq<Action>)
    requires Runs(INITIAL, actions)
    ensures AlwaysGuarded(INITIAL, actions) <==> TimelyRun(INITIAL, actions)
  {
    RunKeepsGuard(INITIAL, actions);
  }

  /** So in such a run every one of them that was sent while a password was stored followed its validation. */
  lemma ProtectedCommandsFollowValidate(actions: seq<Action>, k: nat)
    requires Runs(INITIAL, actions) && TimelyRun(INITIAL, actions) && k < |After(INITIAL, actions).log|
    ensures var e := After(INITIAL, actions).log[k]; Needs(e.thread.op) && e.password ==> e.card.validated
  {
    RunKeepsGuard(INITIAL, actions);
  }

  /** Such a moment is reached: a DELETE finds the password stored and the card, which asked for it, not validated. */
  lemma LatePasswordIsReached(after: Card)
    ensures var ready := WayIn(0, Delete, false, Challenged) + [Decide(0)];
            var actions := ready + [SetPassword(true), Send(0, after)];
            && Runs(INITIAL, actions) && !TimelyRun(INITIAL, actions)
            && var log := After(INITIAL, actions).log;
               |log| == 1 && log[0].thread.op == Delete && log[0].password && log[0].card.challenged && !log[0].card.validated
  {
    hide Enabled, Step, Runs, After, TimelyRun, WayIn;
    var ready := WayIn(0, Delete, false, Challenged) + [Decide(0)];
    Opens(INITIAL, 0, Delete, Challenged);
    var s1 := After(INITIAL, WayIn(0, Delete, false, Challenged));
    Decides(s1, 0);
    RunsThen(INITIAL, WayIn(0, Delete, false, Challenged), [Decide(0)]);
    var s2 := After(INITIAL, ready);
    LateSend(s2, 0, after);
    RunsThen(INITIAL, ready, [SetPassword(true), Send(0, after)]);
    var actions := ready + [SetPassword(true), Send(0, after)];
    if TimelyRun(INITIAL, actions) {
      ProtectedCommandsFollowValidate(actions, 0);
      assert false;
    }
  }

  lemma LateSend(s: State, t: nat, after: Card)
    requires At(s, t, Sending)
    ensures var actions := [SetPassword(true), Send(t, after)];
            && Runs(s, actions)
            && var log := After(s, actions).log;
               |log| == |s.log| + 1 && log[|s.log|].thread == s.threads[t] && log[|s.log|].card == s.card
               && log[|s.log|].password
  {
    var s1 := Step(s, SetPassword(true));
    StepThen(s1, Send(t, after), []);
    assert [Send(t, after)] + [] == [Send(t, after)];
    StepThen(s, SetPassword(true), [Send(t, after)]);
    assert [SetPassword(true), Send(t, after)] == [SetPassword(true)] + [Send(t, after)];
  }

  /** Operations that authenticate because their caller says so. */
  predicate Asks(op: Op) {
    op.Authenticate? || op == Fetch(true) || (op.Change? && op.protected)
  }

  predicate FreeThread(th: Thread) {
    th.place in {AuthSelecting, Validating} ==> Asks(th.op)
  }

  /** No password is stored, and only those asked to authenticate. */
  ghost predicate Free(s: State) {
    !s.password && forall t <- s.threads :: FreeThread(s.threads[t])
  }

  /** A password is stored by hand or because it was found right. */
  predicate Gives(s: State, a: Action) {
    || a == SetPassword(true)
    || (a.Validate? && a.ok && a.t in s.threads && s.threads[a.t].op in {Authenticate(true), Fetch(true)})
  }

  lemma StepKeepsFree(s: State, a: Action)
    requires Free(s) && Enabled(s, a)
    ensures Free(Step(s, a)) <==> !Gives(s, a)
  {
    if Mover(a).Some? {
      var t := Mover(a).value;
      hide Free, Step;
      FreeHolder(s, t);
      MoverStaysFree(s, a, t);
      OthersStay(s, a, t);
      FreeIfMoverIs(s, Step(s, a), t);
    }
  }

  lemma FreeHolder(s: State, t: nat)
    requires Free(s) && t in s.threads
    ensures !s.password && FreeThread(s.threads[t])
  {
  }

  lemma FreeIfMoverIs(s: State, u: State, t: nat)
    requires Free(s) && forall v <- u.threads :: v != t ==> v in s.threads && u.threads[v] == s.threads[v]
    requires t in u.threads ==> FreeThread(u.threads[t])
    ensures Free(u) <==> !u.password
  {
  }

  lemma MoverStaysFree(s: State, a: Action, t: nat)
    requires Enabled(s, a) && Mover(a) == Some(t) && !s.password && FreeThread(s.threads[t])
    ensures t in Step(s, a).threads ==> FreeThread(Step(s, a).threads[t])
    ensures Step(s, a).password <==> Gives(s, a)
  {
  }

  lemma OthersStay(s: State, a: Action, t: nat)
    requires Enabled(s, a) && Mover(a) == Some(t)
    ensures forall v <- Step(s, a).threads :: v != t ==> v in s.threads && Step(s, a).threads[v] == s.threads[v]
  {
    hide Decided, AfterAuth;
  }

  ghost predicate AlwaysFree(s: State, actions: seq<Action>)
    requires Runs(s, actions)
    decreases |actions|
  {
    Free(s) && (actions == [] || AlwaysFree(Step(s, actions[0]), actions[1..]))
  }

  ghost predicate NeverGives(s: State, actions: seq<Action>)
    requires Runs(s, actions)
    decreases |actions|
  {
    actions == [] || (!Gives(s, actions[0]) && NeverGives(Step(s, actions[0]), actions[1..]))
  }

  lemma {:induction false} RunKeepsFree(s: State, actions: seq<Action>)
    requires Free(s) && Runs(s, actions)
    ensures AlwaysFree(s, actions) <==> NeverGives(s, actions)
    decreases |actions|
  {
    hide Free, Gives;
    if actions != [] {
      StepKeepsFree(s, actions[0]);
      if Gives(s, actions[0]) {
        assert !AlwaysFree(Step(s, actions[0]), actions[1..]);
      } else {
        RunKeepsFree(Step(s, actions[0]), actions[1..]);
      }
    }
  }

  /**
   Throughout a run no password is stored, and nobody authenticates who was
   not asked to, if and only if none is ever set and none given to a fetch or
   an authentication is found right.
   */
  lemma FreeExactlyIfNoneGiven(actions: seq<Action>)
    requires Runs(INITIAL, actions)
    ensures AlwaysFree(INITIAL, actions) <==> NeverGives(INITIAL, actions)
  {
    RunKeepsFree(INITIAL, actions);
  }

  // ---------------------------------------------------------------------------
  // An operation that is alone with its card
  // ---------------------------------------------------------------------------

  /** The way to the second look at the password; a stored password saves generateCode the first SELECT. */
  function WayIn(t: nat, op: Op, password: bool, answer: Selection): seq<Action> {
    [Start(t, op), Lock(t), Look(t), Begin(t, true)]
    + if op == Generate && password then [] else [Select(t, answer)]
  }

  /** From the second look to the command, or to the end if there is none. */
  function WayToCommand(t: nat, op: Op, password: bool, answer: Selection, card: Card): seq<Action> {
    [Decide(t)]
    + (if Asks(op) || (Needs(op) && password) then [Select(t, Challenged), Validate(t, true, card)] else [])
    + if SetsCode(op) then [Select(t, answer)] else []
  }

  function WayOut(t: nat, op: Op, card: Card): seq<Action> {
    if op.Authenticate? then [Close(t)] else [Send(t, card), Close(t)]
  }

  lemma {:induction false} RunsThen(s: State, p: seq<Action>, q: seq<Action>)
    requires Runs(s, p) && Runs(After(s, p), q)
    ensures Runs(s, p + q) && After(s, p + q) == After(After(s, p), q)
    decreases |p|
  {
    if p == [] {
      assert p + q == q;
    } else {
      assert (p + q)[0] == p[0] && (p + q)[1..] == p[1..] + q;
      RunsThen(Step(s, p[0]), p[1..], q);
    }
  }

  lemma StepThen(s: State, a: Action, q: seq<Action>)
    requires Enabled(s, a) && Runs(Step(s, a), q)
    ensures Runs(s, [a] + q) && After(s, [a] + q) == After(Step(s, a), q)
  {
    assert ([a] + q)[1..] == q;
  }

  /** A state in which nobody else is at the card and the thread has come as far as given. */
  predicate Alone(s: State, u: State, t: nat, th: Thread, card: Card) {
    u == State(s.threads[t := th], Some(t), Some(Ours), card, u.password, s.log)
  }

  lemma Opens(s: State, t: nat, op: Op, answer: Selection)
    requires t !in s.threads && s.mutex == None && s.transaction == None
    requires op != CancelPending && !answer.Refused?
    ensures var run := WayIn(t, op, s.password, answer);
            && Runs(s, run)
            && var u := After(s, run);
               && At(u, t, Deciding) && u.threads[t].op == op && u.password == s.password
               && Alone(s, u, t, u.threads[t], u.card)
               && (!(op == Generate && s.password) ==> u.card == Card(true, false, answer.Challenged?))
  {
    Enters(s, t, op);
    var way := [Start(t, op), Lock(t), Look(t), Begin(t, true)];
    if op == Generate && s.password {
      assert WayIn(t, op, s.password, answer) == way;
    } else {
      var s4 := After(s, way);
      SelectsFirst(s4, t, answer);
      RunsThen(s, way, [Select(t, answer)]);
    }
  }

  lemma Enters(s: State, t: nat, op: Op)
    requires t !in s.threads && s.mutex == None && s.transaction == None && op != CancelPending
    ensures var way := [Start(t, op), Lock(t), Look(t), Begin(t, true)];
            && Runs(s, way)
            && var u := After(s, way);
               && At(u, t, if op == Generate && s.password then Deciding else Selecting) && u.threads[t].op == op
               && u.password == s.password && Alone(s, u, t, u.threads[t], u.card)
  {
    Arrives(s, t, op);
    var s2 := After(s, [Start(t, op), Lock(t)]);
    Begins(s2, t);
    RunsThen(s, [Start(t, op), Lock(t)], [Look(t), Begin(t, true)]);
    assert [Start(t, op), Lock(t)] + [Look(t), Begin(t, true)] == [Start(t, op), Lock(t), Look(t), Begin(t, true)];
  }

  lemma Arrives(s: State, t: nat, op: Op)
    requires t !in s.threads && s.mutex == None
    ensures var way := [Start(t, op), Lock(t)];
            && Runs(s, way)
            && After(s, way) == s.(threads := s.threads[t := Thread(op, Entered, false, false, false)], mutex := Some(t))
  {
    var s1 := Step(s, Start(t, op));
    StepThen(s1, Lock(t), []);
    assert [Lock(t)] + [] == [Lock(t)];
    StepThen(s, Start(t, op), [Lock(t)]);
    assert [Start(t, op), Lock(t)] == [Start(t, op)] + [Lock(t)];
  }

  lemma Begins(s: State, t: nat)
    requires At(s, t, Entered) && s.threads[t].op != CancelPending && s.mutex == Some(t) && s.transaction == None
    ensures var way := [Look(t), Begin(t, true)];
            && Runs(s, way)
            && var u := After(s, way);
               && At(u, t, if s.threads[t].op == Generate && s.password then Deciding else Selecting)
               && u.threads[t].op == s.threads[t].op
               && u.password == s.password && Alone(s, u, t, u.threads[t], u.card)
  {
    var s1 := Step(s, Look(t));
    StepThen(s1, Begin(t, true), []);
    assert [Begin(t, true)] + [] == [Begin(t, true)];
    StepThen(s, Look(t), [Begin(t, true)]);
    assert [Look(t), Begin(t, true)] == [Look(t)] + [Begin(t, true)];
  }

  lemma SelectsFirst(s: State, t: nat, answer: Selection)
    requires At(s, t, Selecting) && !answer.Refused? && s.mutex == Some(t) && s.transaction == Some(Ours)
    ensures Runs(s, [Select(t, answer)])
    ensures var u := After(s, [Select(t, answer)]);
            && At(u, t, Deciding) && u.threads[t].op == s.threads[t].op && u.password == s.password
            && Alone(s, u, t, u.threads[t], u.card) && u.card == Card(true, false, answer.Challenged?)
  {
    StepThen(s, Select(t, answer), []);
    assert [Select(t, answer)] + [] == [Select(t, answer)];
  }

  /** What the stored password is after an operation has authenticated. */
  function Stored(op: Op, password: bool): bool {
    if op.Authenticate? then op.given else password || op == Fetch(true)
  }

  lemma Authenticates(s: State, t: nat, answer: Selection, card: Card)
    requires At(s, t, Deciding) && s.transaction == Some(Ours) && s.mutex == Some(t)
    requires s.threads[t].op != CancelPending && !answer.Refused?
    requires (s.card.oathSelected && !s.card.validated) || (s.threads[t].op == Generate && s.password)
    ensures var op := s.threads[t].op;
            var run := WayToCommand(t, op, s.password, answer, card);
            && Runs(s, run)
            && var u := After(s, run);
               && At(u, t, if op.Authenticate? then Closing else Sending) && u.threads[t].op == op
               && Alone(s, u, t, u.threads[t], u.card) && u.password == Stored(op, s.password)
               && u.card.oathSelected
               && (u.card.validated <==> !SetsCode(op) && (Asks(op) || (Needs(op) && s.password)))
  {
    hide Enabled, Step, Runs, After;
    var op := s.threads[t].op;
    Decides(s, t);
    var s1 := After(s, [Decide(t)]);
    var proof := if Asks(op) || (Needs(op) && s.password) then [Select(t, Challenged), Validate(t, true, card)] else [];
    if proof != [] {
      Proves(s1, t, card);
    } else {
      RunsNothing(s1);
    }
    var s2 := After(s1, proof);
    RunsThen(s, [Decide(t)], proof);
    if SetsCode(op) {
      Reselects(s2, t, answer);
      RunsThen(s, [Decide(t)] + proof, [Select(t, answer)]);
    } else {
      assert WayToCommand(t, op, s.password, answer, card) == [Decide(t)] + proof;
    }
  }

  lemma RunsNothing(s: State)
    ensures Runs(s, []) && After(s, []) == s
  {
  }

  lemma Decides(s: State, t: nat)
    requires At(s, t, Deciding) && s.transaction == Some(Ours) && s.mutex == Some(t) && s.threads[t].op != CancelPending
    ensures Runs(s, [Decide(t)])
    ensures var op := s.threads[t].op;
            var u := After(s, [Decide(t)]);
            && At(u, t, if Asks(op) || (Needs(op) && s.password) then AuthSelecting else AfterAuth(op))
            && u.threads[t].op == op && Alone(s, u, t, u.threads[t], s.card) && u.password == s.password
  {
    StepThen(s, Decide(t), []);
    assert [Decide(t)] + [] == [Decide(t)];
  }

  lemma Proves(s: State, t: nat, card: Card)
    requires At(s, t, AuthSelecting) && s.transaction == Some(Ours) && s.mutex == Some(t)
    requires Asks(s.threads[t].op) || s.password
    ensures var way := [Select(t, Challenged), Validate(t, true, card)];
            && Runs(s, way)
            && var u := After(s, way);
               && At(u, t, AfterAuth(s.threads[t].op)) && u.threads[t].op == s.threads[t].op
               && Alone(s, u, t, u.threads[t], u.card) && u.password == Stored(s.threads[t].op, s.password)
               && u.card.oathSelected && u.card.validated
  {
    var s1 := Step(s, Select(t, Challenged));
    StepThen(s1, Validate(t, true, card), []);
    assert [Validate(t, true, card)] + [] == [Validate(t, true, card)];
    StepThen(s, Select(t, Challenged), [Validate(t, true, card)]);
    assert [Select(t, Challenged), Validate(t, true, card)] == [Select(t, Challenged)] + [Validate(t, true, card)];
  }

  lemma Reselects(s: State, t: nat, answer: Selection)
    requires At(s, t, Reselecting) && !answer.Refused? && s.transaction == Some(Ours) && s.mutex == Some(t)
    ensures Runs(s, [Select(t, answer)])
    ensures var u := After(s, [Select(t, answer)]);
            && At(u, t, Sending) && u.threads[t].op == s.threads[t].op && u.password == s.password
            && Alone(s, u, t, u.threads[t], u.card) && u.card.oathSelected && !u.card.validated
  {
    StepThen(s, Select(t, answer), []);
    assert [Select(t, answer)] + [] == [Select(t, answer)];
  }

  lemma Finishes(s: State, t: nat, card: Card)
    requires s.transaction == Some(Ours) && s.mutex == Some(t) && t in s.threads
    requires At(s, t, if s.threads[t].op.Authenticate? then Closing else Sending)
    ensures var op := s.threads[t].op;
            var run := WayOut(t, op, card);
            && Runs(s, run)
            && var u := After(s, run);
               && u.threads == s.threads - {t} && u.mutex == None && u.transaction == None
               && u.password == s.password
               && u.log == s.log + if op.Authenticate? then [] else [Sent(s.threads[t], true, s.card, s.password)]
  {
    var s1 := if s.threads[t].op.Authenticate? then s else Step(s, Send(t, card));
    var s2 := Step(s1, Close(t));
    assert Runs(s2, []);
    StepThen(s1, Close(t), []);
    assert [Close(t)] == [Close(t)] + [];
    if !s.threads[t].op.Authenticate? {
      StepThen(s, Send(t, card), [Close(t)]);
      assert WayOut(t, s.threads[t].op, card) == [Send(t, card)] + [Close(t)];
    }
  }

  /**
   Any operation that finds the card free and is answered well gets through:
   exactly one command goes out (none for a mere authentication), in its own
   transaction, with OATH selected, and validated exactly if a password was
   asked for or stored and the command does not set a new one. A password
   found right is stored, and everything is given back.
   */
  lemma EveryOperationGetsThrough(s: State, t: nat, op: Op, answer: Selection, card: Card)
    requires t !in s.threads && s.mutex == None && s.transaction == None
    requires op != CancelPending && !answer.Refused?
    ensures var run := WayIn(t, op, s.password, answer)
                       + WayToCommand(t, op, s.password, answer, card) + WayOut(t, op, card);
            && Runs(s, run)
            && var u := After(s, run);
               && u.threads == s.threads && u.mutex == None && u.transaction == None
               && (u.password <==> if op.Authenticate? then op.given else s.password || op == Fetch(true))
               && if op.Authenticate? then u.log == s.log
                  else
                    && |u.log| == |s.log| + 1 && s.log <= u.log
                    && var e := u.log[|s.log|];
                       && e.thread.op == op && e.ownTransaction && e.card.oathSelected
                       && (e.card.validated <==> !SetsCode(op) && (Asks(op) || (Needs(op) && s.password)))
  {
    hide WayIn, WayToCommand, WayOut, Enabled, Step;
    var p, q := WayIn(t, op, s.password, answer), WayToCommand(t, op, s.password, answer, card);
    Opens(s, t, op, answer);
    var s1 := After(s, p);
    Authenticates(s1, t, answer, card);
    var s2 := After(s1, q);
    Finishes(s2, t, card);
    RunsThen(s, p, q);
    RunsThen(s, p + q, WayOut(t, op, card));
    assert s2.threads - {t} == s.threads;
  }

  /** A cancellation that finds the card free selects OATH outside any transaction, sends nothing else and is gone. */
  lemma CancellationSelects(s: State, t: nat, answer: Selection)
    requires t !in s.threads && s.mutex == None && s.transaction == None
    ensures var run := [Start(t, CancelPending), Lock(t)] + [Look(t), Select(t, answer)];
            && Runs(s, run)
            && After(s, run) == s.(card := if answer.Refused? then answer.after else Card(true, false, answer.Challenged?))
  {
    hide Enabled, Step, Runs, After;
    Arrives(s, t, CancelPending);
    var s2 := After(s, [Start(t, CancelPending), Lock(t)]);
    Cancels(s2, t, answer);
    RunsThen(s, [Start(t, CancelPending), Lock(t)], [Look(t), Select(t, answer)]);
    assert s2.threads - {t} == s.threads;
  }

  lemma Cancels(s: State, t: nat, answer: Selection)
    requires At(s, t, Entered) && s.threads[t].op == CancelPending && s.transaction == None
    ensures var run := [Look(t), Select(t, answer)];
            && Runs(s, run)
            && After(s, run) == s.(threads := s.threads - {t}, mutex := None,
                                   card := if answer.Refused? then answer.after else Card(true, false, answer.Challenged?))
  {
    var s1 := Step(s, Look(t));
    StepThen(s1, Select(t, answer), []);
    assert [Select(t, answer)] + [] == [Select(t, answer)];
    StepThen(s, Look(t), [Select(t, answer)]);
    assert [Look(t), Select(t, answer)] == [Look(t)] + [Select(t, answer)];
    assert s1.threads - {t} == s.threads - {t};
  }

  /** An operation that gets no transaction is gone without a trace. */
  lemma NoTransactionNoCommand(s: State, t: nat, op: Op)
    requires t !in s.threads && s.mutex == None && op != CancelPending
    ensures var run := [Start(t, op), Lock(t)] + [Look(t), Begin(t, false)];
            Runs(s, run) && After(s, run) == s
  {
    hide Enabled, Step, Runs, After;
    Arrives(s, t, op);
    var s2 := After(s, [Start(t, op), Lock(t)]);
    GivesUp(s2, t);
    RunsThen(s, [Start(t, op), Lock(t)], [Look(t), Begin(t, false)]);
    assert s2.threads - {t} == s.threads;
  }

  lemma GivesUp(s: State, t: nat)
    requires At(s, t, Entered) && s.threads[t].op != CancelPending
    ensures var run := [Look(t), Begin(t, false)];
            Runs(s, run) && After(s, run) == s.(threads := s.threads - {t}, mutex := None)
  {
    var s1 := Step(s, Look(t));
    StepThen(s1, Begin(t, false), []);
    assert [Begin(t, false)] + [] == [Begin(t, false)];
    StepThen(s, Look(t), [Begin(t, false)]);
    assert [Look(t), Begin(t, false)] == [Look(t)] + [Begin(t, false)];
    assert s1.threads - {t} == s.threads - {t};
  }

  // ---------------------------------------------------------------------------
  // The password that vanishes
  // ---------------------------------------------------------------------------

  /** The thread is between its two looks at the password and has decided at the first to skip SELECT. */
  predicate BetweenLooks(th: Thread) {
    th.place in {Opening, Deciding} && th.skip
  }

  /** The password is not emptied while a thread is between its looks. */
  ghost predicate Considerate(s: State, a: Action) {
    a == SetPassword(false) ==> forall t <- s.threads :: !BetweenLooks(s.threads[t])
  }

  ghost predicate ConsiderateRun(s: State, actions: seq<Action>)
    requires Runs(s, actions)
    decreases |actions|
  {
    actions == [] || (Considerate(s, actions[0]) && ConsiderateRun(Step(s, actions[0]), actions[1..]))
  }

  /** A thread that skipped SELECT because of the password still finds it, or has found it again. */
  ghost predicate StillThere(th: Thread, password: bool) {
    && (BetweenLooks(th) ==> password)
    && (th.place in {AuthSelecting, Validating, Sending} ==> !PasswordVanished(th))
  }

  ghost predicate NoneVanished(s: State) {
    && (forall t <- s.threads :: StillThere(s.threads[t], s.password))
    && forall k :: 0 <= k < |s.log| ==> !PasswordVanished(s.log[k].thread)
  }

  lemma MoveKeepsPassword(s: State, a: Action, t: nat)
    requires Invariant(s) && NoneVanished(s) && Enabled(s, a) && Mover(a) == Some(t)
    ensures NoneVanished(Step(s, a))
  {
    hide Invariant, HolderRight, Step, StillThere;
    HolderIs(s, t);
    MoverStillThere(s, a, t);
    OthersWait(s, a, t);
    MoverLogs(s, a, t);
    var u := Step(s, a);
    forall v | v in u.threads && v != t ensures StillThere(u.threads[v], u.password) {
      WaitingStillThere(u.threads[v], u.password);
    }
    if At(s, t, Sending) {
      SendingStillThere(s, t);
    }
  }

  lemma MoverStillThere(s: State, a: Action, t: nat)
    requires Enabled(s, a) && Mover(a) == Some(t)
    requires HolderRight(s.threads[t], s) && StillThere(s.threads[t], s.password)
    ensures t in Step(s, a).threads ==> StillThere(Step(s, a).threads[t], Step(s, a).password)
  {
  }

  lemma WaitingStillThere(th: Thread, password: bool)
    requires th.place == Waiting
    ensures StillThere(th, password)
  {
  }

  lemma SendingStillThere(s: State, t: nat)
    requires NoneVanished(s) && At(s, t, Sending)
    ensures !PasswordVanished(s.threads[t])
  {
  }

  lemma StepKeepsPassword(s: State, a: Action)
    requires Invariant(s) && NoneVanished(s) && Enabled(s, a)
    ensures NoneVanished(Step(s, a)) <==> Considerate(s, a)
  {
    hide Invariant;
    if Mover(a).Some? {
      MoveKeepsPassword(s, a, Mover(a).value);
    }
  }

  /** In every state of the run each thread that skipped SELECT because of the password still finds it. */
  ghost predicate NeverVanished(s: State, actions: seq<Action>)
    requires Runs(s, actions)
    decreases |actions|
  {
    NoneVanished(s) && (actions == [] || NeverVanished(Step(s, actions[0]), actions[1..]))
  }

  lemma {:induction false} RunKeepsPassword(s: State, actions: seq<Action>)
    requires Invariant(s) && NoneVanished(s) && Runs(s, actions)
    ensures NeverVanished(s, actions) <==> ConsiderateRun(s, actions)
    ensures ConsiderateRun(s, actions) ==> NoneVanished(After(s, actions))
    decreases |actions|
  {
    hide Invariant, NoneVanished, Considerate;
    if actions != [] {
      var t := Step(s, actions[0]);
      StepKeepsInvariant(s, actions[0]);
      StepKeepsPassword(s, actions[0]);
      if Considerate(s, actions[0]) {
        RunKeepsPassword(t, actions[1..]);
      } else {
        assert !NeverVanished(t, actions[1..]);
      }
    }
  }

  /**
   Throughout a run no thread loses the password it skipped SELECT for if and
   only if the password is never emptied between a thread's two looks.
   */
  lemma PasswordStaysExactlyIfConsiderate(actions: seq<Action>)
    requires Runs(INITIAL, actions)
    ensures NeverVanished(INITIAL, actions) <==> ConsiderateRun(INITIAL, actions)
  {
    RunKeepsPassword(INITIAL, actions);
  }

  /** As long as nobody empties the password between two looks at it, every command finds OATH selected. */
  lemma OathIsSelected(actions: seq<Action>, k: nat)
    requires Runs(INITIAL, actions) && ConsiderateRun(INITIAL, actions) && k < |After(INITIAL, actions).log|
    ensures After(INITIAL, actions).log[k].card.oathSelected
  {
    RunKeepsPassword(INITIAL, actions);
    EveryCommandIsDisciplined(actions, k);
  }

  /**
   Emptying it between the two looks is enough: CALCULATE then goes out to
   whatever applet was selected before the transaction.
   */
  lemma EmptiedPasswordSkipsSelect(s: State, t: nat, after: Card)
    requires At(s, t, Opening) && s.threads[t].op == Generate && s.threads[t].skip && s.transaction == None
    ensures var actions := [Begin(t, true), SetPassword(false), Decide(t), Send(t, after)];
            && Runs(s, actions)
            && var log := After(s, actions).log;
               |log| == |s.log| + 1 && log[|s.log|].thread.op == Generate
               && log[|s.log|].card.oathSelected == s.card.oathSelected
  {
    var actions := [Begin(t, true), SetPassword(false), Decide(t), Send(t, after)];
    assert actions[1..][1..] == [Decide(t), Send(t, after)];
    assert actions[1..][1..][1..] == [Send(t, after)] && actions[1..][1..][1..][1..] == [];
    var s2 := Step(Step(s, Begin(t, true)), SetPassword(false));
    var s3 := Step(s2, Decide(t));
    var s4 := Step(s3, Send(t, after));
    assert Runs(s4, []) && After(s4, []) == s4;
    assert Runs(s3, [Send(t, after)]) && After(s3, [Send(t, after)]) == s4;
    assert Runs(s2, actions[1..][1..]) && After(s2, actions[1..][1..]) == s4;
  }

  /** Such a moment is reached, with OATH not selected. */
  lemma EmptyingCanHappen()
    ensures var actions := [SetPassword(true), Start(0, Generate), Lock(0), Look(0)];
            && Runs(INITIAL, actions)
            && var s := After(INITIAL, actions);
               && At(s, 0, Opening) && s.threads[0].op == Generate && s.threads[0].skip
               && s.transaction == None && !s.card.oathSelected
  {
    var actions := [SetPassword(true), Start(0, Generate), Lock(0), Look(0)];
    assert actions[1..][1..] == [Lock(0), Look(0)];
    assert actions[1..][1..][1..] == [Look(0)] && actions[1..][1..][1..][1..] == [];
    var s2 := Step(Step(INITIAL, SetPassword(true)), Start(0, Generate));
    var s3 := Step(s2, Lock(0));
    var s4 := Step(s3, Look(0));
    assert Runs(s4, []) && After(s4, []) == s4;
    assert Runs(s3, [Look(0)]) && After(s3, [Look(0)]) == s4;
    assert Runs(s2, actions[1..][1..]) && After(s2, actions[1..][1..]) == s4;
  }
}
