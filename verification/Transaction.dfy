/**
 The scoped PC/SC transaction: begun by its constructor, ended by its
 destructor, and handed on by moves. Each transaction begun has a number, so
 that ending one twice, or never, would show.
 */
module Transaction {

  /** An object: the card handle, whether its transaction was started, whether it met no error, and its number. */
  datatype Tx = Tx(handle: nat, started: bool, noError: bool, number: nat)

  /** What PC/SC has: transactions begun and not ended, those ended in order, and the next number. */
  datatype Pcsc = Pcsc(open: set<nat>, ended: seq<nat>, next: nat)

  predicate Active(tx: Tx) {
    tx.started && tx.handle != 0
  }

  predicate Valid(tx: Tx) {
    tx.started && tx.noError
  }

  // ---------------------------------------------------------------------------
  // What each operation does
  // ---------------------------------------------------------------------------

  /** How beginning goes; the applet is selected unless that is to be skipped, and needs a session. */
  datatype Beginning = Beginning(begins: bool, skipSelect: bool, session: bool, selects: bool)

  function Constructed(handle: nat, b: Beginning, p: Pcsc): (Tx, Pcsc) {
    if handle == 0 || !b.begins then (Tx(handle, false, false, 0), p)
    else
      (Tx(handle, true, b.skipSelect || (b.session && b.selects), p.next),
       p.(open := p.open + {p.next}, next := p.next + 1))
  }

  function Ended(tx: Tx, p: Pcsc): Pcsc {
    if Active(tx) then p.(open := p.open - {tx.number}, ended := p.ended + [tx.number]) else p
  }

  /** An object after its contents were moved out of it. */
  function MovedOut(tx: Tx): Tx {
    tx.(handle := 0, started := false)
  }

  class CardTransaction {
    var cardHandle: nat
    var transactionStarted: bool
    var noError: bool
    var number: nat

    function Value(): Tx
      reads this
    {
      Tx(cardHandle, transactionStarted, noError, number)
    }

    constructor (handle: nat, b: Beginning, pcsc: PcscApi)
      modifies pcsc
      ensures (Value(), pcsc.state) == Constructed(handle, b, old(pcsc.state))
    {
      cardHandle, transactionStarted, noError, number := handle, false, true, 0;
      new;
      if cardHandle == 0 {
        noError := false;
        return;
      }
      if !b.begins {
        noError := false;
        return;
      }
      number := pcsc.Begin();
      transactionStarted := true;
      if !b.skipSelect {
        if !b.session {
          noError := false;
          return;
        }
        if !b.selects {
          noError := false;
          return;
        }
      }
    }

    /** The destructor. */
    method Destroy(pcsc: PcscApi)
      modifies pcsc
      ensures pcsc.state == Ended(Value(), old(pcsc.state))
    {
      if transactionStarted && cardHandle != 0 {
        pcsc.End(number);
      }
    }

    constructor Move(other: CardTransaction)
      modifies other
      ensures Value() == old(other.Value()) && other.Value() == MovedOut(old(other.Value()))
    {
      cardHandle, transactionStarted, noError, number :=
        other.cardHandle, other.transactionStarted, other.noError, other.number;
      new;
      other.cardHandle := 0;
      other.transactionStarted := false;
    }

    method Assign(other: CardTransaction, pcsc: PcscApi)
      modifies this, other, pcsc
      ensures this == other ==> Value() == old(Value()) && pcsc.state == old(pcsc.state)
      ensures this != other ==>
                && Value() == old(other.Value()) && other.Value() == MovedOut(old(other.Value()))
                && pcsc.state == Ended(old(Value()), old(pcsc.state))
    {
      if this != other {
        if transactionStarted && cardHandle != 0 {
          pcsc.End(number);
        }
        cardHandle, transactionStarted, noError, number :=
        other.cardHandle, other.transactionStarted, other.noError, other.number;
        other.cardHandle := 0;
        other.transactionStarted := false;
      }
    }
  }

  class PcscApi {
    var state: Pcsc

    constructor ()
      ensures state == Pcsc({}, [], 0)
    {
      state := Pcsc({}, [], 0);
    }

    method Begin() returns (number: nat)
      modifies this
      ensures number == old(state).next && state == old(state).(open := old(state).open + {number}, next := number + 1)
    {
      number := state.next;
      state := state.(open := state.open + {number}, next := number + 1);
    }

    method End(number: nat)
      modifies this
      ensures state == old(state).(open := old(state).open - {number}, ended := old(state).ended + [number])
    {
      state := state.(open := state.open - {number}, ended := state.ended + [number]);
    }
  }

  // ---------------------------------------------------------------------------
  // Balance
  // ---------------------------------------------------------------------------

  /** The objects alive, by name, and PC/SC. */
  datatype State = State(objects: map<nat, Tx>, pcsc: Pcsc)

  datatype Action =
    | Construct(name: nat, handle: nat, b: Beginning)
    | MoveInto(name: nat, from: nat)
    | MoveAssign(name: nat, from: nat)
    | Destroy(name: nat)

  predicate Enabled(s: State, a: Action) {
    match a
    case Construct(name, _, _) => name !in s.objects
    case MoveInto(name, from) => name !in s.objects && from in s.objects
    case MoveAssign(name, from) => name in s.objects && from in s.objects
    case Destroy(name) => name in s.objects
  }

  function Step(s: State, a: Action): State
    requires Enabled(s, a)
  {
    match a
    case Construct(name, handle, b) =>
      var (tx, pcsc) := Constructed(handle, b, s.pcsc);
      State(s.objects[name := tx], pcsc)
    case MoveInto(name, from) => s.(objects := s.objects[name := s.objects[from]][from := MovedOut(s.objects[from])])
    case MoveAssign(name, from) =>
      if name == from then s
      else
        State(s.objects[name := s.objects[from]][from := MovedOut(s.objects[from])], Ended(s.objects[name], s.pcsc))
    case Destroy(name) => State(s.objects - {name}, Ended(s.objects[name], s.pcsc))
  }

  predicate Runs(s: State, actions: seq<Action>)
    decreases |actions|
  {
    actions == [] || (Enabled(s, actions[0]) && Runs(Step(s, actions[0]), actions[1..]))
  }

  function After(s: State, actions: seq<Action>): State
    requires Runs(s, actions)
    decreases |actions|
  {
    if actions == [] then s else After(Step(s, actions[0]), actions[1..])
  }

  const INITIAL := State(map[], Pcsc({}, [], 0))

  /** Each open transaction has exactly one active object, and the others have been ended exactly once. */
  ghost predicate Balanced(s: State) {
    && (forall n <- s.objects :: s.objects[n].started ==> Active(s.objects[n]))
    && (forall n <- s.objects :: Active(s.objects[n]) ==> s.objects[n].number in s.pcsc.open)
    && (forall m <- s.objects, n <- s.objects :: m != n && Active(s.objects[m]) && Active(s.objects[n]) ==>
          s.objects[m].number != s.objects[n].number)
    && (forall t <- s.pcsc.open :: Owned(s, t))
    && (forall t: nat :: t < s.pcsc.next <==> t in s.pcsc.open || t in s.pcsc.ended)
    && (forall t <- s.pcsc.open :: t !in s.pcsc.ended)
    && (forall i, j :: 0 <= i < j < |s.pcsc.ended| ==> s.pcsc.ended[i] != s.pcsc.ended[j])
  }

  ghost predicate Owned(s: State, t: nat) {
    exists n :: n in s.objects && Active(s.objects[n]) && s.objects[n].number == t
  }

  lemma ConstructKeepsBalance(s: State, name: nat, handle: nat, b: Beginning)
    requires Balanced(s) && name !in s.objects
    ensures Balanced(Step(s, Construct(name, handle, b)))
  {
    var u := Step(s, Construct(name, handle, b));
    forall t | t in u.pcsc.open ensures Owned(u, t) {
      if t in s.pcsc.open {
        var n :| n in s.objects && Active(s.objects[n]) && s.objects[n].number == t;
        assert n in u.objects && u.objects[n] == s.objects[n];
      } else {
        assert name in u.objects;
      }
    }
  }

  /** Contents move from one object to another that was idle. */
  lemma MoveKeepsBalance(s: State, objects: map<nat, Tx>, name: nat, from: nat)
    requires Balanced(s) && name != from && from in s.objects && (name in s.objects ==> !Active(s.objects[name]))
    requires objects == s.objects[name := s.objects[from]][from := MovedOut(s.objects[from])]
    ensures Balanced(s.(objects := objects))
  {
    var u := s.(objects := objects);
    forall t | t in u.pcsc.open ensures Owned(u, t) {
      assert Owned(s, t);
      var n :| n in s.objects && Active(s.objects[n]) && s.objects[n].number == t;
      var k := if n == from then name else n;
      assert k in u.objects && u.objects[k] == s.objects[n];
    }
  }

  /** An object ends its transaction, if it has one, and becomes idle or goes away. */
  lemma EndKeepsBalance(s: State, name: nat, objects: map<nat, Tx>)
    requires Balanced(s) && name in s.objects
    requires name in objects ==> !objects[name].started
    requires forall n <- objects :: n == name || (n in s.objects && objects[n] == s.objects[n])
    requires forall n <- s.objects :: n == name || n in objects
    ensures Balanced(State(objects, Ended(s.objects[name], s.pcsc)))
  {
    var u := State(objects, Ended(s.objects[name], s.pcsc));
    forall t | t in u.pcsc.open ensures Owned(u, t) {
      assert Owned(s, t);
      var n :| n in s.objects && Active(s.objects[n]) && s.objects[n].number == t;
      assert n in u.objects && u.objects[n] == s.objects[n];
    }
  }

  lemma StepKeepsBalance(s: State, a: Action)
    requires Balanced(s) && Enabled(s, a)
    ensures Balanced(Step(s, a))
  {
    hide Balanced;
    match a
    case Construct(name, handle, b) => ConstructKeepsBalance(s, name, handle, b);
    case MoveInto(name, from) => MoveKeepsBalance(s, Step(s, a).objects, name, from);
    case MoveAssign(name, from) =>
      if name != from {
        var idle := s.objects[name := MovedOut(s.objects[name])];
        EndKeepsBalance(s, name, idle);
        var ended := State(idle, Ended(s.objects[name], s.pcsc));
        assert idle[name := s.objects[from]] == s.objects[name := s.objects[from]];
        MoveKeepsBalance(ended, Step(s, a).objects, name, from);
      }
    case Destroy(name) => EndKeepsBalance(s, name, Step(s, a).objects);
  }

  lemma {:induction false} EveryRunIsBalanced(s: State, actions: seq<Action>)
    requires Balanced(s) && Runs(s, actions)
    ensures Balanced(After(s, actions))
    decreases |actions|
  {
    if actions != [] {
      StepKeepsBalance(s, actions[0]);
      EveryRunIsBalanced(Step(s, actions[0]), actions[1..]);
    }
  }

  /** Once every object is gone, every transaction that was begun has been ended exactly once, whatever was moved. */
  lemma EveryTransactionEndsOnce(actions: seq<Action>)
    requires Runs(INITIAL, actions) && After(INITIAL, actions).objects == map[]
    ensures var p := After(INITIAL, actions).pcsc;
            && p.open == {}
            && (forall t: nat :: t < p.next <==> t in p.ended)
            && forall i, j :: 0 <= i < j < |p.ended| ==> p.ended[i] != p.ended[j]
  {
    EveryRunIsBalanced(INITIAL, actions);
    var s := After(INITIAL, actions);
    assert forall t <- s.pcsc.open :: Owned(s, t);
  }

  /** In every run a valid object holds a transaction that is open and that no other valid object holds. */
  lemma ValidObjectsHoldOpenTransactions(actions: seq<Action>, m: nat, n: nat)
    requires Runs(INITIAL, actions) && m in After(INITIAL, actions).objects && Valid(After(INITIAL, actions).objects[m])
    ensures var s := After(INITIAL, actions);
            && s.objects[m].handle != 0
            && s.objects[m].number in s.pcsc.open && s.objects[m].number !in s.pcsc.ended
            && (n != m && n in s.objects && Valid(s.objects[n]) ==> s.objects[n].number != s.objects[m].number)
  {
    EveryRunIsBalanced(INITIAL, actions);
  }

  // ---------------------------------------------------------------------------
  // Which objects are valid
  // ---------------------------------------------------------------------------

  datatype Attempt = Attempt(handle: nat, b: Beginning)

  /** The constructions that began a transaction, in order. */
  function Begun(actions: seq<Action>): seq<Attempt>
    decreases |actions|
  {
    if actions == [] then []
    else
      var a := actions[0];
      (if a.Construct? && a.handle != 0 && a.b.begins then [Attempt(a.handle, a.b)] else []) + Begun(actions[1..])
  }

  /** The object with transaction n is valid exactly if the n-th construction found the applet or did not look for it. */
  ghost predicate AsBegun(s: State, begun: seq<Attempt>) {
    && s.pcsc.next == |begun|
    && forall n <- s.objects :: Active(s.objects[n]) ==>
         && s.objects[n].number < |begun|
         && var origin := begun[s.objects[n].number];
            && s.objects[n].handle == origin.handle
            && (Valid(s.objects[n]) <==> origin.b.skipSelect || (origin.b.session && origin.b.selects))
  }

  lemma StepIsAsBegun(s: State, a: Action, begun: seq<Attempt>)
    requires AsBegun(s, begun) && Enabled(s, a)
    ensures AsBegun(Step(s, a), begun + Begun([a]))
  {
    var u, more := Step(s, a), begun + Begun([a]);
    assert forall k :: 0 <= k < |begun| ==> more[k] == begun[k];
  }

  lemma {:induction false} RunIsAsBegun(s: State, actions: seq<Action>, begun: seq<Attempt>)
    requires AsBegun(s, begun) && Runs(s, actions)
    ensures AsBegun(After(s, actions), begun + Begun(actions))
    decreases |actions|
  {
    hide AsBegun, Begun, Step, Enabled;
    BegunUnfolds(actions);
    if actions == [] {
      assert begun + [] == begun;
    } else {
      var first, rest := Begun([actions[0]]), Begun(actions[1..]);
      StepIsAsBegun(s, actions[0], begun);
      RunIsAsBegun(Step(s, actions[0]), actions[1..], begun + first);
      assert (begun + first) + rest == begun + (first + rest);
    }
  }

  lemma BegunUnfolds(actions: seq<Action>)
    ensures Begun(actions) == if actions == [] then [] else Begun([actions[0]]) + Begun(actions[1..])
  {
    if actions != [] {
      assert [actions[0]][1..] == [];
    }
  }

  /**
   In every run, however often it was moved, an object with an open transaction
   is on the handle of the construction that began it, and is valid if and only
   if that construction skipped SELECT or had a session whose SELECT succeeded.
   */
  lemma ValidExactlyIfSelected(actions: seq<Action>, n: nat)
    requires Runs(INITIAL, actions) && n in After(INITIAL, actions).objects && Active(After(INITIAL, actions).objects[n])
    ensures var tx := After(INITIAL, actions).objects[n];
            && After(INITIAL, actions).pcsc.next == |Begun(actions)| && tx.number < |Begun(actions)|
            && tx.handle == Begun(actions)[tx.number].handle
            && var b := Begun(actions)[tx.number].b; Valid(tx) <==> b.skipSelect || (b.session && b.selects)
  {
    RunIsAsBegun(INITIAL, actions, []);
    assert [] + Begun(actions) == Begun(actions);
  }
}
