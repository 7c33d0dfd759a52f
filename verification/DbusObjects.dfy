/**
 The D-Bus objects of one device's credentials and how they follow the
 credential list. Encoding names as object ids may map two names to one id,
 and registering an object may fail.
 */
module DbusObjects {
  import opened Bytes
  import opened Enumeration

  type Id = string
  type Name = string

  /** An object on the bus: the credential it shows, and which object it is. */
  datatype Object = Object(name: Name, number: nat)

  datatype Signal = Added(id: Id) | Removed(id: Id)

  datatype State = State(objects: map<Id, Object>, next: nat, signals: seq<Signal>)

  type Encoder = Name -> Id

  /** Whether registering the object for the credential at this place of the list succeeds. */
  type Registry = nat -> bool

  function Ids(current: seq<Name>, encode: Encoder): set<Id> {
    set i | 0 <= i < |current| :: encode(current[i])
  }

  // ---------------------------------------------------------------------------
  // What an update comes to
  // ---------------------------------------------------------------------------

  /** The first credential with this id that can be registered. */
  function NameFor(current: seq<Name>, encode: Encoder, registers: Registry, id: Id): Option<Name> {
    if current == [] then None
    else
      var n := |current| - 1;
      var before := NameFor(current[..n], encode, registers, id);
      if before.Some? then before else if encode(current[n]) == id && registers(n) then Some(current[n]) else None
  }

  lemma {:induction false} NameForIsFirst(current: seq<Name>, encode: Encoder, registers: Registry, id: Id)
    ensures NameFor(current, encode, registers, id) == None <==>
              forall i :: 0 <= i < |current| && encode(current[i]) == id ==> !registers(i)
    ensures NameFor(current, encode, registers, id).Some? ==>
              exists i :: 0 <= i < |current| && current[i] == NameFor(current, encode, registers, id).value
                          && encode(current[i]) == id && registers(i)
                          && forall j :: 0 <= j < i && encode(current[j]) == id ==> !registers(j)
  {
    if current != [] {
      var n := |current| - 1;
      NameForIsFirst(current[..n], encode, registers, id);
      var before := NameFor(current[..n], encode, registers, id);
      if before.Some? {
        var i :| 0 <= i < n && current[..n][i] == before.value && encode(current[..n][i]) == id && registers(i)
                 && forall j :: 0 <= j < i && encode(current[..n][j]) == id ==> !registers(j);
        assert current[i] == before.value;
        assert forall j :: 0 <= j < i ==> current[j] == current[..n][j];
      } else {
        assert forall j :: 0 <= j < n ==> current[j] == current[..n][j];
      }
    }
  }

  /** Objects whose name is still listed stay the very same objects. */
  ghost predicate Survivors(s: State, ids: set<Id>, t: State) {
    forall id <- s.objects :: if id in ids then id in t.objects && t.objects[id] == s.objects[id] else id !in t.objects
  }

  /** A new id gets a new object, for the first credential of its own that can be registered. */
  ghost predicate NewObject(s: State, t: State, id: Id, name: Option<Name>) {
    && (id in t.objects <==> name.Some?)
    && (id in t.objects ==> t.objects[id].name == name.value && s.next <= t.objects[id].number < t.next)
  }

  ghost predicate Newcomers(s: State, current: seq<Name>, encode: Encoder, registers: Registry, t: State) {
    && (forall id <- t.objects :: id in s.objects || id in Ids(current, encode))
    && forall id <- Ids(current, encode) :: id !in s.objects ==>
         NewObject(s, t, id, NameFor(current, encode, registers, id))
  }

  function Signals(removed: seq<Id>, added: seq<Id>): seq<Signal> {
    seq(|removed|, i requires 0 <= i < |removed| => Removed(removed[i]))
    + seq(|added|, i requires 0 <= i < |added| => Added(added[i]))
  }

  /** Everything that went is reported gone, then everything that came is reported, each once. */
  ghost predicate Reported(s: State, t: State) {
    exists removed, added ::
      && Lists(removed, s.objects.Keys - t.objects.Keys) && Lists(added, t.objects.Keys - s.objects.Keys)
      && t.signals == s.signals + Signals(removed, added)
  }

  ghost predicate Updated(s: State, current: seq<Name>, encode: Encoder, registers: Registry, t: State) {
    && Survivors(s, Ids(current, encode), t)
    && Newcomers(s, current, encode, registers, t)
    && Reported(s, t) && s.next <= t.next
  }

  // ---------------------------------------------------------------------------
  // The object manager
  // ---------------------------------------------------------------------------

  class CredentialObjectManager {
    var credentials: map<Id, Object>
    var next: nat
    var signals: seq<Signal>

    constructor ()
      ensures Fields() == State(map[], 0, [])
    {
      credentials, next, signals := map[], 0, [];
    }

    function Fields(): State
      reads this
    {
      State(credentials, next, signals)
    }

    method AddCredential(name: Name, id: Id, registers: bool)
      modifies this
      ensures id in old(credentials) || !registers ==> credentials == old(credentials) && signals == old(signals)
      ensures id !in old(credentials) && registers ==>
                credentials == old(credentials)[id := Object(name, old(next))] && signals == old(signals) + [Added(id)]
      ensures next == old(next) + if id in old(credentials) then 0 else 1
    {
      if id in credentials {
        return;
      }
      var credObj := Object(name, next);
      next := next + 1;
      if !registers {
        return;
      }
      credentials := credentials[id := credObj];
      signals := signals + [Added(id)];
    }

    method RemoveCredential(id: Id)
      modifies this
      ensures next == old(next)
      ensures id !in old(credentials) ==> Fields() == old(Fields())
      ensures id in old(credentials) ==> credentials == old(credentials) - {id} && signals == old(signals) + [Removed(id)]
    {
      if id !in credentials {
        return;
      }
      credentials := credentials - {id};
      signals := signals + [Removed(id)];
    }

    method UpdateCredentials(current: seq<Name>, encode: Encoder, registers: Registry)
      modifies this
      ensures Updated(old(Fields()), current, encode, registers, Fields())
    {
      var currentIds := Ids(current, encode);
      var existingIds := credentials.Keys;
      ghost var removed := RemoveAll(existingIds - currentIds);
      ghost var added := AddAll(current, encode, registers, currentIds - existingIds);
      assert Fields().signals == old(signals) + Signals(removed, []) + Signals([], added);
      SignalsJoin(old(signals), removed, added);
    }

    method RemoveAll(toRemove: set<Id>) returns (ghost removed: seq<Id>)
      requires toRemove <= credentials.Keys
      modifies this
      ensures credentials == old(credentials) - toRemove && next == old(next)
      ensures Lists(removed, toRemove) && signals == old(signals) + Signals(removed, [])
    {
      removed := [];
      var left := toRemove;
      assert signals == signals + Signals([], []);
      while left != {}
        invariant left <= toRemove && next == old(next)
        invariant credentials == old(credentials) - (toRemove - left)
        invariant Lists(removed, toRemove - left) && signals == old(signals) + Signals(removed, [])
      {
        var id :| id in left;
        RemoveCredential(id);
        left := left - {id};
        assert Signals(removed + [id], []) == Signals(removed, []) + [Removed(id)];
        removed := removed + [id];
      }
    }

    method AddAll(current: seq<Name>, encode: Encoder, registers: Registry, toAdd: set<Id>) returns (ghost added: seq<Id>)
      requires toAdd !! credentials.Keys
      modifies this
      ensures signals == old(signals) + Signals([], added) && Lists(added, credentials.Keys - old(credentials).Keys)
      ensures next >= old(next)
      ensures Grown(old(Fields()), Fields(), toAdd, current, encode, registers)
    {
      added := [];
      assert signals == signals + Signals([], []);
      for k := 0 to |current|
        invariant signals == old(signals) + Signals([], added) && Lists(added, credentials.Keys - old(credentials).Keys)
        invariant next >= old(next)
        invariant Grown(old(Fields()), Fields(), toAdd, current[..k], encode, registers)
      {
        var id := encode(current[k]);
        ghost var before := Fields();
        assert current[..k + 1] == current[..k] + [current[k]];
        if id in toAdd {
          AddCredential(current[k], id, registers(k));
          if id in credentials && id !in before.objects {
            assert Signals([], added + [id]) == Signals([], added) + [Added(id)];
            ListsSnoc(added, before.objects.Keys - old(credentials).Keys, id);
            assert credentials.Keys - old(credentials).Keys == before.objects.Keys - old(credentials).Keys + {id};
            added := added + [id];
          }
        }
        GrowsBy(old(Fields()), before, Fields(), toAdd, current[..k], current[k], encode, registers);
      }
      assert current[..|current|] == current;
    }
  }

  /** What the ids to add have come to after part of the list. */
  ghost predicate Grown(s: State, t: State, toAdd: set<Id>, current: seq<Name>, encode: Encoder, registers: Registry) {
    && (forall id <- s.objects :: id in t.objects && t.objects[id] == s.objects[id])
    && (forall id <- t.objects :: id in s.objects || id in toAdd)
    && forall id <- toAdd :: NewObject(s, t, id, NameFor(current, encode, registers, id))
  }

  lemma GrowsBy(s: State, before: State, t: State, toAdd: set<Id>, current: seq<Name>, name: Name,
                encode: Encoder, registers: Registry)
    requires Grown(s, before, toAdd, current, encode, registers) && toAdd !! s.objects.Keys
    requires s.next <= before.next <= t.next
    requires var id := encode(name);
             if id in toAdd && id !in before.objects && registers(|current|)
             then t.objects == before.objects[id := Object(name, before.next)] && before.next < t.next
             else t.objects == before.objects
    ensures Grown(s, t, toAdd, current + [name], encode, registers)
  {
  }

  lemma SignalsJoin(before: seq<Signal>, removed: seq<Id>, added: seq<Id>)
    ensures before + Signals(removed, []) + Signals([], added) == before + Signals(removed, added)
  {
  }

  // ---------------------------------------------------------------------------
  // The objects mirror the list
  // ---------------------------------------------------------------------------

  /**
   After an update the objects are exactly those of the listed names, if and
   only if every id that was not there could be registered.
   */
  lemma ObjectsMirrorList(s: State, current: seq<Name>, encode: Encoder, registers: Registry, t: State)
    requires Updated(s, current, encode, registers, t)
    ensures t.objects.Keys == Ids(current, encode) <==>
              forall id <- Ids(current, encode) :: id !in s.objects ==> NameFor(current, encode, registers, id).Some?
    ensures forall id <- t.objects :: exists k :: 0 <= k < |current| && encode(current[k]) == id
  {
  }

  /** The objects a listener knows of. */
  function Heard(signals: seq<Signal>): set<Id> {
    if signals == [] then {}
    else
      var before := Heard(signals[..|signals| - 1]);
      match signals[|signals| - 1]
      case Added(id) => before + {id}
      case Removed(id) => before - {id}
  }

  lemma {:induction false} HeardMore(before: seq<Signal>, removed: seq<Id>, added: seq<Id>)
    ensures Heard(before + Signals(removed, added)) == Heard(before) - ToSet(removed) + ToSet(added)
    decreases |removed| + |added|
  {
    hide Heard, Signals;
    LastSignal(before, removed, added);
    if added != [] {
      var n := |added| - 1;
      HeardMore(before, removed, added[..n]);
      HeardSnoc(before + Signals(removed, added[..n]), Added(added[n]));
      ToSetSnoc(added);
    } else if removed != [] {
      var n := |removed| - 1;
      HeardMore(before, removed[..n], added);
      HeardSnoc(before + Signals(removed[..n], added), Removed(removed[n]));
      ToSetSnoc(removed);
    }
  }

  lemma LastSignal(before: seq<Signal>, removed: seq<Id>, added: seq<Id>)
    ensures removed == [] && added == [] ==> before + Signals(removed, added) == before
    ensures added != [] ==>
              var n := |added| - 1;
              before + Signals(removed, added) == before + Signals(removed, added[..n]) + [Added(added[n])]
    ensures added == [] && removed != [] ==>
              var n := |removed| - 1;
              before + Signals(removed, added) == before + Signals(removed[..n], added) + [Removed(removed[n])]
  {
  }

  lemma HeardSnoc(before: seq<Signal>, e: Signal)
    ensures Heard(before + [e]) ==
            if e.Added? then Heard(before) + {e.id} else Heard(before) - {e.id}
  {
    assert (before + [e])[..|before|] == before;
  }

  lemma ToSetSnoc(ids: seq<Id>)
    requires ids != []
    ensures ToSet(ids) == ToSet(ids[..|ids| - 1]) + {ids[|ids| - 1]}
  {
    assert ids == ids[..|ids| - 1] + [ids[|ids| - 1]];
  }

  /** A listener that knew the objects before an update knows them after it, from as many signals as there are changes. */
  lemma ListenersFollow(s: State, current: seq<Name>, encode: Encoder, registers: Registry, t: State)
    requires Updated(s, current, encode, registers, t) && Heard(s.signals) == s.objects.Keys
    ensures Heard(t.signals) == t.objects.Keys
    ensures |t.signals| - |s.signals| == |s.objects.Keys - t.objects.Keys| + |t.objects.Keys - s.objects.Keys|
  {
    hide Heard, Survivors, Newcomers;
    var removed: seq<Id>, added: seq<Id> :|
      Lists(removed, s.objects.Keys - t.objects.Keys) && Lists(added, t.objects.Keys - s.objects.Keys)
      && t.signals == s.signals + Signals(removed, added);
    HeardMore(s.signals, removed, added);
    ListsSize(removed, s.objects.Keys - t.objects.Keys);
    ListsSize(added, t.objects.Keys - s.objects.Keys);
  }

  /** No number of an object has been given out but those before the next one. */
  ghost predicate Numbered(s: State) {
    forall id <- s.objects :: s.objects[id].number < s.next
  }

  /** An object that appears is none of those that were there, whatever became of them. */
  lemma NewObjectsAreNew(s: State, current: seq<Name>, encode: Encoder, registers: Registry, t: State)
    requires Numbered(s) && Updated(s, current, encode, registers, t)
    ensures Numbered(t)
    ensures forall c <- s.objects, d <- t.objects :: d !in s.objects ==> t.objects[d].number != s.objects[c].number
  {
    hide Reported, NameFor;
    forall d | d in t.objects && d !in s.objects ensures s.next <= t.objects[d].number < t.next {
      assert NewObject(s, t, d, NameFor(current, encode, registers, d));
    }
    assert forall d <- t.objects :: d in s.objects ==> t.objects[d] == s.objects[d];
  }

  /** Updating again with the same list changes nothing, unless something could not be registered. */
  lemma UpdateIsIdempotent(s: State, current: seq<Name>, encode: Encoder, registers: Registry, again: Registry,
                           t: State, u: State)
    requires Updated(s, current, encode, registers, t) && t.objects.Keys == Ids(current, encode)
    requires Updated(t, current, encode, again, u)
    ensures u.objects == t.objects && u.signals == t.signals
  {
    assert u.objects.Keys == t.objects.Keys;
    var removed: seq<Id>, added: seq<Id> :|
      Lists(removed, t.objects.Keys - u.objects.Keys) && Lists(added, u.objects.Keys - t.objects.Keys)
      && u.signals == t.signals + Signals(removed, added);
    ListsNothing(removed, t.objects.Keys - u.objects.Keys);
    ListsNothing(added, u.objects.Keys - t.objects.Keys);
  }

  /** The object with this id shows the credential of this name. */
  predicate ShownAs(t: State, id: Id, name: Name) {
    id in t.objects && t.objects[id].name == name
  }

  /** Objects show credentials whose names encode to their ids. */
  ghost predicate ShowsOwn(s: State, encode: Encoder) {
    forall id <- s.objects :: encode(s.objects[id].name) == id
  }

  /** Updates never change that, whatever the list and the registrations. */
  lemma UpdateKeepsOwn(s: State, current: seq<Name>, encode: Encoder, registers: Registry, t: State)
    requires ShowsOwn(s, encode) && Updated(s, current, encode, registers, t)
    ensures ShowsOwn(t, encode)
  {
    forall id | id in t.objects && id !in s.objects ensures encode(t.objects[id].name) == id {
      assert NewObject(s, t, id, NameFor(current, encode, registers, id));
      NameForIsFirst(current, encode, registers, id);
    }
  }

  /** Every missing id could be registered. */
  ghost predicate NoneFailed(s: State, current: seq<Name>, encode: Encoder, registers: Registry) {
    forall k :: 0 <= k < |current| && encode(current[k]) !in s.objects ==>
      NameFor(current, encode, registers, encode(current[k])).Some?
  }

  /** No two listed names share an id, and none shares one with an object that shows another name. */
  ghost predicate NoneCollide(s: State, current: seq<Name>, encode: Encoder) {
    && (forall i, j :: 0 <= i < |current| && 0 <= j < |current| && encode(current[i]) == encode(current[j]) ==>
          current[i] == current[j])
    && (forall k :: 0 <= k < |current| && encode(current[k]) in s.objects ==>
          s.objects[encode(current[k])].name == current[k])
  }

  /** The name an id shows after an update: that of its old object, or of the first that could be registered. */
  function ShownName(s: State, current: seq<Name>, encode: Encoder, registers: Registry, id: Id): Option<Name> {
    if id in s.objects then Some(s.objects[id].name) else NameFor(current, encode, registers, id)
  }

  ghost predicate AllShown(current: seq<Name>, encode: Encoder, t: State) {
    forall k :: 0 <= k < |current| ==> ShownAs(t, encode(current[k]), current[k])
  }

  /**
   After an update, from any objects and with any registrations, each listed
   credential is shown by an object of its own if and only if every missing id
   could be registered and no listed name shares its id with another listed
   name or with the name of an object that was there.
   */
  lemma EveryCredentialShown(s: State, current: seq<Name>, encode: Encoder, registers: Registry, t: State)
    requires Updated(s, current, encode, registers, t)
    ensures AllShown(current, encode, t) <==>
              NoneFailed(s, current, encode, registers) && NoneCollide(s, current, encode)
  {
    hide Updated, NameFor;
    forall k | 0 <= k < |current|
      ensures var id := encode(current[k]);
              ShownAs(t, id, current[k]) <==> ShownName(s, current, encode, registers, id) == Some(current[k])
    {
      ShownAfterUpdate(s, current, encode, registers, t, k);
    }
    if AllShown(current, encode, t) {
      ShownDoNotCollide(s, current, encode, registers);
    } else if NoneFailed(s, current, encode, registers) && NoneCollide(s, current, encode) {
      forall k | 0 <= k < |current| ensures ShownAs(t, encode(current[k]), current[k]) {
        AloneIsShown(s, current, encode, registers, k);
      }
    }
  }

  lemma ShownAfterUpdate(s: State, current: seq<Name>, encode: Encoder, registers: Registry, t: State, k: nat)
    requires Updated(s, current, encode, registers, t) && k < |current|
    ensures var id := encode(current[k]);
            forall name :: ShownAs(t, id, name) <==> ShownName(s, current, encode, registers, id) == Some(name)
  {
    var id := encode(current[k]);
    assert id in Ids(current, encode);
    if id !in s.objects {
      assert NewObject(s, t, id, NameFor(current, encode, registers, id));
    }
  }

  lemma ShownDoNotCollide(s: State, current: seq<Name>, encode: Encoder, registers: Registry)
    requires forall k :: 0 <= k < |current| ==>
               ShownName(s, current, encode, registers, encode(current[k])) == Some(current[k])
    ensures NoneFailed(s, current, encode, registers) && NoneCollide(s, current, encode)
  {
    hide NameFor;
  }

  lemma AloneIsShown(s: State, current: seq<Name>, encode: Encoder, registers: Registry, k: nat)
    requires NoneFailed(s, current, encode, registers) && NoneCollide(s, current, encode) && k < |current|
    ensures ShownName(s, current, encode, registers, encode(current[k])) == Some(current[k])
  {
    hide NameFor;
    NameForIsFirst(current, encode, registers, encode(current[k]));
  }
}
