/**
 The two tables of the device manager: the connected devices by id, each on a
 reader and holding a card handle, and the readers in use by name; and what it
 reports about them.
 */
module DeviceMaps {
  import opened Enumeration

  type Id = string
  type Reader = string

  datatype Device = Device(reader: Reader, handle: nat)

  datatype Signal = Connected(id: Id) | Disconnected(id: Id) | Forgotten(id: Id)

  /** What a connection attempt finds on a reader. */
  datatype Probe = NoCard | NotOath | Anonymous | Found(id: Id)

  /** The tables, the open handles, what was reported, and the readers queued for the workers to try. */
  datatype State = State(
    initialized: bool, devices: map<Id, Device>, readers: map<Reader, Id>,
    open: set<nat>, nextHandle: nat, signals: seq<Signal>, queue: seq<Reader>)

  /** Connect is a worker's: it takes any of the queued readers, however long after it was queued. */
  datatype Action =
    | Enumerate(found: seq<Reader>)
    | Connect(i: nat, probe: Probe)
    | Disconnect(id: Id)
    | ReaderListChanged(current: seq<Reader>, probes: Reader -> Probe)
    | CardInserted(reader: Reader)
    | CardRemoved(reader: Reader)
    | ServiceLost
    | Forget(id: Id)

  const INITIAL := State(true, map[], map[], {}, 1, [], [])

  // ---------------------------------------------------------------------------
  // What each operation does
  // ---------------------------------------------------------------------------

  /** disconnectDevice. */
  function Dropped(s: State, id: Id): State {
    if id !in s.devices then s
    else
      s.(devices := s.devices - {id}, readers := s.readers - {s.devices[id].reader},
         open := s.open - {s.devices[id].handle}, signals := s.signals + [Disconnected(id)])
  }

  /** connectToDevice; a handle whose card is of no use is closed again. */
  function Attached(s: State, reader: Reader, probe: Probe): State {
    if !s.initialized || probe.NoCard? then s
    else if !probe.Found? || probe.id == "" then
      s.(open := s.open + {s.nextHandle} - {s.nextHandle}, nextHandle := s.nextHandle + 1)
    else
      var s1 := Dropped(s.(open := s.open + {s.nextHandle}, nextHandle := s.nextHandle + 1), probe.id);
      s1.(devices := s1.devices[probe.id := Device(reader, s.nextHandle)],
          readers := s1.readers[reader := probe.id],
          signals := s1.signals + [Connected(probe.id)])
  }

  predicate OnReader(s: State, id: Id, reader: Reader) {
    id in s.devices && s.devices[id].reader == reader
  }

  predicate InUse(s: State, reader: Reader) {
    exists id <- s.devices :: s.devices[id].reader == reader
  }

  /** onReaderListChanged, second half: every reader that is free now is tried in turn. */
  function AttachedTo(s: State, taken: set<Reader>, current: seq<Reader>, probes: Reader -> Probe): State {
    if current == [] then s
    else
      var last := current[|current| - 1];
      var before := AttachedTo(s, taken, current[..|current| - 1], probes);
      if last in taken then before else Attached(before, last, probes(last))
  }

  function Taken(s: State): set<Reader> {
    set id | id in s.devices :: s.devices[id].reader
  }

  /** The devices on readers that are gone. */
  function Stranded(s: State, current: set<Reader>): set<Id> {
    set id | id in s.devices && s.devices[id].reader !in current
  }

  /** Devices dropped one after the other. */
  function DroppedAll(s: State, ids: seq<Id>): State {
    if ids == [] then s else Dropped(DroppedAll(s, ids[..|ids| - 1]), ids[|ids| - 1])
  }

  /** onReaderListChanged: drop what is stranded, then try the free readers. */
  function Refreshed(s: State, order: seq<Id>, current: seq<Reader>, probes: Reader -> Probe): State {
    var s1 := DroppedAll(s, order);
    AttachedTo(s1, Taken(s1), current, probes)
  }

  function Lost(s: State): State {
    s.(devices := map[], readers := map[], open := {})
  }

  function Forgot(s: State, id: Id): State {
    var s1 := s.(signals := s.signals + [Forgotten(id)]);
    if id !in s.devices then s1 else s1.(devices := s.devices - {id}, open := s.open - {s.devices[id].handle})
  }

  /** A worker takes a reader from the queue and tries it. */
  function Worked(s: State, i: nat, probe: Probe): State
    requires i < |s.queue|
  {
    Attached(s.(queue := s.queue[..i] + s.queue[i + 1..]), s.queue[i], probe)
  }

  /** connectToDeviceAsync. */
  function Queued(s: State, reader: Reader): State {
    s.(queue := s.queue + [reader])
  }

  /** The steps of the manager; where it walks a hash table, any order will do. */
  ghost predicate Next(s: State, a: Action, t: State) {
    match a
    case Enumerate(found) => t == s.(queue := s.queue + found)
    case Connect(i, probe) => i < |s.queue| && t == Worked(s, i, probe)
    case Disconnect(id) => t == Dropped(s, id)
    case ReaderListChanged(current, probes) =>
      Distinct(current)
      && exists order :: Lists(order, Stranded(s, ToSet(current))) && t == Refreshed(s, order, current, probes)
    case CardInserted(reader) => t == if reader in s.readers then s else Queued(s, reader)
    case CardRemoved(reader) =>
      if InUse(s, reader) then exists id :: OnReader(s, id, reader) && t == Dropped(s, id) else t == s
    case ServiceLost => t == Lost(s)
    case Forget(id) => t == Forgot(s, id)
  }

  // ---------------------------------------------------------------------------
  // The object
  // ---------------------------------------------------------------------------

  class OathDeviceManager {
    var initialized: bool
    var devices: map<Id, Device>
    var readerToDevice: map<Reader, Id>
    var open: set<nat>
    var nextHandle: nat
    var signals: seq<Signal>
    var queue: seq<Reader>

    constructor ()
      ensures Fields() == INITIAL
    {
      queue := [];
      initialized, devices, readerToDevice, open, nextHandle, signals := true, map[], map[], {}, 1, [];
    }

    function Fields(): State
      reads this
    {
      State(initialized, devices, readerToDevice, open, nextHandle, signals, queue)
    }

    method ConnectToDevice(reader: Reader, probe: Probe) returns (id: Id)
      modifies this
      ensures Fields() == Attached(old(Fields()), reader, probe)
    {
      if !initialized || probe.NoCard? {
        return "";
      }
      var handle := nextHandle;
      open, nextHandle := open + {handle}, nextHandle + 1;
      if !probe.Found? || probe.id == "" {
        open := open - {handle};
        return "";
      }
      id := probe.id;
      if id in devices {
        DisconnectDevice(id);
      }
      devices := devices[id := Device(reader, handle)];
      signals := signals + [Connected(id)];
      readerToDevice := readerToDevice[reader := id];
    }

    method DisconnectDevice(id: Id)
      modifies this
      ensures Fields() == Dropped(old(Fields()), id)
    {
      if id !in devices {
        return;
      }
      var device := devices[id];
      devices := devices - {id};
      open := open - {device.handle};
      readerToDevice := readerToDevice - {device.reader};
      signals := signals + [Disconnected(id)];
    }

    method OnReaderListChanged(current: seq<Reader>, probes: Reader -> Probe)
      requires Distinct(current)
      modifies this
      ensures Next(old(Fields()), ReaderListChanged(current, probes), Fields())
    {
      var devicesToDisconnect := StrandedDevices(ToSet(current));
      for i := 0 to |devicesToDisconnect|
        invariant Fields() == DroppedAll(old(Fields()), devicesToDisconnect[..i])
      {
        assert devicesToDisconnect[..i + 1][..i] == devicesToDisconnect[..i];
        DisconnectDevice(devicesToDisconnect[i]);
      }
      assert devicesToDisconnect[..|devicesToDisconnect|] == devicesToDisconnect;
      ghost var s1 := Fields();
      var taken := Taken(Fields());
      for i := 0 to |current|
        invariant Fields() == AttachedTo(s1, taken, current[..i], probes)
      {
        assert current[..i + 1][..i] == current[..i];
        if current[i] !in taken {
          var _ := ConnectToDevice(current[i], probes(current[i]));
        }
      }
      assert current[..|current|] == current;
    }

    method StrandedDevices(current: set<Reader>) returns (list: seq<Id>)
      ensures Lists(list, Stranded(Fields(), current))
    {
      list := [];
      var toVisit := devices.Keys;
      while toVisit != {}
        invariant toVisit <= devices.Keys
        invariant Lists(list, Stranded(Fields(), current) - toVisit)
      {
        var id :| id in toVisit;
        toVisit := toVisit - {id};
        if devices[id].reader !in current {
          list := list + [id];
        }
      }
    }

    method OnCardInserted(reader: Reader)
      modifies this
      ensures Next(old(Fields()), CardInserted(reader), Fields())
    {
      if reader in readerToDevice {
        return;
      }
      ConnectToDeviceAsync(reader);
    }

    method ConnectToDeviceAsync(reader: Reader)
      modifies this
      ensures Fields() == Queued(old(Fields()), reader)
    {
      queue := queue + [reader];
    }

    /** What a worker does with a queued reader. */
    method Work(i: nat, probe: Probe)
      requires i < |queue|
      modifies this
      ensures Next(old(Fields()), Connect(i, probe), Fields())
    {
      var reader := queue[i];
      queue := queue[..i] + queue[i + 1..];
      var _ := ConnectToDevice(reader, probe);
    }

    method EnumerateAndConnectDevicesAsync(found: seq<Reader>)
      modifies this
      ensures Next(old(Fields()), Enumerate(found), Fields())
    {
      for k := 0 to |found|
        invariant Fields() == old(Fields()).(queue := old(queue) + found[..k])
      {
        assert found[..k + 1] == found[..k] + [found[k]];
        ConnectToDeviceAsync(found[k]);
      }
      assert found[..|found|] == found;
    }

    method OnCardRemoved(reader: Reader)
      modifies this
      ensures Next(old(Fields()), CardRemoved(reader), Fields())
    {
      var toVisit := devices.Keys;
      while toVisit != {}
        invariant toVisit <= devices.Keys && Fields() == old(Fields())
        invariant forall id <- devices :: devices[id].reader == reader ==> id in toVisit
      {
        var id :| id in toVisit;
        if devices[id].reader == reader {
          assert OnReader(Fields(), id, reader);
          DisconnectDevice(id);
          return;
        }
        toVisit := toVisit - {id};
      }
    }

    method HandlePcscServiceLost()
      modifies this
      ensures Fields() == Lost(old(Fields()))
    {
      devices, readerToDevice, open := map[], map[], {};
    }

    method RemoveDeviceFromMemory(id: Id)
      modifies this
      ensures Fields() == Forgot(old(Fields()), id)
    {
      if id in devices {
        open := open - {devices[id].handle};
        devices := devices - {id};
      }
      signals := signals + [Forgotten(id)];
    }
  }

  // ---------------------------------------------------------------------------
  // The tables mirror each other
  // ---------------------------------------------------------------------------

  /** Each device is entered under its reader, and each entry is a device on that reader. */
  ghost predicate Mirror(s: State) {
    && (forall id <- s.devices :: s.devices[id].reader in s.readers && s.readers[s.devices[id].reader] == id)
    && (forall r <- s.readers :: OnReader(s, s.readers[r], r))
  }

  lemma DroppedKeepsMirror(s: State, id: Id)
    requires Mirror(s)
    ensures Mirror(Dropped(s, id))
  {
  }

  /** Connecting keeps the tables mirrored if and only if no other device is on the reader. */
  lemma AttachedKeepsMirror(s: State, reader: Reader, id: Id)
    requires Mirror(s) && s.initialized && id != ""
    ensures Mirror(Attached(s, reader, Found(id))) <==> forall d <- s.devices :: d != id ==> s.devices[d].reader != reader
  {
    var dropped := Dropped(s, id);
    DroppedKeepsMirror(s, id);
    assert dropped.devices == s.devices - {id};
    EnteredKeepsMirror(dropped.(open := dropped.open + {s.nextHandle}), reader, id, Device(reader, s.nextHandle));
    assert forall d <- s.devices :: d != id ==> d in dropped.devices && dropped.devices[d] == s.devices[d];
    assert forall d <- dropped.devices :: d in s.devices && d != id && dropped.devices[d] == s.devices[d];
  }

  lemma EnteredKeepsMirror(s: State, reader: Reader, id: Id, device: Device)
    requires Mirror(s) && id !in s.devices && device.reader == reader
    ensures Mirror(s.(devices := s.devices[id := device], readers := s.readers[reader := id])) <==> !InUse(s, reader)
  {
    var t := s.(devices := s.devices[id := device], readers := s.readers[reader := id]);
    if InUse(s, reader) {
      var d :| d in s.devices && s.devices[d].reader == reader;
      assert d in t.devices && t.devices[d].reader == reader && t.readers[reader] == id != d;
    }
  }

  lemma {:induction false} DroppedAllKeepsMirror(s: State, ids: seq<Id>)
    requires Mirror(s)
    ensures Mirror(DroppedAll(s, ids))
    ensures DroppedAll(s, ids).devices == s.devices - ToSet(ids)
    ensures DroppedAll(s, ids).initialized == s.initialized
  {
    if ids != [] {
      var n := |ids| - 1;
      DroppedAllKeepsMirror(s, ids[..n]);
      DroppedKeepsMirror(DroppedAll(s, ids[..n]), ids[n]);
      assert ids == ids[..n] + [ids[n]];
      assert ToSet(ids) == ToSet(ids[..n]) + {ids[n]};
    }
  }

  /** A reader of the list that was free is tried once, so no other device is there. */
  lemma {:induction false} AttachedToKeepsMirror(s: State, taken: set<Reader>, current: seq<Reader>, probes: Reader -> Probe)
    requires Mirror(s) && taken == Taken(s) && Distinct(current)
    ensures var t := AttachedTo(s, taken, current, probes);
            && Mirror(t)
            && forall d <- t.devices :: t.devices[d].reader in taken || t.devices[d].reader in current
  {
    if current != [] {
      var n := |current| - 1;
      var last := current[n];
      AttachedToKeepsMirror(s, taken, current[..n], probes);
      var before := AttachedTo(s, taken, current[..n], probes);
      if last !in taken && probes(last).Found? && probes(last).id != "" && before.initialized {
        assert last !in current[..n];
        AttachedKeepsMirror(before, last, probes(last).id);
      }
    }
  }

  /**
   After a change of the reader list the tables still mirror each other and no
   device is left on a reader that is gone; nothing is assumed of the cards.
   */
  lemma ReaderListKeepsMirror(s: State, current: seq<Reader>, probes: Reader -> Probe, t: State)
    requires Mirror(s) && Next(s, ReaderListChanged(current, probes), t)
    ensures Mirror(t) && Taken(t) <= ToSet(current)
  {
    var order :| Lists(order, Stranded(s, ToSet(current))) &&
                 t == Refreshed(s, order, current, probes);
    DroppedAllKeepsMirror(s, order);
    var s1 := DroppedAll(s, order);
    forall d | d in s1.devices ensures s1.devices[d].reader in current {
      assert d !in order;
    }
    AttachedToKeepsMirror(s1, Taken(s1), current, probes);
  }

  /**
   What connects finds no other device on its reader, so that a swap was
   reported as a removal first; and nothing connected is forgotten.
   */
  ghost predicate Orderly(s: State, a: Action) {
    match a
    case Connect(i, probe) =>
      s.initialized && i < |s.queue| && probe.Found? && probe.id != "" ==>
        forall d <- s.devices :: d != probe.id ==> s.devices[d].reader != s.queue[i]
    case Forget(id) => id !in s.devices
    case _ => true
  }

  /** Forgetting a connected device leaves its reader's entry behind. */
  lemma ForgetKeepsMirror(s: State, id: Id)
    requires Mirror(s)
    ensures Mirror(Forgot(s, id)) <==> id !in s.devices
  {
  }

  /** A card inserted there afterwards is ignored. */
  lemma ForgottenReaderIgnoresCards(s: State, id: Id, t: State)
    requires Mirror(s) && id in s.devices && Next(Forgot(s, id), CardInserted(s.devices[id].reader), t)
    ensures t == Forgot(s, id)
  {
  }

  lemma StepKeepsMirror(s: State, a: Action, t: State)
    requires Mirror(s) && Next(s, a, t)
    ensures Mirror(t) <==> Orderly(s, a)
  {
    hide Mirror, Attached, Dropped, Lists, DroppedAll, AttachedTo;
    match a
    case Enumerate(_) => SameTables(s, t);
    case Connect(i, probe) => WorkKeepsMirror(s, i, probe);
    case ReaderListChanged(current, probes) => ReaderListKeepsMirror(s, current, probes, t);
    case CardInserted(reader) => SameTables(s, t);
    case CardRemoved(reader) =>
      if InUse(s, reader) {
        var id :| OnReader(s, id, reader) && t == Dropped(s, id);
        DroppedKeepsMirror(s, id);
      }
    case Disconnect(id) => DroppedKeepsMirror(s, id);
    case ServiceLost => LossKeepsMirror(s);
    case Forget(id) => ForgetKeepsMirror(s, id);
  }

  lemma WorkKeepsMirror(s: State, i: nat, probe: Probe)
    requires Mirror(s) && i < |s.queue|
    ensures Mirror(Worked(s, i, probe)) <==> Orderly(s, Connect(i, probe))
  {
    hide Mirror;
    var taken := s.(queue := s.queue[..i] + s.queue[i + 1..]);
    SameTables(s, taken);
    if s.initialized && probe.Found? && probe.id != "" {
      AttachedKeepsMirror(taken, s.queue[i], probe.id);
    } else {
      SameTables(taken, Worked(s, i, probe));
    }
  }

  lemma SameTables(s: State, t: State)
    requires Mirror(s) && t.devices == s.devices && t.readers == s.readers
    ensures Mirror(t)
  {
  }

  lemma LossKeepsMirror(s: State)
    ensures Mirror(Lost(s))
  {
  }

  /** The states of a run, one more than its steps. */
  ghost predicate Run(states: seq<State>, actions: seq<Action>) {
    && |states| == |actions| + 1 && states[0] == INITIAL
    && forall k :: 0 <= k < |actions| ==> Next(states[k], actions[k], states[k + 1])
  }

  /**
   Throughout a run the tables mirror each other if and only if up to then
   nothing connected on a reader that another device was on, and no connected
   device was forgotten.
   */
  lemma {:induction false} EveryRunKeepsMirror(states: seq<State>, actions: seq<Action>, k: nat)
    requires Run(states, actions) && k < |states|
    ensures (forall j :: 0 <= j <= k ==> Mirror(states[j])) <==> forall j :: 0 <= j < k ==> Orderly(states[j], actions[j])
  {
    hide Mirror, Orderly, Next;
    if k == 0 {
      NothingToMirror();
    } else {
      EveryRunKeepsMirror(states, actions, k - 1);
      if Mirror(states[k - 1]) {
        StepKeepsMirror(states[k - 1], actions[k - 1], states[k]);
      }
    }
  }

  lemma NothingToMirror()
    ensures Mirror(INITIAL)
  {
  }

  // ---------------------------------------------------------------------------
  // Where each device is
  // ---------------------------------------------------------------------------

  datatype Place = Nowhere | On(reader: Reader)

  function WhereIs(s: State, id: Id): Place {
    if id in s.devices then On(s.devices[id].reader) else Nowhere
  }

  /** The last free reader of the list on which the device is found. */
  function LastFound(current: seq<Reader>, probes: Reader -> Probe, taken: set<Reader>, id: Id): Place {
    if current == [] then Nowhere
    else
      var last := current[|current| - 1];
      if last !in taken && probes(last) == Found(id) then On(last)
      else LastFound(current[..|current| - 1], probes, taken, id)
  }

  /** Where the step's card, if it brings one that can be used, puts the device. */
  function Brought(s: State, a: Action, id: Id): Place {
    if !s.initialized || id == "" then Nowhere
    else
      match a
      case Connect(i, probe) => if i < |s.queue| && probe == Found(id) then On(s.queue[i]) else Nowhere
      case ReaderListChanged(current, probes) => LastFound(current, probes, Taken(s), id)
      case _ => Nowhere
  }

  /** The step takes away what is on the device's reader, or the device itself. */
  predicate TakesAway(s: State, a: Action, id: Id) {
    match a
    case Disconnect(d) => d == id
    case Forget(d) => d == id
    case CardRemoved(reader) => WhereIs(s, id) == On(reader)
    case ReaderListChanged(current, _) => id in s.devices && s.devices[id].reader !in current
    case ServiceLost => true
    case _ => false
  }

  lemma DroppedIsNowhere(s: State, gone: Id, id: Id)
    ensures WhereIs(Dropped(s, gone), id) == if id == gone then Nowhere else WhereIs(s, id)
    ensures id != gone && id in s.devices ==> Dropped(s, gone).devices[id] == s.devices[id]
  {
  }

  lemma AttachedIsThere(s: State, reader: Reader, probe: Probe, id: Id)
    ensures var t := Attached(s, reader, probe);
            if s.initialized && id != "" && probe == Found(id) then WhereIs(t, id) == On(reader)
            else WhereIs(t, id) == WhereIs(s, id) && (id in t.devices ==> id in s.devices && t.devices[id] == s.devices[id])
    ensures Attached(s, reader, probe).initialized == s.initialized
  {
  }

  lemma {:induction false} DroppedAllAreNowhere(s: State, ids: seq<Id>, id: Id)
    ensures var t := DroppedAll(s, ids);
            && WhereIs(t, id) == (if id in ids then Nowhere else WhereIs(s, id))
            && (id in t.devices ==> id in s.devices && t.devices[id] == s.devices[id]) && t.initialized == s.initialized
  {
    if ids != [] {
      var n := |ids| - 1;
      DroppedAllAreNowhere(s, ids[..n], id);
      DroppedIsNowhere(DroppedAll(s, ids[..n]), ids[n], id);
      assert ids == ids[..n] + [ids[n]];
    }
  }

  lemma {:induction false} AttachedToIsThere(s: State, taken: set<Reader>, current: seq<Reader>,
                                             probes: Reader -> Probe, id: Id)
    ensures var t, found := AttachedTo(s, taken, current, probes), LastFound(current, probes, taken, id);
            && t.initialized == s.initialized
            && if s.initialized && id != "" && found.On? then WhereIs(t, id) == found
               else WhereIs(t, id) == WhereIs(s, id) && (id in t.devices ==> id in s.devices && t.devices[id] == s.devices[id])
  {
    if current != [] {
      var n := |current| - 1;
      AttachedToIsThere(s, taken, current[..n], probes, id);
      AttachedIsThere(AttachedTo(s, taken, current[..n], probes), current[n], probes(current[n]), id);
    }
  }

  lemma ReaderListMoves(s: State, current: seq<Reader>, probes: Reader -> Probe, t: State, id: Id)
    requires Next(s, ReaderListChanged(current, probes), t)
    ensures var a := ReaderListChanged(current, probes);
            if Brought(s, a, id).On? then WhereIs(t, id) == Brought(s, a, id)
            else
              && WhereIs(t, id) == (if TakesAway(s, a, id) then Nowhere else WhereIs(s, id))
              && (id in t.devices ==> id in s.devices && t.devices[id] == s.devices[id])
  {
    var order :| Lists(order, Stranded(s, ToSet(current))) && t == Refreshed(s, order, current, probes);
    var s1 := DroppedAll(s, order);
    forall d ensures d in s1.devices ==> d in s.devices && s1.devices[d] == s.devices[d]
             ensures d in s1.devices <==> d in s.devices && s.devices[d].reader in current {
      DroppedAllAreNowhere(s, order, d);
    }
    DroppedAllAreNowhere(s, order, id);
    AttachedToIsThere(s1, Taken(s1), current, probes, id);
    assert forall r <- current :: r in Taken(s1) <==> r in Taken(s) by {
      forall r | r in current && r in Taken(s) ensures r in Taken(s1) {
        var d :| d in s.devices && s.devices[d].reader == r;
        assert d in s1.devices;
      }
    }
    SameFound(current, probes, Taken(s1), Taken(s), id);
  }

  lemma {:induction false} SameFound(current: seq<Reader>, probes: Reader -> Probe, p: set<Reader>, q: set<Reader>, id: Id)
    requires forall r <- current :: r in p <==> r in q
    ensures LastFound(current, probes, p, id) == LastFound(current, probes, q, id)
  {
    if current != [] {
      assert current[|current| - 1] in current;
      SameFound(current[..|current| - 1], probes, p, q, id);
    }
  }

  /**
   After a step a device is where the step's card puts it, else nowhere if the
   step takes it or its reader's card away, else where it was, with its handle
   untouched. For a card removal this needs the tables to mirror each other;
   otherwise one device of several on the reader stays.
   */
  lemma StepMovesDevices(s: State, a: Action, t: State, id: Id)
    requires Next(s, a, t) && (a.CardRemoved? ==> Mirror(s))
    ensures if Brought(s, a, id).On? then WhereIs(t, id) == Brought(s, a, id)
            else
              && WhereIs(t, id) == (if TakesAway(s, a, id) then Nowhere else WhereIs(s, id))
              && (id in t.devices ==> id in s.devices && t.devices[id] == s.devices[id])
  {
    hide Attached, Dropped, Lists, DroppedAll, AttachedTo;
    match a
    case Connect(i, probe) =>
      AttachedIsThere(s.(queue := s.queue[..i] + s.queue[i + 1..]), s.queue[i], probe, id);
    case Disconnect(d) => DroppedIsNowhere(s, d, id);
    case ReaderListChanged(current, probes) => ReaderListMoves(s, current, probes, t, id);
    case CardRemoved(reader) =>
      if InUse(s, reader) {
        var d :| OnReader(s, d, reader) && t == Dropped(s, d);
        DroppedIsNowhere(s, d, id);
        assert OnReader(s, id, reader) ==> s.readers[reader] == id == d;
      }
    case _ =>
  }

  /** After a removal nothing is on the reader, and what is on other readers is as it was. */
  lemma RemovedCardIsGone(s: State, reader: Reader, t: State)
    requires Mirror(s) && Next(s, CardRemoved(reader), t)
    ensures reader !in Taken(t)
    ensures forall d <- s.devices :: s.devices[d].reader != reader ==> d in t.devices && t.devices[d] == s.devices[d]
  {
    hide Next, Mirror;
    forall d ensures d in t.devices ==> t.devices[d].reader != reader
             ensures d in s.devices && s.devices[d].reader != reader ==> d in t.devices && t.devices[d] == s.devices[d] {
      StepMovesDevices(s, CardRemoved(reader), t, d);
    }
  }

  /** What the step adds to the queue: an inserted card's reader, unless a device is on it, or the readers found. */
  function Enqueued(s: State, a: Action): multiset<Reader> {
    match a
    case Enumerate(found) => multiset(found)
    case CardInserted(reader) => if reader in Taken(s) then multiset{} else multiset{reader}
    case _ => multiset{}
  }

  /**
   A reader is queued when a card is inserted in it while it is free, and leaves
   the queue only for a worker that tries it.
   */
  lemma QueueIsConserved(s: State, a: Action, t: State)
    requires Next(s, a, t) && (a.CardInserted? ==> Mirror(s))
    ensures multiset(t.queue) + (if a.Connect? then multiset{s.queue[a.i]} else multiset{})
            == multiset(s.queue) + Enqueued(s, a)
  {
    hide Next, Mirror;
    QueueAfter(s, a, t);
    if a.Connect? {
      assert s.queue == s.queue[..a.i] + [s.queue[a.i]] + s.queue[a.i + 1..];
    }
  }

  lemma QueueAfter(s: State, a: Action, t: State)
    requires Next(s, a, t) && (a.CardInserted? ==> Mirror(s))
    ensures match a
            case Enumerate(found) => t.queue == s.queue + found
            case Connect(i, _) => i < |s.queue| && t.queue == s.queue[..i] + s.queue[i + 1..]
            case CardInserted(reader) => t.queue == if reader in Taken(s) then s.queue else s.queue + [reader]
            case _ => t.queue == s.queue
  {
    hide AttachedTo, DroppedAll, Lists;
    if a.CardInserted? {
      UsedIsTaken(s, a.reader);
    } else if a.ReaderListChanged? {
      ListChangeKeepsQueue(s, a.current, a.probes, t);
    }
  }

  lemma UsedIsTaken(s: State, reader: Reader)
    requires Mirror(s)
    ensures reader in s.readers <==> reader in Taken(s)
  {
    if reader in s.readers {
      assert OnReader(s, s.readers[reader], reader);
    }
  }

  lemma ListChangeKeepsQueue(s: State, current: seq<Reader>, probes: Reader -> Probe, t: State)
    requires Next(s, ReaderListChanged(current, probes), t)
    ensures t.queue == s.queue
  {
    var order :| Lists(order, Stranded(s, ToSet(current))) && t == Refreshed(s, order, current, probes);
    DropsKeepQueue(s, order);
    AttachesKeepQueue(DroppedAll(s, order), Taken(DroppedAll(s, order)), current, probes);
  }

  lemma {:induction false} DropsKeepQueue(s: State, ids: seq<Id>)
    ensures DroppedAll(s, ids).queue == s.queue
  {
    if ids != [] {
      DropsKeepQueue(s, ids[..|ids| - 1]);
    }
  }

  lemma {:induction false} AttachesKeepQueue(s: State, taken: set<Reader>, current: seq<Reader>, probes: Reader -> Probe)
    ensures AttachedTo(s, taken, current, probes).queue == s.queue
  {
    if current != [] {
      AttachesKeepQueue(s, taken, current[..|current| - 1], probes);
    }
  }

  /**
   A card inserted in a free reader, once a worker gets to it, is connected and
   reported; if its device was connected elsewhere, that connection is reported
   as ended first.
   */
  lemma InsertedCardConnects(s: State, reader: Reader, id: Id, t: State, u: State)
    requires Mirror(s) && HandlesHeld(s) && s.initialized && reader !in Taken(s) && id != ""
    requires Next(s, CardInserted(reader), t) && Next(t, Connect(|s.queue|, Found(id)), u)
    ensures OnReader(u, id, reader) && u.queue == s.queue
    ensures u.signals == s.signals + (if id in s.devices then [Disconnected(id)] else []) + [Connected(id)]
    ensures u.devices[id].handle in u.open
  {
    UsedIsTaken(s, reader);
    assert t.queue[..|s.queue|] == s.queue && t.queue[|s.queue| + 1..] == [];
  }

  // ---------------------------------------------------------------------------
  // Handles are conserved
  // ---------------------------------------------------------------------------

  /** The open handles are those of the devices, one each. */
  ghost predicate HandlesHeld(s: State) {
    && s.open == (set id | id in s.devices :: s.devices[id].handle)
    && (forall c <- s.devices, d <- s.devices :: c != d ==> s.devices[c].handle != s.devices[d].handle)
    && (forall h <- s.open :: h < s.nextHandle)
  }

  lemma DroppedKeepsHandles(s: State, id: Id)
    requires HandlesHeld(s)
    ensures HandlesHeld(Dropped(s, id)) && Dropped(s, id).nextHandle == s.nextHandle
  {
    var t := Dropped(s, id);
    if id in s.devices {
      assert forall d <- s.devices :: d != id ==> d in t.devices && t.devices[d] == s.devices[d];
      assert forall d <- t.devices :: s.devices[d].handle in s.open;
      assert t.open == (set d | d in t.devices :: t.devices[d].handle);
    }
  }

  lemma AttachedKeepsHandles(s: State, reader: Reader, probe: Probe)
    requires HandlesHeld(s)
    ensures HandlesHeld(Attached(s, reader, probe))
  {
    hide HandlesHeld;
    OpenIsOld(s);
    if s.initialized && probe.Found? && probe.id != "" {
      DroppedKeepsHandles(s, probe.id);
      EnteredKeepsHandles(Dropped(s, probe.id), Attached(s, reader, probe), probe.id);
    } else {
      SameHandles(s, Attached(s, reader, probe));
    }
  }

  lemma OpenIsOld(s: State)
    requires HandlesHeld(s)
    ensures s.nextHandle !in s.open
    ensures forall d <- s.devices :: s.devices[d].handle in s.open
  {
  }

  lemma SameHandles(s: State, t: State)
    requires HandlesHeld(s) && t.devices == s.devices && t.open == s.open && t.nextHandle >= s.nextHandle
    ensures HandlesHeld(t)
  {
  }

  /** A device is entered with the next handle. */
  lemma EnteredKeepsHandles(s: State, t: State, id: Id)
    requires HandlesHeld(s) && id !in s.devices && id in t.devices && t.devices == s.devices[id := t.devices[id]]
    requires t.devices[id].handle == s.nextHandle && t.open == s.open + {s.nextHandle} && t.nextHandle == s.nextHandle + 1
    ensures HandlesHeld(t)
  {
    OpenIsOld(s);
    assert forall d <- s.devices :: d in t.devices && t.devices[d] == s.devices[d];
    forall h | h in t.open ensures h in (set d | d in t.devices :: t.devices[d].handle) {
      if h in s.open {
        var d :| d in s.devices && s.devices[d].handle == h;
        assert d in t.devices && t.devices[d].handle == h;
      }
    }
  }

  lemma {:induction false} DroppedAllKeepsHandles(s: State, ids: seq<Id>)
    requires HandlesHeld(s)
    ensures HandlesHeld(DroppedAll(s, ids))
  {
    if ids != [] {
      DroppedAllKeepsHandles(s, ids[..|ids| - 1]);
      DroppedKeepsHandles(DroppedAll(s, ids[..|ids| - 1]), ids[|ids| - 1]);
    }
  }

  lemma {:induction false} AttachedToKeepsHandles(s: State, taken: set<Reader>, current: seq<Reader>,
                                                  probes: Reader -> Probe)
    requires HandlesHeld(s)
    ensures HandlesHeld(AttachedTo(s, taken, current, probes))
  {
    if current != [] {
      var n := |current| - 1;
      AttachedToKeepsHandles(s, taken, current[..n], probes);
      AttachedKeepsHandles(AttachedTo(s, taken, current[..n], probes), current[n], probes(current[n]));
    }
  }

  lemma StepKeepsHandles(s: State, a: Action, t: State)
    requires HandlesHeld(s) && Next(s, a, t)
    ensures HandlesHeld(t)
  {
    hide HandlesHeld, Attached, Dropped, AttachedTo, DroppedAll;
    match a
    case Enumerate(_) => QueueKeepsHandles(s, t);
    case Connect(i, probe) =>
      var taken := s.(queue := s.queue[..i] + s.queue[i + 1..]);
      QueueKeepsHandles(s, taken);
      AttachedKeepsHandles(taken, s.queue[i], probe);
    case Disconnect(id) => DroppedKeepsHandles(s, id);
    case ReaderListChanged(current, probes) =>
      var order :| Lists(order, Stranded(s, ToSet(current))) &&
                   t == Refreshed(s, order, current, probes);
      DroppedAllKeepsHandles(s, order);
      AttachedToKeepsHandles(DroppedAll(s, order), Taken(DroppedAll(s, order)), current, probes);
    case CardInserted(reader) => QueueKeepsHandles(s, t);
    case CardRemoved(reader) =>
      if InUse(s, reader) {
        var id :| OnReader(s, id, reader) && t == Dropped(s, id);
        DroppedKeepsHandles(s, id);
      }
    case ServiceLost => NoHandles(s);
    case Forget(id) => ForgotKeepsHandles(s, id);
  }

  lemma QueueKeepsHandles(s: State, t: State)
    requires HandlesHeld(s) && t == s.(queue := t.queue)
    ensures HandlesHeld(t)
  {
  }

  lemma NoHandles(s: State)
    ensures HandlesHeld(Lost(s))
  {
  }

  lemma ForgotKeepsHandles(s: State, id: Id)
    requires HandlesHeld(s)
    ensures HandlesHeld(Forgot(s, id))
  {
    DroppedKeepsHandles(s, id);
    if id in s.devices {
      assert Forgot(s, id).devices == Dropped(s, id).devices && Forgot(s, id).open == Dropped(s, id).open;
    }
  }

  /** In every run, swaps and forgotten devices included, no card handle is lost or shared. */
  lemma {:induction false} EveryRunKeepsHandles(states: seq<State>, actions: seq<Action>, k: nat)
    requires Run(states, actions) && k < |states|
    ensures HandlesHeld(states[k])
  {
    if k > 0 {
      EveryRunKeepsHandles(states, actions, k - 1);
      StepKeepsHandles(states[k - 1], actions[k - 1], states[k]);
    }
  }

  // ---------------------------------------------------------------------------
  // What is reported
  // ---------------------------------------------------------------------------

  /** The devices a listener believes connected. */
  function Believed(signals: seq<Signal>): set<Id> {
    if signals == [] then {}
    else
      var before := Believed(signals[..|signals| - 1]);
      match signals[|signals| - 1]
      case Connected(id) => before + {id}
      case Disconnected(id) => before - {id}
      case Forgotten(id) => before - {id}
  }

  ghost predicate Told(s: State) {
    Believed(s.signals) == s.devices.Keys
  }

  lemma DroppedIsTold(s: State, id: Id)
    requires Told(s)
    ensures Told(Dropped(s, id))
  {
  }

  lemma AttachedIsTold(s: State, reader: Reader, probe: Probe)
    requires Told(s)
    ensures Told(Attached(s, reader, probe))
  {
  }

  lemma {:induction false} RefreshedIsTold(s: State, order: seq<Id>)
    requires Told(s)
    ensures Told(DroppedAll(s, order))
  {
    if order != [] {
      RefreshedIsTold(s, order[..|order| - 1]);
      DroppedIsTold(DroppedAll(s, order[..|order| - 1]), order[|order| - 1]);
    }
  }

  lemma {:induction false} AttachedToIsTold(s: State, taken: set<Reader>, current: seq<Reader>, probes: Reader -> Probe)
    requires Told(s)
    ensures Told(AttachedTo(s, taken, current, probes))
  {
    if current != [] {
      var n := |current| - 1;
      AttachedToIsTold(s, taken, current[..n], probes);
      AttachedIsTold(AttachedTo(s, taken, current[..n], probes), current[n], probes(current[n]));
    }
  }

  /** The service is not lost while devices are connected. */
  ghost predicate KeepsService(s: State, a: Action) {
    a.ServiceLost? ==> s.devices == map[]
  }

  /**
   Listeners are told of every change, except when the PC/SC service is lost:
   that is reported exactly if there was no device to lose.
   */
  lemma StepIsTold(s: State, a: Action, t: State)
    requires Told(s) && Next(s, a, t)
    ensures Told(t) <==> KeepsService(s, a)
  {
    hide Attached, Dropped, AttachedTo, DroppedAll, Told, Lists;
    match a
    case Enumerate(_) => NothingToTell(s, t);
    case Connect(i, probe) =>
      NothingToTell(s, s.(queue := s.queue[..i] + s.queue[i + 1..]));
      AttachedIsTold(s.(queue := s.queue[..i] + s.queue[i + 1..]), s.queue[i], probe);
    case Disconnect(id) => DroppedIsTold(s, id);
    case ReaderListChanged(current, probes) =>
      var order :| Lists(order, Stranded(s, ToSet(current))) && t == Refreshed(s, order, current, probes);
      RefreshedIsTold(s, order);
      AttachedToIsTold(DroppedAll(s, order), Taken(DroppedAll(s, order)), current, probes);
    case CardInserted(reader) => NothingToTell(s, t);
    case CardRemoved(reader) =>
      if InUse(s, reader) {
        var id :| OnReader(s, id, reader) && t == Dropped(s, id);
        DroppedIsTold(s, id);
      }
    case ServiceLost => LossIsNotTold(s);
    case Forget(id) => ForgettingIsTold(s, id);
  }

  lemma NothingToTell(s: State, t: State)
    requires Told(s) && t.devices == s.devices && t.signals == s.signals
    ensures Told(t)
  {
  }

  lemma LossIsNotTold(s: State)
    requires Told(s)
    ensures Told(Lost(s)) <==> s.devices == map[]
  {
    assert s.devices != map[] ==> s.devices.Keys != {};
  }

  lemma ForgettingIsTold(s: State, id: Id)
    requires Told(s)
    ensures Told(Forgot(s, id))
  {
    assert (s.signals + [Forgotten(id)])[..|s.signals|] == s.signals;
  }

  /**
   Throughout a run listeners know exactly the connected devices if and only if
   up to then the service was never lost with devices connected.
   */
  lemma {:induction false} EveryRunIsTold(states: seq<State>, actions: seq<Action>, k: nat)
    requires Run(states, actions) && k < |states|
    ensures (forall j :: 0 <= j <= k ==> Told(states[j])) <==> forall j :: 0 <= j < k ==> KeepsService(states[j], actions[j])
  {
    hide Told, KeepsService, Next;
    if k == 0 {
      NobodyToTell();
    } else {
      EveryRunIsTold(states, actions, k - 1);
      if Told(states[k - 1]) {
        StepIsTold(states[k - 1], actions[k - 1], states[k]);
      }
    }
  }

  lemma NobodyToTell()
    ensures Told(INITIAL)
  {
  }
}
