/**
 The list of all credentials: those of the connected devices, then those the
 database remembers of devices that are away. Whether a connected device
 without credentials of its own falls back to the database depends on what is
 in the list when its turn comes.
 */
module Listing {
  import opened Enumeration

  type Id = string

  datatype Credential = Credential(device: Id, name: string)

  datatype Device = Device(credentials: seq<Credential>, updating: bool)

  /** What the service can see: the setting, the connected devices, the database. */
  datatype View = View(cacheEnabled: bool, devices: map<Id, Device>, remembered: map<Id, seq<Credential>>)

  // ---------------------------------------------------------------------------
  // What each operation does
  // ---------------------------------------------------------------------------

  /** What the connected devices give, in the order in which they are visited. */
  function Live(v: View, order: seq<Id>): seq<Credential>
    requires forall d <- order :: d in v.devices
  {
    if order == [] then []
    else
      var n := |order| - 1;
      var device := v.devices[order[n]];
      Live(v, order[..n]) + if device.updating then [] else device.credentials
  }

  function Remembered(v: View, d: Id): seq<Credential> {
    if d in v.remembered then v.remembered[d] else []
  }

  /** What appendCachedCredentialsForOfflineDevice adds to the list so far. */
  function Cached(v: View, d: Id, list: seq<Credential>): seq<Credential> {
    if !v.cacheEnabled || (d in v.devices && list != []) then [] else Remembered(v, d)
  }

  function WithCached(v: View, list: seq<Credential>, records: seq<Id>): seq<Credential> {
    if records == [] then list
    else
      var n := |records| - 1;
      var before := WithCached(v, list, records[..n]);
      before + Cached(v, records[n], before)
  }

  class CredentialService {
    const view: View
    var list: seq<Credential>

    constructor (v: View)
      ensures view == v && list == []
    {
      view, list := v, [];
    }

    /** OathDeviceManager::getCredentials. */
    method GetLive(order: seq<Id>)
      requires forall d <- order :: d in view.devices
      modifies this
      ensures list == Live(view, order)
    {
      list := [];
      for i := 0 to |order|
        invariant list == Live(view, order[..i])
      {
        assert order[..i + 1][..i] == order[..i];
        var device := view.devices[order[i]];
        if device.updating {
          continue;
        }
        ghost var before := list;
        for j := 0 to |device.credentials|
          invariant list == before + device.credentials[..j]
        {
          list := list + [device.credentials[j]];
        }
        assert device.credentials[..|device.credentials|] == device.credentials;
      }
      assert order[..|order|] == order;
    }

    method AppendCached(d: Id)
      modifies this
      ensures list == old(list) + Cached(view, d, old(list))
    {
      if !view.cacheEnabled {
        return;
      }
      if d in view.devices && list != [] {
        return;
      }
      var cached := Remembered(view, d);
      if cached != [] {
        list := list + cached;
      }
    }

    method GetAll(order: seq<Id>, records: seq<Id>)
      requires forall d <- order :: d in view.devices
      modifies this
      ensures list == WithCached(view, Live(view, order), records)
    {
      GetLive(order);
      for i := 0 to |records|
        invariant list == WithCached(view, Live(view, order), records[..i])
      {
        assert records[..i + 1][..i] == records[..i];
        AppendCached(records[i]);
      }
      assert records[..|records|] == records;
    }

    /** The list of one device: its own credentials, or else what is remembered. */
    method GetOne(d: Id)
      modifies this
      ensures list == if d in view.devices && view.devices[d].credentials != [] then view.devices[d].credentials
                      else if view.cacheEnabled && d in view.remembered then view.remembered[d] else []
    {
      list := [];
      if d in view.devices {
        list := view.devices[d].credentials;
        if list == [] {
          AppendCached(d);
        }
      } else {
        AppendCached(d);
      }
    }
  }

  // ---------------------------------------------------------------------------
  // One source per device
  // ---------------------------------------------------------------------------

  /** The part of a list that is of one device. */
  function Of(list: seq<Credential>, d: Id): seq<Credential> {
    if list == [] then []
    else
      var n := |list| - 1;
      Of(list[..n], d) + if list[n].device == d then [list[n]] else []
  }

  lemma {:induction false} OfConcat(a: seq<Credential>, b: seq<Credential>, d: Id)
    ensures Of(a + b, d) == Of(a, d) + Of(b, d)
  {
    if b == [] {
      assert a + b == a;
    } else {
      var n := |b| - 1;
      assert (a + b)[..|a| + n] == a + b[..n];
      OfConcat(a, b[..n], d);
    }
  }

  predicate AllOf(list: seq<Credential>, d: Id) {
    forall c <- list :: c.device == d
  }

  lemma {:induction false} OfAll(list: seq<Credential>, d: Id, e: Id)
    requires AllOf(list, e)
    ensures Of(list, d) == if d == e then list else []
  {
    if list != [] {
      var n := |list| - 1;
      OfAll(list[..n], d, e);
      assert list == list[..n] + [list[n]];
    }
  }

  /** Every credential names the device it comes from. */
  ghost predicate Consistent(v: View) {
    && (forall d <- v.devices :: AllOf(v.devices[d].credentials, d))
    && (forall d <- v.remembered :: AllOf(v.remembered[d], d))
  }

  /** What a connected device gives. */
  function Own(v: View, d: Id): seq<Credential> {
    if d in v.devices && !v.devices[d].updating then v.devices[d].credentials else []
  }

  lemma OwnIsItsOwn(v: View, d: Id)
    requires Consistent(v)
    ensures AllOf(Own(v, d), d)
  {
  }

  lemma {:induction false} LiveOf(v: View, order: seq<Id>, d: Id)
    requires Consistent(v) && Distinct(order) && forall e <- order :: e in v.devices
    ensures Of(Live(v, order), d) == if d in order then Own(v, d) else []
  {
    hide Consistent, AllOf, Live, Of, Own;
    LiveUnfolds(v, order, d);
    if order != [] {
      var n := |order| - 1;
      var e := order[n];
      LiveOf(v, order[..n], d);
      OwnIsItsOwn(v, e);
      OfConcat(Live(v, order[..n]), Own(v, e), d);
      OfAll(Own(v, e), d, e);
      assert order == order[..n] + [e];
      assert e !in order[..n];
      assert [] + Own(v, d) == Own(v, d) && forall s: seq<Credential> :: s + [] == s;
    }
  }

  lemma LiveUnfolds(v: View, order: seq<Id>, d: Id)
    requires forall e <- order :: e in v.devices
    ensures order == [] ==> Of(Live(v, order), d) == []
    ensures order != [] ==> Live(v, order) == Live(v, order[..|order| - 1]) + Own(v, order[|order| - 1])
  {
  }

  /** Nothing is in the list when the turn of the k-th record comes. */
  predicate NothingBefore(v: View, live: seq<Credential>, records: seq<Id>, k: nat)
    requires k <= |records|
  {
    live == [] && (v.cacheEnabled ==> forall j :: 0 <= j < k ==> Remembered(v, records[j]) == [])
  }

  lemma {:induction false} EmptySoFar(v: View, live: seq<Credential>, records: seq<Id>)
    ensures WithCached(v, live, records) == [] <==> NothingBefore(v, live, records, |records|)
  {
    if records != [] {
      var n := |records| - 1;
      EmptySoFar(v, live, records[..n]);
      assert forall j :: 0 <= j < n ==> records[..n][j] == records[j];
    }
  }

  /** What the database adds for one device in all. */
  function Added(v: View, live: seq<Credential>, records: seq<Id>, d: Id): seq<Credential> {
    if records == [] then []
    else
      var n := |records| - 1;
      if records[n] == d then Cached(v, d, WithCached(v, live, records[..n])) else Added(v, live, records[..n], d)
  }

  lemma {:induction false} CachedOf(v: View, live: seq<Credential>, records: seq<Id>, d: Id)
    requires Consistent(v) && Distinct(records)
    ensures Of(WithCached(v, live, records), d) == Of(live, d) + Added(v, live, records, d)
    ensures d !in records ==> Added(v, live, records, d) == []
  {
    if records == [] {
      assert Of(live, d) + [] == Of(live, d);
    } else {
      var n := |records| - 1;
      var before := WithCached(v, live, records[..n]);
      CachedOf(v, live, records[..n], d);
      OfConcat(before, Cached(v, records[n], before), d);
      OfAll(Cached(v, records[n], before), d, records[n]);
      if records[n] == d {
        assert d !in records[..n];
        assert Of(live, d) + [] == Of(live, d);
      } else {
        assert Of(before, d) + [] == Of(before, d);
      }
    }
  }

  lemma {:induction false} AddedAt(v: View, live: seq<Credential>, records: seq<Id>, k: nat)
    requires Distinct(records) && k < |records|
    ensures Added(v, live, records, records[k]) == Cached(v, records[k], WithCached(v, live, records[..k]))
  {
    var n := |records| - 1;
    if k < n {
      AddedAt(v, live, records[..n], k);
      assert records[..n][..k] == records[..k];
    }
  }

  /** No connected device gives anything, and the records before the k-th remember nothing that may be shown. */
  ghost predicate NothingToList(v: View, records: seq<Id>, k: nat)
    requires k <= |records|
  {
    && (forall d <- v.devices :: v.devices[d].updating || v.devices[d].credentials == [])
    && (v.cacheEnabled ==>
          forall j :: 0 <= j < k && records[j] in v.remembered ==> v.remembered[records[j]] == [])
  }

  lemma {:induction false} LiveIsNothing(v: View, order: seq<Id>)
    requires forall d <- order :: d in v.devices
    ensures Live(v, order) == [] <==> forall d <- order :: Own(v, d) == []
  {
    if order != [] {
      var n := |order| - 1;
      LiveIsNothing(v, order[..n]);
      assert Live(v, order) == Live(v, order[..n]) + Own(v, order[n]);
      assert forall d :: d in order <==> d in order[..n] || d == order[n] by {
        assert order == order[..n] + [order[n]];
      }
    }
  }

  lemma NothingToListIs(v: View, order: seq<Id>, records: seq<Id>, k: nat)
    requires k <= |records| && forall d :: d in order <==> d in v.devices
    ensures NothingBefore(v, Live(v, order), records, k) <==> NothingToList(v, records, k)
  {
    hide Live;
    LiveIsNothing(v, order);
    assert (forall d <- order :: Own(v, d) == []) <==>
           forall d <- v.devices :: v.devices[d].updating || v.devices[d].credentials == [] by {
      assert forall d <- v.devices :: Own(v, d) == [] <==> v.devices[d].updating || v.devices[d].credentials == [];
    }
    assert forall d :: Remembered(v, d) == [] <==> (d in v.remembered ==> v.remembered[d] == []);
  }

  /**
   In the list of all credentials every device appears with the credentials of
   exactly one source: its own if it gave any, else the database's if its turn
   came while it was away, or came before anything else was in the list.
   */
  lemma OneSourcePerDevice(v: View, order: seq<Id>, records: seq<Id>, k: nat)
    requires Consistent(v) && Distinct(order) && Distinct(records) && k < |records|
    requires forall d :: d in order <==> d in v.devices
    ensures var d := records[k];
            var shown := Of(WithCached(v, Live(v, order), records), d);
            var known := if d in v.remembered then v.remembered[d] else [];
            if d in v.devices && !v.devices[d].updating && v.devices[d].credentials != [] then
              shown == v.devices[d].credentials
            else if v.cacheEnabled && (d !in v.devices || NothingToList(v, records, k)) then shown == known
            else shown == []
  {
    hide Live, WithCached, Of, Consistent, NothingBefore, NothingToList;
    var d, live := records[k], Live(v, order);
    var before := WithCached(v, live, records[..k]);
    LiveOf(v, order, d);
    CachedOf(v, live, records, d);
    AddedAt(v, live, records, k);
    EmptySoFar(v, live, records[..k]);
    NothingToListIs(v, order, records[..k], k);
    SameRecords(v, records, k);
    if Own(v, d) != [] {
      OwnKeepsListFilled(v, live, records[..k], d);
      assert Own(v, d) + [] == Own(v, d);
    } else {
      assert [] + Cached(v, d, before) == Cached(v, d, before);
    }
  }

  lemma SameRecords(v: View, records: seq<Id>, k: nat)
    requires k <= |records|
    ensures NothingToList(v, records[..k], k) <==> NothingToList(v, records, k)
  {
    assert forall j :: 0 <= j < k ==> records[..k][j] == records[j];
  }

  /** The credentials of connected devices come first, in the order in which the devices are visited. */
  lemma {:induction false} LiveComesFirst(v: View, order: seq<Id>, records: seq<Id>)
    requires forall d <- order :: d in v.devices
    ensures Live(v, order) <= WithCached(v, Live(v, order), records)
  {
    if records != [] {
      LiveComesFirst(v, order, records[..|records| - 1]);
    }
  }

  lemma {:induction false} OwnKeepsListFilled(v: View, live: seq<Credential>, records: seq<Id>, d: Id)
    requires Of(live, d) != []
    ensures WithCached(v, live, records) != []
  {
    if records != [] {
      OwnKeepsListFilled(v, live, records[..|records| - 1], d);
    }
  }

  /** A device that is not in the database appears with its own credentials only. */
  lemma UnknownDeviceShowsItsOwn(v: View, order: seq<Id>, records: seq<Id>, d: Id)
    requires Consistent(v) && Distinct(order) && Distinct(records) && d !in records
    requires forall e :: e in order <==> e in v.devices
    ensures Of(WithCached(v, Live(v, order), records), d)
            == if d in v.devices && !v.devices[d].updating then v.devices[d].credentials else []
  {
    LiveOf(v, order, d);
    CachedOf(v, Live(v, order), records, d);
    assert Own(v, d) + [] == Own(v, d);
  }
}
