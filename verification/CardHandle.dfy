/** Reconnecting a card after a reset: attempts with growing pauses, each handle either kept or given back. */
module CardHandle {
  import Transaction

  /** What an attempt comes to: no connection, a card that does not answer SELECT, or a working one. */
  datatype Attempt = NoConnection | NoOath | Works

  const MAX_ATTEMPTS := 6

  const DELAYS: seq<nat> := [100, 200, 400, 800, 1600, 3000]

  function Sum(ns: seq<nat>): nat {
    if ns == [] then 0 else Sum(ns[..|ns| - 1]) + ns[|ns| - 1]
  }

  /** The card handles the process holds, the number of the next one, and the pauses made. */
  class Pcsc {
    var open: set<nat>
    var next: nat
    var pauses: seq<nat>

    constructor ()
      ensures open == {} && next == 1 && pauses == []
    {
      open, next, pauses := {}, 1, [];
    }

    /** Handles are never 0 and never given out twice. */
    ghost predicate Valid()
      reads this
    {
      next > 0 && forall h <- open :: 0 < h < next
    }

    method Connect() returns (handle: nat)
      requires Valid()
      modifies this
      ensures Valid() && handle == old(next) && next == handle + 1
      ensures open == old(open) + {handle} && pauses == old(pauses)
    {
      handle := next;
      open, next := open + {handle}, next + 1;
    }

    method Disconnect(handle: nat)
      requires Valid()
      modifies this
      ensures Valid() && open == old(open) - {handle} && next == old(next) && pauses == old(pauses)
    {
      open := open - {handle};
    }

    method Pause(ms: nat)
      modifies this
      ensures open == old(open) && next == old(next) && pauses == old(pauses) + [ms]
    {
      pauses := pauses + [ms];
    }
  }

  class Session {
    var cardHandle: nat

    constructor (handle: nat)
      ensures cardHandle == handle
    {
      cardHandle := handle;
    }

    method UpdateCardHandle(handle: nat)
      modifies this
      ensures cardHandle == handle
    {
      cardHandle := handle;
    }
  }

  /** The first attempt that works; how many are made in all. */
  function Tries(attempts: nat -> Attempt, from: nat): (n: nat)
    requires from <= MAX_ATTEMPTS
    ensures from <= n <= MAX_ATTEMPTS
    ensures n < MAX_ATTEMPTS ==> attempts(n) == Works
    ensures forall k :: from <= k < n ==> attempts(k) != Works
    decreases MAX_ATTEMPTS - from
  {
    if from == MAX_ATTEMPTS || attempts(from) == Works then from else Tries(attempts, from + 1)
  }

  class OathDevice {
    var cardHandle: nat
    const session: Session
    const pcsc: Pcsc

    constructor (handle: nat, session: Session, pcsc: Pcsc)
      ensures cardHandle == handle && this.session == session && this.pcsc == pcsc
    {
      cardHandle := handle;
      this.session, this.pcsc := session, pcsc;
    }

    /**
     At most six attempts, stopping at the first that works. On success device
     and session hold the same new handle, the only one left open of those
     opened here; on failure none is left open, the device has no handle, so
     that no transaction on it is begun or valid, and the session still has its
     old one, which is closed.
     */
    method ReconnectCardHandle(attempts: nat -> Attempt) returns (ok: bool)
      requires pcsc.Valid()
      modifies this, session, pcsc
      ensures pcsc.Valid()
      ensures ok <==> exists k: nat :: k < MAX_ATTEMPTS && attempts(k) == Works
      ensures ok ==> cardHandle == session.cardHandle && cardHandle !in old(pcsc.open) && cardHandle != 0
      ensures ok ==> pcsc.open == old(pcsc.open) - {old(cardHandle)} + {cardHandle}
      ensures !ok ==> cardHandle == 0 && session.cardHandle == old(session.cardHandle)
      ensures !ok ==> forall b: Transaction.Beginning, p: Transaction.Pcsc ::
                        && !Transaction.Valid(Transaction.Constructed(cardHandle, b, p).0)
                        && Transaction.Constructed(cardHandle, b, p).1 == p
      ensures !ok ==> pcsc.open == if old(cardHandle) == 0 then old(pcsc.open) else old(pcsc.open) - {old(cardHandle)}
      ensures pcsc.pauses == old(pcsc.pauses) + Pauses(Tries(attempts, 0))
    {
      hide Tries, Pauses;
      if cardHandle != 0 {
        pcsc.Disconnect(cardHandle);
        cardHandle := 0;
      }
      ghost var before := pcsc.open;
      for attempt := 0 to MAX_ATTEMPTS
        invariant pcsc.Valid() && pcsc.open == before && pcsc.next >= old(pcsc.next)
        invariant cardHandle == 0 && session.cardHandle == old(session.cardHandle)
        invariant forall k: nat :: k < attempt ==> attempts(k) != Works
        invariant Tries(attempts, 0) == Tries(attempts, attempt)
        invariant attempt == 0 ==> pcsc.pauses == old(pcsc.pauses)
        invariant attempt > 0 ==> pcsc.pauses == old(pcsc.pauses) + Pauses(attempt - 1)
      {
        NextTry(attempts, attempt);
        PauseBefore(old(pcsc.pauses), attempt);
        if attempt > 0 {
          pcsc.Pause(DELAYS[attempt - 1]);
        }
        var worked := TryOnce(attempts(attempt));
        if worked {
          return true;
        }
      }
      LastTry(attempts);
      return false;
    }

    /** One attempt: a handle that does not prove itself is given back. */
    method TryOnce(attempt: Attempt) returns (ok: bool)
      requires pcsc.Valid()
      modifies this, session, pcsc
      ensures pcsc.Valid() && pcsc.pauses == old(pcsc.pauses) && pcsc.next >= old(pcsc.next)
      ensures ok == (attempt == Works)
      ensures ok ==> cardHandle == session.cardHandle == old(pcsc.next) && pcsc.open == old(pcsc.open) + {cardHandle}
      ensures !ok ==> pcsc.open == old(pcsc.open) && cardHandle == old(cardHandle)
                      && session.cardHandle == old(session.cardHandle)
    {
      if attempt == NoConnection {
        return false;
      }
      var newHandle := pcsc.Connect();
      if attempt == Works {
        cardHandle := newHandle;
        session.UpdateCardHandle(newHandle);
        return true;
      }
      pcsc.Disconnect(newHandle);
      return false;
    }
  }

  /** The pauses before the attempts up to the n-th; the last delay of the table is never used. */
  function Pauses(n: nat): seq<nat>
    requires n <= MAX_ATTEMPTS
  {
    DELAYS[..if n == MAX_ATTEMPTS then MAX_ATTEMPTS - 1 else n]
  }

  lemma PauseBefore(before: seq<nat>, n: nat)
    requires n < MAX_ATTEMPTS
    ensures Pauses(0) == [] && before + [] == before
    ensures n > 0 ==> before + Pauses(n) == before + Pauses(n - 1) + [DELAYS[n - 1]]
  {
  }

  lemma NextTry(attempts: nat -> Attempt, n: nat)
    requires n < MAX_ATTEMPTS
    ensures Tries(attempts, n) == if attempts(n) == Works then n else Tries(attempts, n + 1)
  {
  }

  lemma LastTry(attempts: nat -> Attempt)
    ensures Tries(attempts, MAX_ATTEMPTS) == MAX_ATTEMPTS && Pauses(MAX_ATTEMPTS) == Pauses(MAX_ATTEMPTS - 1)
  {
  }

  /**
   Each pause is twice the one before, from 100 ms on; those of a failed
   reconnect come to 3100 ms, and none pauses longer.
   */
  lemma PausesAreBounded(attempts: nat -> Attempt)
    ensures var n := Tries(attempts, 0);
            && Pauses(n) == [100, 200, 400, 800, 1600][..if n < 5 then n else 5]
            && Sum(Pauses(n)) <= 3100 && (Sum(Pauses(n)) == 3100 <==> n >= 5)
  {
    assert DELAYS[..0] == [];
    assert forall k :: 1 <= k < 6 ==> DELAYS[..k][..k - 1] == DELAYS[..k - 1];
    assert Sum(DELAYS[..1]) == 100 && Sum(DELAYS[..2]) == 300 && Sum(DELAYS[..3]) == 700;
    assert Sum(DELAYS[..4]) == 1500 && Sum(DELAYS[..5]) == 3100;
  }
}
