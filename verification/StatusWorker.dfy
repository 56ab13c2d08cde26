/**
  statusUpdateWorker: notifications are gathered and at most one status update is attempted per tick.
 */
module StatusWorker {

  datatype Event = Notify | Tick | Stop

  /** The worker has not been stopped before event i. */
  predicate Running(evs: seq<Event>, i: nat)
    requires i <= |evs|
  {
    forall k :: 0 <= k < i ==> evs[k] != Stop
  }

  /** Event j is a notification and no tick lies between it and event i. */
  predicate Waiting(evs: seq<Event>, j: nat, i: nat)
    requires j < i <= |evs|
  {
    evs[j] == Notify && forall k :: j < k < i ==> evs[k] != Tick
  }

  predicate Pending(evs: seq<Event>, i: nat)
    requires i <= |evs|
  {
    exists j :: 0 <= j < i && Waiting(evs, j, i)
  }

  /** An update is due at event i: a tick, with a notification since the last tick, before any stop. */
  predicate Due(evs: seq<Event>, i: nat)
    requires i < |evs|
  {
    evs[i] == Tick && Running(evs, i) && Pending(evs, i)
  }

  /** The select loop over the events as they arrive; returns the events at which it attempted an update, in order. */
  method StatusUpdateWorker(evs: seq<Event>) returns (attempts: seq<nat>)
    ensures forall i: nat :: i in attempts <==> i < |evs| && Due(evs, i)
    ensures forall a, b :: 0 <= a < b < |attempts| ==> attempts[a] < attempts[b]
  {
    attempts := [];
    var pendingUpdate := false;
    for i := 0 to |evs|
      invariant Running(evs, i)
      invariant pendingUpdate <==> Pending(evs, i)
      invariant forall k: nat :: k in attempts <==> k < i && Due(evs, k)
      invariant forall a, b :: 0 <= a < b < |attempts| ==> attempts[a] < attempts[b]
    {
      match evs[i] {
      case Stop =>
        assert forall k :: i < k < |evs| ==> !Running(evs, k);
        return;
      case Notify =>
        pendingUpdate := true;
        assert Waiting(evs, i, i + 1);
      case Tick =>
        if pendingUpdate {
          assert forall a :: 0 <= a < |attempts| ==> attempts[a] in attempts;
          attempts := attempts + [i];
          pendingUpdate := false;
        }
      }
      PendingStep(evs, i);
    }
  }

  lemma PendingStep(evs: seq<Event>, i: nat)
    requires i < |evs|
    ensures Pending(evs, i + 1) <==> evs[i] == Notify || (evs[i] != Tick && Pending(evs, i))
  {
    if evs[i] == Notify {
      assert Waiting(evs, i, i + 1);
    } else if Pending(evs, i) && evs[i] != Tick {
      var j :| 0 <= j < i && Waiting(evs, j, i);
      assert Waiting(evs, j, i + 1);
    }
    if Pending(evs, i + 1) && evs[i] != Notify {
      var j :| 0 <= j < i + 1 && Waiting(evs, j, i + 1);
      assert Waiting(evs, j, i);
    }
  }

  /** Every notification is followed by exactly one attempt, at the next tick before a stop: no tick in between is due twice, and the next attempt needs a notification of its own. */
  lemma NotificationIsServed(evs: seq<Event>, j: nat, t: nat)
    requires j < t < |evs| && evs[j] == Notify && evs[t] == Tick && Running(evs, t)
    requires forall k :: j < k < t ==> evs[k] != Tick
    ensures Due(evs, t)
    ensures forall u: nat :: t < u < |evs| && Due(evs, u) ==> exists m :: t < m < u && evs[m] == Notify
  {
    assert Waiting(evs, j, t);
    forall u: nat | t < u < |evs| && Due(evs, u)
      ensures exists m :: t < m < u && evs[m] == Notify
    {
      var m :| 0 <= m < u && Waiting(evs, m, u);
      assert m > t;
    }
  }
}
