/**
 A lane as an object. Each method is one section under the lane's condition;
 LaneProtocol.dfy interleaves the sections of any number of threads.
 */
module Lanes {
  import opened Wrappers
  import opened CallbackTable
  import opened CallbackOwners
  import opened LaneGate

  datatype Error = OutcomeUnresolved | StorageExhausted | OutcomeUnreceived | NativeStatus(status: int)

  class StreamLane {
    var lane: bool
    var closing: bool
    var activeCalls: int
    const callbacks: StreamCallbackOwners

    /** The calls that hold a borrow, and the caller of close that sealed admission. */
    ghost var inside: set<nat>
    ghost var sealedBy: Option<nat>

    function Fields(): Gate
      reads this
    {
      Gate(lane, closing, activeCalls)
    }

    /** The counter counts the borrows, the flag says that somebody closes, and a closed lane has nobody inside. */
    ghost predicate Valid()
      reads this
    {
      && activeCalls == |inside|
      && (closing <==> sealedBy.Some?)
      && (!lane ==> closing && inside == {})
    }

    /** A lane whose native side was created and started. */
    constructor (callbacks: StreamCallbackOwners)
      ensures Valid() && Fields() == OPENED && inside == {} && this.callbacks == callbacks
    {
      lane, closing, activeCalls := true, false, 0;
      inside, sealedBy := {}, None;
      this.callbacks := callbacks;
    }

    /** Borrows the lane for call `t`, unless it is closed or somebody closes it. */
    method EnterCall(ghost t: nat) returns (admitted: bool)
      requires Valid() && t !in inside
      modifies `activeCalls, `inside
      ensures Valid()
      ensures admitted <==> lane && sealedBy.None?
      ensures inside == if admitted then old(inside) + {t} else old(inside)
      ensures (Fields(), admitted) == Enter(old(Fields()))
    {
      if closing || !lane {
        return false;
      }
      activeCalls := activeCalls + 1;
      inside := inside + {t};
      admitted := true;
    }

    /** Gives the borrow of `t` back; sleepers are woken exactly when it was the last. */
    method LeaveCall(ghost t: nat) returns (broadcast: bool)
      requires Valid() && t in inside
      modifies `activeCalls, `inside
      ensures Valid()
      ensures inside == old(inside) - {t}
      ensures broadcast <==> inside == {}
      ensures (Fields(), broadcast) == Leave(old(Fields()))
    {
      activeCalls := activeCalls - 1;
      inside := inside - {t};
      broadcast := activeCalls == 0;
    }

    /** The first section of `close`: over the life of a lane exactly one caller seals it. */
    method StartClose(ghost t: nat) returns (step: CloseStep)
      requires Valid()
      modifies `closing, `sealedBy
      ensures Valid()
      ensures step == Seals <==> old(sealedBy).None?
      ensures step == AlreadyClosed <==> !lane
      ensures sealedBy == if step == Seals then Some(t) else old(sealedBy)
      ensures (Fields(), step) == BeginClose(old(Fields()))
    {
      if !lane {
        return AlreadyClosed;
      }
      if closing {
        return AnotherCloses;
      }
      closing := true;
      sealedBy := Some(t);
      step := Seals;
    }

    /**
     The last section of the close that sealed: takes the whole callback table out
     and leaves the lane closed, whatever native stop answered. The caller learns
     of an answer other than success and "already stopped" afterwards.
     */
    method FinishClose(stopStatus: int) returns (r: Result<(), Error>, retired: Dictionary)
      requires Valid() && sealedBy.Some? && inside == {} && callbacks.Valid()
      modifies `lane, callbacks
      ensures Valid() && Fields() == Closed(old(Fields()))
      ensures callbacks.Valid() && callbacks.table == map[]
      ensures retired == old(callbacks.entries) && Represents(retired, old(callbacks.table), old(callbacks.cells))
      ensures Roots(old(callbacks.table)) == RootSet(old(callbacks.cells).Keys)
      ensures r == if stopStatus in {0, -7} then Ok(()) else Err(NativeStatus(stopStatus))
    {
      retired := callbacks.Detach();
      lane := false;
      r := if stopStatus != 0 && stopStatus != -7 then Err(NativeStatus(stopStatus)) else Ok(());
    }

    /**
     Offers a callback, as a publisher or a subscriber does under the condition.
     It succeeds exactly if Core was called and answered zero; Core's own failure
     reaches the caller as it is.
     */
    method OfferCallback(key: Key, root: Root, before: Key -> int, outcome: Outcome, after: Key -> int,
                         handed: seq<OwnedEntry>)
      returns (r: Result<(), Error>, retired: seq<OwnedEntry>)
      requires callbacks.Valid()
      modifies callbacks
      ensures callbacks.Valid()
      ensures callbacks.table
           == Admit(callbacks.canon, callbacks.limit, old(callbacks.table), key, root, before, outcome, after).0
      ensures var t, k := old(callbacks.table), Canonical(callbacks.canon, key);
              var unresolved := k in t && t[k].entry.status.None?;
              var full := k !in t && |t| == callbacks.limit
                          && forall j :: j in t ==> t[j].entry.status.None? || before(t[j].spelling) != -3;
              r == if unresolved then Err(OutcomeUnresolved)
                   else if full then Err(Error.StorageExhausted)
                   else if outcome.Unreceived? then Err(OutcomeUnreceived)
                   else if outcome.status != 0 then Err(NativeStatus(outcome.status))
                   else Ok(())
      ensures |retired| - |handed| <= callbacks.limit + 1
    {
      var answer;
      ghost var candidate;
      answer, retired, candidate := callbacks.Admit(key, root, before, outcome, after, handed);
      match answer
      case Unresolved => r := Err(OutcomeUnresolved);
      case StorageExhausted => r := Err(Error.StorageExhausted);
      case OutcomeLost => r := Err(OutcomeUnreceived);
      case Admitted(status) =>
        r := if status != 0 then Err(NativeStatus(status)) else Ok(());
    }

    /** After native control returned: a forgotten record lets go of its callback, a cancelled one does not. */
    method FinishControl(key: Key, forget: bool, status: int, handed: seq<OwnedEntry>)
      returns (r: Result<(), Error>, retired: seq<OwnedEntry>)
      requires callbacks.Valid()
      modifies callbacks
      ensures callbacks.Valid()
      ensures callbacks.table ==
              if forget && status == 0
              then old(callbacks.table) - {Canonical(callbacks.canon, key)}
              else old(callbacks.table)
      ensures !(forget && status == 0) ==> retired == handed
      ensures r == if status == 0 then Ok(()) else Err(NativeStatus(status))
    {
      retired := handed;
      if status != STATUS_OK {
        return Err(NativeStatus(status)), retired;
      }
      if forget {
        retired := callbacks.Forget(key, handed);
      }
      r := Ok(());
    }
  }
}
