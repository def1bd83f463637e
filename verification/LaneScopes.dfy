/**
 Where a root's deinit runs. A root that loses its last owner sets its deinit off
 in the very step that drops it; these lemmas show that only a call leaving its
 scope, with neither borrow nor condition, ever takes such a step.
 */
module LaneScopes {
  import opened Wrappers
  import opened CallbackTable
  import opened LaneGate
  import opened LaneProtocol
  import opened LaneInvariant

  /** Steps that change the running call of their thread and nothing else about any thread. */
  predicate MovesTop(a: Action) {
    || a.Read? || a.Lock? || a.Release? || a.Abandon? || a.Offer? || a.CallReturns? || a.ControlReturns?
    || a.ForgetOwner? || a.Unlock? || a.StopReturns? || a.Drain? || a.Detach? || a.Recheck?
    || a.WakeSpuriously? || a.Take?
  }

  predicate ChangesTable(a: Action) {
    a.Offer? || a.CallReturns? || a.ForgetOwner? || a.Detach?
  }

  /** `next` is `s` but for the running call of `t`. */
  predicate TopMoved(s: State, next: State, t: Tid) {
    next.threads == s.threads[t := SetTop(StackOf(s, t), Frame(PcOf(next, t), RootsOf(next, t)))]
  }

  lemma TopPut(s: State, next: State, t: Tid, frame: Frame)
    requires next.threads == s.threads[t := SetTop(StackOf(s, t), frame)]
    ensures TopMoved(s, next, t) && PcOf(next, t) == frame.pc && RootsOf(next, t) == frame.roots
  {
  }

  lemma BodyMoves(c: Config, s: State, a: Action)
    requires Enabled(c, s, a) && (a.Read? || a.Lock? || a.Unlock? || a.Abandon?)
    ensures TopMoved(s, Step(c, s, a), a.t) && RootsOf(Step(c, s, a), a.t) == RootsOf(s, a.t)
    ensures !PcOf(Step(c, s, a), a.t).Outside? && Step(c, s, a).table == s.table
  {
  }

  lemma ControlMoves(c: Config, s: State, a: Action)
    requires Enabled(c, s, a) && a.ControlReturns?
    ensures TopMoved(s, Step(c, s, a), a.t) && RootsOf(Step(c, s, a), a.t) == RootsOf(s, a.t)
    ensures !PcOf(Step(c, s, a), a.t).Outside? && Step(c, s, a).table == s.table
  {
    if a.status == STATUS_OK && PcOf(s, a.t).now.forget {
      TopPut(s, Step(c, s, a), a.t, Frame(Forgetting(PcOf(s, a.t).now.key), RootsOf(s, a.t)));
    } else {
      TopPut(s, Step(c, s, a), a.t, Frame(Unlocking, RootsOf(s, a.t)));
    }
  }

  lemma TakeMoves(c: Config, s: State, a: Action)
    requires Enabled(c, s, a) && a.Take?
    ensures TopMoved(s, Step(c, s, a), a.t) && RootsOf(Step(c, s, a), a.t) == RootsOf(s, a.t)
    ensures !PcOf(Step(c, s, a), a.t).Outside? && Step(c, s, a).table == s.table
  {
    TopPut(s, Step(c, s, a), a.t, Frame(PcOf(s, a.t).(taken := true), RootsOf(s, a.t)));
  }

  lemma CloserMoves(c: Config, s: State, a: Action)
    requires Enabled(c, s, a) && (a.StopReturns? || a.Drain?)
    ensures TopMoved(s, Step(c, s, a), a.t) && RootsOf(Step(c, s, a), a.t) == RootsOf(s, a.t)
    ensures !PcOf(Step(c, s, a), a.t).Outside? && Step(c, s, a).table == s.table
  {
    var pc := if a.StopReturns? then Draining(false) else if s.activeCalls != 0 then Draining(true) else Detaching;
    TopPut(s, Step(c, s, a), a.t, Frame(pc, RootsOf(s, a.t)));
  }

  lemma WaiterMoves(c: Config, s: State, a: Action)
    requires Enabled(c, s, a) && (a.Recheck? || a.WakeSpuriously?)
    ensures TopMoved(s, Step(c, s, a), a.t) && RootsOf(Step(c, s, a), a.t) == RootsOf(s, a.t)
    ensures !PcOf(Step(c, s, a), a.t).Outside? && Step(c, s, a).table == s.table
  {
  }

  lemma ReleaseMoves(c: Config, s: State, a: Action)
    requires Enabled(c, s, a) && a.Release?
    ensures TopMoved(s, Step(c, s, a), a.t) && RootsOf(Step(c, s, a), a.t) == RootsOf(s, a.t) - {a.root}
    ensures AtExit(PcOf(Step(c, s, a), a.t)) && Step(c, s, a).table == s.table
  {
  }

  /** A step that leaves the table alone and is not a release leaves its thread's roots alone, too. */
  lemma TopMoves(c: Config, s: State, a: Action)
    requires Enabled(c, s, a) && MovesTop(a) && !ChangesTable(a) && !a.Release?
    ensures TopMoved(s, Step(c, s, a), a.t) && RootsOf(Step(c, s, a), a.t) == RootsOf(s, a.t)
    ensures !PcOf(Step(c, s, a), a.t).Outside? && Step(c, s, a).table == s.table
  {
    if a.ControlReturns? {
      ControlMoves(c, s, a);
    } else if a.Take? {
      TakeMoves(c, s, a);
    } else if a.StopReturns? || a.Drain? {
      CloserMoves(c, s, a);
    } else if a.Recheck? || a.WakeSpuriously? {
      WaiterMoves(c, s, a);
    } else {
      BodyMoves(c, s, a);
    }
  }

  lemma OfferMoves(c: Config, s: State, a: Action)
    requires Enabled(c, s, a) && a.Offer?
    ensures TopMoved(s, Step(c, s, a), a.t) && RootsOf(s, a.t) <= RootsOf(Step(c, s, a), a.t)
    ensures !PcOf(Step(c, s, a), a.t).Outside?
  {
    var p, now := Offered(c, s, PcOf(s, a.t).now, a.presence), PcOf(s, a.t).now;
    if p.Refused? {
      TopPut(s, Step(c, s, a), a.t, Frame(Unlocking, RootsOf(s, a.t)));
    } else {
      TopPut(s, Step(c, s, a), a.t, Frame(Calling(now.key, now.root, false), RootsOf(s, a.t) + a.handed));
    }
  }

  lemma TableMoves(c: Config, s: State, a: Action)
    requires Enabled(c, s, a) && ChangesTable(a)
    ensures TopMoved(s, Step(c, s, a), a.t) && RootsOf(s, a.t) <= RootsOf(Step(c, s, a), a.t)
    ensures !PcOf(Step(c, s, a), a.t).Outside?
    ensures !a.Offer? ==> PcOf(Step(c, s, a), a.t) == if a.Detach? then Finishing else Unlocking
  {
    if a.Offer? {
      OfferMoves(c, s, a);
    } else if a.Detach? {
      TopPut(s, Step(c, s, a), a.t, Frame(Finishing, RootsOf(s, a.t) + Roots(s.table)));
    } else {
      TopPut(s, Step(c, s, a), a.t, Frame(Unlocking, RootsOf(s, a.t) + a.handed));
    }
  }

  // ----- Stacks

  lemma TopFine(c: Config, s: State, a: Action)
    requires StacksInv(s) && Enabled(c, s, a) && MovesTop(a)
    ensures StacksInv(Step(c, s, a))
  {
    var next := Step(c, s, a);
    if ChangesTable(a) {
      TableMoves(c, s, a);
    } else if a.Release? {
      ReleaseMoves(c, s, a);
    } else {
      TopMoves(c, s, a);
    }
    MovedFine(s, next, a.t, PcOf(next, a.t), RootsOf(next, a.t));
  }

  lemma CallFine(s: State, t: Tid, todo: Option<Mutation>)
    requires StacksInv(s) && AppRuns(PcOf(s, t))
    ensures StacksInv(DoCall(s, t, todo))
  {
    var frame := Frame(if Enter(GateOf(s)).1 then Borrowed(todo) else Exiting, CallerRoots(todo));
    PushedFine(s, DoCall(s, t, todo), t, frame);
  }

  lemma CloseCallFine(s: State, t: Tid)
    requires StacksInv(s) && AppRuns(PcOf(s, t))
    ensures StacksInv(DoCallClose(s, t))
  {
    var step := BeginClose(GateOf(s)).1;
    if step.AnotherCloses? {
      PushedFine(s, DoCallClose(s, t), t, Frame(Awaiting(true), {}));
    } else if step.Seals? {
      PushedFine(s, DoCallClose(s, t), t, Frame(Stopping, {}));
    }
  }

  lemma GiveBackFine(s: State, t: Tid)
    requires StacksInv(s)
    ensures StacksInv(DoGiveBack(s, t))
  {
    var next := SetGate(Move(s, t, Exiting), Leave(GateOf(s)).0);
    MovedFine(s, next, t, Exiting, RootsOf(s, t));
    StacksBroadcast(next);
  }

  lemma FinishFine(c: Config, s: State, a: Action)
    requires StacksInv(s) && Enabled(c, s, a) && a.FinishClose?
    ensures StacksInv(Step(c, s, a))
  {
    var next := SetGate(Move(s, a.t, Exiting), Closed(GateOf(s))).(lock := None);
    MovedFine(s, next, a.t, Exiting, RootsOf(s, a.t));
    StacksBroadcast(next);
    assert Step(c, s, a) == Broadcast(next);
  }

  lemma ReturnFine(c: Config, s: State, a: Action)
    requires StacksInv(s) && Enabled(c, s, a) && a.Return?
    ensures StacksInv(Step(c, s, a))
  {
    FineAt(s, a.t);
    StackPut(s, Step(c, s, a), a.t, Pop(StackOf(s, a.t)));
  }

  lemma StacksKept(c: Config, s: State, a: Action)
    requires StacksInv(s) && Enabled(c, s, a)
    ensures StacksInv(Step(c, s, a))
  {
    if MovesTop(a) {
      TopFine(c, s, a);
    } else if a.Call? {
      CallFine(s, a.t, a.todo);
    } else if a.CallClose? {
      CloseCallFine(s, a.t);
    } else if a.GiveBack? {
      GiveBackFine(s, a.t);
    } else if a.FinishClose? {
      FinishFine(c, s, a);
    } else if a.Return? {
      ReturnFine(c, s, a);
    } else {
      assert forall t :: StackOf(Step(c, s, a), t) == StackOf(s, t);
    }
  }

  // ----- Owners

  lemma TopKeeps(stack: Stack, root: Root)
    requires root in TopRoots(stack)
    ensures Keeps(stack, root)
  {
    assert root in stack[|stack| - 1].roots;
  }

  lemma KeepsSetTop(stack: Stack, frame: Frame, root: Root)
    requires Keeps(stack, root) && (root in TopRoots(stack) ==> root in frame.roots)
    ensures Keeps(SetTop(stack, frame), root)
  {
    var i :| 0 <= i < |stack| && root in stack[i].roots;
    assert root in SetTop(stack, frame)[i].roots;
  }

  lemma KeepsPush(stack: Stack, frame: Frame, root: Root)
    requires Keeps(stack, root)
    ensures Keeps(stack + [frame], root)
  {
    var i :| 0 <= i < |stack| && root in stack[i].roots;
    assert (stack + [frame])[i] == stack[i];
  }

  lemma KeepsPop(stack: Stack, root: Root)
    requires Keeps(stack, root) && TopRoots(stack) == {}
    ensures Keeps(Pop(stack), root)
  {
    var i :| 0 <= i < |stack| && root in stack[i].roots;
    assert Pop(stack)[i] == stack[i];
  }

  lemma KeepsWake(stack: Stack, root: Root)
    requires Keeps(stack, root)
    ensures Keeps(Wake(stack), root)
  {
    KeepsSetTop(stack, Frame(Woken(TopPc(stack)), TopRoots(stack)), root);
  }

  /** A running call that keeps what it had loses nobody's roots. */
  lemma TopMovedKeeps(s: State, next: State, t: Tid, u: Tid, root: Root)
    requires TopMoved(s, next, t) && (root in RootsOf(s, t) ==> root in RootsOf(next, t))
    requires Keeps(StackOf(s, u), root)
    ensures Keeps(StackOf(next, u), root)
  {
    if u == t {
      KeepsSetTop(StackOf(s, t), Frame(PcOf(next, t), RootsOf(next, t)), root);
    }
  }

  lemma GiveBackKeeps(s: State, t: Tid, u: Tid, root: Root)
    requires Keeps(StackOf(s, u), root)
    ensures Keeps(StackOf(DoGiveBack(s, t), u), root)
  {
    var next := SetGate(Move(s, t, Exiting), Leave(GateOf(s)).0);
    TopMovedKeeps(s, next, t, u, root);
    AtBroadcast(next, u);
    KeepsWake(StackOf(next, u), root);
  }

  lemma FinishKeeps(c: Config, s: State, a: Action, u: Tid, root: Root)
    requires Enabled(c, s, a) && a.FinishClose? && Keeps(StackOf(s, u), root)
    ensures Keeps(StackOf(Step(c, s, a), u), root)
  {
    var next := SetGate(Move(s, a.t, Exiting), Closed(GateOf(s))).(lock := None);
    TopMovedKeeps(s, next, a.t, u, root);
    AtBroadcast(next, u);
    KeepsWake(StackOf(next, u), root);
    assert Step(c, s, a) == Broadcast(next);
  }

  lemma CallKeeps(s: State, t: Tid, todo: Option<Mutation>, u: Tid, root: Root)
    requires Keeps(StackOf(s, u), root)
    ensures Keeps(StackOf(DoCall(s, t, todo), u), root)
  {
    if u == t {
      KeepsPush(StackOf(s, t), Frame(if Enter(GateOf(s)).1 then Borrowed(todo) else Exiting, CallerRoots(todo)), root);
    }
  }

  lemma CloseCallKeeps(s: State, t: Tid, u: Tid, root: Root)
    requires Keeps(StackOf(s, u), root)
    ensures Keeps(StackOf(DoCallClose(s, t), u), root)
  {
    if u == t {
      KeepsPush(StackOf(s, t), Frame(Awaiting(true), {}), root);
      KeepsPush(StackOf(s, t), Frame(Stopping, {}), root);
    }
  }

  lemma ReturnKeeps(c: Config, s: State, a: Action, u: Tid, root: Root)
    requires Enabled(c, s, a) && a.Return? && Keeps(StackOf(s, u), root)
    ensures Keeps(StackOf(Step(c, s, a), u), root)
  {
    if u == a.t {
      KeepsPop(StackOf(s, u), root);
    }
  }

  lemma TopStepKeeps(c: Config, s: State, a: Action, u: Tid, root: Root)
    requires Enabled(c, s, a) && MovesTop(a) && Keeps(StackOf(s, u), root) && !(a.Release? && a.root == root)
    ensures Keeps(StackOf(Step(c, s, a), u), root)
  {
    if ChangesTable(a) {
      TableMoves(c, s, a);
    } else if a.Release? {
      ReleaseMoves(c, s, a);
    } else {
      TopMoves(c, s, a);
    }
    TopMovedKeeps(s, Step(c, s, a), a.t, u, root);
  }

  lemma StackKeeps(c: Config, s: State, a: Action, u: Tid, root: Root)
    requires Enabled(c, s, a) && Keeps(StackOf(s, u), root) && !(a.Release? && a.root == root)
    ensures Keeps(StackOf(Step(c, s, a), u), root)
  {
    if MovesTop(a) {
      TopStepKeeps(c, s, a, u, root);
    } else if a.Call? {
      CallKeeps(s, a.t, a.todo, u, root);
    } else if a.CallClose? {
      CloseCallKeeps(s, a.t, u, root);
    } else if a.GiveBack? {
      GiveBackKeeps(s, a.t, u, root);
    } else if a.FinishClose? {
      FinishKeeps(c, s, a, u, root);
    } else if a.Return? {
      ReturnKeeps(c, s, a, u, root);
    } else {
      assert StackOf(Step(c, s, a), u) == StackOf(s, u);
    }
  }

  /** What leaves the table goes to the call that changed it, as the owner of the table promises. */
  lemma TableHandsOver(c: Config, s: State, a: Action, root: Root)
    requires Enabled(c, s, a) && ChangesTable(a) && root in Roots(s.table)
    ensures root in Roots(Step(c, s, a).table) || root in RootsOf(Step(c, s, a), a.t)
  {
    if a.Offer? {
    } else if a.CallReturns? {
    } else if a.ForgetOwner? {
    }
  }

  lemma ScopesKeepTable(c: Config, s: State, a: Action)
    requires Enabled(c, s, a) && (a.Call? || a.CallClose? || a.GiveBack? || a.FinishClose? || a.Return? || a.Evict?)
    ensures Step(c, s, a).table == s.table
  {
    if a.Call? {
    } else if a.CallClose? {
    } else if a.GiveBack? {
    } else if a.FinishClose? {
    }
  }

  lemma TableKept(c: Config, s: State, a: Action)
    requires Enabled(c, s, a) && !ChangesTable(a)
    ensures Step(c, s, a).table == s.table
  {
    if a.Release? {
      ReleaseMoves(c, s, a);
    } else if MovesTop(a) {
      TopMoves(c, s, a);
    } else {
      ScopesKeepTable(c, s, a);
    }
  }

  /** A root loses its last owner only when a call that leaves its scope lets go of it. */
  lemma DiesAtExit(c: Config, s: State, a: Action, root: Root)
    requires Enabled(c, s, a) && Owned(s, root) && !Owned(Step(c, s, a), root)
    ensures a.Release? && a.root == root && AtExit(PcOf(s, a.t))
  {
    if !(a.Release? && a.root == root) {
      if root in Roots(s.table) {
        if ChangesTable(a) {
          TableHandsOver(c, s, a, root);
          if root in RootsOf(Step(c, s, a), a.t) {
            TopKeeps(StackOf(Step(c, s, a), a.t), root);
          }
        } else {
          TableKept(c, s, a);
        }
      } else {
        var u :| Keeps(StackOf(s, u), root);
        StackKeeps(c, s, a, u, root);
      }
    }
  }

  /** A step is what its section does, and a deinit on top only after a release. */
  lemma DoIs(c: Config, s: State, a: Action)
    requires Enabled(c, s, a)
    ensures Do(c, s, a) == Step(c, s, a)
            || (a.Release? && Do(c, s, a) == Push(Step(c, s, a), a.t, Frame(Finalizing, {}))
                && AtExit(PcOf(Step(c, s, a), a.t)))
  {
    var next := Step(c, s, a);
    if !a.Evict? && Dies(s, next) {
      var root :| Owned(s, root) && !Owned(next, root);
      DiesAtExit(c, s, a, root);
      ReleaseMoves(c, s, a);
    }
  }
}
