/** A lane's own fields and what its critical sections make of them. */
module LaneGate {

  /** Whether the native lane exists, whether admission is sealed, and how many calls are inside. */
  datatype Gate = Gate(open: bool, closing: bool, activeCalls: int)

  const OPENED := Gate(true, false, 0)

  datatype CloseStep = AlreadyClosed | AnotherCloses | Seals

  /** A call enters only an open lane that nobody closes. */
  function Enter(g: Gate): (Gate, bool) {
    if g.closing || !g.open then (g, false)
    else (g.(activeCalls := g.activeCalls + 1), true)
  }

  /** The last call to leave signals the condition. */
  function Leave(g: Gate): (Gate, bool) {
    (g.(activeCalls := g.activeCalls - 1), g.activeCalls == 1)
  }

  /** A close returns, waits for the thread that closes, or seals admission. */
  function BeginClose(g: Gate): (Gate, CloseStep) {
    if !g.open then (g, AlreadyClosed)
    else if g.closing then (g, AnotherCloses)
    else (g.(closing := true), Seals)
  }

  function Closed(g: Gate): Gate {
    g.(open := false)
  }
}
