/**
 Request dispatch of a host: the append-only handler registry with its budget,
 and the one-entry projection of the last dispatched target. Text is its UTF-8
 bytes; `canon` is the canonical form under which strings are equal as keys.
 */
module Dispatch {
  import opened Wrappers
  import opened Wire
  import opened Identity

  const MAX_HANDLERS: nat := 256
  const REGISTRATION_BUDGET: nat := 64 * 1024
  const MAX_PROJECTED: nat := 256

  /** What the text library decides. */
  datatype Texts = Texts(utf8: Bytes -> bool, canon: Bytes -> Bytes)

  /** Handlers are opaque callbacks. */
  type Handler = nat

  type Handlers = map<Bytes, Handler>

  datatype Registration = Registration(target: Bytes, handler: Handler, sessionOpen: bool)

  datatype Projection = Projection(target: Bytes, handler: Handler)

  /** A dispatched target and the handler bound to it, if any. */
  type Answer = Result<(Bytes, Option<Handler>), Refusal>

  // ----- What dispatch means

  function Bound(texts: Texts, handlers: Handlers, target: Bytes): Option<Handler> {
    if texts.canon(target) in handlers then Some(handlers[texts.canon(target)]) else None
  }

  /** Decodes the span Core handed out and looks its target up; there is no cache. */
  function Lookup(texts: Texts, handlers: Handlers, span: Option<Bytes>): Answer {
    if span.None? || span.value == [] || !texts.utf8(span.value) then Err(ContractViolation)
    else Ok((span.value, Bound(texts, handlers, span.value)))
  }

  // ----- What registration means

  function TotalSize(targets: seq<Bytes>): nat {
    if targets == [] then 0 else TotalSize(targets[..|targets| - 1]) + |targets[|targets| - 1]|
  }

  /** Every binding of `a` is a binding of `b`. */
  predicate Extends(a: Handlers, b: Handlers) {
    a.Keys <= b.Keys && forall k :: k in a ==> b[k] == a[k]
  }

  /** Bindings only ever appear: a target that is bound stays bound to the same handler. */
  lemma BoundStays(texts: Texts, a: Handlers, b: Handlers, target: Bytes)
    requires Extends(a, b) && Bound(texts, a, target).Some?
    ensures Bound(texts, b, target) == Bound(texts, a, target)
  {
  }

  /** Why a registration is refused, in the order in which the host finds out. */
  function Objection(texts: Texts, handlers: Handlers, bytes: int, g: Registration): Option<Refusal> {
    if !CString(g.target) || g.target == [] then Some(InvalidArgument)
    else if !g.sessionOpen then Some(Closed)
    else if texts.canon(g.target) in handlers then Some(InvalidArgument)
    else if |handlers| >= MAX_HANDLERS || |g.target| > REGISTRATION_BUDGET - bytes then Some(ResourceLimit)
    else None
  }

  function Keys(texts: Texts, targets: seq<Bytes>): set<Bytes> {
    if targets == [] then {}
    else Keys(texts, targets[..|targets| - 1]) + {texts.canon(targets[|targets| - 1])}
  }

  /** The registry binds exactly the registered targets, each to a key of its own, and has charged their bytes to its budget. */
  predicate Registered(texts: Texts, handlers: Handlers, bytes: int, targets: seq<Bytes>) {
    && handlers.Keys == Keys(texts, targets)
    && |handlers| == |targets| <= MAX_HANDLERS
    && bytes == TotalSize(targets) <= REGISTRATION_BUDGET
  }

  /** A target has a handler exactly if it, or a spelling equal to it, was registered. */
  lemma {:induction false} KeysAre(texts: Texts, targets: seq<Bytes>, k: Bytes)
    ensures k in Keys(texts, targets) <==> exists i :: 0 <= i < |targets| && texts.canon(targets[i]) == k
    decreases |targets|
  {
    if targets != [] {
      var init := targets[..|targets| - 1];
      KeysAre(texts, init, k);
      if i :| 0 <= i < |targets| && texts.canon(targets[i]) == k {
        assert i < |init| ==> init[i] == targets[i];
      }
      if j :| 0 <= j < |init| && texts.canon(init[j]) == k {
        assert targets[j] == init[j];
      }
      assert k == texts.canon(targets[|targets| - 1]) ==> exists i :: 0 <= i < |targets| && texts.canon(targets[i]) == k;
    }
  }

  /** Dispatch finds a handler for exactly the registered targets. */
  lemma RegisteredFound(texts: Texts, handlers: Handlers, bytes: int, targets: seq<Bytes>, target: Bytes)
    requires Registered(texts, handlers, bytes, targets) && target != [] && texts.utf8(target)
    ensures var answer := Lookup(texts, handlers, Some(target));
            && answer.Ok? && answer.value.0 == target
            && (answer.value.1.Some? <==> exists i :: 0 <= i < |targets| && texts.canon(targets[i]) == texts.canon(target))
  {
    KeysAre(texts, targets, texts.canon(target));
  }

  lemma RegisteredMore(texts: Texts, handlers: Handlers, bytes: int, targets: seq<Bytes>, target: Bytes, handler: Handler)
    requires Registered(texts, handlers, bytes, targets)
    requires texts.canon(target) !in handlers && |handlers| < MAX_HANDLERS && |target| <= REGISTRATION_BUDGET - bytes
    ensures Registered(texts, handlers[texts.canon(target) := handler], bytes + |target|, targets + [target])
  {
    var more, k := targets + [target], texts.canon(target);
    assert more[..|more| - 1] == targets;
    assert handlers[k := handler].Keys == handlers.Keys + {k};
  }

  // ----- What the projection means

  /** A projection is what decoding its bytes and looking them up would give. */
  predicate Projected(texts: Texts, p: Option<Projection>, handlers: Handlers) {
    p.Some? ==>
      && 0 < |p.value.target| <= MAX_PROJECTED
      && Lookup(texts, handlers, Some(p.value.target)) == Ok((p.value.target, Some(p.value.handler)))
  }

  /** Only hits may be cached: later registrations leave a hit what it was. */
  lemma ProjectedStays(texts: Texts, p: Option<Projection>, a: Handlers, b: Handlers)
    requires Projected(texts, p, a) && Extends(a, b)
    ensures Projected(texts, p, b)
  {
    if p.Some? {
      BoundStays(texts, a, b, p.value.target);
    }
  }

  // ----- The host's registry and projection

  class HandlerRegistry {
    const texts: Texts
    var handlers: Handlers
    var registrationBytes: int
    var dispatchProjection: Option<Projection>
    ghost var targets: seq<Bytes>   // as registered, in order

    ghost predicate Valid()
      reads this
    {
      && Registered(texts, handlers, registrationBytes, targets)
      && Projected(texts, dispatchProjection, handlers)
    }

    constructor (texts: Texts)
      ensures Valid() && handlers == map[] && targets == [] && this.texts == texts
    {
      this.texts := texts;
      handlers, registrationBytes, dispatchProjection, targets := map[], 0, None, [];
    }

    /** Binds a handler to a new target, within the budget, while the session is open. */
    method Register(g: Registration) returns (r: Option<Refusal>)
      requires Valid()
      modifies `handlers, `registrationBytes, `targets
      ensures Valid() && Extends(old(handlers), handlers)
      ensures r == Objection(texts, old(handlers), TotalSize(old(targets)), g)
      ensures r.None? <==>
                && 0 !in g.target && 0 < |g.target| <= 0x7fff_ffff && g.sessionOpen
                && texts.canon(g.target) !in old(handlers)
                && |old(targets)| < 256 && TotalSize(old(targets)) + |g.target| <= 65536
      ensures r == Some(Closed) <==> 0 !in g.target && 0 < |g.target| <= 0x7fff_ffff && !g.sessionOpen
      ensures r == Some(ResourceLimit) <==>
                && 0 !in g.target && 0 < |g.target| <= 0x7fff_ffff && g.sessionOpen
                && texts.canon(g.target) !in old(handlers)
                && !(|old(targets)| < 256 && TotalSize(old(targets)) + |g.target| <= 65536)
      ensures r.Some? ==> r.value in {InvalidArgument, Closed, ResourceLimit}
      ensures r.Some? ==> handlers == old(handlers) && targets == old(targets)
      ensures r.None? ==> targets == old(targets) + [g.target] && handlers == old(handlers)[texts.canon(g.target) := g.handler]
    {
      if 0 in g.target || |g.target| > INT32_MAX {
        return Some(InvalidArgument);
      }
      if g.target == [] {
        return Some(InvalidArgument);
      }
      if !g.sessionOpen {
        return Some(Closed);
      }
      var key := texts.canon(g.target);
      if key in handlers {
        return Some(InvalidArgument);
      }
      var size := |g.target|;
      if |handlers| >= MAX_HANDLERS || size > REGISTRATION_BUDGET - registrationBytes {
        return Some(ResourceLimit);
      }
      RegisteredMore(texts, handlers, registrationBytes, targets, g.target, g.handler);
      ProjectedStays(texts, dispatchProjection, handlers, handlers[key := g.handler]);
      handlers := handlers[key := g.handler];
      registrationBytes := registrationBytes + size;
      targets := targets + [g.target];
      r := None;
    }

    /** Registrations by other threads, one after the other. */
    method RegisterAll(gs: seq<Registration>)
      requires Valid()
      modifies `handlers, `registrationBytes, `targets
      ensures Valid() && Extends(old(handlers), handlers)
    {
      var i := 0;
      while i < |gs|
        invariant 0 <= i <= |gs| && Valid() && Extends(old(handlers), handlers)
      {
        var r := Register(gs[i]);
        i := i + 1;
      }
    }

    /**
     Projects a dispatched target. Other threads may register `before` the lookup
     takes the lock and `after` it gives the lock back, which is when a hit is
     remembered. The answer is the plain lookup of that moment, and what is
     remembered stays the plain lookup's answer from then on.
     */
    method ProjectDispatchTarget(span: Option<Bytes>, before: seq<Registration>, after: seq<Registration>)
      returns (r: Answer, ghost seen: Handlers)
      requires Valid()
      modifies this
      ensures Valid()
      ensures Extends(old(handlers), seen) && Extends(seen, handlers)
      ensures r == Lookup(texts, seen, span)
      ensures r.Err? <==> span.None? || span.value == [] || !texts.utf8(span.value)
      ensures r.Err? ==> r == Err(ContractViolation)
      ensures r.Ok? ==>
                && r.value.0 == span.value
                && (r.value.1.Some? <==> texts.canon(span.value) in seen)
                && (r.value.1.Some? ==> r.value.1.value == seen[texts.canon(span.value)])
      ensures dispatchProjection ==
              if r.Ok? && r.value.1.Some? && |r.value.0| <= MAX_PROJECTED
              then Some(Projection(r.value.0, r.value.1.value))
              else old(dispatchProjection)
    {
      seen := handlers;
      if span.None? || span.value == [] {
        return Err(ContractViolation), seen;
      }
      var bytes := span.value;
      if dispatchProjection.Some? && dispatchProjection.value.target == bytes {
        var cached := dispatchProjection.value;
        return Ok((cached.target, Some(cached.handler))), seen;
      }
      if !texts.utf8(bytes) {
        return Err(ContractViolation), seen;
      }
      RegisterAll(before);
      var key := texts.canon(bytes);
      var handler := if key in handlers then Some(handlers[key]) else None;
      seen := handlers;
      RegisterAll(after);
      if |bytes| <= MAX_PROJECTED && handler.Some? {
        dispatchProjection := Some(Projection(bytes, handler.value));
      }
      r := Ok((bytes, handler));
    }
  }
}
