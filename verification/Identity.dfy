/**
 Message identities: an id is the caller's source text, a fixed infix and a
 counter in decimal. Sources are arbitrary, so one may itself end like an id;
 ids stay distinct because the digits after the last dash give the counter back.
 Text is its UTF-8 bytes.
 */
module Identity {
  import opened Wrappers
  import opened Wire

  const INT32_MAX: nat := 0x7fff_ffff
  const UINT64_MAX: nat := 0xffff_ffff_ffff_ffff

  const DASH: Byte := 45
  const INFIX: Bytes := [DASH, 115, 119, 105, 102, 116, DASH] // "-swift-"

  datatype Refusal = InvalidArgument | ResourceLimit | Closed | ContractViolation

  /** Text that crosses the C boundary whole. */
  predicate CString(s: Bytes) {
    0 !in s && |s| <= INT32_MAX
  }

  // ----- Decimal numerals

  function Digit(d: nat): Byte
    requires d < 10
  {
    48 + d
  }

  function Decimal(n: nat): Bytes {
    if n < 10 then [Digit(n)] else Decimal(n / 10) + [Digit(n % 10)]
  }

  function Value(s: Bytes): int {
    if s == [] then 0 else 10 * Value(s[..|s| - 1]) - 48 + s[|s| - 1]
  }

  /** A numeral is read back as its number, and has no dash. */
  lemma {:induction false} DecimalRoundTrip(n: nat)
    ensures Value(Decimal(n)) == n && DASH !in Decimal(n)
  {
    if n < 10 {
      assert Decimal(n)[..0] == [];
    } else {
      DecimalRoundTrip(n / 10);
      assert Decimal(n)[..|Decimal(n)| - 1] == Decimal(n / 10);
    }
  }

  // ----- Ids

  function Id(source: Bytes, n: nat): Bytes {
    source + INFIX + Decimal(n)
  }

  /** What follows the last dash. */
  function Suffix(s: Bytes): Bytes {
    if s == [] || s[|s| - 1] == DASH then [] else Suffix(s[..|s| - 1]) + [s[|s| - 1]]
  }

  lemma {:induction false} SuffixAfterDash(front: Bytes, tail: Bytes)
    requires front != [] && front[|front| - 1] == DASH && DASH !in tail
    ensures Suffix(front + tail) == tail
    decreases |tail|
  {
    if tail == [] {
      assert front + tail == front;
    } else {
      var s, shorter := front + tail, tail[..|tail| - 1];
      assert s[..|s| - 1] == front + shorter;
      SuffixAfterDash(front, shorter);
    }
  }

  /** The counter is recoverable from an id, whatever its source. */
  lemma CounterRecovered(source: Bytes, n: nat)
    ensures Value(Suffix(Id(source, n))) == n
  {
    DecimalRoundTrip(n);
    SuffixAfterDash(source + INFIX, Decimal(n));
  }

  lemma SameFront(a: Bytes, b: Bytes, tail: Bytes)
    requires a + tail == b + tail
    ensures a == b
  {
    assert |a| == |b|;
    assert a == (a + tail)[..|a|];
    assert b == (b + tail)[..|b|];
  }

  /** An id determines both its source and its counter. */
  lemma IdInjective(a: Bytes, m: nat, b: Bytes, n: nat)
    ensures Id(a, m) == Id(b, n) <==> a == b && m == n
  {
    CounterRecovered(a, m);
    CounterRecovered(b, n);
    if Id(a, m) == Id(b, n) {
      SameFront(a + INFIX, b + INFIX, Decimal(n));
      SameFront(a, b, INFIX);
    }
  }

  // ----- The counter of one host

  /** The ids a host gives out for requests from these sources in turn. */
  function Ids(sources: seq<Bytes>): (ids: seq<Bytes>)
    ensures |ids| == |sources|
  {
    if sources == [] then [] else Ids(sources[..|sources| - 1]) + [Id(sources[|sources| - 1], |sources|)]
  }

  lemma {:induction false} IdAt(sources: seq<Bytes>, i: nat)
    requires i < |sources|
    ensures Ids(sources)[i] == Id(sources[i], i + 1)
    decreases |sources|
  {
    if i < |sources| - 1 {
      IdAt(sources[..|sources| - 1], i);
    }
  }

  /** No two requests of a host have the same id, over any run and for any sources. */
  lemma IdsDistinct(sources: seq<Bytes>, i: nat, j: nat)
    requires i < j < |sources|
    ensures Ids(sources)[i] != Ids(sources)[j]
  {
    IdAt(sources, i);
    IdAt(sources, j);
    IdInjective(sources[i], i + 1, sources[j], j + 1);
  }

  class MessageIds {
    var nextID: nat
    ghost var sources: seq<Bytes>   // of the requests that were given an id

    ghost predicate Valid()
      reads this
    {
      nextID == |sources| <= UINT64_MAX
    }

    constructor ()
      ensures Valid() && sources == []
    {
      nextID, sources := 0, [];
    }

    /** Gives a request its id; a refusal consumes none, and the counter never wraps. */
    method Next(source: Bytes, target: Bytes) returns (r: Result<Bytes, Refusal>)
      requires Valid()
      modifies this
      ensures Valid()
      ensures r.Ok? <==>
                && 0 !in source && |source| <= 0x7fff_ffff && 0 !in target && |target| <= 0x7fff_ffff
                && |old(sources)| < 0xffff_ffff_ffff_ffff
      ensures r.Ok? ==> source <= r.value && Value(Suffix(r.value)) == |sources|
      ensures r.Ok? ==> sources == old(sources) + [source] && Ids(sources) == Ids(old(sources)) + [r.value]
      ensures r.Err? ==> sources == old(sources)
      ensures r == Err(InvalidArgument) <==> !CString(source) || !CString(target)
    {
      if 0 in source || |source| > INT32_MAX {
        return Err(InvalidArgument);
      }
      if 0 in target || |target| > INT32_MAX {
        return Err(InvalidArgument);
      }
      if nextID >= UINT64_MAX {
        return Err(ResourceLimit);
      }
      nextID := nextID + 1;
      sources := sources + [source];
      assert sources[..|sources| - 1] == old(sources);
      CounterRecovered(source, nextID);
      r := Ok(source + INFIX + Decimal(nextID));
    }
  }
}
