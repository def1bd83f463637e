/**
 The cursor-based reader of Sources/CoAkkaRuntime/RuntimeEnvelopeCodec.swift,
 in the source's imperative form and in 64-bit arithmetic, proved to compute
 the functions of Wire.dfy, error cases included.
 */
module WireReader {
  import opened Wrappers
  import opened Wire

  // ----- The 64-bit operators of the varint loop

  function Pow2(n: nat): (p: nat)
    ensures p > 0
  {
    if n == 0 then 1 else 2 * Pow2(n - 1)
  }

  /** `x << s` on UInt64: bits shifted past the top are lost. */
  function ShiftLeft(x: nat, s: nat): nat {
    x * Pow2(s) % UINT64_SPAN
  }

  function BitOr(a: nat, b: nat): nat
    decreases a + b
  {
    if a == 0 then b
    else if b == 0 then a
    else (if a % 2 + b % 2 > 0 then 1 else 0) + 2 * BitOr(a / 2, b / 2)
  }

  /** Or-ing a number in above the bits already set adds it. */
  lemma {:induction false} BitOrAbove(a: nat, b: nat, s: nat)
    requires a < Pow2(s)
    ensures BitOr(a, b * Pow2(s)) == a + b * Pow2(s)
  {
    if s > 0 && a > 0 && b > 0 {
      var half := b * Pow2(s - 1);
      assert b * Pow2(s) == 2 * half;
      BitOrAbove(a / 2, b, s - 1);
      assert 2 * half / 2 == half;
    }
  }

  lemma {:induction false} Pow2Sum(m: nat, n: nat)
    ensures Pow2(m + n) == Pow2(m) * Pow2(n)
  {
    if n > 0 {
      Pow2Sum(m, n - 1);
    }
  }

  lemma Pow2Values()
    ensures Pow2(7) == 128
    ensures Pow2(63) == INT_SPAN
    ensures Pow2(64) == UINT64_SPAN
  {
    assert Pow2(7) == 128;
    assert Pow2(14) == 16384 by { Pow2Sum(7, 7); }
    assert Pow2(28) == 268435456 by { Pow2Sum(14, 14); }
    assert Pow2(56) == 72057594037927936 by { Pow2Sum(28, 28); }
    Pow2Sum(56, 7);
    Pow2Sum(63, 1);
  }

  lemma {:induction false} Pow2Monotone(m: nat, n: nat)
    requires m <= n
    ensures Pow2(m) <= Pow2(n)
  {
    if m < n {
      Pow2Monotone(m, n - 1);
    }
  }

  /** Nine 7-bit groups and a tenth of at most one bit fit in 64 bits: shifting loses nothing. */
  lemma GroupFits(group: nat, k: nat)
    requires group < 128 && k < MAX_VARINT_BYTES
    requires k == 9 ==> group <= 1
    ensures ShiftLeft(group, 7 * k) == group * Pow2(7 * k)
    ensures group * Pow2(7 * k) + Pow2(7 * k) <= Pow2(Width(k + 1))
  {
    Pow2Values();
    if k == 9 {
      LastGroupFits(group);
    } else {
      var weight := Pow2(7 * k);
      Pow2Sum(7 * k, 7);
      assert 7 * k + 7 == Width(k + 1);
      MulBound(group, weight);
      Pow2Monotone(7 * (k + 1), 63);
    }
  }

  lemma LastGroupFits(group: nat)
    requires group <= 1
    ensures ShiftLeft(group, 63) == group * Pow2(63)
    ensures group * Pow2(63) + Pow2(63) <= Pow2(64)
  {
    Pow2Values();
    if group == 0 {
      assert group * Pow2(63) == 0;
    }
  }

  lemma MulBound(group: nat, weight: nat)
    requires group < 128
    ensures group * weight + weight <= 128 * weight
  {
    assert (group + 1) * weight <= 128 * weight;
  }

  /** The bits a varint of `k` bytes can carry. */
  function Width(k: nat): nat {
    if k >= MAX_VARINT_BYTES then 64 else 7 * k
  }

  lemma {:induction false} GroupSumSnoc(s: Bytes, b: Byte)
    ensures GroupSum(s + [b]) == GroupSum(s) + b % 128 * Pow2(7 * |s|)
  {
    if s == [] {
      assert [b][1..] == [];
      assert s + [b] == [b] && Pow2(0) == 1;
    } else {
      assert (s + [b])[1..] == s[1..] + [b];
      GroupSumSnoc(s[1..], b);
      Pow2Values();
      Pow2Sum(7 * |s[1..]|, 7);
      assert 7 * |s| == 7 * |s[1..]| + 7;
      MulShift(b % 128, Pow2(7 * |s[1..]|));
    }
  }

  lemma MulShift(x: nat, y: nat)
    ensures x * (128 * y) == 128 * (x * y) && x * (y * 128) == 128 * (x * y)
  {
  }

  /** What the next byte of a varint adds to the value read so far. */
  lemma GroupStep(s: Bytes, k: nat, value: nat)
    requires k < |s| && k < MAX_VARINT_BYTES && (k == 9 ==> s[k] <= 1)
    requires value == GroupSum(s[..k]) < Pow2(7 * k)
    ensures BitOr(value, ShiftLeft(s[k] % 128, 7 * k)) == GroupSum(s[..k + 1])
    ensures GroupSum(s[..k + 1]) < Pow2(Width(k + 1))
  {
    GroupFits(s[k] % 128, k);
    BitOrAbove(value, s[k] % 128, 7 * k);
    assert s[..k + 1] == s[..k] + [s[k]];
    GroupSumSnoc(s[..k], s[k]);
  }

  lemma {:induction false} RunReaches(s: Bytes, k: nat)
    requires k <= |s| && forall i :: 0 <= i < k ==> s[i] >= 128
    ensures ContinuationRun(s) >= k
  {
    if k > 0 {
      RunReaches(s[1..], k - 1);
    }
  }

  lemma {:induction false} RunMeaning(s: Bytes)
    ensures forall i :: 0 <= i < ContinuationRun(s) ==> s[i] >= 128
    ensures ContinuationRun(s) < |s| ==> s[ContinuationRun(s)] < 128
  {
    if s != [] && s[0] >= 128 {
      RunMeaning(s[1..]);
      forall i | 0 <= i < ContinuationRun(s)
        ensures s[i] >= 128
      {
        assert i == 0 || s[i] == s[1..][i - 1];
      }
    }
  }

  lemma TailSlice(s: Bytes, start: nat, lo: nat, hi: nat)
    requires start <= lo <= hi <= |s|
    ensures s[start..][lo - start..hi - start] == s[lo..hi]
  {
  }

  datatype Tag = Tag(number: nat, wire: nat)

  class FieldReader {
    const bytes: Bytes
    var offset: nat

    constructor (data: Bytes)
      ensures bytes == data && offset == 0
    {
      bytes := data;
      offset := 0;
    }

    ghost predicate Valid()
      reads this
    {
      offset <= |bytes|
    }

    ghost function Rest(): Bytes
      reads this
      requires Valid()
    {
      bytes[offset..]
    }

    /** The state after a read that the specification answers with `r`. */
    ghost predicate Advanced<T>(before: nat, spec: Result<Read<T>, Error>, r: Result<T, Error>)
      reads this
      requires before <= |bytes|
    {
      match spec
      case Ok(v) => r == Ok(v.value) && offset == before + v.size
      case Err(e) => r == Err(e)
    }

    method ReadVarintRaw() returns (r: Result<nat, Error>)
      requires Valid()
      modifies `offset
      ensures Valid() && offset >= old(offset)
      ensures Advanced(old(offset), RawVarint(old(Rest())), r)
      ensures r.Ok? ==> r.value < UINT64_SPAN
    {
      ghost var s := Rest();
      ghost var start := offset;
      RunMeaning(s);
      var result, shift := 0, 0;
      Pow2Values();
      while offset < |bytes|
        invariant start <= offset <= |bytes| && s == bytes[start..]
        invariant offset - start <= 9 && shift == 7 * (offset - start)
        invariant result == GroupSum(s[..offset - start]) < Pow2(shift)
        invariant forall i :: 0 <= i < offset - start ==> s[i] >= 128
      {
        ghost var k := offset - start;
        var byte := bytes[offset];
        assert byte == s[k];
        RunReaches(s, k);
        offset := offset + 1;
        if shift == 63 && byte > 1 {
          return Err(TooLarge);
        }
        GroupStep(s, k, result);
        result := BitOr(result, ShiftLeft(byte % 128, shift));
        if byte < 128 {
          assert ContinuationRun(s) == k;
          Pow2Monotone(Width(k + 1), 64);
          return Ok(result);
        }
        shift := shift + 7;
        if shift >= 64 {
          // The source throws here; the tenth byte's guard has already refused.
          assert false;
        }
      }
      RunReaches(s, offset - start);
      r := Err(TruncatedField);
    }

    method NextTag() returns (r: Result<Option<Tag>, Error>)
      requires Valid()
      modifies `offset
      ensures Valid() && offset >= old(offset)
      ensures TagOf(old(Rest()), r, Rest())
      ensures r.Ok? && r.value.Some? ==> offset > old(offset)
    {
      ghost var start := offset;
      if offset >= |bytes| {
        return Ok(None);
      }
      var value := ReadVarintRaw();
      match value
      case Err(e) => r := Err(e);
      case Ok(v) =>
        if v / 8 == 0 {
          r := Err(InvalidTag);
        } else {
          r := Ok(Some(Tag(v / 8, v % 8)));
          assert bytes[start..][offset - start..] == bytes[offset..];
        }
    }

    method ReadVarint(expected: nat) returns (r: Result<nat, Error>)
      requires Valid()
      modifies `offset
      ensures Valid() && offset >= old(offset)
      ensures expected != WIRE_VARINT ==> r == Err(UnexpectedType(expected))
      ensures expected == WIRE_VARINT ==> Advanced(old(offset), RawVarint(old(Rest())), r)
    {
      if expected != WIRE_VARINT {
        return Err(UnexpectedType(expected));
      }
      r := ReadVarintRaw();
    }

    method ReadBytes(expected: nat) returns (r: Result<Bytes, Error>)
      requires Valid()
      modifies `offset
      ensures Valid() && offset >= old(offset)
      ensures expected != WIRE_BYTES ==> r == Err(UnexpectedType(expected))
      ensures expected == WIRE_BYTES ==> Advanced(old(offset), LengthDelimited(old(Rest())), r)
    {
      if expected != WIRE_BYTES {
        return Err(UnexpectedType(expected));
      }
      ghost var s, start := Rest(), offset;
      var length := ReadVarintRaw();
      match length
      case Err(e) => r := Err(e);
      case Ok(n) =>
        if n >= INT_SPAN || n > |bytes| - offset {
          return Err(TruncatedField);
        }
        TailSlice(bytes, start, offset, offset + n);
        r := Ok(bytes[offset..offset + n]);
        offset := offset + n;
    }

    method ReadString(expected: nat, utf8: Bytes -> bool) returns (r: Result<Bytes, Error>)
      requires Valid()
      modifies `offset
      ensures Valid() && offset >= old(offset)
      ensures expected != WIRE_BYTES ==> r == Err(UnexpectedType(expected))
      ensures expected == WIRE_BYTES ==>
                match LengthDelimited(old(Rest()))
                case Err(e) => r == Err(e)
                case Ok(p) =>
                  if !utf8(p.value) then r == Err(InvalidUtf8)
                  else r == Ok(p.value) && offset == old(offset) + p.size
    {
      r := ReadBytes(expected);
      if r.Ok? && !utf8(r.value) {
        r := Err(InvalidUtf8);
      }
    }

    /** Skips a field no message names. */
    method Skip(wire: nat, ghost number: nat) returns (r: Result<(), Error>)
      requires Valid()
      modifies `offset
      ensures Valid() && offset >= old(offset)
      ensures match SkippedBody(number, wire, old(Rest()))
              case Err(e) => r == Err(e)
              case Ok(v) => r == Ok(()) && offset == old(offset) + v.size
    {
      r := Ok(());
      if wire == WIRE_VARINT {
        var v := ReadVarintRaw();
        if v.Err? {
          r := Err(v.error);
        }
      } else if wire == WIRE_BYTES {
        var p := ReadBytes(wire);
        if p.Err? {
          r := Err(p.error);
        }
      } else if wire == WIRE_FIXED64 || wire == WIRE_FIXED32 {
        var size := if wire == WIRE_FIXED64 then 8 else 4;
        if size > |bytes| - offset {
          return Err(TruncatedFixed);
        }
        offset := offset + size;
      } else {
        r := Err(UnsupportedType(wire));
      }
    }
  }

  // ----- The decoding loops

  /**
   Where a decoding loop stands: the fields `seen` are behind the cursor, the
   tag `tag` has just been read and `rest` lies ahead of it.
   */
  ghost predicate TagRead(schema: Schema, data: Bytes, seen: seq<Field>, tag: Result<Option<Tag>, Error>, rest: Bytes) {
    match tag
    case Err(e) => Fields(schema, data) == Err(e)
    case Ok(None) => Fields(schema, data) == Ok(seen)
    case Ok(Some(t)) =>
      match FieldBody(schema, t.number, t.wire, rest)
      case Err(e) => Fields(schema, data) == Err(e)
      case Ok(f) => Fields(schema, data) == Prepend(seen + [f.value], Fields(schema, rest[f.size..]))
  }

  /** What `NextTag` answers in front of the bytes `s`. */
  ghost predicate TagOf(s: Bytes, tag: Result<Option<Tag>, Error>, rest: Bytes) {
    if s == [] then tag == Ok(None)
    else
      match RawVarint(s)
      case Err(e) => tag == Err(e)
      case Ok(v) =>
        if v.value / 8 == 0 then tag == Err(InvalidTag)
        else tag == Ok(Some(Tag(v.value / 8, v.value % 8))) && rest == s[v.size..]
  }

  lemma TagStep(schema: Schema, data: Bytes, seen: seq<Field>, s: Bytes, tag: Result<Option<Tag>, Error>, rest: Bytes)
    requires Fields(schema, data) == Prepend(seen, Fields(schema, s))
    requires TagOf(s, tag, rest)
    ensures TagRead(schema, data, seen, tag, rest)
  {
    if s == [] {
      assert seen + [] == seen;
    } else {
      var first := FirstField(schema, s);
      match first
      case Err(e) =>
        assert Fields(schema, s) == Err(e);
        assert Fields(schema, data) == Err(e);
      case Ok(f) =>
        var after := Fields(schema, s[f.size..]);
        assert Fields(schema, s) == Prepend([f.value], after);
        PrependTwice(seen, [f.value], after);
        BodyOfFirst(schema, s, rest);
    }
  }

  /** A field that was read is a tag followed by its body. */
  lemma BodyOfFirst(schema: Schema, s: Bytes, rest: Bytes)
    requires FirstField(schema, s).Ok? && RawVarint(s).Ok? && rest == s[RawVarint(s).value.size..]
    ensures var v, f := RawVarint(s).value, FirstField(schema, s).value;
            var body := FieldBody(schema, v.value / 8, v.value % 8, rest);
            body.Ok? && body.value.value == f.value && rest[body.value.size..] == s[f.size..]
  {
  }

  lemma PrependTwice(a: seq<Field>, b: seq<Field>, r: Result<seq<Field>, Error>)
    ensures Prepend(a, Prepend(b, r)) == Prepend(a + b, r)
  {
    if r.Ok? {
      assert a + (b + r.value) == (a + b) + r.value;
    }
  }

  lemma TagStart(schema: Schema, data: Bytes, tag: Result<Option<Tag>, Error>, rest: Bytes)
    requires TagOf(data, tag, rest)
    ensures TagRead(schema, data, [], tag, rest)
  {
    assert Fields(schema, data) == Prepend([], Fields(schema, data)) by {
      match Fields(schema, data)
      case Err(_) =>
      case Ok(fs) => assert [] + fs == fs;
    }
    TagStep(schema, data, [], data, tag, rest);
  }

  lemma LastSnoc(fs: seq<Field>, f: Field, number: nat)
    ensures LastPayload(fs + [f], number)
         == if f.Delimited? && f.number == number then f.payload else LastPayload(fs, number)
    ensures LastVarint(fs + [f], number)
         == if f.Varint? && f.number == number then f.value else LastVarint(fs, number)
  {
    assert (fs + [f])[..|fs|] == fs;
  }

  lemma EnvelopeSnoc(fs: seq<Field>, f: Field)
    ensures EnvelopeOf(fs + [f]) == Assigned(EnvelopeOf(fs), f)
  {
    LastSnoc(fs, f, 1);
    LastSnoc(fs, f, 2);
    LastSnoc(fs, f, 3);
    LastSnoc(fs, f, 4);
    LastSnoc(fs, f, 6);
    LastSnoc(fs, f, 7);
    LastSnoc(fs, f, 9);
  }

  /** The envelope after assigning one more field to it. */
  function Assigned(e: Envelope, f: Field): Envelope {
    match f
    case Fixed(_, _) => e
    case Varint(number, value) =>
      if number == 6 then e.(kind := value) else if number == 7 then e.(oneWay := value != 0) else e
    case Delimited(number, payload) =>
      if number == 1 then e.(messageID := payload)
      else if number == 2 then e.(correlationID := payload)
      else if number == 3 then e.(source := payload)
      else if number == 4 then e.(target := payload)
      else if number == 9 then e.(payload := payload)
      else e
  }

  /** The switch of the decoding loop: one field body, assigned to the envelope. */
  method ReadEnvelopeField(reader: FieldReader, tag: Tag, envelope: Envelope, utf8: Bytes -> bool)
    returns (r: Result<Envelope, Error>)
    requires reader.Valid()
    modifies reader`offset
    ensures reader.Valid() && reader.offset >= old(reader.offset)
    ensures match FieldBody(EnvelopeSchema(utf8), tag.number, tag.wire, old(reader.Rest()))
            case Err(e) => r == Err(e)
            case Ok(f) => r == Ok(Assigned(envelope, f.value)) && reader.offset == old(reader.offset) + f.size
  {
    var number := tag.number;
    if 1 <= number <= 4 {
      var text := reader.ReadString(tag.wire, utf8);
      match text
      case Err(e) => r := Err(e);
      case Ok(b) =>
        r := Ok(
          if number == 1 then envelope.(messageID := b)
          else if number == 2 then envelope.(correlationID := b)
          else if number == 3 then envelope.(source := b)
          else envelope.(target := b));
    } else if number == 6 || number == 7 {
      var v := reader.ReadVarint(tag.wire);
      match v
      case Err(e) => r := Err(e);
      case Ok(n) => r := Ok(if number == 6 then envelope.(kind := n) else envelope.(oneWay := n != 0));
    } else if number == 9 {
      var bytes := reader.ReadBytes(tag.wire);
      match bytes
      case Err(e) => r := Err(e);
      case Ok(b) => r := Ok(envelope.(payload := b));
    } else {
      ghost var rest := reader.Rest();
      var skipped := reader.Skip(tag.wire, number);
      IgnoredKeeps(envelope, number, SkippedBody(number, tag.wire, rest));
      match skipped
      case Err(e) => r := Err(e);
      case Ok(_) => r := Ok(envelope);
    }
  }

  lemma IgnoredKeeps(e: Envelope, number: nat, body: Result<Read<Field>, Error>)
    requires body.Ok? ==> body.value.value.number == number
    requires !(1 <= number <= 4) && number !in {6, 7, 9}
    ensures body.Ok? ==> Assigned(e, body.value.value) == e
  {
  }

  method DecodeEnvelope(data: Bytes, utf8: Bytes -> bool) returns (r: Result<Envelope, Error>)
    ensures r == EnvelopeMeaning(utf8, data)
  {
    var reader := new FieldReader(data);
    var envelope := Envelope([], [], [], [], 0, false, []);
    ghost var schema := EnvelopeSchema(utf8);
    ghost var seen: seq<Field> := [];
    var tag := reader.NextTag();
    TagStart(schema, data, tag, reader.Rest());
    while tag.Ok? && tag.value.Some?
      invariant reader.Valid() && reader.bytes == data
      invariant envelope == EnvelopeOf(seen)
      invariant TagRead(schema, data, seen, tag, reader.Rest())
      decreases |data| - reader.offset, if tag.Ok? && tag.value.Some? then 1 else 0
    {
      var t := tag.value.value;
      ghost var s, before := reader.Rest(), reader.offset;
      var next := ReadEnvelopeField(reader, t, envelope, utf8);
      if next.Err? {
        return Err(next.error);
      }
      ghost var f := FieldBody(schema, t.number, t.wire, s).value;
      EnvelopeSnoc(seen, f.value);
      seen := seen + [f.value];
      envelope := next.value;
      ghost var rest := reader.Rest();
      assert rest == s[f.size..];
      tag := reader.NextTag();
      TagStep(schema, data, seen, rest, tag, reader.Rest());
    }
    match tag
    case Err(e) => r := Err(e);
    case Ok(_) => r := Ok(envelope);
  }

  // ----- Deadletters

  datatype DeadletterState = DeadletterState(original: Envelope, reason: nat, detail: Bytes)

  ghost predicate Tracks(st: DeadletterState, utf8: Bytes -> bool, fs: seq<Field>) {
    && EnvelopeMeaning(utf8, LastPayload(fs, 1)) == Ok(st.original)
    && st.reason == LastVarint(fs, 2)
    && st.detail == LastPayload(fs, 3)
  }

  method ReadDeadletterField(reader: FieldReader, tag: Tag, st: DeadletterState, utf8: Bytes -> bool, ghost seen: seq<Field>)
    returns (r: Result<DeadletterState, Error>)
    requires reader.Valid() && Tracks(st, utf8, seen)
    modifies reader`offset
    ensures reader.Valid() && reader.offset >= old(reader.offset)
    ensures match FieldBody(DeadletterSchema(utf8), tag.number, tag.wire, old(reader.Rest()))
            case Err(e) => r == Err(e)
            case Ok(f) =>
              r.Ok? && Tracks(r.value, utf8, seen + [f.value]) && reader.offset == old(reader.offset) + f.size
  {
    var number := tag.number;
    ghost var body := FieldBody(DeadletterSchema(utf8), number, tag.wire, reader.Rest());
    if body.Ok? {
      LastSnoc(seen, body.value.value, 1);
      LastSnoc(seen, body.value.value, 2);
      LastSnoc(seen, body.value.value, 3);
    }
    if number == 1 {
      var bytes := reader.ReadBytes(tag.wire);
      match bytes
      case Err(e) => r := Err(e);
      case Ok(b) =>
        var original := DecodeEnvelope(b, utf8);
        match original
        case Err(e) => r := Err(e);
        case Ok(o) => r := Ok(st.(original := o));
    } else if number == 2 {
      var v := reader.ReadVarint(tag.wire);
      match v
      case Err(e) => r := Err(e);
      case Ok(n) => r := Ok(st.(reason := n));
    } else if number == 3 {
      var text := reader.ReadString(tag.wire, utf8);
      match text
      case Err(e) => r := Err(e);
      case Ok(b) => r := Ok(st.(detail := b));
    } else {
      var skipped := reader.Skip(tag.wire, number);
      match skipped
      case Err(e) => r := Err(e);
      case Ok(_) => r := Ok(st);
    }
  }

  method DecodeDeadletter(data: Bytes, utf8: Bytes -> bool, reasonName: nat -> Option<string>)
    returns (r: Result<Deadletter, Error>)
    ensures r == DeadletterMeaning(utf8, reasonName, data)
  {
    var reader := new FieldReader(data);
    var st := DeadletterState(Envelope([], [], [], [], 0, false, []), 0, []);
    ghost var schema := DeadletterSchema(utf8);
    ghost var seen: seq<Field> := [];
    var tag := reader.NextTag();
    TagStart(schema, data, tag, reader.Rest());
    while tag.Ok? && tag.value.Some?
      invariant reader.Valid() && reader.bytes == data
      invariant Tracks(st, utf8, seen)
      invariant TagRead(schema, data, seen, tag, reader.Rest())
      decreases |data| - reader.offset, if tag.Ok? && tag.value.Some? then 1 else 0
    {
      var t := tag.value.value;
      ghost var s := reader.Rest();
      var next := ReadDeadletterField(reader, t, st, utf8, seen);
      if next.Err? {
        return Err(next.error);
      }
      ghost var f := FieldBody(schema, t.number, t.wire, s).value;
      seen := seen + [f.value];
      st := next.value;
      ghost var rest := reader.Rest();
      assert rest == s[f.size..];
      tag := reader.NextTag();
      TagStep(schema, data, seen, rest, tag, reader.Rest());
    }
    match tag
    case Err(e) => r := Err(e);
    case Ok(_) =>
      if st.reason >= UINT32_SPAN {
        return Err(ReasonTooLarge);
      }
      var name := reasonName(st.reason);
      match name
      case None => r := Err(ReasonNameMissing);
      case Some(text) =>
        r := Ok(Deadletter(st.reason, text, st.detail,
                           st.original.messageID, st.original.source, st.original.target));
  }
}
