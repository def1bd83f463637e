/**
 What the envelope wire format promises: varints are read exactly, a frame is
 decoded field by field with the last mention winning, unknown fields are
 inert, and decoding inverts encoding.
 */
module WireLaws {
  import opened Wrappers
  import opened Wire
  import opened WireReader

  // ----- Varint exactness

  /** `s` starts with a varint of `n + 1` bytes that fits in 64 bits. */
  predicate VarintEndsAt(s: Bytes, n: nat) {
    && n < |s| && n < MAX_VARINT_BYTES
    && (forall i :: 0 <= i < n ==> s[i] >= 128)
    && s[n] < 128
    && (n == 9 ==> s[n] <= 1)
  }

  lemma {:induction false} GroupSumBound(s: Bytes, n: nat)
    requires n <= |s| && n <= MAX_VARINT_BYTES && (n == MAX_VARINT_BYTES ==> s[9] <= 1)
    ensures GroupSum(s[..n]) < Pow2(Width(n))
  {
    if n == 0 {
      assert s[..0] == [];
    } else {
      GroupSumBound(s, n - 1);
      GroupStep(s, n - 1, GroupSum(s[..n - 1]));
    }
  }

  /**
   A varint is read exactly when one ends within its first ten bytes; the read
   takes those bytes, answers the sum of their 7-bit groups and loses no bit.
   */
  lemma VarintExactness(s: Bytes)
    ensures RawVarint(s).Ok? <==> exists n: nat :: VarintEndsAt(s, n)
    ensures forall n: nat :: VarintEndsAt(s, n) ==>
                               RawVarint(s) == Ok(Read(GroupSum(s[..n + 1]), n + 1)) && GroupSum(s[..n + 1]) < UINT64_SPAN
    ensures RawVarint(s) == Err(TooLarge) <==>
            |s| >= MAX_VARINT_BYTES && s[9] > 1 && forall i :: 0 <= i < 9 ==> s[i] >= 128
    ensures RawVarint(s).Err? ==> RawVarint(s).error in {TooLarge, TruncatedField}
  {
    var run := ContinuationRun(s);
    RunMeaning(s);
    if |s| >= MAX_VARINT_BYTES && forall i :: 0 <= i < 9 ==> s[i] >= 128 {
      RunReaches(s, 9);
    }
    if RawVarint(s).Ok? {
      assert VarintEndsAt(s, run);
    }
    forall n: nat | VarintEndsAt(s, n)
      ensures RawVarint(s) == Ok(Read(GroupSum(s[..n + 1]), n + 1)) && GroupSum(s[..n + 1]) < UINT64_SPAN
    {
      RunReaches(s, n);
      assert run == n;
      GroupSumBound(s, n + 1);
      Pow2Values();
      Pow2Monotone(Width(n + 1), 64);
    }
  }

  // ----- A field does not depend on what follows it

  lemma {:induction false} RunPrefix(a: Bytes, b: Bytes)
    requires ContinuationRun(a) < |a|
    ensures ContinuationRun(a + b) == ContinuationRun(a)
  {
    if a[0] >= 128 {
      assert (a + b)[1..] == a[1..] + b;
      RunPrefix(a[1..], b);
    }
  }

  lemma VarintPrefix(a: Bytes, b: Bytes)
    requires RawVarint(a).Ok?
    ensures RawVarint(a + b) == RawVarint(a)
  {
    RunPrefix(a, b);
    var n := ContinuationRun(a);
    assert (a + b)[..n + 1] == a[..n + 1];
  }

  lemma LengthDelimitedPrefix(a: Bytes, b: Bytes)
    requires LengthDelimited(a).Ok?
    ensures LengthDelimited(a + b) == LengthDelimited(a)
  {
    VarintPrefix(a, b);
    var length := RawVarint(a).value;
    assert (a + b)[length.size..length.size + length.value] == a[length.size..length.size + length.value];
  }

  lemma BodyPrefix(schema: Schema, number: nat, wire: nat, a: Bytes, b: Bytes)
    requires FieldBody(schema, number, wire, a).Ok?
    ensures FieldBody(schema, number, wire, a + b) == FieldBody(schema, number, wire, a)
  {
    if wire == WIRE_VARINT {
      VarintPrefix(a, b);
    } else if wire == WIRE_BYTES {
      LengthDelimitedPrefix(a, b);
    } else {
      var size := if wire == WIRE_FIXED64 then 8 else 4;
      assert (a + b)[..size] == a[..size];
    }
  }

  lemma FieldPrefix(schema: Schema, a: Bytes, b: Bytes)
    requires FirstField(schema, a).Ok?
    ensures FirstField(schema, a + b) == FirstField(schema, a)
  {
    VarintPrefix(a, b);
    var tag := RawVarint(a).value;
    assert (a + b)[tag.size..] == a[tag.size..] + b;
    BodyPrefix(schema, tag.value / 8, tag.value % 8, a[tag.size..], b);
  }

  // ----- Concatenation

  lemma FieldsUnfold(schema: Schema, s: Bytes, f: Read<Field>, rest: Bytes)
    requires FirstField(schema, s) == Ok(f) && rest == s[f.size..]
    ensures Fields(schema, s) == Prepend([f.value], Fields(schema, rest))
  {
  }

  /** The first field of a frame is the first field of a longer one, and leaves the rest of both. */
  lemma FirstOfConcat(schema: Schema, a: Bytes, b: Bytes, f: Read<Field>, rest: Bytes)
    requires FirstField(schema, a) == Ok(f) && rest == a[f.size..]
    ensures FirstField(schema, a + b) == Ok(f) && (a + b)[f.size..] == rest + b
  {
    FieldPrefix(schema, a, b);
  }

  /** Frames concatenate field sequence by field sequence, errors of the second part included. */
  lemma {:induction false} FieldsConcat(schema: Schema, a: Bytes, b: Bytes)
    requires Fields(schema, a).Ok?
    ensures Fields(schema, a + b) == Prepend(Fields(schema, a).value, Fields(schema, b))
    decreases |a|
  {
    if a == [] {
      assert a + b == b;
      PrependNothing(Fields(schema, b));
    } else {
      var f := FirstField(schema, a).value;
      var rest := a[f.size..];
      FieldsUnfold(schema, a, f, rest);
      FieldsConcat(schema, rest, b);
      FirstOfConcat(schema, a, b, f, rest);
      FieldsUnfold(schema, a + b, f, rest + b);
      PrependTwice([f.value], Fields(schema, rest).value, Fields(schema, b));
    }
  }

  lemma PrependNothing(r: Result<seq<Field>, Error>)
    ensures Prepend([], r) == r
  {
    if r.Ok? {
      assert [] + r.value == r.value;
    }
  }

  predicate MentionsPayload(fs: seq<Field>, number: nat) {
    exists i :: 0 <= i < |fs| && fs[i].Delimited? && fs[i].number == number
  }

  predicate MentionsVarint(fs: seq<Field>, number: nat) {
    exists i :: 0 <= i < |fs| && fs[i].Varint? && fs[i].number == number
  }

  /** The last mention decides; earlier ones matter only when there is no later one. */
  lemma {:induction false} LastConcat(fs: seq<Field>, gs: seq<Field>, number: nat)
    ensures LastPayload(fs + gs, number)
         == if MentionsPayload(gs, number) then LastPayload(gs, number) else LastPayload(fs, number)
    ensures LastVarint(fs + gs, number)
         == if MentionsVarint(gs, number) then LastVarint(gs, number) else LastVarint(fs, number)
    decreases |gs|
  {
    if gs == [] {
      assert fs + gs == fs;
    } else {
      var init, f := gs[..|gs| - 1], gs[|gs| - 1];
      assert gs == init + [f];
      LastConcat(fs, init, number);
      assert fs + gs == (fs + init) + [f];
      LastSnoc(fs + init, f, number);
      LastSnoc(init, f, number);
      assert MentionsPayload(gs, number) <==> MentionsPayload(init, number) || (f.Delimited? && f.number == number);
      assert MentionsVarint(gs, number) <==> MentionsVarint(init, number) || (f.Varint? && f.number == number);
    }
  }

  /** `base` with every field that `fs` mentions taken from `top`. */
  function Overlay(base: Envelope, top: Envelope, fs: seq<Field>): Envelope {
    Envelope(
      if MentionsPayload(fs, 1) then top.messageID else base.messageID,
      if MentionsPayload(fs, 2) then top.correlationID else base.correlationID,
      if MentionsPayload(fs, 3) then top.source else base.source,
      if MentionsPayload(fs, 4) then top.target else base.target,
      if MentionsVarint(fs, 6) then top.kind else base.kind,
      if MentionsVarint(fs, 7) then top.oneWay else base.oneWay,
      if MentionsPayload(fs, 9) then top.payload else base.payload)
  }

  lemma OverlayConcat(fs: seq<Field>, gs: seq<Field>)
    ensures EnvelopeOf(fs + gs) == Overlay(EnvelopeOf(fs), EnvelopeOf(gs), gs)
  {
    LastConcat(fs, gs, 1);
    LastConcat(fs, gs, 2);
    LastConcat(fs, gs, 3);
    LastConcat(fs, gs, 4);
    LastConcat(fs, gs, 6);
    LastConcat(fs, gs, 7);
    LastConcat(fs, gs, 9);
  }

  /** Two frames end to end decode to the second laid over the first. */
  lemma EnvelopeConcat(utf8: Bytes -> bool, a: Bytes, b: Bytes)
    requires EnvelopeMeaning(utf8, a).Ok?
    ensures EnvelopeMeaning(utf8, a + b)
         == match EnvelopeMeaning(utf8, b)
            case Err(e) => Err(e)
            case Ok(top) =>
              Ok(Overlay(EnvelopeMeaning(utf8, a).value, top, Fields(EnvelopeSchema(utf8), b).value))
  {
    var schema := EnvelopeSchema(utf8);
    FieldsConcat(schema, a, b);
    if Fields(schema, b).Ok? {
      OverlayConcat(Fields(schema, a).value, Fields(schema, b).value);
    }
  }

  // ----- Unknown fields

  /** A reader that names no field number at all. */
  const NAMELESS: Schema := (number: nat) => Ignored

  /** The numbers that an envelope and a deadletter name. */
  const ENVELOPE_NUMBERS: set<nat> := {1, 2, 3, 4, 6, 7, 9}
  const DEADLETTER_NUMBERS: set<nat> := {1, 2, 3}

  /** `x` is exactly one field, of a number other than `named`. */
  predicate UnknownField(named: set<nat>, x: Bytes) {
    var f := FirstField(NAMELESS, x);
    f.Ok? && f.value.size == |x| && f.value.value.number !in named
  }

  /** A schema that names none but `named` reads an unknown field as a reader without names does. */
  lemma UnknownIsOneField(schema: Schema, named: set<nat>, x: Bytes)
    requires UnknownField(named, x) && forall n :: n !in named ==> schema(n).Ignored?
    ensures FirstField(schema, x) == FirstField(NAMELESS, x)
    ensures Fields(schema, x) == Ok([FirstField(schema, x).value.value])
  {
    var f := FirstField(NAMELESS, x).value;
    assert x[f.size..] == [];
    FieldsUnfold(schema, x, f, []);
    assert [f.value] + [] == [f.value];
  }

  /** Field sequences that differ only in numbers no message names mean the same. */
  lemma IgnoredInside(fs: seq<Field>, f: Field, gs: seq<Field>, number: nat)
    requires f.number != number
    ensures LastPayload(fs + [f] + gs, number) == LastPayload(fs + gs, number)
    ensures LastVarint(fs + [f] + gs, number) == LastVarint(fs + gs, number)
  {
    LastConcat(fs + [f], gs, number);
    LastConcat(fs, gs, number);
    LastSnoc(fs, f, number);
  }

  lemma FieldsWithUnknown(schema: Schema, named: set<nat>, a: Bytes, x: Bytes, b: Bytes)
    requires Fields(schema, a).Ok?
    requires UnknownField(named, x) && forall n :: n !in named ==> schema(n).Ignored?
    ensures Fields(schema, a + x + b)
         == Prepend(Fields(schema, a).value + [FirstField(schema, x).value.value], Fields(schema, b))
    ensures Fields(schema, a + b) == Prepend(Fields(schema, a).value, Fields(schema, b))
  {
    UnknownIsOneField(schema, named, x);
    FieldsConcat(schema, a, x);
    FieldsConcat(schema, a + x, b);
    FieldsConcat(schema, a, b);
  }

  /** Whatever stands around it, an unknown field at a field boundary changes nothing. */
  lemma EnvelopeIgnoresUnknown(utf8: Bytes -> bool, a: Bytes, x: Bytes, b: Bytes)
    requires EnvelopeMeaning(utf8, a).Ok? && UnknownField(ENVELOPE_NUMBERS, x)
    ensures EnvelopeMeaning(utf8, a + x + b) == EnvelopeMeaning(utf8, a + b)
  {
    var schema := EnvelopeSchema(utf8);
    FieldsWithUnknown(schema, ENVELOPE_NUMBERS, a, x, b);
    if Fields(schema, b).Ok? {
      var fs, f, gs := Fields(schema, a).value, FirstField(schema, x).value.value, Fields(schema, b).value;
      IgnoredInside(fs, f, gs, 1);
      IgnoredInside(fs, f, gs, 2);
      IgnoredInside(fs, f, gs, 3);
      IgnoredInside(fs, f, gs, 4);
      IgnoredInside(fs, f, gs, 6);
      IgnoredInside(fs, f, gs, 7);
      IgnoredInside(fs, f, gs, 9);
    }
  }

  lemma DeadletterIgnoresUnknown(
    utf8: Bytes -> bool, reasonName: nat -> Option<string>, a: Bytes, x: Bytes, b: Bytes)
    requires Fields(DeadletterSchema(utf8), a).Ok? && UnknownField(DEADLETTER_NUMBERS, x)
    ensures DeadletterMeaning(utf8, reasonName, a + x + b) == DeadletterMeaning(utf8, reasonName, a + b)
  {
    var schema := DeadletterSchema(utf8);
    FieldsWithUnknown(schema, DEADLETTER_NUMBERS, a, x, b);
    if Fields(schema, b).Ok? {
      var fs, f, gs := Fields(schema, a).value, FirstField(schema, x).value.value, Fields(schema, b).value;
      IgnoredInside(fs, f, gs, 1);
      IgnoredInside(fs, f, gs, 2);
      IgnoredInside(fs, f, gs, 3);
    }
  }

  // ----- Encoding, as a specification

  function EncodeVarint(v: nat): (s: Bytes)
    ensures 0 < |s|
  {
    if v < 128 then [v] else [v % 128 + 128] + EncodeVarint(v / 128)
  }

  function WireOf(f: Field): nat {
    match f
    case Varint(_, _) => WIRE_VARINT
    case Delimited(_, _) => WIRE_BYTES
    case Fixed(_, content) => if |content| == 8 then WIRE_FIXED64 else WIRE_FIXED32
  }

  function EncodeBody(f: Field): Bytes {
    match f
    case Varint(_, value) => EncodeVarint(value)
    case Delimited(_, payload) => EncodeVarint(|payload|) + payload
    case Fixed(_, content) => content
  }

  function EncodeField(f: Field): Bytes {
    EncodeVarint(f.number * 8 + WireOf(f)) + EncodeBody(f)
  }

  function EncodeFields(fs: seq<Field>): Bytes {
    if fs == [] then [] else EncodeField(fs[0]) + EncodeFields(fs[1..])
  }

  /** The field fits the wire's integer widths. */
  predicate Encodable(f: Field) {
    && 0 < f.number < 0x2000_0000_0000_0000
    && match f
       case Varint(_, value) => value < UINT64_SPAN
       case Delimited(_, payload) => |payload| < INT_SPAN
       case Fixed(_, content) => |content| == 8 || |content| == 4
  }

  /** The field is one the schema accepts. */
  predicate Conforms(schema: Schema, f: Field) {
    match schema(f.number)
    case Integer => f.Varint?
    case Payload(check) => f.Delimited? && check(f.payload).None?
    case Ignored => true
  }

  lemma {:induction false} EncodeRun(v: nat, rest: Bytes)
    ensures ContinuationRun(EncodeVarint(v) + rest) == |EncodeVarint(v)| - 1
  {
    if v >= 128 {
      var tail := EncodeVarint(v / 128);
      assert (EncodeVarint(v) + rest)[1..] == tail + rest;
      EncodeRun(v / 128, rest);
    }
  }

  lemma {:induction false} EncodeSum(v: nat)
    ensures GroupSum(EncodeVarint(v)) == v
  {
    if v < 128 {
      assert [v][1..] == [];
    } else {
      EncodeSum(v / 128);
      assert EncodeVarint(v)[1..] == EncodeVarint(v / 128);
    }
  }

  /** A value below twice a power of 128 takes that many bytes and a last one of at most one. */
  lemma {:induction false} EncodeLength(v: nat, k: nat)
    requires v < 2 * Pow2(7 * k)
    ensures |EncodeVarint(v)| <= k + 1
    ensures |EncodeVarint(v)| == k + 1 ==> EncodeVarint(v)[k] <= 1
  {
    if v >= 128 {
      Pow2Values();
      Pow2Sum(7 * (k - 1), 7);
      assert 7 * k == 7 * (k - 1) + 7;
      EncodeLength(v / 128, k - 1);
    }
  }

  lemma VarintRoundTrip(v: nat, rest: Bytes)
    requires v < UINT64_SPAN
    ensures RawVarint(EncodeVarint(v) + rest) == Ok(Read(v, |EncodeVarint(v)|))
  {
    var code := EncodeVarint(v);
    EncodeRun(v, rest);
    EncodeSum(v);
    Pow2Values();
    EncodeLength(v, 9);
    assert (code + rest)[..|code|] == code;
  }

  lemma DelimitedRoundTrip(payload: Bytes, rest: Bytes)
    requires |payload| < INT_SPAN
    ensures var body := EncodeVarint(|payload|) + payload;
            LengthDelimited(body + rest) == Ok(Read(payload, |body|))
  {
    var length := EncodeVarint(|payload|);
    var s := length + payload + rest;
    assert s == length + (payload + rest);
    VarintRoundTrip(|payload|, payload + rest);
    assert s[|length|..|length| + |payload|] == payload;
  }

  lemma BodyRoundTrip(schema: Schema, f: Field, rest: Bytes)
    requires Encodable(f) && Conforms(schema, f)
    ensures FieldBody(schema, f.number, WireOf(f), EncodeBody(f) + rest) == Ok(Read(f, |EncodeBody(f)|))
  {
    match f
    case Varint(_, value) =>
      VarintRoundTrip(value, rest);
    case Delimited(_, payload) =>
      DelimitedRoundTrip(payload, rest);
    case Fixed(_, content) =>
      assert (content + rest)[..|content|] == content;
  }

  /** The tag of an encoded field reads back and leaves the body in front. */
  lemma TagRoundTrip(f: Field, rest: Bytes) returns (tag: Read<nat>)
    requires Encodable(f)
    ensures RawVarint(EncodeField(f) + rest) == Ok(tag)
    ensures tag.value == f.number * 8 + WireOf(f) && tag.size + |EncodeBody(f)| == |EncodeField(f)|
    ensures (EncodeField(f) + rest)[tag.size..] == EncodeBody(f) + rest
  {
    var code := EncodeVarint(f.number * 8 + WireOf(f));
    assert EncodeField(f) + rest == code + (EncodeBody(f) + rest);
    VarintRoundTrip(f.number * 8 + WireOf(f), EncodeBody(f) + rest);
    tag := Read(f.number * 8 + WireOf(f), |code|);
  }

  lemma FieldRoundTrip(schema: Schema, f: Field, rest: Bytes)
    requires Encodable(f) && Conforms(schema, f)
    ensures FirstField(schema, EncodeField(f) + rest) == Ok(Read(f, |EncodeField(f)|))
  {
    var tag := TagRoundTrip(f, rest);
    BodyRoundTrip(schema, f, rest);
    FirstFieldOf(schema, EncodeField(f) + rest, tag, f.number, WireOf(f), EncodeBody(f) + rest, Read(f, |EncodeBody(f)|));
  }

  lemma FirstFieldOf(schema: Schema, s: Bytes, tag: Read<nat>, number: nat, wire: nat, rest: Bytes, body: Read<Field>)
    requires RawVarint(s) == Ok(tag) && tag.value == number * 8 + wire && number > 0 && wire < 8
    requires rest == s[tag.size..]
    requires FieldBody(schema, number, wire, rest) == Ok(body)
    ensures FirstField(schema, s) == Ok(Read(body.value, tag.size + body.size))
  {
  }

  /** Reading back any sequence of well-formed fields gives that sequence. */
  lemma {:induction false} FieldsRoundTrip(schema: Schema, fs: seq<Field>)
    requires forall i :: 0 <= i < |fs| ==> Encodable(fs[i]) && Conforms(schema, fs[i])
    ensures Fields(schema, EncodeFields(fs)) == Ok(fs)
  {
    if fs != [] {
      var rest := EncodeFields(fs[1..]);
      FieldRoundTrip(schema, fs[0], rest);
      assert EncodeFields(fs)[|EncodeField(fs[0])|..] == rest;
      FieldsRoundTrip(schema, fs[1..]);
      assert [fs[0]] + fs[1..] == fs;
    }
  }

  /** Every well-formed field of an unnamed number, of each wire type, is inert. */
  lemma EncodedUnknown(named: set<nat>, f: Field)
    requires Encodable(f) && f.number !in named
    ensures UnknownField(named, EncodeField(f))
  {
    FieldRoundTrip(NAMELESS, f, []);
    assert EncodeField(f) + [] == EncodeField(f);
  }

  // ----- Round trips of the messages

  function EnvelopeFields(e: Envelope): seq<Field> {
    [Delimited(1, e.messageID), Delimited(2, e.correlationID), Delimited(3, e.source), Delimited(4, e.target),
     Varint(6, e.kind), Varint(7, if e.oneWay then 1 else 0), Delimited(9, e.payload)]
  }

  function EncodeEnvelope(e: Envelope): Bytes {
    EncodeFields(EnvelopeFields(e))
  }

  /** The envelopes that Swift values can represent. */
  predicate Representable(utf8: Bytes -> bool, e: Envelope) {
    && utf8(e.messageID) && utf8(e.correlationID) && utf8(e.source) && utf8(e.target)
    && e.kind < UINT64_SPAN
    && |e.messageID| < INT_SPAN && |e.correlationID| < INT_SPAN && |e.source| < INT_SPAN
    && |e.target| < INT_SPAN && |e.payload| < INT_SPAN
  }

  lemma EnvelopeFieldsMean(e: Envelope)
    ensures EnvelopeOf(EnvelopeFields(e)) == e
  {
    var f := EnvelopeFields(e);
    EnvelopeSnoc(f[..0], f[0]);
    EnvelopeSnoc(f[..1], f[1]);
    EnvelopeSnoc(f[..2], f[2]);
    EnvelopeSnoc(f[..3], f[3]);
    EnvelopeSnoc(f[..4], f[4]);
    EnvelopeSnoc(f[..5], f[5]);
    EnvelopeSnoc(f[..6], f[6]);
    assert f[..1] == f[..0] + [f[0]] && f[..2] == f[..1] + [f[1]] && f[..3] == f[..2] + [f[2]];
    assert f[..4] == f[..3] + [f[3]] && f[..5] == f[..4] + [f[4]] && f[..6] == f[..5] + [f[5]];
    assert f == f[..6] + [f[6]];
  }

  lemma EnvelopeRoundTrip(utf8: Bytes -> bool, e: Envelope)
    requires Representable(utf8, e)
    ensures EnvelopeMeaning(utf8, EncodeEnvelope(e)) == Ok(e)
  {
    EnvelopeFieldsConform(utf8, e);
    FieldsRoundTrip(EnvelopeSchema(utf8), EnvelopeFields(e));
    EnvelopeFieldsMean(e);
  }

  lemma EnvelopeFieldsConform(utf8: Bytes -> bool, e: Envelope)
    requires Representable(utf8, e)
    ensures forall i :: 0 <= i < |EnvelopeFields(e)| ==>
                          Encodable(EnvelopeFields(e)[i]) && Conforms(EnvelopeSchema(utf8), EnvelopeFields(e)[i])
  {
  }

  function DeadletterFields(original: Envelope, reason: nat, detail: Bytes): seq<Field> {
    [Delimited(1, EncodeEnvelope(original)), Varint(2, reason), Delimited(3, detail)]
  }

  function EncodeDeadletter(original: Envelope, reason: nat, detail: Bytes): Bytes {
    EncodeFields(DeadletterFields(original, reason, detail))
  }

  /** The nested form round trips for 32-bit reasons and is refused for every larger one. */
  lemma DeadletterRoundTrip(
    utf8: Bytes -> bool, reasonName: nat -> Option<string>, original: Envelope, reason: nat, detail: Bytes)
    requires Representable(utf8, original) && utf8(detail) && reason < UINT64_SPAN
    requires |EncodeEnvelope(original)| < INT_SPAN && |detail| < INT_SPAN
    ensures DeadletterMeaning(utf8, reasonName, EncodeDeadletter(original, reason, detail))
         == if reason >= UINT32_SPAN then Err(ReasonTooLarge)
            else if reasonName(reason).None? then Err(ReasonNameMissing)
            else Ok(Deadletter(reason, reasonName(reason).value, detail,
                               original.messageID, original.source, original.target))
  {
    var fs := DeadletterFields(original, reason, detail);
    EnvelopeRoundTrip(utf8, original);
    FieldsRoundTrip(DeadletterSchema(utf8), fs);
    LastThree(fs, 1);
    LastThree(fs, 2);
    LastThree(fs, 3);
  }

  lemma LastThree(fs: seq<Field>, number: nat)
    requires |fs| == 3
    ensures LastPayload(fs, number)
         == if fs[2].Delimited? && fs[2].number == number then fs[2].payload
            else if fs[1].Delimited? && fs[1].number == number then fs[1].payload
            else if fs[0].Delimited? && fs[0].number == number then fs[0].payload else []
    ensures LastVarint(fs, number)
         == if fs[2].Varint? && fs[2].number == number then fs[2].value
            else if fs[1].Varint? && fs[1].number == number then fs[1].value
            else if fs[0].Varint? && fs[0].number == number then fs[0].value else 0
  {
    assert fs == fs[..2] + [fs[2]] && fs[..2] == fs[..1] + [fs[1]] && fs[..1] == fs[..0] + [fs[0]];
    LastSnoc(fs[..2], fs[2], number);
    LastSnoc(fs[..1], fs[1], number);
    LastSnoc(fs[..0], fs[0], number);
  }

  /** The deadletter of the fields `fs` followed by `gs`. */
  function Laid(utf8: Bytes -> bool, reasonName: nat -> Option<string>, fs: seq<Field>, gs: seq<Field>): Result<Deadletter, Error> {
    match EnvelopeMeaning(utf8, LastPayload(if MentionsPayload(gs, 1) then gs else fs, 1))
    case Err(e) => Err(e)
    case Ok(original) =>
      DeadletterOf(original, LastVarint(if MentionsVarint(gs, 2) then gs else fs, 2),
                   LastPayload(if MentionsPayload(gs, 3) then gs else fs, 3), reasonName)
  }

  /**
   Deadletter frames end to end: the last mention decides for every field, a
   later original replaces an earlier one outright instead of merging with it,
   and a second frame that does not read fails the whole as it fails alone.
   */
  lemma DeadletterConcat(utf8: Bytes -> bool, reasonName: nat -> Option<string>, a: Bytes, b: Bytes)
    requires Fields(DeadletterSchema(utf8), a).Ok?
    ensures DeadletterMeaning(utf8, reasonName, a + b) ==
            match Fields(DeadletterSchema(utf8), b)
            case Err(e) => Err(e)
            case Ok(gs) => Laid(utf8, reasonName, Fields(DeadletterSchema(utf8), a).value, gs)
  {
    var schema := DeadletterSchema(utf8);
    var fs := Fields(schema, a).value;
    FieldsConcat(schema, a, b);
    if Fields(schema, b).Ok? {
      var gs := Fields(schema, b).value;
      LastConcat(fs, gs, 1);
      LastConcat(fs, gs, 2);
      LastConcat(fs, gs, 3);
    }
  }
}
