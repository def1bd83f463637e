/**
 What a message makes of its next field, number by number and wire type by wire
 type: which fields it takes and where they go, and which it refuses and how. In
 each law `a` is a frame that reads, so the field stands at a field boundary.
 */
module WireFields {
  import opened Wrappers
  import opened Wire
  import opened WireReader
  import opened WireLaws

  function Tag(number: nat, wire: nat): Bytes {
    EncodeVarint(number * 8 + wire)
  }

  predicate TagFits(number: nat, wire: nat) {
    number < 0x2000_0000_0000_0000 && wire < 8
  }

  // ----- How a field fails

  /** A first field that does not read fails the frame it follows. */
  lemma FailsAfter(schema: Schema, a: Bytes, x: Bytes, e: Error)
    requires Fields(schema, a).Ok? && x != [] && FirstField(schema, x) == Err(e)
    ensures Fields(schema, a + x) == Err(e)
  {
    FieldsConcat(schema, a, x);
  }

  lemma TagReads(number: nat, wire: nat, rest: Bytes)
    requires TagFits(number, wire)
    ensures RawVarint(Tag(number, wire) + rest) == Ok(Read(number * 8 + wire, |Tag(number, wire)|))
    ensures (Tag(number, wire) + rest)[|Tag(number, wire)|..] == rest
    ensures (number * 8 + wire) / 8 == number && (number * 8 + wire) % 8 == wire
  {
    VarintRoundTrip(number * 8 + wire, rest);
  }

  lemma BodyFails(schema: Schema, number: nat, wire: nat, rest: Bytes, e: Error)
    requires TagFits(number, wire) && 0 < number && FieldBody(schema, number, wire, rest) == Err(e)
    ensures FirstField(schema, Tag(number, wire) + rest) == Err(e)
  {
    TagReads(number, wire, rest);
  }

  /** No field has number zero. */
  lemma NumberlessRefused(schema: Schema, a: Bytes, wire: nat, rest: Bytes)
    requires Fields(schema, a).Ok? && wire < 8
    ensures Fields(schema, a + (Tag(0, wire) + rest)) == Err(InvalidTag)
  {
    TagReads(0, wire, rest);
    FailsAfter(schema, a, Tag(0, wire) + rest, InvalidTag);
  }

  lemma PayloadBodyFails(schema: Schema, number: nat, p: Bytes, b: Bytes, e: Error)
    requires |p| < INT_SPAN && schema(number).Payload? && schema(number).check(p) == Some(e)
    ensures FieldBody(schema, number, WIRE_BYTES, EncodeVarint(|p|) + p + b) == Err(e)
  {
    DelimitedRoundTrip(p, b);
  }

  lemma PayloadFails(schema: Schema, number: nat, p: Bytes, b: Bytes, e: Error)
    requires TagFits(number, WIRE_BYTES) && 0 < number && |p| < INT_SPAN
    requires schema(number).Payload? && schema(number).check(p) == Some(e)
    ensures FirstField(schema, EncodeField(Delimited(number, p)) + b) == Err(e)
  {
    var body := EncodeVarint(|p|) + p;
    PayloadBodyFails(schema, number, p, b, e);
    BodyFails(schema, number, WIRE_BYTES, body + b, e);
    assert Tag(number, WIRE_BYTES) + body + b == Tag(number, WIRE_BYTES) + (body + b);
  }

  // ----- Envelopes

  /** Text that is not UTF-8 is refused in every text field, whatever follows. */
  lemma EnvelopeRefusesText(utf8: Bytes -> bool, a: Bytes, n: nat, p: Bytes, b: Bytes)
    requires EnvelopeMeaning(utf8, a).Ok? && n in {1, 2, 3, 4} && !utf8(p) && |p| < INT_SPAN
    ensures EnvelopeMeaning(utf8, a + (EncodeField(Delimited(n, p)) + b)) == Err(InvalidUtf8)
  {
    PayloadFails(EnvelopeSchema(utf8), n, p, b, InvalidUtf8);
    FailsAfter(EnvelopeSchema(utf8), a, EncodeField(Delimited(n, p)) + b, InvalidUtf8);
  }

  /** A known field of another wire type is refused. */
  lemma EnvelopeRefusesType(utf8: Bytes -> bool, a: Bytes, n: nat, wire: nat, rest: Bytes)
    requires EnvelopeMeaning(utf8, a).Ok? && wire < 8
    requires (n in {1, 2, 3, 4, 9} && wire != 2) || (n in {6, 7} && wire != 0)
    ensures EnvelopeMeaning(utf8, a + (Tag(n, wire) + rest)) == Err(UnexpectedType(wire))
  {
    BodyFails(EnvelopeSchema(utf8), n, wire, rest, UnexpectedType(wire));
    FailsAfter(EnvelopeSchema(utf8), a, Tag(n, wire) + rest, UnexpectedType(wire));
  }

  /** An unknown field of a wire type that nobody can skip, groups above all, is refused. */
  lemma EnvelopeRefusesGroup(utf8: Bytes -> bool, a: Bytes, n: nat, wire: nat, rest: Bytes)
    requires EnvelopeMeaning(utf8, a).Ok? && 0 < n && TagFits(n, wire)
    requires n !in {1, 2, 3, 4, 6, 7, 9} && wire !in {0, 1, 2, 5}
    ensures EnvelopeMeaning(utf8, a + (Tag(n, wire) + rest)) == Err(UnsupportedType(wire))
  {
    BodyFails(EnvelopeSchema(utf8), n, wire, rest, UnsupportedType(wire));
    FailsAfter(EnvelopeSchema(utf8), a, Tag(n, wire) + rest, UnsupportedType(wire));
  }

  lemma SkipsOne(utf8: Bytes -> bool, a: Bytes, f: Field, x: Bytes, b: Bytes)
    requires EnvelopeMeaning(utf8, a).Ok? && Encodable(f) && f.number !in ENVELOPE_NUMBERS && x == EncodeField(f)
    ensures EnvelopeMeaning(utf8, a + x + b) == EnvelopeMeaning(utf8, a + b)
  {
    EncodedUnknown(ENVELOPE_NUMBERS, f);
    EnvelopeIgnoresUnknown(utf8, a, x, b);
  }

  /**
   An unknown field `x` is passed over: a varint, a delimited run of bytes, eight
   bytes of wire type 1 and four of wire type 5.
   */
  lemma EnvelopeSkips(utf8: Bytes -> bool, a: Bytes, n: nat, v: nat, p: Bytes, x: Bytes, b: Bytes)
    requires EnvelopeMeaning(utf8, a).Ok? && 0 < n && TagFits(n, 0) && n !in {1, 2, 3, 4, 6, 7, 9}
    requires v < UINT64_SPAN && |p| < INT_SPAN
    requires || x == Tag(n, 0) + EncodeVarint(v)
             || x == Tag(n, 2) + (EncodeVarint(|p|) + p)
             || (|p| == 8 && x == Tag(n, 1) + p)
             || (|p| == 4 && x == Tag(n, 5) + p)
    ensures EnvelopeMeaning(utf8, a + x + b) == EnvelopeMeaning(utf8, a + b)
  {
    if x == Tag(n, 0) + EncodeVarint(v) {
      SkipsOne(utf8, a, Varint(n, v), x, b);
    } else if x == Tag(n, 2) + (EncodeVarint(|p|) + p) {
      SkipsOne(utf8, a, Delimited(n, p), x, b);
    } else {
      SkipsOne(utf8, a, Fixed(n, p), x, b);
    }
  }

  lemma TakesOne(schema: Schema, a: Bytes, f: Field)
    requires Fields(schema, a).Ok? && Encodable(f) && Conforms(schema, f)
    ensures Fields(schema, a + EncodeField(f)) == Ok(Fields(schema, a).value + [f])
  {
    assert EncodeFields([f]) == EncodeField(f) + [] == EncodeField(f);
    FieldsRoundTrip(schema, [f]);
    FieldsConcat(schema, a, EncodeField(f));
  }

  /** Each text number sets its own field and no other. */
  lemma EnvelopeTakesText(utf8: Bytes -> bool, a: Bytes, p: Bytes)
    requires EnvelopeMeaning(utf8, a).Ok? && utf8(p) && |p| < INT_SPAN
    ensures var e := EnvelopeMeaning(utf8, a).value;
            && EnvelopeMeaning(utf8, a + EncodeField(Delimited(1, p))) == Ok(e.(messageID := p))
            && EnvelopeMeaning(utf8, a + EncodeField(Delimited(2, p))) == Ok(e.(correlationID := p))
            && EnvelopeMeaning(utf8, a + EncodeField(Delimited(3, p))) == Ok(e.(source := p))
            && EnvelopeMeaning(utf8, a + EncodeField(Delimited(4, p))) == Ok(e.(target := p))
  {
    EnvelopeTakes(utf8, a, Delimited(1, p));
    EnvelopeTakes(utf8, a, Delimited(2, p));
    EnvelopeTakes(utf8, a, Delimited(3, p));
    EnvelopeTakes(utf8, a, Delimited(4, p));
  }

  /** The payload takes any bytes, the kind any 64-bit number, and the one-way flag whether its number is zero. */
  lemma EnvelopeTakesRest(utf8: Bytes -> bool, a: Bytes, p: Bytes, v: nat)
    requires EnvelopeMeaning(utf8, a).Ok? && |p| < INT_SPAN && v < UINT64_SPAN
    ensures var e := EnvelopeMeaning(utf8, a).value;
            && EnvelopeMeaning(utf8, a + EncodeField(Varint(6, v))) == Ok(e.(kind := v))
            && EnvelopeMeaning(utf8, a + EncodeField(Varint(7, v))) == Ok(e.(oneWay := v != 0))
            && EnvelopeMeaning(utf8, a + EncodeField(Delimited(9, p))) == Ok(e.(payload := p))
  {
    EnvelopeTakes(utf8, a, Varint(6, v));
    EnvelopeTakes(utf8, a, Varint(7, v));
    EnvelopeTakes(utf8, a, Delimited(9, p));
  }

  lemma EnvelopeTakes(utf8: Bytes -> bool, a: Bytes, f: Field)
    requires EnvelopeMeaning(utf8, a).Ok? && Encodable(f) && Conforms(EnvelopeSchema(utf8), f)
    ensures EnvelopeMeaning(utf8, a + EncodeField(f)) == Ok(Assigned(EnvelopeMeaning(utf8, a).value, f))
  {
    TakesOne(EnvelopeSchema(utf8), a, f);
    EnvelopeSnoc(Fields(EnvelopeSchema(utf8), a).value, f);
  }

  // ----- Deadletters

  /** A detail that is not UTF-8, and an original that does not decode, are refused where they stand. */
  lemma DeadletterRefusesPayload(
    utf8: Bytes -> bool, reasonName: nat -> Option<string>, a: Bytes, p: Bytes, b: Bytes)
    requires Fields(DeadletterSchema(utf8), a).Ok? && |p| < INT_SPAN
    ensures !utf8(p) ==>
              DeadletterMeaning(utf8, reasonName, a + (EncodeField(Delimited(3, p)) + b)) == Err(InvalidUtf8)
    ensures EnvelopeMeaning(utf8, p).Err? ==>
              DeadletterMeaning(utf8, reasonName, a + (EncodeField(Delimited(1, p)) + b))
              == Err(EnvelopeMeaning(utf8, p).error)
  {
    var schema := DeadletterSchema(utf8);
    if !utf8(p) {
      PayloadFails(schema, 3, p, b, InvalidUtf8);
      FailsAfter(schema, a, EncodeField(Delimited(3, p)) + b, InvalidUtf8);
    }
    if EnvelopeMeaning(utf8, p).Err? {
      var e := EnvelopeMeaning(utf8, p).error;
      PayloadFails(schema, 1, p, b, e);
      FailsAfter(schema, a, EncodeField(Delimited(1, p)) + b, e);
    }
  }

  lemma DeadletterRefusesType(
    utf8: Bytes -> bool, reasonName: nat -> Option<string>, a: Bytes, n: nat, wire: nat, rest: Bytes)
    requires Fields(DeadletterSchema(utf8), a).Ok? && wire < 8
    requires (n in {1, 3} && wire != 2) || (n == 2 && wire != 0)
    ensures DeadletterMeaning(utf8, reasonName, a + (Tag(n, wire) + rest)) == Err(UnexpectedType(wire))
  {
    BodyFails(DeadletterSchema(utf8), n, wire, rest, UnexpectedType(wire));
    FailsAfter(DeadletterSchema(utf8), a, Tag(n, wire) + rest, UnexpectedType(wire));
  }

  lemma DeadletterRefusesGroup(
    utf8: Bytes -> bool, reasonName: nat -> Option<string>, a: Bytes, n: nat, wire: nat, rest: Bytes)
    requires Fields(DeadletterSchema(utf8), a).Ok? && 0 < n && TagFits(n, wire)
    requires n !in {1, 2, 3} && wire !in {0, 1, 2, 5}
    ensures DeadletterMeaning(utf8, reasonName, a + (Tag(n, wire) + rest)) == Err(UnsupportedType(wire))
  {
    BodyFails(DeadletterSchema(utf8), n, wire, rest, UnsupportedType(wire));
    FailsAfter(DeadletterSchema(utf8), a, Tag(n, wire) + rest, UnsupportedType(wire));
  }

  lemma DeadletterTakes(utf8: Bytes -> bool, a: Bytes, f: Field, number: nat)
    requires Fields(DeadletterSchema(utf8), a).Ok? && Encodable(f) && Conforms(DeadletterSchema(utf8), f)
    ensures Fields(DeadletterSchema(utf8), a + EncodeField(f)).Ok?
    ensures var fs, gs := Fields(DeadletterSchema(utf8), a).value, Fields(DeadletterSchema(utf8), a + EncodeField(f)).value;
            && LastPayload(gs, number) == (if f.Delimited? && f.number == number then f.payload else LastPayload(fs, number))
            && LastVarint(gs, number) == (if f.Varint? && f.number == number then f.value else LastVarint(fs, number))
  {
    TakesOne(DeadletterSchema(utf8), a, f);
    LastSnoc(Fields(DeadletterSchema(utf8), a).value, f, number);
  }

  /** The detail, and the three texts of the original, go where a reader of the deadletter finds them. */
  lemma DeadletterTakesPayload(utf8: Bytes -> bool, reasonName: nat -> Option<string>, a: Bytes, p: Bytes)
    requires DeadletterMeaning(utf8, reasonName, a).Ok? && |p| < INT_SPAN
    ensures var d := DeadletterMeaning(utf8, reasonName, a).value;
            && (utf8(p) ==>
                  DeadletterMeaning(utf8, reasonName, a + EncodeField(Delimited(3, p))) == Ok(d.(detail := p)))
            && (EnvelopeMeaning(utf8, p).Ok? ==>
                  var e := EnvelopeMeaning(utf8, p).value;
                  DeadletterMeaning(utf8, reasonName, a + EncodeField(Delimited(1, p)))
                  == Ok(d.(originalMessageID := e.messageID, originalSource := e.source, originalTarget := e.target)))
  {
    if utf8(p) {
      DeadletterTakes(utf8, a, Delimited(3, p), 1);
      DeadletterTakes(utf8, a, Delimited(3, p), 2);
      DeadletterTakes(utf8, a, Delimited(3, p), 3);
    }
    if EnvelopeMeaning(utf8, p).Ok? {
      DeadletterTakes(utf8, a, Delimited(1, p), 1);
      DeadletterTakes(utf8, a, Delimited(1, p), 2);
      DeadletterTakes(utf8, a, Delimited(1, p), 3);
    }
  }

  /** A reason of 32 bits that has a name is taken with its name; any other is refused. */
  lemma DeadletterTakesReason(utf8: Bytes -> bool, reasonName: nat -> Option<string>, a: Bytes, v: nat)
    requires DeadletterMeaning(utf8, reasonName, a).Ok? && v < UINT64_SPAN
    ensures var d := DeadletterMeaning(utf8, reasonName, a).value;
            DeadletterMeaning(utf8, reasonName, a + EncodeField(Varint(2, v)))
            == if v >= 0x1_0000_0000 then Err(ReasonTooLarge)
               else if reasonName(v).None? then Err(ReasonNameMissing)
               else Ok(d.(reasonCode := v, reason := reasonName(v).value))
  {
    DeadletterTakes(utf8, a, Varint(2, v), 1);
    DeadletterTakes(utf8, a, Varint(2, v), 2);
    DeadletterTakes(utf8, a, Varint(2, v), 3);
  }

  // ----- Cut fields

  /** A varint that is cut short does not read. */
  lemma {:induction false} CutRun(v: nat, k: nat)
    requires k < |EncodeVarint(v)|
    ensures ContinuationRun(EncodeVarint(v)[..k]) == k
  {
    if k > 0 {
      var code, rest := EncodeVarint(v), EncodeVarint(v / 128);
      assert code == [v % 128 + 128] + rest;
      assert code[..k][1..] == rest[..k - 1];
      CutRun(v / 128, k - 1);
    }
  }

  lemma CutVarint(v: nat, k: nat)
    requires v < UINT64_SPAN && k < |EncodeVarint(v)|
    ensures RawVarint(EncodeVarint(v)[..k]) == Err(TruncatedField)
  {
    CutRun(v, k);
    Pow2Values();
    EncodeLength(v, 9);
  }

  lemma CutDelimited(p: Bytes, k: nat)
    requires |p| < INT_SPAN && k < |EncodeVarint(|p|) + p|
    ensures LengthDelimited((EncodeVarint(|p|) + p)[..k]) == Err(TruncatedField)
  {
    var length := EncodeVarint(|p|);
    var s := (length + p)[..k];
    if k < |length| {
      assert s == length[..k];
      CutVarint(|p|, k);
    } else {
      assert s == length + p[..k - |length|];
      VarintRoundTrip(|p|, p[..k - |length|]);
    }
  }

  lemma CutBody(schema: Schema, f: Field, k: nat)
    requires Encodable(f) && Conforms(schema, f) && k < |EncodeBody(f)|
    ensures FieldBody(schema, f.number, WireOf(f), EncodeBody(f)[..k])
         == Err(if f.Fixed? then TruncatedFixed else TruncatedField)
  {
    match f
    case Varint(_, value) =>
      CutVarint(value, k);
    case Delimited(_, payload) =>
      CutDelimited(payload, k);
    case Fixed(_, content) =>
  }

  lemma CutTag(schema: Schema, f: Field, k: nat)
    requires Encodable(f) && k < |Tag(f.number, WireOf(f))|
    ensures FirstField(schema, EncodeField(f)[..k]) == Err(TruncatedField)
  {
    assert EncodeField(f)[..k] == Tag(f.number, WireOf(f))[..k];
    CutVarint(f.number * 8 + WireOf(f), k);
  }

  lemma CutAfterTag(schema: Schema, f: Field, k: nat)
    requires Encodable(f) && Conforms(schema, f) && |Tag(f.number, WireOf(f))| <= k < |EncodeField(f)|
    ensures FirstField(schema, EncodeField(f)[..k]) == Err(if f.Fixed? then TruncatedFixed else TruncatedField)
  {
    var tag := Tag(f.number, WireOf(f));
    var body := EncodeBody(f)[..k - |tag|];
    assert EncodeField(f)[..k] == tag + body;
    CutBody(schema, f, k - |tag|);
    BodyFails(schema, f.number, WireOf(f), body, if f.Fixed? then TruncatedFixed else TruncatedField);
  }

  /** A frame that ends inside a field is refused, wherever it is cut. */
  lemma CutFieldRefused(schema: Schema, a: Bytes, f: Field, k: nat)
    requires Fields(schema, a).Ok? && Encodable(f) && Conforms(schema, f) && 0 < k < |EncodeField(f)|
    ensures Fields(schema, a + EncodeField(f)[..k])
         == Err(if f.Fixed? && k >= |Tag(f.number, WireOf(f))| then TruncatedFixed else TruncatedField)
  {
    if k < |Tag(f.number, WireOf(f))| {
      CutTag(schema, f, k);
      FailsAfter(schema, a, EncodeField(f)[..k], TruncatedField);
    } else {
      CutAfterTag(schema, f, k);
      FailsAfter(schema, a, EncodeField(f)[..k], if f.Fixed? then TruncatedFixed else TruncatedField);
    }
  }
}
