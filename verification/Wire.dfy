/**
 What the envelope wire format means, as functions on byte sequences.

 A frame is a sequence of fields. `Fields` reads that sequence under a schema,
 and a message is the interpretation of the field sequence in which the last
 mention of a field wins. The imperative reader of WireReader.dfy is proved
 against these functions; WireLaws.dfy proves what they promise.
 */
module Wire {
  import opened Wrappers

  type Byte = b: nat | b < 256
  type Bytes = seq<Byte>

  const UINT64_SPAN: nat := 0x1_0000_0000_0000_0000
  const UINT32_SPAN: nat := 0x1_0000_0000
  const INT_SPAN: nat := 0x8000_0000_0000_0000
  const MAX_VARINT_BYTES: nat := 10

  const WIRE_VARINT: nat := 0
  const WIRE_FIXED64: nat := 1
  const WIRE_BYTES: nat := 2
  const WIRE_FIXED32: nat := 5

  datatype Error =
    | InvalidTag
    | UnexpectedType(wire: nat)
    | UnsupportedType(wire: nat)
    | TruncatedField
    | TruncatedFixed
    | TooLarge
    | InvalidUtf8
    | ReasonTooLarge
    | ReasonNameMissing

  /** A value read from the front of a byte sequence, and how many bytes it took. */
  datatype Read<+T> = Read(value: T, size: nat)

  // ----- Base 128 varints

  /** How many bytes at the front of `s` announce a further byte. */
  function ContinuationRun(s: Bytes): (n: nat)
    ensures n <= |s|
  {
    if s == [] || s[0] < 128 then 0 else 1 + ContinuationRun(s[1..])
  }

  /** The number whose 7-bit groups, least significant first, are the bytes of `s`. */
  function GroupSum(s: Bytes): nat {
    if s == [] then 0 else s[0] % 128 + 128 * GroupSum(s[1..])
  }

  function RawVarint(s: Bytes): (r: Result<Read<nat>, Error>)
    ensures r.Ok? ==> 0 < r.value.size <= |s|
  {
    var n := ContinuationRun(s);
    if n >= 9 && |s| > 9 && s[9] > 1 then Err(TooLarge)
    else if n == |s| then Err(TruncatedField)
    else Ok(Read(GroupSum(s[..n + 1]), n + 1))
  }

  function LengthDelimited(s: Bytes): (r: Result<Read<Bytes>, Error>)
    ensures r.Ok? ==> 0 < r.value.size <= |s|
  {
    match RawVarint(s)
    case Err(e) => Err(e)
    case Ok(length) =>
      if length.value >= INT_SPAN || length.value > |s| - length.size then Err(TruncatedField)
      else Ok(Read(s[length.size..length.size + length.value], length.size + length.value))
  }

  // ----- Fields

  /** What a message expects of one field number. */
  datatype Kind = Ignored | Integer | Payload(check: Bytes -> Option<Error>)

  type Schema = nat -> Kind

  datatype Field =
    | Varint(number: nat, value: nat)
    | Delimited(number: nat, payload: Bytes)
    | Fixed(number: nat, content: Bytes)

  function FixedBody(number: nat, size: nat, s: Bytes): (r: Result<Read<Field>, Error>)
    ensures r.Ok? ==> r.value.size <= |s| && r.value.value.number == number
  {
    if size > |s| then Err(TruncatedFixed) else Ok(Read(Fixed(number, s[..size]), size))
  }

  function VarintBody(number: nat, s: Bytes): (r: Result<Read<Field>, Error>)
    ensures r.Ok? ==> r.value.size <= |s| && r.value.value.number == number
  {
    match RawVarint(s)
    case Err(e) => Err(e)
    case Ok(v) => Ok(Read(Varint(number, v.value), v.size))
  }

  function DelimitedBody(number: nat, check: Bytes -> Option<Error>, s: Bytes): (r: Result<Read<Field>, Error>)
    ensures r.Ok? ==> r.value.size <= |s| && r.value.value.number == number
  {
    match LengthDelimited(s)
    case Err(e) => Err(e)
    case Ok(p) =>
      match check(p.value)
      case Some(e) => Err(e)
      case None => Ok(Read(Delimited(number, p.value), p.size))
  }

  /** A field no message names is skipped by wire type; groups are refused. */
  function SkippedBody(number: nat, wire: nat, s: Bytes): (r: Result<Read<Field>, Error>)
    ensures r.Ok? ==> r.value.size <= |s| && r.value.value.number == number
  {
    if wire == WIRE_VARINT then VarintBody(number, s)
    else if wire == WIRE_BYTES then DelimitedBody(number, Anything, s)
    else if wire == WIRE_FIXED64 then FixedBody(number, 8, s)
    else if wire == WIRE_FIXED32 then FixedBody(number, 4, s)
    else Err(UnsupportedType(wire))
  }

  function FieldBody(schema: Schema, number: nat, wire: nat, s: Bytes): (r: Result<Read<Field>, Error>)
    ensures r.Ok? ==> r.value.size <= |s| && r.value.value.number == number
  {
    match schema(number)
    case Integer => if wire != WIRE_VARINT then Err(UnexpectedType(wire)) else VarintBody(number, s)
    case Payload(check) => if wire != WIRE_BYTES then Err(UnexpectedType(wire)) else DelimitedBody(number, check, s)
    case Ignored => SkippedBody(number, wire, s)
  }

  /** The first field of `s`: a tag carrying number and wire type, then its body. */
  function FirstField(schema: Schema, s: Bytes): (r: Result<Read<Field>, Error>)
    ensures r.Ok? ==> 0 < r.value.size <= |s| && r.value.value.number > 0
  {
    match RawVarint(s)
    case Err(e) => Err(e)
    case Ok(tag) =>
      if tag.value / 8 == 0 then Err(InvalidTag)
      else
        match FieldBody(schema, tag.value / 8, tag.value % 8, s[tag.size..])
        case Err(e) => Err(e)
        case Ok(f) => Ok(Read(f.value, tag.size + f.size))
  }

  function Prepend(front: seq<Field>, r: Result<seq<Field>, Error>): Result<seq<Field>, Error> {
    match r
    case Err(e) => Err(e)
    case Ok(fs) => Ok(front + fs)
  }

  /** The whole frame as its sequence of fields, or the first error met. */
  function Fields(schema: Schema, s: Bytes): Result<seq<Field>, Error>
    decreases |s|
  {
    if s == [] then Ok([])
    else
      match FirstField(schema, s)
      case Err(e) => Err(e)
      case Ok(f) => Prepend([f.value], Fields(schema, s[f.size..]))
  }

  // ----- Messages: the last mention of a field wins

  function LastPayload(fs: seq<Field>, number: nat): Bytes {
    if fs == [] then []
    else
      var f := fs[|fs| - 1];
      if f.Delimited? && f.number == number then f.payload else LastPayload(fs[..|fs| - 1], number)
  }

  function LastVarint(fs: seq<Field>, number: nat): nat {
    if fs == [] then 0
    else
      var f := fs[|fs| - 1];
      if f.Varint? && f.number == number then f.value else LastVarint(fs[..|fs| - 1], number)
  }

  datatype Envelope = Envelope(
    messageID: Bytes, correlationID: Bytes, source: Bytes, target: Bytes,
    kind: nat, oneWay: bool, payload: Bytes)

  function Anything(b: Bytes): Option<Error> {
    None
  }

  function Text(utf8: Bytes -> bool): Kind {
    Payload((b: Bytes) => if utf8(b) then None else Some(InvalidUtf8))
  }

  function EnvelopeKind(utf8: Bytes -> bool, number: nat): Kind {
    if 1 <= number <= 4 then Text(utf8)
    else if number == 6 || number == 7 then Integer
    else if number == 9 then Payload(Anything)
    else Ignored
  }

  function EnvelopeSchema(utf8: Bytes -> bool): Schema {
    (number: nat) => EnvelopeKind(utf8, number)
  }

  function EnvelopeOf(fs: seq<Field>): Envelope {
    Envelope(
      LastPayload(fs, 1), LastPayload(fs, 2), LastPayload(fs, 3), LastPayload(fs, 4),
      LastVarint(fs, 6), LastVarint(fs, 7) != 0, LastPayload(fs, 9))
  }

  function EnvelopeMeaning(utf8: Bytes -> bool, s: Bytes): Result<Envelope, Error> {
    match Fields(EnvelopeSchema(utf8), s)
    case Err(e) => Err(e)
    case Ok(fs) => Ok(EnvelopeOf(fs))
  }

  datatype Deadletter = Deadletter(
    reasonCode: nat, reason: string, detail: Bytes,
    originalMessageID: Bytes, originalSource: Bytes, originalTarget: Bytes)

  /** Every nested original must itself decode, the replaced ones included. */
  function NestedEnvelope(utf8: Bytes -> bool): Kind {
    Payload((b: Bytes) =>
              match EnvelopeMeaning(utf8, b)
              case Ok(_) => None
              case Err(e) => Some(e))
  }

  function DeadletterKind(utf8: Bytes -> bool, number: nat): Kind {
    if number == 1 then NestedEnvelope(utf8)
    else if number == 2 then Integer
    else if number == 3 then Text(utf8)
    else Ignored
  }

  function DeadletterSchema(utf8: Bytes -> bool): Schema {
    (number: nat) => DeadletterKind(utf8, number)
  }

  /** The deadletter projection once its fields and its original are known. */
  function DeadletterOf(original: Envelope, reason: nat, detail: Bytes, reasonName: nat -> Option<string>):
    Result<Deadletter, Error>
  {
    if reason >= UINT32_SPAN then Err(ReasonTooLarge)
    else
      match reasonName(reason)
      case None => Err(ReasonNameMissing)
      case Some(name) =>
        Ok(Deadletter(reason, name, detail, original.messageID, original.source, original.target))
  }

  function DeadletterMeaning(utf8: Bytes -> bool, reasonName: nat -> Option<string>, s: Bytes):
    Result<Deadletter, Error>
  {
    match Fields(DeadletterSchema(utf8), s)
    case Err(e) => Err(e)
    case Ok(fs) =>
      match EnvelopeMeaning(utf8, LastPayload(fs, 1))
      case Err(e) => Err(e)
      case Ok(original) => DeadletterOf(original, LastVarint(fs, 2), LastPayload(fs, 3), reasonName)
  }
}
