/**
 * The schema-driven serialiser behind both query protocols: records of strings, fixed-width numbers, slices,
 * nested records and optional pointers, written field by field through an encoder that fixes the byte order
 * and the string convention.
 */
module Wire {
  import opened Bytes

  /** SQP: big-endian, strings behind a one-byte length. A2S: little-endian, strings ended by a NUL. */
  datatype Encoder = SqpEncoder | A2sEncoder

  /** A record field: held in place, behind a pointer, or behind a nil pointer. */
  datatype Field = Inline(value: Plain) | Pointer(target: Plain) | Nil

  /** `Unsupported` stands for a value of a kind the binary package refuses to write (a map, say). */
  datatype Plain =
    | Text(text: seq<byte>)
    | Number(width: nat, n: nat)
    | Numbers(elementWidth: nat, elements: seq<nat>)
    | Record(fields: seq<Field>)
    | Unsupported

  /** What a write leaves behind: the bytes appended, and whether it reached the end without an error. */
  datatype Emission = Emission(bytes: seq<byte>, ok: bool)

  // ---------------------------------------------------------------- the format as a function

  function EncodeNumber(enc: Encoder, n: nat, width: nat): (r: seq<byte>)
    ensures |r| == width
  {
    match enc
    case SqpEncoder => BigEndian(n, width)
    case A2sEncoder => LittleEndian(n, width)
  }

  function EncodeNumbers(enc: Encoder, ns: seq<nat>, width: nat): seq<byte> {
    if ns == [] then [] else EncodeNumber(enc, ns[0], width) + EncodeNumbers(enc, ns[1..], width)
  }

  function EncodeText(enc: Encoder, s: seq<byte>): seq<byte> {
    match enc
    case SqpEncoder => [|s| % 256] + s
    case A2sEncoder => s + [0]
  }

  function Emit(enc: Encoder, v: Plain): Emission
    decreases v
  {
    match v
    case Text(s) => Emission(EncodeText(enc, s), true)
    case Number(w, n) => Emission(EncodeNumber(enc, n, w), true)
    case Numbers(w, ns) => Emission(EncodeNumbers(enc, ns, w), true)
    case Record(fs) => EmitFields(enc, fs)
    case Unsupported => Emission([], false)
  }

  function EmitField(enc: Encoder, f: Field): Emission
    decreases f
  {
    match f
    case Inline(v) => Emit(enc, v)
    case Pointer(v) => Emit(enc, v)
    case Nil => Emission([], true)
  }

  function EmitFields(enc: Encoder, fs: seq<Field>): Emission
    decreases fs
  {
    if fs == [] then Emission([], true)
    else
      var first := EmitField(enc, fs[0]);
      if first.ok then Prepend(first.bytes, EmitFields(enc, fs[1..])) else first
  }

  function Prepend(written: seq<byte>, e: Emission): Emission {
    Emission(written + e.bytes, e.ok)
  }

  // ---------------------------------------------------------------- the writers

  class ByteBuffer {
    var bytes: seq<byte>

    constructor ()
      ensures bytes == []
    {
      bytes := [];
    }

    method Append(more: seq<byte>)
      modifies this
      ensures bytes == old(bytes) + more
    {
      bytes := bytes + more;
    }
  }

  method WriteString(resp: ByteBuffer, enc: Encoder, s: seq<byte>)
    modifies resp
    ensures resp.bytes == old(resp.bytes) + EncodeText(enc, s)
  {
    match enc {
      case SqpEncoder =>
        resp.Append([|s| % 256]);
        resp.Append(s);
        assert old(resp.bytes) + [|s| % 256] + s == old(resp.bytes) + EncodeText(enc, s);
      case A2sEncoder =>
        resp.Append(s + [0]);
    }
  }

  method WriteNumbers(resp: ByteBuffer, enc: Encoder, ns: seq<nat>, width: nat)
    modifies resp
    ensures resp.bytes == old(resp.bytes) + EncodeNumbers(enc, ns, width)
  {
    var i := 0;
    while i < |ns|
      invariant 0 <= i <= |ns|
      invariant resp.bytes + EncodeNumbers(enc, ns[i..], width) == old(resp.bytes) + EncodeNumbers(enc, ns, width)
    {
      assert ns[i..] == [ns[i]] + ns[i + 1..];
      EncodeNumbersStep(enc, ns[i], ns[i + 1..], width);
      Prefixed(resp.bytes, EncodeNumber(enc, ns[i], width), EncodeNumbers(enc, ns[i + 1..], width));
      resp.Append(EncodeNumber(enc, ns[i], width));
      i := i + 1;
    }
  }

  /** Write: any value that is neither a string nor a struct. The binary package refuses some kinds. */
  method Write(resp: ByteBuffer, enc: Encoder, v: Plain) returns (ok: bool)
    requires !v.Text? && !v.Record?
    modifies resp
    ensures ok == Emit(enc, v).ok
    ensures resp.bytes == old(resp.bytes) + Emit(enc, v).bytes
  {
    match v {
      case Number(w, n) =>
        resp.Append(EncodeNumber(enc, n, w));
        ok := true;
      case Numbers(w, ns) =>
        WriteNumbers(resp, enc, ns, w);
        ok := true;
      case Unsupported =>
        ok := false;
    }
  }

  /** Writes the fields in order, recursing into structs, skipping nil pointers, stopping at the first error. */
  method WireWrite(resp: ByteBuffer, enc: Encoder, fields: seq<Field>) returns (ok: bool)
    modifies resp
    ensures ok == EmitFields(enc, fields).ok
    ensures resp.bytes == old(resp.bytes) + EmitFields(enc, fields).bytes
    decreases fields
  {
    ghost var written: seq<byte> := [];
    var i := 0;
    while i < |fields|
      invariant 0 <= i <= |fields|
      invariant resp.bytes == old(resp.bytes) + written
      invariant EmitFields(enc, fields) == Prepend(written, EmitFields(enc, fields[i..]))
    {
      EmitStep(enc, fields, i, written);
      ghost var f := EmitField(enc, fields[i]);
      if fields[i].Nil? {
        i := i + 1;
        continue;
      }
      var v := if fields[i].Pointer? then fields[i].target else fields[i].value;
      assert (fields decreases to fields[i]) && (fields[i] decreases to v);
      var fine := WriteValue(resp, enc, v);
      assert fine == f.ok && resp.bytes == old(resp.bytes) + written + f.bytes;
      Prefixed(old(resp.bytes), written, f.bytes);
      written := written + f.bytes;
      if !fine {
        return false;
      }
      i := i + 1;
    }
    return true;
  }

  method WriteValue(resp: ByteBuffer, enc: Encoder, v: Plain) returns (ok: bool)
    modifies resp
    ensures ok == Emit(enc, v).ok
    ensures resp.bytes == old(resp.bytes) + Emit(enc, v).bytes
    decreases v
  {
    match v {
      case Record(fs) =>
        ok := WireWrite(resp, enc, fs);
      case Text(s) =>
        WriteString(resp, enc, s);
        ok := true;
      case _ =>
        ok := Write(resp, enc, v);
    }
  }

  /** One iteration: what remains of the record is the field at `i` and then the fields after it. */
  lemma EmitStep(enc: Encoder, fields: seq<Field>, i: nat, written: seq<byte>)
    requires i < |fields|
    ensures Prepend(written, EmitFields(enc, fields[i..])) == (
              var f := EmitField(enc, fields[i]);
              if f.ok then Prepend(written + f.bytes, EmitFields(enc, fields[i + 1..]))
              else Emission(written + f.bytes, false))
  {
    assert fields[i..][0] == fields[i] && fields[i..][1..] == fields[i + 1..];
    var f, rest := EmitField(enc, fields[i]), EmitFields(enc, fields[i + 1..]);
    assert written + (f.bytes + rest.bytes) == written + f.bytes + rest.bytes;
  }

  // ---------------------------------------------------------------- reading it back

  /** The shape of a value. A counted slice takes its length from an earlier number of the same record. */
  datatype Schema =
    | TextS
    | NumberS(width: nat)
    | FixedS(elementWidth: nat, count: nat)
    | CountedS(elementWidth: nat, counter: nat)
    | RecordS(fields: seq<FieldSchema>)

  /** An optional field is a pointer whose presence the reader knows beforehand. */
  datatype FieldSchema = InlineS(schema: Schema) | OptionalS(schema: Schema, present: bool)

  function DecodeNumber(enc: Encoder, b: seq<byte>): (n: nat)
    ensures n < Range(|b|)
  {
    match enc
    case SqpEncoder => FromBigEndian(b)
    case A2sEncoder => FromLittleEndian(b)
  }

  function DecodeNumbers(enc: Encoder, count: nat, width: nat, b: seq<byte>): Option<(seq<nat>, seq<byte>)> {
    if count == 0 then Some(([], b))
    else if |b| < width then None
    else
      match DecodeNumbers(enc, count - 1, width, b[width..])
      case None => None
      case Some((ns, rest)) => Some(([DecodeNumber(enc, b[..width])] + ns, rest))
  }

  /** The index of the first NUL, or the length when there is none. */
  function FirstNul(b: seq<byte>): (k: nat)
    ensures k <= |b|
    ensures forall i :: 0 <= i < k ==> b[i] != 0
    ensures k < |b| ==> b[k] == 0
  {
    if b == [] || b[0] == 0 then 0 else 1 + FirstNul(b[1..])
  }

  function DecodeText(enc: Encoder, b: seq<byte>): Option<(seq<byte>, seq<byte>)> {
    match enc
    case SqpEncoder =>
      if b == [] || |b| <= b[0] then None else
        var end: nat := 1 + b[0] as int;
        Some((b[1..end], b[end..]))
    case A2sEncoder =>
      var k := FirstNul(b);
      if k == |b| then None else Some((b[..k], b[k + 1..]))
  }

  predicate Counts(prior: seq<Field>, counter: nat) {
    counter < |prior| && prior[counter].Inline? && prior[counter].value.Number?
  }

  function Decode(enc: Encoder, s: Schema, prior: seq<Field>, b: seq<byte>): Option<(Plain, seq<byte>)>
    decreases s
  {
    match s
    case TextS =>
      (match DecodeText(enc, b)
       case None => None
       case Some((t, rest)) => Some((Text(t), rest)))
    case NumberS(w) =>
      if |b| < w then None else Some((Number(w, DecodeNumber(enc, b[..w])), b[w..]))
    case FixedS(w, count) =>
      (match DecodeNumbers(enc, count, w, b)
       case None => None
       case Some((ns, rest)) => Some((Numbers(w, ns), rest)))
    case CountedS(w, counter) =>
      if !Counts(prior, counter) then None else
        (match DecodeNumbers(enc, prior[counter].value.n, w, b)
         case None => None
         case Some((ns, rest)) => Some((Numbers(w, ns), rest)))
    case RecordS(fss) =>
      (match DecodeFields(enc, fss, [], b)
       case None => None
       case Some((fs, rest)) => Some((Record(fs), rest)))
  }

  function DecodeField(enc: Encoder, fs: FieldSchema, prior: seq<Field>, b: seq<byte>): Option<(Field, seq<byte>)>
    decreases fs
  {
    match fs
    case InlineS(s) =>
      (match Decode(enc, s, prior, b)
       case None => None
       case Some((v, rest)) => Some((Inline(v), rest)))
    case OptionalS(s, present) =>
      if !present then Some((Nil, b)) else
        (match Decode(enc, s, prior, b)
         case None => None
         case Some((v, rest)) => Some((Pointer(v), rest)))
  }

  /** Reads the fields after `prior`; the result holds only the newly read ones. */
  function DecodeFields(enc: Encoder, fss: seq<FieldSchema>, prior: seq<Field>, b: seq<byte>)
    : Option<(seq<Field>, seq<byte>)>
    decreases fss
  {
    if fss == [] then Some(([], b)) else
      match DecodeField(enc, fss[0], prior, b)
      case None => None
      case Some((f, middle)) =>
        match DecodeFields(enc, fss[1..], prior + [f], middle)
        case None => None
        case Some((fs, rest)) => Some(([f] + fs, rest))
  }

  // ---------------------------------------------------------------- the values a schema carries

  /** The strings a convention can carry: at most 255 bytes for SQP, no NUL inside for A2S. */
  predicate Sendable(enc: Encoder, s: seq<byte>) {
    match enc
    case SqpEncoder => |s| <= 255
    case A2sEncoder => 0 !in s
  }

  predicate Fits(ns: seq<nat>, width: nat) {
    forall i :: 0 <= i < |ns| ==> ns[i] < Range(width)
  }

  predicate Conforms(enc: Encoder, s: Schema, prior: seq<Field>, v: Plain)
    decreases s
  {
    match s
    case TextS => v.Text? && Sendable(enc, v.text)
    case NumberS(w) => v.Number? && v.width == w && v.n < Range(w)
    case FixedS(w, count) => v.Numbers? && v.elementWidth == w && |v.elements| == count && Fits(v.elements, w)
    case CountedS(w, counter) =>
      && v.Numbers? && v.elementWidth == w && Fits(v.elements, w)
      && Counts(prior, counter) && |v.elements| == prior[counter].value.n
    case RecordS(fss) => v.Record? && FieldsConform(enc, fss, [], v.fields)
  }

  predicate FieldConforms(enc: Encoder, fs: FieldSchema, prior: seq<Field>, f: Field)
    decreases fs
  {
    match fs
    case InlineS(s) => f.Inline? && Conforms(enc, s, prior, f.value)
    case OptionalS(s, present) => if present then f.Pointer? && Conforms(enc, s, prior, f.target) else f.Nil?
  }

  predicate FieldsConform(enc: Encoder, fss: seq<FieldSchema>, prior: seq<Field>, fs: seq<Field>)
    decreases fss
  {
    |fs| == |fss| &&
    (fss != [] ==> FieldConforms(enc, fss[0], prior, fs[0]) && FieldsConform(enc, fss[1..], prior + [fs[0]], fs[1..]))
  }

  // ---------------------------------------------------------------- round trips

  lemma NumberDecodes(enc: Encoder, n: nat, width: nat)
    requires n < Range(width)
    ensures DecodeNumber(enc, EncodeNumber(enc, n, width)) == n
  {
    FittingRoundTrip(n, width);
  }

  lemma NumberEncodes(enc: Encoder, b: seq<byte>)
    ensures EncodeNumber(enc, DecodeNumber(enc, b), |b|) == b
  {
    BytesRoundTrip(b);
  }

  lemma Halves(a: seq<byte>, b: seq<byte>)
    ensures (a + b)[..|a|] == a && (a + b)[|a|..] == b
  {
  }

  lemma Prefixed(a: seq<byte>, b: seq<byte>, c: seq<byte>)
    ensures (a + b) + c == a + (b + c)
  {
  }

  /** Decoding a slice off a buffer that begins with one whole element. */
  lemma DecodeNumbersStep(enc: Encoder, count: nat, head: seq<byte>, tail: seq<byte>)
    requires count >= 1
    ensures DecodeNumbers(enc, count, |head|, head + tail) == (
              match DecodeNumbers(enc, count - 1, |head|, tail)
              case None => None
              case Some((ns, rest)) => Some(([DecodeNumber(enc, head)] + ns, rest)))
  {
    Halves(head, tail);
  }

  lemma {:induction false} NumbersDecode(enc: Encoder, ns: seq<nat>, width: nat, rest: seq<byte>)
    requires Fits(ns, width)
    ensures DecodeNumbers(enc, |ns|, width, EncodeNumbers(enc, ns, width) + rest) == Some((ns, rest))
  {
    if ns == [] {
      assert EncodeNumbers(enc, ns, width) + rest == rest;
    } else {
      var head, tail := EncodeNumber(enc, ns[0], width), EncodeNumbers(enc, ns[1..], width);
      Prefixed(head, tail, rest);
      DecodeNumbersStep(enc, |ns|, head, tail + rest);
      NumberDecodes(enc, ns[0], width);
      NumbersDecode(enc, ns[1..], width, rest);
      assert [ns[0]] + ns[1..] == ns;
    }
  }

  /** Of any SQP string a client reads as many bytes as its length modulo 2^8, and takes the others for what follows. */
  lemma {:induction false} SqpTextReads(s: seq<byte>, rest: seq<byte>)
    ensures DecodeText(SqpEncoder, EncodeText(SqpEncoder, s) + rest) == Some((s[..|s| % 256], s[|s| % 256..] + rest))
  {
    var b, n := EncodeText(SqpEncoder, s) + rest, |s| % 256;
    assert b[0] == n && b[1..1 + n] == s[..n] && b[1 + n..] == s[n..] + rest;
  }

  /** Of an A2S string with a NUL inside a client reads what comes before it, and takes the others for what follows. */
  lemma {:induction false} A2sTextReads(head: seq<byte>, more: seq<byte>, rest: seq<byte>)
    requires 0 !in head
    ensures DecodeText(A2sEncoder, EncodeText(A2sEncoder, head + [0] + more) + rest) == Some((head, more + [0] + rest))
  {
    var tail := more + [0] + rest;
    var b := head + [0] + tail;
    assert EncodeText(A2sEncoder, head + [0] + more) + rest == b;
    assert forall i :: 0 <= i < |head| ==> b[i] == head[i] && head[i] in head;
    assert b[|head|] == 0 && FirstNul(b) == |head|;
    assert b[..|head|] == head && b[|head| + 1..] == tail;
  }

  /** A string survives its own encoding exactly when the convention can carry it. */
  lemma TextRoundTrip(enc: Encoder, s: seq<byte>, rest: seq<byte>)
    ensures DecodeText(enc, EncodeText(enc, s) + rest) == Some((s, rest)) <==> Sendable(enc, s)
  {
    var b := EncodeText(enc, s) + rest;
    match enc {
      case SqpEncoder =>
        assert b[0] == |s| % 256;
        if |s| <= 255 {
          assert b[1..1 + |s|] == s && b[1 + |s|..] == rest;
        }
      case A2sEncoder =>
        assert b[|s|] == 0;
        if 0 !in s {
          assert FirstNul(b) == |s| by {
            assert forall i :: 0 <= i < |s| ==> b[i] == s[i] && s[i] in s;
          }
          assert b[..|s|] == s && b[|s| + 1..] == rest;
        } else {
          var i :| 0 <= i < |s| && s[i] == 0;
          assert b[i] == 0;
        }
    }
  }

  /** Every conforming value is written without error and read back, leaving exactly the bytes that followed it. */
  lemma {:induction false} RoundTrip(enc: Encoder, s: Schema, prior: seq<Field>, v: Plain, rest: seq<byte>)
    requires Conforms(enc, s, prior, v)
    ensures Emit(enc, v).ok
    ensures Decode(enc, s, prior, Emit(enc, v).bytes + rest) == Some((v, rest))
    decreases s
  {
    match s {
      case TextS => TextRoundTrip(enc, v.text, rest);
      case NumberS(w) =>
        Halves(EncodeNumber(enc, v.n, w), rest);
        NumberDecodes(enc, v.n, w);
      case FixedS(w, count) => NumbersDecode(enc, v.elements, w, rest);
      case CountedS(w, counter) => NumbersDecode(enc, v.elements, w, rest);
      case RecordS(fss) => FieldsRoundTrip(enc, fss, [], v.fields, rest);
    }
  }

  lemma {:induction false} FieldsRoundTrip(enc: Encoder, fss: seq<FieldSchema>, prior: seq<Field>, fs: seq<Field>,
                                           rest: seq<byte>)
    requires FieldsConform(enc, fss, prior, fs)
    ensures EmitFields(enc, fs).ok
    ensures DecodeFields(enc, fss, prior, EmitFields(enc, fs).bytes + rest) == Some((fs, rest))
    decreases fss
  {
    if fss == [] {
      assert EmitFields(enc, fs).bytes + rest == rest;
    } else {
      var head, tail := EmitField(enc, fs[0]).bytes, EmitFields(enc, fs[1..]).bytes;
      Prefixed(head, tail, rest);
      FieldRoundTrip(enc, fss[0], prior, fs[0], tail + rest);
      FieldsRoundTrip(enc, fss[1..], prior + [fs[0]], fs[1..], rest);
      assert [fs[0]] + fs[1..] == fs;
    }
  }

  lemma {:induction false} FieldRoundTrip(enc: Encoder, fs: FieldSchema, prior: seq<Field>, f: Field, rest: seq<byte>)
    requires FieldConforms(enc, fs, prior, f)
    ensures EmitField(enc, f).ok
    ensures DecodeField(enc, fs, prior, EmitField(enc, f).bytes + rest) == Some((f, rest))
    decreases fs
  {
    match f {
      case Inline(v) => RoundTrip(enc, fs.schema, prior, v, rest);
      case Pointer(v) => RoundTrip(enc, fs.schema, prior, v, rest);
      case Nil => assert EmitField(enc, f).bytes + rest == rest;
    }
  }

  lemma {:induction false} NumbersCanonical(enc: Encoder, count: nat, width: nat, b: seq<byte>)
    requires DecodeNumbers(enc, count, width, b).Some?
    ensures var (ns, rest) := DecodeNumbers(enc, count, width, b).value;
            |ns| == count && Fits(ns, width) && EncodeNumbers(enc, ns, width) + rest == b
  {
    if count > 0 {
      var head, tail := b[..width], b[width..];
      assert b == head + tail;
      DecodeNumbersStep(enc, count, head, tail);
      NumbersCanonical(enc, count - 1, width, tail);
      NumberEncodes(enc, head);
      var (ns, rest) := DecodeNumbers(enc, count - 1, width, tail).value;
      EncodeNumbersStep(enc, DecodeNumber(enc, head), ns, width);
      Prefixed(head, EncodeNumbers(enc, ns, width), rest);
    }
  }

  lemma EncodeNumbersStep(enc: Encoder, n: nat, ns: seq<nat>, width: nat)
    ensures EncodeNumbers(enc, [n] + ns, width) == EncodeNumber(enc, n, width) + EncodeNumbers(enc, ns, width)
  {
    assert ([n] + ns)[1..] == ns;
  }

  lemma TextCanonical(enc: Encoder, b: seq<byte>)
    requires DecodeText(enc, b).Some?
    ensures var (t, rest) := DecodeText(enc, b).value; Sendable(enc, t) && EncodeText(enc, t) + rest == b
  {
  }

  /** Whatever is read back conforms, and writing it again gives the very bytes it was read from. */
  lemma {:induction false} Canonical(enc: Encoder, s: Schema, prior: seq<Field>, b: seq<byte>)
    requires Decode(enc, s, prior, b).Some?
    ensures var (v, rest) := Decode(enc, s, prior, b).value;
            Conforms(enc, s, prior, v) && Emit(enc, v).ok && Emit(enc, v).bytes + rest == b
    decreases s
  {
    match s {
      case TextS => TextCanonical(enc, b);
      case NumberS(w) =>
        NumberEncodes(enc, b[..w]);
        assert b == b[..w] + b[w..];
      case FixedS(w, count) => NumbersCanonical(enc, count, w, b);
      case CountedS(w, counter) => NumbersCanonical(enc, prior[counter].value.n, w, b);
      case RecordS(fss) => FieldsCanonical(enc, fss, [], b);
    }
  }

  lemma {:induction false} FieldsCanonical(enc: Encoder, fss: seq<FieldSchema>, prior: seq<Field>, b: seq<byte>)
    requires DecodeFields(enc, fss, prior, b).Some?
    ensures var (fs, rest) := DecodeFields(enc, fss, prior, b).value;
            && FieldsConform(enc, fss, prior, fs)
            && EmitFields(enc, fs).ok && EmitFields(enc, fs).bytes + rest == b
    decreases fss
  {
    if fss != [] {
      var (f, middle) := DecodeField(enc, fss[0], prior, b).value;
      FieldCanonical(enc, fss[0], prior, b);
      FieldsCanonical(enc, fss[1..], prior + [f], middle);
      var (fs, rest) := DecodeFields(enc, fss[1..], prior + [f], middle).value;
      EmitPrepend(enc, f, fs, rest);
    }
  }

  lemma EmitPrepend(enc: Encoder, f: Field, fs: seq<Field>, rest: seq<byte>)
    requires EmitField(enc, f).ok
    ensures ([f] + fs)[0] == f && ([f] + fs)[1..] == fs
    ensures EmitFields(enc, [f] + fs).ok == EmitFields(enc, fs).ok
    ensures EmitFields(enc, [f] + fs).bytes + rest == EmitField(enc, f).bytes + (EmitFields(enc, fs).bytes + rest)
  {
    assert ([f] + fs)[1..] == fs;
  }

  lemma {:induction false} FieldCanonical(enc: Encoder, fs: FieldSchema, prior: seq<Field>, b: seq<byte>)
    requires DecodeField(enc, fs, prior, b).Some?
    ensures var (f, rest) := DecodeField(enc, fs, prior, b).value;
            FieldConforms(enc, fs, prior, f) && EmitField(enc, f).ok && EmitField(enc, f).bytes + rest == b
    decreases fs
  {
    match fs {
      case InlineS(s) => Canonical(enc, s, prior, b);
      case OptionalS(s, present) =>
        if present {
          Canonical(enc, s, prior, b);
        }
    }
  }

  /** A value survives writing and reading under a schema exactly when it conforms to it. */
  lemma RoundTripExactly(enc: Encoder, s: Schema, prior: seq<Field>, v: Plain, rest: seq<byte>)
    ensures Decode(enc, s, prior, Emit(enc, v).bytes + rest) == Some((v, rest)) <==> Conforms(enc, s, prior, v)
  {
    if Conforms(enc, s, prior, v) {
      RoundTrip(enc, s, prior, v, rest);
    } else if Decode(enc, s, prior, Emit(enc, v).bytes + rest).Some? {
      Canonical(enc, s, prior, Emit(enc, v).bytes + rest);
    }
  }

  // ---------------------------------------------------------------- records in parts

  /** Writing two runs of fields is writing the first and then the second. */
  lemma {:induction false} EmitSplit(enc: Encoder, xs: seq<Field>, ys: seq<Field>)
    requires EmitFields(enc, xs).ok
    ensures EmitFields(enc, xs + ys) == Prepend(EmitFields(enc, xs).bytes, EmitFields(enc, ys))
    decreases xs
  {
    if xs == [] {
      assert xs + ys == ys;
    } else {
      EmitSplit(enc, xs[1..], ys);
      assert (xs + ys)[0] == xs[0] && (xs + ys)[1..] == xs[1..] + ys;
      Prefixed(EmitField(enc, xs[0]).bytes, EmitFields(enc, xs[1..]).bytes, EmitFields(enc, ys).bytes);
    }
  }

  lemma EmitOne(enc: Encoder, f: Field)
    ensures EmitFields(enc, [f]).ok == EmitField(enc, f).ok
    ensures EmitFields(enc, [f]).bytes == EmitField(enc, f).bytes
  {
    assert [f][1..] == [];
  }

  lemma EmitPair(enc: Encoder, f: Field, g: Field)
    requires EmitField(enc, f).ok && EmitField(enc, g).ok
    ensures EmitFields(enc, [f, g]) == Emission(EmitField(enc, f).bytes + EmitField(enc, g).bytes, true)
  {
    EmitOne(enc, f);
    EmitOne(enc, g);
    EmitSplit(enc, [f], [g]);
    assert [f] + [g] == [f, g];
  }

  /** A record conforms when each field does, given the fields before it. */
  lemma {:induction false} ConformsByIndex(enc: Encoder, fss: seq<FieldSchema>, prior: seq<Field>, fs: seq<Field>)
    requires |fs| == |fss|
    requires forall i :: 0 <= i < |fs| ==> FieldConforms(enc, fss[i], prior + fs[..i], fs[i])
    ensures FieldsConform(enc, fss, prior, fs)
    decreases fss
  {
    if fss != [] {
      assert prior + fs[..0] == prior;
      forall i | 0 <= i < |fs[1..]|
        ensures FieldConforms(enc, fss[1..][i], prior + [fs[0]] + fs[1..][..i], fs[1..][i])
      {
        assert prior + [fs[0]] + fs[1..][..i] == prior + fs[..i + 1];
      }
      ConformsByIndex(enc, fss[1..], prior + [fs[0]], fs[1..]);
    }
  }

  // ---------------------------------------------------------------- errors

  /** Whether a write can succeed: nothing the binary package refuses is reachable. */
  predicate Writable(v: Plain)
    decreases v
  {
    match v
    case Record(fs) => forall f | f in fs :: FieldWritable(f)
    case Unsupported => false
    case _ => true
  }

  predicate FieldWritable(f: Field)
    decreases f
  {
    match f
    case Inline(v) => Writable(v)
    case Pointer(v) => Writable(v)
    case Nil => true
  }

  /** A write fails exactly when some reachable field is of a refused kind. */
  lemma {:induction false} WriteFailsExactly(enc: Encoder, fs: seq<Field>)
    ensures EmitFields(enc, fs).ok <==> forall f | f in fs :: FieldWritable(f)
    decreases fs
  {
    if fs != [] {
      FieldFailsExactly(enc, fs[0]);
      WriteFailsExactly(enc, fs[1..]);
      assert forall f :: f in fs <==> f == fs[0] || f in fs[1..];
    }
  }

  lemma {:induction false} FieldFailsExactly(enc: Encoder, f: Field)
    ensures EmitField(enc, f).ok <==> FieldWritable(f)
    decreases f
  {
    match f {
      case Inline(v) => if v.Record? { WriteFailsExactly(enc, v.fields); }
      case Pointer(v) => if v.Record? { WriteFailsExactly(enc, v.fields); }
      case Nil =>
    }
  }
}
