/** Frame decoding: type widths, integer unpacking under an endianness, the per-field
    bounds check and calibration, the row build, and the whole-buffer frame loop. */
module ReadTools {
  import opened Wrappers
  import opened Runtime
  import opened Rows
  import opened Classes
  import opened ParseCalibration

  /** Type tag to `struct` format code. */
  const STRUCT_CODES: map<string, char> := map[
    "u8" := 'B', "i8" := 'b', "u16" := 'H', "i16" := 'h',
    "u32" := 'I', "i32" := 'i', "u64" := 'Q', "i64" := 'q',
    "f32" := 'f', "float32" := 'f', "f64" := 'd', "float64" := 'd']

  /** Byte width of a `struct` format code. */
  function CodeSize(code: char): nat
  {
    match code
    case 'B' => 1 case 'b' => 1
    case 'H' => 2 case 'h' => 2
    case 'I' => 4 case 'i' => 4 case 'f' => 4
    case 'Q' => 8 case 'q' => 8 case 'd' => 8
    case _ => 0
  }

  predicate IsSignedCode(code: char)
  {
    code == 'b' || code == 'h' || code == 'i' || code == 'q'
  }

  predicate IsFloatCode(code: char)
  {
    code == 'f' || code == 'd'
  }

  /** The integer format codes. */
  predicate IsIntCode(code: char)
  {
    code in "BbHhIiQq"
  }

  /** The reader's failures, one per `raise` on the decoding path. */
  datatype DecodeError =
    | UnknownType(tag: string)                        // [TYPE ERROR] Unknown field type
    | BadBytesLength                                  // [TYPE ERROR] bytes needs a positive length
    | MissingStructCode(tag: string)                  // KeyError in unpack_value
    | StructError(expected: nat, actual: nat)         // struct.unpack on a slice of the wrong length
    | Overflow(field: string, offset: int, size: nat) // [READ ERROR] ... overflows frame boundary
    | FloatConversion(msg: string)                    // float(raw_val) raised
    | Expression(err: ExprError)                      // eval_expr raised
    | PluginMissing(name: string)                     // [PLUGIN ERROR] ... not found in plugin
    | PluginFailed(pluginErr: PluginError)                  // plugin.call raised

  /** `type_size(byte_type, byte_len)`. */
  function TypeSize(tag: string, byteLen: Option<int>): (r: Result<nat, DecodeError>)
    ensures tag in {"u8", "i8"} ==> r == Ok(1)
    ensures tag in {"u16", "i16"} ==> r == Ok(2)
    ensures tag in {"u32", "i32", "f32", "float32"} ==> r == Ok(4)
    ensures tag in {"u64", "i64", "f64", "float64"} ==> r == Ok(8)
    ensures tag == "bytes" ==>
              r == if byteLen.Some? && byteLen.value > 0 then Ok(byteLen.value) else Err(BadBytesLength)
    ensures tag != "bytes" && tag !in STRUCT_CODES ==> r == Err(UnknownType(tag))
  {
    if tag in STRUCT_CODES then Ok(CodeSize(STRUCT_CODES[tag]))
    else if tag == "bytes" then
      (if byteLen.None? || byteLen.value <= 0 then Err(BadBytesLength)
       else Ok(byteLen.value))
    else Err(UnknownType(tag))
  }

  function Pow256(n: nat): (p: nat)
    ensures p > 0
  {
    if n == 0 then 1 else 256 * Pow256(n - 1)
  }

  /** Unsigned big-endian value of a byte string. */
  function UnsignedBE(bs: seq<byte>): nat
    decreases |bs|
  {
    if bs == [] then 0 else UnsignedBE(bs[..|bs| - 1]) * 256 + bs[|bs| - 1]
  }

  /** Unsigned little-endian value of a byte string. */
  function UnsignedLE(bs: seq<byte>): nat
  {
    if bs == [] then 0 else bs[0] + 256 * UnsignedLE(bs[1..])
  }

  /** An unsigned value of `width` bytes read as two's complement. */
  function TwosComplement(u: nat, width: nat): int
  {
    if u >= Pow256(width) / 2 then u - Pow256(width) else u
  }

  function Reverse<T>(s: seq<T>): (r: seq<T>)
    ensures |r| == |s|
    ensures forall i :: 0 <= i < |s| ==> r[i] == s[|s| - 1 - i]
  {
    if s == [] then [] else Reverse(s[1..]) + [s[0]]
  }

  /** The `width` big-endian bytes of x. */
  function EncodeBE(x: nat, width: nat): (bs: seq<byte>)
    ensures |bs| == width
    decreases width
  {
    if width == 0 then [] else EncodeBE(x / 256, width - 1) + [x % 256]
  }

  lemma {:induction false} UnsignedBEBound(bs: seq<byte>)
    ensures UnsignedBE(bs) < Pow256(|bs|)
    decreases |bs|
  {
    if bs != [] {
      UnsignedBEBound(bs[..|bs| - 1]);
    }
  }

  /** Encoding a value that fits and decoding it gives the value back. */
  lemma {:induction false} DecodeEncodeBE(x: nat, width: nat)
    requires x < Pow256(width)
    ensures UnsignedBE(EncodeBE(x, width)) == x
    decreases width
  {
    if width > 0 {
      DecodeEncodeBE(x / 256, width - 1);
      var bs := EncodeBE(x, width);
      assert bs[..|bs| - 1] == EncodeBE(x / 256, width - 1);
    }
  }

  /** Decoding a byte string and encoding the value at the same width gives the bytes back. */
  lemma {:induction false} EncodeDecodeBE(bs: seq<byte>)
    ensures EncodeBE(UnsignedBE(bs), |bs|) == bs
    decreases |bs|
  {
    if bs != [] {
      var init := bs[..|bs| - 1];
      EncodeDecodeBE(init);
      var u := UnsignedBE(bs);
      assert u / 256 == UnsignedBE(init) && u % 256 == bs[|bs| - 1];
      assert bs == init + [bs[|bs| - 1]];
    }
  }

  lemma BigEndianSnoc(s: seq<byte>, b: byte)
    ensures UnsignedBE(s + [b]) == UnsignedBE(s) * 256 + b
  {
    assert (s + [b])[..|s|] == s;
  }

  /** Little-endian decoding is big-endian decoding of the reversed bytes. */
  lemma {:induction false} LittleIsReversedBig(bs: seq<byte>)
    ensures UnsignedLE(bs) == UnsignedBE(Reverse(bs))
    decreases |bs|
  {
    if bs != [] {
      LittleIsReversedBig(bs[1..]);
      BigEndianSnoc(Reverse(bs[1..]), bs[0]);
    }
  }

  lemma {:induction false} ReverseReverse<T>(s: seq<T>)
    ensures Reverse(Reverse(s)) == s
  {
    assert forall i :: 0 <= i < |s| ==> Reverse(Reverse(s))[i] == s[i];
  }

  /** The byte string reordered most significant byte first: `<` reverses, `>` keeps. */
  function MostSignificantFirst(bs: seq<byte>, endian: string): (r: seq<byte>)
    ensures |r| == |bs|
  {
    if endian == "little" then Reverse(bs) else bs
  }

  /** The unsigned value of a byte string under an endianness. */
  function ReadUnsigned(bs: seq<byte>, endian: string): nat
  {
    if endian == "little" then UnsignedLE(bs) else UnsignedBE(bs)
  }

  /** Reading under any endianness is big-endian reading of the reordered bytes, and
      reordering twice restores the bytes. */
  lemma ReadUnsignedIsBigEndian(bs: seq<byte>, endian: string)
    ensures ReadUnsigned(bs, endian) == UnsignedBE(MostSignificantFirst(bs, endian))
    ensures MostSignificantFirst(MostSignificantFirst(bs, endian), endian) == bs
  {
    if endian == "little" {
      LittleIsReversedBig(bs);
      ReverseReverse(bs);
    }
  }

  /** `struct.unpack(endian_char + code, data)[0]` for one format code: exactly the
      code's width of bytes is needed; "little" is little-endian and every other endian
      string big-endian; floats stay opaque (their bytes, most significant first). */
  function UnpackCode(data: seq<byte>, code: char, endian: string, floatOfBytes: seq<byte> -> PyFloat)
    : (r: Result<Value, DecodeError>)
    ensures r.Ok? <==> |data| == CodeSize(code)
    ensures IsIntCode(code) && r.Ok? ==> r.value.Int?
  {
    var width := CodeSize(code);
    if |data| != width then Err(StructError(width, |data|))
    else if IsFloatCode(code) then Ok(Float(floatOfBytes(MostSignificantFirst(data, endian))))
    else
      var u := ReadUnsigned(data, endian);
      Ok(Int(if IsSignedCode(code) then TwosComplement(u, width) else u))
  }

  /** `unpack_value(data, byte_type, endian)`: `bytes` passes through unchanged, a
      tag without a format code raises. */
  function UnpackValue(data: seq<byte>, tag: string, endian: string, floatOfBytes: seq<byte> -> PyFloat)
    : (r: Result<Value, DecodeError>)
    ensures tag == "bytes" ==> r == Ok(Bytes(data))
    ensures tag != "bytes" && tag !in STRUCT_CODES ==> r == Err(MissingStructCode(tag))
    ensures tag != "bytes" && tag in STRUCT_CODES ==> r == UnpackCode(data, STRUCT_CODES[tag], endian, floatOfBytes)
  {
    if tag == "bytes" then Ok(Bytes(data))
    else if tag !in STRUCT_CODES then Err(MissingStructCode(tag))
    else UnpackCode(data, STRUCT_CODES[tag], endian, floatOfBytes)
  }

  /** Every tag's format code has the width `type_size` reports, so a slice of that
      size never raises `struct.error`. */
  lemma TypeSizeMatchesUnpack(data: seq<byte>, tag: string, byteLen: Option<int>, endian: string,
                              floatOfBytes: seq<byte> -> PyFloat)
    requires TypeSize(tag, byteLen).Ok? && |data| == TypeSize(tag, byteLen).value
    ensures UnpackValue(data, tag, endian, floatOfBytes).Ok?
  {
  }

  /** The values an integer code can hold. */
  predicate InCodeRange(x: int, code: char)
  {
    var p := Pow256(CodeSize(code));
    if IsSignedCode(code) then -(p / 2) <= x < p / 2 else 0 <= x < p
  }

  /** The unsigned pattern of x at `width` bytes (x itself when it is not negative). */
  function Unsigned(x: int, width: nat): int
  {
    if x < 0 then x + Pow256(width) else x
  }

  /** Two's complement is a bijection between the signed and the unsigned range. */
  lemma TwosComplementBijection(x: int, u: nat, width: nat)
    requires width > 0
    ensures -(Pow256(width) / 2) <= x < Pow256(width) / 2 ==>
              0 <= Unsigned(x, width) < Pow256(width) && TwosComplement(Unsigned(x, width), width) == x
    ensures u < Pow256(width) ==>
              -(Pow256(width) / 2) <= TwosComplement(u, width) < Pow256(width) / 2 &&
              Unsigned(TwosComplement(u, width), width) == u
  {
    assert Pow256(width) == 256 * Pow256(width - 1);
  }

  /** `struct.pack` for an integer code: the encoder the decoder inverts. */
  function PackCode(x: int, code: char, endian: string): (bs: seq<byte>)
    requires IsIntCode(code) && InCodeRange(x, code)
    ensures |bs| == CodeSize(code)
  {
    var width := CodeSize(code);
    WidthFacts(code);
    TwosComplementBijection(x, 0, width);
    MostSignificantFirst(EncodeBE(Unsigned(x, width), width), endian)
  }

  lemma WidthFacts(code: char)
    requires IsIntCode(code)
    ensures CodeSize(code) > 0 && !IsFloatCode(code)
  {
  }

  /** Round trip for every integer code and both endiannesses: packing then
      unpacking gives the integer back. */
  lemma PackUnpack(x: int, code: char, endian: string, floatOfBytes: seq<byte> -> PyFloat)
    requires IsIntCode(code) && InCodeRange(x, code)
    ensures UnpackCode(PackCode(x, code, endian), code, endian, floatOfBytes) == Ok(Int(x))
  {
    var width := CodeSize(code);
    WidthFacts(code);
    TwosComplementBijection(x, 0, width);
    var u := Unsigned(x, width);
    var be := EncodeBE(u, width);
    DecodeEncodeBE(u, width);
    ReadUnsignedIsBigEndian(be, endian);
    ReadUnsignedIsBigEndian(MostSignificantFirst(be, endian), endian);
    assert ReadUnsigned(PackCode(x, code, endian), endian) == u;
  }

  /** The other round trip: unpacking an integer and packing the value again gives
      the same bytes. */
  lemma UnpackPack(data: seq<byte>, code: char, endian: string, floatOfBytes: seq<byte> -> PyFloat)
    requires IsIntCode(code) && |data| == CodeSize(code)
    ensures UnpackCode(data, code, endian, floatOfBytes).Ok?
    ensures InCodeRange(UnpackCode(data, code, endian, floatOfBytes).value.n, code)
    ensures PackCode(UnpackCode(data, code, endian, floatOfBytes).value.n, code, endian) == data
  {
    var width := CodeSize(code);
    WidthFacts(code);
    var be := MostSignificantFirst(data, endian);
    ReadUnsignedIsBigEndian(data, endian);
    var u := UnsignedBE(be);
    UnsignedBEBound(be);
    EncodeDecodeBE(be);
    TwosComplementBijection(0, u, width);
    var x := UnpackCode(data, code, endian, floatOfBytes).value.n;
    assert Unsigned(x, width) == u;
  }

  /** Endianness is read as "little" or not: little-endian decoding equals big-endian
      decoding of the reversed bytes, and any other endian string decodes as "big". */
  lemma EndianRule(data: seq<byte>, tag: string, endian: string, floatOfBytes: seq<byte> -> PyFloat)
    requires tag != "bytes"
    ensures UnpackValue(data, tag, "little", floatOfBytes) == UnpackValue(Reverse(data), tag, "big", floatOfBytes)
    ensures endian != "little" ==>
              UnpackValue(data, tag, endian, floatOfBytes) == UnpackValue(data, tag, "big", floatOfBytes)
  {
    LittleIsReversedBig(data);
  }

  /** The host-language services the decoder needs beside the evaluator's. */
  datatype DecodeHost = DecodeHost(
    expr: ExprHost,                          // ast.parse, eval, float(), dir(math)
    floatOfBytes: seq<byte> -> PyFloat,      // IEEE 754 decoding of a big-endian pattern
    roundTo: (PyFloat, int) -> PyFloat)      // round(x, digits)

  /** The calibration step: an expression is evaluated on `float(raw)`; otherwise a
      plugin name the plugin does not have is an error, and a plugin function's result
      or failure is passed on; with neither the raw value is kept. */
  function Calibrate(raw: Value, f: Field, plugin: CalibrationPlugin, host: DecodeHost)
    : (r: Result<Value, DecodeError>)
    ensures Truthy(f.calibrationExpression) && r.Ok? ==> r.value.Float?
    ensures Truthy(f.calibrationExpression) && host.expr.toFloat(raw).Err? ==>
              r == Err(FloatConversion(host.expr.toFloat(raw).error))
    ensures Truthy(f.calibrationExpression) && host.expr.toFloat(raw).Ok? ==>
              var e := EvalExpr(f.calibrationExpression.value, host.expr.toFloat(raw).value, host.expr);
              (r.Ok? <==> e.Ok?) &&
              (r.Ok? ==> r.value == Float(e.value)) &&
              (r.Err? ==> r.error == Expression(e.error))
    ensures (!Truthy(f.calibrationExpression) && Truthy(f.calibrationPlugin) &&
             !plugin.Has(f.calibrationPlugin.value)) ==> r == Err(PluginMissing(f.calibrationPlugin.value))
    ensures (!Truthy(f.calibrationExpression) && Truthy(f.calibrationPlugin) &&
             plugin.Has(f.calibrationPlugin.value)) ==>
              (r.Ok? <==> plugin.Call(f.calibrationPlugin.value, raw).Ok?) &&
              (r.Ok? ==> r.value == plugin.Call(f.calibrationPlugin.value, raw).value) &&
              (r.Err? ==> r.error == PluginFailed(plugin.Call(f.calibrationPlugin.value, raw).error))
    ensures !Truthy(f.calibrationExpression) && !Truthy(f.calibrationPlugin) ==> r == Ok(raw)
  {
    if Truthy(f.calibrationExpression) then
      match host.expr.toFloat(raw)
      case Err(msg) => Err(FloatConversion(msg))
      case Ok(x) =>
        match EvalExpr(f.calibrationExpression.value, x, host.expr)
        case Err(e) => Err(Expression(e))
        case Ok(y) => Ok(Float(y))
    else if Truthy(f.calibrationPlugin) then
      var name := f.calibrationPlugin.value;
      if !plugin.Has(name) then Err(PluginMissing(name))
      else
        match plugin.Call(name, raw)
        case Err(e) => Err(PluginFailed(e))
        case Ok(v) => Ok(v)
    else Ok(raw)
  }

  /** With an expression present the plugin is never consulted. */
  lemma ExpressionWinsOverPlugin(raw: Value, f: Field, p1: CalibrationPlugin, p2: CalibrationPlugin,
                                 host: DecodeHost)
    requires Truthy(f.calibrationExpression)
    ensures Calibrate(raw, f, p1, host) == Calibrate(raw, f, p2, host)
  {
  }

  /** Rounding touches floats only, and only when a digit count is given. */
  function RoundIfFloat(v: Value, digits: Option<int>, roundTo: (PyFloat, int) -> PyFloat): (r: Value)
    ensures !(v.Float? && digits.Some?) ==> r == v
    ensures v.Float? && digits.Some? ==> r == Float(roundTo(v.f, digits.value))
  {
    if v.Float? && digits.Some? then Float(roundTo(v.f, digits.value)) else v
  }

  /** What becomes of a field's bytes once they are sliced out: unpack, calibrate, round. */
  function DecodeRaw(rawBytes: seq<byte>, endian: string, f: Field, plugin: CalibrationPlugin, host: DecodeHost)
    : (r: Result<Value, DecodeError>)
    ensures UnpackValue(rawBytes, f.fieldType, endian, host.floatOfBytes).Err? ==>
              r == Err(UnpackValue(rawBytes, f.fieldType, endian, host.floatOfBytes).error)
    ensures UnpackValue(rawBytes, f.fieldType, endian, host.floatOfBytes).Ok? ==>
              var c := Calibrate(UnpackValue(rawBytes, f.fieldType, endian, host.floatOfBytes).value,
                                 f, plugin, host);
              (r.Ok? <==> c.Ok?) &&
              (r.Ok? ==> r.value == RoundIfFloat(c.value, f.roundDigits, host.roundTo)) &&
              (r.Err? ==> r.error == c.error)
  {
    var raw :- UnpackValue(rawBytes, f.fieldType, endian, host.floatOfBytes);
    var calibrated :- Calibrate(raw, f, plugin, host);
    Ok(RoundIfFloat(calibrated, f.roundDigits, host.roundTo))
  }

  /** The loop body of `decode_frame` for one field: size, bounds check against the
      frame size, then the slice `frame[start:end]` decoded. */
  function DecodeField(frame: seq<byte>, schema: Schema, sub: Subsystem, f: Field,
                       plugin: CalibrationPlugin, host: DecodeHost): (r: Result<Value, DecodeError>)
    ensures TypeSize(f.fieldType, f.bytes).Err? ==> r == Err(TypeSize(f.fieldType, f.bytes).error)
    ensures TypeSize(f.fieldType, f.bytes).Ok? ==>
              (r == Err(Overflow(f.name, f.offset, TypeSize(f.fieldType, f.bytes).value)) <==>
               sub.offset + f.offset + TypeSize(f.fieldType, f.bytes).value > schema.frameSize)
  {
    var size :- TypeSize(f.fieldType, f.bytes);
    var start := sub.offset + f.offset;
    var end := start + size;
    if end > schema.frameSize then Err(Overflow(f.name, f.offset, size))
    else DecodeRaw(PySlice(frame, start, end), schema.defaultEndian, f, plugin, host)
  }

  /** Inside the frame, a field is decoded from exactly `frame[start:end]`, and that
      slice has the width the format code needs, so `struct.error` cannot arise. */
  lemma DecodeFieldReadsItsSlice(frame: seq<byte>, schema: Schema, sub: Subsystem,
                                 f: Field, plugin: CalibrationPlugin, host: DecodeHost)
    requires TypeSize(f.fieldType, f.bytes).Ok?
    requires 0 <= sub.offset + f.offset
    requires sub.offset + f.offset + TypeSize(f.fieldType, f.bytes).value <= schema.frameSize <= |frame|
    ensures var start := sub.offset + f.offset;
      var end := start + TypeSize(f.fieldType, f.bytes).value;
      && DecodeField(frame, schema, sub, f, plugin, host) ==
           DecodeRaw(frame[start..end], schema.defaultEndian, f, plugin, host)
      && UnpackValue(frame[start..end], f.fieldType, schema.defaultEndian, host.floatOfBytes).Ok?
  {
    var size := TypeSize(f.fieldType, f.bytes).value;
    var start := sub.offset + f.offset;
    assert PySlice(frame, start, start + size) == frame[start..start + size];
    TypeSizeMatchesUnpack(frame[start..start + size], f.fieldType, f.bytes, schema.defaultEndian, host.floatOfBytes);
  }

  /** `subsystem.name + "." + field.name`. */
  function FieldKey(sub: Subsystem, f: Field): (k: string)
    ensures '.' in k
  {
    var k := sub.name + "." + f.name;
    assert k[|sub.name|] == '.';
    k
  }

  /** One (subsystem, field) pair the decoder visits. */
  datatype Slot = Slot(subsystem: Subsystem, field: Field)

  function EntrySlots(e: SubsystemEntry): (s: seq<Slot>)
    ensures |s| == |e.fields|
    ensures forall k :: 0 <= k < |e.fields| ==> s[k] == Slot(e.subsystem, e.fields[k])
  {
    seq(|e.fields|, k requires 0 <= k < |e.fields| => Slot(e.subsystem, e.fields[k]))
  }

  /** All fields in visiting order: subsystems as listed, fields as listed in each. */
  function Slots(entries: seq<SubsystemEntry>): seq<Slot>
    decreases |entries|
  {
    if entries == [] then []
    else Slots(entries[..|entries| - 1]) + EntrySlots(entries[|entries| - 1])
  }

  lemma {:induction false} SlotsAppend(a: seq<SubsystemEntry>, b: seq<SubsystemEntry>)
    ensures Slots(a + b) == Slots(a) + Slots(b)
    decreases |b|
  {
    if b == [] {
      assert a + b == a;
    } else {
      var init := b[..|b| - 1];
      var last := b[|b| - 1];
      SlotsAppend(a, init);
      assert (a + b)[..|a + b| - 1] == a + init;
      assert (a + b)[|a + b| - 1] == last;
      calc {
        Slots(a + b);
        Slots(a + init) + EntrySlots(last);
        (Slots(a) + Slots(init)) + EntrySlots(last);
        Slots(a) + (Slots(init) + EntrySlots(last));
        Slots(a) + Slots(b);
      }
    }
  }

  /** The visiting order seen from field j of subsystem i. */
  lemma SlotsSplit(es: seq<SubsystemEntry>, i: nat, j: nat)
    requires i < |es| && j < |es[i].fields|
    ensures Slots(es) == Slots(es[..i]) + EntrySlots(es[i])[..j] + [EntrySlots(es[i])[j]] +
                         (EntrySlots(es[i])[j + 1..] + Slots(es[i + 1..]))
  {
    var here := EntrySlots(es[i]);
    var rest := es[i + 1..];
    var before := Slots(es[..i]);
    var after := Slots(rest);
    SplitAround(es, i);
    SlotsAppend(es[..i], [es[i]] + rest);
    SlotsAppend([es[i]], rest);
    SlotsOne(es[i]);
    SplitAround(here, j);
    ConcatRegroup(before, here[..j], [here[j]], here[j + 1..], after);
  }

  lemma SplitAround<T>(s: seq<T>, i: nat)
    requires i < |s|
    ensures s == s[..i] + ([s[i]] + s[i + 1..])
  {
  }

  lemma SlotsOne(e: SubsystemEntry)
    ensures Slots([e]) == EntrySlots(e)
  {
    assert [e][..0] == [];
  }

  /** Regrouping a five-part concatenation. */
  lemma ConcatRegroup<T>(p: seq<T>, q: seq<T>, x: seq<T>, s: seq<T>, t: seq<T>)
    ensures p + ((q + (x + s)) + t) == p + q + x + (s + t)
  {
  }

  function SlotKeys(slots: seq<Slot>): (ks: seq<string>)
    ensures |ks| == |slots|
    ensures forall i :: 0 <= i < |slots| ==> ks[i] == FieldKey(slots[i].subsystem, slots[i].field)
  {
    seq(|slots|, i requires 0 <= i < |slots| => FieldKey(slots[i].subsystem, slots[i].field))
  }

  function DecodeSlot(frame: seq<byte>, schema: Schema, plugin: CalibrationPlugin, host: DecodeHost, s: Slot)
    : (r: Result<Entry, DecodeError>)
    ensures r.Ok? <==> DecodeField(frame, schema, s.subsystem, s.field, plugin, host).Ok?
    ensures r.Ok? ==> r.value == Entry(FieldKey(s.subsystem, s.field),
                                       DecodeField(frame, schema, s.subsystem, s.field, plugin, host).value)
    ensures r.Err? ==> r.error == DecodeField(frame, schema, s.subsystem, s.field, plugin, host).error
  {
    match DecodeField(frame, schema, s.subsystem, s.field, plugin, host)
    case Err(e) => Err(e)
    case Ok(v) => Ok(Entry(FieldKey(s.subsystem, s.field), v))
  }

  function SlotDecoder(frame: seq<byte>, schema: Schema, plugin: CalibrationPlugin, host: DecodeHost)
    : Slot -> Result<Entry, DecodeError>
  {
    s => DecodeSlot(frame, schema, plugin, host, s)
  }

  /** The row before any field: `{"frame_index": frame_index}` or `{}`. */
  function InitRow(schema: Schema, frameIndex: int): Row
  {
    if schema.includeFrameIndex then [Entry("frame_index", Int(frameIndex))] else []
  }

  /** What `decode_frame` returns or raises. */
  function DecodeFrameSpec(frame: seq<byte>, schema: Schema, plugin: CalibrationPlugin, host: DecodeHost,
                           frameIndex: int): Result<Row, DecodeError>
  {
    var written :- MapAll(Slots(schema.subsystems), SlotDecoder(frame, schema, plugin, host));
    Ok(PutAll(InitRow(schema, frameIndex), written))
  }

  /** A frame decodes exactly when every field does; otherwise the error is that of the
      first failing field in visiting order. */
  lemma DecodeFrameFailure(frame: seq<byte>, schema: Schema, plugin: CalibrationPlugin, host: DecodeHost,
                           frameIndex: int)
    ensures var slots := Slots(schema.subsystems);
      DecodeFrameSpec(frame, schema, plugin, host, frameIndex).Ok? <==>
        forall i :: 0 <= i < |slots| ==>
          DecodeField(frame, schema, slots[i].subsystem, slots[i].field, plugin, host).Ok?
    ensures DecodeFrameSpec(frame, schema, plugin, host, frameIndex).Err? ==>
      var slots := Slots(schema.subsystems);
      exists i :: 0 <= i < |slots| &&
        DecodeField(frame, schema, slots[i].subsystem, slots[i].field, plugin, host) ==
          Err(DecodeFrameSpec(frame, schema, plugin, host, frameIndex).error) &&
        forall j :: 0 <= j < i ==> DecodeField(frame, schema, slots[j].subsystem, slots[j].field, plugin, host).Ok?
  {
    var slots := Slots(schema.subsystems);
    var decode := SlotDecoder(frame, schema, plugin, host);
    var spec := DecodeFrameSpec(frame, schema, plugin, host, frameIndex);
    assert spec.Ok? <==> MapAll(slots, decode).Ok?;
    assert spec.Err? ==> spec.error == MapAll(slots, decode).error;
    forall i | 0 <= i < |slots|
      ensures decode(slots[i]).Ok? <==>
                DecodeField(frame, schema, slots[i].subsystem, slots[i].field, plugin, host).Ok?
      ensures decode(slots[i]).Err? ==>
                DecodeField(frame, schema, slots[i].subsystem, slots[i].field, plugin, host) ==
                  Err(decode(slots[i]).error)
    {
      assert decode(slots[i]) == DecodeSlot(frame, schema, plugin, host, slots[i]);
    }
    MapAllOk(slots, decode);
    if MapAll(slots, decode).Err? {
      MapAllErr(slots, decode);
    }
  }

  /** On success the row holds `frame_index` first (iff it was asked for), then one
      key per distinct `subsystem.field` name in first-visit order, each holding the
      value decoded for the last field with that name. */
  lemma DecodeFrameRow(frame: seq<byte>, schema: Schema, plugin: CalibrationPlugin, host: DecodeHost,
                       frameIndex: int)
    requires DecodeFrameSpec(frame, schema, plugin, host, frameIndex).Ok?
    ensures var row := DecodeFrameSpec(frame, schema, plugin, host, frameIndex).value;
      var slots := Slots(schema.subsystems);
      && Keys(row) == FirstOccurrences(Keys(InitRow(schema, frameIndex)) + SlotKeys(slots))
      && (schema.includeFrameIndex ==> |row| > 0 && row[0] == Entry("frame_index", Int(frameIndex)))
      && (!schema.includeFrameIndex ==> "frame_index" !in Keys(row))
      && forall i :: (0 <= i < |slots| &&
           (forall j :: i < j < |slots| ==> SlotKeys(slots)[j] != SlotKeys(slots)[i])) ==>
           Lookup(row, SlotKeys(slots)[i]).Some? &&
           DecodeField(frame, schema, slots[i].subsystem, slots[i].field, plugin, host) ==
             Ok(Lookup(row, SlotKeys(slots)[i]).value)
  {
    var slots := Slots(schema.subsystems);
    var decode := SlotDecoder(frame, schema, plugin, host);
    var written := MapAll(slots, decode).value;
    var init := InitRow(schema, frameIndex);
    WrittenKeys(frame, schema, plugin, host, frameIndex);
    PutAllKeys(init, written);
    FirstOccurrencesFacts(Keys(init) + SlotKeys(slots));
    FrameIndexIsNoFieldKey(slots);
    PutAllLookupUntouched(init, written, "frame_index");
    forall i | 0 <= i < |slots| && (forall j :: i < j < |slots| ==> SlotKeys(slots)[j] != SlotKeys(slots)[i])
      ensures Lookup(DecodeFrameSpec(frame, schema, plugin, host, frameIndex).value, SlotKeys(slots)[i]).Some? &&
              DecodeField(frame, schema, slots[i].subsystem, slots[i].field, plugin, host) ==
                Ok(Lookup(DecodeFrameSpec(frame, schema, plugin, host, frameIndex).value, SlotKeys(slots)[i]).value)
    {
      SlotValueInRow(frame, schema, plugin, host, frameIndex, i);
    }
  }

  /** The entries written, one per slot, carry the slots' keys. */
  lemma WrittenKeys(frame: seq<byte>, schema: Schema, plugin: CalibrationPlugin, host: DecodeHost,
                    frameIndex: int)
    requires DecodeFrameSpec(frame, schema, plugin, host, frameIndex).Ok?
    ensures var slots := Slots(schema.subsystems);
      MapAll(slots, SlotDecoder(frame, schema, plugin, host)).Ok? &&
      Keys(MapAll(slots, SlotDecoder(frame, schema, plugin, host)).value) == SlotKeys(slots)
  {
    var slots := Slots(schema.subsystems);
    var decode := SlotDecoder(frame, schema, plugin, host);
    MapAllOk(slots, decode);
    var written := MapAll(slots, decode).value;
    forall i | 0 <= i < |slots| ensures written[i].key == SlotKeys(slots)[i] {
      assert decode(slots[i]) == Ok(written[i]);
    }
  }

  /** One slot whose key is not written again later holds its own decoded value. */
  lemma SlotValueInRow(frame: seq<byte>, schema: Schema, plugin: CalibrationPlugin, host: DecodeHost,
                       frameIndex: int, i: nat)
    requires DecodeFrameSpec(frame, schema, plugin, host, frameIndex).Ok?
    requires i < |Slots(schema.subsystems)|
    requires forall j :: i < j < |Slots(schema.subsystems)| ==>
               SlotKeys(Slots(schema.subsystems))[j] != SlotKeys(Slots(schema.subsystems))[i]
    ensures var slots := Slots(schema.subsystems);
      var row := DecodeFrameSpec(frame, schema, plugin, host, frameIndex).value;
      Lookup(row, SlotKeys(slots)[i]).Some? &&
      DecodeField(frame, schema, slots[i].subsystem, slots[i].field, plugin, host) ==
        Ok(Lookup(row, SlotKeys(slots)[i]).value)
  {
    var slots := Slots(schema.subsystems);
    var decode := SlotDecoder(frame, schema, plugin, host);
    WrittenKeys(frame, schema, plugin, host, frameIndex);
    MapAllOk(slots, decode);
    var written := MapAll(slots, decode).value;
    assert decode(slots[i]) == Ok(written[i]);
    PutAllLookupLast(InitRow(schema, frameIndex), written, i);
  }

  /** Field keys contain a dot, so none of them is "frame_index". */
  lemma FrameIndexIsNoFieldKey(slots: seq<Slot>)
    ensures "frame_index" !in SlotKeys(slots)
  {
    assert '.' !in "frame_index";
  }

  /** After a failing field the frame fails with that field's error. */
  lemma StopsAtFailure(frame: seq<byte>, schema: Schema, plugin: CalibrationPlugin, host: DecodeHost,
                       frameIndex: int, i: nat, j: nat, written: seq<Entry>)
    requires i < |schema.subsystems| && j < |schema.subsystems[i].fields|
    requires MapAll(Slots(schema.subsystems[..i]) + EntrySlots(schema.subsystems[i])[..j],
                    SlotDecoder(frame, schema, plugin, host)) == Ok(written)
    requires DecodeField(frame, schema, schema.subsystems[i].subsystem, schema.subsystems[i].fields[j],
                         plugin, host).Err?
    ensures DecodeFrameSpec(frame, schema, plugin, host, frameIndex) ==
              Err(DecodeField(frame, schema, schema.subsystems[i].subsystem, schema.subsystems[i].fields[j],
                              plugin, host).error)
  {
    var es := schema.subsystems;
    var here := EntrySlots(es[i]);
    SlotsSplit(es, i, j);
    MapAllStops(Slots(es[..i]) + here[..j], here[j], here[j + 1..] + Slots(es[i + 1..]),
                SlotDecoder(frame, schema, plugin, host),
                DecodeField(frame, schema, es[i].subsystem, es[i].fields[j], plugin, host).error);
  }

  /** After a field that decodes, the visited prefix grows by its entry. */
  lemma NextSlot(frame: seq<byte>, schema: Schema, plugin: CalibrationPlugin, host: DecodeHost,
                 i: nat, j: nat, written: seq<Entry>)
    requires i < |schema.subsystems| && j < |schema.subsystems[i].fields|
    requires MapAll(Slots(schema.subsystems[..i]) + EntrySlots(schema.subsystems[i])[..j],
                    SlotDecoder(frame, schema, plugin, host)) == Ok(written)
    requires DecodeField(frame, schema, schema.subsystems[i].subsystem, schema.subsystems[i].fields[j],
                         plugin, host).Ok?
    ensures MapAll(Slots(schema.subsystems[..i]) + EntrySlots(schema.subsystems[i])[..j + 1],
                   SlotDecoder(frame, schema, plugin, host)) ==
            Ok(written + [Entry(FieldKey(schema.subsystems[i].subsystem, schema.subsystems[i].fields[j]),
                                DecodeField(frame, schema, schema.subsystems[i].subsystem,
                                            schema.subsystems[i].fields[j], plugin, host).value)])
  {
    var sub := schema.subsystems[i].subsystem;
    var field := schema.subsystems[i].fields[j];
    var here := EntrySlots(schema.subsystems[i]);
    var done := Slots(schema.subsystems[..i]);
    var decode := SlotDecoder(frame, schema, plugin, host);
    assert here[j] == Slot(sub, field);
    assert decode(here[j]) == DecodeSlot(frame, schema, plugin, host, Slot(sub, field));
    PrefixSnoc(done, here, j);
    MapAllSnocOk(done + here[..j], here[j], decode, written,
                 Entry(FieldKey(sub, field), DecodeField(frame, schema, sub, field, plugin, host).value));
  }

  /** After the last field of a subsystem, the visited prefix is the next subsystems prefix. */
  lemma NextSubsystem(es: seq<SubsystemEntry>, i: nat)
    requires i < |es|
    ensures Slots(es[..i]) + EntrySlots(es[i])[..|es[i].fields|] == Slots(es[..i + 1])
  {
    assert es[..i + 1][..i] == es[..i];
    assert EntrySlots(es[i])[..|es[i].fields|] == EntrySlots(es[i]);
  }

  /** `decode_frame(frame, schema, plugin, frame_index)`. */
  method DecodeFrame(frame: seq<byte>, schema: Schema, plugin: CalibrationPlugin, host: DecodeHost,
                     frameIndex: int) returns (r: Result<Row, DecodeError>)
    ensures r == DecodeFrameSpec(frame, schema, plugin, host, frameIndex)
  {
    var row: Row := [];
    if schema.includeFrameIndex {
      row := [Entry("frame_index", Int(frameIndex))];
    }
    ghost var decode := SlotDecoder(frame, schema, plugin, host);
    ghost var written: seq<Entry> := [];
    var i := 0;
    while i < |schema.subsystems|
      invariant 0 <= i <= |schema.subsystems|
      invariant MapAll(Slots(schema.subsystems[..i]), decode) == Ok(written)
      invariant row == PutAll(InitRow(schema, frameIndex), written)
    {
      var subsystem := schema.subsystems[i].subsystem;
      var fields := schema.subsystems[i].fields;
      assert Slots(schema.subsystems[..i]) + EntrySlots(schema.subsystems[i])[..0] == Slots(schema.subsystems[..i]);
      var j := 0;
      while j < |fields|
        invariant 0 <= j <= |fields|
        invariant MapAll(Slots(schema.subsystems[..i]) + EntrySlots(schema.subsystems[i])[..j], decode) == Ok(written)
        invariant row == PutAll(InitRow(schema, frameIndex), written)
      {
        var field := fields[j];
        var value := DecodeField(frame, schema, subsystem, field, plugin, host);
        if value.Err? {
          StopsAtFailure(frame, schema, plugin, host, frameIndex, i, j, written);
          return Err(value.error);
        }
        var key := subsystem.name + "." + field.name;
        NextSlot(frame, schema, plugin, host, i, j, written);
        PutAllSnoc(InitRow(schema, frameIndex), written, Entry(key, value.value));
        row := Put(row, key, value.value);
        written := written + [Entry(key, value.value)];
        j := j + 1;
      }
      NextSubsystem(schema.subsystems, i);
      i := i + 1;
    }
    assert schema.subsystems[..i] == schema.subsystems;
    return Ok(row);
  }

  /** `data[base:base + frame_size]` for frame i. */
  function FrameAt(data: seq<byte>, frameSize: int, i: int): (r: seq<byte>)
    ensures 0 <= i * frameSize <= i * frameSize + frameSize <= |data| ==>
              r == data[i * frameSize .. i * frameSize + frameSize]
  {
    PySlice(data, i * frameSize, i * frameSize + frameSize)
  }

  /** Every frame index below `len(data) // frame_size` addresses a whole frame. */
  lemma FrameInside(len: nat, frameSize: int, i: int)
    requires frameSize > 0 && 0 <= i < len / frameSize
    ensures 0 <= i * frameSize && i * frameSize + frameSize <= len
  {
    assert i + 1 <= len / frameSize;
    assert (i + 1) * frameSize <= (len / frameSize) * frameSize;
  }

  function FrameDecoder(data: seq<byte>, schema: Schema, plugin: CalibrationPlugin, host: DecodeHost)
    : int -> Result<Row, DecodeError>
  {
    i => DecodeFrameSpec(FrameAt(data, schema.frameSize, i), schema, plugin, host, i)
  }

  /** What `read_frames` returns or raises. */
  function ReadFramesSpec(data: seq<byte>, schema: Schema, plugin: CalibrationPlugin, host: DecodeHost)
    : Result<seq<Row>, DecodeError>
    requires schema.frameSize > 0
  {
    MapAll(Range(|data| / schema.frameSize), FrameDecoder(data, schema, plugin, host))
  }

  /** The frames `read_frames` visits are whole: frame i is exactly
      `data[i*frame_size : (i+1)*frame_size]`. */
  lemma FramesAreWhole(data: seq<byte>, frameSize: int)
    requires frameSize > 0
    ensures forall i :: 0 <= i < |data| / frameSize ==>
              |FrameAt(data, frameSize, i)| == frameSize &&
              FrameAt(data, frameSize, i) == data[i * frameSize .. i * frameSize + frameSize]
  {
    forall i | 0 <= i < |data| / frameSize
      ensures |FrameAt(data, frameSize, i)| == frameSize &&
              FrameAt(data, frameSize, i) == data[i * frameSize .. i * frameSize + frameSize]
    {
      FrameInside(|data|, frameSize, i);
    }
  }

  /** `read_frames` yields `len(data) // frame_size` rows in frame order, row i decoded
      from frame i with index i; it fails exactly when some frame fails, with the error
      of the first one. */
  lemma {:induction false} ReadFramesRows(data: seq<byte>, schema: Schema, plugin: CalibrationPlugin, host: DecodeHost)
    requires schema.frameSize > 0
    ensures var r := ReadFramesSpec(data, schema, plugin, host);
      var decode := FrameDecoder(data, schema, plugin, host);
      && (r.Ok? <==> forall i :: 0 <= i < |data| / schema.frameSize ==> decode(i).Ok?)
      && (r.Ok? ==> (|r.value| == |data| / schema.frameSize &&
                    forall i :: 0 <= i < |r.value| ==> decode(i) == Ok(r.value[i])))
      && (r.Err? ==> exists i :: 0 <= i < |data| / schema.frameSize && decode(i) == Err(r.error) &&
                                (forall j :: 0 <= j < i ==> decode(j).Ok?))
  {
    MapAllRange(|data| / schema.frameSize, FrameDecoder(data, schema, plugin, host));
  }

  /** `read_frames(data, schema, calibration_plugin)` on the bytes already read. */
  method ReadFrames(data: seq<byte>, schema: Schema, plugin: CalibrationPlugin, host: DecodeHost)
    returns (r: Result<seq<Row>, DecodeError>)
    requires schema.frameSize > 0
    ensures r == ReadFramesSpec(data, schema, plugin, host)
  {
    var frameCount := |data| / schema.frameSize;
    var results: seq<Row> := [];
    ghost var decode := FrameDecoder(data, schema, plugin, host);
    for frameIndex := 0 to frameCount
      invariant MapAll(Range(frameIndex), decode) == Ok(results)
    {
      var row := DecodeFrame(FrameAt(data, schema.frameSize, frameIndex), schema, plugin, host, frameIndex);
      MapAllRangeStep(frameCount, frameIndex, decode, results);
      if row.Err? {
        return Err(row.error);
      }
      results := results + [row.value];
    }
    return Ok(results);
  }
}
