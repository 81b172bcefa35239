# Satellite telemetry reader — a verified model of its core

The reader turns a binary telemetry dump into rows of named values. An XML schema
describes the dump. Each frame is `frame_size` bytes. It holds subsystems at base
offsets, and each subsystem holds typed fields at offsets within it. This project models
the reader's core logic in Dafny and proves what that logic promises:

- **Frame decoding** (`ReadTools`). It maps type tags to widths and unpacks integers
  under an endianness. Each field is bounds-checked against the frame size and passed
  through its calibration path: an expression, else a plugin function, else the raw
  value. Each field is written under the key `subsystem.field` into an
  insertion-ordered row, where the last write to a key wins. `read_frames` cuts a
  buffer into `len // frame_size` frames.
- **Calibration-expression sandbox** (`ParseCalibration`). This is the allow-list walk
  over a Python expression tree that runs before any evaluation, plus the evaluator's
  error wrapping.
- **Schema validation** (`ParseXml`). It covers the `<schema_settings>` rules, the
  per-field calibration attributes, and the construction of the subsystem and field
  lists in document order. The input is the already-extracted attribute maps.
- **Records and plugin** (`Classes`). These are `Field`, `Subsystem` (equal and hashed
  by name and offset only), `Schema`, and `CalibrationPlugin` with its `has` and `call`.
- **OBT candidate search** (`SearchTool`). OBT is the on-board time. The search scans
  the first 4000-byte frame for 4-byte big-endian words inside a time window. Its
  `refine` filter keeps the offsets whose words grow steadily from frame to frame.

Shared pieces:

- `Wrappers` holds `Option`, `Result` and `Outcome`, and the first-error traversal
  `MapAll` with its lemmas.
- `Runtime` holds bytes, opaque floats, row values, Python slicing and ASCII `lower()`.
- `Rows` models the insertion-ordered dict as a sequence of entries.

Methods follow the source's loops: `DecodeFrame`, `ReadFrames`, `ParseFields`,
`ParseSchema`, `ScanCandidates`, `Refine` and `FindObtCandidates`. Each method is proved
equal to a specification function, or to the property the source promises. The
properties are proved as lemmas about those functions.

Host-language services the core calls are parameters of the model:

- `ast.parse`, `compile`/`eval`, `float()`, `round()` and `dir(math)`, grouped as
  `ExprHost` and `DecodeHost`;
- `int()` on attribute text (`IntParser`);
- IEEE 754 decoding of float patterns (`floatOfBytes`).

Floats are opaque values (`PyFloat`).

## Model

| member | source | states |
|---|---|---|
| Runtime.PySlice | sat_reader_dependencies/sat_reader_read_tools.py:95 | Python slicing `s[i:j]`: the exact slice when the bounds lie inside the sequence, `j - i` elements for in-range bounds, never longer than the sequence |
| Runtime.LowerIdempotent | sat_reader_dependencies/sat_reader_parse_xml.py:54 | lower-casing twice is lower-casing once, so lowered settings are stable |
| Rows.Keys | sat_reader_dependencies/sat_reader_read_tools.py:112 | the row's keys, one per entry, in entry order |
| Rows.Lookup | sat_reader_dependencies/sat_reader_read_tools.py:112 | `row.get(k)` is None exactly when k is not a key of the row |
| Rows.Put | sat_reader_dependencies/sat_reader_read_tools.py:112 | `row[k] = v` keeps the key order when k is present and appends k otherwise |
| Rows.PutLookup | sat_reader_dependencies/sat_reader_read_tools.py:112 | after `row[k] = v`, k maps to v and every other key keeps its value |
| Rows.PutAllSnoc | sat_reader_dependencies/sat_reader_read_tools.py:112 | assigning one more entry after a sequence of assignments is one more `Put` |
| Rows.FirstOccurrencesFacts | sat_reader_dependencies/sat_reader_read_tools.py:112 | the first-occurrence order has no duplicates, holds exactly the given keys, and starts with the first one |
| Rows.PutAllKeys | sat_reader_dependencies/sat_reader_read_tools.py:80-112 | starting from a row with distinct keys, the row's key order after the assignments is the first-occurrence order of the initial keys followed by the assigned keys |
| Rows.KeysSnoc | sat_reader_dependencies/sat_reader_read_tools.py:112 | the keys of a longer row are the keys of its prefix plus the new key |
| Rows.FirstOccurrencesSnoc | sat_reader_dependencies/sat_reader_read_tools.py:112 | one more key joins the first-occurrence order only if it is new |
| Rows.DistinctFirstOccurrences | sat_reader_dependencies/sat_reader_read_tools.py:80-83 | keys without duplicates are their own first-occurrence order |
| Rows.PutAllLookupUntouched | sat_reader_dependencies/sat_reader_read_tools.py:80-112 | a key never assigned keeps its initial value (`frame_index` among them) |
| Rows.PutAllLookupLast | sat_reader_dependencies/sat_reader_read_tools.py:112 | last write wins: a key holds the value of its last assignment |
| Classes.NewField | sat_reader_dependencies/sat_reader_classes.py:27-39 | a `Field` built from name, type and offset has every optional attribute None |
| Classes.SubsystemIdentity | sat_reader_dependencies/sat_reader_classes.py:55-59 | two subsystems are equal iff their (name, offset) hash keys are equal, so they hash alike, and the field list plays no part |
| Classes.SameSubsystemEquivalence | sat_reader_dependencies/sat_reader_classes.py:55-59 | subsystem equality is reflexive, symmetric and transitive |
| Classes.CalibrationPlugin.constructor | sat_reader_dependencies/sat_reader_classes.py:88-96 | the plugin holds the given module contents, or none |
| Classes.CalibrationPlugin.Call | sat_reader_dependencies/sat_reader_classes.py:101-108 | fails with "no module" iff none is loaded; fails as not callable when the name is absent or names a non-callable attribute; a success implies `has(name)`; for a callable attribute it succeeds iff the function does, with the function's value, and when it raises the failure names the attribute and carries the raised error |
| Classes.HasWithoutModule | sat_reader_dependencies/sat_reader_classes.py:98-99 | without a module `has` is false for every name |
| ParseCalibration.CheckCmpOps | sat_reader_dependencies/sat_reader_parse_calibration.py:43-46 | the operator loop passes iff every operator of the chain is on the comparison allow-list |
| ParseCalibration.EnsureSafeExprAccepts | sat_reader_dependencies/sat_reader_parse_calibration.py:28-58 | the walk as written passes exactly on the trees the rule-by-rule `Accepted` predicate describes, where a Compare is accepted only with no operators and a call only through `math.<member>` |
| ParseCalibration.EnsureSafeAllAccepts | sat_reader_dependencies/sat_reader_parse_calibration.py:35-36 | a list of children passes iff every child is accepted |
| ParseCalibration.AcceptedIsConfined | sat_reader_dependencies/sat_reader_parse_calibration.py:12-58 | an accepted tree names nothing but `raw` and `math` and contains no node kind outside the allow-list |
| ParseCalibration.AcceptedAllConfined | sat_reader_dependencies/sat_reader_parse_calibration.py:35-36 | the same confinement for a list of accepted children |
| ParseCalibration.ForbiddenAnywhereRejected | sat_reader_dependencies/sat_reader_parse_calibration.py:33-36 | a disallowed node kind or keyword argument anywhere in the tree, or any name other than `raw`/`math`, makes the walk fail |
| ParseCalibration.AcceptedCallIsMathMember | sat_reader_dependencies/sat_reader_parse_calibration.py:47-55 | a call that passes the walk as written calls `math.<member>` with the member in `dir(math)` and has no keyword arguments |
| ParseCalibration.BareNameCallRejected | sat_reader_dependencies/sat_reader_parse_calibration.py:35-58 | a call through a bare name always fails as written, with the unknown-variable error for any name but `raw` and `math` |
| ParseCalibration.CompareRejected | sat_reader_dependencies/sat_reader_parse_calibration.py:12-46 | as written, every comparison with an operator fails, with a disallowed-element error naming its first operator when the left operand passes |
| ParseCalibration.OperatorRules | sat_reader_dependencies/sat_reader_parse_calibration.py:39-42 | a BinOp passes iff both operands pass and the operator is Add/Sub/Mult/Div/FloorDiv/Mod/Pow; a UnaryOp iff its operand passes and the operator is UAdd/USub; an attribute outside a call is checked through its receiver only |
| ParseCalibration.FixedCallRule | sat_reader_dependencies/sat_reader_parse_calibration.py:47-55 | the corrected walk passes a call iff the callee is an allow-listed bare function or a `math` member, the arguments pass and there are no keywords |
| ParseCalibration.FixedCompareRule | sat_reader_dependencies/sat_reader_parse_calibration.py:43-46 | the corrected walk passes a comparison iff its operands pass and every operator is on the comparison allow-list |
| ParseCalibration.FixedAcceptsMore | sat_reader_dependencies/sat_reader_parse_calibration.py:28-58 | the corrected walk accepts every tree the walk as written accepts |
| ParseCalibration.FixedAcceptsMoreAll | sat_reader_dependencies/sat_reader_parse_calibration.py:35-36 | the same for a list of children |
| ParseCalibration.FixedIsConfined | sat_reader_dependencies/sat_reader_parse_calibration.py:12-58 | a tree the corrected walk accepts names only `raw`, `math` and allow-listed functions and contains no disallowed node kind |
| ParseCalibration.FixedAllConfined | sat_reader_dependencies/sat_reader_parse_calibration.py:35-36 | the same confinement for a list of children |
| ParseCalibration.FindingWitnesses | sat_reader_dependencies/sat_reader_parse_calibration.py:35-58 | `sqrt(raw)` and `raw < 0` fail the walk as written and pass the corrected walk |
| ParseCalibration.EvalExpr | sat_reader_dependencies/sat_reader_parse_calibration.py:60-75 | the evaluator as evidently intended (validated with the corrected walk): every failure is one error kind that carries the expression text |
| ParseCalibration.EvalExprOk | sat_reader_dependencies/sat_reader_parse_calibration.py:65-73 | a value comes back exactly when the text parsed, the corrected walk passed, the tree evaluated and `float()` accepted the result, and it is that float |
| ParseCalibration.UnsafeNeverRuns | sat_reader_dependencies/sat_reader_parse_calibration.py:66-73 | a tree the walk refuses yields the walk's error, whatever the evaluation service would do |
| ParseCalibration.WrittenWalkAcceptsAgree | sat_reader_dependencies/sat_reader_parse_calibration.py:65-73 | on every tree the walk as written accepts, the corrected evaluator returns exactly what the evaluator as written returns, and succeeds iff evaluation and `float()` do |
| ParseCalibration.EvalExprAsWritten | sat_reader_dependencies/sat_reader_parse_calibration.py:60-75 | `eval_expr` as written (validated with the walk as written): every failure is one error kind that carries the expression text |
| ParseCalibration.UnsafeNeverRunsAsWritten | sat_reader_dependencies/sat_reader_parse_calibration.py:66-73 | as written, a tree the walk refuses yields the walk's error, whatever the evaluation service would do |
| ParseCalibration.FindingEvaluations | sat_reader_dependencies/sat_reader_parse_calibration.py:60-75 | on `sqrt(raw)` and `raw < 0`, `eval_expr` as written raises the walk's error, while the corrected evaluator succeeds iff evaluation and `float()` do |
| ReadTools.TypeSize | sat_reader_dependencies/sat_reader_read_tools.py:29-40 | 1 for u8/i8, 2 for u16/i16, 4 for u32/i32/f32/float32, 8 for u64/i64/f64/float64; `bytes` gives its length when positive and an error otherwise; any other tag is an unknown-type error |
| ReadTools.UnsignedBEBound | sat_reader_dependencies/sat_reader_read_tools.py:52 | an n-byte unsigned value is below 256^n |
| ReadTools.DecodeEncodeBE | sat_reader_dependencies/sat_reader_read_tools.py:52 | decoding the big-endian encoding of a value that fits gives the value |
| ReadTools.EncodeDecodeBE | sat_reader_dependencies/sat_reader_read_tools.py:52 | encoding a decoded byte string at its width gives the bytes back |
| ReadTools.BigEndianSnoc | sat_reader_dependencies/sat_reader_read_tools.py:52 | one more low byte multiplies the value by 256 and adds the byte |
| ReadTools.LittleIsReversedBig | sat_reader_dependencies/sat_reader_read_tools.py:51-52 | little-endian decoding is big-endian decoding of the reversed bytes |
| ReadTools.ReverseReverse | sat_reader_dependencies/sat_reader_read_tools.py:51 | reversing twice restores the bytes |
| ReadTools.MostSignificantFirst | sat_reader_dependencies/sat_reader_read_tools.py:51 | reordering for the endian prefix keeps the length |
| ReadTools.ReadUnsignedIsBigEndian | sat_reader_dependencies/sat_reader_read_tools.py:51-52 | reading under any endianness is big-endian reading of the reordered bytes, and reordering is its own inverse |
| ReadTools.UnpackCode | sat_reader_dependencies/sat_reader_read_tools.py:50-52 | `struct.unpack` of one code succeeds iff the data has exactly the code's width, and an integer code gives an integer |
| ReadTools.UnpackValue | sat_reader_dependencies/sat_reader_read_tools.py:42-52 | `bytes` returns the slice unchanged; a tag without a format code fails; otherwise the code is unpacked |
| ReadTools.TypeSizeMatchesUnpack | sat_reader_dependencies/sat_reader_read_tools.py:29-52 | data of the width `type_size` reports always unpacks |
| ReadTools.TwosComplementBijection | sat_reader_dependencies/sat_reader_read_tools.py:52 | two's complement maps the signed range onto the unsigned range and back |
| ReadTools.PackCode | sat_reader_dependencies/sat_reader_read_tools.py:52 | the encoder of an integer code produces exactly the code's width of bytes |
| ReadTools.WidthFacts | sat_reader_dependencies/sat_reader_read_tools.py:35 | integer codes have a positive width and are not float codes |
| ReadTools.PackUnpack | sat_reader_dependencies/sat_reader_read_tools.py:48-52 | for every integer code and endianness, unpacking the packed bytes of an in-range integer gives the integer |
| ReadTools.UnpackPack | sat_reader_dependencies/sat_reader_read_tools.py:48-52 | unpacking bytes of the code's width gives an in-range integer whose packing is the same bytes |
| ReadTools.EndianRule | sat_reader_dependencies/sat_reader_read_tools.py:51-52 | "little" decoding equals "big" decoding of the reversed bytes, and any endian string other than "little" decodes as "big" |
| ReadTools.Calibrate | sat_reader_dependencies/sat_reader_read_tools.py:98-107 | with an expression: a failing `float(raw)` is the error, otherwise the result is the float the evaluator returns on `float(raw)`, or its error; otherwise an absent plugin function is an error, and a plugin call gives `plugin.call`'s value or its failure; with neither the raw value is kept |
| ReadTools.ExpressionWinsOverPlugin | sat_reader_dependencies/sat_reader_read_tools.py:100-104 | with an expression present, the plugin makes no difference |
| ReadTools.RoundIfFloat | sat_reader_dependencies/sat_reader_read_tools.py:109-110 | rounding applies only to a float with a digit count, and leaves every other value unchanged |
| ReadTools.DecodeRaw | sat_reader_dependencies/sat_reader_read_tools.py:95-110 | an unpack failure is the field's failure; after a successful unpack the field fails iff calibration does, with its error, and otherwise holds the calibrated value rounded when it is a float with a digit count |
| ReadTools.DecodeField | sat_reader_dependencies/sat_reader_read_tools.py:89-112 | a `type_size` error propagates; otherwise the overflow error arises iff `subsystem.offset + field.offset + size > frame_size` |
| ReadTools.DecodeFieldReadsItsSlice | sat_reader_dependencies/sat_reader_read_tools.py:89-96 | inside the frame the field is decoded from exactly `frame[start:end]`, and that slice always unpacks |
| ReadTools.FieldKey | sat_reader_dependencies/sat_reader_read_tools.py:112 | every field key contains a dot |
| ReadTools.EntrySlots | sat_reader_dependencies/sat_reader_read_tools.py:87-88 | a subsystem entry is visited field by field in list order |
| ReadTools.SlotsAppend | sat_reader_dependencies/sat_reader_read_tools.py:86-88 | the visiting order of concatenated subsystem lists is the concatenation of their orders |
| ReadTools.SlotsSplit | sat_reader_dependencies/sat_reader_read_tools.py:86-88 | the visiting order seen from field j of subsystem i: earlier subsystems, earlier fields, this field, then the rest |
| ReadTools.SlotsOne | sat_reader_dependencies/sat_reader_read_tools.py:87-88 | one subsystem is visited in its field order |
| ReadTools.SlotKeys | sat_reader_dependencies/sat_reader_read_tools.py:112 | one key `subsystem.field` per visited field, in visiting order |
| ReadTools.DecodeSlot | sat_reader_dependencies/sat_reader_read_tools.py:89-112 | one visited field gives the entry (its key, its decoded value), or that field's error |
| ReadTools.DecodeFrameFailure | sat_reader_dependencies/sat_reader_read_tools.py:73-114 | a frame decodes iff every field does; on failure the error is that of the first failing field in visiting order |
| ReadTools.DecodeFrameRow | sat_reader_dependencies/sat_reader_read_tools.py:80-112 | the row's keys are `frame_index` (first, holding the index, iff requested) followed by the distinct field keys in first-visit order; each key holds the value decoded for the last field with that key |
| ReadTools.WrittenKeys | sat_reader_dependencies/sat_reader_read_tools.py:112 | the entries written carry the visited fields' keys in order |
| ReadTools.SlotValueInRow | sat_reader_dependencies/sat_reader_read_tools.py:112 | a field whose key is not written again later holds its own decoded value in the row |
| ReadTools.FrameIndexIsNoFieldKey | sat_reader_dependencies/sat_reader_read_tools.py:82-112 | no field key can overwrite `frame_index` |
| ReadTools.StopsAtFailure | sat_reader_dependencies/sat_reader_read_tools.py:89-96 | after a failing field the frame fails with that field's error |
| ReadTools.NextSlot | sat_reader_dependencies/sat_reader_read_tools.py:88-112 | after a field that decodes, the visited prefix grows by its entry |
| ReadTools.NextSubsystem | sat_reader_dependencies/sat_reader_read_tools.py:86-88 | after the last field of a subsystem the next subsystem begins |
| ReadTools.DecodeFrame | sat_reader_dependencies/sat_reader_read_tools.py:73-114 | the nested loops return exactly the specified row, or the first field's error |
| ReadTools.FrameAt | sat_reader_dependencies/sat_reader_read_tools.py:67-68 | inside the data, frame i is `data[i*frame_size : i*frame_size + frame_size]` |
| ReadTools.FrameInside | sat_reader_dependencies/sat_reader_read_tools.py:62-68 | every index below `len(data) // frame_size` addresses bytes inside the data |
| ReadTools.FramesAreWhole | sat_reader_dependencies/sat_reader_read_tools.py:62-68 | every frame visited is whole: exactly `frame_size` bytes sliced at `i*frame_size` |
| ReadTools.ReadFramesRows | sat_reader_dependencies/sat_reader_read_tools.py:54-71 | reading succeeds iff every frame decodes; then there are `len(data) // frame_size` rows, row i decoded from frame i with index i; otherwise the error is the first failing frame's |
| ReadTools.ReadFrames | sat_reader_dependencies/sat_reader_read_tools.py:54-71 | the frame loop returns exactly the specified rows or error |
| ParseXml.Get | sat_reader_dependencies/sat_reader_parse_xml.py:49 | `attrib.get(key)` is present iff the key is, with its value |
| ParseXml.GetOr | sat_reader_dependencies/sat_reader_parse_xml.py:66 | `attrib.get(key, default)` is the value when present and the default otherwise |
| ParseXml.Required | sat_reader_dependencies/sat_reader_parse_xml.py:95 | `attrib[key]` succeeds iff the key is present, and names the key when it fails |
| ParseXml.IntOf | sat_reader_dependencies/sat_reader_parse_xml.py:66 | `int(text)` succeeds iff the integer parser does, and names the text when it fails |
| ParseXml.ParseFlag | sat_reader_dependencies/sat_reader_parse_xml.py:49-59 | a flag is accepted iff present and, lower-cased, a true or false spelling; it is true iff a true spelling |
| ParseXml.FlagCaseInsensitive | sat_reader_dependencies/sat_reader_parse_xml.py:46-59 | a flag reads the same as its lower-cased text, and no spelling is both true and false |
| ParseXml.FlagSpellings | sat_reader_dependencies/sat_reader_parse_xml.py:46-59 | TRUE, Yes and 1 read true; False, NO and 0 read false; other text or a missing flag fails |
| ParseXml.ParseSettings | sat_reader_dependencies/sat_reader_parse_xml.py:46-86 | accepted settings have a positive frame size, endian little or big, and `sort_by` only with `read_in_memory` |
| ParseXml.SettingsRules | sat_reader_dependencies/sat_reader_parse_xml.py:46-86 | settings are accepted iff every rule holds, and then each setting is what its rule reads; a missing `read_in_memory`, a missing `frame_size` (default "0") or a missing `include_frame_index` is refused |
| ParseXml.EndianDefault | sat_reader_dependencies/sat_reader_parse_xml.py:71-74 | a missing endian means little |
| ParseXml.ParseCalibrationAttrs | sat_reader_dependencies/sat_reader_parse_xml.py:112-126 | no `<calibration>` leaves every attribute None; expr, func and units are read as given; `round` is parsed iff non-empty, its digits are `int(round)`, and an unparsable non-empty `round` is refused; a non-empty expr together with a non-empty func is refused; these two refusals are the only ones, so any other `<calibration>` (or none) succeeds |
| ParseXml.ParseField | sat_reader_dependencies/sat_reader_parse_xml.py:104-139 | a parsed field carries its name, type and parsed offset, `bytes` iff given and then `int(bytes)`, and exactly the calibration attributes its `<calibration>` child parses to, so never both an expression and a plugin; a missing name is refused; the field parses exactly when name, type and offset are present, `int(offset)` succeeds, `int(bytes)` succeeds if bytes is given, and its calibration parses |
| ParseXml.ParseSubsystemHeader | sat_reader_dependencies/sat_reader_parse_xml.py:95-96 | a subsystem's name and parsed offset come from its attributes, and the header parses exactly when name and offset are present and `int(offset)` succeeds |
| ParseXml.ParseSubsystem | sat_reader_dependencies/sat_reader_parse_xml.py:93-139 | a subsystem parses exactly when its header parses, it has a `<fields>` child and every field parses; a valid header without `<fields>` is refused as missing fields |
| ParseXml.ParseSchemaSpec | sat_reader_dependencies/sat_reader_parse_xml.py:38-90 | a root other than `schema`, a missing `<schema_settings>`, and a missing `<subsystems>` after valid settings are each refused; the schema parses exactly when the root is `schema`, the settings are present and parse, `<subsystems>` is present and every subsystem parses |
| ParseXml.SubsystemOrder | sat_reader_dependencies/sat_reader_parse_xml.py:98-141 | a parsed subsystem needs `<fields>`, and its one-key entry maps the subsystem to its fields, one per element in document order |
| ParseXml.SchemaOrder | sat_reader_dependencies/sat_reader_parse_xml.py:94-150 | a parsed schema has one entry per subsystem element in document order, and satisfies every settings and calibration rule |
| ParseXml.ParseFields | sat_reader_dependencies/sat_reader_parse_xml.py:104-139 | the field loop returns the fields in element order, or the first element's error |
| ParseXml.ParseSchema | sat_reader_dependencies/sat_reader_parse_xml.py:30-150 | the checks and nested loops return exactly the specified schema or error |
| SearchTool.ShortWordIsBigEndian | extra_tools/search_tool.py:37 | the digit-by-digit value of up to four bytes is `int.from_bytes(..., "big")` |
| SearchTool.ScanCandidates | extra_tools/search_tool.py:36-40 | candidates are exactly the offsets below `frame_len - 4` whose big-endian word is within [MIN_OBT, MAX_OBT], in increasing order, so the window at `frame_len - 4` is never tested |
| SearchTool.ScanStep | extra_tools/search_tool.py:36-40 | visiting one more offset keeps the scan's invariant |
| SearchTool.FilterMembership | extra_tools/search_tool.py:51-64 | an offset is kept iff it was given and, for every i >= 1, `v_i - (v_{i-1} + i) <= time_difference` |
| SearchTool.FilterIsSubsequence | extra_tools/search_tool.py:49-65 | the kept offsets are a subsequence of the given ones, in the same order |
| SearchTool.SingleFrameKeepsAll | extra_tools/search_tool.py:55-64 | with a single frame every offset is kept |
| SearchTool.FilterSnoc | extra_tools/search_tool.py:51-64 | one more offset is appended to the kept ones iff it is steady |
| SearchTool.Refine | extra_tools/search_tool.py:48-65 | the nested loops keep exactly the steady offsets in input order |
| SearchTool.Chunks | extra_tools/search_tool.py:23 | no data gives no frames; frame k is exactly `data[4000k : 4000k+4000]` (cut at the end of the data) and starts inside the data; the frames cover all the data; every frame has 1 to 4000 bytes |
| SearchTool.ChunksConcat | extra_tools/search_tool.py:23 | the frames laid end to end are the data |
| SearchTool.FindObtCandidates | extra_tools/search_tool.py:14-45 | no data gives no candidates; otherwise an offset is returned iff the scan of the first frame finds it and it is steady over all frames with difference 8, in increasing order |

## Left out

- Floating point throughout is opaque. f32/f64 tags are decoded by the parameter
  `floatOfBytes`, `round()` is `roundTo`, and `float()` is `toFloat`. No IEEE 754
  arithmetic is modelled.
- `ast.parse`, `compile`/`eval` and the `math` library are host services. They appear
  as `ExprHost.parse`, `ExprHost.run` and `ExprHost.mathMembers` (for `dir(math)`). The
  expression tree covers the node kinds the walk distinguishes. Every other kind is
  `Other`. The root `Expression` node and the `Load` contexts are left implicit,
  because both are allowed and have no checks of their own.
- ParseCalibration.NameIds: does not collect names inside keyword-argument values. Such
  trees are refused at the keyword node, so confinement is stated for the rest.
- ParseCalibration.EvalExpr: validates with the corrected walk (see Findings). On
  expressions the shipped walk accepts it returns what `EvalExprAsWritten` returns
  (`WrittenWalkAcceptsAgree`). On comparisons and bare-name calls it evaluates where
  the shipped code raises (`FindingEvaluations`).
- ReadTools.Calibrate, ReadTools.DecodeRaw, ReadTools.DecodeField, ReadTools.DecodeFrame
  and ReadTools.ReadFrames: inherit the corrected evaluator. A field whose expression is
  a comparison or a bare-name call gets a value where the shipped decoder raises
  `[EXPR PARSE ERROR]`. The as-written evaluator `EvalExprAsWritten` is modelled on its
  own, not threaded through the decoder.
- The `math.<member>` rule follows the code, which allows any name in `dir(math)`. The
  documented rule limits it to the function allow-list.
- XML text parsing with ElementTree is not modelled. The model starts from extracted
  elements (`SchemaDoc`, `SubsystemElem`, `FieldElem`). `int()` on attribute text is the
  parameter `IntParser`.
- Runtime.Lower: lower-cases ASCII letters only. Python's Unicode `lower()` is not
  modelled.
- Loading the plugin module with importlib is not modelled, and neither is the error
  raised when it cannot be loaded. The constructor receives the loaded module as a map
  from attribute names to an optional function (None for a non-callable attribute).
- `sat_reader.py` is not part of this model. That covers the command line, the file
  checks, streaming versus in-memory reading, and the final `sorted` call.
- `sat_reader_CSV_export.py` is not part of this model (file and CSV writing). Its
  reference to `schema.fields` (sat_reader_dependencies/sat_reader_CSV_export.py:47)
  names an attribute `Schema` does not define.
- None of the following are part of this model: `plot_values.py`,
  `CGSS_calibration_functions.py` and `obt_to_datetime` (datetime and plotting
  libraries), nor the file read and the `print` calls in `search_tool.py`. The search
  starts from the bytes already read.
- The `count` variable in `refine` is never read, so it is not modelled.
- ReadTools.ReadFrames: requires `frame_size > 0`, which every schema the parser
  returns satisfies (`ParseXml.SchemaOrder`). The source divides by zero when
  `frame_size` is 0. When it is negative, `len(data) // frame_size` is negative, so the
  source returns no rows.
- SearchTool.Refine: requires at least one frame when there are offsets. The source
  indexes `frames[0]` and would raise otherwise. `find_obt_candidates` only calls it
  with frames.

## Findings

The module's docstring (sat_reader_dependencies/sat_reader_parse_calibration.py:1-7)
promises math functions. The comment on the function table at lines 21-26 says the
names are bare so that schemas can call them directly. The comparison allow-list at
line 19 and its check at lines 43-46 show that comparisons were meant to pass. The walk
as written refuses both.

| source | as written | input that shows it | evidently intended | confidence | as-written member | corrected member |
|---|---|---|---|---|---|---|
| sat_reader_dependencies/sat_reader_parse_calibration.py:35-58 | the walk checks a call's `func` child as a variable before the function allow-list, so every bare-name call fails with "Unknown variable" | `sqrt(raw)` | a bare name on the function allow-list (lines 21-26, also bound in the evaluation environment at line 72) is accepted as a callee | high; not executed | ParseCalibration.BareNameCallRejected | ParseCalibration.FixedCallRule |
| sat_reader_dependencies/sat_reader_parse_calibration.py:12-46 | comparison operator nodes are children of a Compare but not allowed node kinds, so every comparison fails before its operator allow-list is reached | `raw < 0` | a comparison passes when each operator is on the comparison allow-list (line 19) | high; not executed | ParseCalibration.CompareRejected | ParseCalibration.FixedCompareRule |

`ParseCalibration.FindingWitnesses` shows both inputs failing the walk as written and
passing the corrected walk `ParseCalibration.EnsureSafeExprFixed`. That corrected walk is
proved at least as permissive as the written one (`FixedAcceptsMore`) and still confined
(`FixedIsConfined`). The evaluator uses it.
