/** The schema document's validation rules and the construction of the schema from it.
    The document arrives as already-extracted elements: each element's attributes as a
    map, and its relevant children. */
module ParseXml {
  import opened Wrappers
  import opened Runtime
  import opened Classes

  type Attributes = map<string, string>

  /** `<field>` with its optional `<calibration>` child's attributes. */
  datatype FieldElem = FieldElem(attrib: Attributes, calibration: Option<Attributes>)

  /** `<subsystem>` with the `<field>` children of its `<fields>` child, None when
      `<fields>` is missing. */
  datatype SubsystemElem = SubsystemElem(attrib: Attributes, fields: Option<seq<FieldElem>>)

  /** The document: the root tag, the `<schema_settings>` attributes and the
      `<subsystem>` children of `<subsystems>` (None when an element is missing). */
  datatype SchemaDoc = SchemaDoc(rootTag: string, settings: Option<Attributes>,
                                 subsystems: Option<seq<SubsystemElem>>)

  /** Python's `int()` on attribute text, a host service: a value or a ValueError. */
  type IntParser = string -> Result<int, string>

  datatype SchemaError =
    | BadRoot                      // Root element must be <schema>
    | MissingSettings              // <schema_settings> element is required
    | BadReadInMemory              // read_in_memory must be defined and be true, false, ...
    | SortByWithoutMemory          // sort_by can only be used if read_in_memory is true
    | BadFrameSize                 // frame_size must be positive and not 0
    | BadEndian                    // endian must be 'little' or 'big'
    | BadIncludeFrameIndex         // include_frame_index must be defined and be true, false, ...
    | MissingSubsystems            // <subsystems> element is required
    | MissingFields                // <subsystem> -> <fields> element is required
    | MissingAttribute(attr: string)   // KeyError on a required attribute
    | NotAnInteger(text: string)       // ValueError from int()
    | BothExprAndFunc(field: string)   // use either calibration expr or func, not both

  const TRUTH_STRINGS: set<string> := {"true", "yes", "1"}
  const FALSE_STRINGS: set<string> := {"false", "no", "0"}

  /** `attrib.get(key)`. */
  function Get(a: Attributes, key: string): (r: Option<string>)
    ensures r.Some? <==> key in a
    ensures r.Some? ==> r.value == a[key]
  {
    if key in a then Some(a[key]) else None
  }

  /** `attrib.get(key, default)`. */
  function GetOr(a: Attributes, key: string, default: string): (r: string)
    ensures key in a ==> r == a[key]
    ensures key !in a ==> r == default
  {
    if key in a then a[key] else default
  }

  /** `attrib[key]`: a missing key raises. */
  function Required(a: Attributes, key: string): (r: Result<string, SchemaError>)
    ensures r.Ok? <==> key in a
    ensures r.Ok? ==> r.value == a[key]
    ensures r.Err? ==> r.error == MissingAttribute(key)
  {
    if key in a then Ok(a[key]) else Err(MissingAttribute(key))
  }

  function IntOf(text: string, toInt: IntParser): (r: Result<int, SchemaError>)
    ensures r.Ok? <==> toInt(text).Ok?
    ensures r.Ok? ==> r.value == toInt(text).value
    ensures r.Err? ==> r.error == NotAnInteger(text)
  {
    match toInt(text)
    case Ok(n) => Ok(n)
    case Err(_) => Err(NotAnInteger(text))
  }

  /** A boolean setting: required, lower-cased, one of the true or false spellings,
      and true iff it is a true spelling. */
  function ParseFlag(attr: Option<string>, err: SchemaError): (r: Result<bool, SchemaError>)
    ensures r.Ok? <==> attr.Some? && (Lower(attr.value) in TRUTH_STRINGS || Lower(attr.value) in FALSE_STRINGS)
    ensures r.Ok? ==> (r.value <==> Lower(attr.value) in TRUTH_STRINGS)
    ensures r.Err? ==> r.error == err
  {
    if attr.None? then Err(err)
    else
      var v := Lower(attr.value);
      if v !in TRUTH_STRINGS && v !in FALSE_STRINGS then Err(err)
      else Ok(v in TRUTH_STRINGS)
  }

  /** Boolean settings are read case-insensitively, and no spelling is both true and false. */
  lemma FlagCaseInsensitive(s: string, err: SchemaError)
    ensures ParseFlag(Some(s), err) == ParseFlag(Some(Lower(s)), err)
    ensures TRUTH_STRINGS * FALSE_STRINGS == {}
  {
    LowerIdempotent(s);
  }

  /** Every accepted spelling, in any letter case, reads as its meaning. */
  lemma FlagSpellings(err: SchemaError)
    ensures ParseFlag(Some("TRUE"), err) == Ok(true) && ParseFlag(Some("Yes"), err) == Ok(true)
    ensures ParseFlag(Some("1"), err) == Ok(true)
    ensures ParseFlag(Some("False"), err) == Ok(false) && ParseFlag(Some("NO"), err) == Ok(false)
    ensures ParseFlag(Some("0"), err) == Ok(false)
    ensures ParseFlag(Some("maybe"), err) == Err(err) && ParseFlag(None, err) == Err(err)
  {
    assert Lower("TRUE") == "true";
    assert Lower("Yes") == "yes";
    assert Lower("False") == "false";
    assert Lower("NO") == "no";
    assert Lower("1") == "1" && Lower("0") == "0";
    assert Lower("maybe") == "maybe";
  }

  /** The validated `<schema_settings>`. */
  datatype Settings = Settings(readInMemory: bool, sortBy: Option<string>, frameSize: int,
                               endian: string, includeFrameIndex: bool)

  /** The settings rules, checked in the source's order. */
  function ParseSettings(a: Attributes, toInt: IntParser): (r: Result<Settings, SchemaError>)
    ensures r.Ok? ==> r.value.frameSize > 0
    ensures r.Ok? ==> r.value.endian == "little" || r.value.endian == "big"
    ensures r.Ok? && r.value.sortBy.Some? ==> r.value.readInMemory
  {
    var readInMemory :- ParseFlag(Get(a, "read_in_memory"), BadReadInMemory);
    var sortBy := Get(a, "sort_by");
    if sortBy.Some? && !readInMemory then Err(SortByWithoutMemory)
    else
      var frameSize :- IntOf(GetOr(a, "frame_size", "0"), toInt);
      if frameSize <= 0 then Err(BadFrameSize)
      else
        var endian := Lower(GetOr(a, "endian", "little"));
        if endian != "little" && endian != "big" then Err(BadEndian)
        else
          var includeFrameIndex :- ParseFlag(Get(a, "include_frame_index"), BadIncludeFrameIndex);
          Ok(Settings(readInMemory, sortBy, frameSize, endian, includeFrameIndex))
  }

  /** The settings are accepted exactly when every rule holds, and then each setting is
      what its rule reads from the attribute (or its default). */
  lemma SettingsRules(a: Attributes, toInt: IntParser)
    ensures var r := ParseSettings(a, toInt);
      var rim := ParseFlag(Get(a, "read_in_memory"), BadReadInMemory);
      var size := toInt(GetOr(a, "frame_size", "0"));
      var endian := Lower(GetOr(a, "endian", "little"));
      var indexFlag := ParseFlag(Get(a, "include_frame_index"), BadIncludeFrameIndex);
      && (r.Ok? <==>
            rim.Ok? && ("sort_by" in a ==> rim.value) && size.Ok? && size.value > 0 &&
            (endian == "little" || endian == "big") && indexFlag.Ok?)
      && (r.Ok? ==>
            r.value == Settings(rim.value, Get(a, "sort_by"), size.value, endian, indexFlag.value))
    ensures "read_in_memory" !in a ==> ParseSettings(a, toInt) == Err(BadReadInMemory)
    ensures "frame_size" !in a && toInt("0") == Ok(0) ==> ParseSettings(a, toInt).Err?
    ensures "include_frame_index" !in a ==> ParseSettings(a, toInt).Err?
  {
  }

  /** A missing endian setting means little-endian. */
  lemma EndianDefault(a: Attributes, toInt: IntParser)
    requires "endian" !in a && ParseSettings(a, toInt).Ok?
    ensures ParseSettings(a, toInt).value.endian == "little"
  {
    assert Lower("little") == "little";
  }

  /** The calibration attributes of one field. */
  datatype CalibrationAttrs = CalibrationAttrs(expr: Option<string>, func: Option<string>,
                                               units: Option<string>, roundDigits: Option<int>)

  /** The optional `<calibration>` child of a field: `round` is parsed only when it is
      non-empty, and then a non-empty `expr` together with a non-empty `func` is refused. */
  function ParseCalibrationAttrs(fieldName: string, cal: Option<Attributes>, toInt: IntParser)
    : (r: Result<CalibrationAttrs, SchemaError>)
    ensures cal.None? ==> r == Ok(CalibrationAttrs(None, None, None, None))
    ensures r.Ok? ==> !(Truthy(r.value.expr) && Truthy(r.value.func))
    ensures r.Ok? && cal.Some? ==>
              r.value.expr == Get(cal.value, "expr") && r.value.func == Get(cal.value, "func") &&
              r.value.units == Get(cal.value, "units")
    ensures r.Ok? && cal.Some? ==> (r.value.roundDigits.Some? <==> Truthy(Get(cal.value, "round")))
    ensures r.Ok? && r.value.roundDigits.Some? ==>
              cal.Some? && "round" in cal.value && toInt(cal.value["round"]) == Ok(r.value.roundDigits.value)
    ensures cal.Some? && Truthy(Get(cal.value, "round")) && toInt(cal.value["round"]).Err? ==>
              r == Err(NotAnInteger(cal.value["round"]))
    ensures cal.Some? && Truthy(Get(cal.value, "expr")) && Truthy(Get(cal.value, "func")) ==> r.Err?
    ensures r.Ok? <==>
              (cal.Some? ==>
                 !(Truthy(Get(cal.value, "round")) && toInt(cal.value["round"]).Err?) &&
                 !(Truthy(Get(cal.value, "expr")) && Truthy(Get(cal.value, "func"))))
  {
    if cal.None? then Ok(CalibrationAttrs(None, None, None, None))
    else
      var c := cal.value;
      var expr := Get(c, "expr");
      var func := Get(c, "func");
      var units := Get(c, "units");
      var roundDigits :-
        if Truthy(Get(c, "round")) then
          (var d :- IntOf(c["round"], toInt); Ok(Some(d)))
        else Ok(None);
      if Truthy(expr) && Truthy(func) then Err(BothExprAndFunc(fieldName))
      else Ok(CalibrationAttrs(expr, func, units, roundDigits))
  }

  /** One `<field>` element. */
  function ParseField(fe: FieldElem, toInt: IntParser): (r: Result<Field, SchemaError>)
    ensures r.Ok? ==>
              && Get(fe.attrib, "name") == Some(r.value.name)
              && Get(fe.attrib, "type") == Some(r.value.fieldType)
              && "offset" in fe.attrib && toInt(fe.attrib["offset"]) == Ok(r.value.offset)
              && (r.value.bytes.Some? <==> "bytes" in fe.attrib)
              && (r.value.bytes.Some? ==> toInt(fe.attrib["bytes"]) == Ok(r.value.bytes.value))
              && ParseCalibrationAttrs(r.value.name, fe.calibration, toInt) ==
                   Ok(CalibrationAttrs(r.value.calibrationExpression, r.value.calibrationPlugin,
                                       r.value.units, r.value.roundDigits))
              && !(Truthy(r.value.calibrationExpression) && Truthy(r.value.calibrationPlugin))
    ensures r.Ok? && fe.calibration.None? ==>
              r.value.calibrationExpression.None? && r.value.calibrationPlugin.None? &&
              r.value.units.None? && r.value.roundDigits.None?
    ensures "name" !in fe.attrib ==> r == Err(MissingAttribute("name"))
    ensures r.Ok? <==>
              && "name" in fe.attrib && "type" in fe.attrib && "offset" in fe.attrib
              && toInt(fe.attrib["offset"]).Ok?
              && ("bytes" in fe.attrib ==> toInt(fe.attrib["bytes"]).Ok?)
              && ParseCalibrationAttrs(fe.attrib["name"], fe.calibration, toInt).Ok?
  {
    var name :- Required(fe.attrib, "name");
    var byteType :- Required(fe.attrib, "type");
    var offsetText :- Required(fe.attrib, "offset");
    var offset :- IntOf(offsetText, toInt);
    var byteLen :-
      if "bytes" in fe.attrib then
        (var n :- IntOf(fe.attrib["bytes"], toInt); Ok(Some(n)))
      else Ok(None);
    var cal :- ParseCalibrationAttrs(name, fe.calibration, toInt);
    Ok(Field(name, byteType, offset, byteLen, cal.expr, cal.func, cal.units, cal.roundDigits))
  }

  function FieldParser(toInt: IntParser): FieldElem -> Result<Field, SchemaError>
  {
    fe => ParseField(fe, toInt)
  }

  /** The header of one `<subsystem>` element: its name and offset. */
  function ParseSubsystemHeader(se: SubsystemElem, toInt: IntParser): (r: Result<(string, int), SchemaError>)
    ensures r.Ok? ==> Get(se.attrib, "name") == Some(r.value.0) &&
                      "offset" in se.attrib && toInt(se.attrib["offset"]) == Ok(r.value.1)
    ensures r.Ok? <==> "name" in se.attrib && "offset" in se.attrib && toInt(se.attrib["offset"]).Ok?
  {
    var name :- Required(se.attrib, "name");
    var offsetText :- Required(se.attrib, "offset");
    var offset :- IntOf(offsetText, toInt);
    Ok((name, offset))
  }

  /** One `<subsystem>` element: a one-key entry from the subsystem to its field list. */
  function ParseSubsystem(se: SubsystemElem, toInt: IntParser): (r: Result<SubsystemEntry, SchemaError>)
    ensures r.Ok? <==>
              && ParseSubsystemHeader(se, toInt).Ok? && se.fields.Some?
              && forall j :: 0 <= j < |se.fields.value| ==> ParseField(se.fields.value[j], toInt).Ok?
    ensures ParseSubsystemHeader(se, toInt).Ok? && se.fields.None? ==> r == Err(MissingFields)
  {
    var header :- ParseSubsystemHeader(se, toInt);
    if se.fields.None? then Err(MissingFields)
    else
      MapAllOk(se.fields.value, FieldParser(toInt));
      var fields :- MapAll(se.fields.value, FieldParser(toInt));
      Ok(SubsystemEntry(Subsystem(header.0, header.1, fields), fields))
  }

  function SubsystemParser(toInt: IntParser): SubsystemElem -> Result<SubsystemEntry, SchemaError>
  {
    se => ParseSubsystem(se, toInt)
  }

  /** What `parse_schema` returns or raises, from the extracted document. */
  function ParseSchemaSpec(doc: SchemaDoc, toInt: IntParser): (r: Result<Schema, SchemaError>)
    ensures doc.rootTag != "schema" ==> r == Err(BadRoot)
    ensures doc.rootTag == "schema" && doc.settings.None? ==> r == Err(MissingSettings)
    ensures (doc.rootTag == "schema" && doc.settings.Some? && ParseSettings(doc.settings.value, toInt).Ok? &&
             doc.subsystems.None?) ==> r == Err(MissingSubsystems)
    ensures r.Ok? <==>
              && doc.rootTag == "schema" && doc.settings.Some? && ParseSettings(doc.settings.value, toInt).Ok?
              && doc.subsystems.Some?
              && forall k :: 0 <= k < |doc.subsystems.value| ==> ParseSubsystem(doc.subsystems.value[k], toInt).Ok?
  {
    if doc.rootTag != "schema" then Err(BadRoot)
    else if doc.settings.None? then Err(MissingSettings)
    else
      var s :- ParseSettings(doc.settings.value, toInt);
      if doc.subsystems.None? then Err(MissingSubsystems)
      else
        MapAllOk(doc.subsystems.value, SubsystemParser(toInt));
        var entries :- MapAll(doc.subsystems.value, SubsystemParser(toInt));
        Ok(Schema(s.readInMemory, s.frameSize, s.endian, s.includeFrameIndex, entries, s.sortBy))
  }

  /** What every schema the parser returns satisfies. */
  ghost predicate WellFormed(schema: Schema)
  {
    && schema.frameSize > 0
    && (schema.defaultEndian == "little" || schema.defaultEndian == "big")
    && (schema.sortBy.Some? ==> schema.readInMemory)
    && forall k :: 0 <= k < |schema.subsystems| ==>
         && schema.subsystems[k].subsystem.fields == schema.subsystems[k].fields
         && forall j :: 0 <= j < |schema.subsystems[k].fields| ==>
              !(Truthy(schema.subsystems[k].fields[j].calibrationExpression) &&
                Truthy(schema.subsystems[k].fields[j].calibrationPlugin))
  }

  /** A parsed subsystem lists its fields in document order. */
  lemma SubsystemOrder(se: SubsystemElem, toInt: IntParser)
    requires ParseSubsystem(se, toInt).Ok?
    ensures var e := ParseSubsystem(se, toInt).value;
      && se.fields.Some?
      && e.subsystem.fields == e.fields
      && |e.fields| == |se.fields.value|
      && forall j :: 0 <= j < |e.fields| ==> ParseField(se.fields.value[j], toInt) == Ok(e.fields[j])
  {
    MapAllOk(se.fields.value, FieldParser(toInt));
  }

  /** A parsed schema has one entry per `<subsystem>` element, in document order, each
      built from its element; and it is well formed. */
  lemma SchemaOrder(doc: SchemaDoc, toInt: IntParser)
    requires ParseSchemaSpec(doc, toInt).Ok?
    ensures var schema := ParseSchemaSpec(doc, toInt).value;
      && doc.subsystems.Some?
      && |schema.subsystems| == |doc.subsystems.value|
      && (forall k :: 0 <= k < |schema.subsystems| ==>
            ParseSubsystem(doc.subsystems.value[k], toInt) == Ok(schema.subsystems[k]))
      && WellFormed(schema)
  {
    var schema := ParseSchemaSpec(doc, toInt).value;
    MapAllOk(doc.subsystems.value, SubsystemParser(toInt));
    forall k | 0 <= k < |schema.subsystems|
      ensures schema.subsystems[k].subsystem.fields == schema.subsystems[k].fields
      ensures forall j :: 0 <= j < |schema.subsystems[k].fields| ==>
                !(Truthy(schema.subsystems[k].fields[j].calibrationExpression) &&
                  Truthy(schema.subsystems[k].fields[j].calibrationPlugin))
    {
      var se := doc.subsystems.value[k];
      SubsystemOrder(se, toInt);
    }
  }

  /** The inner loop of `parse_schema`: the `<field>` elements of one subsystem, in order. */
  method ParseFields(fieldElems: seq<FieldElem>, toInt: IntParser) returns (r: Result<seq<Field>, SchemaError>)
    ensures r == MapAll(fieldElems, FieldParser(toInt))
  {
    ghost var parseField := FieldParser(toInt);
    var fields: seq<Field> := [];
    var j := 0;
    while j < |fieldElems|
      invariant 0 <= j <= |fieldElems|
      invariant MapAll(fieldElems[..j], parseField) == Ok(fields)
    {
      var field := ParseField(fieldElems[j], toInt);
      assert fieldElems[..j + 1] == fieldElems[..j] + [fieldElems[j]];
      if field.Err? {
        MapAllStops(fieldElems[..j], fieldElems[j], fieldElems[j + 1..], parseField, field.error);
        assert fieldElems[..j] + [fieldElems[j]] + fieldElems[j + 1..] == fieldElems;
        return Err(field.error);
      }
      MapAllSnoc(fieldElems[..j], fieldElems[j], parseField);
      fields := fields + [field.value];
      j := j + 1;
    }
    assert fieldElems[..j] == fieldElems;
    return Ok(fields);
  }

  /** `parse_schema` on an extracted document: the checks in order, then the outer loop
      over subsystem elements appending to the list. */
  method ParseSchema(doc: SchemaDoc, toInt: IntParser) returns (r: Result<Schema, SchemaError>)
    ensures r == ParseSchemaSpec(doc, toInt)
  {
    if doc.rootTag != "schema" {
      return Err(BadRoot);
    }
    if doc.settings.None? {
      return Err(MissingSettings);
    }
    var settingsOr := ParseSettings(doc.settings.value, toInt);
    if settingsOr.Err? {
      return Err(settingsOr.error);
    }
    var settings := settingsOr.value;
    if doc.subsystems.None? {
      return Err(MissingSubsystems);
    }
    var elems := doc.subsystems.value;
    ghost var parseSub := SubsystemParser(toInt);
    var subsystems: seq<SubsystemEntry> := [];
    var k := 0;
    while k < |elems|
      invariant 0 <= k <= |elems|
      invariant MapAll(elems[..k], parseSub) == Ok(subsystems)
    {
      var se := elems[k];
      assert elems[..k + 1] == elems[..k] + [se];
      assert elems[..k] + [se] + elems[k + 1..] == elems;
      var header := ParseSubsystemHeader(se, toInt);
      if header.Err? {
        MapAllStops(elems[..k], se, elems[k + 1..], parseSub, header.error);
        return Err(header.error);
      }
      if se.fields.None? {
        MapAllStops(elems[..k], se, elems[k + 1..], parseSub, MissingFields);
        return Err(MissingFields);
      }
      var fields := ParseFields(se.fields.value, toInt);
      if fields.Err? {
        MapAllStops(elems[..k], se, elems[k + 1..], parseSub, fields.error);
        return Err(fields.error);
      }
      var entry := SubsystemEntry(Subsystem(header.value.0, header.value.1, fields.value), fields.value);
      assert parseSub(se) == Ok(entry);
      MapAllSnoc(elems[..k], se, parseSub);
      subsystems := subsystems + [entry];
      k := k + 1;
    }
    assert elems[..k] == elems;
    return Ok(Schema(settings.readInMemory, settings.frameSize, settings.endian,
                     settings.includeFrameIndex, subsystems, settings.sortBy));
  }
}
