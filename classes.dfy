/** The schema records and the calibration plugin. */
module Classes {
  import opened Wrappers
  import opened Runtime

  /** One typed value at an offset inside its subsystem. */
  datatype Field = Field(
    name: string,
    fieldType: string,
    offset: int,
    bytes: Option<int>,
    calibrationExpression: Option<string>,
    calibrationPlugin: Option<string>,
    units: Option<string>,
    roundDigits: Option<int>)

  /** `Field(name=..., type=..., offset=...)`: every optional attribute left at None. */
  function NewField(name: string, fieldType: string, offset: int): (f: Field)
    ensures f.name == name && f.fieldType == fieldType && f.offset == offset
    ensures f.bytes.None? && f.calibrationExpression.None? && f.calibrationPlugin.None?
    ensures f.units.None? && f.roundDigits.None?
  {
    Field(name, fieldType, offset, None, None, None, None, None)
  }

  /** A named region of the frame with its base offset and its fields. */
  datatype Subsystem = Subsystem(name: string, offset: int, fields: seq<Field>)

  /** The dataclass `__eq__`: the field list is excluded from comparison. */
  predicate SameSubsystem(a: Subsystem, b: Subsystem)
  {
    a.name == b.name && a.offset == b.offset
  }

  /** What the dataclass `__hash__` hashes: the (name, offset) tuple. */
  function HashKey(s: Subsystem): (string, int)
  {
    (s.name, s.offset)
  }

  /** Equal subsystems are exactly those with equal hash keys, so they hash alike
      under any hash function; the field lists play no part. */
  lemma SubsystemIdentity(a: Subsystem, b: Subsystem, hash: ((string, int)) -> int, fs: seq<Field>)
    ensures SameSubsystem(a, b) <==> HashKey(a) == HashKey(b)
    ensures SameSubsystem(a, b) ==> hash(HashKey(a)) == hash(HashKey(b))
    ensures SameSubsystem(a, b) <==> SameSubsystem(a, b.(fields := fs))
  {
  }

  /** `SameSubsystem` is an equivalence relation, as `__eq__` must be for dict keys. */
  lemma SameSubsystemEquivalence(a: Subsystem, b: Subsystem, c: Subsystem)
    ensures SameSubsystem(a, a)
    ensures SameSubsystem(a, b) ==> SameSubsystem(b, a)
    ensures SameSubsystem(a, b) && SameSubsystem(b, c) ==> SameSubsystem(a, c)
  {
  }

  /** One element of `Schema.subsystems`: a one-key dict from a subsystem to its field list. */
  datatype SubsystemEntry = SubsystemEntry(subsystem: Subsystem, fields: seq<Field>)

  datatype Schema = Schema(
    readInMemory: bool,
    frameSize: int,
    defaultEndian: string,
    includeFrameIndex: bool,
    subsystems: seq<SubsystemEntry>,
    sortBy: Option<string>)

  /** A plugin function: it may return any value or raise. */
  type PluginFn = Value -> Result<Value, string>

  datatype PluginError =
    | NoModule                          // "No plugin module loaded."
    | NotCallable(name: string)         // "Plugin has no callable '<name>' ..."
    | Raised(name: string, msg: string) // the plugin function itself raised

  /** The calibration plugin. `loaded` is the loaded module: each attribute name maps
      to a callable or to a non-callable attribute (None); it is None when no module
      path was given. */
  class CalibrationPlugin {
    const loaded: Option<map<string, Option<PluginFn>>>

    /** The module arrives already loaded or absent; loading it is not modelled. */
    constructor (contents: Option<map<string, Option<PluginFn>>>)
      ensures loaded == contents
    {
      loaded := contents;
    }

    /** `has(name)`: a module is loaded and it defines `name`, callable or not. */
    predicate Has(name: string)
    {
      loaded.Some? && name in loaded.value
    }

    /** `call(name, raw)`: refuses without a module, refuses a missing or non-callable
        attribute, and otherwise returns what the function returns (or raises). */
    function Call(name: string, raw: Value): (r: Result<Value, PluginError>)
      ensures loaded.None? <==> r == Err(NoModule)
      ensures r.Ok? ==> Has(name)
      ensures loaded.Some? && !Has(name) ==> r == Err(NotCallable(name))
      ensures Has(name) && loaded.value[name].None? ==> r == Err(NotCallable(name))
      ensures Has(name) && loaded.value[name].Some? ==>
                (r.Ok? <==> loaded.value[name].value(raw).Ok?) &&
                (r.Ok? ==> r.value == loaded.value[name].value(raw).value) &&
                (r.Err? ==> r == Err(Raised(name, loaded.value[name].value(raw).error)))
    {
      if loaded.None? then Err(NoModule)
      else if name !in loaded.value || loaded.value[name].None? then Err(NotCallable(name))
      else
        match loaded.value[name].value(raw)
        case Ok(v) => Ok(v)
        case Err(msg) => Err(Raised(name, msg))
    }
  }

  /** Without a module, `has` is false for every name. */
  lemma HasWithoutModule(p: CalibrationPlugin, name: string)
    requires p.loaded.None?
    ensures !p.Has(name)
  {
  }
}
