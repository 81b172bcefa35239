/** The calibration-expression sandbox: the allow-list walk over a Python expression
    tree that runs before any evaluation, and the error wrapping of the evaluator. */
module ParseCalibration {
  import opened Wrappers
  import opened Runtime

  datatype BinOperator = Add | Sub | Mult | Div | FloorDiv | Mod | Pow
                       | LShift | RShift | BitOr | BitXor | BitAnd | MatMult
  datatype UnaryOperator = UAdd | USub | Not | Invert
  datatype CmpOperator = Eq | NotEq | Lt | LtE | Gt | GtE | Is | IsNot | In | NotIn
  datatype BoolOperator = And | Or

  /** The expression nodes of Python's `ast` that the walk distinguishes; `Other`
      stands for every other node kind (Subscript, Lambda, NamedExpr, ListComp, ...).
      The `Load` contexts of names and attributes are allowed nodes without children
      and are left implicit. */
  datatype Node =
    | BinOp(left: Node, op: BinOperator, right: Node)
    | UnaryOp(unaryOp: UnaryOperator, operand: Node)
    | Compare(first: Node, ops: seq<CmpOperator>, comparators: seq<Node>)
    | Constant(literal: string)
    | Name(id: string)
    | BoolOp(boolOp: BoolOperator, values: seq<Node>)
    | IfExp(test: Node, body: Node, orElse: Node)
    | Call(func: Node, args: seq<Node>, keywords: seq<Keyword>)
    | Attribute(target: Node, attr: string)
    | Other(kind: string)

  /** A `name=value` argument of a call (`ast.keyword`, not an allowed node). */
  datatype Keyword = Keyword(arg: Option<string>, argValue: Node)

  const ALLOWED_BINOPS: set<BinOperator> := {Add, Sub, Mult, Div, FloorDiv, Mod, Pow}
  const ALLOWED_UNARYOPS: set<UnaryOperator> := {UAdd, USub}
  const ALLOWED_CMPOPS: set<CmpOperator> := {Eq, NotEq, Lt, LtE, Gt, GtE}
  const ALLOWED_NAMES: set<string> := {"raw"}
  const ALLOWED_FUNCS: set<string> :=
    {"sin", "cos", "tan", "asin", "acos", "atan", "sqrt", "log", "log10", "exp", "fabs",
     "floor", "ceil", "round", "min", "max", "pow", "abs"}

  /** The class name Python reports for a comparison operator node. */
  function CmpName(op: CmpOperator): string
  {
    match op
    case Eq => "Eq"       case NotEq => "NotEq" case Lt => "Lt"     case LtE => "LtE"
    case Gt => "Gt"       case GtE => "GtE"     case Is => "Is"     case IsNot => "IsNot"
    case In => "In"       case NotIn => "NotIn"
  }

  /** The reasons the walk gives, one per `raise` of the checker. */
  datatype CheckError =
    | DisallowedElement(kind: string)
    | DisallowedBinaryOperator(binOp: BinOperator)
    | DisallowedUnaryOperator(unOp: UnaryOperator)
    | DisallowedComparison(cmpOp: CmpOperator)
    | FunctionNotAllowed(func: string)
    | OnlyMathCalls
    | OnlySimpleCalls
    | UnknownVariable(variable: string)

  /** The loop over `node.ops`: the first comparison operator off the allow-list. */
  function CheckCmpOps(ops: seq<CmpOperator>): (r: Outcome<CheckError>)
    ensures r.Pass? <==> forall i :: 0 <= i < |ops| ==> ops[i] in ALLOWED_CMPOPS
  {
    if ops == [] then Pass
    else if ops[0] !in ALLOWED_CMPOPS then Fail(DisallowedComparison(ops[0]))
    else CheckCmpOps(ops[1..])
  }

  /** The node-kind test applied to the operator children of a Compare: comparison
      operators are not among the allowed node kinds, so the first one is refused. */
  function CheckCmpOpNodes(ops: seq<CmpOperator>): Outcome<CheckError>
  {
    if ops == [] then Pass else Fail(DisallowedElement(CmpName(ops[0])))
  }

  /** The node-kind test applied to a call's keyword children. */
  function CheckKeywords(kws: seq<Keyword>): Outcome<CheckError>
  {
    if kws == [] then Pass else Fail(DisallowedElement("keyword"))
  }

  /** The extra test on a call's callee: a bare allowed function name, or
      `math.<member>` where the member is in `dir(math)`. */
  function CheckCallee(func: Node, mathMembers: set<string>): Outcome<CheckError>
  {
    if func.Name? then
      (if func.id in ALLOWED_FUNCS then Pass else Fail(FunctionNotAllowed(func.id)))
    else if func.Attribute? then
      (if func.target == Name("math") && func.attr in mathMembers then Pass else Fail(OnlyMathCalls))
    else Fail(OnlySimpleCalls)
  }

  /** `_ensure_safe_expr` as written: the node kind first, then every child in field
      order, then the node's own operator, callee or name test. */
  function EnsureSafeExpr(n: Node, mathMembers: set<string>): Outcome<CheckError>
    decreases n, 1
  {
    match n
    case BinOp(l, op, r) =>
      Then(EnsureSafeExpr(l, mathMembers), Then(EnsureSafeExpr(r, mathMembers),
        if op in ALLOWED_BINOPS then Pass else Fail(DisallowedBinaryOperator(op))))
    case UnaryOp(op, e) =>
      Then(EnsureSafeExpr(e, mathMembers),
        if op in ALLOWED_UNARYOPS then Pass else Fail(DisallowedUnaryOperator(op)))
    case Compare(l, ops, cs) =>
      Then(EnsureSafeExpr(l, mathMembers), Then(CheckCmpOpNodes(ops),
        Then(EnsureSafeAll(cs, mathMembers), CheckCmpOps(ops))))
    case Constant(_) => Pass
    case Name(id) =>
      if id !in ALLOWED_NAMES && id != "math" then Fail(UnknownVariable(id)) else Pass
    case BoolOp(_, vs) => EnsureSafeAll(vs, mathMembers)
    case IfExp(t, b, e) =>
      Then(EnsureSafeExpr(t, mathMembers), Then(EnsureSafeExpr(b, mathMembers), EnsureSafeExpr(e, mathMembers)))
    case Call(f, args, kws) =>
      Then(EnsureSafeExpr(f, mathMembers), Then(EnsureSafeAll(args, mathMembers),
        Then(CheckKeywords(kws), CheckCallee(f, mathMembers))))
    case Attribute(v, _) => EnsureSafeExpr(v, mathMembers)
    case Other(kind) => Fail(DisallowedElement(kind))
  }

  function EnsureSafeAll(ns: seq<Node>, mathMembers: set<string>): Outcome<CheckError>
    decreases ns, 0
  {
    if ns == [] then Pass
    else Then(EnsureSafeExpr(ns[0], mathMembers), EnsureSafeAll(ns[1..], mathMembers))
  }

  /** The trees the walk accepts, rule by rule, with no traversal order. */
  ghost predicate Accepted(n: Node, mathMembers: set<string>)
    decreases n
  {
    match n
    case BinOp(l, op, r) => Accepted(l, mathMembers) && Accepted(r, mathMembers) && op in ALLOWED_BINOPS
    case UnaryOp(op, e) => Accepted(e, mathMembers) && op in ALLOWED_UNARYOPS
    case Compare(l, ops, cs) =>
      Accepted(l, mathMembers) && ops == [] && forall c :: c in cs ==> Accepted(c, mathMembers)
    case Constant(_) => true
    case Name(id) => id in ALLOWED_NAMES || id == "math"
    case BoolOp(_, vs) => forall v :: v in vs ==> Accepted(v, mathMembers)
    case IfExp(t, b, e) => Accepted(t, mathMembers) && Accepted(b, mathMembers) && Accepted(e, mathMembers)
    case Call(f, args, kws) =>
      Accepted(f, mathMembers) && (forall a :: a in args ==> Accepted(a, mathMembers)) && kws == [] &&
      ((f.Name? && f.id in ALLOWED_FUNCS) ||
       (f.Attribute? && f.target == Name("math") && f.attr in mathMembers))
    case Attribute(v, _) => Accepted(v, mathMembers)
    case Other(_) => false
  }

  /** The walk passes exactly on the accepted trees. */
  lemma {:induction false} EnsureSafeExprAccepts(n: Node, mathMembers: set<string>)
    ensures EnsureSafeExpr(n, mathMembers).Pass? <==> Accepted(n, mathMembers)
    decreases n, 1
  {
    match n
    case BinOp(l, op, r) =>
      EnsureSafeExprAccepts(l, mathMembers); EnsureSafeExprAccepts(r, mathMembers);
    case UnaryOp(op, e) => EnsureSafeExprAccepts(e, mathMembers);
    case Compare(l, ops, cs) =>
      EnsureSafeExprAccepts(l, mathMembers); EnsureSafeAllAccepts(cs, mathMembers);
    case Constant(_) =>
    case Name(id) =>
    case BoolOp(_, vs) => EnsureSafeAllAccepts(vs, mathMembers);
    case IfExp(t, b, e) =>
      EnsureSafeExprAccepts(t, mathMembers); EnsureSafeExprAccepts(b, mathMembers);
      EnsureSafeExprAccepts(e, mathMembers);
    case Call(f, args, kws) =>
      EnsureSafeExprAccepts(f, mathMembers); EnsureSafeAllAccepts(args, mathMembers);
    case Attribute(v, _) => EnsureSafeExprAccepts(v, mathMembers);
    case Other(_) =>
  }

  lemma {:induction false} EnsureSafeAllAccepts(ns: seq<Node>, mathMembers: set<string>)
    ensures EnsureSafeAll(ns, mathMembers).Pass? <==> forall c :: c in ns ==> Accepted(c, mathMembers)
    decreases ns, 0
  {
    if ns != [] {
      EnsureSafeExprAccepts(ns[0], mathMembers);
      EnsureSafeAllAccepts(ns[1..], mathMembers);
      assert forall c :: c in ns <==> c == ns[0] || c in ns[1..];
    }
  }

  /** Every identifier that occurs as a `Name` in the tree, outside keyword arguments
      (which are refused before their values are visited). */
  function NameIds(n: Node): set<string>
    decreases n, 1
  {
    match n
    case BinOp(l, _, r) => NameIds(l) + NameIds(r)
    case UnaryOp(_, e) => NameIds(e)
    case Compare(l, _, cs) => NameIds(l) + NameIdsAll(cs)
    case Constant(_) => {}
    case Name(id) => {id}
    case BoolOp(_, vs) => NameIdsAll(vs)
    case IfExp(t, b, e) => NameIds(t) + NameIds(b) + NameIds(e)
    case Call(f, args, _) => NameIds(f) + NameIdsAll(args)
    case Attribute(v, _) => NameIds(v)
    case Other(_) => {}
  }

  function NameIdsAll(ns: seq<Node>): set<string>
    decreases ns, 0
  {
    if ns == [] then {} else NameIds(ns[0]) + NameIdsAll(ns[1..])
  }

  /** Whether a node kind outside the allow-list (an `Other` node or a keyword
      argument) occurs anywhere in the tree. */
  predicate HasForbiddenNode(n: Node)
    decreases n, 1
  {
    match n
    case BinOp(l, _, r) => HasForbiddenNode(l) || HasForbiddenNode(r)
    case UnaryOp(_, e) => HasForbiddenNode(e)
    case Compare(l, _, cs) => HasForbiddenNode(l) || AnyForbidden(cs)
    case Constant(_) => false
    case Name(_) => false
    case BoolOp(_, vs) => AnyForbidden(vs)
    case IfExp(t, b, e) => HasForbiddenNode(t) || HasForbiddenNode(b) || HasForbiddenNode(e)
    case Call(f, args, kws) => HasForbiddenNode(f) || AnyForbidden(args) || kws != []
    case Attribute(v, _) => HasForbiddenNode(v)
    case Other(_) => true
  }

  predicate AnyForbidden(ns: seq<Node>)
    decreases ns, 0
  {
    ns != [] && (HasForbiddenNode(ns[0]) || AnyForbidden(ns[1..]))
  }

  /** What an accepted tree can refer to and contain: only the names `raw` and `math`,
      and no node kind outside the allow-list. */
  lemma {:induction false} AcceptedIsConfined(n: Node, mathMembers: set<string>)
    requires Accepted(n, mathMembers)
    ensures NameIds(n) <= {"raw", "math"}
    ensures !HasForbiddenNode(n)
    decreases n, 1
  {
    match n
    case BinOp(l, _, r) => AcceptedIsConfined(l, mathMembers); AcceptedIsConfined(r, mathMembers);
    case UnaryOp(_, e) => AcceptedIsConfined(e, mathMembers);
    case Compare(l, _, cs) => AcceptedIsConfined(l, mathMembers); AcceptedAllConfined(cs, mathMembers);
    case Constant(_) =>
    case Name(_) =>
    case BoolOp(_, vs) => AcceptedAllConfined(vs, mathMembers);
    case IfExp(t, b, e) =>
      AcceptedIsConfined(t, mathMembers); AcceptedIsConfined(b, mathMembers);
      AcceptedIsConfined(e, mathMembers);
    case Call(f, args, kws) => AcceptedIsConfined(f, mathMembers); AcceptedAllConfined(args, mathMembers);
    case Attribute(v, _) => AcceptedIsConfined(v, mathMembers);
  }

  lemma {:induction false} AcceptedAllConfined(ns: seq<Node>, mathMembers: set<string>)
    requires forall c :: c in ns ==> Accepted(c, mathMembers)
    ensures NameIdsAll(ns) <= {"raw", "math"}
    ensures !AnyForbidden(ns)
    decreases ns, 0
  {
    if ns != [] {
      AcceptedIsConfined(ns[0], mathMembers);
      assert forall c :: c in ns[1..] ==> c in ns;
      AcceptedAllConfined(ns[1..], mathMembers);
    }
  }

  /** A node kind outside the allow-list anywhere in the tree makes the walk fail, and
      so does any name other than `raw` and `math`. */
  lemma ForbiddenAnywhereRejected(n: Node, mathMembers: set<string>)
    requires HasForbiddenNode(n) || !(NameIds(n) <= {"raw", "math"})
    ensures EnsureSafeExpr(n, mathMembers).Fail?
  {
    EnsureSafeExprAccepts(n, mathMembers);
    if Accepted(n, mathMembers) {
      AcceptedIsConfined(n, mathMembers);
    }
  }

  /** The only calls that pass are `math.<member>(...)` without keyword arguments:
      a bare function name is first checked as a variable and refused. */
  lemma AcceptedCallIsMathMember(f: Node, args: seq<Node>, kws: seq<Keyword>, mathMembers: set<string>)
    requires EnsureSafeExpr(Call(f, args, kws), mathMembers).Pass?
    ensures f.Attribute? && f.target == Name("math") && f.attr in mathMembers
    ensures kws == []
  {
    EnsureSafeExprAccepts(Call(f, args, kws), mathMembers);
  }

  /** As written, a call through a bare name is always refused, with the unknown-variable
      error for any name other than `raw` and `math` (so `sqrt(raw)` fails). */
  lemma BareNameCallRejected(id: string, args: seq<Node>, kws: seq<Keyword>, mathMembers: set<string>)
    ensures EnsureSafeExpr(Call(Name(id), args, kws), mathMembers).Fail?
    ensures id != "raw" && id != "math" ==>
              EnsureSafeExpr(Call(Name(id), args, kws), mathMembers) == Fail(UnknownVariable(id))
  {
    if EnsureSafeExpr(Call(Name(id), args, kws), mathMembers).Pass? {
      AcceptedCallIsMathMember(Name(id), args, kws, mathMembers);
    }
  }

  /** As written, every comparison is refused: its operator children are not allowed
      node kinds, so the operator allow-list is never reached. */
  lemma CompareRejected(l: Node, ops: seq<CmpOperator>, cs: seq<Node>, mathMembers: set<string>)
    requires ops != []
    ensures EnsureSafeExpr(Compare(l, ops, cs), mathMembers).Fail?
    ensures EnsureSafeExpr(l, mathMembers).Pass? ==>
              EnsureSafeExpr(Compare(l, ops, cs), mathMembers) == Fail(DisallowedElement(CmpName(ops[0])))
  {
  }

  /** The operator rules: an arithmetic node passes iff its operands do and its
      operator is on the allow-list; an attribute outside a call position is checked
      through its receiver only, so `raw.real` and `math.pi` pass whatever the member. */
  lemma OperatorRules(l: Node, op: BinOperator, r: Node, uop: UnaryOperator, attr: string,
                      mathMembers: set<string>)
    ensures EnsureSafeExpr(BinOp(l, op, r), mathMembers).Pass? <==>
              EnsureSafeExpr(l, mathMembers).Pass? && EnsureSafeExpr(r, mathMembers).Pass? &&
              op in ALLOWED_BINOPS
    ensures EnsureSafeExpr(UnaryOp(uop, l), mathMembers).Pass? <==>
              EnsureSafeExpr(l, mathMembers).Pass? && uop in ALLOWED_UNARYOPS
    ensures EnsureSafeExpr(Attribute(l, attr), mathMembers) == EnsureSafeExpr(l, mathMembers)
    ensures EnsureSafeExpr(Attribute(Name("raw"), attr), mathMembers).Pass?
    ensures EnsureSafeExpr(Attribute(Name("math"), attr), mathMembers).Pass?
  {
  }

  /** The checker as evidently intended: a callee name is looked up in the function
      allow-list instead of being checked as a variable, and comparison operators are
      checked against their allow-list instead of being refused as nodes. */
  function EnsureSafeExprFixed(n: Node, mathMembers: set<string>): Outcome<CheckError>
    decreases n, 1
  {
    match n
    case BinOp(l, op, r) =>
      Then(EnsureSafeExprFixed(l, mathMembers), Then(EnsureSafeExprFixed(r, mathMembers),
        if op in ALLOWED_BINOPS then Pass else Fail(DisallowedBinaryOperator(op))))
    case UnaryOp(op, e) =>
      Then(EnsureSafeExprFixed(e, mathMembers),
        if op in ALLOWED_UNARYOPS then Pass else Fail(DisallowedUnaryOperator(op)))
    case Compare(l, ops, cs) =>
      Then(EnsureSafeExprFixed(l, mathMembers),
        Then(EnsureSafeAllFixed(cs, mathMembers), CheckCmpOps(ops)))
    case Constant(_) => Pass
    case Name(id) =>
      if id !in ALLOWED_NAMES && id != "math" then Fail(UnknownVariable(id)) else Pass
    case BoolOp(_, vs) => EnsureSafeAllFixed(vs, mathMembers)
    case IfExp(t, b, e) =>
      Then(EnsureSafeExprFixed(t, mathMembers),
        Then(EnsureSafeExprFixed(b, mathMembers), EnsureSafeExprFixed(e, mathMembers)))
    case Call(f, args, kws) =>
      Then(if f.Name? then Pass else EnsureSafeExprFixed(f, mathMembers),
        Then(EnsureSafeAllFixed(args, mathMembers),
          Then(CheckKeywords(kws), CheckCallee(f, mathMembers))))
    case Attribute(v, _) => EnsureSafeExprFixed(v, mathMembers)
    case Other(kind) => Fail(DisallowedElement(kind))
  }

  function EnsureSafeAllFixed(ns: seq<Node>, mathMembers: set<string>): Outcome<CheckError>
    decreases ns, 0
  {
    if ns == [] then Pass
    else Then(EnsureSafeExprFixed(ns[0], mathMembers), EnsureSafeAllFixed(ns[1..], mathMembers))
  }

  /** Intended call rule: a bare allowed function or a `math` member, with safe
      positional arguments and no keywords. */
  lemma FixedCallRule(f: Node, args: seq<Node>, kws: seq<Keyword>, mathMembers: set<string>)
    ensures EnsureSafeExprFixed(Call(f, args, kws), mathMembers).Pass? <==>
      ((f.Name? && f.id in ALLOWED_FUNCS) ||
       (f.Attribute? && f.target == Name("math") && f.attr in mathMembers)) &&
      EnsureSafeAllFixed(args, mathMembers).Pass? && kws == []
  {
    if f.Attribute? && f.target == Name("math") {
      assert EnsureSafeExprFixed(f, mathMembers) == Pass;
    }
  }

  /** Intended comparison rule: every operator of the chain on the allow-list. */
  lemma FixedCompareRule(l: Node, ops: seq<CmpOperator>, cs: seq<Node>, mathMembers: set<string>)
    ensures EnsureSafeExprFixed(Compare(l, ops, cs), mathMembers).Pass? <==>
      EnsureSafeExprFixed(l, mathMembers).Pass? && EnsureSafeAllFixed(cs, mathMembers).Pass? &&
      forall i :: 0 <= i < |ops| ==> ops[i] in ALLOWED_CMPOPS
  {
  }

  /** The intended checker accepts everything the written one does. */
  lemma {:induction false} FixedAcceptsMore(n: Node, mathMembers: set<string>)
    requires EnsureSafeExpr(n, mathMembers).Pass?
    ensures EnsureSafeExprFixed(n, mathMembers).Pass?
    decreases n, 1
  {
    match n
    case BinOp(l, _, r) => FixedAcceptsMore(l, mathMembers); FixedAcceptsMore(r, mathMembers);
    case UnaryOp(_, e) => FixedAcceptsMore(e, mathMembers);
    case Compare(l, ops, cs) => FixedAcceptsMore(l, mathMembers); FixedAcceptsMoreAll(cs, mathMembers);
    case Constant(_) =>
    case Name(_) =>
    case BoolOp(_, vs) => FixedAcceptsMoreAll(vs, mathMembers);
    case IfExp(t, b, e) =>
      FixedAcceptsMore(t, mathMembers); FixedAcceptsMore(b, mathMembers); FixedAcceptsMore(e, mathMembers);
    case Call(f, args, kws) => FixedAcceptsMore(f, mathMembers); FixedAcceptsMoreAll(args, mathMembers);
    case Attribute(v, _) => FixedAcceptsMore(v, mathMembers);
  }

  lemma {:induction false} FixedAcceptsMoreAll(ns: seq<Node>, mathMembers: set<string>)
    requires EnsureSafeAll(ns, mathMembers).Pass?
    ensures EnsureSafeAllFixed(ns, mathMembers).Pass?
    decreases ns, 0
  {
    if ns != [] {
      FixedAcceptsMore(ns[0], mathMembers);
      FixedAcceptsMoreAll(ns[1..], mathMembers);
    }
  }

  /** The intended checker still confines a tree: no forbidden node kind, and every
      name is `raw`, `math` or an allow-listed function. */
  lemma {:induction false} FixedIsConfined(n: Node, mathMembers: set<string>)
    requires EnsureSafeExprFixed(n, mathMembers).Pass?
    ensures NameIds(n) <= {"raw", "math"} + ALLOWED_FUNCS
    ensures !HasForbiddenNode(n)
    decreases n, 1
  {
    match n
    case BinOp(l, _, r) => FixedIsConfined(l, mathMembers); FixedIsConfined(r, mathMembers);
    case UnaryOp(_, e) => FixedIsConfined(e, mathMembers);
    case Compare(l, _, cs) => FixedIsConfined(l, mathMembers); FixedAllConfined(cs, mathMembers);
    case Constant(_) =>
    case Name(_) =>
    case BoolOp(_, vs) => FixedAllConfined(vs, mathMembers);
    case IfExp(t, b, e) =>
      FixedIsConfined(t, mathMembers); FixedIsConfined(b, mathMembers); FixedIsConfined(e, mathMembers);
    case Call(f, args, kws) =>
      if !f.Name? { FixedIsConfined(f, mathMembers); }
      FixedAllConfined(args, mathMembers);
    case Attribute(v, _) => FixedIsConfined(v, mathMembers);
  }

  lemma {:induction false} FixedAllConfined(ns: seq<Node>, mathMembers: set<string>)
    requires EnsureSafeAllFixed(ns, mathMembers).Pass?
    ensures NameIdsAll(ns) <= {"raw", "math"} + ALLOWED_FUNCS
    ensures !AnyForbidden(ns)
    decreases ns, 0
  {
    if ns != [] {
      FixedIsConfined(ns[0], mathMembers);
      FixedAllConfined(ns[1..], mathMembers);
    }
  }

  /** The inputs that separate the two checkers: `sqrt(raw)` and `raw < 0`. */
  lemma FindingWitnesses(mathMembers: set<string>)
    ensures EnsureSafeExpr(Call(Name("sqrt"), [Name("raw")], []), mathMembers) == Fail(UnknownVariable("sqrt"))
    ensures EnsureSafeExprFixed(Call(Name("sqrt"), [Name("raw")], []), mathMembers) == Pass
    ensures EnsureSafeExpr(Compare(Name("raw"), [Lt], [Constant("0")]), mathMembers) == Fail(DisallowedElement("Lt"))
    ensures EnsureSafeExprFixed(Compare(Name("raw"), [Lt], [Constant("0")]), mathMembers) == Pass
  {
  }

  /** Why an evaluation failed; the evaluator wraps every cause in one error kind. */
  datatype ExprCause =
    | SyntaxError(msg: string)       // ast.parse refused the text
    | Unsafe(check: CheckError)      // the allow-list walk refused the tree
    | RuntimeFailure(msg: string)    // compile/eval raised (a math domain error, ...)
    | NotAFloat(msg: string)         // float() of the result raised

  /** `[EXPR PARSE ERROR] Error evaluating expr '<expr>': <cause>`. */
  datatype ExprError = ExprError(expr: string, cause: ExprCause)

  /** The host-language services the evaluator calls: parsing, evaluation of the
      compiled tree with `raw` bound, `float()`, and the member names of `math`. */
  datatype ExprHost = ExprHost(
    parse: string -> Result<Node, string>,
    run: (Node, PyFloat) -> Result<Value, string>,
    toFloat: Value -> Result<PyFloat, string>,
    mathMembers: set<string>)

  /** What follows the walk in `eval_expr`: a refused tree is reported, an accepted one
      is evaluated with `raw` bound and coerced to float. */
  function EvalTree(expr: string, tree: Node, verdict: Outcome<CheckError>, raw: PyFloat, host: ExprHost)
    : Result<PyFloat, ExprError>
  {
    match verdict
    case Fail(e) => Err(ExprError(expr, Unsafe(e)))
    case Pass =>
      match host.run(tree, raw)
      case Err(msg) => Err(ExprError(expr, RuntimeFailure(msg)))
      case Ok(v) =>
        match host.toFloat(v)
        case Err(msg) => Err(ExprError(expr, NotAFloat(msg)))
        case Ok(x) => Ok(x)
  }

  /** `eval_expr(expr, raw=raw)` as evidently intended: parse, validate with the
      corrected walk (see `EnsureSafeExprFixed`), evaluate, coerce to float; any failure
      becomes one ExprError naming the expression. The decoder uses this evaluator. */
  function EvalExpr(expr: string, raw: PyFloat, host: ExprHost): (r: Result<PyFloat, ExprError>)
    ensures r.Err? ==> r.error.expr == expr
  {
    match host.parse(expr)
    case Err(msg) => Err(ExprError(expr, SyntaxError(msg)))
    case Ok(tree) => EvalTree(expr, tree, EnsureSafeExprFixed(tree, host.mathMembers), raw, host)
  }

  /** `eval_expr(expr, raw=raw)` as written: the same steps, validated with the walk
      as written (`EnsureSafeExpr`). */
  function EvalExprAsWritten(expr: string, raw: PyFloat, host: ExprHost): (r: Result<PyFloat, ExprError>)
    ensures r.Err? ==> r.error.expr == expr
  {
    match host.parse(expr)
    case Err(msg) => Err(ExprError(expr, SyntaxError(msg)))
    case Ok(tree) => EvalTree(expr, tree, EnsureSafeExpr(tree, host.mathMembers), raw, host)
  }

  /** A value comes back only from a tree that parsed, passed the walk and evaluated
      to something `float` accepts. */
  lemma EvalExprOk(expr: string, raw: PyFloat, host: ExprHost)
    ensures EvalExpr(expr, raw, host).Ok? <==>
              host.parse(expr).Ok? &&
              EnsureSafeExprFixed(host.parse(expr).value, host.mathMembers).Pass? &&
              host.run(host.parse(expr).value, raw).Ok? &&
              host.toFloat(host.run(host.parse(expr).value, raw).value).Ok?
    ensures EvalExpr(expr, raw, host).Ok? ==>
              EnsureSafeExprFixed(host.parse(expr).value, host.mathMembers).Pass? &&
              host.run(host.parse(expr).value, raw).Ok? &&
              host.toFloat(host.run(host.parse(expr).value, raw).value) == Ok(EvalExpr(expr, raw, host).value)
  {
  }

  /** A tree the walk refuses is never evaluated: the result is the walk's error
      whatever the evaluation service would have done. */
  lemma UnsafeNeverRuns(expr: string, raw: PyFloat, host: ExprHost,
                        otherRun: (Node, PyFloat) -> Result<Value, string>)
    requires host.parse(expr).Ok?
    requires EnsureSafeExprFixed(host.parse(expr).value, host.mathMembers).Fail?
    ensures EvalExpr(expr, raw, host) ==
              Err(ExprError(expr, Unsafe(EnsureSafeExprFixed(host.parse(expr).value, host.mathMembers).error)))
    ensures EvalExpr(expr, raw, host.(run := otherRun)) == EvalExpr(expr, raw, host)
  {
  }

  /** The same for `eval_expr` as written: a tree its walk refuses is never evaluated. */
  lemma UnsafeNeverRunsAsWritten(expr: string, raw: PyFloat, host: ExprHost,
                                 otherRun: (Node, PyFloat) -> Result<Value, string>)
    requires host.parse(expr).Ok?
    requires EnsureSafeExpr(host.parse(expr).value, host.mathMembers).Fail?
    ensures EvalExprAsWritten(expr, raw, host) ==
              Err(ExprError(expr, Unsafe(EnsureSafeExpr(host.parse(expr).value, host.mathMembers).error)))
    ensures EvalExprAsWritten(expr, raw, host.(run := otherRun)) == EvalExprAsWritten(expr, raw, host)
  {
  }

  /** On the inputs of the findings, `eval_expr` as written raises before evaluating,
      while the corrected evaluator returns whatever evaluation and `float()` give. */
  lemma FindingEvaluations(expr: string, raw: PyFloat, host: ExprHost)
    requires host.parse(expr) == Ok(Call(Name("sqrt"), [Name("raw")], [])) ||
             host.parse(expr) == Ok(Compare(Name("raw"), [Lt], [Constant("0")]))
    ensures EvalExprAsWritten(expr, raw, host).Err? &&
            EvalExprAsWritten(expr, raw, host).error.cause.Unsafe?
    ensures EvalExpr(expr, raw, host).Ok? <==>
              host.run(host.parse(expr).value, raw).Ok? &&
              host.toFloat(host.run(host.parse(expr).value, raw).value).Ok?
  {
    FindingWitnesses(host.mathMembers);
  }

  /** On every expression the walk as written accepts, the corrected evaluator goes
      straight on to evaluation, so there it behaves exactly as `eval_expr` as written. */
  lemma WrittenWalkAcceptsAgree(expr: string, raw: PyFloat, host: ExprHost)
    requires host.parse(expr).Ok?
    requires EnsureSafeExpr(host.parse(expr).value, host.mathMembers).Pass?
    ensures EvalExpr(expr, raw, host) == EvalExprAsWritten(expr, raw, host)
    ensures EvalExpr(expr, raw, host).Ok? <==>
              host.run(host.parse(expr).value, raw).Ok? &&
              host.toFloat(host.run(host.parse(expr).value, raw).value).Ok?
  {
    FixedAcceptsMore(host.parse(expr).value, host.mathMembers);
  }
}
