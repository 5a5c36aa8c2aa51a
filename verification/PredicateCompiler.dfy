/** CEL parse trees compiled to storage predicates (termin_core/expression/predicate.py). */
module PredicateCompiler {
  import opened Basics
  import opened Storage
  import opened CelTrees
  import opened Literals

  /** `NotCompilable` is the code's own exception; `Crash` is any other Python exception a malformed tree
      provokes; `Unmodelled` marks a literal outside this model (floats, odd numerals, half surrogate pairs). */
  datatype CompileError = NotCompilable | Crash | Unmodelled

  type Compiled<+T> = Result<T, CompileError>

  type Names = Option<set<string>>

  predicate Known(f: string, names: Names) {
    names.Some? ==> f in names.value
  }

  // ------------------------------------------------------------ literals

  function TokenValue(text: string): Compiled<Value> {
    match ParseTokenLiteral(text)
    case None => Failure(Unmodelled)
    case Some(v) => Success(v)
  }

  // ------------------------------------------------------------ the drill-down loops

  function FieldOfIdent(t: Tree, names: Names): Compiled<string>
    requires Is(t, Ident)
  {
    if t.kids == [] then Failure(Crash)
    else if !t.kids[0].Token? then Failure(Unmodelled)
    else if Known(t.kids[0].text, names) then Success(t.kids[0].text) else Failure(NotCompilable)
  }

  function ExtractField(t: Tree, names: Names): Compiled<string>
    decreases t
  {
    if t.Token? then
      if IsIdentifier(t.text) && Known(t.text, names) then Success(t.text) else Failure(NotCompilable)
    else if t.rule.Primary? then
      if |t.kids| == 1 && Is(t.kids[0], Ident) then FieldOfIdent(t.kids[0], names) else Failure(NotCompilable)
    else if t.rule.Ident? && t.kids != [] then FieldOfIdent(t, names)
    else if t.rule.Ident? then Failure(Unmodelled)
    else if |t.kids| == 1 then ExtractField(t.kids[0], names)
    else Failure(NotCompilable)
  }

  function LiteralOfIdent(t: Tree): Compiled<Value>
    requires Is(t, Ident)
  {
    if t.kids == [] then Failure(Crash)
    else if !t.kids[0].Token? then Failure(NotCompilable)
    else
      var s := t.kids[0].text;
      if s == "null" || s == "None" then Success(Null)
      else if s == "true" || s == "True" then Success(Bool(true))
      else if s == "false" || s == "False" then Success(Bool(false))
      else Failure(NotCompilable)
  }

  function TokenOfLiteral(t: Tree): Compiled<Value>
    requires Is(t, Literal)
  {
    if t.kids == [] then Failure(Crash)
    else if t.kids[0].Token? then TokenValue(t.kids[0].text)
    else Failure(Unmodelled)
  }

  function ExtractLiteral(t: Tree): Compiled<Value>
    decreases t
  {
    if t.Token? then TokenValue(t.text)
    else if t.rule.Primary? && |t.kids| == 1 then
      if Is(t.kids[0], Literal) then TokenOfLiteral(t.kids[0])
      else if Is(t.kids[0], Ident) then LiteralOfIdent(t.kids[0])
      else Failure(NotCompilable)
    else if t.rule.Literal? then TokenOfLiteral(t)
    else if |t.kids| == 1 then ExtractLiteral(t.kids[0])
    else Failure(NotCompilable)
  }

  /** `[_extract_literal(c) for c in ts if c is an expr]` */
  function ExtractLiterals(ts: seq<Tree>): Compiled<seq<Value>> {
    if ts == [] then Success([])
    else if !Is(ts[0], Expr) then ExtractLiterals(ts[1..])
    else
      match ExtractLiteral(ts[0])
      case Failure(e) => Failure(e)
      case Success(v) =>
        match ExtractLiterals(ts[1..])
        case Failure(e) => Failure(e)
        case Success(vs) => Success([v] + vs)
  }

  function ExtractList(t: Tree): Compiled<seq<Value>>
    decreases t
  {
    if t.Token? then Failure(NotCompilable)
    else if t.rule.ListLit? then
      if t.kids == [] then Success([])
      else if t.kids[0].Token? then Failure(Crash)
      else ExtractLiterals(t.kids[0].kids)
    else if |t.kids| == 1 then ExtractList(t.kids[0])
    else Failure(NotCompilable)
  }

  /** `_extract_field_name`, the loop. */
  method ExtractFieldName(node: Tree, names: Names) returns (r: Compiled<string>)
    ensures r == ExtractField(node, names)
  {
    var n := node;
    while true
      invariant ExtractField(n, names) == ExtractField(node, names)
      decreases n
    {
      if n.Token? {
        if !IsIdentifier(n.text) {
          return Failure(NotCompilable);
        }
        if !Known(n.text, names) {
          return Failure(NotCompilable);
        }
        return Success(n.text);
      }
      var kids := n.kids;
      if n.rule.Primary? {
        if |kids| != 1 {
          return Failure(NotCompilable);
        }
        if Is(kids[0], Ident) {
          return FieldOfIdent(kids[0], names);
        }
        return Failure(NotCompilable);
      }
      if n.rule.Ident? {
        if kids == [] {
          return Failure(Unmodelled);
        }
        return FieldOfIdent(n, names);
      }
      if |kids| == 1 {
        n := kids[0];
      } else {
        return Failure(NotCompilable);
      }
    }
  }

  /** `_extract_literal`, the loop. */
  method ExtractLiteralValue(node: Tree) returns (r: Compiled<Value>)
    ensures r == ExtractLiteral(node)
  {
    var n := node;
    while true
      invariant ExtractLiteral(n) == ExtractLiteral(node)
      decreases n
    {
      if n.Token? {
        return TokenValue(n.text);
      }
      var kids := n.kids;
      if n.rule.Primary? && |kids| == 1 {
        if Is(kids[0], Literal) {
          return TokenOfLiteral(kids[0]);
        }
        if Is(kids[0], Ident) {
          return LiteralOfIdent(kids[0]);
        }
        return Failure(NotCompilable);
      }
      if n.rule.Literal? {
        return TokenOfLiteral(n);
      }
      if |kids| == 1 {
        n := kids[0];
      } else {
        return Failure(NotCompilable);
      }
    }
  }

  /** `_extract_list_literal`, the loop. */
  method ExtractListLiteral(node: Tree) returns (r: Compiled<seq<Value>>)
    ensures r == ExtractList(node)
  {
    var n := node;
    while true
      invariant ExtractList(n) == ExtractList(node)
      decreases n
    {
      if n.Token? {
        return Failure(NotCompilable);
      }
      var kids := n.kids;
      if n.rule.ListLit? {
        if kids == [] {
          return Success([]);
        }
        if kids[0].Token? {
          return Failure(Crash);
        }
        return ExtractLiterals(kids[0].kids);
      }
      if |kids| == 1 {
        n := kids[0];
      } else {
        return Failure(NotCompilable);
      }
    }
  }

  // ------------------------------------------------------------ the walker

  function MakeComparison(r: Rule, f: string, v: Value): Predicate
    requires IsComparison(r)
  {
    match r
    case RelationEq => Eq(f, v)
    case RelationNe => Ne(f, v)
    case RelationGt => Gt(f, v)
    case RelationLt => Lt(f, v)
    case RelationGe => Gte(f, v)
    case _ => Lte(f, v)
  }

  /** `_compile_comparison` and `_compile_in`: the operator node wraps the left-hand side. */
  function CompileRelation(op: Tree, rhs: Tree, names: Names): Compiled<Predicate> {
    if !op.Node? || !(IsComparison(op.rule) || op.rule.RelationIn?) || op.kids == [] then Failure(NotCompilable)
    else
      match ExtractField(op.kids[0], names)
      case Failure(e) => Failure(e)
      case Success(f) =>
        if op.rule.RelationIn? then
          match ExtractList(rhs)
          case Failure(e) => Failure(e)
          case Success(vs) => Success(In(f, vs))
        else
          match ExtractLiteral(rhs)
          case Failure(e) => Failure(e)
          case Success(v) => Success(MakeComparison(op.rule, f, v))
  }

  function ExprsOf(ts: seq<Tree>): seq<Tree> {
    if ts == [] then []
    else (if Is(ts[0], Expr) then [ts[0]] else []) + ExprsOf(ts[1..])
  }

  /** `_compile_method_call`. */
  function CompileMethodCall(t: Tree, names: Names): Compiled<Predicate>
    requires t.Node?
  {
    if |t.kids| < 3 then Failure(NotCompilable)
    else if !t.kids[1].Token? || Lower(Strip(t.kids[1].text)) != "contains" then Failure(NotCompilable)
    else
      match ExtractField(t.kids[0], names)
      case Failure(e) => Failure(e)
      case Success(f) =>
        if t.kids[2].Token? then Failure(Crash)
        else
          var args := ExprsOf(t.kids[2].kids);
          if |args| != 1 then Failure(NotCompilable)
          else
            match ExtractLiteral(args[0])
            case Failure(e) => Failure(e)
            case Success(v) => if v.Str? then Success(Contains(f, v.s)) else Failure(NotCompilable)
  }

  /** `_walk` with `_compile_unary` and `_compile_member`. */
  function Walk(t: Tree, names: Names): Compiled<Predicate>
    decreases t
  {
    if t.Token? then Failure(NotCompilable)
    else
      var kids := t.kids;
      match t.rule
      case Expr => if kids == [] then Failure(Crash) else Walk(kids[0], names)
      case Primary => if kids == [] then Failure(Crash) else Walk(kids[0], names)
      case ParenExpr => if kids == [] then Failure(Crash) else Walk(kids[0], names)
      case ConditionalOr =>
        if |kids| == 1 then Walk(kids[0], names)
        else if kids == [] then Failure(Crash)
        else (match WalkAll(kids, names) case Failure(e) => Failure(e) case Success(ps) => Success(Or(ps)))
      case ConditionalAnd =>
        if |kids| == 1 then Walk(kids[0], names)
        else if kids == [] then Failure(Crash)
        else (match WalkAll(kids, names) case Failure(e) => Failure(e) case Success(ps) => Success(And(ps)))
      case Relation =>
        if |kids| == 1 then Walk(kids[0], names)
        else if |kids| == 2 then CompileRelation(kids[0], kids[1], names)
        else Failure(NotCompilable)
      case Addition => if |kids| == 1 then Walk(kids[0], names) else Failure(NotCompilable)
      case Multiplication => if |kids| == 1 then Walk(kids[0], names) else Failure(NotCompilable)
      case Unary =>
        if |kids| == 1 then Walk(kids[0], names)
        else if |kids| == 2 && Is(kids[0], UnaryNot) then
          (match Walk(kids[1], names) case Failure(e) => Failure(e) case Success(p) => Success(Not(p)))
        else Failure(NotCompilable)
      case Member =>
        if kids == [] then Failure(NotCompilable)
        else if |kids| == 1 && Is(kids[0], MemberDotArg) then CompileMethodCall(kids[0], names)
        else Walk(kids[0], names)
      case _ => Failure(NotCompilable)
  }

  function WalkAll(ts: seq<Tree>, names: Names): Compiled<seq<Predicate>>
    decreases ts
  {
    if ts == [] then Success([])
    else
      match Walk(ts[0], names)
      case Failure(e) => Failure(e)
      case Success(p) =>
        match WalkAll(ts[1..], names)
        case Failure(e) => Failure(e)
        case Success(ps) => Success([p] + ps)
  }

  /** The fields a predicate mentions. */
  function FieldsOf(p: Predicate): set<string> {
    match p
    case Eq(f, _) => {f}
    case Ne(f, _) => {f}
    case Gt(f, _) => {f}
    case Gte(f, _) => {f}
    case Lt(f, _) => {f}
    case Lte(f, _) => {f}
    case In(f, _) => {f}
    case Contains(f, _) => {f}
    case And(ps) => set q, f | q in ps && f in FieldsOf(q) :: f
    case Or(ps) => set q, f | q in ps && f in FieldsOf(q) :: f
    case Not(q) => FieldsOf(q)
  }
}
