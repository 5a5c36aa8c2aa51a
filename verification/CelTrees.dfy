/** Parse trees of CEL expressions, and what the expressions mean. */
module CelTrees {
  import opened Basics
  import opened Storage
  import opened Literals

  /** The grammar rules the compiler knows by name, and the rest. */
  datatype Rule =
    | Expr | ConditionalOr | ConditionalAnd | Relation
    | RelationEq | RelationNe | RelationGt | RelationLt | RelationGe | RelationLe | RelationIn
    | Addition | Multiplication | Unary | UnaryNot | Member | MemberDotArg
    | Primary | ParenExpr | Ident | Literal | ListLit | ExprList
    | OtherRule(name: string)

  datatype Tree = Node(rule: Rule, kids: seq<Tree>) | Token(text: string)

  predicate Is(t: Tree, r: Rule) {
    t.Node? && t.rule == r
  }

  predicate IsComparison(r: Rule) {
    r.RelationEq? || r.RelationNe? || r.RelationGt? || r.RelationLt? || r.RelationGe? || r.RelationLe?
  }

  // ------------------------------------------------------------ names

  predicate IsLetter(c: char) {
    'a' <= c <= 'z' || 'A' <= c <= 'Z' || c == '_'
  }

  /** `str.isidentifier` on ASCII. */
  predicate IsIdentifier(s: string) {
    s != "" && IsLetter(s[0]) && forall i :: 0 <= i < |s| ==> IsLetter(s[i]) || IsDigit(s[i])
  }

  predicate IsReserved(s: string) {
    s == "null" || s == "true" || s == "false"
  }

  /** Names Python reads as constants and CEL does not. */
  predicate IsPythonConstant(s: string) {
    s == "None" || s == "True" || s == "False"
  }

  // ------------------------------------------------------------ what an expression means

  datatype Meaning = Scalar(v: Value) | ListOf(vs: seq<Value>) | NoMeaning

  function LiteralMeaning(s: string): Meaning {
    match LiteralValue(s)
    case None => NoMeaning
    case Some(v) => Scalar(v)
  }

  /** Values are compared as storage compares them; what cannot be compared is not in the relation. */
  function CompareMeaning(r: Rule, a: Meaning, b: Meaning): Meaning
    requires IsComparison(r)
  {
    if !a.Scalar? || !b.Scalar? then NoMeaning
    else
      Scalar(Bool(match r
                  case RelationEq => a.v == b.v
                  case RelationNe => a.v != b.v
                  case RelationGt => ValueLeq(b.v, a.v) && a.v != b.v
                  case RelationGe => ValueLeq(b.v, a.v)
                  case RelationLt => ValueLeq(a.v, b.v) && a.v != b.v
                  case _ => ValueLeq(a.v, b.v)))
  }

  predicate IsBool(m: Meaning) {
    m.Scalar? && m.v.Bool?
  }

  /** The value of an expression over a record; identifiers are the record's fields. */
  function Eval(t: Tree, r: Record): Meaning
    decreases t
  {
    if t.Token? then NoMeaning
    else
      var kids := t.kids;
      match t.rule
      case Expr =>
        if |kids| == 1 then Eval(kids[0], r)
        else if |kids| == 3 && IsBool(Eval(kids[0], r)) then
          if Eval(kids[0], r).v.b then Eval(kids[1], r) else Eval(kids[2], r)
        else NoMeaning
      case ParenExpr => if |kids| == 1 then Eval(kids[0], r) else NoMeaning
      case Addition => if |kids| == 1 then Eval(kids[0], r) else NoMeaning
      case Multiplication => if |kids| == 1 then Eval(kids[0], r) else NoMeaning
      case Primary => if |kids| == 1 then Eval(kids[0], r) else NoMeaning
      case ConditionalOr =>
        if |kids| == 1 then Eval(kids[0], r)
        else
          var ms := EvalAll(kids, r);
          if ms != [] && forall m :: m in ms ==> IsBool(m) then Scalar(Bool(Scalar(Bool(true)) in ms)) else NoMeaning
      case ConditionalAnd =>
        if |kids| == 1 then Eval(kids[0], r)
        else
          var ms := EvalAll(kids, r);
          if ms != [] && forall m :: m in ms ==> IsBool(m) then Scalar(Bool(Scalar(Bool(false)) !in ms)) else NoMeaning
      case Relation =>
        if |kids| == 1 then Eval(kids[0], r)
        else if |kids| == 2 && kids[0].Node? && |kids[0].kids| == 1 then
          var a, b := Eval(kids[0].kids[0], r), Eval(kids[1], r);
          if IsComparison(kids[0].rule) then CompareMeaning(kids[0].rule, a, b)
          else if kids[0].rule.RelationIn? && a.Scalar? && b.ListOf? then Scalar(Bool(a.v in b.vs))
          else NoMeaning
        else NoMeaning
      case Unary =>
        if |kids| == 1 then Eval(kids[0], r)
        else if |kids| == 2 && Is(kids[0], UnaryNot) then
          var m := Eval(kids[1], r);
          if IsBool(m) then Scalar(Bool(!m.v.b)) else NoMeaning
        else NoMeaning
      case Member => if |kids| == 1 then Eval(kids[0], r) else NoMeaning
      case MemberDotArg =>
        if |kids| == 3 && kids[1] == Token("contains") && Is(kids[2], ExprList) && |kids[2].kids| == 1 then
          var target, arg := Eval(kids[0], r), Eval(kids[2].kids[0], r);
          if target.Scalar? && arg.Scalar? && arg.v.Str? then Scalar(Bool(ContainsText(target.v, arg.v.s)))
          else NoMeaning
        else NoMeaning
      case Ident => if |kids| == 1 && kids[0].Token? then Scalar(Get(r, kids[0].text)) else NoMeaning
      case Literal => if |kids| == 1 && kids[0].Token? then LiteralMeaning(kids[0].text) else NoMeaning
      case ListLit =>
        if kids == [] then ListOf([])
        else if |kids| == 1 && Is(kids[0], ExprList) then
          var ms := EvalAll(kids[0].kids, r);
          if forall m :: m in ms ==> m.Scalar? then ListOf(Scalars(ms)) else NoMeaning
        else NoMeaning
      case _ => NoMeaning
  }

  function EvalAll(ts: seq<Tree>, r: Record): (ms: seq<Meaning>)
    ensures |ms| == |ts| && forall i :: 0 <= i < |ts| ==> ms[i] == Eval(ts[i], r)
    decreases ts
  {
    if ts == [] then [] else [Eval(ts[0], r)] + EvalAll(ts[1..], r)
  }

  function Scalars(ms: seq<Meaning>): seq<Value>
    requires forall m :: m in ms ==> m.Scalar?
  {
    seq(|ms|, i requires 0 <= i < |ms| => ms[i].v)
  }
}
