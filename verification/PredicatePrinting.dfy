/** Predicates printed as expression trees, and read back by the compiler. */
module PredicatePrinting {
  import opened Basics
  import opened Storage
  import opened CelTrees
  import opened PredicateCompiler
  import opened PredicateMeaning
  import opened Literals
  import opened LiteralLaws

  // ------------------------------------------------------------ tokens

  function DigitChar(d: nat): char
    requires d < 10
  {
    (d + '0' as int) as char
  }

  /** A natural number in decimal. */
  function PrintNat(n: nat): string {
    if n < 10 then [DigitChar(n)] else PrintNat(n / 10) + [DigitChar(n % 10)]
  }

  function PrintInt(i: int): string {
    if i < 0 then "-" + PrintNat(-i) else PrintNat(i)
  }

  function HexChar(n: nat): char
    requires n < 16
  {
    if n < 10 then (n + '0' as int) as char else (n - 10 + 'a' as int) as char
  }

  /** A character as it is written between double quotes. */
  function EscapeChar(c: char): string {
    if c == '"' then "\\\""
    else if c == '\\' then "\\\\"
    else if c < ' ' then "\\u00" + [HexChar(c as int / 16), HexChar(c as int % 16)]
    else [c]
  }

  function EscapeText(s: string): string {
    if s == "" then "" else EscapeChar(s[0]) + EscapeText(s[1..])
  }

  function PrintValue(v: Value): string {
    match v
    case Null => "null"
    case Bool(b) => if b then "true" else "false"
    case Int(i) => PrintInt(i)
    case Str(s) => "\"" + EscapeText(s) + "\""
  }

  lemma {:induction false} PrintNatReads(n: nat)
    ensures IsDigits(PrintNat(n)) && DigitsValue(PrintNat(n)) == n
  {
    var s := PrintNat(n);
    if n < 10 {
      assert s[..|s| - 1] == "";
    } else {
      PrintNatReads(n / 10);
      var t := PrintNat(n / 10);
      assert s[..|s| - 1] == t && s[|s| - 1] == DigitChar(n % 10);
      assert forall i :: 0 <= i < |t| ==> s[i] == t[i];
    }
  }

  lemma PrintIntReads(i: int)
    ensures IsInteger(PrintInt(i)) && IntegerValue(PrintInt(i)) == i
  {
    if i < 0 {
      PrintNatReads(-i);
      assert PrintInt(i)[1..] == PrintNat(-i) && !IsDigit(PrintInt(i)[0]);
    } else {
      PrintNatReads(i);
    }
  }

  /** An escaped character is read back by both decoders, and is an escape they share. */
  lemma EscapedCharReads(c: char, rest: string)
    ensures var s := EscapeChar(c) + rest;
            && DecodeJson(s) == (match DecodeJson(rest)
                                 case Decoded(t) => Decoded([c] + t)
                                 case other => other)
            && DecodeCel(s, "\"") == (match DecodeCel(rest, "\"") case None => None case Some(t) => Some([c] + t))
            && (SharedEscapesOnly(s) <==> SharedEscapesOnly(rest))
  {
    var e := EscapeChar(c);
    var s := e + rest;
    assert s[|e|..] == rest && forall i :: 0 <= i < |e| ==> s[i] == e[i];
    assert !StartsWith(s, "\"") by { assert s[..1][0] == e[0] != '"'; }
    if c == '"' || c == '\\' {
      assert !HasU4(s) && SharedEscape(s[1]) == Some(c);
    } else if c < ' ' {
      ControlCharReads(c, s);
    }
  }

  lemma ControlCharReads(c: char, s: string)
    requires c < ' ' && StartsWith(s, EscapeChar(c))
    ensures HasU4(s) && U4(s) == Some(c) && CelEscape(s) == Some((c, 6)) && |EscapeChar(c)| == 6
  {
    var e := EscapeChar(c);
    assert s[..6] == e && forall i :: 0 <= i < 6 ==> s[i] == e[i];
    assert Hex4('0', '0', HexChar(c as int / 16), HexChar(c as int % 16)) == c as int;
  }

  lemma {:induction false} EscapedTextReads(s: string)
    ensures DecodeJson(EscapeText(s)) == Decoded(s) && DecodeCel(EscapeText(s), "\"") == Some(s)
    ensures SharedEscapesOnly(EscapeText(s))
  {
    if s != "" {
      EscapedTextReads(s[1..]);
      EscapedCharReads(s[0], EscapeText(s[1..]));
    }
  }

  /** Every value survives being printed and read by `_parse_token_literal`. */
  lemma PrintedValueReadsBack(v: Value)
    ensures PlainLiteral(PrintValue(v)) && ParseTokenLiteral(PrintValue(v)) == Some(v)
  {
    match v
    case Null => ConstantsReadRight();
    case Bool(b) => ConstantsReadRight();
    case Int(i) => PrintedIntReadsBack(i);
    case Str(s) => PrintedTextReadsBack(s);
  }

  lemma PrintedIntReadsBack(i: int)
    ensures PlainLiteral(PrintInt(i)) && ParseTokenLiteral(PrintInt(i)) == Some(Int(i))
  {
    PrintIntReads(i);
    assert PrintInt(i)[0] != '+' by { if i >= 0 { PrintNatReads(i); assert IsDigit(PrintInt(i)[0]); } }
    DecimalReadsRight(PrintInt(i));
  }

  lemma PrintedTextReadsBack(s: string)
    ensures PlainLiteral(PrintValue(Str(s))) && ParseTokenLiteral(PrintValue(Str(s))) == Some(Str(s))
  {
    var t := PrintValue(Str(s));
    EscapedTextReads(s);
    assert Inner(t) == EscapeText(s) && t[..1] == "\"";
    QuotedStandsAlone(t);
  }

  // ------------------------------------------------------------ trees

  function Layer(rule: Rule, kid: Tree): Tree {
    Node(rule, [kid])
  }

  /** Layers around a tree, outermost first. */
  function Wrap(rules: seq<Rule>, t: Tree): Tree {
    if rules == [] then t else Layer(rules[0], Wrap(rules[1..], t))
  }

  predicate IsLayerRule(r: Rule) {
    || r.Expr? || r.ConditionalOr? || r.ConditionalAnd? || r.Relation?
    || r.Addition? || r.Multiplication? || r.Unary? || r.Member?
  }

  ghost predicate AllLayers(rules: seq<Rule>) {
    forall rule :: rule in rules ==> IsLayerRule(rule)
  }

  const ADDITION_TO_UNARY: seq<Rule> := [Addition, Multiplication, Unary]
  const RELATION_TO_UNARY: seq<Rule> := [Relation, Addition, Multiplication, Unary]
  const EXPR_TO_CONJUNCTION: seq<Rule> := [Expr, ConditionalOr, ConditionalAnd]
  const EXPR_TO_MULTIPLICATION: seq<Rule> := [Expr, ConditionalOr, ConditionalAnd, Relation, Addition, Multiplication]
  const EXPR_TO_DISJUNCTION: seq<Rule> := [Expr, ConditionalOr]
  const EXPR_ONLY: seq<Rule> := [Expr]

  lemma ChainsAreLayers()
    ensures AllLayers(ADDITION_TO_UNARY) && AllLayers(RELATION_TO_UNARY) && AllLayers(EXPR_TO_CONJUNCTION)
    ensures AllLayers(EXPR_TO_MULTIPLICATION) && AllLayers(EXPR_TO_DISJUNCTION) && AllLayers(EXPR_ONLY)
    ensures EXPR_TO_CONJUNCTION != [] && EXPR_TO_CONJUNCTION[0] == Expr
  {
  }

  function AsAddition(member: Tree): Tree { Wrap(ADDITION_TO_UNARY, member) }

  function AsRelation(member: Tree): Tree { Wrap(RELATION_TO_UNARY, member) }

  function FromRelation(relation: Tree): Tree { Wrap(EXPR_TO_CONJUNCTION, relation) }

  function FromUnary(unary: Tree): Tree { Wrap(EXPR_TO_MULTIPLICATION, unary) }

  /** `member -> primary -> kid` */
  function Atom(kid: Tree): Tree { Layer(Member, Layer(Primary, kid)) }

  function FieldAtom(f: string): Tree { Atom(Layer(Ident, Token(f))) }

  function ValueAtom(v: Value): Tree { Atom(Layer(Literal, Token(PrintValue(v)))) }

  function ValueExpr(v: Value): Tree { FromRelation(AsRelation(ValueAtom(v))) }

  function ValueExprs(vs: seq<Value>): seq<Tree> {
    if vs == [] then [] else [ValueExpr(vs[0])] + ValueExprs(vs[1..])
  }

  function ListAtom(vs: seq<Value>): Tree {
    Atom(Node(ListLit, if vs == [] then [] else [Node(ExprList, ValueExprs(vs))]))
  }

  function Comparison(rule: Rule, f: string, rhs: Tree): Tree {
    FromRelation(Node(Relation, [Layer(rule, AsRelation(FieldAtom(f))), AsAddition(rhs)]))
  }

  function CallNode(f: string, name: string, v: Value): Tree {
    Node(MemberDotArg, [FieldAtom(f), Token(name), Node(ExprList, [ValueExpr(v)])])
  }

  /** `field.name(value)` */
  function Call(f: string, name: string, v: Value): Tree {
    FromUnary(Layer(Unary, Layer(Member, CallNode(f, name, v))))
  }

  /** The expression a predicate is the compilation of; every operand is put in parentheses. */
  function Print(p: Predicate): Tree
    decreases p
  {
    match p
    case Eq(f, v) => Comparison(RelationEq, f, ValueAtom(v))
    case Ne(f, v) => Comparison(RelationNe, f, ValueAtom(v))
    case Gt(f, v) => Comparison(RelationGt, f, ValueAtom(v))
    case Gte(f, v) => Comparison(RelationGe, f, ValueAtom(v))
    case Lt(f, v) => Comparison(RelationLt, f, ValueAtom(v))
    case Lte(f, v) => Comparison(RelationLe, f, ValueAtom(v))
    case In(f, vs) => Comparison(RelationIn, f, ListAtom(vs))
    case Contains(f, s) => Call(f, "contains", Str(s))
    case And(ps) => Wrap(EXPR_TO_DISJUNCTION, Node(ConditionalAnd, Relations(PrintAll(ps))))
    case Or(ps) => Wrap(EXPR_ONLY, Node(ConditionalOr, Conjunctions(PrintAll(ps))))
    case Not(q) => FromUnary(Negation(Print(q)))
  }

  function PrintAll(ps: seq<Predicate>): (ts: seq<Tree>)
    ensures |ts| == |ps|
    decreases ps
  {
    if ps == [] then [] else [Print(ps[0])] + PrintAll(ps[1..])
  }

  function ParenRelation(t: Tree): Tree { AsRelation(Atom(Layer(ParenExpr, t))) }

  function Negation(t: Tree): Tree { Node(Unary, [Node(UnaryNot, []), Atom(Layer(ParenExpr, t))]) }

  /** The operands of an `&&`. */
  function Relations(ts: seq<Tree>): (us: seq<Tree>)
    ensures |us| == |ts|
  {
    if ts == [] then [] else [ParenRelation(ts[0])] + Relations(ts[1..])
  }

  /** The operands of an `||`. */
  function Conjunctions(ts: seq<Tree>): (us: seq<Tree>)
    ensures |us| == |ts|
  {
    if ts == [] then [] else [Layer(ConditionalAnd, ParenRelation(ts[0]))] + Conjunctions(ts[1..])
  }

  /** Names CEL and Python both read as an identifier. */
  predicate PrintableField(f: string) {
    IsIdentifier(f) && !IsReserved(f) && !IsPythonConstant(f)
  }

  predicate Printable(p: Predicate)
    decreases p
  {
    match p
    case Eq(f, v) => PrintableField(f)
    case Ne(f, v) => PrintableField(f)
    case Gt(f, v) => PrintableField(f)
    case Gte(f, v) => PrintableField(f)
    case Lt(f, v) => PrintableField(f)
    case Lte(f, v) => PrintableField(f)
    case In(f, vs) => PrintableField(f)
    case Contains(f, s) => PrintableField(f)
    case And(ps) => |ps| >= 2 && forall q :: q in ps ==> Printable(q)
    case Or(ps) => |ps| >= 2 && forall q :: q in ps ==> Printable(q)
    case Not(q) => Printable(q)
  }

  // ------------------------------------------------------------ printed trees are well formed and compile back

  /** A predicate over known fields compiles to itself, any other is refused. */
  function Accepted(p: Predicate, names: Names): Compiled<Predicate> {
    if AllKnown(FieldsOf(p), names) then Success(p) else Failure(NotCompilable)
  }

  predicate AllKnown(fs: set<string>, names: Names) {
    names.Some? ==> fs <= names.value
  }

  /** Layers are invisible to the evaluator, the walker and the extractors. */
  lemma {:induction false} WrapReads(rules: seq<Rule>, t: Tree, names: Names, r: Record)
    requires AllLayers(rules) && t.Node? && !Is(t, MemberDotArg)
    ensures var w := Wrap(rules, t);
            && w.Node? && !Is(w, MemberDotArg) && (rules != [] ==> Is(w, rules[0]))
            && (WellFormed(t) ==> WellFormed(w))
            && Eval(w, r) == Eval(t, r) && Walk(w, names) == Walk(t, names)
            && ExtractField(w, names) == ExtractField(t, names)
            && ExtractLiteral(w) == ExtractLiteral(t) && ExtractList(w) == ExtractList(t)
    decreases rules
  {
    if rules != [] {
      WrapReads(rules[1..], t, names, r);
      LayerReads(rules[0], Wrap(rules[1..], t), names, r);
    }
  }

  lemma LayerReads(rule: Rule, t: Tree, names: Names, r: Record)
    requires IsLayerRule(rule) && t.Node? && !Is(t, MemberDotArg)
    ensures var w := Layer(rule, t);
            && (WellFormed(t) ==> WellFormed(w))
            && Eval(w, r) == Eval(t, r) && Walk(w, names) == Walk(t, names)
            && ExtractField(w, names) == ExtractField(t, names)
            && ExtractLiteral(w) == ExtractLiteral(t) && ExtractList(w) == ExtractList(t)
  {
    var w := Layer(rule, t);
    assert w.kids[0] == t;
  }

  lemma AtomReads(kid: Tree, names: Names)
    ensures ExtractField(Atom(kid), names) == ExtractField(Layer(Primary, kid), names)
    ensures ExtractLiteral(Atom(kid)) == ExtractLiteral(Layer(Primary, kid))
    ensures ExtractList(Atom(kid)) == ExtractList(kid)
    ensures Walk(Atom(kid), names) == Walk(kid, names)
    ensures WellFormed(Layer(Primary, kid)) ==> WellFormed(Atom(kid))
  {
    LayerReads(Member, Layer(Primary, kid), names, map[]);
    PrimaryReads(kid, names);
  }

  lemma PrimaryReads(kid: Tree, names: Names)
    ensures ExtractList(Layer(Primary, kid)) == ExtractList(kid) && Walk(Layer(Primary, kid), names) == Walk(kid, names)
  {
    assert Layer(Primary, kid).kids[0] == kid;
  }

  lemma FieldReads(f: string, names: Names)
    requires PrintableField(f)
    ensures WellFormed(AsRelation(FieldAtom(f))) && WellFormed(FieldAtom(f))
    ensures ExtractField(AsRelation(FieldAtom(f)), names) == ExtractField(FieldAtom(f), names)
         == if Known(f, names) then Success(f) else Failure(NotCompilable)
  {
    var ident := Layer(Ident, Token(f));
    assert WellFormedIdent(ident);
    assert WellFormed(Layer(Primary, ident));
    assert FieldOfIdent(ident, names) == if Known(f, names) then Success(f) else Failure(NotCompilable);
    AtomReads(ident, names);
    ChainsAreLayers();
    WrapReads(RELATION_TO_UNARY, Atom(ident), names, map[]);
  }

  lemma ValueReads(v: Value)
    ensures WellFormed(AsAddition(ValueAtom(v))) && ExtractLiteral(AsAddition(ValueAtom(v))) == Success(v)
    ensures WellFormed(ValueExpr(v)) && Is(ValueExpr(v), Expr) && ExtractLiteral(ValueExpr(v)) == Success(v)
  {
    PrintedValueReadsBack(v);
    var text := PrintValue(v);
    var lit := Layer(Literal, Token(text));
    LiteralAtomReads(text, v);
    ChainsAreLayers();
    WrapReads(ADDITION_TO_UNARY, Atom(lit), None, map[]);
    WrapReads(RELATION_TO_UNARY, Atom(lit), None, map[]);
    WrapReads(EXPR_TO_CONJUNCTION, AsRelation(Atom(lit)), None, map[]);
  }

  lemma LiteralAtomReads(text: string, v: Value)
    requires PlainLiteral(text) && ParseTokenLiteral(text) == Some(v)
    ensures WellFormed(Atom(Layer(Literal, Token(text))))
    ensures ExtractLiteral(Atom(Layer(Literal, Token(text)))) == Success(v)
  {
    var lit := Layer(Literal, Token(text));
    assert WellFormedLiteral(lit);
    assert WellFormed(Layer(Primary, lit));
    assert TokenOfLiteral(lit) == Success(v);
    AtomReads(lit, None);
  }

  lemma {:induction false} ValuesRead(vs: seq<Value>)
    ensures WellFormedExprs(Node(ExprList, ValueExprs(vs)))
    ensures ExtractLiterals(ValueExprs(vs)) == Success(vs)
  {
    if vs != [] {
      var first, rest := ValueExpr(vs[0]), ValueExprs(vs[1..]);
      ValueReads(vs[0]);
      ValuesRead(vs[1..]);
      ValuesStep(first, rest, vs);
    }
  }

  lemma ValuesStep(first: Tree, rest: seq<Tree>, vs: seq<Value>)
    requires vs != [] && Is(first, Expr) && WellFormed(first) && ExtractLiteral(first) == Success(vs[0])
    requires WellFormedExprs(Node(ExprList, rest)) && ExtractLiterals(rest) == Success(vs[1..])
    ensures WellFormedExprs(Node(ExprList, [first] + rest)) && ExtractLiterals([first] + rest) == Success(vs)
  {
    assert ([first] + rest)[1..] == rest && vs == [vs[0]] + vs[1..];
    assert forall k :: k in rest ==> k in Node(ExprList, rest).kids;
  }

  lemma ListReads(vs: seq<Value>)
    ensures WellFormed(AsAddition(ListAtom(vs))) && ExtractList(AsAddition(ListAtom(vs))) == Success(vs)
  {
    ValuesRead(vs);
    var exprs := Node(ExprList, ValueExprs(vs));
    var list := Node(ListLit, if vs == [] then [] else [exprs]);
    ListNodeReads(list, exprs);
    AtomReads(list, None);
    ChainsAreLayers();
    WrapReads(ADDITION_TO_UNARY, Atom(list), None, map[]);
  }

  lemma ListNodeReads(list: Tree, exprs: Tree)
    requires Is(list, ListLit) && (list.kids == [] || list.kids == [exprs]) && WellFormedExprs(exprs)
    ensures WellFormed(Layer(Primary, list))
    ensures ExtractList(list) == if list.kids == [] then Success([]) else ExtractLiterals(exprs.kids)
  {
    assert WellFormedList(list);
  }

  lemma ComparisonReads(rule: Rule, f: string, rhs: Tree, names: Names)
    requires IsComparison(rule) || rule.RelationIn?
    requires PrintableField(f) && rhs.Node? && !Is(rhs, MemberDotArg)
    ensures WellFormed(AsAddition(rhs)) ==> WellFormed(Comparison(rule, f, rhs))
    ensures Walk(Comparison(rule, f, rhs), names)
         == CompileRelation(Layer(rule, AsRelation(FieldAtom(f))), AsAddition(rhs), names)
  {
    FieldReads(f, names);
    RelationNodeReads(rule, AsRelation(FieldAtom(f)), AsAddition(rhs), names);
    ChainsAreLayers();
    WrapReads(EXPR_TO_CONJUNCTION, Node(Relation, [Layer(rule, AsRelation(FieldAtom(f))), AsAddition(rhs)]),
              names, map[]);
  }

  lemma RelationNodeReads(rule: Rule, lhs: Tree, rhs: Tree, names: Names)
    ensures WellFormed(lhs) && WellFormed(rhs) ==> WellFormed(Node(Relation, [Layer(rule, lhs), rhs]))
    ensures Walk(Node(Relation, [Layer(rule, lhs), rhs]), names) == CompileRelation(Layer(rule, lhs), rhs, names)
  {
    var t := Node(Relation, [Layer(rule, lhs), rhs]);
    assert t.kids[0] == Layer(rule, lhs) && t.kids[1] == rhs && t.kids[0].kids[0] == lhs;
  }

  lemma ParenReads(t: Tree, names: Names)
    requires WellFormed(t)
    ensures var a := Atom(Layer(ParenExpr, t));
            WellFormed(a) && Walk(a, names) == Walk(t, names)
    ensures WellFormed(ParenRelation(t)) && Walk(ParenRelation(t), names) == Walk(t, names)
    ensures var c := Layer(ConditionalAnd, ParenRelation(t));
            WellFormed(c) && Walk(c, names) == Walk(t, names)
  {
    var paren := Layer(ParenExpr, t);
    ParenNodeReads(t, names);
    AtomReads(paren, names);
    ChainsAreLayers();
    WrapReads(RELATION_TO_UNARY, Atom(paren), names, map[]);
    LayerReads(ConditionalAnd, ParenRelation(t), names, map[]);
  }

  lemma ParenNodeReads(t: Tree, names: Names)
    requires WellFormed(t)
    ensures Walk(Layer(ParenExpr, t), names) == Walk(t, names) && WellFormed(Layer(Primary, Layer(ParenExpr, t)))
  {
    var paren := Layer(ParenExpr, t);
    assert paren.kids[0] == t;
    var prim := Layer(Primary, paren);
    assert prim.kids[0] == paren;
  }

  lemma CallReads(f: string, name: string, v: Value, names: Names, r: Record)
    requires PrintableField(f) && v.Str?
    ensures var t := Call(f, name, v);
            && Walk(t, names) == (if Lower(Strip(name)) == "contains" then Accepted(Contains(f, v.s), names)
                                  else Failure(NotCompilable))
            && Eval(t, r) == Eval(CallNode(f, name, v), r)
            && (name == "contains" ==> WellFormed(t))
  {
    FieldReads(f, names);
    ValueReads(v);
    CallNodeReads(FieldAtom(f), f, name, ValueExpr(v), v, names);
    MemberCallReads(CallNode(f, name, v), names, r);
    ChainsAreLayers();
    WrapReads(EXPR_TO_MULTIPLICATION,
              Layer(Unary, Layer(Member, CallNode(f, name, v))), names, r);
  }

  lemma MemberCallReads(call: Tree, names: Names, r: Record)
    requires Is(call, MemberDotArg)
    ensures var u := Layer(Unary, Layer(Member, call));
            && Walk(u, names) == CompileMethodCall(call, names) && Eval(u, r) == Eval(call, r)
            && (WellFormedCall(call) ==> WellFormed(u))
  {
    MemberReads(call, names, r);
    LayerReads(Unary, Layer(Member, call), names, r);
  }

  lemma MemberReads(call: Tree, names: Names, r: Record)
    requires Is(call, MemberDotArg)
    ensures var m := Layer(Member, call);
            && Walk(m, names) == CompileMethodCall(call, names) && Eval(m, r) == Eval(call, r)
            && (WellFormedCall(call) ==> WellFormed(m))
  {
    var m := Layer(Member, call);
    assert m.kids[0] == call;
  }

  lemma CallNodeReads(target: Tree, f: string, name: string, arg: Tree, v: Value, names: Names)
    requires WellFormed(target)
    requires ExtractField(target, names) == if Known(f, names) then Success(f) else Failure(NotCompilable)
    requires WellFormed(arg) && Is(arg, Expr) && ExtractLiteral(arg) == Success(v) && v.Str?
    ensures var call := Node(MemberDotArg, [target, Token(name), Node(ExprList, [arg])]);
            && CompileMethodCall(call, names) == (if Lower(Strip(name)) == "contains"
                                                  then Accepted(Contains(f, v.s), names) else Failure(NotCompilable))
            && (name == "contains" ==> WellFormedCall(call))
  {
    ExprsOfExprs([arg]);
    assert WellFormedExprs(Node(ExprList, [arg]));
  }

  /** Printing then compiling gives the predicate back, and is refused exactly when a field is unknown. */
  lemma {:induction false} PrintCompilesBack(p: Predicate, names: Names)
    requires Printable(p)
    ensures WellFormed(Print(p)) && Walk(Print(p), names) == Accepted(p, names)
    decreases p
  {
    match p
    case And(ps) =>
      AllCompileBack(ps, names);
      AndReads(ps, Relations(PrintAll(ps)), names);
    case Or(ps) =>
      AllCompileBack(ps, names);
      OrReads(ps, Conjunctions(PrintAll(ps)), names);
    case Not(q) =>
      PrintCompilesBack(q, names);
      NotReads(q, Print(q), names);
    case _ => LeafCompilesBack(p, names);
  }

  lemma LeafCompilesBack(p: Predicate, names: Names)
    requires Printable(p) && !p.And? && !p.Or? && !p.Not?
    ensures WellFormed(Print(p)) && Walk(Print(p), names) == Accepted(p, names)
  {
    match p
    case In(f, vs) => InCompilesBack(f, vs, names);
    case Contains(f, s) => ContainsCompilesBack(f, s, names);
    case _ =>
      if p.Eq? || p.Ne? || p.Gt? { EqNeGtCompileBack(p, names); } else { GteLtLteCompileBack(p, names); }
  }

  lemma EqNeGtCompileBack(p: Predicate, names: Names)
    requires Printable(p) && (p.Eq? || p.Ne? || p.Gt?)
    ensures WellFormed(Print(p)) && Walk(Print(p), names) == Accepted(p, names)
  {
    match p
    case Eq(f, v) => ComparisonCompilesBack(RelationEq, f, v, names);
    case Ne(f, v) => ComparisonCompilesBack(RelationNe, f, v, names);
    case Gt(f, v) => ComparisonCompilesBack(RelationGt, f, v, names);
  }

  lemma GteLtLteCompileBack(p: Predicate, names: Names)
    requires Printable(p) && (p.Gte? || p.Lt? || p.Lte?)
    ensures WellFormed(Print(p)) && Walk(Print(p), names) == Accepted(p, names)
  {
    match p
    case Gte(f, v) => ComparisonCompilesBack(RelationGe, f, v, names);
    case Lt(f, v) => ComparisonCompilesBack(RelationLt, f, v, names);
    case Lte(f, v) => ComparisonCompilesBack(RelationLe, f, v, names);
  }

  lemma ContainsCompilesBack(f: string, s: string, names: Names)
    requires PrintableField(f)
    ensures WellFormed(Call(f, "contains", Str(s)))
    ensures Walk(Call(f, "contains", Str(s)), names) == Accepted(Contains(f, s), names)
  {
    LowerContains();
    CallReads(f, "contains", Str(s), names, map[]);
  }

  lemma ComparisonCompilesBack(rule: Rule, f: string, v: Value, names: Names)
    requires IsComparison(rule) && PrintableField(f)
    ensures WellFormed(Comparison(rule, f, ValueAtom(v)))
    ensures Walk(Comparison(rule, f, ValueAtom(v)), names) == Accepted(MakeComparison(rule, f, v), names)
  {
    FieldReads(f, names);
    ValueReads(v);
    ComparisonReads(rule, f, ValueAtom(v), names);
    CompilesToComparison(rule, AsRelation(FieldAtom(f)), AsAddition(ValueAtom(v)), f, v, names);
  }

  lemma CompilesToComparison(rule: Rule, lhs: Tree, rhs: Tree, f: string, v: Value, names: Names)
    requires IsComparison(rule) && ExtractLiteral(rhs) == Success(v)
    requires ExtractField(lhs, names) == if Known(f, names) then Success(f) else Failure(NotCompilable)
    ensures CompileRelation(Layer(rule, lhs), rhs, names) == Accepted(MakeComparison(rule, f, v), names)
  {
  }

  lemma InCompilesBack(f: string, vs: seq<Value>, names: Names)
    requires PrintableField(f)
    ensures WellFormed(Comparison(RelationIn, f, ListAtom(vs)))
    ensures Walk(Comparison(RelationIn, f, ListAtom(vs)), names) == Accepted(In(f, vs), names)
  {
    FieldReads(f, names);
    ListReads(vs);
    ComparisonReads(RelationIn, f, ListAtom(vs), names);
  }

  /** The operands `us` compile back to `ps`, one by one. */
  ghost predicate OperandsRead(us: seq<Tree>, ps: seq<Predicate>, names: Names) {
    && (forall u :: u in us ==> WellFormed(u))
    && WalkAll(us, names) == (if forall q :: q in ps ==> AllKnown(FieldsOf(q), names) then Success(ps)
                              else Failure(NotCompilable))
  }

  lemma AndReads(ps: seq<Predicate>, us: seq<Tree>, names: Names)
    requires |us| == |ps| >= 2 && OperandsRead(us, ps, names)
    ensures var t := Wrap(EXPR_TO_DISJUNCTION, Node(ConditionalAnd, us));
            WellFormed(t) && Walk(t, names) == Accepted(And(ps), names)
  {
    var t := Node(ConditionalAnd, us);
    assert WellFormed(t) && Walk(t, names) == Accepted(And(ps), names);
    ChainsAreLayers();
    WrapReads(EXPR_TO_DISJUNCTION, t, names, map[]);
  }

  lemma OrReads(ps: seq<Predicate>, us: seq<Tree>, names: Names)
    requires |us| == |ps| >= 2 && OperandsRead(us, ps, names)
    ensures var t := Wrap(EXPR_ONLY, Node(ConditionalOr, us));
            WellFormed(t) && Walk(t, names) == Accepted(Or(ps), names)
  {
    var t := Node(ConditionalOr, us);
    assert WellFormed(t) && Walk(t, names) == Accepted(Or(ps), names);
    ChainsAreLayers();
    WrapReads(EXPR_ONLY, t, names, map[]);
  }

  lemma NotReads(q: Predicate, t: Tree, names: Names)
    requires WellFormed(t) && Walk(t, names) == Accepted(q, names)
    ensures var u := FromUnary(Negation(t));
            WellFormed(u) && Walk(u, names) == Accepted(Not(q), names)
  {
    hide WellFormed, Walk, Eval, ExtractField, ExtractLiteral, ExtractList;
    ParenReads(t, names);
    NegationReads(t, Atom(Layer(ParenExpr, t)), names);
    ChainsAreLayers();
    WrapReads(EXPR_TO_MULTIPLICATION, Negation(t), names, map[]);
  }

  lemma NegationReads(t: Tree, operand: Tree, names: Names)
    requires WellFormed(operand) && operand == Atom(Layer(ParenExpr, t))
    ensures WellFormed(Negation(t))
    ensures Walk(Negation(t), names) == match Walk(operand, names)
                                        case Failure(e) => Failure(e)
                                        case Success(p) => Success(Not(p))
  {
    assert Negation(t).kids[1] == operand;
  }

  lemma LowerContains()
    ensures Lower("contains") == "contains" && Strip("contains") == "contains"
  {
    var s := "contains";
    assert Lower(s[8..]) == s[8..];
    assert Lower(s[7..]) == s[7..] by { assert s[7..][1..] == s[8..]; }
    assert Lower(s[6..]) == s[6..] by { assert s[6..][1..] == s[7..]; }
    assert Lower(s[5..]) == s[5..] by { assert s[5..][1..] == s[6..]; }
    assert Lower(s[4..]) == s[4..] by { assert s[4..][1..] == s[5..]; }
    assert Lower(s[3..]) == s[3..] by { assert s[3..][1..] == s[4..]; }
    assert Lower(s[2..]) == s[2..] by { assert s[2..][1..] == s[3..]; }
    assert Lower(s[1..]) == s[1..] by { assert s[1..][1..] == s[2..]; }
  }

  lemma {:induction false} AllCompileBack(ps: seq<Predicate>, names: Names)
    requires forall q :: q in ps ==> Printable(q)
    ensures OperandsRead(Relations(PrintAll(ps)), ps, names) && OperandsRead(Conjunctions(PrintAll(ps)), ps, names)
    decreases ps
  {
    if ps != [] {
      PrintCompilesBack(ps[0], names);
      AllCompileBack(ps[1..], names);
      OperandStep(Print(ps[0]), PrintAll(ps[1..]), ps, names);
    }
  }

  lemma OperandStep(t: Tree, ts: seq<Tree>, ps: seq<Predicate>, names: Names)
    requires ps != [] && WellFormed(t) && Walk(t, names) == Accepted(ps[0], names)
    requires OperandsRead(Relations(ts), ps[1..], names) && OperandsRead(Conjunctions(ts), ps[1..], names)
    ensures OperandsRead(Relations([t] + ts), ps, names) && OperandsRead(Conjunctions([t] + ts), ps, names)
  {
    ParenReads(t, names);
    assert ([t] + ts)[1..] == ts;
    WalkAllStep(ParenRelation(t), Relations(ts), ps, names);
    WalkAllStep(Layer(ConditionalAnd, ParenRelation(t)), Conjunctions(ts), ps, names);
  }

  lemma WalkAllStep(u: Tree, us: seq<Tree>, ps: seq<Predicate>, names: Names)
    requires ps != [] && WellFormed(u) && Walk(u, names) == Accepted(ps[0], names)
    requires OperandsRead(us, ps[1..], names)
    ensures OperandsRead([u] + us, ps, names)
  {
    assert ps == [ps[0]] + ps[1..] && ([u] + us)[1..] == us;
  }

  // ------------------------------------------------------------ exactly the printable predicates are compiled

  /** Whatever a well-formed tree compiles to can be printed. */
  lemma {:induction false} CompiledIsPrintable(t: Tree, names: Names)
    requires WellFormed(t) && Walk(t, names).Success?
    ensures Printable(Walk(t, names).value)
    decreases t
  {
    if IsLayer(t) {
      LayerIsTransparent(t, names, map[]);
      CompiledIsPrintable(t.kids[0], names);
    } else if t.rule.Expr? {
      CompiledIsPrintable(t.kids[0], names);
    } else if t.rule.ConditionalOr? || t.rule.ConditionalAnd? {
      AllCompiledPrintable(t.kids, names);
    } else if t.rule.Relation? {
      ExtractedFieldIsPrintable(t.kids[0].kids[0], names);
    } else if t.rule.Unary? {
      CompiledIsPrintable(t.kids[1], names);
    } else if t.rule.Member? {
      CompiledCallIsPrintable(t.kids[0], names);
    } else if Is(t.kids[0], ParenExpr) {
      CompiledIsPrintable(t.kids[0].kids[0], names);
    }
  }

  lemma CompiledCallIsPrintable(t: Tree, names: Names)
    requires Is(t, MemberDotArg) && WellFormedCall(t) && CompileMethodCall(t, names).Success?
    ensures Printable(CompileMethodCall(t, names).value)
  {
    ExtractedFieldIsPrintable(t.kids[0], names);
    ExprsOfExprs(t.kids[2].kids);
  }

  lemma {:induction false} AllCompiledPrintable(ts: seq<Tree>, names: Names)
    requires (forall k :: k in ts ==> WellFormed(k)) && WalkAll(ts, names).Success?
    ensures |WalkAll(ts, names).value| == |ts|
    ensures forall q :: q in WalkAll(ts, names).value ==> Printable(q)
    decreases ts
  {
    if ts != [] {
      CompiledIsPrintable(ts[0], names);
      AllCompiledPrintable(ts[1..], names);
    }
  }

  lemma {:induction false} ExtractedFieldIsPrintable(t: Tree, names: Names)
    requires WellFormed(t) && ExtractField(t, names).Success?
    ensures PrintableField(ExtractField(t, names).value)
    decreases t
  {
    if IsLayer(t) {
      LayerIsTransparent(t, names, map[]);
      ExtractedFieldIsPrintable(t.kids[0], names);
    } else if !t.rule.Primary? {
      OnlyLayersAndPrimaries(t, names);
    }
  }

  /** The compiler's image on well-formed trees is exactly the printable predicates over known fields. */
  lemma CompilableIffPrintable(p: Predicate, names: Names)
    ensures (exists t :: WellFormed(t) && Walk(t, names) == Success(p)) <==>
              Printable(p) && AllKnown(FieldsOf(p), names)
  {
    if Printable(p) && AllKnown(FieldsOf(p), names) {
      PrintCompilesBack(p, names);
    }
    if t :| WellFormed(t) && Walk(t, names) == Success(p) {
      CompiledIsPrintable(t, names);
      OnlyKnownFields(t, names);
    }
  }

  // ------------------------------------------------------------ printed trees are straight

  lemma {:induction false} WrapIsStraight(rules: seq<Rule>, t: Tree)
    requires AllLayers(rules) && Straight(t)
    ensures Straight(Wrap(rules, t))
    decreases rules
  {
    if rules != [] {
      WrapIsStraight(rules[1..], t);
      LayerIsStraight(rules[0], Wrap(rules[1..], t));
    }
  }

  lemma LayerIsStraight(rule: Rule, t: Tree)
    requires Straight(t)
    ensures Straight(Layer(rule, t))
  {
    assert Layer(rule, t).kids[0] == t;
  }

  lemma {:induction false} PrintIsStraight(p: Predicate)
    ensures Straight(Print(p))
    decreases p
  {
    ChainsAreLayers();
    match p
    case Eq(f, v) => ComparisonIsStraight(RelationEq, f, ValueAtom(v));
    case Ne(f, v) => ComparisonIsStraight(RelationNe, f, ValueAtom(v));
    case Gt(f, v) => ComparisonIsStraight(RelationGt, f, ValueAtom(v));
    case Gte(f, v) => ComparisonIsStraight(RelationGe, f, ValueAtom(v));
    case Lt(f, v) => ComparisonIsStraight(RelationLt, f, ValueAtom(v));
    case Lte(f, v) => ComparisonIsStraight(RelationLe, f, ValueAtom(v));
    case In(f, vs) => ComparisonIsStraight(RelationIn, f, ListAtom(vs));
    case Contains(f, s) => CallIsStraight(f, "contains", Str(s));
    case And(ps) =>
      AllPrintedAreStraight(ps);
      WrapIsStraight(EXPR_TO_DISJUNCTION, Node(ConditionalAnd, Relations(PrintAll(ps))));
    case Or(ps) =>
      AllPrintedAreStraight(ps);
      WrapIsStraight(EXPR_ONLY, Node(ConditionalOr, Conjunctions(PrintAll(ps))));
    case Not(q) =>
      PrintIsStraight(q);
      NegationIsStraight(Print(q));
      WrapIsStraight(EXPR_TO_MULTIPLICATION, Negation(Print(q)));
  }

  lemma ComparisonIsStraight(rule: Rule, f: string, rhs: Tree)
    ensures Straight(Comparison(rule, f, rhs))
  {
    ChainsAreLayers();
    WrapIsStraight(EXPR_TO_CONJUNCTION, Node(Relation, [Layer(rule, AsRelation(FieldAtom(f))), AsAddition(rhs)]));
  }

  lemma CallIsStraight(f: string, name: string, v: Value)
    ensures Straight(Call(f, name, v))
  {
    ChainsAreLayers();
    LayerIsStraight(Member, CallNode(f, name, v));
    LayerIsStraight(Unary, Layer(Member, CallNode(f, name, v)));
    WrapIsStraight(EXPR_TO_MULTIPLICATION, Layer(Unary, Layer(Member, CallNode(f, name, v))));
  }

  lemma NegationIsStraight(t: Tree)
    requires Straight(t)
    ensures Straight(Negation(t))
  {
    ParenIsStraight(t);
    assert Negation(t).kids[1] == Atom(Layer(ParenExpr, t));
  }

  lemma ParenIsStraight(t: Tree)
    requires Straight(t)
    ensures Straight(Atom(Layer(ParenExpr, t))) && Straight(ParenRelation(t))
  {
    LayerIsStraight(ParenExpr, t);
    LayerIsStraight(Primary, Layer(ParenExpr, t));
    LayerIsStraight(Member, Layer(Primary, Layer(ParenExpr, t)));
    ChainsAreLayers();
    WrapIsStraight(RELATION_TO_UNARY, Atom(Layer(ParenExpr, t)));
  }

  lemma {:induction false} AllPrintedAreStraight(ps: seq<Predicate>)
    ensures forall u :: u in Relations(PrintAll(ps)) ==> Straight(u)
    ensures forall u :: u in Conjunctions(PrintAll(ps)) ==> Straight(u)
    decreases ps
  {
    if ps != [] {
      PrintIsStraight(ps[0]);
      AllPrintedAreStraight(ps[1..]);
      ParenIsStraight(Print(ps[0]));
      LayerIsStraight(ConditionalAnd, ParenRelation(Print(ps[0])));
      assert PrintAll(ps) == [Print(ps[0])] + PrintAll(ps[1..]);
      assert PrintAll(ps)[1..] == PrintAll(ps[1..]);
    }
  }

  /** Printing a compiled expression gives an expression with the same compilation, and the meaning on every record
      that the first one has without the branches of its conditionals. */
  lemma PrintingNormalises(t: Tree, names: Names, r: Record)
    requires WellFormed(t) && Walk(t, names).Success?
    ensures var u := Print(Walk(t, names).value);
            && WellFormed(u) && Walk(u, names) == Walk(t, names) && Eval(u, r) == Eval(Erase(t), r)
            && (Straight(t) ==> Eval(u, r) == Eval(t, r))
  {
    CompiledIsPrintable(t, names);
    OnlyKnownFields(t, names);
    var p := Walk(t, names).value;
    PrintCompilesBack(p, names);
    MeaningIsPreserved(t, names, r);
    PrintIsStraight(p);
    MeaningIsPreserved(Print(p), names, r);
  }

  // ------------------------------------------------------------ where a bare name is misread

  /** A comparison with a bare name on the right compiles exactly when Python reads the name as a constant, and then,
      for every operator, there is a record on which the predicate says something else. */
  lemma PythonConstantsAreMisread(rule: Rule, f: string, name: string)
    requires IsComparison(rule) && PrintableField(f) && !IsReserved(name)
    ensures var t := Comparison(rule, f, FieldAtom(name));
            && (Walk(t, None).Success? <==> IsPythonConstant(name))
            && (Walk(t, None).Success? ==> exists r :: Eval(t, r) != Scalar(Bool(Holds(Walk(t, None).value, r))))
  {
    hide Walk, Eval, ExtractField, ExtractLiteral, WellFormed;
    var t := Comparison(rule, f, FieldAtom(name));
    NameComparisonCompiles(rule, f, name);
    if IsPythonConstant(name) {
      var r := if rule.RelationEq? || rule.RelationNe? then map[f := Str("x"), name := Str("x")]
               else if rule.RelationGt? || rule.RelationGe? then map[f := Int(1), name := Int(0)]
               else map[f := Int(0), name := Int(1)];
      NameComparisonMeans(rule, f, name, r);
      assert Eval(t, r) != Scalar(Bool(Holds(Walk(t, None).value, r)));
    }
  }

  lemma NameComparisonCompiles(rule: Rule, f: string, name: string)
    requires IsComparison(rule) && PrintableField(f)
    ensures Walk(Comparison(rule, f, FieldAtom(name)), None) ==
            match LiteralOfIdent(Layer(Ident, Token(name)))
            case Failure(e) => Failure(e)
            case Success(v) => Success(MakeComparison(rule, f, v))
  {
    var ident, lhs := Layer(Ident, Token(name)), AsRelation(FieldAtom(f));
    FieldReads(f, None);
    ComparisonReads(rule, f, FieldAtom(name), None);
    AtomReads(ident, None);
    ChainsAreLayers();
    WrapReads(ADDITION_TO_UNARY, FieldAtom(name), None, map[]);
    assert ExtractLiteral(Layer(Primary, ident)) == LiteralOfIdent(ident);
    assert Layer(rule, lhs).kids[0] == lhs;
  }

  lemma NameComparisonMeans(rule: Rule, f: string, name: string, r: Record)
    requires IsComparison(rule)
    ensures Eval(Comparison(rule, f, FieldAtom(name)), r)
         == CompareMeaning(rule, Scalar(Get(r, f)), Scalar(Get(r, name)))
  {
    var lhs, rhs := AsRelation(FieldAtom(f)), AsAddition(FieldAtom(name));
    NameMeans(f, r);
    NameMeans(name, r);
    ChainsAreLayers();
    WrapReads(RELATION_TO_UNARY, FieldAtom(f), None, r);
    WrapReads(ADDITION_TO_UNARY, FieldAtom(name), None, r);
    ComparisonEvaluates(rule, lhs, rhs, Get(r, f), Get(r, name), r);
    WrapReads(EXPR_TO_CONJUNCTION, Node(Relation, [Layer(rule, lhs), rhs]), None, r);
  }

  lemma NameMeans(f: string, r: Record)
    ensures Eval(FieldAtom(f), r) == Scalar(Get(r, f))
  {
    var ident := Layer(Ident, Token(f));
    assert Eval(ident, r) == Scalar(Get(r, f));
    assert Eval(Layer(Primary, ident), r) == Eval(ident, r);
  }

  lemma ComparisonEvaluates(rule: Rule, lhs: Tree, rhs: Tree, a: Value, b: Value, r: Record)
    requires IsComparison(rule) && Eval(lhs, r) == Scalar(a) && Eval(rhs, r) == Scalar(b)
    ensures Eval(Node(Relation, [Layer(rule, lhs), rhs]), r) == CompareMeaning(rule, Scalar(a), Scalar(b))
  {
    var t := Node(Relation, [Layer(rule, lhs), rhs]);
    assert t.kids[0] == Layer(rule, lhs) && t.kids[1] == rhs && t.kids[0].kids[0] == lhs;
  }

  // ------------------------------------------------------------ where the method name is misread

  /** A call compiles whatever the letter case and the blanks around `contains`; it means something only when the
      name is spelled exactly so. */
  lemma ContainsIsCaseBlind(f: string, name: string, s: string, r: Record)
    requires PrintableField(f)
    ensures var t := Call(f, name, Str(s));
            && (Walk(t, None) == Success(Contains(f, s)) <==> Lower(Strip(name)) == "contains")
            && (Eval(t, r) != NoMeaning <==> name == "contains")
  {
    hide WellFormed, Walk, Eval, ExtractField, ExtractLiteral, ExtractList, Lower, Strip;
    CallReads(f, name, Str(s), None, r);
    if name == "contains" {
      LowerContains();
      CallIsStraight(f, name, Str(s));
      MeaningIsPreserved(Call(f, name, Str(s)), None, r);
    } else {
      OtherCallMeansNothing(f, name, Str(s), r);
    }
  }

  lemma OtherCallMeansNothing(f: string, name: string, v: Value, r: Record)
    requires name != "contains"
    ensures Eval(CallNode(f, name, v), r) == NoMeaning
  {
    assert CallNode(f, name, v).kids[1] == Token(name);
  }
}
