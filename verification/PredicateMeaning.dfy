/** The compiled predicate means what the expression means. */
module PredicateMeaning {
  import opened Basics
  import opened Storage
  import opened CelTrees
  import opened PredicateCompiler
  import opened Literals
  import opened LiteralLaws

  // ------------------------------------------------------------ well-formed trees

  /** A parse tree as the walker expects it: an expression with one child or, when it is conditional, three; the other
      layers with one child; identifiers and literals only under `primary`. Subtrees the compiler always refuses are
      left unconstrained. */
  predicate WellFormed(t: Tree)
    decreases t
  {
    && t.Node?
    && match t.rule
       case Expr => (|t.kids| == 1 || |t.kids| == 3) && forall k :: k in t.kids ==> WellFormed(k)
       case ConditionalOr => t.kids != [] && forall k :: k in t.kids ==> WellFormed(k)
       case ConditionalAnd => t.kids != [] && forall k :: k in t.kids ==> WellFormed(k)
       case Relation =>
         (match |t.kids|
          case 1 => WellFormed(t.kids[0])
          case 2 => t.kids[0].Node? && |t.kids[0].kids| == 1 && WellFormed(t.kids[0].kids[0]) && WellFormed(t.kids[1])
          case _ => true)
       case Addition => |t.kids| == 1 ==> WellFormed(t.kids[0])
       case Multiplication => |t.kids| == 1 ==> WellFormed(t.kids[0])
       case Unary =>
         (match |t.kids| case 1 => WellFormed(t.kids[0]) case 2 => WellFormed(t.kids[1]) case _ => true)
       case Member =>
         |t.kids| == 1 && if Is(t.kids[0], MemberDotArg) then WellFormedCall(t.kids[0]) else WellFormed(t.kids[0])
       case Primary =>
         |t.kids| == 1 && t.kids[0].Node? &&
         (match t.kids[0].rule
          case Ident => WellFormedIdent(t.kids[0])
          case Literal => WellFormedLiteral(t.kids[0])
          case ListLit => WellFormedList(t.kids[0])
          case ParenExpr => |t.kids[0].kids| == 1 && WellFormed(t.kids[0].kids[0])
          case _ => t.kids[0].rule.OtherRule? && (|t.kids[0].kids| == 1 ==> t.kids[0].kids[0].Token?))
       case OtherRule(_) => |t.kids| != 1
       case _ => false
  }

  predicate WellFormedIdent(t: Tree)
    requires t.Node?
  {
    |t.kids| == 1 && t.kids[0].Token? && IsIdentifier(t.kids[0].text)
    && !IsReserved(t.kids[0].text) && !IsPythonConstant(t.kids[0].text)
  }

  predicate WellFormedLiteral(t: Tree)
    requires t.Node?
  {
    |t.kids| == 1 && t.kids[0].Token? && PlainLiteral(t.kids[0].text)
  }

  predicate WellFormedList(t: Tree)
    requires t.Node?
    decreases t
  {
    t.kids == [] || (|t.kids| == 1 && WellFormedExprs(t.kids[0]))
  }

  predicate WellFormedExprs(t: Tree)
    decreases t
  {
    Is(t, ExprList) && forall k :: k in t.kids ==> Is(k, Expr) && WellFormed(k)
  }

  /** A method call with arguments; `contains` is spelled in lower case. */
  predicate WellFormedCall(t: Tree)
    requires t.Node?
    decreases t
  {
    |t.kids| != 1 && (|t.kids| >= 3 ==>
      && |t.kids| == 3 && WellFormed(t.kids[0]) && t.kids[1].Token?
      && (Lower(Strip(t.kids[1].text)) == "contains" ==> t.kids[1].text == "contains")
      && WellFormedExprs(t.kids[2]))
  }

  // ------------------------------------------------------------ layers with one child

  /** A node that only wraps its one child. */
  predicate IsLayer(t: Tree) {
    && t.Node? && |t.kids| == 1
    && match t.rule
       case Expr => true
       case ConditionalOr => true
       case ConditionalAnd => true
       case Relation => true
       case Addition => true
       case Multiplication => true
       case Unary => true
       case Member => !Is(t.kids[0], MemberDotArg)
       case _ => false
  }

  lemma LayerIsTransparent(t: Tree, names: Names, r: Record)
    requires WellFormed(t) && IsLayer(t)
    ensures WellFormed(t.kids[0])
    ensures Eval(t, r) == Eval(t.kids[0], r) && Walk(t, names) == Walk(t.kids[0], names)
    ensures ExtractField(t, names) == ExtractField(t.kids[0], names)
    ensures ExtractLiteral(t) == ExtractLiteral(t.kids[0])
    ensures ExtractList(t) == ExtractList(t.kids[0])
  {
  }

  /** The extractors succeed only on layers and primaries. */
  lemma OnlyLayersAndPrimaries(t: Tree, names: Names)
    requires WellFormed(t) && !IsLayer(t) && !t.rule.Primary?
    ensures !ExtractField(t, names).Success? && !ExtractLiteral(t).Success? && !ExtractList(t).Success?
  {
    if |t.kids| == 1 {
      var k := t.kids[0];
      assert Is(k, MemberDotArg) && |k.kids| != 1;
      assert ExtractField(t, names) == ExtractField(k, names);
      assert ExtractLiteral(t) == ExtractLiteral(k) && ExtractList(t) == ExtractList(k);
    }
  }

  // ------------------------------------------------------------ the extractors

  lemma {:induction false} FieldMeaning(t: Tree, names: Names, r: Record)
    requires WellFormed(t) && ExtractField(t, names).Success?
    ensures Eval(t, r) == Scalar(Get(r, ExtractField(t, names).value))
    ensures Known(ExtractField(t, names).value, names)
    decreases t
  {
    if IsLayer(t) {
      LayerIsTransparent(t, names, r);
      FieldMeaning(t.kids[0], names, r);
    } else if !t.rule.Primary? {
      OnlyLayersAndPrimaries(t, names);
    }
  }

  lemma {:induction false} LiteralValueMeaning(t: Tree, r: Record)
    requires WellFormed(t) && ExtractLiteral(t).Success?
    ensures Eval(t, r) == Scalar(ExtractLiteral(t).value)
    decreases t
  {
    if IsLayer(t) {
      LayerIsTransparent(t, None, r);
      LiteralValueMeaning(t.kids[0], r);
    } else if !t.rule.Primary? {
      OnlyLayersAndPrimaries(t, None);
    } else if Is(t.kids[0], Literal) {
      PlainLiteralsAgree(t.kids[0].kids[0].text);
    }
  }

  lemma {:induction false} LiteralsMeaning(ts: seq<Tree>, r: Record)
    requires forall k :: k in ts ==> Is(k, Expr) && WellFormed(k)
    requires ExtractLiterals(ts).Success?
    ensures forall m :: m in EvalAll(ts, r) ==> m.Scalar?
    ensures Scalars(EvalAll(ts, r)) == ExtractLiterals(ts).value
    decreases ts
  {
    if ts != [] {
      LiteralValueMeaning(ts[0], r);
      LiteralsMeaning(ts[1..], r);
      ScalarsStep(EvalAll(ts[1..], r), Eval(ts[0], r), ExtractLiteral(ts[0]).value, ExtractLiterals(ts[1..]).value);
    }
  }

  lemma ScalarsStep(ms: seq<Meaning>, m: Meaning, v: Value, vs: seq<Value>)
    requires m == Scalar(v) && (forall k :: k in ms ==> k.Scalar?) && Scalars(ms) == vs
    ensures (forall k :: k in [m] + ms ==> k.Scalar?) && Scalars([m] + ms) == [v] + vs
  {
  }

  /** Under a primary only lists and parentheses can yield a list. */
  lemma ListsAndParensOnly(k: Tree)
    requires k.Node? && !k.rule.ListLit? && (|k.kids| == 1 ==> k.kids[0].Token?)
    ensures !ExtractList(k).Success?
  {
    if |k.kids| == 1 {
      assert ExtractList(k) == ExtractList(k.kids[0]);
    }
  }

  lemma {:induction false} ListMeaning(t: Tree, r: Record)
    requires WellFormed(t) && ExtractList(t).Success?
    ensures Eval(t, r) == ListOf(ExtractList(t).value)
    decreases t
  {
    if IsLayer(t) {
      LayerIsTransparent(t, None, r);
      ListMeaning(t.kids[0], r);
    } else if !t.rule.Primary? {
      OnlyLayersAndPrimaries(t, None);
    } else {
      var k := t.kids[0];
      assert ExtractList(t) == ExtractList(k);
      if Is(k, ParenExpr) {
        ListMeaning(k.kids[0], r);
      } else if Is(k, ListLit) {
        assert WellFormedList(k);
        if k.kids != [] {
          assert WellFormedExprs(k.kids[0]);
          LiteralsMeaning(k.kids[0].kids, r);
        }
      } else {
        ListsAndParensOnly(k);
      }
    }
  }

  lemma {:induction false} ExprsOfExprs(ts: seq<Tree>)
    requires forall k :: k in ts ==> Is(k, Expr)
    ensures ExprsOf(ts) == ts
  {
    if ts != [] { ExprsOfExprs(ts[1..]); }
  }

  // ------------------------------------------------------------ the theorem

  /** Nodes the walker passes through to their first child. */
  predicate IsPassage(r: Rule) {
    r.Primary? || r.ParenExpr? || r.Relation? || r.Addition? || r.Multiplication? || r.Member?
  }

  /** The tree with the branches of conditional expressions dropped wherever the walker goes. */
  function Erase(t: Tree): (u: Tree)
    ensures u.Node? <==> t.Node?
    ensures t.Node? ==> u.rule == t.rule
    decreases t
  {
    if t.Token? then t
    else if t.rule.Expr? then if t.kids == [] then t else Node(Expr, [Erase(t.kids[0])])
    else if t.rule.ConditionalOr? || t.rule.ConditionalAnd? then Node(t.rule, EraseAll(t.kids))
    else if t.rule.Unary? && |t.kids| == 2 then Node(Unary, [t.kids[0], Erase(t.kids[1])])
    else if (t.rule.Unary? || IsPassage(t.rule)) && |t.kids| == 1 then Node(t.rule, [Erase(t.kids[0])])
    else t
  }

  function EraseAll(ts: seq<Tree>): (us: seq<Tree>)
    ensures |us| == |ts| && forall i :: 0 <= i < |ts| ==> us[i] == Erase(ts[i])
    decreases ts
  {
    if ts == [] then [] else [Erase(ts[0])] + EraseAll(ts[1..])
  }

  /** No conditional expression stands where the walker goes. */
  predicate Straight(t: Tree)
    decreases t
  {
    if t.Token? then true
    else if t.rule.Expr? then |t.kids| == 1 && Straight(t.kids[0])
    else if t.rule.ConditionalOr? || t.rule.ConditionalAnd? then forall k :: k in t.kids ==> Straight(k)
    else if t.rule.Unary? && |t.kids| == 2 then Straight(t.kids[1])
    else (t.rule.Unary? || IsPassage(t.rule)) && |t.kids| == 1 ==> Straight(t.kids[0])
  }

  /** The compiler never sees the branches. */
  lemma {:induction false} ErasedCompilesAlike(t: Tree, names: Names)
    ensures Walk(Erase(t), names) == Walk(t, names)
    decreases t
  {
    hide ExtractField, ExtractLiteral, ExtractList, CompileRelation, CompileMethodCall;
    if t.Node? {
      if t.rule.ConditionalOr? || t.rule.ConditionalAnd? {
        AllErasedCompileAlike(t.kids, names);
        if |t.kids| == 1 { ErasedCompilesAlike(t.kids[0], names); }
      } else if t.rule.Unary? && |t.kids| == 2 {
        ErasedCompilesAlike(t.kids[1], names);
      } else if t.rule.Expr? && t.kids != [] {
        ErasedCompilesAlike(t.kids[0], names);
      } else if (t.rule.Unary? || IsPassage(t.rule)) && |t.kids| == 1 {
        ErasedCompilesAlike(t.kids[0], names);
      }
    }
  }

  lemma {:induction false} AllErasedCompileAlike(ts: seq<Tree>, names: Names)
    ensures WalkAll(EraseAll(ts), names) == WalkAll(ts, names)
    decreases ts
  {
    if ts != [] {
      ErasedCompilesAlike(ts[0], names);
      AllErasedCompileAlike(ts[1..], names);
    }
  }

  /** What is left is well formed and straight. */
  lemma {:induction false} ErasedIsStraight(t: Tree)
    requires WellFormed(t)
    ensures WellFormed(Erase(t)) && Straight(Erase(t))
    decreases t
  {
    hide PlainLiteral, WellFormedIdent;
    if t.rule.ConditionalOr? || t.rule.ConditionalAnd? {
      AllErasedAreStraight(t.kids);
    } else if t.rule.Unary? && |t.kids| == 2 {
      ErasedIsStraight(t.kids[1]);
    } else if t.rule.Primary? {
      ErasedPrimary(t);
    } else if t.rule.Expr? || IsLayer(t) {
      ErasedIsStraight(t.kids[0]);
    } else if |t.kids| == 1 {
      assert t.kids == [t.kids[0]];
    }
  }

  lemma ErasedPrimary(t: Tree)
    requires WellFormed(t) && t.rule.Primary?
    ensures WellFormed(Erase(t)) && Straight(Erase(t))
    decreases t, 0
  {
    var k := t.kids[0];
    if Is(k, ParenExpr) {
      ErasedIsStraight(k.kids[0]);
      assert Erase(t) == Node(Primary, [Node(ParenExpr, [Erase(k.kids[0])])]);
    } else {
      assert t.kids == [k] && Erase(t) == t;
    }
  }

  lemma {:induction false} AllErasedAreStraight(ts: seq<Tree>)
    requires forall k :: k in ts ==> WellFormed(k)
    ensures forall u :: u in EraseAll(ts) ==> WellFormed(u) && Straight(u)
    decreases ts
  {
    if ts != [] {
      ErasedIsStraight(ts[0]);
      AllErasedAreStraight(ts[1..]);
    }
  }

  /** A straight tree has nothing to drop, and any other has. */
  lemma StraightIffErased(t: Tree)
    requires WellFormed(t)
    ensures Erase(t) == t <==> Straight(t)
    decreases t
  {
    ErasedIsStraight(t);
    if Straight(t) { StraightStays(t); }
  }

  lemma {:induction false} StraightStays(t: Tree)
    requires Straight(t)
    ensures Erase(t) == t
    decreases t
  {
    if t.Token? {
    } else if t.rule.ConditionalOr? || t.rule.ConditionalAnd? {
      forall i | 0 <= i < |t.kids| ensures EraseAll(t.kids)[i] == t.kids[i] {
        StraightStays(t.kids[i]);
      }
      assert EraseAll(t.kids) == t.kids;
    } else if t.rule.Unary? && |t.kids| == 2 {
      StraightStays(t.kids[1]);
      assert t.kids == [t.kids[0], t.kids[1]];
    } else if (t.rule.Expr? || t.rule.Unary? || IsPassage(t.rule)) && |t.kids| == 1 {
      StraightStays(t.kids[0]);
      assert t.kids == [t.kids[0]];
    }
  }

  /** For every well-formed tree the compiler accepts, the predicate means on every record what the tree means without
      the branches of its conditional expressions: what the tree itself means, when no conditional stands where the
      walker goes. One that stands in an operand is refused. */
  lemma MeaningIsPreserved(t: Tree, names: Names, r: Record)
    requires WellFormed(t) && Walk(t, names).Success?
    ensures Eval(Erase(t), r) == Scalar(Bool(Holds(Walk(t, names).value, r)))
    ensures Straight(t) ==> Eval(t, r) == Scalar(Bool(Holds(Walk(t, names).value, r)))
  {
    hide Walk, Eval, WellFormed, Straight, Erase, Holds;
    ErasedIsStraight(t);
    StraightIffErased(t);
    ErasedCompilesAlike(t, names);
    StraightMeaning(Erase(t), names, r);
  }

  /** Tree and predicate agree on every record. */
  lemma {:induction false} StraightMeaning(t: Tree, names: Names, r: Record)
    requires WellFormed(t) && Straight(t) && Walk(t, names).Success?
    ensures Eval(t, r) == Scalar(Bool(Holds(Walk(t, names).value, r)))
    decreases t
  {
    hide CompileRelation, CompileMethodCall, ExtractField, ExtractLiteral, ExtractList;
    if IsLayer(t) {
      LayerIsTransparent(t, names, r);
      StraightMeaning(t.kids[0], names, r);
    } else if t.rule.ConditionalOr? {
      AllMeaningsPreserved(t.kids, names, r);
      OrMeaning(WalkAll(t.kids, names).value, EvalAll(t.kids, r), r);
    } else if t.rule.ConditionalAnd? {
      AllMeaningsPreserved(t.kids, names, r);
      AndMeaning(WalkAll(t.kids, names).value, EvalAll(t.kids, r), r);
    } else if t.rule.Relation? {
      assert t == Node(Relation, [t.kids[0], t.kids[1]]);
      RelationMeaning(t.kids[0], t.kids[1], names, r);
    } else if t.rule.Unary? {
      StraightMeaning(t.kids[1], names, r);
    } else if t.rule.Member? {
      CallMeaning(t.kids[0], names, r);
    } else if Is(t.kids[0], ParenExpr) {
      StraightMeaning(t.kids[0].kids[0], names, r);
    }
  }

  lemma {:induction false} AllMeaningsPreserved(ts: seq<Tree>, names: Names, r: Record)
    requires (forall k :: k in ts ==> WellFormed(k) && Straight(k)) && WalkAll(ts, names).Success?
    ensures |WalkAll(ts, names).value| == |ts|
    ensures Agree(EvalAll(ts, r), WalkAll(ts, names).value, r)
    decreases ts
  {
    if ts != [] {
      StraightMeaning(ts[0], names, r);
      AllMeaningsPreserved(ts[1..], names, r);
      AgreeingStep(Eval(ts[0], r), EvalAll(ts[1..], r), Walk(ts[0], names).value, WalkAll(ts[1..], names).value, r);
    }
  }

  ghost predicate Agree(ms: seq<Meaning>, ps: seq<Predicate>, r: Record) {
    |ps| == |ms| && forall i :: 0 <= i < |ps| ==> ms[i] == Scalar(Bool(Holds(ps[i], r)))
  }

  lemma AgreeingStep(m: Meaning, ms: seq<Meaning>, p: Predicate, ps: seq<Predicate>, r: Record)
    requires m == Scalar(Bool(Holds(p, r))) && Agree(ms, ps, r)
    ensures Agree([m] + ms, [p] + ps, r)
  {
  }

  lemma OrMeaning(ps: seq<Predicate>, ms: seq<Meaning>, r: Record)
    requires Agree(ms, ps, r)
    ensures (forall m :: m in ms ==> IsBool(m)) && (Scalar(Bool(true)) in ms <==> Holds(Or(ps), r))
  {
    if q :| q in ps && Holds(q, r) {
      var i :| 0 <= i < |ps| && ps[i] == q;
      assert ms[i] in ms;
    }
  }

  lemma AndMeaning(ps: seq<Predicate>, ms: seq<Meaning>, r: Record)
    requires Agree(ms, ps, r)
    ensures (forall m :: m in ms ==> IsBool(m)) && (Scalar(Bool(false)) !in ms <==> Holds(And(ps), r))
  {
    if q :| q in ps && !Holds(q, r) {
      var i :| 0 <= i < |ps| && ps[i] == q;
      assert ms[i] in ms;
    }
  }

  lemma RelationMeaning(op: Tree, rhs: Tree, names: Names, r: Record)
    requires op.Node? && |op.kids| == 1 && WellFormed(op.kids[0]) && WellFormed(rhs)
    requires CompileRelation(op, rhs, names).Success?
    ensures Eval(Node(Relation, [op, rhs]), r) == Scalar(Bool(Holds(CompileRelation(op, rhs, names).value, r)))
  {
    FieldMeaning(op.kids[0], names, r);
    if op.rule.RelationIn? {
      ListMeaning(rhs, r);
    } else {
      LiteralValueMeaning(rhs, r);
    }
    RelationMeans(op, op.kids[0], rhs, names, r);
  }

  lemma RelationMeans(op: Tree, lhs: Tree, rhs: Tree, names: Names, r: Record)
    requires op.Node? && op.kids == [lhs] && CompileRelation(op, rhs, names).Success?
    requires ExtractField(lhs, names).Success? && Eval(lhs, r) == Scalar(Get(r, ExtractField(lhs, names).value))
    requires if op.rule.RelationIn? then ExtractList(rhs).Success? && Eval(rhs, r) == ListOf(ExtractList(rhs).value)
             else ExtractLiteral(rhs).Success? && Eval(rhs, r) == Scalar(ExtractLiteral(rhs).value)
    ensures Eval(Node(Relation, [op, rhs]), r) == Scalar(Bool(Holds(CompileRelation(op, rhs, names).value, r)))
  {
    var t := Node(Relation, [op, rhs]);
    assert t.kids[0] == op && t.kids[1] == rhs && op.kids[0] == lhs;
  }

  /** The pieces of a call that compiles. */
  lemma CallShape(t: Tree, names: Names)
    requires Is(t, MemberDotArg) && WellFormedCall(t) && CompileMethodCall(t, names).Success?
    ensures |t.kids| == 3 && WellFormed(t.kids[0]) && ExtractField(t.kids[0], names).Success?
    ensures t.kids[1] == Token("contains") && Is(t.kids[2], ExprList) && |t.kids[2].kids| == 1
    ensures var arg := t.kids[2].kids[0];
            && WellFormed(arg) && ExtractLiteral(arg).Success? && ExtractLiteral(arg).value.Str?
            && CompileMethodCall(t, names)
               == Success(Contains(ExtractField(t.kids[0], names).value, ExtractLiteral(arg).value.s))
  {
    ExprsOfExprs(t.kids[2].kids);
  }

  lemma CallMeaning(t: Tree, names: Names, r: Record)
    requires Is(t, MemberDotArg) && WellFormedCall(t) && CompileMethodCall(t, names).Success?
    ensures Eval(t, r) == Scalar(Bool(Holds(CompileMethodCall(t, names).value, r)))
  {
    CallShape(t, names);
    var target, arg := t.kids[0], t.kids[2].kids[0];
    CallPartsMean(t, target, arg, ExtractField(target, names).value, ExtractLiteral(arg).value.s, names, r);
  }

  lemma CallPartsMean(t: Tree, target: Tree, arg: Tree, f: string, s: string, names: Names, r: Record)
    requires Is(t, MemberDotArg) && |t.kids| == 3 && t.kids[0] == target && t.kids[1] == Token("contains")
    requires Is(t.kids[2], ExprList) && t.kids[2].kids == [arg]
    requires WellFormed(target) && WellFormed(arg)
    requires ExtractField(target, names) == Success(f) && ExtractLiteral(arg) == Success(Str(s))
    ensures Eval(t, r) == Scalar(Bool(ContainsText(Get(r, f), s)))
  {
    FieldMeaning(target, names, r);
    LiteralValueMeaning(arg, r);
    CallEvaluates(t, target, arg, Get(r, f), s, r);
  }

  lemma CallEvaluates(t: Tree, target: Tree, arg: Tree, v: Value, s: string, r: Record)
    requires Is(t, MemberDotArg) && |t.kids| == 3 && t.kids[0] == target && t.kids[1] == Token("contains")
    requires Is(t.kids[2], ExprList) && t.kids[2].kids == [arg]
    requires Eval(target, r) == Scalar(v) && Eval(arg, r) == Scalar(Str(s))
    ensures Eval(t, r) == Scalar(Bool(ContainsText(v, s)))
  {
    assert t.kids[2].kids[0] == arg;
  }

  // ------------------------------------------------------------ only known fields

  /** Every field a compiled predicate mentions is in `field_names`, when that set is given. */
  lemma {:induction false} OnlyKnownFields(t: Tree, names: Names)
    requires WellFormed(t) && Walk(t, names).Success?
    ensures forall f :: f in FieldsOf(Walk(t, names).value) ==> Known(f, names)
    decreases t
  {
    hide ExtractField, ExtractLiteral, ExtractList, Eval;
    if IsLayer(t) {
      LayerIsTransparent(t, names, map[]);
      OnlyKnownFields(t.kids[0], names);
    } else if t.rule.Expr? {
      OnlyKnownFields(t.kids[0], names);
    } else if t.rule.ConditionalOr? || t.rule.ConditionalAnd? {
      AllKnownFields(t.kids, names);
    } else if t.rule.Relation? {
      FieldMeaning(t.kids[0].kids[0], names, map[]);
    } else if t.rule.Unary? {
      OnlyKnownFields(t.kids[1], names);
    } else if t.rule.Member? {
      FieldMeaning(t.kids[0].kids[0], names, map[]);
    } else if Is(t.kids[0], ParenExpr) {
      OnlyKnownFields(t.kids[0].kids[0], names);
    }
  }

  lemma {:induction false} AllKnownFields(ts: seq<Tree>, names: Names)
    requires (forall k :: k in ts ==> WellFormed(k)) && WalkAll(ts, names).Success?
    ensures forall q, f :: q in WalkAll(ts, names).value && f in FieldsOf(q) ==> Known(f, names)
    decreases ts
  {
    if ts != [] {
      OnlyKnownFields(ts[0], names);
      AllKnownFields(ts[1..], names);
    }
  }

  // ------------------------------------------------------------ the conditional expression

  /** `c ? a : b` */
  function Ternary(c: Tree, a: Tree, b: Tree): Tree {
    Node(Expr, [c, a, b])
  }

  /** In an operand a conditional is refused: no field, literal or list is extracted from a tree that has one where the
      walker would go. */
  lemma {:induction false} ConditionalOperandsAreRefused(t: Tree, names: Names)
    requires WellFormed(t) && !Straight(t)
    ensures !ExtractField(t, names).Success? && !ExtractLiteral(t).Success? && !ExtractList(t).Success?
    decreases t
  {
    if IsLayer(t) {
      LayerIsTransparent(t, names, map[]);
      ConditionalOperandsAreRefused(t.kids[0], names);
    } else if !t.rule.Primary? {
      OnlyLayersAndPrimaries(t, names);
    } else if Is(t.kids[0], ParenExpr) {
      ConditionalOperandsAreRefused(t.kids[0].kids[0], names);
      assert ExtractList(t) == ExtractList(t.kids[0]) == ExtractList(t.kids[0].kids[0]);
    }
  }

  function BoolLiteral(b: bool): Tree {
    Node(Literal, [Token(if b then "true" else "false")])
  }

  /** If the tree compiles, the predicate says of the record what the tree says. */
  ghost predicate ReadRight(t: Tree, names: Names, r: Record) {
    Walk(t, names).Success? ==> Eval(t, r) == Scalar(Bool(Holds(Walk(t, names).value, r)))
  }

  /** A conditional expression is meant to be refused. It is refused exactly when its condition does not compile, and
      only then is it read right whatever its branches are. */
  lemma TernaryReadsRightIff(c: Tree, names: Names)
    ensures forall a, b :: Walk(Ternary(c, a, b), names) == Walk(c, names)
    ensures (forall a, b, r :: ReadRight(Ternary(c, a, b), names, r)) <==> !Walk(c, names).Success?
  {
    forall a, b ensures Walk(Ternary(c, a, b), names) == Walk(c, names) {
      assert Ternary(c, a, b).kids[0] == c;
    }
    if Walk(c, names).Success? {
      var wrong := BoolLiteral(!Holds(Walk(c, names).value, map[]));
      TernaryEvaluates(c, wrong, wrong, map[]);
      BoolLiteralEvaluates(!Holds(Walk(c, names).value, map[]), map[]);
      assert !ReadRight(Ternary(c, wrong, wrong), names, map[]);
    }
  }

  lemma TernaryEvaluates(c: Tree, a: Tree, b: Tree, r: Record)
    ensures Eval(Ternary(c, a, b), r) ==
            if !IsBool(Eval(c, r)) then NoMeaning else Eval(if Eval(c, r).v.b then a else b, r)
  {
    var t := Ternary(c, a, b);
    assert t.kids[0] == c && t.kids[1] == a && t.kids[2] == b;
  }

  lemma BoolLiteralEvaluates(b: bool, r: Record)
    ensures Eval(BoolLiteral(b), r) == Scalar(Bool(b))
  {
    ConstantsReadRight();
  }

  /** For every condition that compiles there is an expression that is accepted and read as its own negation. */
  lemma TernaryIsReadAsItsNegation(c: Tree, names: Names, r: Record)
    requires WellFormed(c) && Straight(c) && Walk(c, names).Success?
    ensures var t := Ternary(c, BoolLiteral(false), BoolLiteral(true));
            && Walk(t, names) == Walk(c, names)
            && Eval(t, r) == Scalar(Bool(!Holds(Walk(t, names).value, r)))
  {
    hide Walk, WellFormed, Straight;
    var p := Walk(c, names).value;
    MeaningIsPreserved(c, names, r);
    TernaryReadsRightIff(c, names);
    TernaryEvaluates(c, BoolLiteral(false), BoolLiteral(true), r);
    BoolLiteralEvaluates(!Holds(p, r), r);
  }
}
