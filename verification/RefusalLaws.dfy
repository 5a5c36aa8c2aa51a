/** What the operators are, and how the compiler says no: the documented exception, and no other
    (termin_core/expression/predicate.py). */
module RefusalLaws {
  import opened Basics
  import opened Storage
  import opened CelTrees
  import opened PredicateCompiler
  import opened PredicateMeaning
  import opened Literals
  import opened LiteralLaws

  /** A result, or the compiler's own exception. */
  predicate Proper<T>(r: Compiled<T>) {
    r.Success? || r.error == NotCompilable
  }

  lemma TokenIsProper(text: string)
    requires PlainLiteral(text)
    ensures TokenValue(text).Success?
  {
    PlainLiteralsAgree(text);
  }

  /** The primaries, one layer above what they wrap. */
  lemma PrimaryIsProper(t: Tree, names: Names)
    requires WellFormed(t) && t.rule.Primary?
    ensures Proper(ExtractField(t, names)) && Proper(ExtractLiteral(t))
  {
    hide ParseTokenLiteral, PlainLiteral, LiteralValue;
    if Is(t.kids[0], Literal) { TokenIsProper(t.kids[0].kids[0].text); }
  }

  lemma {:induction false} FieldIsProper(t: Tree, names: Names)
    requires WellFormed(t)
    ensures Proper(ExtractField(t, names))
    decreases t
  {
    if IsLayer(t) {
      LayerIsTransparent(t, names, map[]);
      FieldIsProper(t.kids[0], names);
    } else if t.rule.Primary? {
      PrimaryIsProper(t, names);
    } else {
      OtherIsProper(t, names);
    }
  }

  lemma {:induction false} LiteralIsProper(t: Tree)
    requires WellFormed(t)
    ensures Proper(ExtractLiteral(t))
    decreases t
  {
    if IsLayer(t) {
      LayerIsTransparent(t, None, map[]);
      LiteralIsProper(t.kids[0]);
    } else if t.rule.Primary? {
      PrimaryIsProper(t, None);
    } else {
      OtherIsProper(t, None);
    }
  }

  /** Neither a layer nor a primary: the extractors give up. */
  lemma OtherIsProper(t: Tree, names: Names)
    requires WellFormed(t) && !IsLayer(t) && !t.rule.Primary?
    ensures ExtractField(t, names) == Failure(NotCompilable) && ExtractLiteral(t) == Failure(NotCompilable)
    ensures ExtractList(t) == Failure(NotCompilable)
  {
    if |t.kids| == 1 {
      var k := t.kids[0];
      assert Is(k, MemberDotArg) && |k.kids| != 1;
      assert ExtractField(t, names) == ExtractField(k, names);
      assert ExtractLiteral(t) == ExtractLiteral(k) && ExtractList(t) == ExtractList(k);
    }
  }

  lemma {:induction false} LiteralsAreProper(ts: seq<Tree>)
    requires forall k :: k in ts ==> WellFormed(k)
    ensures Proper(ExtractLiterals(ts))
  {
    if ts != [] {
      LiteralIsProper(ts[0]);
      LiteralsAreProper(ts[1..]);
    }
  }

  lemma {:induction false} ListIsProper(t: Tree)
    requires WellFormed(t)
    ensures Proper(ExtractList(t))
    decreases t
  {
    if IsLayer(t) {
      LayerIsTransparent(t, None, map[]);
      ListIsProper(t.kids[0]);
    } else if t.rule.Primary? {
      var k := t.kids[0];
      assert ExtractList(t) == ExtractList(k);
      if k.rule.ListLit? {
        if k.kids != [] {
          assert WellFormedExprs(k.kids[0]);
          LiteralsAreProper(k.kids[0].kids);
        }
      } else if k.rule.ParenExpr? {
        ListIsProper(k.kids[0]);
      } else if |k.kids| == 1 {
        assert k.kids[0].Token?;
      }
    } else {
      OtherIsProper(t, None);
    }
  }

  lemma RelationIsProper(t: Tree, names: Names)
    requires WellFormed(t) && t.rule.Relation? && |t.kids| == 2
    ensures Proper(CompileRelation(t.kids[0], t.kids[1], names))
  {
    RelationKids(t);
    hide WellFormed, ExtractField, ExtractLiteral, ExtractList;
    FieldIsProper(t.kids[0].kids[0], names);
    LiteralIsProper(t.kids[1]);
    ListIsProper(t.kids[1]);
  }

  lemma RelationKids(t: Tree)
    requires WellFormed(t) && t.rule.Relation? && |t.kids| == 2
    ensures t.kids[0].Node? && |t.kids[0].kids| == 1 && WellFormed(t.kids[0].kids[0]) && WellFormed(t.kids[1])
  {
  }

  lemma {:induction false} ExprsAreWellFormed(ts: seq<Tree>)
    requires forall k :: k in ts ==> WellFormed(k)
    ensures forall k :: k in ExprsOf(ts) ==> WellFormed(k)
  {
    if ts != [] { ExprsAreWellFormed(ts[1..]); }
  }

  lemma CallIsProper(t: Tree, names: Names)
    requires Is(t, MemberDotArg) && WellFormedCall(t)
    ensures Proper(CompileMethodCall(t, names))
  {
    if |t.kids| >= 3 {
      hide ExtractField, ExtractLiteral, Lower, Strip;
      FieldIsProper(t.kids[0], names);
      ExprsAreWellFormed(t.kids[2].kids);
      var args := ExprsOf(t.kids[2].kids);
      if |args| == 1 { LiteralIsProper(args[0]); }
    }
  }

  /** A well-formed tree compiles, or the compiler raises its own exception: no tree of that shape crashes it. */
  lemma {:induction false} CompilesOrRefuses(t: Tree, names: Names)
    requires WellFormed(t)
    ensures Walk(t, names).Success? || Walk(t, names) == Failure(NotCompilable)
    decreases t
  {
    hide WellFormedCall, CompileMethodCall, CompileRelation;
    match t.rule
    case Expr => CompilesOrRefuses(t.kids[0], names);
    case Primary =>
      if t.kids[0].rule.ParenExpr? { CompilesOrRefuses(t.kids[0].kids[0], names); }
    case ConditionalOr => AllCompileOrRefuse(t.kids, names);
    case ConditionalAnd => AllCompileOrRefuse(t.kids, names);
    case Relation =>
      if |t.kids| == 1 { CompilesOrRefuses(t.kids[0], names); }
      if |t.kids| == 2 { RelationIsProper(t, names); }
    case Addition => if |t.kids| == 1 { CompilesOrRefuses(t.kids[0], names); }
    case Multiplication => if |t.kids| == 1 { CompilesOrRefuses(t.kids[0], names); }
    case Unary =>
      if |t.kids| == 1 { CompilesOrRefuses(t.kids[0], names); }
      if |t.kids| == 2 { CompilesOrRefuses(t.kids[1], names); }
    case Member =>
      if Is(t.kids[0], MemberDotArg) { CallIsProper(t.kids[0], names); } else { CompilesOrRefuses(t.kids[0], names); }
    case OtherRule(_) =>
  }

  lemma {:induction false} AllCompileOrRefuse(ts: seq<Tree>, names: Names)
    requires forall k :: k in ts ==> WellFormed(k)
    ensures Proper(WalkAll(ts, names)) && (|ts| == 1 ==> Proper(Walk(ts[0], names)))
    decreases ts
  {
    if ts != [] {
      CompilesOrRefuses(ts[0], names);
      AllCompileOrRefuse(ts[1..], names);
    }
  }

  // ------------------------------------------------------------ trees no parser builds

  /** A letter or underscore, then letters, digits and underscores. */
  predicate IsName(s: string) {
    && s != "" && ('a' <= s[0] <= 'z' || 'A' <= s[0] <= 'Z' || s[0] == '_')
    && forall i :: 0 <= i < |s| ==>
         'a' <= s[i] <= 'z' || 'A' <= s[i] <= 'Z' || s[i] == '_' || '0' <= s[i] <= '9'
  }

  /** A field at the end of the drill: a name, bare or under its rule, that the content has. */
  lemma FieldLeaves(s: string, names: Names, kids: seq<Tree>)
    ensures var found := if names.None? || s in names.value then Success(s) else Failure(NotCompilable);
            && ExtractField(Token(s), names) == (if IsName(s) then found else Failure(NotCompilable))
            && ExtractField(Node(Ident, [Token(s)]), names) == found
    ensures ExtractField(Node(Ident, []), names) == Failure(Unmodelled)
    ensures ExtractField(Node(Primary, [Node(Ident, [])]), names) == Failure(Crash)
    ensures kids != [] && kids[0].Node? ==> ExtractField(Node(Ident, kids), names) == Failure(Unmodelled)
    ensures |kids| != 1 || !Is(kids[0], Ident) ==> ExtractField(Node(Primary, kids), names) == Failure(NotCompilable)
  {
  }

  /** A literal at the end of the drill: a token, bare or under its rule. */
  lemma LiteralLeaves(s: string, kids: seq<Tree>)
    ensures var value := match ParseTokenLiteral(s) case None => Failure(Unmodelled) case Some(v) => Success(v);
            && ExtractLiteral(Token(s)) == value && ExtractLiteral(Node(Literal, [Token(s)])) == value
            && ExtractLiteral(Node(Primary, [Node(Literal, [Token(s)])])) == value
    ensures ExtractLiteral(Node(Literal, [])) == Failure(Crash)
    ensures ExtractLiteral(Node(Primary, [Node(Ident, [])])) == Failure(Crash)
    ensures kids != [] && kids[0].Node? ==> ExtractLiteral(Node(Literal, kids)) == Failure(Unmodelled)
    ensures kids != [] && kids[0].Node? ==>
              ExtractLiteral(Node(Primary, [Node(Ident, kids)])) == Failure(NotCompilable)
    ensures |kids| == 1 && !Is(kids[0], Literal) && !Is(kids[0], Ident) ==>
              ExtractLiteral(Node(Primary, kids)) == Failure(NotCompilable)
    ensures |kids| > 1 ==> ExtractLiteral(Node(Primary, kids)) == Failure(NotCompilable)
  {
  }

  lemma ListLeaves(s: string, kids: seq<Tree>)
    ensures ExtractList(Token(s)) == Failure(NotCompilable)
    ensures ExtractList(Node(ListLit, [])) == Success([])
    ensures kids != [] && kids[0].Token? ==> ExtractList(Node(ListLit, kids)) == Failure(Crash)
    ensures kids != [] && kids[0].Node? ==> ExtractList(Node(ListLit, kids)) == ExtractLiterals(kids[0].kids)
  {
  }

  /** Of the children of a list or of arguments only the expressions count, in order; the first that fails decides. */
  lemma {:induction false} LiteralsInOrder(a: seq<Tree>, b: seq<Tree>)
    ensures ExtractLiterals(a + b) ==
            match ExtractLiterals(a)
            case Failure(e) => Failure(e)
            case Success(vs) =>
              match ExtractLiterals(b) case Failure(e) => Failure(e) case Success(ws) => Success(vs + ws)
  {
    hide ExtractLiteral;
    if a == [] {
      assert a + b == b;
      NothingInFront(ExtractLiterals(b));
    } else {
      assert (a + b)[0] == a[0] && (a + b)[1..] == a[1..] + b;
      LiteralsInOrder(a[1..], b);
      var first, rest, back := ExtractLiteral(a[0]), ExtractLiterals(a[1..]), ExtractLiterals(b);
      if first.Success? && rest.Success? && back.Success? {
        assert [first.value] + (rest.value + back.value) == [first.value] + rest.value + back.value;
      }
    }
  }

  lemma NothingInFront(r: Compiled<seq<Value>>)
    ensures r == match r case Failure(e) => Failure(e) case Success(ws) => Success([] + ws)
  {
    assert r.Success? ==> [] + r.value == r.value;
  }

  lemma {:induction false} ExprsInOrder(a: seq<Tree>, b: seq<Tree>)
    ensures ExprsOf(a + b) == ExprsOf(a) + ExprsOf(b)
  {
    if a == [] {
      assert a + b == b;
    } else {
      assert (a + b)[0] == a[0] && (a + b)[1..] == a[1..] + b;
      ExprsInOrder(a[1..], b);
      var head := if Is(a[0], Expr) then [a[0]] else [];
      assert ExprsOf(a + b) == head + (ExprsOf(a[1..]) + ExprsOf(b)) && ExprsOf(a) == head + ExprsOf(a[1..]);
    }
  }

  lemma OneLiteral(t: Tree)
    ensures ExprsOf([t]) == if Is(t, Expr) then [t] else []
    ensures !Is(t, Expr) ==> ExtractLiterals([t]) == Success([])
    ensures Is(t, Expr) ==>
              ExtractLiterals([t]) == match ExtractLiteral(t)
                                      case Failure(e) => Failure(e)
                                      case Success(v) => Success([v])
  {
    hide ExtractLiteral;
    assert [t][1..] == [] && forall v: Value :: [v] + [] == [v];
  }

  /** The walker on nodes with a wrong number of children: it looks at the first child without asking where there is
      none, and refuses everything else. */
  lemma WalkLeaves(s: string, names: Names, kids: seq<Tree>)
    ensures Walk(Token(s), names) == Failure(NotCompilable)
    ensures forall rule :: rule in {Expr, Primary, ParenExpr, ConditionalOr, ConditionalAnd} ==>
              Walk(Node(rule, []), names) == Failure(Crash)
    ensures forall rule :: rule in {Relation, Addition, Multiplication, Unary, Member} ==>
              Walk(Node(rule, []), names) == Failure(NotCompilable)
    ensures |kids| > 2 ==> Walk(Node(Relation, kids), names) == Failure(NotCompilable)
    ensures |kids| > 2 ==> Walk(Node(Unary, kids), names) == Failure(NotCompilable)
    ensures |kids| > 1 ==> Walk(Node(Addition, kids), names) == Failure(NotCompilable)
    ensures |kids| > 1 ==> Walk(Node(Multiplication, kids), names) == Failure(NotCompilable)
    ensures |kids| > 1 ==> Walk(Node(Member, kids), names) == Walk(kids[0], names)
  {
  }

  /** A relation needs one of the seven operators with an operand; a call needs three children, the name `contains` in
      any case, a field, and one text. */
  lemma OperatorsAndCalls(op: Tree, rhs: Tree, names: Names, kids: seq<Tree>)
    ensures op.Token? || op.kids == [] || !(IsComparison(op.rule) || op.rule == RelationIn) ==>
              CompileRelation(op, rhs, names) == Failure(NotCompilable)
    ensures |kids| < 3 || kids[1].Node? || Lower(Strip(kids[1].text)) != "contains" ==>
              CompileMethodCall(Node(MemberDotArg, kids), names) == Failure(NotCompilable)
    ensures |kids| >= 3 && kids[1] == Token("contains") && ExtractField(kids[0], names).Success? && kids[2].Token? ==>
              CompileMethodCall(Node(MemberDotArg, kids), names) == Failure(Crash)
    ensures && |kids| >= 3 && kids[1] == Token("contains") && ExtractField(kids[0], names).Success? && kids[2].Node?
            && |ExprsOf(kids[2].kids)| != 1 ==>
              CompileMethodCall(Node(MemberDotArg, kids), names) == Failure(NotCompilable)
  {
    hide ExtractField, ExtractLiteral, ExtractList;
    assert Lower(Strip("contains")) == "contains" by {
      assert Strip("contains") == "contains";
      LowerOfContains();
    }
  }

  lemma LowerOfContains()
    ensures Lower("contains") == "contains"
  {
    var s := "contains";
    assert s[1..] == "ontains" && s[1..][1..] == "ntains" && "ntains"[1..] == "tains" && "tains"[1..] == "ains";
    assert "ains"[1..] == "ins" && "ins"[1..] == "ns" && "ns"[1..] == "s" && "s"[1..] == "";
  }

  // ------------------------------------------------------------ the operators

  /** Each comparison of two numbers means what it says, as an expression and as the predicate it compiles to. */
  lemma ComparesAsWritten(op: Rule, f: string, r: Record, a: int, b: int)
    requires IsComparison(op) && Get(r, f) == Int(a)
    ensures var says := match op
                        case RelationEq => a == b
                        case RelationNe => a != b
                        case RelationGt => a > b
                        case RelationGe => a >= b
                        case RelationLt => a < b
                        case _ => a <= b;
            && CompareMeaning(op, Scalar(Int(a)), Scalar(Int(b))) == Scalar(Bool(says))
            && (Holds(MakeComparison(op, f, Int(b)), r) <==> says)
  {
  }

  /** Six rules are comparisons. */
  lemma ComparisonsAre(op: Rule)
    ensures IsComparison(op) <==> op in {RelationEq, RelationNe, RelationGt, RelationLt, RelationGe, RelationLe}
  {
  }

  ghost predicate AllTruths(kids: seq<Tree>, r: Record) {
    forall k :: k in kids ==> exists v :: Eval(k, r) == Scalar(Bool(v))
  }

  ghost predicate SomeIs(kids: seq<Tree>, r: Record, b: bool) {
    exists k :: k in kids && Eval(k, r) == Scalar(Bool(b))
  }

  /** `||` means something exactly over truth values, and then that some of them is true; ... */
  lemma OrMeans(kids: seq<Tree>, r: Record)
    requires |kids| >= 2
    ensures Eval(Node(ConditionalOr, kids), r) ==
            if AllTruths(kids, r) then Scalar(Bool(SomeIs(kids, r, true))) else NoMeaning
  {
    KidsAndMeanings(kids, r);
    hide AllTruths, SomeIs;
  }

  /** ... `&&` the same, and that none of them is false. */
  lemma AndMeans(kids: seq<Tree>, r: Record)
    requires |kids| >= 2
    ensures Eval(Node(ConditionalAnd, kids), r) ==
            if AllTruths(kids, r) then Scalar(Bool(!SomeIs(kids, r, false))) else NoMeaning
  {
    KidsAndMeanings(kids, r);
    hide AllTruths, SomeIs;
  }

  /** `!` turns a truth value round, and a conditional takes the branch its condition chooses. */
  lemma NotAndChoiceMean(c: Tree, a: Tree, b: Tree, r: Record)
    ensures Eval(Node(Unary, [Node(UnaryNot, []), c]), r) ==
            if IsBool(Eval(c, r)) then Scalar(Bool(!Eval(c, r).v.b)) else NoMeaning
    ensures Eval(Node(Expr, [c, a, b]), r) ==
            if IsBool(Eval(c, r)) then if Eval(c, r).v.b then Eval(a, r) else Eval(b, r) else NoMeaning
  {
  }

  lemma KidsAndMeanings(kids: seq<Tree>, r: Record)
    ensures var ms := EvalAll(kids, r);
            && ((forall m :: m in ms ==> IsBool(m)) <==> AllTruths(kids, r))
            && (forall b :: Scalar(Bool(b)) in ms <==> SomeIs(kids, r, b))
            && (kids != [] ==> ms != [])
  {
    hide Eval;
    var ms := EvalAll(kids, r);
    forall k | k in kids ensures Eval(k, r) in ms {
      var i :| 0 <= i < |kids| && kids[i] == k;
      assert ms[i] == Eval(k, r);
    }
    forall m | m in ms ensures exists k :: k in kids && Eval(k, r) == m {
      var i :| 0 <= i < |ms| && ms[i] == m;
      assert kids[i] in kids;
    }
    forall m: Meaning | IsBool(m) ensures m == Scalar(Bool(m.v.b)) {}
    if AllTruths(kids, r) {
      forall m | m in ms ensures IsBool(m) {
        var k :| k in kids && Eval(k, r) == m;
      }
    }
  }
}
