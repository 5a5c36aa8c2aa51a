/** What a tier below "high" promises about data that is already stored: the classifier read against the
    validators (termin_core/validation/dependents.py). */
module Widening {
  import opened Basics
  import opened Classifier

  // ------------------------------------------------------------ the validators

  predicate InBounds(f: FieldSpec, x: real) {
    (f.minimum.Some? ==> f.minimum.value <= x) && (f.maximum.Some? ==> x <= f.maximum.value)
  }

  /** `validate_min_max_constraints` on one value; `toFloat` is Python's `float`, `None` where it raises. */
  predicate AcceptsBounds(f: FieldSpec, v: Value, toFloat: Value -> Option<real>) {
    v == Null || v == Str("") || toFloat(v).None? || InBounds(f, toFloat(v).value)
  }

  /** `validate_enum_constraints` on one value. */
  predicate AcceptsEnum(f: FieldSpec, v: Value) {
    f.enumValues == [] || !Truthy(v) || (v.Str? && v.s in f.enumValues)
  }

  predicate Accepts(f: FieldSpec, v: Value, toFloat: Value -> Option<real>) {
    AcceptsBounds(f, v, toFloat) && AcceptsEnum(f, v)
  }

  // ------------------------------------------------------------ tightening is exactly a rejected number

  predicate NonEmptyInterval(f: FieldSpec) {
    f.minimum.Some? && f.maximum.Some? ==> f.minimum.value <= f.maximum.value
  }

  ghost predicate RejectsAcceptedNumber(o: FieldSpec, n: FieldSpec) {
    exists x: real :: InBounds(o, x) && !InBounds(n, x)
  }

  lemma TighteningRejects(o: FieldSpec, n: FieldSpec)
    requires NonEmptyInterval(o)
    ensures Tightening(o, n) <==> RejectsAcceptedNumber(o, n)
  {
    if Tightening(o, n) {
      var x: real;
      if n.minimum.Some? && (o.minimum.None? || n.minimum.value > o.minimum.value) {
        x := if o.minimum.Some? then o.minimum.value
             else if o.maximum.Some? && o.maximum.value < n.minimum.value then o.maximum.value
             else n.minimum.value - 1.0;
      } else {
        x := if o.maximum.Some? then o.maximum.value
             else if o.minimum.Some? && o.minimum.value > n.maximum.value then o.minimum.value
             else n.maximum.value + 1.0;
      }
      assert InBounds(o, x) && !InBounds(n, x);
    }
  }

  /** The flag means "some number that was accepted is now rejected", against every new spec, exactly when the old
      interval was not empty: raising the lower end of an empty interval sets the flag and rejects nothing. */
  lemma TighteningIsRejection(o: FieldSpec)
    ensures (forall n :: Tightening(o, n) <==> RejectsAcceptedNumber(o, n)) <==> NonEmptyInterval(o)
  {
    if NonEmptyInterval(o) {
      forall n ensures Tightening(o, n) <==> RejectsAcceptedNumber(o, n) {
        TighteningRejects(o, n);
      }
    } else {
      var n := o.(minimum := Some(o.minimum.value + 1.0));
      assert Tightening(o, n) && !RejectsAcceptedNumber(o, n);
    }
  }

  // ------------------------------------------------------------ below "high" means only loosening

  /** Nothing about a kept field got stricter; a foreign key may only be dropped. */
  ghost predicate Loosens(o: FieldSpec, n: FieldSpec) {
    && Lossless(o.businessType, n.businessType)
    && (n.required ==> o.required)
    && (n.unique ==> o.unique)
    && !Tightening(o, n)
    && (forall v :: v in o.enumValues ==> v in n.enumValues)
    && n.cascadeMode == o.cascadeMode
    && (n.foreignKey == o.foreignKey || (o.foreignKey.Some? && n.foreignKey.None?))
  }

  predicate HasForeignKey(f: FieldSpec) {
    f.foreignKey.Some? && f.foreignKey.value != ""
  }

  predicate BelowHigh(t: Tier) {
    Rank(t) < Rank(High)
  }

  lemma {:induction false} WithoutNothing(xs: seq<string>, ys: seq<string>)
    ensures Without(xs, ys) == [] <==> forall v :: v in xs ==> v in ys
  {
    if Without(xs, ys) != [] {
      assert Without(xs, ys)[0] in Without(xs, ys);
    } else {
      assert forall v :: v in xs && v !in ys ==> v in Without(xs, ys);
    }
  }

  ghost predicate AllBelowHigh(cs: seq<FieldChange>) {
    forall c :: c in cs ==> BelowHigh(ClassifyField(c))
  }

  /** What the classifier asks of one attribute. */
  ghost predicate AttributeLoosens(a: Attribute, o: FieldSpec, n: FieldSpec) {
    match a
    case OfType => Lossless(o.businessType, n.businessType)
    case OfRequired => n.required ==> o.required
    case OfUnique => n.unique ==> o.unique
    case OfBounds => !Tightening(o, n)
    case OfEnum => forall v :: v in o.enumValues ==> v in n.enumValues
    case OfCascade => n.cascadeMode == o.cascadeMode
    case OfForeignKey => n.foreignKey == o.foreignKey || (o.foreignKey.Some? && n.foreignKey.None?)
  }

  lemma AttributeBelowHigh(a: Attribute, name: string, o: FieldSpec, n: FieldSpec)
    ensures (Differs(a, o, n) ==> BelowHigh(ClassifyField(ChangeOf(a, name, o, n)))) <==> AttributeLoosens(a, o, n)
  {
    if a.OfEnum? {
      WithoutNothing(o.enumValues, n.enumValues);
    }
  }

  lemma LoosensByAttribute(o: FieldSpec, n: FieldSpec)
    ensures Loosens(o, n) <==> forall a :: AttributeLoosens(a, o, n)
  {
    if forall a :: AttributeLoosens(a, o, n) {
      assert AttributeLoosens(OfType, o, n) && AttributeLoosens(OfRequired, o, n) && AttributeLoosens(OfUnique, o, n)
          && AttributeLoosens(OfBounds, o, n) && AttributeLoosens(OfEnum, o, n) && AttributeLoosens(OfCascade, o, n)
          && AttributeLoosens(OfForeignKey, o, n);
    }
  }

  lemma OneFieldBelowHigh(name: string, o: FieldSpec, n: FieldSpec)
    ensures AllBelowHigh(DiffOneField(name, o, n)) <==> Loosens(o, n)
  {
    DiffOneFieldMembers(name, o, n);
    LoosensByAttribute(o, n);
    forall a
      ensures (Differs(a, o, n) ==> BelowHigh(ClassifyField(ChangeOf(a, name, o, n)))) <==> AttributeLoosens(a, o, n)
    {
      AttributeBelowHigh(a, name, o, n);
    }
  }

  /** A computed "modified" change classifies below "high" exactly when no field is lost, no added field
      carries a foreign key, and every kept field only loosens. */
  lemma BelowHighExactlyWhenLoosening(o: map<string, FieldSpec>, n: map<string, FieldSpec>)
    ensures BelowHigh(ClassifyModified(DiffFields(o, n))) <==>
              && o.Keys <= n.Keys
              && (forall f :: f in n && f !in o ==> !HasForeignKey(n[f]))
              && (forall f :: f in o && f in n ==> Loosens(o[f], n[f]))
  {
    var cs := DiffFields(o, n);
    ClassifyModifiedBounds(cs);
    assert BelowHigh(ClassifyModified(cs)) <==> AllBelowHigh(cs);
    if AllBelowHigh(cs) {
      BelowHighLoosens(o, n);
    } else {
      var c :| c in cs && !BelowHigh(ClassifyField(c));
      DiffFieldsMembers(o, n, c);
      if c.field in o && c.field in n {
        OneFieldBelowHigh(c.field, o[c.field], n[c.field]);
        assert !Loosens(o[c.field], n[c.field]);
      }
    }
  }

  lemma BelowHighLoosens(o: map<string, FieldSpec>, n: map<string, FieldSpec>)
    requires AllBelowHigh(DiffFields(o, n))
    ensures o.Keys <= n.Keys
    ensures forall f :: f in n && f !in o ==> !HasForeignKey(n[f])
    ensures forall f :: f in o && f in n ==> Loosens(o[f], n[f])
  {
    forall f | f in o ensures f in n {
      DiffFieldsMembers(o, n, Removed(f));
    }
    forall f | f in n && f !in o ensures !HasForeignKey(n[f]) {
      DiffFieldsMembers(o, n, Added(f, n[f]));
    }
    forall f | f in o && f in n ensures Loosens(o[f], n[f]) {
      OneFieldBelowHigh(f, o[f], n[f]);
      forall c | c in DiffOneField(f, o[f], n[f]) ensures BelowHigh(ClassifyField(c)) {
        DiffOneFieldNames(f, o[f], n[f], c);
        DiffFieldsMembers(o, n, c);
      }
    }
  }

  // ------------------------------------------------------------ stored values stay valid

  /** Below "high", every number an old field accepted is accepted by the new one. */
  lemma BelowHighKeepsNumbers(o: map<string, FieldSpec>, n: map<string, FieldSpec>, f: string, v: Value,
                              toFloat: Value -> Option<real>)
    requires BelowHigh(ClassifyModified(DiffFields(o, n))) && f in o && f in n
    requires AcceptsBounds(o[f], v, toFloat)
    ensures AcceptsBounds(n[f], v, toFloat)
  {
    BelowHighExactlyWhenLoosening(o, n);
    assert Loosens(o[f], n[f]);
  }

  /** Below "high", every value the old enum accepted is accepted by the new one exactly when the field had
      an enum already or still has none: gaining a first enum list is only "medium". */
  lemma BelowHighKeepsEnumIff(o: map<string, FieldSpec>, n: map<string, FieldSpec>, f: string)
    requires BelowHigh(ClassifyModified(DiffFields(o, n))) && f in o && f in n
    ensures (forall v :: AcceptsEnum(o[f], v) ==> AcceptsEnum(n[f], v))
            <==> (o[f].enumValues != [] || n[f].enumValues == [])
  {
    BelowHighExactlyWhenLoosening(o, n);
    assert Loosens(o[f], n[f]);
    if o[f].enumValues == [] && n[f].enumValues != [] {
      var s := LongerThanAll(n[f].enumValues);
      assert AcceptsEnum(o[f], Str(s)) && !AcceptsEnum(n[f], Str(s));
    }
  }

  lemma {:induction false} LongerThanAll(xs: seq<string>) returns (s: string)
    ensures s != "" && forall x :: x in xs ==> |x| < |s|
  {
    if xs == [] {
      s := "x";
    } else {
      var t := LongerThanAll(xs[1..]);
      s := t + xs[0];
      assert forall x :: x in xs ==> x == xs[0] || x in xs[1..];
    }
  }

  /** The IR invariant: a field lists enum values exactly when its type is enum. */
  predicate EnumMatchesType(f: FieldSpec) {
    f.enumValues != [] <==> f.businessType.Enum?
  }

  /** On schemas that keep the IR invariant, below "high" means no stored value is rejected, no rule about
      presence, uniqueness, references or cascades was added, and any type change is lossless. */
  lemma WideningIsSound(o: map<string, FieldSpec>, n: map<string, FieldSpec>, f: string, v: Value,
                        toFloat: Value -> Option<real>)
    requires BelowHigh(ClassifyModified(DiffFields(o, n))) && f in o
    requires forall g :: g in o ==> EnumMatchesType(o[g])
    requires forall g :: g in n ==> EnumMatchesType(n[g])
    ensures f in n
    ensures AcceptsBounds(o[f], v, toFloat) && AcceptsEnum(o[f], v) ==>
              AcceptsBounds(n[f], v, toFloat) && AcceptsEnum(n[f], v)
    ensures (n[f].required ==> o[f].required) && (n[f].unique ==> o[f].unique)
    ensures n[f].foreignKey.Some? ==> n[f].foreignKey == o[f].foreignKey
    ensures n[f].cascadeMode == o[f].cascadeMode
    ensures Lossless(o[f].businessType, n[f].businessType)
  {
    BelowHighExactlyWhenLoosening(o, n);
    assert Loosens(o[f], n[f]);
    BelowHighKeepsEnumIff(o, n, f);
    if AcceptsBounds(o[f], v, toFloat) {
      BelowHighKeepsNumbers(o, n, f, v, toFloat);
    }
  }

  /** Any column gaining its first enum list, nothing else changed, is "medium" and yet rejects what it
      used to accept. */
  lemma FirstEnumIsOnlyMedium(f: string, o: FieldSpec, values: seq<string>)
    requires o.enumValues == [] && values != []
    ensures var n := o.(enumValues := values);
            && ClassifyModified(DiffFields(map[f := o], map[f := n])) == Medium
            && exists s :: AcceptsEnum(o, Str(s)) && !AcceptsEnum(n, Str(s))
  {
    var n := o.(enumValues := values);
    var om, nm := map[f := o], map[f := n];
    assert Loosens(o, n);
    BelowHighExactlyWhenLoosening(om, nm);
    BelowHighKeepsEnumIff(om, nm, f);
    var s := LongerThanAll(values);
    assert AcceptsEnum(o, Str(s)) && !AcceptsEnum(n, Str(s));
    EnumChangeIsMedium(f, o, n, om, nm);
  }

  lemma EnumChangeIsMedium(f: string, o: FieldSpec, n: FieldSpec, om: map<string, FieldSpec>,
                           nm: map<string, FieldSpec>)
    requires om == map[f := o] && nm == map[f := n] && o.enumValues != n.enumValues
    ensures Rank(ClassifyModified(DiffFields(om, nm))) >= Rank(Medium)
  {
    var c := ChangeOf(OfEnum, f, o, n);
    DiffOneFieldMembers(f, o, n);
    assert Differs(OfEnum, o, n);
    DiffFieldsMembers(om, nm, c);
    ClassifyModifiedBounds(DiffFields(om, nm));
    assert Rank(ClassifyField(c)) >= Rank(Medium);
  }
}
