/** Schemas, the migration diff and its five-tier classification (termin_core/migrations/classifier.py). */
module Classifier {
  import opened Basics

  // ------------------------------------------------------------ schemas and changes

  /** `business_type`; the names the lossless table mentions, and any other. */
  datatype BusinessType =
    | WholeNumber | Number | Text | Currency | Percentage | Date | DateTime | Boolean | Enum
    | OtherType(name: string)

  datatype FieldSpec = FieldSpec(name: string, businessType: BusinessType, required: bool, unique: bool,
                                 minimum: Option<real>, maximum: Option<real>, enumValues: seq<string>,
                                 foreignKey: Option<string>, cascadeMode: Option<string>,
                                 defaultExpr: Option<string>)

  datatype Schema = Schema(name: string, fields: seq<FieldSpec>)

  datatype FieldChange =
    | Added(field: string, spec: FieldSpec)
    | Removed(field: string)
    | Renamed(field: string, from: string, typeChanged: bool, fromType: BusinessType, toType: BusinessType)
    | TypeChanged(field: string, fromType: BusinessType, toType: BusinessType)
    | RequiredAdded(field: string)
    | RequiredRemoved(field: string)
    | UniqueAdded(field: string)
    | UniqueRemoved(field: string)
    | BoundsChanged(field: string, toMin: Option<real>, toMax: Option<real>, tightening: bool)
    | EnumValuesChanged(field: string, added: seq<string>, removed: seq<string>)
    | CascadeModeChanged(field: string, toMode: Option<string>)
    | ForeignKeyChanged(field: string, fromKey: Option<string>, toKey: Option<string>)

  datatype Tier = Safe | Low | Medium | High | Blocked

  datatype ContentChange =
    | ContentAdded(content: string, tier: Tier, schema: Schema)
    | ContentRemoved(content: string, tier: Tier)
    | ContentRenamed(content: string, tier: Tier, schema: Schema, from: string)
    | ContentModified(content: string, tier: Tier, schema: Schema, changes: seq<FieldChange>)

  // ------------------------------------------------------------ tiers

  function Rank(t: Tier): nat {
    match t case Safe => 0 case Low => 1 case Medium => 2 case High => 3 case Blocked => 4
  }

  /** `worst_classification`: the maximum, `safe` when there is none. */
  function Worst(ts: seq<Tier>): Tier {
    if ts == [] then Safe
    else
      var w := Worst(ts[1..]);
      if Rank(ts[0]) >= Rank(w) then ts[0] else w
  }

  lemma {:induction false} WorstIsLeastUpperBound(ts: seq<Tier>)
    ensures forall t :: t in ts ==> Rank(t) <= Rank(Worst(ts))
    ensures ts == [] ==> Worst(ts) == Safe
    ensures ts != [] ==> Worst(ts) in ts
  {
    if ts != [] {
      WorstIsLeastUpperBound(ts[1..]);
      assert forall t :: t in ts <==> t == ts[0] || t in ts[1..];
    }
  }

  /** The worst tier of a list depends only on which tiers occur in it. */
  lemma WorstOfSameElements(ts: seq<Tier>, us: seq<Tier>)
    requires forall t :: t in ts <==> t in us
    ensures Worst(ts) == Worst(us)
  {
    WorstIsLeastUpperBound(ts);
    WorstIsLeastUpperBound(us);
    assert ts == [] <==> us == [] by {
      if ts != [] { assert ts[0] in ts; }
      if us != [] { assert us[0] in us; }
    }
    if ts != [] {
      assert Worst(ts) in us && Worst(us) in ts;
    }
  }

  // ------------------------------------------------------------ field classification

  predicate Lossless(from: BusinessType, to: BusinessType) {
    || from == to
    || (from.WholeNumber? && to.Number?)
    || (to.Text? && !from.OtherType?)
  }

  function ClassifyAdded(spec: FieldSpec): Tier {
    if spec.foreignKey.Some? && spec.foreignKey.value != "" then Blocked
    else if spec.unique then Medium
    else if spec.required && spec.defaultExpr.None? then Medium
    else Safe
  }

  function ClassifyField(c: FieldChange): Tier {
    match c
    case Added(_, spec) => ClassifyAdded(spec)
    case Removed(_) => Blocked
    case Renamed(_, _, typeChanged, from, to) =>
      if !typeChanged then Low else if Lossless(from, to) then Medium else High
    case TypeChanged(_, from, to) => if Lossless(from, to) then Medium else Blocked
    case RequiredAdded(_) => High
    case RequiredRemoved(_) => Medium
    case UniqueAdded(_) => High
    case UniqueRemoved(_) => Medium
    case BoundsChanged(_, _, _, tightening) => if tightening then High else Medium
    case EnumValuesChanged(_, _, removed) => if removed != [] then High else Medium
    case CascadeModeChanged(_, _) => High
    case ForeignKeyChanged(_, from, to) => if from.Some? && to.None? then Medium else Blocked
  }

  function FieldTiers(cs: seq<FieldChange>): seq<Tier> {
    seq(|cs|, i requires 0 <= i < |cs| => ClassifyField(cs[i]))
  }

  function ClassifyModified(cs: seq<FieldChange>): Tier {
    Worst(FieldTiers(cs))
  }

  lemma ClassifyModifiedBounds(cs: seq<FieldChange>)
    ensures forall c :: c in cs ==> Rank(ClassifyField(c)) <= Rank(ClassifyModified(cs))
    ensures cs != [] ==> exists c :: c in cs && ClassifyField(c) == ClassifyModified(cs)
  {
    WorstIsLeastUpperBound(FieldTiers(cs));
    forall c | c in cs ensures ClassifyField(c) in FieldTiers(cs) {
      var i :| 0 <= i < |cs| && cs[i] == c;
      assert FieldTiers(cs)[i] == ClassifyField(c);
    }
    if cs != [] {
      var i :| 0 <= i < |cs| && FieldTiers(cs)[i] == ClassifyModified(cs);
      assert cs[i] in cs;
    }
  }

  // ------------------------------------------------------------ the diff

  /** `{f["name"]: f for f in fields}`: the last field of a name wins. */
  function FieldsByName(fields: seq<FieldSpec>): map<string, FieldSpec> {
    if fields == [] then map[]
    else FieldsByName(fields[..|fields| - 1])[fields[|fields| - 1].name := fields[|fields| - 1]]
  }

  function SchemasByName(schemas: seq<Schema>): map<string, Schema> {
    if schemas == [] then map[]
    else SchemasByName(schemas[..|schemas| - 1])[schemas[|schemas| - 1].name := schemas[|schemas| - 1]]
  }

  predicate Tightening(o: FieldSpec, n: FieldSpec) {
    || (n.minimum.Some? && (o.minimum.None? || n.minimum.value > o.minimum.value))
    || (n.maximum.Some? && (o.maximum.None? || n.maximum.value < o.maximum.value))
  }

  function Without(xs: seq<string>, ys: seq<string>): (r: seq<string>)
    ensures forall v :: v in r <==> v in xs && v !in ys
  {
    if xs == [] then []
    else
      var rest := Without(xs[1..], ys);
      assert forall v :: v in xs <==> v == xs[0] || v in xs[1..];
      if xs[0] in ys then rest else [xs[0]] + rest
  }

  /** The seven attributes a field is compared on. */
  datatype Attribute = OfType | OfRequired | OfUnique | OfBounds | OfEnum | OfCascade | OfForeignKey

  const ATTRIBUTES := [OfType, OfRequired, OfUnique, OfBounds, OfEnum, OfCascade, OfForeignKey]

  /** Does this attribute differ? */
  predicate Differs(a: Attribute, o: FieldSpec, n: FieldSpec) {
    match a
    case OfType => o.businessType != n.businessType
    case OfRequired => o.required != n.required
    case OfUnique => o.unique != n.unique
    case OfBounds => (o.minimum, o.maximum) != (n.minimum, n.maximum)
    case OfEnum => o.enumValues != n.enumValues
    case OfCascade => o.cascadeMode != n.cascadeMode
    case OfForeignKey => o.foreignKey != n.foreignKey
  }

  /** The change that reports it. */
  function ChangeOf(a: Attribute, name: string, o: FieldSpec, n: FieldSpec): FieldChange {
    match a
    case OfType => TypeChanged(name, o.businessType, n.businessType)
    case OfRequired => if n.required then RequiredAdded(name) else RequiredRemoved(name)
    case OfUnique => if n.unique then UniqueAdded(name) else UniqueRemoved(name)
    case OfBounds => BoundsChanged(name, n.minimum, n.maximum, Tightening(o, n))
    case OfEnum =>
      EnumValuesChanged(name, Without(n.enumValues, o.enumValues), Without(o.enumValues, n.enumValues))
    case OfCascade => CascadeModeChanged(name, n.cascadeMode)
    case OfForeignKey => ForeignKeyChanged(name, o.foreignKey, n.foreignKey)
  }

  /** The changes of those of the attributes that differ, in order. */
  function Differing(attributes: seq<Attribute>, name: string, o: FieldSpec, n: FieldSpec): seq<FieldChange> {
    if attributes == [] then []
    else
      (if Differs(attributes[0], o, n) then [ChangeOf(attributes[0], name, o, n)] else [])
      + Differing(attributes[1..], name, o, n)
  }

  function DiffOneField(name: string, o: FieldSpec, n: FieldSpec): seq<FieldChange> {
    Differing(ATTRIBUTES, name, o, n)
  }

  lemma {:induction false} DifferingMembers(attributes: seq<Attribute>, name: string, o: FieldSpec, n: FieldSpec)
    ensures forall a :: a in attributes && Differs(a, o, n) ==>
              ChangeOf(a, name, o, n) in Differing(attributes, name, o, n)
    ensures forall c :: c in Differing(attributes, name, o, n) ==>
              exists a :: Differs(a, o, n) && c == ChangeOf(a, name, o, n)
  {
    if attributes != [] {
      DifferingMembers(attributes[1..], name, o, n);
      assert forall a :: a in attributes ==> a == attributes[0] || a in attributes[1..];
    }
  }

  lemma AttributesAreAll()
    ensures NoDup(ATTRIBUTES) && forall a: Attribute :: a in ATTRIBUTES
  {
    forall a: Attribute ensures a in ATTRIBUTES {
      match a
      case OfType => assert ATTRIBUTES[0] == a;
      case OfRequired => assert ATTRIBUTES[1] == a;
      case OfUnique => assert ATTRIBUTES[2] == a;
      case OfBounds => assert ATTRIBUTES[3] == a;
      case OfEnum => assert ATTRIBUTES[4] == a;
      case OfCascade => assert ATTRIBUTES[5] == a;
      case OfForeignKey => assert ATTRIBUTES[6] == a;
    }
  }

  /** Membership in a one-field diff, attribute by attribute. */
  lemma DiffOneFieldMembers(name: string, o: FieldSpec, n: FieldSpec)
    ensures forall a :: Differs(a, o, n) ==> ChangeOf(a, name, o, n) in DiffOneField(name, o, n)
    ensures forall c :: c in DiffOneField(name, o, n) ==> exists a :: Differs(a, o, n) && c == ChangeOf(a, name, o, n)
  {
    DifferingMembers(ATTRIBUTES, name, o, n);
    AttributesAreAll();
  }

  lemma DiffOneFieldNames(name: string, o: FieldSpec, n: FieldSpec, c: FieldChange)
    requires c in DiffOneField(name, o, n)
    ensures c.field == name && !c.Added? && !c.Removed? && !c.Renamed?
  {
    DiffOneFieldMembers(name, o, n);
  }

  function RemovedFields(names: seq<string>): seq<FieldChange> {
    seq(|names|, i requires 0 <= i < |names| => Removed(names[i]))
  }

  function AddedFields(names: seq<string>, n: map<string, FieldSpec>): seq<FieldChange>
    requires forall x :: x in names ==> x in n
  {
    seq(|names|, i requires 0 <= i < |names| => Added(names[i], n[names[i]]))
  }

  function KeptFields(names: seq<string>, o: map<string, FieldSpec>, n: map<string, FieldSpec>): seq<FieldChange>
    requires forall x :: x in names ==> x in o && x in n
  {
    if names == [] then []
    else
      var last := names[|names| - 1];
      KeptFields(names[..|names| - 1], o, n) + DiffOneField(last, o[last], n[last])
  }

  /** `sorted(set(a) - set(b))` and `sorted(set(a) & set(b))`. */
  ghost function OnlyIn<T>(a: map<string, T>, b: map<string, T>): (r: seq<string>)
    ensures NoDup(r) && forall x :: x in r <==> x in a && x !in b
  {
    var r := Sorted(a.Keys - b.Keys);
    assert forall x :: x in r <==> x in Elements(r);
    r
  }

  ghost function InBoth<T>(a: map<string, T>, b: map<string, T>): (r: seq<string>)
    ensures NoDup(r) && forall x :: x in r <==> x in a && x in b
  {
    var r := Sorted(a.Keys * b.Keys);
    assert forall x :: x in r <==> x in Elements(r);
    r
  }

  ghost function DiffFields(o: map<string, FieldSpec>, n: map<string, FieldSpec>): seq<FieldChange> {
    RemovedFields(OnlyIn(o, n)) + AddedFields(OnlyIn(n, o), n) + KeptFields(InBoth(o, n), o, n)
  }

  function RemovedContents(names: seq<string>): seq<ContentChange> {
    seq(|names|, i requires 0 <= i < |names| => ContentRemoved(names[i], Blocked))
  }

  function AddedContents(names: seq<string>, n: map<string, Schema>): seq<ContentChange>
    requires forall x :: x in names ==> x in n
  {
    seq(|names|, i requires 0 <= i < |names| => ContentAdded(names[i], Safe, n[names[i]]))
  }

  ghost function ModifiedContent(name: string, o: Schema, n: Schema): seq<ContentChange> {
    var cs := DiffFields(FieldsByName(o.fields), FieldsByName(n.fields));
    if cs == [] then [] else [ContentModified(name, ClassifyModified(cs), n, cs)]
  }

  ghost function ModifiedContents(names: seq<string>, o: map<string, Schema>, n: map<string, Schema>)
    : seq<ContentChange>
    requires forall x :: x in names ==> x in o && x in n
  {
    if names == [] then []
    else
      var last := names[|names| - 1];
      ModifiedContents(names[..|names| - 1], o, n) + ModifiedContent(last, o[last], n[last])
  }

  ghost function DiffContents(o: map<string, Schema>, n: map<string, Schema>): seq<ContentChange> {
    RemovedContents(OnlyIn(o, n)) + AddedContents(OnlyIn(n, o), n) + ModifiedContents(InBoth(o, n), o, n)
  }

  // ------------------------------------------------------------ the code's loops

  method CollectRemovedFields(names: seq<string>) returns (changes: seq<FieldChange>)
    ensures changes == RemovedFields(names)
  {
    changes := [];
    for i := 0 to |names|
      invariant changes == RemovedFields(names)[..i]
    {
      changes := changes + [Removed(names[i])];
    }
  }

  method CollectAddedFields(names: seq<string>, n: map<string, FieldSpec>) returns (changes: seq<FieldChange>)
    requires forall x :: x in names ==> x in n
    ensures changes == AddedFields(names, n)
  {
    changes := [];
    for i := 0 to |names|
      invariant changes == AddedFields(names, n)[..i]
    {
      changes := changes + [Added(names[i], n[names[i]])];
    }
  }

  method CollectKeptFields(names: seq<string>, o: map<string, FieldSpec>, n: map<string, FieldSpec>)
    returns (changes: seq<FieldChange>)
    requires forall x :: x in names ==> x in o && x in n
    ensures changes == KeptFields(names, o, n)
  {
    changes := [];
    for i := 0 to |names|
      invariant changes == KeptFields(names[..i], o, n)
    {
      assert names[..i + 1][..i] == names[..i];
      changes := changes + DiffOneField(names[i], o[names[i]], n[names[i]]);
    }
    assert names[..|names|] == names;
  }

  /** `_diff_fields`. */
  method DiffFieldsLoop(before: Schema, after: Schema) returns (changes: seq<FieldChange>)
    ensures changes == DiffFields(FieldsByName(before.fields), FieldsByName(after.fields))
  {
    var o, n := FieldsByName(before.fields), FieldsByName(after.fields);
    var oldOnly := SortSet(o.Keys - n.Keys);
    var newOnly := SortSet(n.Keys - o.Keys);
    var both := SortSet(o.Keys * n.Keys);
    var removed := CollectRemovedFields(oldOnly);
    var added := CollectAddedFields(newOnly, n);
    var kept := CollectKeptFields(both, o, n);
    changes := removed + added + kept;
  }

  method CollectRemovedContents(names: seq<string>) returns (changes: seq<ContentChange>)
    ensures changes == RemovedContents(names)
  {
    changes := [];
    for i := 0 to |names|
      invariant changes == RemovedContents(names)[..i]
    {
      changes := changes + [ContentRemoved(names[i], Blocked)];
    }
  }

  method CollectAddedContents(names: seq<string>, n: map<string, Schema>) returns (changes: seq<ContentChange>)
    requires forall x :: x in names ==> x in n
    ensures changes == AddedContents(names, n)
  {
    changes := [];
    for i := 0 to |names|
      invariant changes == AddedContents(names, n)[..i]
    {
      changes := changes + [ContentAdded(names[i], Safe, n[names[i]])];
    }
  }

  method CompareContent(name: string, o: Schema, n: Schema) returns (changes: seq<ContentChange>)
    ensures changes == ModifiedContent(name, o, n)
  {
    var fieldChanges := DiffFieldsLoop(o, n);
    if fieldChanges == [] {
      return [];
    }
    changes := [ContentModified(name, ClassifyModified(fieldChanges), n, fieldChanges)];
  }

  method CollectModifiedContents(names: seq<string>, o: map<string, Schema>, n: map<string, Schema>)
    returns (changes: seq<ContentChange>)
    requires forall x :: x in names ==> x in o && x in n
    ensures changes == ModifiedContents(names, o, n)
  {
    changes := [];
    for i := 0 to |names|
      invariant changes == ModifiedContents(names[..i], o, n)
    {
      assert names[..i + 1][..i] == names[..i];
      var found := CompareContent(names[i], o[names[i]], n[names[i]]);
      changes := changes + found;
    }
    assert names[..|names|] == names;
  }

  /** `compute_migration_diff`; `None` is a first-ever deploy. */
  method ComputeMigrationDiff(current: Option<seq<Schema>>, target: seq<Schema>)
    returns (changes: seq<ContentChange>)
    ensures var before := if current.None? then [] else current.value;
            changes == DiffContents(SchemasByName(before), SchemasByName(target))
  {
    var o, n := SchemasByName(if current.None? then [] else current.value), SchemasByName(target);
    var oldOnly := SortSet(o.Keys - n.Keys);
    var newOnly := SortSet(n.Keys - o.Keys);
    var both := SortSet(o.Keys * n.Keys);
    var removed := CollectRemovedContents(oldOnly);
    var added := CollectAddedContents(newOnly, n);
    var modified := CollectModifiedContents(both, o, n);
    changes := removed + added + modified;
  }

  // ------------------------------------------------------------ what is in a diff

  lemma {:induction false} KeptFieldsMembers(names: seq<string>, o: map<string, FieldSpec>, n: map<string, FieldSpec>,
                                             c: FieldChange)
    requires forall x :: x in names ==> x in o && x in n
    ensures c in KeptFields(names, o, n) <==> c.field in names && c in DiffOneField(c.field, o[c.field], n[c.field])
  {
    if names != [] {
      var init, last := names[..|names| - 1], names[|names| - 1];
      KeptFieldsMembers(init, o, n, c);
      assert c.field in names <==> c.field == last || c.field in init;
      if c in DiffOneField(last, o[last], n[last]) {
        DiffOneFieldNames(last, o[last], n[last], c);
      }
    }
  }

  /** Membership in a computed field diff, change by change. */
  lemma DiffFieldsMembers(o: map<string, FieldSpec>, n: map<string, FieldSpec>, c: FieldChange)
    ensures c in DiffFields(o, n) <==>
              || (c.field in o && c.field !in n && c == Removed(c.field))
              || (c.field in n && c.field !in o && c == Added(c.field, n[c.field]))
              || (c.field in o && c.field in n && c in DiffOneField(c.field, o[c.field], n[c.field]))
  {
    var removed, added := OnlyIn(o, n), OnlyIn(n, o);
    KeptFieldsMembers(InBoth(o, n), o, n, c);
    assert c in RemovedFields(removed) <==> c.field in removed && c == Removed(c.field) by {
      if c.field in removed && c == Removed(c.field) {
        var i :| 0 <= i < |removed| && removed[i] == c.field;
        assert RemovedFields(removed)[i] == c;
      }
    }
    assert c in AddedFields(added, n) <==> c.field in added && c == Added(c.field, n[c.field]) by {
      if c.field in added && c == Added(c.field, n[c.field]) {
        var i :| 0 <= i < |added| && added[i] == c.field;
        assert AddedFields(added, n)[i] == c;
      }
    }
  }
}
