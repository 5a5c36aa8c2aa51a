/** What each of the five tiers says about the two schemas, and where a change stands in the diff
    (termin_core/migrations/classifier.py). */
module TierLaws {
  import opened Basics
  import opened Classifier
  import opened Widening
  import FoldSoundness
  import RenameLaws

  // ------------------------------------------------------------ what the tiers mean, in schema terms

  /** No value is lost: the same type, a whole number as a number, or anything the table knows as text. */
  predicate LosesNothing(from: BusinessType, to: BusinessType) {
    || from == to
    || (from == WholeNumber && to == Number)
    || (to == Text && from in {WholeNumber, Number, Currency, Percentage, Date, DateTime, Boolean, Enum})
  }

  /** Conversions the operator cannot accept: a type that loses values, a reference added or redirected. */
  ghost predicate BlockedPair(o: FieldSpec, n: FieldSpec) {
    || !LosesNothing(o.businessType, n.businessType)
    || (n.foreignKey.Some? && n.foreignKey != o.foreignKey)
  }

  /** Stored rows may break the new rule: a value is missing, repeated, out of bounds or off the list, or deletes
      cascade differently. */
  ghost predicate HighPair(o: FieldSpec, n: FieldSpec) {
    || (n.required && !o.required)
    || (n.unique && !o.unique)
    || (n.minimum.Some? && (o.minimum.None? || o.minimum.value < n.minimum.value))
    || (n.maximum.Some? && (o.maximum.None? || n.maximum.value < o.maximum.value))
    || (exists v :: v in o.enumValues && v !in n.enumValues)
    || n.cascadeMode != o.cascadeMode
  }

  /** The specs agree on everything that is compared: all but the name and the default. */
  ghost predicate SamePair(o: FieldSpec, n: FieldSpec) {
    && o.businessType == n.businessType && o.required == n.required && o.unique == n.unique
    && o.minimum == n.minimum && o.maximum == n.maximum && o.enumValues == n.enumValues
    && o.cascadeMode == n.cascadeMode && o.foreignKey == n.foreignKey
  }

  ghost predicate SomeBlocked(o: map<string, FieldSpec>, n: map<string, FieldSpec>) {
    || (exists f :: f in o && f !in n)
    || (exists f :: f in n && f !in o && n[f].foreignKey.Some? && n[f].foreignKey != Some(""))
    || (exists f :: f in o && f in n && BlockedPair(o[f], n[f]))
  }

  ghost predicate SomeHigh(o: map<string, FieldSpec>, n: map<string, FieldSpec>) {
    exists f :: f in o && f in n && HighPair(o[f], n[f])
  }

  ghost predicate SomeMedium(o: map<string, FieldSpec>, n: map<string, FieldSpec>) {
    || (exists f :: f in n && f !in o && (n[f].unique || (n[f].required && n[f].defaultExpr.None?)))
    || (exists f :: f in o && f in n && !SamePair(o[f], n[f]))
  }

  // ------------------------------------------------------------ attribute by attribute

  ghost predicate Reports(a: Attribute, o: FieldSpec, n: FieldSpec, t: Tier) {
    Differs(a, o, n) && ClassifyField(ChangeOf(a, "", o, n)) == t
  }

  lemma EnumTier(o: FieldSpec, n: FieldSpec)
    ensures Reports(OfEnum, o, n, High) <==> exists v :: v in o.enumValues && v !in n.enumValues
    ensures !Reports(OfEnum, o, n, Blocked)
  {
    WithoutNothing(o.enumValues, n.enumValues);
  }

  lemma BlockedByAttribute(o: FieldSpec, n: FieldSpec)
    ensures (exists a :: Reports(a, o, n, Blocked)) <==> BlockedPair(o, n)
  {
    EnumTier(o, n);
    if BlockedPair(o, n) {
      assert Reports(OfType, o, n, Blocked) || Reports(OfForeignKey, o, n, Blocked);
    }
  }

  lemma HighByAttribute(o: FieldSpec, n: FieldSpec)
    ensures (exists a :: Reports(a, o, n, High)) <==> HighPair(o, n)
  {
    EnumTier(o, n);
    if HighPair(o, n) {
      assert Reports(OfRequired, o, n, High) || Reports(OfUnique, o, n, High) || Reports(OfBounds, o, n, High)
          || Reports(OfEnum, o, n, High) || Reports(OfCascade, o, n, High);
    }
  }

  lemma SomeAttributeDiffers(o: FieldSpec, n: FieldSpec)
    ensures (exists a :: Differs(a, o, n)) <==> !SamePair(o, n)
  {
    if !SamePair(o, n) {
      assert Differs(OfType, o, n) || Differs(OfRequired, o, n) || Differs(OfUnique, o, n) || Differs(OfBounds, o, n)
          || Differs(OfEnum, o, n) || Differs(OfCascade, o, n) || Differs(OfForeignKey, o, n);
    }
  }

  lemma NoAttributeIsLow(a: Attribute, name: string, o: FieldSpec, n: FieldSpec)
    ensures var t := ClassifyField(ChangeOf(a, name, o, n));
            t == ClassifyField(ChangeOf(a, "", o, n)) && t in {Medium, High, Blocked}
  {
  }

  // ------------------------------------------------------------ the tier of a modified content

  ghost predicate Occurs(cs: seq<FieldChange>, t: Tier) {
    exists c :: c in cs && ClassifyField(c) == t
  }

  /** The attribute of a kept field behind one of its changes. */
  lemma KeptChange(o: map<string, FieldSpec>, n: map<string, FieldSpec>, c: FieldChange) returns (a: Attribute)
    requires c in DiffFields(o, n) && c.field in o && c.field in n
    ensures Reports(a, o[c.field], n[c.field], ClassifyField(c)) && ClassifyField(c) in {Medium, High, Blocked}
  {
    DiffFieldsMembers(o, n, c);
    DiffOneFieldMembers(c.field, o[c.field], n[c.field]);
    a :| Differs(a, o[c.field], n[c.field]) && c == ChangeOf(a, c.field, o[c.field], n[c.field]);
    NoAttributeIsLow(a, c.field, o[c.field], n[c.field]);
  }

  lemma KeptReports(o: map<string, FieldSpec>, n: map<string, FieldSpec>, f: string, a: Attribute)
    requires f in o && f in n && Differs(a, o[f], n[f])
    ensures Occurs(DiffFields(o, n), ClassifyField(ChangeOf(a, "", o[f], n[f])))
  {
    var c := ChangeOf(a, f, o[f], n[f]);
    DiffOneFieldMembers(f, o[f], n[f]);
    DiffOneFieldNames(f, o[f], n[f], c);
    DiffFieldsMembers(o, n, c);
    NoAttributeIsLow(a, f, o[f], n[f]);
    assert c in DiffFields(o, n) && ClassifyField(c) == ClassifyField(ChangeOf(a, "", o[f], n[f]));
  }

  lemma AddedReports(o: map<string, FieldSpec>, n: map<string, FieldSpec>, f: string)
    requires f in n && f !in o
    ensures Occurs(DiffFields(o, n), ClassifyAdded(n[f]))
  {
    var c := Added(f, n[f]);
    DiffFieldsMembers(o, n, c);
    assert c in DiffFields(o, n) && ClassifyField(c) == ClassifyAdded(n[f]);
  }

  lemma BlockedOccurs(o: map<string, FieldSpec>, n: map<string, FieldSpec>)
    ensures Occurs(DiffFields(o, n), Blocked) <==> SomeBlocked(o, n)
  {
    var cs := DiffFields(o, n);
    hide DiffFields, ChangeOf, Differs;
    if Occurs(cs, Blocked) {
      var c :| c in cs && ClassifyField(c) == Blocked;
      DiffFieldsMembers(o, n, c);
      if c.field in o && c.field in n {
        var a := KeptChange(o, n, c);
        BlockedByAttribute(o[c.field], n[c.field]);
      }
    }
    if f :| f in o && f !in n {
      DiffFieldsMembers(o, n, Removed(f));
      assert Removed(f) in cs && ClassifyField(Removed(f)) == Blocked;
    }
    if f :| f in n && f !in o && n[f].foreignKey.Some? && n[f].foreignKey != Some("") {
      AddedReports(o, n, f);
    }
    if f :| f in o && f in n && BlockedPair(o[f], n[f]) {
      BlockedByAttribute(o[f], n[f]);
      var a :| Reports(a, o[f], n[f], Blocked);
      KeptReports(o, n, f, a);
    }
  }

  lemma HighOccurs(o: map<string, FieldSpec>, n: map<string, FieldSpec>)
    ensures Occurs(DiffFields(o, n), High) <==> SomeHigh(o, n)
  {
    var cs := DiffFields(o, n);
    hide DiffFields, ChangeOf, Differs;
    if Occurs(cs, High) {
      var c :| c in cs && ClassifyField(c) == High;
      DiffFieldsMembers(o, n, c);
      var a := KeptChange(o, n, c);
      HighByAttribute(o[c.field], n[c.field]);
    }
    if f :| f in o && f in n && HighPair(o[f], n[f]) {
      HighByAttribute(o[f], n[f]);
      var a :| Reports(a, o[f], n[f], High);
      KeptReports(o, n, f, a);
    }
  }

  /** Anything above "safe". */
  ghost predicate AboveSafe(cs: seq<FieldChange>) {
    Occurs(cs, Low) || Occurs(cs, Medium) || Occurs(cs, High) || Occurs(cs, Blocked)
  }

  lemma AboveSafeOccurs(o: map<string, FieldSpec>, n: map<string, FieldSpec>)
    ensures AboveSafe(DiffFields(o, n)) <==> SomeBlocked(o, n) || SomeMedium(o, n)
    ensures !Occurs(DiffFields(o, n), Low)
  {
    var cs := DiffFields(o, n);
    BlockedOccurs(o, n);
    hide DiffFields, ChangeOf, Differs;
    forall c | c in cs
      ensures !ClassifyField(c).Low? && (!ClassifyField(c).Safe? ==> SomeBlocked(o, n) || SomeMedium(o, n))
    {
      DiffFieldsMembers(o, n, c);
      if c.field in o && c.field in n {
        var a := KeptChange(o, n, c);
        SomeAttributeDiffers(o[c.field], n[c.field]);
      }
    }
    if f :| f in n && f !in o && (n[f].unique || (n[f].required && n[f].defaultExpr.None?)) {
      AddedReports(o, n, f);
    }
    if f :| f in o && f in n && !SamePair(o[f], n[f]) {
      SomeAttributeDiffers(o[f], n[f]);
      var a :| Differs(a, o[f], n[f]);
      KeptReports(o, n, f, a);
      NoAttributeIsLow(a, "", o[f], n[f]);
    }
  }

  /** The tier of a list is the highest that occurs in it. */
  lemma TierIsHighest(cs: seq<FieldChange>)
    ensures var t := ClassifyModified(cs);
            && (t.Blocked? <==> Occurs(cs, Blocked))
            && (t.High? <==> Occurs(cs, High) && !Occurs(cs, Blocked))
            && (t.Medium? <==> Occurs(cs, Medium) && !Occurs(cs, High) && !Occurs(cs, Blocked))
            && (t.Low? <==> Occurs(cs, Low) && !Occurs(cs, Medium) && !Occurs(cs, High) && !Occurs(cs, Blocked))
  {
    hide ClassifyField;
    ClassifyModifiedBounds(cs);
    if cs == [] { WorstIsLeastUpperBound(FieldTiers(cs)); }
  }

  /** The tier of a modified content, read off its two schemas. Blocked: a field is lost, an added field is a reference,
      a kept field's type change loses values or its reference is added or redirected. High, if not blocked: a kept
      field became required or unique, lost values of its list, got a tighter bound or another cascade mode. Medium, if
      neither: an added field is unique, or required without a default, or a kept field changed at all. Otherwise safe;
      never low. */
  lemma TierOfModifiedIff(o: map<string, FieldSpec>, n: map<string, FieldSpec>)
    ensures var t := ClassifyModified(DiffFields(o, n));
            && (t.Blocked? <==> SomeBlocked(o, n))
            && (t.High? <==> SomeHigh(o, n) && !SomeBlocked(o, n))
            && (t.Medium? <==> SomeMedium(o, n) && !SomeHigh(o, n) && !SomeBlocked(o, n))
            && (t.Safe? <==> !SomeMedium(o, n) && !SomeHigh(o, n) && !SomeBlocked(o, n))
  {
    BlockedOccurs(o, n);
    HighOccurs(o, n);
    AboveSafeOccurs(o, n);
    TierIsHighest(DiffFields(o, n));
    SomeHighIsSomeMedium(o, n);
  }

  lemma SomeHighIsSomeMedium(o: map<string, FieldSpec>, n: map<string, FieldSpec>)
    ensures SomeHigh(o, n) ==> SomeMedium(o, n)
  {
    if SomeHigh(o, n) {
      var f :| f in o && f in n && HighPair(o[f], n[f]);
      assert !SamePair(o[f], n[f]);
    }
  }

  /** A renamed field that says its type changed is judged by the two types; one that says it did not is low. */
  lemma RenamedTier(field: string, from: string, typeChanged: bool, fromType: BusinessType, toType: BusinessType)
    ensures var t := ClassifyField(Renamed(field, from, typeChanged, fromType, toType));
            && (t.Low? <==> !typeChanged)
            && (t.Medium? <==> typeChanged && LosesNothing(fromType, toType))
            && (t.High? <==> typeChanged && !LosesNothing(fromType, toType))
  {
  }

  // ------------------------------------------------------------ which changes, and where

  /** Of two fields of one name the later counts. */
  lemma {:induction false} LastFieldWins(fields: seq<FieldSpec>, k: nat)
    requires k < |fields| && forall j :: k < j < |fields| ==> fields[j].name != fields[k].name
    ensures Lookup(FieldsByName(fields), fields[k].name) == Some(fields[k])
  {
    if k < |fields| - 1 {
      assert fields[|fields| - 1].name != fields[k].name;
      LastFieldWins(fields[..|fields| - 1], k);
    }
  }

  lemma {:induction false} NoOtherField(fields: seq<FieldSpec>, name: string)
    requires forall f :: f in fields ==> f.name != name
    ensures name !in FieldsByName(fields)
  {
    if fields != [] {
      NoOtherField(fields[..|fields| - 1], name);
    }
  }

  /** The same for contents. */
  lemma {:induction false} LastContentWins(schemas: seq<Schema>, k: nat)
    requires k < |schemas| && forall j :: k < j < |schemas| ==> schemas[j].name != schemas[k].name
    ensures Lookup(SchemasByName(schemas), schemas[k].name) == Some(schemas[k])
  {
    if k < |schemas| - 1 {
      assert schemas[|schemas| - 1].name != schemas[k].name;
      LastContentWins(schemas[..|schemas| - 1], k);
    }
  }

  lemma {:induction false} NoOtherContent(schemas: seq<Schema>, name: string)
    requires forall c :: c in schemas ==> c.name != name
    ensures name !in SchemasByName(schemas)
  {
    if schemas != [] {
      NoOtherContent(schemas[..|schemas| - 1], name);
    }
  }

  /** The computed diff holds a blocked removal for each content only the old side has, a safe addition for each only
      the new side has, one modification for each on both sides whose fields differ, and nothing else. */
  lemma DiffHoldsIff(o: map<string, Schema>, n: map<string, Schema>, c: ContentChange)
    ensures c in DiffContents(o, n) <==>
              match c
              case ContentRemoved(name, tier) => name in o && name !in n && tier == Blocked
              case ContentAdded(name, tier, schema) => name in n && name !in o && tier == Safe && schema == n[name]
              case ContentModified(name, tier, schema, changes) =>
                && name in o && name in n && schema == n[name] && changes != []
                && changes == DiffFields(FieldsByName(o[name].fields), FieldsByName(n[name].fields))
                && tier == ClassifyModified(changes)
              case ContentRenamed(_, _, _, _) => false
  {
    if c in DiffContents(o, n) {
      RenameLaws.ComputedDiffShape(o, n);
      ModifiedAreNotEmpty(InBoth(o, n), o, n);
    } else {
      match c
      case ContentRemoved(name, _) => if name in o && name !in n { FoldSoundness.RemovedContentIsThere(o, n, name); }
      case ContentAdded(name, _, _) => if name in n && name !in o { FoldSoundness.AddedContentIsThere(o, n, name); }
      case ContentModified(name, _, _, changes) =>
        if && name in o && name in n && changes != []
           && changes == DiffFields(FieldsByName(o[name].fields), FieldsByName(n[name].fields)) {
          var d := FoldSoundness.ModifiedIsInDiff(o, n, name);
        }
      case ContentRenamed(_, _, _, _) =>
    }
  }

  lemma {:induction false} ModifiedAreNotEmpty(names: seq<string>, o: map<string, Schema>, n: map<string, Schema>)
    requires forall x :: x in names ==> x in o && x in n
    ensures forall c :: c in ModifiedContents(names, o, n) ==>
              c.ContentModified? && c.changes != [] && c.content in names
  {
    if names != [] {
      ModifiedAreNotEmpty(names[..|names| - 1], o, n);
    }
  }

  function ContentPart(c: ContentChange): nat {
    match c
    case ContentRemoved(_, _) => 0
    case ContentAdded(_, _, _) => 1
    case _ => 2
  }

  ghost predicate ContentOrder(a: ContentChange, b: ContentChange) {
    ContentPart(a) < ContentPart(b) || (ContentPart(a) == ContentPart(b) && StringLeq(a.content, b.content))
  }

  ghost predicate Ordered<T(!new)>(xs: seq<T>, before: (T, T) -> bool) {
    forall i, j :: 0 <= i < j < |xs| ==> before(xs[i], xs[j])
  }

  lemma OrderedConcat<T(!new)>(xs: seq<T>, ys: seq<T>, before: (T, T) -> bool)
    requires Ordered(xs, before) && Ordered(ys, before)
    requires forall x, y :: x in xs && y in ys ==> before(x, y)
    ensures Ordered(xs + ys, before)
  {
    var r := xs + ys;
    forall i, j | 0 <= i < j < |r| ensures before(r[i], r[j]) {
      if i < |xs| <= j { assert r[i] in xs && r[j] in ys; }
    }
  }

  /** Removals come first, then additions, then modifications, each in ascending order of the content names. */
  lemma DiffIsOrdered(o: map<string, Schema>, n: map<string, Schema>)
    ensures Ordered(DiffContents(o, n), ContentOrder)
  {
    var removed, added, kept := OnlyIn(o, n), OnlyIn(n, o), InBoth(o, n);
    var a, b, k := RemovedContents(removed), AddedContents(added, n), ModifiedContents(kept, o, n);
    ModifiedAreOrdered(kept, o, n);
    ModifiedAreNotEmpty(kept, o, n);
    forall i, j | 0 <= i < j < |a| ensures ContentOrder(a[i], a[j]) {
      assert StringLeq(removed[i], removed[j]);
    }
    forall i, j | 0 <= i < j < |b| ensures ContentOrder(b[i], b[j]) {
      assert StringLeq(added[i], added[j]);
    }
    OrderedConcat(a, b, ContentOrder);
    OrderedConcat(a + b, k, ContentOrder);
  }

  lemma {:induction false} ModifiedAreOrdered(names: seq<string>, o: map<string, Schema>, n: map<string, Schema>)
    requires Ascending(names) && forall x :: x in names ==> x in o && x in n
    ensures Ordered(ModifiedContents(names, o, n), ContentOrder)
  {
    if names != [] {
      var front, last := names[..|names| - 1], names[|names| - 1];
      FrontAscends(names, front, last);
      ModifiedAreOrdered(front, o, n);
      ModifiedAreNotEmpty(front, o, n);
      RenameLaws.ModifiedContentShape(last, o, n);
      var k, m := ModifiedContents(front, o, n), ModifiedContent(last, o[last], n[last]);
      forall x, y | x in k && y in m ensures ContentOrder(x, y) {}
      OrderedConcat(k, m, ContentOrder);
    }
  }

  lemma FrontAscends(names: seq<string>, front: seq<string>, last: string)
    requires Ascending(names) && names == front + [last]
    ensures Ascending(front) && forall x :: x in front ==> StringLeq(x, last)
  {
    forall i, j | 0 <= i < j < |front| ensures StringLeq(front[i], front[j]) {
      assert StringLeq(names[i], names[j]);
    }
    forall x | x in front ensures StringLeq(x, last) {
      var i :| 0 <= i < |front| && front[i] == x;
      assert StringLeq(names[i], names[|front|]);
    }
  }

  function FieldPart(c: FieldChange): nat {
    match c
    case Removed(_) => 0
    case Added(_, _) => 1
    case _ => 2
  }

  /** The order the attributes of one field are compared in. */
  function AttributeRank(c: FieldChange): nat {
    match c
    case TypeChanged(_, _, _) => 0
    case RequiredAdded(_) => 1
    case RequiredRemoved(_) => 1
    case UniqueAdded(_) => 2
    case UniqueRemoved(_) => 2
    case BoundsChanged(_, _, _, _) => 3
    case EnumValuesChanged(_, _, _) => 4
    case CascadeModeChanged(_, _) => 5
    case _ => 6
  }

  ghost predicate FieldOrder(a: FieldChange, b: FieldChange) {
    || FieldPart(a) < FieldPart(b)
    || (FieldPart(a) == FieldPart(b) && StringLeq(a.field, b.field)
        && (a.field == b.field ==> AttributeRank(a) < AttributeRank(b)))
  }

  /** Lost fields come first, then new ones, then the changes of kept fields, in ascending order of the names and, for
      one field, in the order of the attributes. */
  lemma FieldDiffIsOrdered(o: map<string, FieldSpec>, n: map<string, FieldSpec>)
    ensures Ordered(DiffFields(o, n), FieldOrder)
  {
    var removed, added, kept := OnlyIn(o, n), OnlyIn(n, o), InBoth(o, n);
    var a, b, k := RemovedFields(removed), AddedFields(added, n), KeptFields(kept, o, n);
    KeptAreOrdered(kept, o, n);
    forall i, j | 0 <= i < j < |a| ensures FieldOrder(a[i], a[j]) {
      assert StringLeq(removed[i], removed[j]) && removed[i] != removed[j];
    }
    forall i, j | 0 <= i < j < |b| ensures FieldOrder(b[i], b[j]) {
      assert StringLeq(added[i], added[j]) && added[i] != added[j];
    }
    OrderedConcat(a, b, FieldOrder);
    OrderedConcat(a + b, k, FieldOrder);
  }

  lemma {:induction false} KeptAreOrdered(names: seq<string>, o: map<string, FieldSpec>, n: map<string, FieldSpec>)
    requires NoDup(names) && Ascending(names) && forall x :: x in names ==> x in o && x in n
    ensures var k := KeptFields(names, o, n);
            Ordered(k, FieldOrder) && forall c :: c in k ==> FieldPart(c) == 2 && c.field in names
  {
    if names != [] {
      var front, last := names[..|names| - 1], names[|names| - 1];
      FrontAscends(names, front, last);
      KeptAreOrdered(front, o, n);
      var k, m := KeptFields(front, o, n), DiffOneField(last, o[last], n[last]);
      hide DiffOneField, StringLeq, AttributeRank, FieldPart;
      OneFieldIsOrdered(last, o[last], n[last]);
      assert last !in front;
      forall x, y | x in k && y in m ensures FieldOrder(x, y) {
        hide KeptFields;
        assert x.field in front && y.field == last;
      }
      OrderedConcat(k, m, FieldOrder);
    }
  }

  function Place(a: Attribute): nat {
    match a
    case OfType => 0
    case OfRequired => 1
    case OfUnique => 2
    case OfBounds => 3
    case OfEnum => 4
    case OfCascade => 5
    case OfForeignKey => 6
  }

  predicate Earlier(a: Attribute, b: Attribute) {
    Place(a) < Place(b)
  }

  lemma OneFieldIsOrdered(name: string, o: FieldSpec, n: FieldSpec)
    ensures var m := DiffOneField(name, o, n);
            Ordered(m, FieldOrder) && forall c :: c in m ==> FieldPart(c) == 2 && c.field == name
  {
    AttributesAreOrdered(ATTRIBUTES, name, o, n);
  }

  lemma ChangeHasItsPlace(a: Attribute, name: string, o: FieldSpec, n: FieldSpec)
    ensures var c := ChangeOf(a, name, o, n); FieldPart(c) == 2 && c.field == name && AttributeRank(c) == Place(a)
  {
  }

  lemma {:induction false} AttributesAreOrdered(attributes: seq<Attribute>, name: string, o: FieldSpec, n: FieldSpec)
    requires Ordered(attributes, Earlier)
    ensures var m := Differing(attributes, name, o, n);
            && Ordered(m, FieldOrder)
            && forall c :: c in m ==> FieldPart(c) == 2 && c.field == name && HasPlace(attributes, AttributeRank(c))
  {
    if attributes != [] {
      var a, rest := attributes[0], attributes[1..];
      assert forall i :: 0 <= i < |rest| ==> rest[i] == attributes[i + 1];
      AttributesAreOrdered(rest, name, o, n);
      StringLeqTotal(name, name);
      ChangeHasItsPlace(a, name, o, n);
      var head, tail := if Differs(a, o, n) then [ChangeOf(a, name, o, n)] else [], Differing(rest, name, o, n);
      hide ChangeOf, Differs, StringLeq;
      forall x, y | x in head && y in tail ensures FieldOrder(x, y) {}
      OrderedConcat(head, tail, FieldOrder);
    }
  }

  ghost predicate HasPlace(attributes: seq<Attribute>, k: nat) {
    exists i :: 0 <= i < |attributes| && Place(attributes[i]) == k
  }
}
