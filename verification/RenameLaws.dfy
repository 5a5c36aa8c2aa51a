/** What rename folding promises on the diffs the classifier computes. */
module RenameLaws {
  import opened Basics
  import opened Classifier
  import opened Renames

  // ------------------------------------------------------------ computed diffs have the shape folding needs

  lemma NoDupConcat<T>(a: seq<T>, b: seq<T>)
    requires NoDup(a) && NoDup(b) && forall x :: x in a ==> x !in b
    ensures NoDup(a + b)
  {
    forall i, j | 0 <= i < j < |a + b| ensures (a + b)[i] != (a + b)[j] {
      if i < |a| <= j { assert a[i] in a && b[j - |a|] in b; }
    }
  }

  lemma {:induction false} DifferingNoDup(attributes: seq<Attribute>, name: string, o: FieldSpec, n: FieldSpec)
    requires NoDup(attributes)
    ensures NoDup(Differing(attributes, name, o, n))
    ensures forall c :: c in Differing(attributes, name, o, n) ==>
              exists a :: a in attributes && c == ChangeOf(a, name, o, n)
  {
    if attributes != [] {
      var a, rest := attributes[0], attributes[1..];
      DifferingNoDup(rest, name, o, n);
      assert a !in rest && forall b :: b in attributes <==> b == a || b in rest;
      assert forall b :: b != a ==> ChangeOf(b, name, o, n) != ChangeOf(a, name, o, n);
      NoDupConcat(if Differs(a, o, n) then [ChangeOf(a, name, o, n)] else [], Differing(rest, name, o, n));
    }
  }

  lemma {:induction false} KeptFieldsNoDup(names: seq<string>, o: map<string, FieldSpec>, n: map<string, FieldSpec>)
    requires NoDup(names) && forall x :: x in names ==> x in o && x in n
    ensures NoDup(KeptFields(names, o, n))
  {
    if names != [] {
      var init, last := names[..|names| - 1], names[|names| - 1];
      KeptFieldsNoDup(init, o, n);
      AttributesAreAll();
      DifferingNoDup(ATTRIBUTES, last, o[last], n[last]);
      forall c | c in KeptFields(init, o, n) ensures c !in DiffOneField(last, o[last], n[last]) {
        KeptFieldsMembers(init, o, n, c);
        if c in DiffOneField(last, o[last], n[last]) {
          DiffOneFieldNames(last, o[last], n[last], c);
        }
      }
      NoDupConcat(KeptFields(init, o, n), DiffOneField(last, o[last], n[last]));
    }
  }

  lemma PartsNoDup(removed: seq<string>, added: seq<string>, kept: seq<string>,
                   o: map<string, FieldSpec>, n: map<string, FieldSpec>)
    requires NoDup(removed) && NoDup(added) && NoDup(kept)
    requires (forall x :: x in added ==> x in n) && forall x :: x in kept ==> x in o && x in n
    ensures NoDup(RemovedFields(removed) + AddedFields(added, n) + KeptFields(kept, o, n))
  {
    NoDupConcat(RemovedFields(removed), AddedFields(added, n));
    KeptFieldsNoDup(kept, o, n);
    forall c | c in RemovedFields(removed) + AddedFields(added, n) ensures c !in KeptFields(kept, o, n) {
      KeptFieldsMembers(kept, o, n, c);
      if c.field in kept && c in DiffOneField(c.field, o[c.field], n[c.field]) {
        DiffOneFieldNames(c.field, o[c.field], n[c.field], c);
      }
    }
    NoDupConcat(RemovedFields(removed) + AddedFields(added, n), KeptFields(kept, o, n));
  }

  lemma ComputedFieldsAreTidy(o: map<string, FieldSpec>, n: map<string, FieldSpec>)
    ensures TidyFields(DiffFields(o, n)) && forall c :: c in DiffFields(o, n) ==> !c.Renamed?
  {
    PartsNoDup(OnlyIn(o, n), OnlyIn(n, o), InBoth(o, n), o, n);
    forall c | c in DiffFields(o, n)
      ensures !c.Renamed? && (c.Added? ==> c.field !in o && c.field in n && c == Added(c.field, n[c.field]))
      ensures (c.Removed? ==> c.field !in n) && (c.TypeChanged? ==> c.field in n)
    {
      DiffFieldsMembers(o, n, c);
      if c.field in o && c.field in n {
        DiffOneFieldNames(c.field, o[c.field], n[c.field], c);
      }
    }
  }

  /** A change of a computed diff, by kind. */
  ghost predicate ComputedChange(o: map<string, Schema>, n: map<string, Schema>, c: ContentChange) {
    match c
    case ContentRemoved(name, tier) => name in o && name !in n && tier == Blocked
    case ContentAdded(name, tier, schema) => name in n && name !in o && tier == Safe && schema == n[name]
    case ContentModified(name, tier, schema, changes) =>
      && name in o && name in n && schema == n[name]
      && changes == DiffFields(FieldsByName(o[name].fields), FieldsByName(n[name].fields))
      && tier == ClassifyModified(changes)
    case ContentRenamed(_, _, _, _) => false
  }

  lemma ModifiedContentShape(name: string, o: map<string, Schema>, n: map<string, Schema>)
    requires name in o && name in n
    ensures |ModifiedContent(name, o[name], n[name])| <= 1
    ensures forall c :: c in ModifiedContent(name, o[name], n[name]) ==> c.content == name && ComputedChange(o, n, c)
  {
  }

  lemma {:induction false} ModifiedContentsShape(names: seq<string>, o: map<string, Schema>, n: map<string, Schema>)
    requires NoDup(names) && forall x :: x in names ==> x in o && x in n
    ensures DistinctContents(ModifiedContents(names, o, n))
    ensures forall c :: c in ModifiedContents(names, o, n) ==> c.content in names && ComputedChange(o, n, c)
  {
    if names != [] {
      var init, last := names[..|names| - 1], names[|names| - 1];
      ModifiedContentsShape(init, o, n);
      ModifiedContentShape(last, o, n);
      DistinctByName(ModifiedContents(init, o, n), ModifiedContent(last, o[last], n[last]), init, last);
    }
  }

  lemma DistinctByName(cs: seq<ContentChange>, ds: seq<ContentChange>, names: seq<string>, last: string)
    requires DistinctContents(cs) && |ds| <= 1 && last !in names
    requires (forall c :: c in cs ==> c.content in names) && forall d :: d in ds ==> d.content == last
    ensures DistinctContents(cs + ds)
  {
    var r := cs + ds;
    forall i, j | 0 <= i < j < |r| ensures r[i].content != r[j].content {
      assert r[i] in cs;
      if j >= |cs| { assert r[j] in ds; }
    }
  }

  lemma PartsShape(removed: seq<string>, added: seq<string>, kept: seq<string>,
                   o: map<string, Schema>, n: map<string, Schema>)
    requires NoDup(removed) && NoDup(added) && NoDup(kept)
    requires forall x :: x in removed ==> x in o && x !in n
    requires forall x :: x in added ==> x in n && x !in o
    requires forall x :: x in kept ==> x in o && x in n
    ensures var cs := RemovedContents(removed) + AddedContents(added, n) + ModifiedContents(kept, o, n);
            DistinctContents(cs) && forall c :: c in cs ==> ComputedChange(o, n, c)
  {
    ModifiedContentsShape(kept, o, n);
    var a, b, k := RemovedContents(removed), AddedContents(added, n), ModifiedContents(kept, o, n);
    forall c | c in a + b + k ensures ComputedChange(o, n, c) {}
    var cs: seq<ContentChange> := a + b + k;
    forall i, j | 0 <= i < j < |cs| ensures cs[i].content != cs[j].content {
      assert cs[i] in cs && cs[j] in cs;
    }
  }

  lemma ComputedDiffShape(o: map<string, Schema>, n: map<string, Schema>)
    ensures DistinctContents(DiffContents(o, n))
    ensures forall c :: c in DiffContents(o, n) ==> ComputedChange(o, n, c)
  {
    PartsShape(OnlyIn(o, n), OnlyIn(n, o), InBoth(o, n), o, n);
  }

  // ------------------------------------------------------------ when folding succeeds

  lemma ContentsThenFieldsTidy(o: map<string, Schema>, n: map<string, Schema>, contents: seq<ContentRename>,
                               fields: seq<FieldRename>)
    requires ValidContentRenames(contents) && RenameContents(DiffContents(o, n), contents).Some?
    ensures var cs, next := DiffContents(o, n), RenameContents(DiffContents(o, n), contents).value;
            && TidyContents(next, fields)
            && (forall c: ContentChange :: c.ContentModified? ==> (c in next <==> c in cs))
            && forall m: FieldRename :: PairPresent(next, m) <==> PairPresent(cs, m)
  {
    var cs, next := DiffContents(o, n), RenameContents(DiffContents(o, n), contents).value;
    ComputedDiffShape(o, n);
    ContentRenamesExact(cs, contents);
    forall c: ContentChange | c.ContentModified? ensures c in next <==> c in cs {
      assert BelongsAfter(cs, contents, c) <==> c in cs;
    }
    forall c | c in next && c.ContentModified?
      ensures TidyFields(c.changes) && forall d :: d in c.changes ==> !d.Renamed?
    {
      ComputedFieldsAreTidy(FieldsByName(o[c.content].fields), FieldsByName(n[c.content].fields));
    }
  }

  /** Folding a computed diff with a valid mapping succeeds exactly when every mapping names a removed/added
      pair of the original diff, whatever the order of the mappings. */
  lemma FoldingSucceedsIff(o: map<string, Schema>, n: map<string, Schema>, fields: seq<FieldRename>,
                           contents: seq<ContentRename>)
    requires ValidContentRenames(contents) && ValidFieldRenames(fields)
    ensures Folded(DiffContents(o, n), fields, contents).Success? <==>
              && (forall m :: m in contents ==> HasPair(DiffContents(o, n), m))
              && (forall m :: m in fields ==> PairPresent(DiffContents(o, n), m))
  {
    ComputedDiffShape(o, n);
    ContentRenamesExact(DiffContents(o, n), contents);
    if RenameContents(DiffContents(o, n), contents).Some? {
      ContentsThenFieldsTidy(o, n, contents, fields);
      FieldRenamesExact(RenameContents(DiffContents(o, n), contents).value, fields);
    }
  }

  /** Although contents are folded first, a field mapping can never reach a renamed content: a renamed content
      is not a modified one, so the whole fold is refused. */
  lemma FieldRenameOfRenamedContentFails(o: map<string, Schema>, n: map<string, Schema>, fields: seq<FieldRename>,
                                         contents: seq<ContentRename>, m: FieldRename, c: ContentRename)
    requires ValidContentRenames(contents) && ValidFieldRenames(fields)
    requires m in fields && c in contents && (m.content == c.to || m.content == c.from)
    ensures Folded(DiffContents(o, n), fields, contents) == Failure(NoMatchingPair)
  {
    FoldingSucceedsIff(o, n, fields, contents);
    ComputedDiffShape(o, n);
    var cs := DiffContents(o, n);
    assert forall x :: x in cs && IsModified(x, m.content) ==> m.content in o && m.content in n;
    assert forall r :: r in cs && IsRemoved(r, c.from) ==> c.from !in n;
    assert forall a :: a in cs && IsAdded(a, c.to) ==> c.to !in o;
  }

  // ------------------------------------------------------------ order, conservation, tiers

  lemma SameTiersSameClass(cs: seq<FieldChange>, ds: seq<FieldChange>)
    requires forall c :: c in cs <==> c in ds
    ensures ClassifyModified(cs) == ClassifyModified(ds)
  {
    forall t | t in FieldTiers(cs) ensures t in FieldTiers(ds) { TierWitness(cs, ds, t); }
    forall t | t in FieldTiers(ds) ensures t in FieldTiers(cs) { TierWitness(ds, cs, t); }
    WorstOfSameElements(FieldTiers(cs), FieldTiers(ds));
  }

  lemma TierWitness(cs: seq<FieldChange>, ds: seq<FieldChange>, t: Tier)
    requires t in FieldTiers(cs) && forall c :: c in cs ==> c in ds
    ensures t in FieldTiers(ds)
  {
    var i :| 0 <= i < |cs| && FieldTiers(cs)[i] == t;
    assert cs[i] in ds;
    var j :| 0 <= j < |ds| && ds[j] == cs[i];
    assert FieldTiers(ds)[j] == t;
  }

  /** The two changes differ at most in the order of their field changes. */
  ghost predicate SameUpToOrder(a: ContentChange, b: ContentChange) {
    || a == b
    || (&& a.ContentModified? && b.ContentModified? && a.content == b.content && a.schema == b.schema
        && a.tier == b.tier && multiset(a.changes) == multiset(b.changes))
  }

  /** The order of the field mappings does not matter, content by content. */
  lemma FieldRenamesCommute(cs: seq<ContentChange>, ms: seq<FieldRename>, ns: seq<FieldRename>)
    requires ValidFieldRenames(ms) && ValidFieldRenames(ns) && multiset(ms) == multiset(ns)
    requires TidyContents(cs, ms)
    ensures RenameFields(cs, ms).Some? <==> RenameFields(cs, ns).Some?
    ensures RenameFields(cs, ms).Some? ==>
              var r, q := RenameFields(cs, ms).value, RenameFields(cs, ns).value;
              |r| == |q| == |cs| && forall i :: 0 <= i < |cs| ==> SameUpToOrder(r[i], q[i])
  {
    assert forall m :: m in ms <==> m in multiset(ms);
    assert forall m :: m in ns <==> m in multiset(ns);
    assert TidyContents(cs, ns);
    FieldRenamesExact(cs, ms);
    FieldRenamesExact(cs, ns);
    if RenameFields(cs, ms).Some? {
      var r, q := RenameFields(cs, ms).value, RenameFields(cs, ns).value;
      forall i | 0 <= i < |cs| ensures SameUpToOrder(r[i], q[i]) {
        assert FoldedInto(cs[i], ms, r[i]) && FoldedInto(cs[i], ns, q[i]);
        SameFoldSameChange(cs[i], ms, ns, r[i], q[i]);
      }
    }
  }

  /** Every change of the one list has a counterpart in the other, and each list names a content once. */
  ghost predicate SameChanges(r: seq<ContentChange>, q: seq<ContentChange>) {
    && |r| == |q| && DistinctContents(r) && DistinctContents(q)
    && (forall a :: a in r ==> HasCounterpart(a, q))
    && (forall b :: b in q ==> HasCounterpart(b, r))
  }

  ghost predicate HasCounterpart(a: ContentChange, q: seq<ContentChange>) {
    exists b :: b in q && SameUpToOrder(a, b)
  }

  /** On a computed diff the order of the content mappings and of the field mappings does not matter: the same
      changes come out with the same tiers. */
  lemma FoldingIsOrderFree(o: map<string, Schema>, n: map<string, Schema>,
                           fields: seq<FieldRename>, otherFields: seq<FieldRename>,
                           contents: seq<ContentRename>, otherContents: seq<ContentRename>)
    requires ValidContentRenames(contents) && ValidFieldRenames(fields)
    requires ValidContentRenames(otherContents) && ValidFieldRenames(otherFields)
    requires multiset(contents) == multiset(otherContents) && multiset(fields) == multiset(otherFields)
    ensures var r := Folded(DiffContents(o, n), fields, contents);
            var q := Folded(DiffContents(o, n), otherFields, otherContents);
            && (r.Success? <==> q.Success?)
            && (r.Success? ==> SameChanges(r.value, q.value))
  {
    var cs := DiffContents(o, n);
    SameMembers(contents, otherContents);
    SameMembers(fields, otherFields);
    FoldingSucceedsIff(o, n, fields, contents);
    FoldingSucceedsIff(o, n, otherFields, otherContents);
    if Folded(cs, fields, contents).Success? {
      ComputedDiffShape(o, n);
      ContentRenamesCommute(cs, contents, otherContents);
      ContentsThenFieldsTidy(o, n, contents, fields);
      ContentsThenFieldsTidy(o, n, otherContents, otherFields);
      var a, b := RenameContents(cs, contents).value, RenameContents(cs, otherContents).value;
      SameMembers(a, b);
      assert |a| == |multiset(a)| == |multiset(b)| == |b|;
      FoldsMatch(a, b, fields, otherFields);
      FoldsMatch(b, a, otherFields, fields);
    }
  }

  lemma SameMembers<T>(xs: seq<T>, ys: seq<T>)
    requires multiset(xs) == multiset(ys)
    ensures forall x :: x in xs <==> x in ys
  {
    forall x ensures x in xs <==> x in ys { assert x in multiset(xs) <==> x in multiset(ys); }
  }

  lemma FoldsMatch(a: seq<ContentChange>, b: seq<ContentChange>, ms: seq<FieldRename>, ns: seq<FieldRename>)
    requires ValidFieldRenames(ms) && ValidFieldRenames(ns) && TidyContents(a, ms) && TidyContents(b, ns)
    requires (forall c :: c in a <==> c in b) && (forall m :: m in ms <==> m in ns)
    requires RenameFields(a, ms).Some? && RenameFields(b, ns).Some?
    ensures |RenameFields(a, ms).value| == |a| && DistinctContents(RenameFields(a, ms).value)
    ensures forall x :: x in RenameFields(a, ms).value ==> HasCounterpart(x, RenameFields(b, ns).value)
  {
    FieldRenamesExact(a, ms);
    FieldRenamesExact(b, ns);
    var r, q := RenameFields(a, ms).value, RenameFields(b, ns).value;
    forall i | 0 <= i < |a| ensures r[i].content == a[i].content && HasCounterpart(r[i], q) {
      assert FoldedInto(a[i], ms, r[i]);
      assert a[i] in b;
      var j :| 0 <= j < |b| && b[j] == a[i];
      assert FoldedInto(b[j], ns, q[j]);
      SameFoldSameChange(a[i], ms, ns, r[i], q[j]);
    }
  }

  lemma SameFoldSameChange(before: ContentChange, ms: seq<FieldRename>, ns: seq<FieldRename>, a: ContentChange,
                           b: ContentChange)
    requires forall m :: m in ms <==> m in ns
    requires FoldedInto(before, ms, a) && FoldedInto(before, ns, b)
    ensures SameUpToOrder(a, b)
  {
    if before.ContentModified? {
      assert Touched(ms, before.content) <==> Touched(ns, before.content);
      if Touched(ms, before.content) {
        forall c ensures c in a.changes <==> c in b.changes {
          assert FieldBelongs(before, ms, c) <==> FieldBelongs(before, ns, c);
        }
        SameTiersSameClass(a.changes, b.changes);
        assert Elements(a.changes) == Elements(b.changes);
        NoDupSameElementsSamePermutation(a.changes, b.changes);
      }
    }
  }

  /** A fold never makes a content's tier worse: a pair it uses up was "blocked". */
  lemma FoldingNeverWorsens(before: ContentChange, ms: seq<FieldRename>, after: ContentChange)
    requires FoldedInto(before, ms, after)
    requires before.ContentModified? ==>
               && before.tier == ClassifyModified(before.changes)
               && forall m :: m in ms && m.content == before.content ==> HasFieldPair(before.changes, m)
    ensures Rank(after.tier) <= Rank(before.tier)
  {
    if before.ContentModified? && Touched(ms, before.content) {
      var m :| m in ms && m.content == before.content;
      var c :| c in before.changes && IsRemovedField(c, m.from);
      ClassifyModifiedBounds(before.changes);
      assert Rank(ClassifyField(c)) == Rank(Blocked);
    }
  }

  // ------------------------------------------------------------ where a rename stands

  lemma DropBothKeepsOrder<T>(xs: seq<T>, lo: nat, hi: nat)
    requires lo < hi < |xs|
    ensures DropBoth(xs, lo, hi) == xs[..lo] + xs[lo + 1..hi] + xs[hi + 1..] == DropBoth(xs, hi, lo)
  {
    assert DropAt(xs, hi)[..lo] == xs[..lo] && DropAt(xs, hi)[lo + 1..] == xs[lo + 1..hi] + xs[hi + 1..];
  }

  /** A content rename takes the first such removal and the first such addition out, leaves the rest in its order, and
      stands at the end with the schema of the addition. */
  lemma ContentRenameStandsLast(cs: seq<ContentChange>, m: ContentRename) returns (i: nat, j: nat)
    requires RenameContent(cs, m).Some?
    ensures i < |cs| && j < |cs| && i != j
    ensures cs[i].ContentRemoved? && cs[i].content == m.from && cs[j].ContentAdded? && cs[j].content == m.to
    ensures forall k :: 0 <= k < i ==> !(cs[k].ContentRemoved? && cs[k].content == m.from)
    ensures forall k :: 0 <= k < j ==> !(cs[k].ContentAdded? && cs[k].content == m.to)
    ensures var lo, hi := if i < j then i else j, if i < j then j else i;
            RenameContent(cs, m).value ==
            cs[..lo] + cs[lo + 1..hi] + cs[hi + 1..] + [ContentRenamed(m.to, Low, cs[j].schema, m.from)]
  {
    i := FirstIndex(cs, (c: ContentChange) => IsRemoved(c, m.from)).value;
    j := FirstIndex(cs, (c: ContentChange) => IsAdded(c, m.to)).value;
    forall k | 0 <= k < i ensures !IsRemoved(cs[k], m.from) {}
    forall k | 0 <= k < j ensures !IsAdded(cs[k], m.to) {}
    if i < j { DropBothKeepsOrder(cs, i, j); } else { DropBothKeepsOrder(cs, j, i); }
  }

  /** A field rename does the same in the list of field changes. */
  lemma FieldRenameStandsLast(fcs: seq<FieldChange>, schema: Schema, from: string, to: string)
    returns (i: nat, j: nat, renamed: FieldChange)
    requires RenameFieldIn(fcs, schema, from, to).Some?
    ensures i < |fcs| && j < |fcs| && i != j && fcs[i] == Removed(from) && fcs[j].Added? && fcs[j].field == to
    ensures forall k :: 0 <= k < i ==> fcs[k] != Removed(from)
    ensures forall k :: 0 <= k < j ==> !(fcs[k].Added? && fcs[k].field == to)
    ensures renamed.Renamed? && renamed.field == to && renamed.from == from
    ensures var lo, hi := if i < j then i else j, if i < j then j else i;
            RenameFieldIn(fcs, schema, from, to).value == fcs[..lo] + fcs[lo + 1..hi] + fcs[hi + 1..] + [renamed]
  {
    i := FirstIndex(fcs, (c: FieldChange) => c.Removed? && c.field == from).value;
    j := FirstIndex(fcs, (c: FieldChange) => c.Added? && c.field == to).value;
    renamed := FoldedField(fcs, schema, fcs[j].spec, from, to);
    hide FieldsByName, OldType;
    if i < j { DropBothKeepsOrder(fcs, i, j); } else { DropBothKeepsOrder(fcs, j, i); }
  }

  /** It happens in the first modification of its content, which keeps its place and its schema and is judged anew. */
  lemma FieldRenameStaysInPlace(cs: seq<ContentChange>, m: FieldRename) returns (at: nat)
    requires RenameField(cs, m).Some?
    ensures at < |cs| && cs[at].ContentModified? && cs[at].content == m.content
    ensures forall k :: 0 <= k < at ==> !(cs[k].ContentModified? && cs[k].content == m.content)
    ensures var fcs := RenameFieldIn(cs[at].changes, cs[at].schema, m.from, m.to);
            && fcs.Some?
            && RenameField(cs, m).value ==
               cs[..at] + [ContentModified(m.content, ClassifyModified(fcs.value), cs[at].schema, fcs.value)]
               + cs[at + 1..]
  {
    at := FirstIndex(cs, (c: ContentChange) => IsModified(c, m.content)).value;
    forall k | 0 <= k < at ensures !IsModified(cs[k], m.content) {}
    hide RenameFieldIn, ClassifyModified;
  }
}
