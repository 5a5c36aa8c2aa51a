/** A diff, applied to the schema it was computed from, gives the schema it was computed for. */
module RoundTrip {
  import opened Basics
  import opened Classifier

  type Fields = map<string, FieldSpec>

  // ------------------------------------------------------------ applying changes

  function ChangeSpec(s: FieldSpec, c: FieldChange): FieldSpec {
    match c
    case TypeChanged(_, _, to) => s.(businessType := to)
    case RequiredAdded(_) => s.(required := true)
    case RequiredRemoved(_) => s.(required := false)
    case UniqueAdded(_) => s.(unique := true)
    case UniqueRemoved(_) => s.(unique := false)
    case BoundsChanged(_, min, max, _) => s.(minimum := min, maximum := max)
    case EnumValuesChanged(_, added, removed) => s.(enumValues := Without(s.enumValues, removed) + added)
    case CascadeModeChanged(_, to) => s.(cascadeMode := to)
    case ForeignKeyChanged(_, _, to) => s.(foreignKey := to)
    case _ => s
  }

  function ApplyField(m: Fields, c: FieldChange): Fields {
    if c.Added? then m[c.field := c.spec]
    else if c.Removed? then m - {c.field}
    else if c.field in m then m[c.field := ChangeSpec(m[c.field], c)]
    else m
  }

  function ApplyFields(cs: seq<FieldChange>, m: Fields): Fields {
    if cs == [] then m else ApplyField(ApplyFields(cs[..|cs| - 1], m), cs[|cs| - 1])
  }

  lemma {:induction false} ApplySplits(a: seq<FieldChange>, b: seq<FieldChange>, m: Fields)
    ensures ApplyFields(a + b, m) == ApplyFields(b, ApplyFields(a, m))
  {
    if b == [] {
      assert a + b == a;
    } else {
      assert (a + b)[..|a + b| - 1] == a + b[..|b| - 1];
      ApplySplits(a, b[..|b| - 1], m);
    }
  }

  // ------------------------------------------------------------ agreement on the compared attributes

  /** The two specs agree on an attribute; enum values are compared as a set. */
  ghost predicate AgreeAt(a: Attribute, s: FieldSpec, t: FieldSpec) {
    if a.OfEnum? then Elements(s.enumValues) == Elements(t.enumValues) else !Differs(a, s, t)
  }

  ghost predicate Agree(s: FieldSpec, t: FieldSpec) {
    forall a :: AgreeAt(a, s, t)
  }

  ghost predicate FieldsAgree(m: Fields, n: Fields) {
    m.Keys == n.Keys && forall f :: f in m ==> Agree(m[f], n[f])
  }

  lemma NotDiffersTransitive(a: Attribute, s: FieldSpec, t: FieldSpec, u: FieldSpec)
    requires !Differs(a, s, t)
    ensures !Differs(a, t, u) ==> !Differs(a, s, u) && AgreeAt(a, s, u)
    ensures AgreeAt(a, t, u) ==> AgreeAt(a, s, u)
  {
  }

  /** One change settles its own attribute and no other. */
  lemma OneChange(a: Attribute, name: string, o: FieldSpec, n: FieldSpec, s: FieldSpec)
    requires !Differs(a, s, o) && Differs(a, o, n)
    ensures var t := ChangeSpec(s, ChangeOf(a, name, o, n));
            AgreeAt(a, t, n) && forall b :: b != a ==> !Differs(b, t, s)
  {
    if a.OfEnum? {
      var t := ChangeSpec(s, ChangeOf(a, name, o, n));
      assert forall v :: v in t.enumValues <==> v in n.enumValues;
      assert Elements(t.enumValues) == Elements(n.enumValues);
    }
  }

  lemma {:induction false} ApplyDiffering(attributes: seq<Attribute>, name: string, o: FieldSpec, n: FieldSpec,
                                          m: Fields)
    requires NoDup(attributes) && name in m
    requires forall a :: a in attributes ==> !Differs(a, m[name], o)
    ensures var r := ApplyFields(Differing(attributes, name, o, n), m);
            && r.Keys == m.Keys
            && (forall f :: f in m && f != name ==> r[f] == m[f])
            && (forall a :: a in attributes ==> AgreeAt(a, r[name], n))
            && (forall a :: a !in attributes ==> !Differs(a, r[name], m[name]))
  {
    if attributes != [] {
      var a, rest := attributes[0], attributes[1..];
      var c := ChangeOf(a, name, o, n);
      assert c.field == name && !c.Added? && !c.Removed?;
      var next := if Differs(a, o, n) then m[name := ChangeSpec(m[name], c)] else m;
      assert a !in rest && forall b :: b in attributes <==> b == a || b in rest;
      if Differs(a, o, n) {
        OneChange(a, name, o, n, m[name]);
        ApplySplits([c], Differing(rest, name, o, n), m);
        assert ApplyFields([c], m) == ApplyField(ApplyFields([], m), c) == next;
      } else {
        assert Differing(attributes, name, o, n) == Differing(rest, name, o, n);
        NotDiffersTransitive(a, m[name], o, n);
      }
      forall b | b in rest ensures !Differs(b, next[name], o) {
        NotDiffersTransitive(b, next[name], m[name], o);
      }
      ApplyDiffering(rest, name, o, n, next);
      var r := ApplyFields(Differing(rest, name, o, n), next);
      NotDiffersTransitive(a, r[name], next[name], n);
      forall b | b !in attributes ensures !Differs(b, r[name], m[name]) {
        NotDiffersTransitive(b, r[name], next[name], m[name]);
      }
    }
  }

  lemma ApplyOneField(name: string, o: FieldSpec, n: FieldSpec, m: Fields)
    requires name in m && m[name] == o
    ensures var r := ApplyFields(DiffOneField(name, o, n), m);
            && r.Keys == m.Keys && Agree(r[name], n)
            && forall f :: f in m && f != name ==> r[f] == m[f]
  {
    ApplyDiffering(ATTRIBUTES, name, o, n, m);
    AttributesAreAll();
  }

  lemma {:induction false} ApplyRemovedFields(names: seq<string>, m: Fields)
    ensures ApplyFields(RemovedFields(names), m) == m - Elements(names)
  {
    if names != [] {
      var init, last := names[..|names| - 1], names[|names| - 1];
      ApplyRemovedFields(init, m);
      assert RemovedFields(names)[..|names| - 1] == RemovedFields(init);
      assert Elements(names) == Elements(init) + {last};
    }
  }

  lemma {:induction false} ApplyAddedFields(names: seq<string>, n: Fields, m: Fields)
    requires forall x :: x in names ==> x in n
    ensures ApplyFields(AddedFields(names, n), m) == m + map f | f in names :: n[f]
  {
    if names != [] {
      var init, last := names[..|names| - 1], names[|names| - 1];
      ApplyAddedFields(init, n, m);
      assert AddedFields(names, n)[..|names| - 1] == AddedFields(init, n);
      OneMoreKey(names, init, last, n, m);
    }
  }

  lemma OneMoreKey(names: seq<string>, init: seq<string>, last: string, n: Fields, m: Fields)
    requires names == init + [last] && forall x :: x in names ==> x in n
    ensures (m + map f | f in init :: n[f])[last := n[last]] == m + map f | f in names :: n[f]
  {
    assert forall x :: x in names <==> x in init || x == last;
  }

  lemma {:induction false} ApplyKeptFields(names: seq<string>, o: Fields, n: Fields, m: Fields)
    requires NoDup(names) && forall x :: x in names ==> x in o && x in n && x in m && m[x] == o[x]
    ensures var r := ApplyFields(KeptFields(names, o, n), m);
            && r.Keys == m.Keys
            && (forall f :: f in names ==> Agree(r[f], n[f]))
            && (forall f :: f in m && f !in names ==> r[f] == m[f])
  {
    if names != [] {
      var init, last := names[..|names| - 1], names[|names| - 1];
      ApplyKeptFields(init, o, n, m);
      ApplySplits(KeptFields(init, o, n), DiffOneField(last, o[last], n[last]), m);
      assert last !in init;
      ApplyOneField(last, o[last], n[last], ApplyFields(KeptFields(init, o, n), m));
      assert forall x :: x in names <==> x in init || x == last;
    }
  }

  lemma ApplyThreeParts(removed: seq<string>, added: seq<string>, kept: seq<string>, o: Fields, n: Fields)
    requires forall x :: x in removed <==> x in o && x !in n
    requires forall x :: x in added <==> x in n && x !in o
    requires NoDup(kept) && forall x :: x in kept <==> x in o && x in n
    ensures FieldsAgree(ApplyFields(RemovedFields(removed) + AddedFields(added, n) + KeptFields(kept, o, n), o), n)
  {
    ApplySplits(RemovedFields(removed) + AddedFields(added, n), KeptFields(kept, o, n), o);
    ApplySplits(RemovedFields(removed), AddedFields(added, n), o);
    ApplyRemovedFields(removed, o);
    var m1 := o - Elements(removed);
    ApplyAddedFields(added, n, m1);
    var m2 := m1 + map f | f in added :: n[f];
    assert m2.Keys == n.Keys;
    ApplyKeptFields(kept, o, n, m2);
    var r := ApplyFields(KeptFields(kept, o, n), m2);
    forall f | f in n ensures Agree(r[f], n[f]) {
      if f !in kept { assert f in added && r[f] == n[f]; }
    }
  }

  /** Field round trip: the computed changes turn the old fields into the new ones. */
  lemma FieldDiffRoundTrips(o: Fields, n: Fields)
    ensures FieldsAgree(ApplyFields(DiffFields(o, n), o), n)
  {
    ApplyThreeParts(OnlyIn(o, n), OnlyIn(n, o), InBoth(o, n), o, n);
  }

  /** A field diff is empty exactly when nothing compared differs, enum order included. */
  lemma EmptyFieldDiffIff(o: Fields, n: Fields)
    ensures DiffFields(o, n) == [] <==>
              o.Keys == n.Keys && forall f, a :: f in o && f in n ==> !Differs(a, o[f], n[f])
  {
    hide DiffFields, DiffOneField, Differs;
    forall f | f in o && f !in n ensures DiffFields(o, n) != [] { DiffFieldsMembers(o, n, Removed(f)); }
    forall f | f in n && f !in o ensures DiffFields(o, n) != [] { DiffFieldsMembers(o, n, Added(f, n[f])); }
    forall f, a | f in o && f in n && Differs(a, o[f], n[f]) ensures DiffFields(o, n) != [] {
      DiffOneFieldMembers(f, o[f], n[f]);
      DiffFieldsMembers(o, n, ChangeOf(a, f, o[f], n[f]));
    }
    if DiffFields(o, n) != [] {
      var c := DiffFields(o, n)[0];
      DiffFieldsMembers(o, n, c);
      if c.field in o && c.field in n {
        DiffOneFieldMembers(c.field, o[c.field], n[c.field]);
      }
    }
  }

  // ------------------------------------------------------------ whole diffs

  type Contents = map<string, Fields>

  function FieldsOf(schemas: map<string, Schema>): Contents {
    map k | k in schemas :: FieldsByName(schemas[k].fields)
  }

  function ApplyContent(m: Contents, c: ContentChange): Contents {
    match c
    case ContentAdded(name, _, schema) => m[name := FieldsByName(schema.fields)]
    case ContentRemoved(name, _) => m - {name}
    case ContentRenamed(name, _, schema, from) => (m - {from})[name := FieldsByName(schema.fields)]
    case ContentModified(name, _, _, cs) => if name in m then m[name := ApplyFields(cs, m[name])] else m
  }

  function ApplyContents(cs: seq<ContentChange>, m: Contents): Contents {
    if cs == [] then m else ApplyContent(ApplyContents(cs[..|cs| - 1], m), cs[|cs| - 1])
  }

  lemma {:induction false} ApplyContentsSplits(a: seq<ContentChange>, b: seq<ContentChange>, m: Contents)
    ensures ApplyContents(a + b, m) == ApplyContents(b, ApplyContents(a, m))
  {
    if b == [] {
      assert a + b == a;
    } else {
      assert (a + b)[..|a + b| - 1] == a + b[..|b| - 1];
      ApplyContentsSplits(a, b[..|b| - 1], m);
    }
  }

  lemma {:induction false} ApplyRemovedContents(names: seq<string>, m: Contents)
    ensures ApplyContents(RemovedContents(names), m) == m - Elements(names)
  {
    if names != [] {
      var init, last := names[..|names| - 1], names[|names| - 1];
      ApplyRemovedContents(init, m);
      assert RemovedContents(names)[..|names| - 1] == RemovedContents(init);
      assert Elements(names) == Elements(init) + {last};
    }
  }

  /** `m` with the listed keys taken from `v`. */
  function Put(names: seq<string>, v: Contents, m: Contents): Contents
    requires forall x :: x in names ==> x in v
  {
    if names == [] then m
    else Put(names[..|names| - 1], v, m)[names[|names| - 1] := v[names[|names| - 1]]]
  }

  lemma {:induction false} PutLookup(names: seq<string>, v: Contents, m: Contents)
    requires forall x :: x in names ==> x in v
    ensures Put(names, v, m).Keys == m.Keys + Elements(names)
    ensures forall x :: x in names ==> Put(names, v, m)[x] == v[x]
    ensures forall x :: x in m && x !in names ==> Put(names, v, m)[x] == m[x]
  {
    if names != [] {
      var init, last := names[..|names| - 1], names[|names| - 1];
      PutLookup(init, v, m);
      assert forall x :: x in names <==> x in init || x == last;
      assert Elements(names) == Elements(init) + {last};
    }
  }

  lemma {:induction false} ApplyAddedContents(names: seq<string>, n: map<string, Schema>, v: Contents, m: Contents)
    requires forall x :: x in names ==> x in n && x in v && v[x] == FieldsByName(n[x].fields)
    ensures ApplyContents(AddedContents(names, n), m) == Put(names, v, m)
  {
    if names != [] {
      var init, last := names[..|names| - 1], names[|names| - 1];
      ApplyAddedContents(init, n, v, m);
      assert AddedContents(names, n)[..|names| - 1] == AddedContents(init, n);
      assert last in names;
    }
  }

  lemma ApplyModifiedContent(name: string, o: Schema, n: Schema, m: Contents)
    requires name in m && m[name] == FieldsByName(o.fields)
    ensures var r := ApplyContents(ModifiedContent(name, o, n), m);
            && r.Keys == m.Keys && FieldsAgree(r[name], FieldsByName(n.fields))
            && forall k :: k in m && k != name ==> r[k] == m[k]
  {
    hide DiffFields, FieldsByName, FieldsAgree, ClassifyModified;
    var cs := DiffFields(FieldsByName(o.fields), FieldsByName(n.fields));
    FieldDiffRoundTrips(FieldsByName(o.fields), FieldsByName(n.fields));
    if cs != [] {
      var c := ContentModified(name, ClassifyModified(cs), n, cs);
      assert ApplyContents([c], m) == ApplyContent(ApplyContents([], m), c);
    }
  }

  /** `r` is `m` with the listed contents migrated to what `n` says. */
  ghost predicate Migrated(names: seq<string>, n: map<string, Schema>, m: Contents, r: Contents)
    requires forall x :: x in names ==> x in n && x in m
  {
    && r.Keys == m.Keys
    && (forall k :: k in names ==> FieldsAgree(r[k], FieldsByName(n[k].fields)))
    && (forall k :: k in m && k !in names ==> r[k] == m[k])
  }

  lemma {:induction false} ApplyModifiedContents(names: seq<string>, o: map<string, Schema>, n: map<string, Schema>,
                                                 m: Contents)
    requires NoDup(names)
    requires forall x :: x in names ==> x in o && x in n && x in m && m[x] == FieldsByName(o[x].fields)
    ensures Migrated(names, n, m, ApplyContents(ModifiedContents(names, o, n), m))
  {
    hide ApplyContents, ModifiedContents, Migrated, FieldsByName;
    if names == [] {
      NothingToMigrate(o, n, m);
    } else {
      var init, last := names[..|names| - 1], names[|names| - 1];
      assert forall i :: 0 <= i < |init| ==> init[i] == names[i] && names[i] in names;
      assert names == init + [last] && last in names;
      ApplyModifiedContents(init, o, n, m);
      assert last !in init;
      ApplyOneMore(names, init, last, o, n, m, ApplyContents(ModifiedContents(init, o, n), m));
    }
  }

  lemma NothingToMigrate(o: map<string, Schema>, n: map<string, Schema>, m: Contents)
    ensures Migrated([], n, m, ApplyContents(ModifiedContents([], o, n), m))
  {
  }

  lemma ApplyOneMore(names: seq<string>, init: seq<string>, last: string, o: map<string, Schema>,
                     n: map<string, Schema>, m: Contents, r: Contents)
    requires names == init + [last] && last !in init
    requires forall x :: x in names ==> x in o && x in n && x in m
    requires r == ApplyContents(ModifiedContents(init, o, n), m) && Migrated(init, n, m, r)
    requires m[last] == FieldsByName(o[last].fields)
    ensures Migrated(names, n, m, ApplyContents(ModifiedContents(names, o, n), m))
  {
    var c := ModifiedContent(last, o[last], n[last]);
    assert names[..|names| - 1] == init;
    assert ModifiedContents(names, o, n) == ModifiedContents(init, o, n) + c;
    ApplyContentsSplits(ModifiedContents(init, o, n), c, m);
    ApplyModifiedContent(last, o[last], n[last], r);
    MigrateOneMore(names, init, last, n, m, r, ApplyContents(c, r));
  }

  lemma MigrateOneMore(names: seq<string>, init: seq<string>, last: string, n: map<string, Schema>, m: Contents,
                       r: Contents, q: Contents)
    requires names == init + [last] && last !in init && forall x :: x in names ==> x in n && x in m
    requires Migrated(init, n, m, r) && q.Keys == r.Keys && FieldsAgree(q[last], FieldsByName(n[last].fields))
    requires forall k :: k in r && k != last ==> q[k] == r[k]
    ensures Migrated(names, n, m, q)
  {
    assert forall x :: x in names <==> x in init || x == last;
  }

  lemma ApplyThreeContentParts(removed: seq<string>, added: seq<string>, kept: seq<string>,
                               o: map<string, Schema>, n: map<string, Schema>, m: Contents, v: Contents)
    requires forall x :: x in removed <==> x in o && x !in n
    requires forall x :: x in added <==> x in n && x !in o
    requires NoDup(kept) && forall x :: x in kept <==> x in o && x in n
    requires m.Keys == o.Keys && v.Keys == n.Keys
    requires forall k :: k in o ==> m[k] == FieldsByName(o[k].fields)
    requires forall k :: k in n ==> v[k] == FieldsByName(n[k].fields)
    ensures var parts := RemovedContents(removed) + AddedContents(added, n) + ModifiedContents(kept, o, n);
            var r := ApplyContents(parts, m);
            r.Keys == n.Keys && forall k :: k in n ==> FieldsAgree(r[k], v[k])
  {
    ApplyContentsSplits(RemovedContents(removed) + AddedContents(added, n), ModifiedContents(kept, o, n), m);
    ApplyTwoContentParts(removed, added, n, m, v);
    PutLookup(added, v, m - Elements(removed));
    ApplyLastContentPart(kept, o, n, Put(added, v, m - Elements(removed)), v);
  }

  lemma ApplyLastContentPart(kept: seq<string>, o: map<string, Schema>, n: map<string, Schema>, m: Contents,
                             v: Contents)
    requires NoDup(kept) && forall x :: x in kept <==> x in o && x in n
    requires m.Keys == v.Keys == n.Keys
    requires forall k :: k in n ==> v[k] == FieldsByName(n[k].fields)
    requires forall k :: k in n ==> m[k] == if k in o then FieldsByName(o[k].fields) else v[k]
    ensures var r := ApplyContents(ModifiedContents(kept, o, n), m);
            r.Keys == n.Keys && forall k :: k in n ==> FieldsAgree(r[k], v[k])
  {
    ApplyModifiedContents(kept, o, n, m);
  }

  lemma ApplyTwoContentParts(removed: seq<string>, added: seq<string>, n: map<string, Schema>, m: Contents, v: Contents)
    requires forall x :: x in added ==> x in n && x in v && v[x] == FieldsByName(n[x].fields)
    ensures ApplyContents(RemovedContents(removed) + AddedContents(added, n), m) == Put(added, v, m - Elements(removed))
  {
    ApplyContentsSplits(RemovedContents(removed), AddedContents(added, n), m);
    ApplyRemovedContents(removed, m);
    ApplyAddedContents(added, n, v, m - Elements(removed));
  }

  /** Round trip of a whole migration diff. */
  lemma DiffRoundTrips(current: seq<Schema>, target: seq<Schema>)
    ensures var o, n := SchemasByName(current), SchemasByName(target);
            var r := ApplyContents(DiffContents(o, n), FieldsOf(o));
            r.Keys == n.Keys && forall k :: k in n ==> FieldsAgree(r[k], FieldsOf(n)[k])
  {
    var o, n := SchemasByName(current), SchemasByName(target);
    ApplyThreeContentParts(OnlyIn(o, n), OnlyIn(n, o), InBoth(o, n), o, n, FieldsOf(o), FieldsOf(n));
  }

  lemma {:induction false} EmptyModifiedIff(names: seq<string>, o: map<string, Schema>, n: map<string, Schema>)
    requires forall x :: x in names ==> x in o && x in n
    ensures ModifiedContents(names, o, n) == [] <==>
              forall k :: k in names ==> DiffFields(FieldsByName(o[k].fields), FieldsByName(n[k].fields)) == []
  {
    if names != [] {
      var init, last := names[..|names| - 1], names[|names| - 1];
      EmptyModifiedIff(init, o, n);
      assert forall x :: x in names <==> x in init || x == last;
    }
  }

  /** A migration diff is empty exactly when both sides have the same contents, the same fields and the
      same compared attributes, enum order included. */
  lemma EmptyDiffIff(current: seq<Schema>, target: seq<Schema>)
    ensures var o, n := SchemasByName(current), SchemasByName(target);
            DiffContents(o, n) == [] <==>
              && o.Keys == n.Keys
              && forall k :: k in o && k in n ==>
                   var of, nf := FieldsByName(o[k].fields), FieldsByName(n[k].fields);
                   of.Keys == nf.Keys && forall f, a :: f in of && f in nf ==> !Differs(a, of[f], nf[f])
  {
    var o, n := SchemasByName(current), SchemasByName(target);
    EmptyModifiedIff(InBoth(o, n), o, n);
    assert |RemovedContents(OnlyIn(o, n))| == |OnlyIn(o, n)| && |AddedContents(OnlyIn(n, o), n)| == |OnlyIn(n, o)|;
    forall k | k in o && k in n
      ensures DiffFields(FieldsByName(o[k].fields), FieldsByName(n[k].fields)) == [] <==>
                var of, nf := FieldsByName(o[k].fields), FieldsByName(n[k].fields);
                of.Keys == nf.Keys && forall f, a :: f in of && f in nf ==> !Differs(a, of[f], nf[f])
    {
      EmptyFieldDiffIff(FieldsByName(o[k].fields), FieldsByName(n[k].fields));
    }
    NoneOnlyIn(o, n);
    NoneOnlyIn(n, o);
  }

  lemma NoneOnlyIn<T>(a: map<string, T>, b: map<string, T>)
    ensures OnlyIn(a, b) == [] <==> a.Keys <= b.Keys
  {
    if OnlyIn(a, b) != [] {
      assert OnlyIn(a, b)[0] in OnlyIn(a, b);
    } else {
      assert forall k :: k in a && k !in b ==> k in OnlyIn(a, b);
    }
  }
}
