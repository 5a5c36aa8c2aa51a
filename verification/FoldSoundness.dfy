/** What a folded diff says about stored data: a rename is "low" whatever the two fields, or the two contents, are. */
module FoldSoundness {
  import opened Basics
  import opened Classifier
  import opened Widening
  import opened Renames
  import opened RenameLaws

  // ------------------------------------------------------------ one column turning into another

  /** Every value the old column accepts the new one accepts, whatever Python's `float` makes of it. */
  ghost predicate KeepsValues(o: FieldSpec, n: FieldSpec) {
    forall v, toFloat :: Accepts(o, v, toFloat) ==> Accepts(n, v, toFloat)
  }

  /** No rule about presence, uniqueness, references or cascades is added, and the type converts without loss. */
  predicate RulesLoosen(o: FieldSpec, n: FieldSpec) {
    && Lossless(o.businessType, n.businessType)
    && (n.required ==> o.required)
    && (n.unique ==> o.unique)
    && n.cascadeMode == o.cascadeMode
    && (n.foreignKey.Some? ==> n.foreignKey == o.foreignKey)
  }

  /** Rows that were valid under the old column stay valid under the new one. */
  ghost predicate StaysValid(o: FieldSpec, n: FieldSpec) {
    KeepsValues(o, n) && RulesLoosen(o, n)
  }

  predicate BoundsLoosen(o: FieldSpec, n: FieldSpec) {
    NonEmptyInterval(o) ==> !Tightening(o, n)
  }

  /** An empty string is never checked against an enum list. */
  predicate EnumLoosens(o: FieldSpec, n: FieldSpec) {
    n.enumValues == [] || (o.enumValues != [] && forall v :: v in o.enumValues && v != "" ==> v in n.enumValues)
  }

  /** `StaysValid`, read off the two specs. */
  predicate LoosensInto(o: FieldSpec, n: FieldSpec) {
    BoundsLoosen(o, n) && EnumLoosens(o, n) && RulesLoosen(o, n)
  }

  /** Rows stay valid exactly when the new spec loosens the old one. */
  lemma StaysValidIff(o: FieldSpec, n: FieldSpec)
    ensures StaysValid(o, n) <==> LoosensInto(o, n)
  {
    if BoundsLoosen(o, n) && EnumLoosens(o, n) {
      forall v, toFloat | Accepts(o, v, toFloat) ensures Accepts(n, v, toFloat) {
        LooserAccepts(o, n, v, toFloat);
      }
    }
    KeepingNumbers(o, n);
    if KeepsValues(o, n) {
      KeepingEnums(o, n);
    }
  }

  lemma LooserAccepts(o: FieldSpec, n: FieldSpec, v: Value, toFloat: Value -> Option<real>)
    requires BoundsLoosen(o, n) && EnumLoosens(o, n) && Accepts(o, v, toFloat)
    ensures Accepts(n, v, toFloat)
  {
    if v != Null && v != Str("") && toFloat(v).Some? {
      assert InBounds(o, toFloat(v).value);
    }
  }

  lemma KeepingNumbers(o: FieldSpec, n: FieldSpec)
    ensures KeepsValues(o, n) ==> BoundsLoosen(o, n)
  {
    if NonEmptyInterval(o) && Tightening(o, n) {
      TighteningRejects(o, n);
      var x: real :| InBounds(o, x) && !InBounds(n, x);
      var toFloat: Value -> Option<real> := v => Some(x);
      assert Accepts(o, Int(0), toFloat) && !Accepts(n, Int(0), toFloat);
    }
  }

  lemma KeepingEnums(o: FieldSpec, n: FieldSpec)
    requires KeepsValues(o, n)
    ensures EnumLoosens(o, n)
  {
    var toFloat: Value -> Option<real> := v => None;
    if n.enumValues != [] {
      var s := LongerThanAll(n.enumValues);
      assert !Accepts(n, Str(s), toFloat);
      assert o.enumValues == [] ==> Accepts(o, Str(s), toFloat);
      forall v | v in o.enumValues && v != "" ensures v in n.enumValues {
        assert Accepts(o, Str(v), toFloat);
        assert Accepts(n, Str(v), toFloat);
      }
    }
  }

  /** Loosening, as the classifier understands it, loosens except for a first enum list. */
  lemma LoosensExceptFirstEnum(o: FieldSpec, n: FieldSpec)
    requires Loosens(o, n)
    ensures LoosensInto(o, n) <==> (o.enumValues != [] || n.enumValues == [])
  {
  }

  // ------------------------------------------------------------ one renamed field

  /** What the rule for renamed fields asks of the two types. */
  function RenameTier(from: BusinessType, to: BusinessType): Tier {
    if from == to then Low else if Lossless(from, to) then Medium else High
  }

  /** On a computed diff every folded rename claims that the type did not change and is "low"; that is the tier the
      true types call for exactly when they are equal. */
  lemma RenameHidesTypeChange(o: Schema, n: Schema, before: ContentChange, ms: seq<FieldRename>, after: ContentChange,
                              m: FieldRename)
    requires before.ContentModified? && before.schema == n
    requires before.changes == DiffFields(FieldsByName(o.fields), FieldsByName(n.fields))
    requires FoldedInto(before, ms, after) && m in ms && m.content == before.content
    requires HasFieldPair(before.changes, m)
    ensures var of, nf := FieldsByName(o.fields), FieldsByName(n.fields);
            && m.from in of && m.from !in nf && m.to in nf && m.to !in of
            && var t := nf[m.to].businessType;
               var c := Renamed(m.to, m.from, false, t, t);
            && c in after.changes
            && ClassifyField(c) == Low
            && (ClassifyField(c) == RenameTier(of[m.from].businessType, t) <==> of[m.from].businessType == t)
  {
    PairFields(FieldsByName(o.fields), FieldsByName(n.fields), m);
    var t := FieldsByName(n.fields)[m.to].businessType;
    var a :| a in before.changes && IsAddedField(a, m.to);
    assert ProducedField(before.changes, before.schema, m, Renamed(m.to, m.from, false, t, t));
    assert FieldBelongs(before, ms, Renamed(m.to, m.from, false, t, t));
  }

  /** A removed/added pair of a computed field diff. */
  lemma PairFields(of: map<string, FieldSpec>, nf: map<string, FieldSpec>, m: FieldRename)
    ensures HasFieldPair(DiffFields(of, nf), m) <==> m.from in of && m.from !in nf && m.to in nf && m.to !in of
  {
    var cs := DiffFields(of, nf);
    if HasFieldPair(cs, m) {
      var r :| r in cs && IsRemovedField(r, m.from);
      var a :| a in cs && IsAddedField(a, m.to);
      DiffFieldsMembers(of, nf, r);
      DiffFieldsMembers(of, nf, a);
      if m.from in of && m.from in nf { DiffOneFieldNames(m.from, of[m.from], nf[m.from], r); }
      if m.to in of && m.to in nf { DiffOneFieldNames(m.to, of[m.to], nf[m.to], a); }
    }
    if m.from in of && m.from !in nf && m.to in nf && m.to !in of {
      DiffFieldsMembers(of, nf, Removed(m.from));
      DiffFieldsMembers(of, nf, Added(m.to, nf[m.to]));
      assert IsRemovedField(Removed(m.from), m.from) && IsAddedField(Added(m.to, nf[m.to]), m.to);
    }
  }

  // ------------------------------------------------------------ the whole fold

  function ContentImage(k: string, contents: seq<ContentRename>): string {
    if contents == [] then k else if contents[0].from == k then contents[0].to else ContentImage(k, contents[1..])
  }

  function FieldImage(k: string, f: string, fields: seq<FieldRename>): string {
    if fields == [] then f
    else if fields[0].content == k && fields[0].from == f then fields[0].to
    else FieldImage(k, f, fields[1..])
  }

  lemma {:induction false} ContentImageIs(k: string, contents: seq<ContentRename>)
    requires ValidContentRenames(contents)
    ensures forall m :: m in contents && m.from == k ==> ContentImage(k, contents) == m.to
    ensures (forall m :: m in contents ==> m.from != k) ==> ContentImage(k, contents) == k
  {
    if contents != [] {
      var rest := contents[1..];
      assert forall m :: m in contents <==> m == contents[0] || m in rest;
      ContentImageIs(k, rest);
    }
  }

  lemma {:induction false} FieldImageIs(k: string, f: string, fields: seq<FieldRename>)
    requires ValidFieldRenames(fields)
    ensures forall m :: m in fields && m.content == k && m.from == f ==> FieldImage(k, f, fields) == m.to
    ensures (forall m :: m in fields && m.content == k ==> m.from != f) ==> FieldImage(k, f, fields) == f
  {
    if fields != [] {
      ValidTail(fields);
      FieldImageIs(k, f, fields[1..]);
    }
  }

  function FieldsAt(schemas: map<string, Schema>, k: string): map<string, FieldSpec> {
    if k in schemas then FieldsByName(schemas[k].fields) else map[]
  }

  /** Every stored value of every old column is still there and valid, under whatever name the mappings give it. */
  ghost predicate OldValuesStayValid(o: map<string, Schema>, n: map<string, Schema>, fields: seq<FieldRename>,
                                 contents: seq<ContentRename>) {
    forall k, f :: k in o && f in FieldsAt(o, k) ==> ColumnStaysValid(o, n, fields, contents, k, f)
  }

  ghost predicate ColumnStaysValid(o: map<string, Schema>, n: map<string, Schema>, fields: seq<FieldRename>,
                                   contents: seq<ContentRename>, k: string, f: string)
    requires f in FieldsAt(o, k)
  {
    var g, nf := FieldImage(k, f, fields), FieldsAt(n, ContentImage(k, contents));
    g in nf && StaysValid(FieldsAt(o, k)[f], nf[g])
  }

  /** The renamed field loosens. */
  predicate FieldRenameLoosens(o: map<string, Schema>, n: map<string, Schema>, m: FieldRename) {
    && m.from in FieldsAt(o, m.content) && m.to in FieldsAt(n, m.content)
    && LoosensInto(FieldsAt(o, m.content)[m.from], FieldsAt(n, m.content)[m.to])
  }

  /** The renamed content keeps all its fields, each loosened at most. */
  predicate ContentRenameKeepsValues(o: map<string, Schema>, n: map<string, Schema>, m: ContentRename) {
    var of, nf := FieldsAt(o, m.from), FieldsAt(n, m.to);
    forall f :: f in of ==> f in nf && LoosensInto(of[f], nf[f])
  }

  /** No column that keeps its name and its content's name gains a first enum list. */
  predicate NoFirstEnum(o: map<string, Schema>, n: map<string, Schema>) {
    forall k :: k in o && k in n ==>
      forall f :: f in FieldsAt(o, k) && f in FieldsAt(n, k) ==>
        FieldsAt(o, k)[f].enumValues != [] || FieldsAt(n, k)[f].enumValues == []
  }

  /** The modified change of a kept content that has one is folded into a change of the result. */
  ghost predicate KeptIsFolded(o: map<string, Schema>, n: map<string, Schema>, fields: seq<FieldRename>,
                               r: seq<ContentChange>, k: string)
    requires k in o && k in n
  {
    var cs := DiffFields(FieldsAt(o, k), FieldsAt(n, k));
    cs != [] ==>
      exists after :: after in r && FoldedInto(ContentModified(k, ClassifyModified(cs), n[k], cs), fields, after)
  }

  ghost predicate RenamedPair(o: map<string, FieldSpec>, n: map<string, FieldSpec>, m: FieldRename) {
    m.from in o && m.from !in n && m.to in n && m.to !in o
  }

  /** All the soundness proof needs to know of a successful fold with result `r`. */
  ghost predicate FoldOf(o: map<string, Schema>, n: map<string, Schema>, fields: seq<FieldRename>,
                         contents: seq<ContentRename>, r: seq<ContentChange>) {
    && ValidContentRenames(contents) && ValidFieldRenames(fields)
    && (forall m :: m in contents ==> m.from in o && m.from !in n && m.to in n && m.to !in o)
    && (forall m :: m in fields ==>
          m.content in o && m.content in n && RenamedPair(FieldsAt(o, m.content), FieldsAt(n, m.content), m))
    && (forall k :: k in o && k !in n && (forall m :: m in contents ==> m.from != k) ==>
          ContentRemoved(k, Blocked) in r)
    && (forall k :: k in o && k in n ==> KeptIsFolded(o, n, fields, r, k))
  }

  // ------------------------------------------------------------ columns the rows have no value for

  /** A row without a value for the column may stay without one, or there is a default to give it. */
  predicate Fillable(n: FieldSpec) {
    n.required ==> n.defaultExpr.Some?
  }

  /** A column of the new table of `k` that is the image of no old one: the rows that are there hold nothing for it. */
  ghost predicate AddedColumn(o: map<string, Schema>, n: map<string, Schema>, fields: seq<FieldRename>,
                              contents: seq<ContentRename>, k: string, g: string) {
    && k in o && g in FieldsAt(n, ContentImage(k, contents))
    && forall f :: f in FieldsAt(o, k) ==> FieldImage(k, f, fields) != g
  }

  /** Every row of every old table is a valid row of the new one: its old values are, and every column it has no value
      for can be filled. */
  ghost predicate DataStaysValid(o: map<string, Schema>, n: map<string, Schema>, fields: seq<FieldRename>,
                                 contents: seq<ContentRename>) {
    && OldValuesStayValid(o, n, fields, contents)
    && forall k, g :: AddedColumn(o, n, fields, contents, k, g) ==> Fillable(FieldsAt(n, ContentImage(k, contents))[g])
  }

  /** No table that holds rows gains a reference. */
  ghost predicate AddsNoReference(o: map<string, Schema>, n: map<string, Schema>, fields: seq<FieldRename>,
                                  contents: seq<ContentRename>) {
    forall k, g :: AddedColumn(o, n, fields, contents, k, g) ==>
      !HasForeignKey(FieldsAt(n, ContentImage(k, contents))[g])
  }

  /** The fields only the new content has can be filled. */
  predicate ContentRenameAddsFillable(o: map<string, Schema>, n: map<string, Schema>, m: ContentRename) {
    forall g :: g in FieldsAt(n, m.to) && g !in FieldsAt(o, m.from) ==> Fillable(FieldsAt(n, m.to)[g])
  }

  /** The renamed content keeps all its fields, each loosened at most, and any further field can be filled. */
  predicate ContentRenameLoosens(o: map<string, Schema>, n: map<string, Schema>, m: ContentRename) {
    ContentRenameKeepsValues(o, n, m) && ContentRenameAddsFillable(o, n, m)
  }

  predicate ContentRenameAddsNoReference(o: map<string, Schema>, n: map<string, Schema>, m: ContentRename) {
    forall g :: g in FieldsAt(n, m.to) && g !in FieldsAt(o, m.from) ==> !HasForeignKey(FieldsAt(n, m.to)[g])
  }

  /** A field of a kept content that is neither old nor the new name of an old one. */
  predicate NewField(o: map<string, Schema>, n: map<string, Schema>, fields: seq<FieldRename>, k: string, g: string) {
    && k in o && k in n && g in FieldsAt(n, k) && g !in FieldsAt(o, k)
    && forall m :: m in fields ==> m.content != k || m.to != g
  }

  /** Every field added to a kept content can be filled. */
  ghost predicate NewFieldsFillable(o: map<string, Schema>, n: map<string, Schema>, fields: seq<FieldRename>) {
    forall k, g :: NewField(o, n, fields, k, g) ==> Fillable(FieldsAt(n, k)[g])
  }

  /** A diff that folds to nothing above "medium" keeps all stored data valid exactly when every renamed field and
      every renamed content loosens, no column gains a first enum list, and every added field can be filled. */
  lemma BelowHighFoldIsSoundIff(o: map<string, Schema>, n: map<string, Schema>, fields: seq<FieldRename>,
                                contents: seq<ContentRename>)
    requires ValidContentRenames(contents) && ValidFieldRenames(fields)
    requires Folded(DiffContents(o, n), fields, contents).Success?
    requires forall c :: c in Folded(DiffContents(o, n), fields, contents).value ==> BelowHigh(c.tier)
    ensures DataStaysValid(o, n, fields, contents) <==>
              && (forall m :: m in fields ==> FieldRenameLoosens(o, n, m))
              && (forall m :: m in contents ==> ContentRenameLoosens(o, n, m))
              && NoFirstEnum(o, n)
              && NewFieldsFillable(o, n, fields)
  {
    hide Folded, DiffContents, OldValuesStayValid, ContentRenameKeepsValues, FieldRenameLoosens, NoFirstEnum;
    var r := Folded(DiffContents(o, n), fields, contents).value;
    FoldIsFoldOf(o, n, fields, contents);
    SoundFold(o, n, fields, contents, r);
    FillableFold(o, n, fields, contents, r);
  }

  /** The same diff adds no reference to a table with rows exactly when no renamed content does: the rule that blocks
      such a field is applied to kept contents and not to renamed ones. */
  lemma BelowHighFoldAddsNoReferenceIff(o: map<string, Schema>, n: map<string, Schema>, fields: seq<FieldRename>,
                                        contents: seq<ContentRename>)
    requires ValidContentRenames(contents) && ValidFieldRenames(fields)
    requires Folded(DiffContents(o, n), fields, contents).Success?
    requires forall c :: c in Folded(DiffContents(o, n), fields, contents).value ==> BelowHigh(c.tier)
    ensures AddsNoReference(o, n, fields, contents) <==>
            forall m :: m in contents ==> ContentRenameAddsNoReference(o, n, m)
  {
    hide Folded, DiffContents;
    var r := Folded(DiffContents(o, n), fields, contents).value;
    FoldIsFoldOf(o, n, fields, contents);
    forall m, g | m in contents && g in FieldsAt(n, m.to) && g !in FieldsAt(o, m.from)
      ensures AddedColumn(o, n, fields, contents, m.from, g) && ContentImage(m.from, contents) == m.to
    {
      AddedToRenamed(o, n, fields, contents, r, m, g);
    }
    forall k, g | AddedColumn(o, n, fields, contents, k, g)
      ensures (exists m :: m in contents && m.from == k && m.to == ContentImage(k, contents) && g !in FieldsAt(o, k)) ||
              !HasForeignKey(FieldsAt(n, ContentImage(k, contents))[g])
    {
      AddedColumnIsNew(o, n, fields, contents, r, k, g);
      if NewField(o, n, fields, k, g) && ContentImage(k, contents) == k {
        NewFieldCounts(o, n, fields, r, k, g);
      }
    }
  }

  lemma FillableFold(o: map<string, Schema>, n: map<string, Schema>, fields: seq<FieldRename>,
                     contents: seq<ContentRename>, r: seq<ContentChange>)
    requires FoldOf(o, n, fields, contents, r) && forall c :: c in r ==> BelowHigh(c.tier)
    ensures (forall k, g :: AddedColumn(o, n, fields, contents, k, g) ==>
               Fillable(FieldsAt(n, ContentImage(k, contents))[g])) <==>
              && (forall m :: m in contents ==> ContentRenameAddsFillable(o, n, m))
              && NewFieldsFillable(o, n, fields)
  {
    forall m, g | m in contents && g in FieldsAt(n, m.to) && g !in FieldsAt(o, m.from)
      ensures AddedColumn(o, n, fields, contents, m.from, g) && ContentImage(m.from, contents) == m.to
    {
      AddedToRenamed(o, n, fields, contents, r, m, g);
    }
    forall k, g | NewField(o, n, fields, k, g)
      ensures AddedColumn(o, n, fields, contents, k, g) && ContentImage(k, contents) == k
    {
      AddedToKept(o, n, fields, contents, r, k, g);
    }
    forall k, g | AddedColumn(o, n, fields, contents, k, g)
      ensures (exists m :: m in contents && m.from == k && m.to == ContentImage(k, contents) && g !in FieldsAt(o, k)) ||
              (NewField(o, n, fields, k, g) && ContentImage(k, contents) == k)
    {
      AddedColumnIsNew(o, n, fields, contents, r, k, g);
    }
  }

  lemma AddedToRenamed(o: map<string, Schema>, n: map<string, Schema>, fields: seq<FieldRename>,
                       contents: seq<ContentRename>, r: seq<ContentChange>, m: ContentRename, g: string)
    requires FoldOf(o, n, fields, contents, r)
    requires m in contents && g in FieldsAt(n, m.to) && g !in FieldsAt(o, m.from)
    ensures AddedColumn(o, n, fields, contents, m.from, g) && ContentImage(m.from, contents) == m.to
  {
    ContentImageIs(m.from, contents);
    forall f | f in FieldsAt(o, m.from) ensures FieldImage(m.from, f, fields) != g {
      FieldImageIs(m.from, f, fields);
    }
  }

  lemma AddedToKept(o: map<string, Schema>, n: map<string, Schema>, fields: seq<FieldRename>,
                    contents: seq<ContentRename>, r: seq<ContentChange>, k: string, g: string)
    requires FoldOf(o, n, fields, contents, r) && NewField(o, n, fields, k, g)
    ensures AddedColumn(o, n, fields, contents, k, g) && ContentImage(k, contents) == k
  {
    ContentImageIs(k, contents);
    forall f | f in FieldsAt(o, k) ensures FieldImage(k, f, fields) != g {
      FieldImageIs(k, f, fields);
      if m :| m in fields && m.content == k && m.from == f {
        assert FieldImage(k, f, fields) == m.to;
      }
    }
  }

  lemma AddedColumnIsNew(o: map<string, Schema>, n: map<string, Schema>, fields: seq<FieldRename>,
                         contents: seq<ContentRename>, r: seq<ContentChange>, k: string, g: string)
    requires FoldOf(o, n, fields, contents, r) && forall c :: c in r ==> BelowHigh(c.tier)
    requires AddedColumn(o, n, fields, contents, k, g)
    ensures (exists m :: m in contents && m.from == k && m.to == ContentImage(k, contents) && g !in FieldsAt(o, k)) ||
            (NewField(o, n, fields, k, g) && ContentImage(k, contents) == k)
  {
    hide KeptIsFolded, FieldsAt, FieldImage, ContentImage;
    ContentImageIs(k, contents);
    if m :| m in contents && m.from == k {
      FieldImageIs(k, g, fields);
    } else {
      assert !BelowHigh(ContentRemoved(k, Blocked).tier);
      AddedToKeptIsNew(o, n, fields, contents, k, g);
    }
  }

  lemma AddedToKeptIsNew(o: map<string, Schema>, n: map<string, Schema>, fields: seq<FieldRename>,
                         contents: seq<ContentRename>, k: string, g: string)
    requires AddedColumn(o, n, fields, contents, k, g) && k in n && ContentImage(k, contents) == k
    requires ValidFieldRenames(fields)
    requires forall m :: m in fields && m.content == k ==> RenamedPair(FieldsAt(o, k), FieldsAt(n, k), m)
    ensures NewField(o, n, fields, k, g)
  {
    hide FieldsAt, FieldImage, ContentImage, ValidFieldRenames;
    FieldImageIs(k, g, fields);
    forall m | m in fields && m.content == k ensures m.to != g {
      FieldImageIs(k, m.from, fields);
    }
  }

  /** A reference added to a kept content blocks the fold. */
  lemma NewFieldCounts(o: map<string, Schema>, n: map<string, Schema>, fields: seq<FieldRename>,
                       r: seq<ContentChange>, k: string, g: string)
    requires forall c :: c in r ==> BelowHigh(c.tier)
    requires NewField(o, n, fields, k, g) && KeptIsFolded(o, n, fields, r, k)
    ensures !HasForeignKey(FieldsAt(n, k)[g])
  {
    var of, nf := FieldsAt(o, k), FieldsAt(n, k);
    var cs, d := DiffFields(of, nf), Added(g, nf[g]);
    DiffFieldsMembers(of, nf, d);
    var before := ContentModified(k, ClassifyModified(cs), n[k], cs);
    var after :| after in r && FoldedInto(before, fields, after);
    assert !FieldConsumed(fields, k, d);
    UnconsumedChangeCounts(before, fields, after, d);
  }

  lemma SoundFold(o: map<string, Schema>, n: map<string, Schema>, fields: seq<FieldRename>,
                  contents: seq<ContentRename>, r: seq<ContentChange>)
    requires FoldOf(o, n, fields, contents, r) && forall c :: c in r ==> BelowHigh(c.tier)
    ensures OldValuesStayValid(o, n, fields, contents) <==>
              && (forall m :: m in fields ==> FieldRenameLoosens(o, n, m))
              && (forall m :: m in contents ==> ContentRenameKeepsValues(o, n, m))
              && NoFirstEnum(o, n)
  {
    forall k, f | k in o && f in FieldsAt(o, k)
      ensures ColumnStaysValid(o, n, fields, contents, k, f) <==> ColumnLoosens(o, n, fields, contents, k, f)
    {
      ColumnIff(o, n, fields, contents, r, k, f);
    }
    LoosensByColumn(o, n, fields, contents, r);
  }

  lemma ColumnIff(o: map<string, Schema>, n: map<string, Schema>, fields: seq<FieldRename>,
                  contents: seq<ContentRename>, r: seq<ContentChange>, k: string, f: string)
    requires FoldOf(o, n, fields, contents, r) && forall c :: c in r ==> BelowHigh(c.tier)
    requires k in o && f in FieldsAt(o, k)
    ensures ColumnStaysValid(o, n, fields, contents, k, f) <==> ColumnLoosens(o, n, fields, contents, k, f)
  {
    ContentImageIs(k, contents);
    FieldImageIs(k, f, fields);
    if m :| m in contents && m.from == k {
      assert forall x :: x in contents && x.from == k ==> x.to == m.to;
      RenamedContentColumn(o, n, fields, contents, m, f);
    } else if m :| m in fields && m.content == k && m.from == f {
      assert forall x :: x in fields && x.content == k && x.from == f ==> x.to == m.to;
      RenamedColumn(o, n, fields, contents, m);
    } else {
      KeptColumnLoosens(o, n, fields, contents, r, k, f);
      KeptColumn(o, n, fields, contents, k, f);
    }
  }

  lemma RenamedContentColumn(o: map<string, Schema>, n: map<string, Schema>, fields: seq<FieldRename>,
                             contents: seq<ContentRename>, m: ContentRename, f: string)
    requires m in contents && f in FieldsAt(o, m.from) && m.from !in n
    requires ContentImage(m.from, contents) == m.to && FieldImage(m.from, f, fields) == f
    requires forall x :: x in contents && x.from == m.from ==> x.to == m.to
    requires forall x :: x in fields ==> x.content != m.from
    ensures ColumnStaysValid(o, n, fields, contents, m.from, f) <==> ColumnLoosens(o, n, fields, contents, m.from, f)
  {
    if f in FieldsAt(n, m.to) {
      StaysValidIff(FieldsAt(o, m.from)[f], FieldsAt(n, m.to)[f]);
    }
  }

  lemma RenamedColumn(o: map<string, Schema>, n: map<string, Schema>, fields: seq<FieldRename>,
                      contents: seq<ContentRename>, m: FieldRename)
    requires m in fields && m.from in FieldsAt(o, m.content) && m.from !in FieldsAt(n, m.content)
    requires m.to in FieldsAt(n, m.content)
    requires ContentImage(m.content, contents) == m.content && FieldImage(m.content, m.from, fields) == m.to
    requires forall x :: x in contents ==> x.from != m.content
    requires forall x :: x in fields && x.content == m.content && x.from == m.from ==> x.to == m.to
    ensures ColumnStaysValid(o, n, fields, contents, m.content, m.from) <==>
            ColumnLoosens(o, n, fields, contents, m.content, m.from)
  {
    StaysValidIff(FieldsAt(o, m.content)[m.from], FieldsAt(n, m.content)[m.to]);
  }

  lemma KeptColumn(o: map<string, Schema>, n: map<string, Schema>, fields: seq<FieldRename>,
                   contents: seq<ContentRename>, k: string, f: string)
    requires k in n && f in FieldsAt(o, k) && f in FieldsAt(n, k) && Loosens(FieldsAt(o, k)[f], FieldsAt(n, k)[f])
    requires ContentImage(k, contents) == k && FieldImage(k, f, fields) == f
    requires forall x :: x in contents ==> x.from != k
    requires forall x :: x in fields && x.content == k ==> x.from != f
    ensures ColumnStaysValid(o, n, fields, contents, k, f) <==> ColumnLoosens(o, n, fields, contents, k, f)
  {
    StaysValidIff(FieldsAt(o, k)[f], FieldsAt(n, k)[f]);
    LoosensExceptFirstEnum(FieldsAt(o, k)[f], FieldsAt(n, k)[f]);
  }

  /** The condition, column by column. */
  ghost predicate ColumnLoosens(o: map<string, Schema>, n: map<string, Schema>, fields: seq<FieldRename>,
                                contents: seq<ContentRename>, k: string, f: string)
    requires f in FieldsAt(o, k)
  {
    && (forall m :: m in contents && m.from == k ==>
          f in FieldsAt(n, m.to) && LoosensInto(FieldsAt(o, k)[f], FieldsAt(n, m.to)[f]))
    && (forall m :: m in fields && m.content == k && m.from == f ==> FieldRenameLoosens(o, n, m))
    && (k in n && f in FieldsAt(n, k) ==> FieldsAt(o, k)[f].enumValues != [] || FieldsAt(n, k)[f].enumValues == [])
  }

  lemma LoosensByColumn(o: map<string, Schema>, n: map<string, Schema>, fields: seq<FieldRename>,
                        contents: seq<ContentRename>, r: seq<ContentChange>)
    requires FoldOf(o, n, fields, contents, r)
    ensures (forall k, f :: k in o && f in FieldsAt(o, k) ==> ColumnLoosens(o, n, fields, contents, k, f)) <==>
              && (forall m :: m in fields ==> FieldRenameLoosens(o, n, m))
              && (forall m :: m in contents ==> ContentRenameKeepsValues(o, n, m))
              && NoFirstEnum(o, n)
  {
    if forall k, f :: k in o && f in FieldsAt(o, k) ==> ColumnLoosens(o, n, fields, contents, k, f) {
      forall m | m in fields ensures FieldRenameLoosens(o, n, m) {
        assert ColumnLoosens(o, n, fields, contents, m.content, m.from);
      }
      forall m | m in contents ensures ContentRenameKeepsValues(o, n, m) {
        forall f | f in FieldsAt(o, m.from)
          ensures f in FieldsAt(n, m.to) && LoosensInto(FieldsAt(o, m.from)[f], FieldsAt(n, m.to)[f])
        {
          assert ColumnLoosens(o, n, fields, contents, m.from, f);
        }
      }
      forall k, f | k in o && k in n && f in FieldsAt(o, k) && f in FieldsAt(n, k)
        ensures FieldsAt(o, k)[f].enumValues != [] || FieldsAt(n, k)[f].enumValues == []
      {
        assert ColumnLoosens(o, n, fields, contents, k, f);
      }
    }
  }

  /** A column no mapping names is still there and loosens. */
  lemma KeptColumnLoosens(o: map<string, Schema>, n: map<string, Schema>, fields: seq<FieldRename>,
                          contents: seq<ContentRename>, r: seq<ContentChange>, k: string, f: string)
    requires FoldOf(o, n, fields, contents, r) && forall c :: c in r ==> BelowHigh(c.tier)
    requires k in o && f in FieldsAt(o, k)
    requires forall m :: m in contents ==> m.from != k
    requires forall m :: m in fields && m.content == k ==> m.from != f
    ensures k in n && f in FieldsAt(n, k) && Loosens(FieldsAt(o, k)[f], FieldsAt(n, k)[f])
  {
    hide Loosens, ClassifyField, ClassifyModified, DiffFields, FieldsByName;
    assert !BelowHigh(ContentRemoved(k, Blocked).tier);
    var of, nf := FieldsAt(o, k), FieldsAt(n, k);
    assert KeptIsFolded(o, n, fields, r, k);
    forall d | d in DiffFields(of, nf) && d.field == f ensures BelowHigh(ClassifyField(d)) {
      var cs := DiffFields(of, nf);
      var before := ContentModified(k, ClassifyModified(cs), n[k], cs);
      var after :| after in r && FoldedInto(before, fields, after);
      assert !FieldConsumed(fields, k, d);
      UnconsumedChangeCounts(before, fields, after, d);
    }
    BelowHighChangesLoosen(of, nf, f);
  }

  lemma BelowHighChangesLoosen(of: map<string, FieldSpec>, nf: map<string, FieldSpec>, f: string)
    requires f in of && forall d :: d in DiffFields(of, nf) && d.field == f ==> BelowHigh(ClassifyField(d))
    ensures f in nf && Loosens(of[f], nf[f])
  {
    DiffFieldsMembers(of, nf, Removed(f));
    forall d | f in nf && d in DiffOneField(f, of[f], nf[f]) ensures BelowHigh(ClassifyField(d)) {
      DiffOneFieldNames(f, of[f], nf[f], d);
      DiffFieldsMembers(of, nf, d);
    }
    OneFieldBelowHigh(f, of[f], nf[f]);
  }

  lemma UnconsumedChangeCounts(before: ContentChange, ms: seq<FieldRename>, after: ContentChange, d: FieldChange)
    requires before.ContentModified? && before.tier == ClassifyModified(before.changes) && FoldedInto(before, ms, after)
    requires d in before.changes && !FieldConsumed(ms, before.content, d)
    ensures Rank(ClassifyField(d)) <= Rank(after.tier)
  {
    assert Touched(ms, before.content) ==> FieldBelongs(before, ms, d);
    ClassifyModifiedBounds(after.changes);
  }

  // ------------------------------------------------------------ a successful fold is such a fold

  lemma FoldIsFoldOf(o: map<string, Schema>, n: map<string, Schema>, fields: seq<FieldRename>,
                     contents: seq<ContentRename>)
    requires ValidContentRenames(contents) && ValidFieldRenames(fields)
    requires Folded(DiffContents(o, n), fields, contents).Success?
    ensures FoldOf(o, n, fields, contents, Folded(DiffContents(o, n), fields, contents).value)
  {
    FoldingSucceedsIff(o, n, fields, contents);
    ContentPairsAreThere(o, n, contents);
    FieldPairsAreThere(o, n, fields);
    var r := FoldedCounterparts(o, n, fields, contents);
    RemovedAndKept(o, n, fields, contents, r);
  }

  lemma ContentPairsAreThere(o: map<string, Schema>, n: map<string, Schema>, contents: seq<ContentRename>)
    requires forall m :: m in contents ==> HasPair(DiffContents(o, n), m)
    ensures forall m :: m in contents ==> m.from in o && m.from !in n && m.to in n && m.to !in o
  {
    ComputedDiffShape(o, n);
  }

  lemma FieldPairsAreThere(o: map<string, Schema>, n: map<string, Schema>, fields: seq<FieldRename>)
    requires forall m :: m in fields ==> PairPresent(DiffContents(o, n), m)
    ensures forall m :: m in fields ==>
              m.content in o && m.content in n && RenamedPair(FieldsAt(o, m.content), FieldsAt(n, m.content), m)
  {
    ComputedDiffShape(o, n);
    forall m | m in fields
      ensures m.content in o && m.content in n && RenamedPair(FieldsAt(o, m.content), FieldsAt(n, m.content), m)
    {
      var c :| c in DiffContents(o, n) && IsModified(c, m.content) && HasFieldPair(c.changes, m);
      assert ComputedChange(o, n, c);
      PairFields(FieldsAt(o, m.content), FieldsAt(n, m.content), m);
    }
  }

  ghost predicate HasFold(c: ContentChange, fields: seq<FieldRename>, r: seq<ContentChange>) {
    exists after :: after in r && FoldedInto(c, fields, after)
  }

  /** Every change of the original diff that no content mapping uses up is folded into one of the result. */
  lemma FoldedCounterparts(o: map<string, Schema>, n: map<string, Schema>, fields: seq<FieldRename>,
                           contents: seq<ContentRename>) returns (r: seq<ContentChange>)
    requires ValidContentRenames(contents) && ValidFieldRenames(fields)
    requires Folded(DiffContents(o, n), fields, contents).Success?
    ensures r == Folded(DiffContents(o, n), fields, contents).value
    ensures forall c :: c in DiffContents(o, n) && !Consumed(contents, c) ==> HasFold(c, fields, r)
  {
    var cs := DiffContents(o, n);
    ComputedDiffShape(o, n);
    ContentRenamesExact(cs, contents);
    ContentsThenFieldsTidy(o, n, contents, fields);
    var next := RenameContents(cs, contents).value;
    FieldRenamesExact(next, fields);
    r := RenameFields(next, fields).value;
    forall c | c in cs && !Consumed(contents, c) ensures HasFold(c, fields, r) {
      assert BelongsAfter(cs, contents, c);
      var i :| 0 <= i < |next| && next[i] == c;
      assert FoldedInto(next[i], fields, r[i]) && r[i] in r;
    }
  }

  lemma RemovedAndKept(o: map<string, Schema>, n: map<string, Schema>, fields: seq<FieldRename>,
                       contents: seq<ContentRename>, r: seq<ContentChange>)
    requires forall c :: c in DiffContents(o, n) && !Consumed(contents, c) ==> HasFold(c, fields, r)
    requires forall m :: m in contents ==> m.from !in n && m.to !in o
    ensures forall k :: k in o && k !in n && (forall m :: m in contents ==> m.from != k) ==>
              ContentRemoved(k, Blocked) in r
    ensures forall k :: k in o && k in n ==> KeptIsFolded(o, n, fields, r, k)
  {
    forall k | k in o && k !in n && (forall m :: m in contents ==> m.from != k)
      ensures ContentRemoved(k, Blocked) in r {
      var c := ContentRemoved(k, Blocked);
      RemovedContentIsThere(o, n, k);
      assert HasFold(c, fields, r);
    }
    forall k | k in o && k in n ensures KeptIsFolded(o, n, fields, r, k) {
      if DiffFields(FieldsAt(o, k), FieldsAt(n, k)) != [] {
        var c := ModifiedIsInDiff(o, n, k);
        assert !Consumed(contents, c);
        assert HasFold(c, fields, r);
      }
    }
  }

  lemma RemovedContentIsThere(o: map<string, Schema>, n: map<string, Schema>, k: string)
    requires k in o && k !in n
    ensures ContentRemoved(k, Blocked) in DiffContents(o, n)
  {
    var names := OnlyIn(o, n);
    var i :| 0 <= i < |names| && names[i] == k;
    assert RemovedContents(names)[i] == ContentRemoved(k, Blocked);
  }

  lemma ModifiedIsInDiff(o: map<string, Schema>, n: map<string, Schema>, k: string) returns (c: ContentChange)
    requires k in o && k in n && DiffFields(FieldsAt(o, k), FieldsAt(n, k)) != []
    ensures c in DiffContents(o, n)
    ensures var cs := DiffFields(FieldsAt(o, k), FieldsAt(n, k));
            c == ContentModified(k, ClassifyModified(cs), n[k], cs)
  {
    var cs := DiffFields(FieldsAt(o, k), FieldsAt(n, k));
    c := ContentModified(k, ClassifyModified(cs), n[k], cs);
    ModifiedContentsMembers(InBoth(o, n), o, n, k);
    assert c in ModifiedContent(k, o[k], n[k]);
  }

  lemma {:induction false} ModifiedContentsMembers(names: seq<string>, o: map<string, Schema>, n: map<string, Schema>,
                                                   k: string)
    requires k in names && forall x :: x in names ==> x in o && x in n
    ensures forall c :: c in ModifiedContent(k, o[k], n[k]) ==> c in ModifiedContents(names, o, n)
  {
    var init, last := names[..|names| - 1], names[|names| - 1];
    if k != last {
      assert k in init;
      ModifiedContentsMembers(init, o, n, k);
    }
  }

  // ------------------------------------------------------------ inputs that fail

  /** Renaming the only field of a content folds to "low" whatever the two specs are, so whenever the new one does not
      loosen the old one, stored data is invalid after a "low" migration. */
  lemma AnySingleFieldRenameIsLow(o: map<string, Schema>, n: map<string, Schema>, content: string, from: FieldSpec,
                                  to: FieldSpec)
    requires content != "" && from.name != "" && to.name != "" && from.name != to.name
    requires o == map[content := Schema(content, [from])] && n == map[content := Schema(content, [to])]
    ensures var ms := [FieldRename(content, from.name, to.name)];
            var r := Folded(DiffContents(o, n), ms, []);
            && ValidFieldRenames(ms) && ValidContentRenames([])
            && r.Success? && r.value != []
            && (forall c :: c in r.value ==> c.ContentModified? && c.tier == Low)
            && (DataStaysValid(o, n, ms, []) <==> LoosensInto(from, to))
  {
    var m := FieldRename(content, from.name, to.name);
    SinglePair(o, n, content, from, to, m);
    SingleRenameFold(o, n, content, from, to, m);
    SingleRenameSoundIff(o, n, content, from, to, m);
  }

  lemma SinglePair(o: map<string, Schema>, n: map<string, Schema>, content: string, from: FieldSpec, to: FieldSpec,
                   m: FieldRename)
    requires o == map[content := Schema(content, [from])] && n == map[content := Schema(content, [to])]
    requires m == FieldRename(content, from.name, to.name) && from.name != to.name && ValidFieldRenames([m])
    ensures var r := Folded(DiffContents(o, n), [m], []);
            r.Success? && r.value != []
  {
    var of, nf := FieldsAt(o, content), FieldsAt(n, content);
    SingleField(from);
    SingleField(to);
    PairFields(of, nf, m);
    var d :| d in DiffFields(of, nf) && IsRemovedField(d, m.from);
    var c := ModifiedIsInDiff(o, n, content);
    assert PairPresent(DiffContents(o, n), m) by { assert IsModified(c, content) && HasFieldPair(c.changes, m); }
    FoldingSucceedsIff(o, n, [m], []);
    var r := FoldedCounterparts(o, n, [m], []);
    assert HasFold(c, [m], r);
  }

  lemma SingleRenameSoundIff(o: map<string, Schema>, n: map<string, Schema>, content: string, from: FieldSpec,
                             to: FieldSpec, m: FieldRename)
    requires o == map[content := Schema(content, [from])] && n == map[content := Schema(content, [to])]
    requires m == FieldRename(content, from.name, to.name) && from.name != to.name && ValidFieldRenames([m])
    ensures DataStaysValid(o, n, [m], []) <==> LoosensInto(from, to)
  {
    SingleField(from);
    SingleField(to);
    assert FieldsAt(o, content) == map[from.name := from] && FieldsAt(n, content) == map[to.name := to];
    assert m in [m];
    FieldImageIs(content, from.name, [m]);
    StaysValidIff(from, to);
    assert OldValuesStayValid(o, n, [m], []) <==> ColumnStaysValid(o, n, [m], [], content, from.name);
    assert forall k, g :: !AddedColumn(o, n, [m], [], k, g);
  }

  /** One such input: a free number column renamed onto a required, unique one of at least five, of the same type. */
  lemma LowFoldThatBreaksData()
    ensures var from := FieldSpec("old", Number, false, false, None, None, [], None, None, None);
            var to := FieldSpec("new", Number, true, true, Some(5.0), None, [], None, None, None);
            var o, n := map["c" := Schema("c", [from])], map["c" := Schema("c", [to])];
            var ms := [FieldRename("c", "old", "new")];
            var r := Folded(DiffContents(o, n), ms, []);
            && r.Success? && (forall c :: c in r.value ==> c.tier == Low)
            && !DataStaysValid(o, n, ms, [])
  {
    var from := FieldSpec("old", Number, false, false, None, None, [], None, None, None);
    var to := FieldSpec("new", Number, true, true, Some(5.0), None, [], None, None, None);
    AnySingleFieldRenameIsLow(map["c" := Schema("c", [from])], map["c" := Schema("c", [to])], "c", from, to);
  }

  lemma SingleField(f: FieldSpec)
    ensures FieldsByName([f]) == map[f.name := f]
  {
    assert [f][..0] == [];
  }

  lemma SingleRenameFold(o: map<string, Schema>, n: map<string, Schema>, content: string, from: FieldSpec,
                         to: FieldSpec, m: FieldRename)
    requires o == map[content := Schema(content, [from])] && n == map[content := Schema(content, [to])]
    requires m == FieldRename(content, from.name, to.name) && from.name != to.name
    requires ValidFieldRenames([m]) && ValidContentRenames([]) && Folded(DiffContents(o, n), [m], []).Success?
    ensures forall c :: c in Folded(DiffContents(o, n), [m], []).value ==> c.ContentModified? && c.tier == Low
  {
    var cs := DiffContents(o, n);
    ComputedDiffShape(o, n);
    ContentsThenFieldsTidy(o, n, [], [m]);
    assert RenameContents(cs, []) == Some(cs);
    FieldRenamesExact(cs, [m]);
    var r := RenameFields(cs, [m]).value;
    forall i | 0 <= i < |r| ensures r[i].ContentModified? && r[i].tier == Low {
      assert FoldedInto(cs[i], [m], r[i]) && ComputedChange(o, n, cs[i]);
      assert m in [m] && Touched([m], content);
      SingleField(from);
      SingleField(to);
      OnlyTheRenameIsLeft(cs[i], m, from, to, r[i]);
    }
  }

  lemma OnlyTheRenameIsLeft(before: ContentChange, m: FieldRename, from: FieldSpec, to: FieldSpec, after: ContentChange)
    requires before.ContentModified? && before.schema.fields == [to] && m.from == from.name && m.to == to.name != m.from
    requires before.changes == DiffFields(map[from.name := from], map[to.name := to]) && m.content == before.content
    requires FoldedInto(before, [m], after) && Touched([m], m.content)
    ensures after.ContentModified? && after.tier == Low
  {
    var of, nf := map[from.name := from], map[to.name := to];
    forall d | d in after.changes ensures ClassifyField(d) == Low {
      DiffFieldsMembers(of, nf, d);
      assert FieldBelongs(before, [m], d);
      assert m in [m];
    }
    PairFields(of, nf, m);
    var a :| a in before.changes && IsAddedField(a, m.to);
    var t := NewType(before.schema, a.spec, m.to);
    assert ProducedField(before.changes, before.schema, m, Renamed(m.to, m.from, false, t, t));
    assert m in [m] && FieldBelongs(before, [m], Renamed(m.to, m.from, false, t, t));
    ClassifyModifiedBounds(after.changes);
  }

  /** Renaming a content folds to "low" whatever the two schemas are: their fields are never compared. */
  lemma AnyContentRenameIsLow(o: map<string, Schema>, n: map<string, Schema>, from: Schema, to: Schema)
    requires from.name != "" && to.name != "" && from.name != to.name
    requires o == map[from.name := from] && n == map[to.name := to]
    ensures var m := ContentRename(from.name, to.name);
            var r := Folded(DiffContents(o, n), [], [m]);
            && ValidContentRenames([m]) && ValidFieldRenames([])
            && r.Success? && r.value != []
            && (forall c :: c in r.value ==> c.ContentRenamed? && c.tier == Low)
            && (DataStaysValid(o, n, [], [m]) <==> ContentRenameLoosens(o, n, m))
            && (AddsNoReference(o, n, [], [m]) <==> ContentRenameAddsNoReference(o, n, m))
  {
    var m := ContentRename(from.name, to.name);
    SingleContentPair(o, n, from, to, m);
    SingleContentFold(o, n, from, to, m);
    RenamedContentIsSoundIff(o, n, from, m);
  }

  /** One such input: the new content has a required, unique reference of at least five. Added to a kept content it
      would be blocked; here all is "low", every old value stays valid, and the rows have nothing to put there. */
  lemma LowFoldHidesABlockedField()
    ensures var a := FieldSpec("a", Number, false, false, None, None, [], None, None, None);
            var b := FieldSpec("b", Number, true, true, Some(5.0), None, [], Some("z"), None, None);
            var o, n := map["x" := Schema("x", [a])], map["y" := Schema("y", [a, b])];
            var ms := [ContentRename("x", "y")];
            var r := Folded(DiffContents(o, n), [], ms);
            && r.Success? && (forall c :: c in r.value ==> c.tier == Low)
            && ClassifyAdded(b) == Blocked && OldValuesStayValid(o, n, [], ms)
            && !DataStaysValid(o, n, [], ms) && !AddsNoReference(o, n, [], ms)
  {
    var a := FieldSpec("a", Number, false, false, None, None, [], None, None, None);
    var b := FieldSpec("b", Number, true, true, Some(5.0), None, [], Some("z"), None, None);
    RenameOntoMoreFields(map["x" := Schema("x", [a])], map["y" := Schema("y", [a, b])], a, b);
  }

  /** Renaming a content onto one with a further field that cannot be filled, or that is a reference. */
  lemma RenameOntoMoreFields(o: map<string, Schema>, n: map<string, Schema>, a: FieldSpec, b: FieldSpec)
    requires a.name != b.name && !Fillable(b) && HasForeignKey(b) && LoosensInto(a, a)
    requires o == map["x" := Schema("x", [a])] && n == map["y" := Schema("y", [a, b])]
    ensures var ms := [ContentRename("x", "y")];
            var r := Folded(DiffContents(o, n), [], ms);
            && r.Success? && (forall c :: c in r.value ==> c.tier == Low)
            && OldValuesStayValid(o, n, [], ms) && !DataStaysValid(o, n, [], ms) && !AddsNoReference(o, n, [], ms)
  {
    hide Folded, DiffContents, DataStaysValid, OldValuesStayValid, AddsNoReference;
    var m := ContentRename("x", "y");
    AnyContentRenameIsLow(o, n, Schema("x", [a]), Schema("y", [a, b]));
    SingleField(a);
    TwoFields(a, b);
    assert FieldsAt(o, "x") == map[a.name := a] && FieldsAt(n, "y") == map[a.name := a, b.name := b];
    assert b.name in FieldsAt(n, "y") && FieldsAt(n, "y")[b.name] == b;
    assert ContentRenameKeepsValues(o, n, m);
    RenamedContentIsSoundIff(o, n, Schema("x", [a]), m);
  }

  lemma TwoFields(a: FieldSpec, b: FieldSpec)
    ensures FieldsByName([a, b]) == map[a.name := a, b.name := b]
  {
    SingleField(a);
    assert [a, b][..1] == [a];
  }

  /** A kept content that gains a required field without a default is only "medium", and its rows are not valid. */
  lemma UnfillableFieldIsMedium(o: map<string, Schema>, n: map<string, Schema>, content: string, a: FieldSpec,
                                b: FieldSpec)
    requires a.name != b.name && b.required && b.defaultExpr.None? && !HasForeignKey(b)
    requires o == map[content := Schema(content, [a])] && n == map[content := Schema(content, [a, b])]
    ensures var r := Folded(DiffContents(o, n), [], []);
            && r.Success? && r.value != [] && (forall c :: c in r.value ==> c.ContentModified? && c.tier == Medium)
            && !DataStaysValid(o, n, [], [])
  {
    SingleField(a);
    TwoFields(a, b);
    var of, nf := FieldsAt(o, content), FieldsAt(n, content);
    var cs := DiffContents(o, n);
    assert RenameContents(cs, []) == Some(cs) && RenameFields(cs, []) == Some(cs);
    ComputedDiffShape(o, n);
    OnlyAddedField(of, nf, a, b);
    var c := ModifiedIsInDiff(o, n, content);
    forall c | c in cs ensures c.ContentModified? && c.tier == Medium {
      assert ComputedChange(o, n, c);
    }
    assert AddedColumn(o, n, [], [], content, b.name);
  }

  lemma OnlyAddedField(of: map<string, FieldSpec>, nf: map<string, FieldSpec>, a: FieldSpec, b: FieldSpec)
    requires a.name != b.name && of == map[a.name := a] && nf == map[a.name := a, b.name := b]
    requires b.required && b.defaultExpr.None? && !HasForeignKey(b)
    ensures DiffFields(of, nf) != [] && ClassifyModified(DiffFields(of, nf)) == Medium
  {
    var cs := DiffFields(of, nf);
    DiffFieldsMembers(of, nf, Added(b.name, b));
    forall d | d in cs ensures d == Added(b.name, b) {
      DiffFieldsMembers(of, nf, d);
      DiffOneFieldMembers(a.name, a, a);
    }
    ClassifyModifiedBounds(cs);
  }

  lemma RenamedContentIsSoundIff(o: map<string, Schema>, n: map<string, Schema>, from: Schema, m: ContentRename)
    requires o == map[from.name := from] && m.from == from.name && ValidContentRenames([m])
    ensures OldValuesStayValid(o, n, [], [m]) <==> ContentRenameKeepsValues(o, n, m)
    ensures DataStaysValid(o, n, [], [m]) <==> ContentRenameLoosens(o, n, m)
    ensures AddsNoReference(o, n, [], [m]) <==> ContentRenameAddsNoReference(o, n, m)
  {
    assert m in [m];
    ContentImageIs(m.from, [m]);
    assert forall k, g :: AddedColumn(o, n, [], [m], k, g) <==>
             k == m.from && g in FieldsAt(n, m.to) && g !in FieldsAt(o, m.from);
    forall f | f in FieldsAt(o, m.from)
      ensures ColumnStaysValid(o, n, [], [m], m.from, f) <==>
              f in FieldsAt(n, m.to) && LoosensInto(FieldsAt(o, m.from)[f], FieldsAt(n, m.to)[f])
    {
      if f in FieldsAt(n, m.to) {
        StaysValidIff(FieldsAt(o, m.from)[f], FieldsAt(n, m.to)[f]);
      }
    }
  }

  lemma SingleContentPair(o: map<string, Schema>, n: map<string, Schema>, from: Schema, to: Schema, m: ContentRename)
    requires o == map[from.name := from] && n == map[to.name := to] && from.name != to.name
    requires m == ContentRename(from.name, to.name) && ValidContentRenames([m])
    ensures RenameContents(DiffContents(o, n), [m]).Some?
  {
    RemovedContentIsThere(o, n, from.name);
    AddedContentIsThere(o, n, to.name);
    assert HasPair(DiffContents(o, n), m) by {
      assert IsRemoved(ContentRemoved(from.name, Blocked), m.from) && IsAdded(ContentAdded(to.name, Safe, to), m.to);
    }
    ComputedDiffShape(o, n);
    ContentRenamesExact(DiffContents(o, n), [m]);
  }

  lemma SingleContentFold(o: map<string, Schema>, n: map<string, Schema>, from: Schema, to: Schema, m: ContentRename)
    requires o == map[from.name := from] && n == map[to.name := to] && from.name != to.name
    requires m == ContentRename(from.name, to.name) && ValidContentRenames([m])
    requires RenameContents(DiffContents(o, n), [m]).Some?
    ensures var r := Folded(DiffContents(o, n), [], [m]);
            r.Success? && r.value != [] && forall c :: c in r.value ==> c.ContentRenamed? && c.tier == Low
  {
    var cs, ms := DiffContents(o, n), [m];
    ComputedDiffShape(o, n);
    ContentRenamesExact(cs, ms);
    var r := RenameContents(cs, ms).value;
    assert RenameFields(r, []) == Some(r);
    assert m in ms && forall x :: x in ms ==> x == m;
    forall c | c in cs ensures Consumed(ms, c) {
      assert ComputedChange(o, n, c);
    }
    forall c | c in r ensures c.ContentRenamed? && c.tier == Low {
      assert BelongsAfter(cs, ms, c);
    }
    AddedContentIsThere(o, n, to.name);
    var renamed := ContentRenamed(to.name, Low, to, from.name);
    assert IsAdded(ContentAdded(to.name, Safe, to), m.to);
    assert Produced(cs, m, renamed);
    assert BelongsAfter(cs, ms, renamed);
  }

  lemma AddedContentIsThere(o: map<string, Schema>, n: map<string, Schema>, k: string)
    requires k in n && k !in o
    ensures ContentAdded(k, Safe, n[k]) in DiffContents(o, n)
  {
    var names := OnlyIn(n, o);
    var i :| 0 <= i < |names| && names[i] == k;
    assert AddedContents(names, n)[i] == ContentAdded(k, Safe, n[k]);
  }
}
