/** What the empty-table pass relaxes, and what the acknowledgement gate asks for, in terms of the schemas and the diff
    (termin_core/migrations/classifier.py, termin_core/migrations/ack.py). */
module AckLaws {
  import opened Basics
  import opened Classifier
  import opened Acks
  import opened TierLaws

  // ------------------------------------------------------------ which changes the pass touches

  /** The pass keeps the length and the order, and every change of a table that is not empty, every addition and every
      rename comes back as it went in. */
  lemma DowngradeSparesTheRest(diff: seq<ContentChange>, isEmpty: string -> bool, i: nat)
    requires i < |diff|
    ensures var r := DowngradeAll(diff, isEmpty);
            |r| == |diff| && (!isEmpty(diff[i].content) || diff[i].ContentAdded? || diff[i].ContentRenamed? ==>
                                r[i] == diff[i])
  {
  }

  /** A blocked removal of an empty table becomes low. */
  lemma RemovedEmptyTableIsLow(diff: seq<ContentChange>, isEmpty: string -> bool, i: nat)
    requires i < |diff| && diff[i].ContentRemoved? && isEmpty(diff[i].content)
    ensures DowngradeAll(diff, isEmpty)[i] ==
            ContentRemoved(diff[i].content, if diff[i].tier == Blocked then Low else diff[i].tier)
  {
  }

  /** Losing a field, becoming required or unique, and new bounds or a new list of values harm no empty table. */
  predicate Harmless(c: FieldChange) {
    c.Removed? || c.RequiredAdded? || c.UniqueAdded? || c.BoundsChanged? || c.EnumValuesChanged?
  }

  /** A change that counts on an empty table as well, of this tier. */
  ghost predicate HarmOf(cs: seq<FieldChange>, t: Tier) {
    exists c :: c in cs && !Harmless(c) && ClassifyField(c) == t
  }

  ghost predicate SomeHarmless(cs: seq<FieldChange>) {
    exists c :: c in cs && Harmless(c)
  }

  /** A modification of an empty table keeps all but its tier. That is the highest of the tiers of its other changes,
      and low where those leave it safe and it has a harmless one. */
  lemma ModifiedEmptyTableIff(diff: seq<ContentChange>, isEmpty: string -> bool, i: nat)
    requires i < |diff| && diff[i].ContentModified? && isEmpty(diff[i].content)
    ensures var c, d := diff[i], DowngradeAll(diff, isEmpty)[i];
            && d == ContentModified(c.content, d.tier, c.schema, c.changes)
            && (d.tier.Blocked? <==> HarmOf(c.changes, Blocked))
            && (d.tier.High? <==> HarmOf(c.changes, High) && !HarmOf(c.changes, Blocked))
            && (d.tier.Medium? <==>
                  HarmOf(c.changes, Medium) && !HarmOf(c.changes, High) && !HarmOf(c.changes, Blocked))
            && (d.tier.Low? <==> (HarmOf(c.changes, Low) || SomeHarmless(c.changes))
                                 && !HarmOf(c.changes, Medium) && !HarmOf(c.changes, High)
                                 && !HarmOf(c.changes, Blocked))
  {
    EmptyTierIsHighest(diff[i].changes);
  }

  ghost predicate EmptyOccurs(cs: seq<FieldChange>, t: Tier) {
    exists c :: c in cs && EmptyTier(c) == t
  }

  lemma EmptyTierIsHighest(cs: seq<FieldChange>)
    ensures var t := ClassifyEmpty(cs);
            && (t.Blocked? <==> HarmOf(cs, Blocked))
            && (t.High? <==> HarmOf(cs, High) && !HarmOf(cs, Blocked))
            && (t.Medium? <==> HarmOf(cs, Medium) && !HarmOf(cs, High) && !HarmOf(cs, Blocked))
            && (t.Low? <==> (HarmOf(cs, Low) || SomeHarmless(cs))
                            && !HarmOf(cs, Medium) && !HarmOf(cs, High) && !HarmOf(cs, Blocked))
  {
    EmptyTierBounds(cs);
    EmptyOccursIff(cs);
    if cs == [] { assert ClassifyEmpty(cs) == Safe; }
  }

  lemma EmptyOccursIff(cs: seq<FieldChange>)
    ensures forall t :: t != Low ==> (EmptyOccurs(cs, t) <==> HarmOf(cs, t))
    ensures EmptyOccurs(cs, Low) <==> HarmOf(cs, Low) || SomeHarmless(cs)
  {
    hide ClassifyField;
  }

  lemma EmptyTierBounds(cs: seq<FieldChange>)
    ensures forall c :: c in cs ==> Rank(EmptyTier(c)) <= Rank(ClassifyEmpty(cs))
    ensures cs != [] ==> EmptyOccurs(cs, ClassifyEmpty(cs))
  {
    hide EmptyTier;
    var tiers := seq(|cs|, i requires 0 <= i < |cs| => EmptyTier(cs[i]));
    WorstIsLeastUpperBound(tiers);
    forall c | c in cs ensures EmptyTier(c) in tiers {
      var i :| 0 <= i < |cs| && cs[i] == c;
      assert tiers[i] == EmptyTier(c);
    }
    if cs != [] {
      var i :| 0 <= i < |cs| && tiers[i] == Worst(tiers);
      assert cs[i] in cs && EmptyTier(cs[i]) == ClassifyEmpty(cs);
    }
  }

  // ------------------------------------------------------------ the same in schema terms

  ghost predicate BlockedEvenIfEmpty(o: map<string, FieldSpec>, n: map<string, FieldSpec>) {
    || (exists f :: f in n && f !in o && n[f].foreignKey.Some? && n[f].foreignKey != Some(""))
    || (exists f :: f in o && f in n && BlockedPair(o[f], n[f]))
  }

  ghost predicate HighEvenIfEmpty(o: map<string, FieldSpec>, n: map<string, FieldSpec>) {
    exists f :: f in o && f in n && o[f].cascadeMode != n[f].cascadeMode
  }

  /** Another type, a reference added, redirected or dropped, another cascade mode, or a rule of presence or uniqueness
      dropped. */
  ghost predicate ChangedEvenIfEmpty(o: FieldSpec, n: FieldSpec) {
    || o.businessType != n.businessType || o.foreignKey != n.foreignKey || o.cascadeMode != n.cascadeMode
    || (o.required && !n.required) || (o.unique && !n.unique)
  }

  ghost predicate MediumEvenIfEmpty(o: map<string, FieldSpec>, n: map<string, FieldSpec>) {
    || (exists f :: f in n && f !in o && (n[f].unique || (n[f].required && n[f].defaultExpr.None?)))
    || (exists f :: f in o && f in n && ChangedEvenIfEmpty(o[f], n[f]))
  }

  lemma BlockedHarm(o: map<string, FieldSpec>, n: map<string, FieldSpec>)
    ensures HarmOf(DiffFields(o, n), Blocked) <==> BlockedEvenIfEmpty(o, n)
  {
    var cs := DiffFields(o, n);
    hide DiffFields, Differs, ChangeOf;
    if HarmOf(cs, Blocked) {
      var c :| c in cs && !Harmless(c) && ClassifyField(c) == Blocked;
      DiffFieldsMembers(o, n, c);
      if c.field in o && c.field in n {
        var a := KeptChange(o, n, c);
        BlockedByAttribute(o[c.field], n[c.field]);
      }
    }
    if f :| f in n && f !in o && n[f].foreignKey.Some? && n[f].foreignKey != Some("") {
      AddedReports(o, n, f);
      var c :| c in cs && ClassifyField(c) == Blocked;
      DiffFieldsMembers(o, n, Added(f, n[f]));
      assert Added(f, n[f]) in cs && !Harmless(Added(f, n[f]));
    }
    if f :| f in o && f in n && BlockedPair(o[f], n[f]) {
      KeptBlockedHarms(o, n, f);
    }
  }

  /** The change one attribute of a kept field reports is in the diff. */
  lemma KeptChangeIsThere(o: map<string, FieldSpec>, n: map<string, FieldSpec>, f: string, a: Attribute)
    requires f in o && f in n && Differs(a, o[f], n[f])
    ensures ChangeOf(a, f, o[f], n[f]) in DiffFields(o, n)
  {
    var c := ChangeOf(a, f, o[f], n[f]);
    DiffOneFieldMembers(f, o[f], n[f]);
    DiffOneFieldNames(f, o[f], n[f], c);
    DiffFieldsMembers(o, n, c);
  }

  lemma KeptBlockedHarms(o: map<string, FieldSpec>, n: map<string, FieldSpec>, f: string)
    requires f in o && f in n && BlockedPair(o[f], n[f])
    ensures HarmOf(DiffFields(o, n), Blocked)
  {
    hide DiffFields;
    var a := if LosesNothing(o[f].businessType, n[f].businessType) then OfForeignKey else OfType;
    var c := ChangeOf(a, f, o[f], n[f]);
    KeptChangeIsThere(o, n, f, a);
    assert c in DiffFields(o, n) && !Harmless(c) && ClassifyField(c) == Blocked;
  }

  lemma HighHarm(o: map<string, FieldSpec>, n: map<string, FieldSpec>)
    ensures HarmOf(DiffFields(o, n), High) <==> HighEvenIfEmpty(o, n)
  {
    var cs := DiffFields(o, n);
    hide DiffFields;
    if HarmOf(cs, High) {
      var c :| c in cs && !Harmless(c) && ClassifyField(c) == High;
      DiffFieldsMembers(o, n, c);
      DiffOneFieldMembers(c.field, o[c.field], n[c.field]);
      var a :| Differs(a, o[c.field], n[c.field]) && c == ChangeOf(a, c.field, o[c.field], n[c.field]);
      assert a.OfCascade?;
    }
    if f :| f in o && f in n && o[f].cascadeMode != n[f].cascadeMode {
      KeptChangeIsThere(o, n, f, OfCascade);
      var c := ChangeOf(OfCascade, f, o[f], n[f]);
      assert c in cs && !Harmless(c) && ClassifyField(c) == High;
    }
  }

  ghost predicate HarmAboveLow(cs: seq<FieldChange>) {
    HarmOf(cs, Medium) || HarmOf(cs, High) || HarmOf(cs, Blocked)
  }

  lemma MediumHarm(o: map<string, FieldSpec>, n: map<string, FieldSpec>)
    ensures HarmAboveLow(DiffFields(o, n)) <==> MediumEvenIfEmpty(o, n) || BlockedEvenIfEmpty(o, n)
    ensures !HarmOf(DiffFields(o, n), Low)
  {
    BlockedHarm(o, n);
    hide DiffFields, BlockedEvenIfEmpty;
    var cs := DiffFields(o, n);
    forall c | c in cs && !Harmless(c)
      ensures !ClassifyField(c).Low?
      ensures !ClassifyField(c).Safe? ==> MediumEvenIfEmpty(o, n) || BlockedEvenIfEmpty(o, n)
    {
      HarmIsMedium(o, n, c);
    }
    if f :| f in n && f !in o && (n[f].unique || (n[f].required && n[f].defaultExpr.None?)) {
      DiffFieldsMembers(o, n, Added(f, n[f]));
      assert Added(f, n[f]) in cs && ClassifyField(Added(f, n[f])) in {Medium, Blocked};
    }
    if f :| f in o && f in n && ChangedEvenIfEmpty(o[f], n[f]) {
      KeptHarms(o, n, f);
    }
  }

  lemma HarmIsMedium(o: map<string, FieldSpec>, n: map<string, FieldSpec>, c: FieldChange)
    requires c in DiffFields(o, n) && !Harmless(c)
    ensures !ClassifyField(c).Low?
    ensures !ClassifyField(c).Safe? ==> MediumEvenIfEmpty(o, n) || BlockedEvenIfEmpty(o, n)
  {
    hide DiffFields;
    DiffFieldsMembers(o, n, c);
    if c.field in o && c.field in n {
      DiffOneFieldMembers(c.field, o[c.field], n[c.field]);
      var a :| Differs(a, o[c.field], n[c.field]) && c == ChangeOf(a, c.field, o[c.field], n[c.field]);
      assert ChangedEvenIfEmpty(o[c.field], n[c.field]);
    }
  }

  lemma KeptHarms(o: map<string, FieldSpec>, n: map<string, FieldSpec>, f: string)
    requires f in o && f in n && ChangedEvenIfEmpty(o[f], n[f])
    ensures HarmAboveLow(DiffFields(o, n))
  {
    hide DiffFields;
    var a := if o[f].businessType != n[f].businessType then OfType
             else if o[f].foreignKey != n[f].foreignKey then OfForeignKey
             else if o[f].cascadeMode != n[f].cascadeMode then OfCascade
             else if o[f].required && !n[f].required then OfRequired else OfUnique;
    var c := ChangeOf(a, f, o[f], n[f]);
    KeptChangeIsThere(o, n, f, a);
    NoAttributeIsLow(a, f, o[f], n[f]);
    assert c in DiffFields(o, n) && !Harmless(c) && ClassifyField(c) in {Medium, High, Blocked};
  }

  /** A field is lost, or a kept one became required or unique or has other bounds or another list. */
  ghost predicate LowIfEmpty(o: map<string, FieldSpec>, n: map<string, FieldSpec>) {
    || (exists f :: f in o && f !in n)
    || (exists f :: f in o && f in n && !SamePair(o[f], n[f]))
  }

  lemma HarmlessIsLow(o: map<string, FieldSpec>, n: map<string, FieldSpec>)
    ensures SomeHarmless(DiffFields(o, n)) || HarmAboveLow(DiffFields(o, n)) <==>
              LowIfEmpty(o, n) || MediumEvenIfEmpty(o, n) || BlockedEvenIfEmpty(o, n)
  {
    MediumHarm(o, n);
    hide DiffFields, BlockedEvenIfEmpty, MediumEvenIfEmpty, HarmAboveLow;
    var cs := DiffFields(o, n);
    if c :| c in cs && Harmless(c) {
      DiffFieldsMembers(o, n, c);
      if c.field in o && c.field in n {
        var a := KeptChange(o, n, c);
        SomeAttributeDiffers(o[c.field], n[c.field]);
      }
    }
    if f :| f in o && f !in n {
      DiffFieldsMembers(o, n, Removed(f));
      assert Removed(f) in cs && Harmless(Removed(f));
    }
    if f :| f in o && f in n && !SamePair(o[f], n[f]) {
      SomeAttributeDiffers(o[f], n[f]);
      var a :| Differs(a, o[f], n[f]);
      KeptChangeIsThere(o, n, f, a);
      KeptIsHarmlessOrHarms(o, n, f, a);
    }
  }

  lemma KeptIsHarmlessOrHarms(o: map<string, FieldSpec>, n: map<string, FieldSpec>, f: string, a: Attribute)
    requires f in o && f in n && Differs(a, o[f], n[f])
    ensures SomeHarmless(DiffFields(o, n)) || HarmAboveLow(DiffFields(o, n))
  {
    hide DiffFields, ChangeOf, Differs;
    KeptChangeIsThere(o, n, f, a);
    NoAttributeIsLow(a, f, o[f], n[f]);
    var c := ChangeOf(a, f, o[f], n[f]);
    assert c in DiffFields(o, n);
    assert Harmless(c) || ClassifyField(c) in {Medium, High, Blocked};
  }

  /** The tier of a computed modification of an empty table, read off the two schemas: lost fields, new bounds, lists
      and rules of presence and uniqueness are low, everything else is judged as on a full table. */
  lemma TierOfEmptyTableIff(o: map<string, FieldSpec>, n: map<string, FieldSpec>)
    ensures var t := ClassifyEmpty(DiffFields(o, n));
            && (t.Blocked? <==> BlockedEvenIfEmpty(o, n))
            && (t.High? <==> HighEvenIfEmpty(o, n) && !BlockedEvenIfEmpty(o, n))
            && (t.Medium? <==> MediumEvenIfEmpty(o, n) && !HighEvenIfEmpty(o, n) && !BlockedEvenIfEmpty(o, n))
            && (t.Low? <==> LowIfEmpty(o, n) && !MediumEvenIfEmpty(o, n) && !HighEvenIfEmpty(o, n)
                            && !BlockedEvenIfEmpty(o, n))
  {
    BlockedHarm(o, n);
    HighHarm(o, n);
    MediumHarm(o, n);
    HarmlessIsLow(o, n);
    assert HighEvenIfEmpty(o, n) ==> MediumEvenIfEmpty(o, n);
    hide BlockedEvenIfEmpty, MediumEvenIfEmpty, HighEvenIfEmpty, LowIfEmpty, HarmOf, SomeHarmless, DiffFields;
    EmptyTierIsHighest(DiffFields(o, n));
  }

  /** What is still blocked after the pass over a computed diff: dropping a table with rows, and a modification that
      loses a field of one or is blocked even for an empty table. */
  lemma StillBlockedIff(o: map<string, Schema>, n: map<string, Schema>, isEmpty: string -> bool, i: nat)
    requires i < |DiffContents(o, n)|
    ensures var c, d := DiffContents(o, n)[i], DowngradeAll(DiffContents(o, n), isEmpty)[i];
            d.tier.Blocked? <==>
              || (c.content !in n && !isEmpty(c.content))
              || (c.content in o && c.content in n
                  && var of, nf := FieldsByName(o[c.content].fields), FieldsByName(n[c.content].fields);
                     if isEmpty(c.content) then BlockedEvenIfEmpty(of, nf) else SomeBlocked(of, nf))
  {
    var c := DiffContents(o, n)[i];
    DiffHoldsIff(o, n, c);
    hide DiffContents, DiffFields, BlockedEvenIfEmpty, SomeBlocked, HarmOf, SomeHarmless, ClassifyEmpty;
    if c.ContentModified? {
      var of, nf := FieldsByName(o[c.content].fields), FieldsByName(n[c.content].fields);
      TierOfEmptyTableIff(of, nf);
      TierOfModifiedIff(of, nf);
    }
  }

  // ------------------------------------------------------------ the gate, spelled out

  /** A low, medium or high change is accepted by its fingerprint; both developer flags accept any low one. */
  predicate Accepted(fp: string, t: Tier, cfg: Config) {
    t in {Low, Medium, High} ==> fp in cfg.accepted || (t == Low && cfg.devMode && cfg.acceptAnyLow)
  }

  /** The gate opens on any diff exactly when every change is accepted: a modification by each of its field changes
      that is low, medium or high on its own, every other change by itself; safe and blocked ones are not asked for. */
  lemma GateOpensIff(diff: seq<ContentChange>, fps: Fingerprints, cfg: Config)
    ensures MissingAll(diff, fps, cfg) == [] <==>
              forall c :: c in diff ==>
                if c.ContentModified?
                then c.tier in {Low, Medium, High} ==>
                       forall f :: f in c.changes ==> Accepted(fps.ofField(c.content, f), ClassifyField(f), cfg)
                else Accepted(fps.ofContent(c), c.tier, cfg)
  {
    MissingAllMembers(diff, fps, cfg);
    EmptyIff(MissingAll(diff, fps, cfg));
    forall c | c in diff
      ensures (forall fp :: fp !in MissingOf(c, fps, cfg)) <==>
                if c.ContentModified?
                then c.tier in {Low, Medium, High} ==>
                       forall f :: f in c.changes ==> Accepted(fps.ofField(c.content, f), ClassifyField(f), cfg)
                else Accepted(fps.ofContent(c), c.tier, cfg)
    {
      NothingMissingIff(c, fps, cfg);
    }
  }

  lemma NothingMissingIff(c: ContentChange, fps: Fingerprints, cfg: Config)
    ensures (forall fp :: fp !in MissingOf(c, fps, cfg)) <==>
              if c.ContentModified?
              then c.tier in {Low, Medium, High} ==>
                     forall f :: f in c.changes ==> Accepted(fps.ofField(c.content, f), ClassifyField(f), cfg)
              else Accepted(fps.ofContent(c), c.tier, cfg)
  {
    hide ClassifyField;
    if c.ContentModified? {
      MissingFieldsMembers(c.content, c.changes, fps, cfg);
      hide MissingFields;
      if NeedsAck(c.tier) {
        assert MissingOf(c, fps, cfg) == MissingFields(c.content, c.changes, fps, cfg);
        forall f | f in c.changes
          ensures Accepted(fps.ofField(c.content, f), ClassifyField(f), cfg) <==>
                    !(NeedsAck(ClassifyField(f)) && !Covered(fps.ofField(c.content, f), ClassifyField(f), cfg))
        {
        }
        if f :| f in c.changes && !Accepted(fps.ofField(c.content, f), ClassifyField(f), cfg) {
          assert fps.ofField(c.content, f) in MissingFields(c.content, c.changes, fps, cfg);
        }
      }
    } else if NeedsAck(c.tier) && !Covered(fps.ofContent(c), c.tier, cfg) {
      assert fps.ofContent(c) in MissingOf(c, fps, cfg);
    }
  }

  /** What the collector lists for one change: nothing if it is safe or blocked, every field change of a modification,
      and the change itself otherwise. */
  lemma RequiredIff(c: ContentChange, fps: Fingerprints, fp: string)
    ensures fp in RequiredOf(c, fps) <==>
              && c.tier in {Low, Medium, High}
              && (if c.ContentModified? then exists f :: f in c.changes && fp == fps.ofField(c.content, f)
                  else fp == fps.ofContent(c))
  {
    hide ClassifyField;
    if c.ContentModified? && NeedsAck(c.tier) {
      var all := RequiredOf(c, fps);
      if f :| f in c.changes && fp == fps.ofField(c.content, f) {
        var i :| 0 <= i < |c.changes| && c.changes[i] == f;
        assert all[i] == fp;
      }
    }
  }
}
