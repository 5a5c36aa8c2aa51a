/** The empty-table downgrade (termin_core/migrations/classifier.py) and the acknowledgement gate
    (termin_core/migrations/ack.py). */
module Acks {
  import opened Basics
  import opened Classifier

  // ------------------------------------------------------------ empty-table downgrade

  /** The field changes an empty table makes harmless. */
  predicate Downgradable(c: FieldChange) {
    c.Removed? || c.RequiredAdded? || c.UniqueAdded? || c.BoundsChanged? || c.EnumValuesChanged?
  }

  function EmptyTier(c: FieldChange): Tier {
    if Downgradable(c) then Low else ClassifyField(c)
  }

  /** `_classify_with_empty_downgrade`. */
  function ClassifyEmpty(cs: seq<FieldChange>): Tier {
    Worst(seq(|cs|, i requires 0 <= i < |cs| => EmptyTier(cs[i])))
  }

  function DowngradeOne(c: ContentChange, isEmpty: string -> bool): ContentChange {
    if c.ContentRemoved? && c.tier.Blocked? && isEmpty(c.content) then ContentRemoved(c.content, Low)
    else if c.ContentModified? && isEmpty(c.content) then c.(tier := ClassifyEmpty(c.changes))
    else c
  }

  function DowngradeAll(cs: seq<ContentChange>, isEmpty: string -> bool): seq<ContentChange> {
    seq(|cs|, i requires 0 <= i < |cs| => DowngradeOne(cs[i], isEmpty))
  }

  /** `downgrade_for_empty_tables`; `isEmpty` answers false where the query raises. */
  method DowngradeForEmptyTables(diff: seq<ContentChange>, isEmpty: string -> bool) returns (r: seq<ContentChange>)
    ensures r == DowngradeAll(diff, isEmpty)
  {
    r := [];
    for i := 0 to |diff|
      invariant r == DowngradeAll(diff, isEmpty)[..i]
    {
      var c := diff[i];
      if c.ContentAdded? || c.ContentRenamed? {
        r := r + [c];
      } else {
        var empty := isEmpty(c.content);
        if c.ContentRemoved? {
          r := r + [if empty && c.tier.Blocked? then ContentRemoved(c.content, Low) else c];
        } else if !empty {
          r := r + [c];
        } else {
          r := r + [ContentModified(c.content, ClassifyEmpty(c.changes), c.schema, c.changes)];
        }
      }
    }
  }

  /** The tier is the one the classifier computes, as it is after the diff and after rename folding. */
  ghost predicate Classified(c: ContentChange) {
    c.ContentModified? ==> c.tier == ClassifyModified(c.changes)
  }

  lemma EmptyTierIsNoWorse(c: FieldChange)
    ensures Rank(EmptyTier(c)) <= Rank(ClassifyField(c)) && (EmptyTier(c).Safe? <==> ClassifyField(c).Safe?)
  {
  }

  /** Downgrading a classified change never raises its tier and never makes a non-safe change safe. */
  lemma DowngradeOnlyLowers(c: ContentChange, isEmpty: string -> bool)
    requires Classified(c)
    ensures var d := DowngradeOne(c, isEmpty);
            Rank(d.tier) <= Rank(c.tier) && (d.tier.Safe? <==> c.tier.Safe?)
  {
    if c.ContentModified? && isEmpty(c.content) {
      var cs := c.changes;
      var empty := seq(|cs|, i requires 0 <= i < |cs| => EmptyTier(cs[i]));
      WorstIsLeastUpperBound(empty);
      WorstIsLeastUpperBound(FieldTiers(cs));
      forall i | 0 <= i < |cs|
        ensures Rank(empty[i]) <= Rank(c.tier) && (FieldTiers(cs)[i] != Safe ==> Rank(ClassifyEmpty(cs)) >= 1)
      {
        EmptyTierIsNoWorse(cs[i]);
        assert empty[i] in empty && FieldTiers(cs)[i] in FieldTiers(cs);
        assert FieldTiers(cs)[i] == ClassifyField(cs[i]);
      }
      if cs != [] {
        var i :| 0 <= i < |empty| && empty[i] == Worst(empty);
        var j :| 0 <= j < |cs| && FieldTiers(cs)[j] == c.tier;
        assert Rank(empty[i]) <= Rank(c.tier);
      }
    }
  }

  /** Running the pass again changes nothing. */
  lemma DowngradeIsIdempotent(cs: seq<ContentChange>, isEmpty: string -> bool)
    ensures DowngradeAll(DowngradeAll(cs, isEmpty), isEmpty) == DowngradeAll(cs, isEmpty)
  {
    forall i | 0 <= i < |cs|
      ensures DowngradeOne(DowngradeOne(cs[i], isEmpty), isEmpty) == DowngradeOne(cs[i], isEmpty)
    {
    }
  }

  // ------------------------------------------------------------ acknowledgements

  datatype Config = Config(devMode: bool, acceptAnyLow: bool, accepted: set<string>)

  /** The two fingerprint functions are oracles: a content's field change, and a content change. */
  datatype Fingerprints = Fingerprints(ofField: (string, FieldChange) -> string, ofContent: ContentChange -> string)

  predicate BlanketLow(cfg: Config) {
    cfg.devMode && cfg.acceptAnyLow
  }

  predicate NeedsAck(t: Tier) {
    t.Low? || t.Medium? || t.High?
  }

  /** What a low/medium/high change needs: its own fingerprint, or the blanket flag if it is low. */
  predicate Covered(fp: string, t: Tier, cfg: Config) {
    fp in cfg.accepted || (t.Low? && BlanketLow(cfg))
  }

  function MissingFields(content: string, fcs: seq<FieldChange>, fps: Fingerprints, cfg: Config): seq<string> {
    if fcs == [] then []
    else
      var last := fcs[|fcs| - 1];
      var fp := fps.ofField(content, last);
      MissingFields(content, fcs[..|fcs| - 1], fps, cfg)
      + if NeedsAck(ClassifyField(last)) && !Covered(fp, ClassifyField(last), cfg) then [fp] else []
  }

  function MissingOf(c: ContentChange, fps: Fingerprints, cfg: Config): seq<string> {
    if !NeedsAck(c.tier) then []
    else if c.ContentModified? then MissingFields(c.content, c.changes, fps, cfg)
    else if Covered(fps.ofContent(c), c.tier, cfg) then []
    else [fps.ofContent(c)]
  }

  function MissingAll(cs: seq<ContentChange>, fps: Fingerprints, cfg: Config): seq<string> {
    if cs == [] then []
    else MissingAll(cs[..|cs| - 1], fps, cfg) + MissingOf(cs[|cs| - 1], fps, cfg)
  }

  /** `missing_acks`, with the code's own order of tests. */
  method MissingAcks(diff: seq<ContentChange>, fps: Fingerprints, cfg: Config) returns (r: seq<string>)
    ensures multiset(r) == multiset(MissingAll(diff, fps, cfg)) && Ascending(r)
  {
    var missing: seq<string> := [];
    for i := 0 to |diff|
      invariant missing == MissingAll(diff[..i], fps, cfg)
    {
      assert diff[..i + 1][..i] == diff[..i];
      var c := diff[i];
      if c.tier.Safe? || c.tier.Blocked? {
      } else if c.ContentModified? {
        var found := MissingFieldAcks(c, fps, cfg);
        missing := missing + found;
      } else {
        var fp := fps.ofContent(c);
        if fp !in cfg.accepted && !(c.tier.Low? && BlanketLow(cfg)) {
          missing := missing + [fp];
        }
      }
    }
    assert diff[..|diff|] == diff;
    SortListSorts(missing);
    r := SortList(missing);
  }

  method MissingFieldAcks(c: ContentChange, fps: Fingerprints, cfg: Config) returns (missing: seq<string>)
    requires c.ContentModified?
    ensures missing == MissingFields(c.content, c.changes, fps, cfg)
  {
    missing := [];
    for j := 0 to |c.changes|
      invariant missing == MissingFields(c.content, c.changes[..j], fps, cfg)
    {
      assert c.changes[..j + 1][..j] == c.changes[..j];
      var fp, tier := fps.ofField(c.content, c.changes[j]), ClassifyField(c.changes[j]);
      if fp in cfg.accepted {
      } else if tier.Low? && BlanketLow(cfg) {
      } else if tier.Safe? || tier.Blocked? {
      } else {
        missing := missing + [fp];
      }
    }
    assert c.changes[..|c.changes|] == c.changes;
  }

  /** `ack_covers`. */
  method AckCovers(diff: seq<ContentChange>, fps: Fingerprints, cfg: Config) returns (ok: bool)
    ensures ok <==> MissingAll(diff, fps, cfg) == []
  {
    var missing := MissingAcks(diff, fps, cfg);
    ok := missing == [];
    assert |multiset(missing)| == |missing| && |multiset(MissingAll(diff, fps, cfg))| == |MissingAll(diff, fps, cfg)|;
  }

  lemma {:induction false} MissingFieldsMembers(content: string, fcs: seq<FieldChange>, fps: Fingerprints, cfg: Config)
    ensures forall fp :: fp in MissingFields(content, fcs, fps, cfg) <==>
              exists c :: c in fcs && fp == fps.ofField(content, c) && NeedsAck(ClassifyField(c))
                          && !Covered(fp, ClassifyField(c), cfg)
  {
    if fcs != [] {
      MissingFieldsMembers(content, fcs[..|fcs| - 1], fps, cfg);
      assert forall c :: c in fcs <==> c in fcs[..|fcs| - 1] || c == fcs[|fcs| - 1];
    }
  }

  lemma {:induction false} MissingAllMembers(cs: seq<ContentChange>, fps: Fingerprints, cfg: Config)
    ensures forall fp :: fp in MissingAll(cs, fps, cfg) <==> exists c :: c in cs && fp in MissingOf(c, fps, cfg)
  {
    if cs != [] {
      MissingAllMembers(cs[..|cs| - 1], fps, cfg);
      assert forall c :: c in cs <==> c in cs[..|cs| - 1] || c == cs[|cs| - 1];
    }
  }

  lemma EmptyIff<T>(xs: seq<T>)
    ensures xs == [] <==> forall x :: x !in xs
  {
    if xs != [] { assert xs[0] in xs; }
  }

  /** Every change that needs an acknowledgement has one, read off the diff alone. */
  ghost predicate EverythingCovered(cs: seq<ContentChange>, fps: Fingerprints, cfg: Config) {
    forall c :: c in cs ==> ChangeCovered(c, fps, cfg)
  }

  ghost predicate ChangeCovered(c: ContentChange, fps: Fingerprints, cfg: Config) {
    if c.ContentModified? then
      forall f :: f in c.changes && NeedsAck(ClassifyField(f)) ==>
        Covered(fps.ofField(c.content, f), ClassifyField(f), cfg)
    else NeedsAck(c.tier) ==> Covered(fps.ofContent(c), c.tier, cfg)
  }

  /** On a classified diff with nothing blocked, the gate opens exactly when each low, medium or high change
      is accepted by fingerprint, or is low with both developer flags set. */
  lemma AckCoversIffEverythingCovered(cs: seq<ContentChange>, fps: Fingerprints, cfg: Config)
    requires forall c :: c in cs ==> Classified(c) && !c.tier.Blocked?
    ensures MissingAll(cs, fps, cfg) == [] <==> EverythingCovered(cs, fps, cfg)
  {
    MissingAllMembers(cs, fps, cfg);
    EmptyIff(MissingAll(cs, fps, cfg));
    forall c | c in cs
      ensures MissingOf(c, fps, cfg) == [] <==> ChangeCovered(c, fps, cfg)
      ensures MissingOf(c, fps, cfg) == [] <==> forall fp :: fp !in MissingOf(c, fps, cfg)
    {
      OneCovered(c, fps, cfg);
      EmptyIff(MissingOf(c, fps, cfg));
    }
  }

  lemma OneCovered(c: ContentChange, fps: Fingerprints, cfg: Config)
    requires Classified(c) && !c.tier.Blocked?
    ensures MissingOf(c, fps, cfg) == [] <==> ChangeCovered(c, fps, cfg)
  {
    if c.ContentModified? {
      MissingFieldsMembers(c.content, c.changes, fps, cfg);
      EmptyIff(MissingFields(c.content, c.changes, fps, cfg));
      ClassifyModifiedBounds(c.changes);
      forall f | f in c.changes && NeedsAck(ClassifyField(f))
        ensures || fps.ofField(c.content, f) in MissingFields(c.content, c.changes, fps, cfg)
                || Covered(fps.ofField(c.content, f), ClassifyField(f), cfg)
      {
      }
      if !NeedsAck(c.tier) {
        assert forall f :: f in c.changes ==> Rank(ClassifyField(f)) == 0;
      }
    }
  }

  /** For any diff, downgraded or not, the gate opens exactly for the configurations that accept at least what
      is missing when nothing is accepted: in particular for the one that accepts precisely that. */
  lemma MissingIsTheLeastAcceptance(cs: seq<ContentChange>, fps: Fingerprints, cfg: Config)
    ensures MissingAll(cs, fps, cfg) == [] <==>
              forall fp :: fp in MissingAll(cs, fps, cfg.(accepted := {})) ==> fp in cfg.accepted
  {
    var none := cfg.(accepted := {});
    MissingAllMembers(cs, fps, cfg);
    MissingAllMembers(cs, fps, none);
    EmptyIff(MissingAll(cs, fps, cfg));
    forall c, fp | c in cs
      ensures fp in MissingOf(c, fps, cfg) <==> fp in MissingOf(c, fps, none) && fp !in cfg.accepted
    {
      MissingOfOne(c, fps, cfg, fp);
    }
    forall fp ensures fp in MissingAll(cs, fps, cfg) <==> fp in MissingAll(cs, fps, none) && fp !in cfg.accepted {}
  }

  lemma MissingOfOne(c: ContentChange, fps: Fingerprints, cfg: Config, fp: string)
    ensures fp in MissingOf(c, fps, cfg) <==> fp in MissingOf(c, fps, cfg.(accepted := {})) && fp !in cfg.accepted
  {
    if c.ContentModified? {
      MissingFieldsMembers(c.content, c.changes, fps, cfg);
      MissingFieldsMembers(c.content, c.changes, fps, cfg.(accepted := {}));
    }
  }

  // ------------------------------------------------------------ what the gate does not ask for

  /** `collect_required_fingerprints` for one change. */
  function RequiredOf(c: ContentChange, fps: Fingerprints): seq<string> {
    if !NeedsAck(c.tier) then []
    else if c.ContentModified? then
      seq(|c.changes|, i requires 0 <= i < |c.changes| => fps.ofField(c.content, c.changes[i]))
    else [fps.ofContent(c)]
  }

  lemma {:induction false} MissingFieldsLength(content: string, fcs: seq<FieldChange>, fps: Fingerprints, cfg: Config)
    requires cfg.accepted == {} && !BlanketLow(cfg)
    ensures |MissingFields(content, fcs, fps, cfg)| <= |fcs|
    ensures MissingFields(content, fcs, fps, cfg)
            == seq(|fcs|, i requires 0 <= i < |fcs| => fps.ofField(content, fcs[i]))
            <==> forall c :: c in fcs ==> NeedsAck(ClassifyField(c))
  {
    if fcs != [] {
      var init, last := fcs[..|fcs| - 1], fcs[|fcs| - 1];
      MissingFieldsLength(content, init, fps, cfg);
      var all := seq(|fcs|, i requires 0 <= i < |fcs| => fps.ofField(content, fcs[i]));
      var allInit := seq(|init|, i requires 0 <= i < |init| => fps.ofField(content, init[i]));
      assert all == allInit + [fps.ofField(content, last)];
      assert forall c :: c in fcs <==> c in init || c == last;
      var m := MissingFields(content, fcs, fps, cfg);
      if m == all {
        assert |MissingFields(content, init, fps, cfg)| == |init|;
        assert m[..|init|] == MissingFields(content, init, fps, cfg);
      }
    }
  }

  /** With nothing accepted, the gate asks for every fingerprint a modified content requires exactly when none of
      its field changes is safe or blocked on its own: those are skipped. */
  lemma GateAsksForEverythingRequiredIff(c: ContentChange, fps: Fingerprints, cfg: Config)
    requires c.ContentModified? && NeedsAck(c.tier) && cfg.accepted == {} && !BlanketLow(cfg)
    ensures MissingOf(c, fps, cfg) == RequiredOf(c, fps) <==>
              forall f :: f in c.changes ==> NeedsAck(ClassifyField(f))
  {
    MissingFieldsLength(c.content, c.changes, fps, cfg);
  }

  /** Dropping a field of an empty table: "low" after the downgrade, required by the collector, and yet the gate
      opens with nothing accepted. */
  lemma DroppedFieldOfEmptyTableNeedsNoAck(content: string, schema: Schema, field: string, fps: Fingerprints)
    ensures var c := ContentModified(content, Blocked, schema, [Removed(field)]);
            var d := DowngradeAll([c], name => true);
            && Classified(c)
            && d == [ContentModified(content, Low, schema, [Removed(field)])]
            && RequiredOf(d[0], fps) == [fps.ofField(content, Removed(field))]
            && MissingAll(d, fps, Config(false, false, {})) == []
  {
    var cs := [Removed(field)];
    var c := ContentModified(content, Blocked, schema, cs);
    assert FieldTiers(cs) == [Blocked];
    WorstIsLeastUpperBound(FieldTiers(cs));
    var empty := seq(|cs|, i requires 0 <= i < |cs| => EmptyTier(cs[i]));
    assert empty == [Low];
    WorstIsLeastUpperBound(empty);
    var d := [ContentModified(content, Low, schema, cs)];
    var cfg := Config(false, false, {});
    MissingFieldsMembers(content, cs, fps, cfg);
    EmptyIff(MissingFields(content, cs, fps, cfg));
    assert MissingAll(d, fps, cfg) == MissingAll(d[..0], fps, cfg) + MissingOf(d[0], fps, cfg);
  }
}
