/** Operator-declared renames folded into a diff (`apply_rename_mappings`, termin_core/migrations/classifier.py). */
module Renames {
  import opened Basics
  import opened Classifier

  datatype ContentRename = ContentRename(from: string, to: string)
  datatype FieldRename = FieldRename(content: string, from: string, to: string)

  /** M005: the mapping itself is malformed. M006: the diff has no such pair. */
  datatype RenameError = BadMapping | NoMatchingPair

  // ------------------------------------------------------------ list surgery

  /** `next((i for i, x in enumerate(xs) if p(x)), None)` */
  function FirstIndex<T>(xs: seq<T>, p: T -> bool): (r: Option<nat>)
    ensures r.Some? ==> r.value < |xs| && p(xs[r.value]) && forall k :: 0 <= k < r.value ==> !p(xs[k])
    ensures r.None? ==> forall k :: 0 <= k < |xs| ==> !p(xs[k])
  {
    if xs == [] then None
    else if p(xs[0]) then Some(0)
    else
      match FirstIndex(xs[1..], p)
      case None => assert forall k :: 0 < k < |xs| ==> xs[k] == xs[1..][k - 1]; None
      case Some(k) => assert forall j :: 0 < j < k + 1 ==> xs[j] == xs[1..][j - 1]; Some(k + 1)
  }

  function DropBoth<T>(xs: seq<T>, i: nat, j: nat): seq<T>
    requires i < |xs| && j < |xs| && i != j
  {
    if i < j then DropAt(DropAt(xs, j), i) else DropAt(DropAt(xs, i), j)
  }

  lemma DropAtElements<T>(xs: seq<T>, k: nat)
    requires k < |xs| && NoDup(xs)
    ensures NoDup(DropAt(xs, k)) && forall x :: x in DropAt(xs, k) <==> x in xs && x != xs[k]
  {
    var r := DropAt(xs, k);
    assert forall i :: 0 <= i < |r| ==> r[i] == xs[if i < k then i else i + 1];
    forall x | x in xs && x != xs[k] ensures x in r {
      var i :| 0 <= i < |xs| && xs[i] == x;
      assert r[if i < k then i else i - 1] == x;
    }
  }

  lemma DropBothElements<T>(xs: seq<T>, i: nat, j: nat)
    requires i < |xs| && j < |xs| && i != j && NoDup(xs)
    ensures NoDup(DropBoth(xs, i, j))
    ensures forall x :: x in DropBoth(xs, i, j) <==> x in xs && x != xs[i] && x != xs[j]
  {
    var hi, lo := if i < j then j else i, if i < j then i else j;
    DropAtElements(xs, hi);
    DropAtElements(DropAt(xs, hi), lo);
    assert DropAt(xs, hi)[lo] == xs[lo];
  }

  // ------------------------------------------------------------ one content rename

  predicate IsRemoved(c: ContentChange, name: string) {
    c.ContentRemoved? && c.content == name
  }

  predicate IsAdded(c: ContentChange, name: string) {
    c.ContentAdded? && c.content == name
  }

  /** `_apply_one_content_rename`. */
  function RenameContent(cs: seq<ContentChange>, m: ContentRename): Option<seq<ContentChange>> {
    var removed := FirstIndex(cs, (c: ContentChange) => IsRemoved(c, m.from));
    var added := FirstIndex(cs, (c: ContentChange) => IsAdded(c, m.to));
    if removed.None? || added.None? then None
    else
      Some(DropBoth(cs, removed.value, added.value)
           + [ContentRenamed(m.to, Low, cs[added.value].schema, m.from)])
  }

  function RenameContents(cs: seq<ContentChange>, ms: seq<ContentRename>): Option<seq<ContentChange>>
    decreases ms
  {
    if ms == [] then Some(cs)
    else
      match RenameContent(cs, ms[0])
      case None => None
      case Some(next) => RenameContents(next, ms[1..])
  }

  // ------------------------------------------------------------ one field rename

  function OldType(fcs: seq<FieldChange>, name: string, default: BusinessType): BusinessType {
    match FirstIndex(fcs, (c: FieldChange) => c.TypeChanged? && c.field == name)
    case None => default
    case Some(i) => fcs[i].fromType
  }

  /** The folded change: the new field's type comes from the target schema, the old one is inferred. */
  function FoldedField(fcs: seq<FieldChange>, schema: Schema, spec: FieldSpec, from: string, to: string): FieldChange {
    var fields := FieldsByName(schema.fields);
    var newType := (if to in fields then fields[to] else spec).businessType;
    var oldType := OldType(fcs, from, newType);
    Renamed(to, from, oldType != newType, oldType, newType)
  }

  function RenameFieldIn(fcs: seq<FieldChange>, schema: Schema, from: string, to: string): Option<seq<FieldChange>> {
    var removed := FirstIndex(fcs, (c: FieldChange) => c.Removed? && c.field == from);
    var added := FirstIndex(fcs, (c: FieldChange) => c.Added? && c.field == to);
    if removed.None? || added.None? then None
    else
      Some(DropBoth(fcs, removed.value, added.value)
           + [FoldedField(fcs, schema, fcs[added.value].spec, from, to)])
  }

  predicate IsModified(c: ContentChange, name: string) {
    c.ContentModified? && c.content == name
  }

  /** `_apply_one_field_rename`. */
  function RenameField(cs: seq<ContentChange>, m: FieldRename): Option<seq<ContentChange>> {
    match FirstIndex(cs, (c: ContentChange) => IsModified(c, m.content))
    case None => None
    case Some(i) =>
      match RenameFieldIn(cs[i].changes, cs[i].schema, m.from, m.to)
      case None => None
      case Some(fcs) => Some(cs[i := ContentModified(m.content, ClassifyModified(fcs), cs[i].schema, fcs)])
  }

  function RenameFields(cs: seq<ContentChange>, ms: seq<FieldRename>): Option<seq<ContentChange>>
    decreases ms
  {
    if ms == [] then Some(cs)
    else
      match RenameField(cs, ms[0])
      case None => None
      case Some(next) => RenameFields(next, ms[1..])
  }

  // ------------------------------------------------------------ validation

  /** Distinct non-empty ends, no source or target twice, no target that is also a source. */
  ghost predicate ValidContentRenames(ms: seq<ContentRename>) {
    && (forall m :: m in ms ==> m.from != "" && m.to != "" && m.from != m.to)
    && (forall i, j :: 0 <= i < j < |ms| ==> ms[i].from != ms[j].from && ms[i].to != ms[j].to)
    && (forall i, j :: 0 <= i < |ms| && 0 <= j < |ms| ==> ms[i].to != ms[j].from)
  }

  /** The same per content, except that chains are not looked for. */
  ghost predicate ValidFieldRenames(ms: seq<FieldRename>) {
    && (forall m :: m in ms ==> m.content != "" && m.from != "" && m.to != "" && m.from != m.to)
    && (forall i, j :: 0 <= i < j < |ms| && ms[i].content == ms[j].content ==>
          ms[i].from != ms[j].from && ms[i].to != ms[j].to)
  }

  /** `_validate_rename_mappings`, the content half. */
  method ValidateContentRenames(ms: seq<ContentRename>) returns (ok: bool)
    ensures ok <==> ValidContentRenames(ms)
  {
    var seenFrom, seenTo: set<string> := {}, {};
    for i := 0 to |ms|
      invariant seenFrom == set j | 0 <= j < i :: ms[j].from
      invariant seenTo == set j | 0 <= j < i :: ms[j].to
      invariant forall j :: 0 <= j < i ==> ms[j].from != "" && ms[j].to != "" && ms[j].from != ms[j].to
      invariant forall j, k :: 0 <= j < k < i ==> ms[j].from != ms[k].from && ms[j].to != ms[k].to
    {
      var m := ms[i];
      if m.from == "" || m.to == "" || m.from == m.to {
        assert m in ms;
        return false;
      }
      if m.from in seenFrom || m.to in seenTo {
        return false;
      }
      seenFrom, seenTo := seenFrom + {m.from}, seenTo + {m.to};
    }
    if seenFrom * seenTo != {} {
      var x :| x in seenFrom * seenTo;
      return false;
    }
    forall i, j | 0 <= i < |ms| && 0 <= j < |ms| ensures ms[i].to != ms[j].from {
      assert ms[i].to in seenTo && ms[j].from in seenFrom;
      assert ms[i].to !in seenFrom * seenTo;
    }
    ok := true;
  }

  /** The field half, with its seen-sets per content. */
  method ValidateFieldRenames(ms: seq<FieldRename>) returns (ok: bool)
    ensures ok <==> ValidFieldRenames(ms)
  {
    var seenFrom, seenTo: set<(string, string)> := {}, {};
    for i := 0 to |ms|
      invariant seenFrom == set j | 0 <= j < i :: (ms[j].content, ms[j].from)
      invariant seenTo == set j | 0 <= j < i :: (ms[j].content, ms[j].to)
      invariant forall j :: 0 <= j < i ==>
                  ms[j].content != "" && ms[j].from != "" && ms[j].to != "" && ms[j].from != ms[j].to
      invariant forall j, k :: 0 <= j < k < i && ms[j].content == ms[k].content ==>
                  ms[j].from != ms[k].from && ms[j].to != ms[k].to
    {
      var m := ms[i];
      if m.content == "" || m.from == "" || m.to == "" || m.from == m.to {
        assert m in ms;
        return false;
      }
      if (m.content, m.from) in seenFrom || (m.content, m.to) in seenTo {
        return false;
      }
      seenFrom, seenTo := seenFrom + {(m.content, m.from)}, seenTo + {(m.content, m.to)};
    }
    ok := true;
  }

  /** `apply_rename_mappings`: validate, then the content folds, then the field folds. */
  method ApplyRenameMappings(diff: seq<ContentChange>, fields: seq<FieldRename>, contents: seq<ContentRename>)
    returns (r: Result<seq<ContentChange>, RenameError>)
    ensures r == Failure(BadMapping) <==> !(ValidContentRenames(contents) && ValidFieldRenames(fields))
    ensures ValidContentRenames(contents) && ValidFieldRenames(fields) ==>
              r == Folded(diff, fields, contents)
  {
    var okContents := ValidateContentRenames(contents);
    if !okContents {
      return Failure(BadMapping);
    }
    var okFields := ValidateFieldRenames(fields);
    if !okFields {
      return Failure(BadMapping);
    }
    var changes := diff;
    for i := 0 to |contents|
      invariant RenameContents(changes, contents[i..]) == RenameContents(diff, contents)
    {
      var next := RenameContent(changes, contents[i]);
      if next.None? {
        return Failure(NoMatchingPair);
      }
      changes := next.value;
    }
    ghost var renamed := changes;
    for i := 0 to |fields|
      invariant RenameFields(changes, fields[i..]) == RenameFields(renamed, fields)
    {
      var next := RenameField(changes, fields[i]);
      if next.None? {
        return Failure(NoMatchingPair);
      }
      changes := next.value;
    }
    r := Success(changes);
  }

  function Folded(diff: seq<ContentChange>, fields: seq<FieldRename>, contents: seq<ContentRename>)
    : Result<seq<ContentChange>, RenameError>
  {
    match RenameContents(diff, contents)
    case None => Failure(NoMatchingPair)
    case Some(changes) =>
      match RenameFields(changes, fields)
      case None => Failure(NoMatchingPair)
      case Some(result) => Success(result)
  }

  // ------------------------------------------------------------ the shape of a computed diff

  /** At most one change per content. */
  ghost predicate DistinctContents(cs: seq<ContentChange>) {
    forall i, j :: 0 <= i < j < |cs| ==> cs[i].content != cs[j].content
  }

  // ------------------------------------------------------------ content renames in closed form

  ghost predicate HasPair(cs: seq<ContentChange>, m: ContentRename) {
    (exists c :: c in cs && IsRemoved(c, m.from)) && (exists c :: c in cs && IsAdded(c, m.to))
  }

  /** Is this change one of the two a rename uses up? */
  ghost predicate Consumed(ms: seq<ContentRename>, c: ContentChange) {
    exists m :: m in ms && (IsRemoved(c, m.from) || IsAdded(c, m.to))
  }

  /** `c` is what the mapping `m` makes of the diff `cs`. */
  ghost predicate Produced(cs: seq<ContentChange>, m: ContentRename, c: ContentChange) {
    exists a :: a in cs && IsAdded(a, m.to) && c == ContentRenamed(m.to, Low, a.schema, m.from)
  }

  lemma OneContentRename(cs: seq<ContentChange>, m: ContentRename)
    requires DistinctContents(cs) && m.from != m.to
    ensures RenameContent(cs, m).Some? <==> HasPair(cs, m)
    ensures RenameContent(cs, m).Some? ==>
              var r := RenameContent(cs, m).value;
              && DistinctContents(r)
              && forall c :: c in r <==> (c in cs && !IsRemoved(c, m.from) && !IsAdded(c, m.to)) || Produced(cs, m, c)
  {
    var removed := FirstIndex(cs, (c: ContentChange) => IsRemoved(c, m.from));
    var added := FirstIndex(cs, (c: ContentChange) => IsAdded(c, m.to));
    if removed.Some? && added.Some? {
      var i, j := removed.value, added.value;
      var r := RenameContent(cs, m).value;
      var kept := DropBoth(cs, i, j);
      assert NoDup(cs);
      DropBothElements(cs, i, j);
      assert cs[i] in cs && cs[j] in cs;
      forall c | c in cs ensures c == cs[i] <==> IsRemoved(c, m.from) {}
      forall c | c in cs ensures c == cs[j] <==> IsAdded(c, m.to) {}
      DistinctAppend(cs, kept, cs[j], r[|kept|]);
    }
  }

  /** A change takes the name of the one it replaces. */
  lemma DistinctAppend(cs: seq<ContentChange>, kept: seq<ContentChange>, gone: ContentChange, c: ContentChange)
    requires DistinctContents(cs) && NoDup(kept) && gone in cs && c.content == gone.content
    requires forall k :: k in kept ==> k in cs && k != gone
    ensures DistinctContents(kept + [c])
  {
    var r := kept + [c];
    forall a, b | 0 <= a < b < |r| ensures r[a].content != r[b].content {
      assert r[a] in kept && r[a] in cs;
      if b < |kept| { assert r[b] in kept && r[b] in cs && kept[a] != kept[b]; }
    }
  }

  /** What belongs in the result: the original without the pairs, and one rename for each mapping. */
  ghost predicate BelongsAfter(cs: seq<ContentChange>, ms: seq<ContentRename>, c: ContentChange) {
    (c in cs && !Consumed(ms, c)) || exists m :: m in ms && Produced(cs, m, c)
  }

  /** Content renames succeed exactly when every pair is in the original diff; the result is the original
      without the pairs and with one rename for each, and nothing else. */
  lemma {:induction false} ContentRenamesExact(cs: seq<ContentChange>, ms: seq<ContentRename>)
    requires DistinctContents(cs) && ValidContentRenames(ms)
    ensures RenameContents(cs, ms).Some? <==> forall m :: m in ms ==> HasPair(cs, m)
    ensures RenameContents(cs, ms).Some? ==>
              var r := RenameContents(cs, ms).value;
              DistinctContents(r) && forall c :: c in r <==> BelongsAfter(cs, ms, c)
    decreases ms
  {
    if ms != [] {
      var m, rest := ms[0], ms[1..];
      assert m in ms && forall x :: x in ms <==> x == m || x in rest;
      forall x | x in rest ensures x.from != m.from && x.to != m.to && x.from != m.to && x.to != m.from {
        var k :| 0 <= k < |rest| && rest[k] == x;
        assert ms[k + 1] == x;
      }
      OneContentRename(cs, m);
      if RenameContent(cs, m).Some? {
        var next := RenameContent(cs, m).value;
        assert ValidContentRenames(rest);
        ContentRenamesExact(next, rest);
        OtherPairsSurvive(cs, m, next, rest);
        forall c ensures BelongsAfter(cs, ms, c) <==> BelongsAfter(next, rest, c) {
          BelongsStep(cs, m, next, rest, ms, c);
        }
      }
    }
  }

  lemma BelongsStep(cs: seq<ContentChange>, m: ContentRename, next: seq<ContentChange>, rest: seq<ContentRename>,
                    ms: seq<ContentRename>, c: ContentChange)
    requires forall x :: x in ms <==> x == m || x in rest
    requires forall d :: d in next <==> (d in cs && !IsRemoved(d, m.from) && !IsAdded(d, m.to)) || Produced(cs, m, d)
    requires forall x, d :: x in rest ==> (Produced(next, x, d) <==> Produced(cs, x, d))
    ensures BelongsAfter(cs, ms, c) <==> BelongsAfter(next, rest, c)
  {
    assert Consumed(ms, c) <==> Consumed(rest, c) || IsRemoved(c, m.from) || IsAdded(c, m.to);
    if Produced(cs, m, c) {
      assert c in next && !Consumed(rest, c) && m in ms;
    }
    if exists x :: x in ms && Produced(cs, x, c) {
      var x :| x in ms && Produced(cs, x, c);
      if x != m { assert x in rest && Produced(next, x, c); }
    }
    if exists x :: x in rest && Produced(next, x, c) {
      var x :| x in rest && Produced(next, x, c);
      assert x in ms && Produced(cs, x, c);
    }
  }

  /** Folding one pair leaves the pairs of the other mappings as they were. */
  lemma OtherPairsSurvive(cs: seq<ContentChange>, m: ContentRename, next: seq<ContentChange>, rest: seq<ContentRename>)
    requires forall c :: c in next <==> (c in cs && !IsRemoved(c, m.from) && !IsAdded(c, m.to)) || Produced(cs, m, c)
    requires forall x :: x in rest ==> x.from != m.from && x.to != m.to && x.from != m.to && x.to != m.from
    ensures forall x :: x in rest ==> (HasPair(next, x) <==> HasPair(cs, x))
    ensures forall x, c :: x in rest ==> (Produced(next, x, c) <==> Produced(cs, x, c))
    ensures forall x, c :: x in rest && (IsRemoved(c, x.from) || IsAdded(c, x.to)) ==> (c in next <==> c in cs)
  {
    forall x, c | x in rest && (IsRemoved(c, x.from) || IsAdded(c, x.to)) ensures c in next <==> c in cs {}
  }

  /** The order of the content mappings does not matter. */
  lemma ContentRenamesCommute(cs: seq<ContentChange>, ms: seq<ContentRename>, ns: seq<ContentRename>)
    requires DistinctContents(cs) && ValidContentRenames(ms) && ValidContentRenames(ns)
    requires multiset(ms) == multiset(ns)
    ensures RenameContents(cs, ms).Some? <==> RenameContents(cs, ns).Some?
    ensures RenameContents(cs, ms).Some? ==>
              multiset(RenameContents(cs, ms).value) == multiset(RenameContents(cs, ns).value)
  {
    hide RenameContents;
    ContentRenamesExact(cs, ms);
    ContentRenamesExact(cs, ns);
    assert forall m :: m in ms <==> m in multiset(ms);
    assert forall m :: m in ns <==> m in multiset(ns);
    if RenameContents(cs, ms).Some? {
      var r, q := RenameContents(cs, ms).value, RenameContents(cs, ns).value;
      forall c ensures c in r <==> c in q {
        assert BelongsAfter(cs, ms, c) <==> BelongsAfter(cs, ns, c);
      }
      assert Elements(r) == Elements(q);
      NoDupSameElementsSamePermutation(r, q);
    }
  }

  // ------------------------------------------------------------ field renames in closed form

  predicate IsRemovedField(c: FieldChange, name: string) {
    c.Removed? && c.field == name
  }

  predicate IsAddedField(c: FieldChange, name: string) {
    c.Added? && c.field == name
  }

  /** What a computed diff guarantees of a field list, and what each fold keeps: no change twice, at most
      one "added" per field, and no type change recorded for a field that is removed. */
  ghost predicate TidyFields(fcs: seq<FieldChange>) {
    && NoDup(fcs)
    && (forall c, d :: c in fcs && d in fcs && c.Added? && d.Added? && c.field == d.field ==> c == d)
    && (forall c, d :: c in fcs && d in fcs && c.Removed? && d.TypeChanged? ==> c.field != d.field)
  }

  ghost predicate NoRenameOf(fcs: seq<FieldChange>, name: string) {
    forall c :: c in fcs && c.Renamed? ==> c.field != name
  }

  function NewType(schema: Schema, spec: FieldSpec, to: string): BusinessType {
    var fields := FieldsByName(schema.fields);
    (if to in fields then fields[to] else spec).businessType
  }

  ghost predicate HasFieldPair(fcs: seq<FieldChange>, m: FieldRename) {
    (exists c :: c in fcs && IsRemovedField(c, m.from)) && (exists c :: c in fcs && IsAddedField(c, m.to))
  }

  /** The fold never notices that the type changed: a removed field's old type is nowhere in the diff. */
  ghost predicate ProducedField(fcs: seq<FieldChange>, schema: Schema, m: FieldRename, c: FieldChange) {
    exists a :: a in fcs && IsAddedField(a, m.to)
                && c == Renamed(m.to, m.from, false, NewType(schema, a.spec, m.to), NewType(schema, a.spec, m.to))
  }

  lemma OneFieldRename(fcs: seq<FieldChange>, schema: Schema, m: FieldRename)
    requires TidyFields(fcs) && NoRenameOf(fcs, m.to)
    ensures RenameFieldIn(fcs, schema, m.from, m.to).Some? <==> HasFieldPair(fcs, m)
    ensures RenameFieldIn(fcs, schema, m.from, m.to).Some? ==>
              var r := RenameFieldIn(fcs, schema, m.from, m.to).value;
              && TidyFields(r)
              && forall c :: c in r <==> || (c in fcs && !IsRemovedField(c, m.from) && !IsAddedField(c, m.to))
                                         || ProducedField(fcs, schema, m, c)
  {
    var removed := FirstIndex(fcs, (c: FieldChange) => c.Removed? && c.field == m.from);
    var added := FirstIndex(fcs, (c: FieldChange) => c.Added? && c.field == m.to);
    if removed.Some? && added.Some? {
      var i, j := removed.value, added.value;
      var kept := DropBoth(fcs, i, j);
      DropBothElements(fcs, i, j);
      assert fcs[i] in fcs && fcs[j] in fcs;
      forall c | c in fcs ensures c == fcs[i] <==> IsRemovedField(c, m.from) {}
      forall c | c in fcs ensures c == fcs[j] <==> IsAddedField(c, m.to) {}
      var folded := FoldedField(fcs, schema, fcs[j].spec, m.from, m.to);
      OneFoldedField(fcs, schema, m, fcs[j]);
      assert RenameFieldIn(fcs, schema, m.from, m.to).value == kept + [folded];
      TidyAppend(kept, folded);
    }
  }

  lemma OneFoldedField(fcs: seq<FieldChange>, schema: Schema, m: FieldRename, a: FieldChange)
    requires TidyFields(fcs) && NoRenameOf(fcs, m.to) && a in fcs && IsAddedField(a, m.to)
    requires exists c :: c in fcs && IsRemovedField(c, m.from)
    ensures var folded := FoldedField(fcs, schema, a.spec, m.from, m.to);
            && folded.Renamed? && folded !in fcs
            && forall c :: c == folded <==> ProducedField(fcs, schema, m, c)
  {
    var t := NewType(schema, a.spec, m.to);
    NoTypeChangeSeen(fcs, m.from, t);
    var folded := FoldedField(fcs, schema, a.spec, m.from, m.to);
    assert folded == Renamed(m.to, m.from, false, t, t);
    assert ProducedField(fcs, schema, m, folded);
  }

  lemma TidyAppend(kept: seq<FieldChange>, folded: FieldChange)
    requires TidyFields(kept) && folded.Renamed? && folded !in kept
    ensures TidyFields(kept + [folded])
  {
    assert forall c :: c in kept + [folded] <==> c in kept || c == folded;
  }

  lemma NoTypeChangeSeen(fcs: seq<FieldChange>, name: string, default: BusinessType)
    requires TidyFields(fcs) && exists c :: c in fcs && IsRemovedField(c, name)
    ensures OldType(fcs, name, default) == default
  {
    var c :| c in fcs && IsRemovedField(c, name);
    assert forall k :: 0 <= k < |fcs| ==> fcs[k] in fcs && !(fcs[k].TypeChanged? && fcs[k].field == name);
  }

  // ---- all field mappings over all contents

  ghost predicate FieldConsumed(ms: seq<FieldRename>, content: string, c: FieldChange) {
    exists m :: m in ms && m.content == content && (IsRemovedField(c, m.from) || IsAddedField(c, m.to))
  }

  /** What belongs in a content's field list after the mappings `ms`. */
  ghost predicate FieldBelongs(before: ContentChange, ms: seq<FieldRename>, c: FieldChange)
    requires before.ContentModified?
  {
    || (c in before.changes && !FieldConsumed(ms, before.content, c))
    || exists m :: m in ms && m.content == before.content && ProducedField(before.changes, before.schema, m, c)
  }

  ghost predicate Touched(ms: seq<FieldRename>, content: string) {
    exists m :: m in ms && m.content == content
  }

  /** `after` is `before` with the mappings that name its content folded in and its tier recomputed; a content
      no mapping names is untouched. */
  ghost predicate FoldedInto(before: ContentChange, ms: seq<FieldRename>, after: ContentChange) {
    if before.ContentModified? && Touched(ms, before.content) then
      && after.ContentModified? && after.content == before.content && after.schema == before.schema
      && after.tier == ClassifyModified(after.changes)
      && NoDup(after.changes)
      && forall c :: c in after.changes <==> FieldBelongs(before, ms, c)
    else after == before
  }

  ghost predicate PairPresent(cs: seq<ContentChange>, m: FieldRename) {
    exists c :: c in cs && IsModified(c, m.content) && HasFieldPair(c.changes, m)
  }

  /** Every modified content is tidy and holds no rename onto a name that is still to be mapped. */
  ghost predicate TidyContents(cs: seq<ContentChange>, ms: seq<FieldRename>) {
    && DistinctContents(cs)
    && forall c :: c in cs && c.ContentModified? ==>
         TidyFields(c.changes) && forall m :: m in ms && m.content == c.content ==> NoRenameOf(c.changes, m.to)
  }

  /** One mapping: where it lands, and what it leaves alone. */
  lemma OneContentFieldRename(cs: seq<ContentChange>, m: FieldRename)
    requires TidyContents(cs, [m])
    ensures RenameField(cs, m).Some? <==> PairPresent(cs, m)
    ensures RenameField(cs, m).Some? ==>
              var next := RenameField(cs, m).value;
              && |next| == |cs|
              && exists i :: && 0 <= i < |cs| && IsModified(cs[i], m.content)
                             && RenameFieldIn(cs[i].changes, cs[i].schema, m.from, m.to).Some?
                             && var fcs := RenameFieldIn(cs[i].changes, cs[i].schema, m.from, m.to).value;
                                next == cs[i := ContentModified(m.content, ClassifyModified(fcs), cs[i].schema, fcs)]
  {
    var found := FirstIndex(cs, (c: ContentChange) => IsModified(c, m.content));
    if found.Some? {
      var i := found.value;
      assert cs[i] in cs && m in [m];
      OneFieldRename(cs[i].changes, cs[i].schema, m);
      assert forall c :: c in cs && IsModified(c, m.content) ==> c == cs[i];
    }
  }

  /** Field renames succeed exactly when every pair is in the original diff, and then every content is the
      original with its own mappings folded in. */
  lemma {:induction false} FieldRenamesExact(cs: seq<ContentChange>, ms: seq<FieldRename>)
    requires ValidFieldRenames(ms) && TidyContents(cs, ms)
    ensures RenameFields(cs, ms).Some? <==> forall m :: m in ms ==> PairPresent(cs, m)
    ensures RenameFields(cs, ms).Some? ==>
              var r := RenameFields(cs, ms).value;
              |r| == |cs| && forall i :: 0 <= i < |cs| ==> FoldedInto(cs[i], ms, r[i])
    decreases ms
  {
    if ms != [] {
      var m, rest := ms[0], ms[1..];
      ValidTail(ms);
      FirstFieldRename(cs, m, rest, ms);
      if RenameField(cs, m).Some? {
        var next := RenameField(cs, m).value;
        FieldRenamesExact(next, rest);
        RestFolds(cs, m, rest, ms, next);
      }
    }
  }

  lemma ValidTail(ms: seq<FieldRename>)
    requires ms != [] && ValidFieldRenames(ms)
    ensures ValidFieldRenames(ms[1..])
    ensures forall x :: x in ms <==> x == ms[0] || x in ms[1..]
    ensures forall x :: x in ms[1..] && x.content == ms[0].content ==> x.from != ms[0].from && x.to != ms[0].to
  {
    forall x | x in ms[1..] && x.content == ms[0].content ensures x.from != ms[0].from && x.to != ms[0].to {
      var k :| 0 <= k < |ms[1..]| && ms[1..][k] == x;
      assert ms[k + 1] == x;
    }
  }

  lemma RestFolds(cs: seq<ContentChange>, m: FieldRename, rest: seq<FieldRename>, ms: seq<FieldRename>,
                  next: seq<ContentChange>)
    requires DistinctContents(cs) && exists i :: AppliedAt(cs, m, i, next)
    requires forall x :: x in ms <==> x == m || x in rest
    requires forall x :: x in rest && x.content == m.content ==> x.from != m.from && x.to != m.to
    ensures forall x :: x in rest ==> (PairPresent(next, x) <==> PairPresent(cs, x))
    ensures |next| == |cs|
    ensures forall k, after :: 0 <= k < |cs| && FoldedInto(next[k], rest, after) ==> FoldedInto(cs[k], ms, after)
  {
    var i :| AppliedAt(cs, m, i, next);
    forall x | x in rest ensures PairPresent(next, x) <==> PairPresent(cs, x) {
      PairSurvives(cs, m, i, next, x);
    }
    forall k, after | 0 <= k < |cs| && FoldedInto(next[k], rest, after) ensures FoldedInto(cs[k], ms, after) {
      FoldStep(cs, m, rest, ms, i, next, k, after);
    }
  }

  lemma FirstFieldRename(cs: seq<ContentChange>, m: FieldRename, rest: seq<FieldRename>, ms: seq<FieldRename>)
    requires TidyContents(cs, ms) && forall x :: x in ms <==> x == m || x in rest
    requires forall x :: x in rest && x.content == m.content ==> x.from != m.from && x.to != m.to
    ensures RenameField(cs, m).Some? <==> PairPresent(cs, m)
    ensures RenameField(cs, m).Some? ==>
              var next := RenameField(cs, m).value;
              TidyContents(next, rest) && exists i :: AppliedAt(cs, m, i, next)
  {
    assert TidyContents(cs, [m]);
    OneContentFieldRename(cs, m);
    if RenameField(cs, m).Some? {
      var next := RenameField(cs, m).value;
      var i :| && 0 <= i < |cs| && IsModified(cs[i], m.content)
               && RenameFieldIn(cs[i].changes, cs[i].schema, m.from, m.to).Some?
               && var fcs := RenameFieldIn(cs[i].changes, cs[i].schema, m.from, m.to).value;
                  next == cs[i := ContentModified(m.content, ClassifyModified(fcs), cs[i].schema, fcs)];
      NextIsTidy(cs, m, rest, ms, i, next);
    }
  }

  /** The facts of one applied mapping, in the form the lemmas below share. */
  ghost predicate AppliedAt(cs: seq<ContentChange>, m: FieldRename, i: nat, next: seq<ContentChange>) {
    && i < |cs| && |next| == |cs| && IsModified(cs[i], m.content) && IsModified(next[i], m.content)
    && (forall k :: 0 <= k < |cs| && k != i ==> next[k] == cs[k])
    && next[i].schema == cs[i].schema && next[i].tier == ClassifyModified(next[i].changes)
    && NoDup(next[i].changes)
    && (forall c :: c in next[i].changes <==>
          || (c in cs[i].changes && !IsRemovedField(c, m.from) && !IsAddedField(c, m.to))
          || ProducedField(cs[i].changes, cs[i].schema, m, c))
  }

  lemma NextIsTidy(cs: seq<ContentChange>, m: FieldRename, rest: seq<FieldRename>, ms: seq<FieldRename>, i: nat,
                   next: seq<ContentChange>)
    requires TidyContents(cs, ms) && forall x :: x in ms <==> x == m || x in rest
    requires forall x :: x in rest && x.content == m.content ==> x.from != m.from && x.to != m.to
    requires i < |cs| && IsModified(cs[i], m.content)
    requires RenameFieldIn(cs[i].changes, cs[i].schema, m.from, m.to).Some?
    requires var fcs := RenameFieldIn(cs[i].changes, cs[i].schema, m.from, m.to).value;
             next == cs[i := ContentModified(m.content, ClassifyModified(fcs), cs[i].schema, fcs)]
    ensures TidyContents(next, rest) && AppliedAt(cs, m, i, next)
  {
    assert cs[i] in cs && m in ms;
    OneFieldRename(cs[i].changes, cs[i].schema, m);
    forall c | c in next && c.ContentModified?
      ensures TidyFields(c.changes)
      ensures forall x :: x in rest && x.content == c.content ==> NoRenameOf(c.changes, x.to)
    {
      if c != next[i] { assert c in cs; }
    }
  }

  lemma PairSurvives(cs: seq<ContentChange>, m: FieldRename, i: nat, next: seq<ContentChange>, x: FieldRename)
    requires DistinctContents(cs) && AppliedAt(cs, m, i, next)
    requires x.content == m.content ==> x.from != m.from && x.to != m.to
    ensures PairPresent(next, x) <==> PairPresent(cs, x)
  {
    if x.content == m.content {
      assert cs[i] in cs && next[i] in next;
      assert forall c :: c in cs && IsModified(c, x.content) ==> c == cs[i];
      assert forall c :: c in next && IsModified(c, x.content) ==> c == next[i];
      assert forall c :: IsRemovedField(c, x.from) ==> (c in next[i].changes <==> c in cs[i].changes);
      assert forall c :: IsAddedField(c, x.to) ==> (c in next[i].changes <==> c in cs[i].changes);
    } else {
      assert forall k :: 0 <= k < |cs| && IsModified(cs[k], x.content) ==> next[k] == cs[k] && next[k] in next;
      assert forall k :: 0 <= k < |cs| && IsModified(next[k], x.content) ==> next[k] == cs[k] && cs[k] in cs;
    }
  }

  lemma FoldStep(cs: seq<ContentChange>, m: FieldRename, rest: seq<FieldRename>, ms: seq<FieldRename>, i: nat,
                 next: seq<ContentChange>, k: nat, after: ContentChange)
    requires k < |cs| && DistinctContents(cs) && AppliedAt(cs, m, i, next)
    requires forall x :: x in ms <==> x == m || x in rest
    requires forall x :: x in rest && x.content == m.content ==> x.from != m.from && x.to != m.to
    requires FoldedInto(next[k], rest, after)
    ensures FoldedInto(cs[k], ms, after)
  {
    if k == i {
      assert m in ms && Touched(ms, m.content);
      forall c ensures c in after.changes <==> FieldBelongs(cs[i], ms, c) {
        FieldBelongsStep(cs[i], next[i], m, rest, ms, c);
        if !Touched(rest, m.content) {
          assert !FieldConsumed(rest, m.content, c);
        }
      }
    } else {
      assert cs[k].ContentModified? ==> cs[k].content != m.content;
      assert cs[k].ContentModified? ==> (Touched(ms, cs[k].content) <==> Touched(rest, cs[k].content));
      if cs[k].ContentModified? && Touched(ms, cs[k].content) {
        forall c ensures FieldBelongs(cs[k], ms, c) <==> FieldBelongs(next[k], rest, c) {}
      }
    }
  }

  lemma FieldBelongsStep(before: ContentChange, mid: ContentChange, m: FieldRename, rest: seq<FieldRename>,
                         ms: seq<FieldRename>, c: FieldChange)
    requires IsModified(before, m.content) && IsModified(mid, m.content) && mid.schema == before.schema
    requires forall x :: x in ms <==> x == m || x in rest
    requires forall x :: x in rest && x.content == m.content ==> x.from != m.from && x.to != m.to
    requires forall d :: d in mid.changes <==>
               || (d in before.changes && !IsRemovedField(d, m.from) && !IsAddedField(d, m.to))
               || ProducedField(before.changes, before.schema, m, d)
    ensures FieldBelongs(before, ms, c) <==> FieldBelongs(mid, rest, c)
  {
    forall x | x in rest && x.content == m.content
      ensures ProducedField(mid.changes, mid.schema, x, c) <==> ProducedField(before.changes, before.schema, x, c)
    {
      assert forall a :: IsAddedField(a, x.to) ==> (a in mid.changes <==> a in before.changes);
    }
    assert FieldConsumed(ms, m.content, c) <==>
           FieldConsumed(rest, m.content, c) || IsRemovedField(c, m.from) || IsAddedField(c, m.to);
  }
}
