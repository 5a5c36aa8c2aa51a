/** Field-level redaction of confidential data (termin_core/confidentiality/redaction.py). */
module Redaction {
  import opened Basics

  /** The JSON-like values records hold; a redaction marker is one of the dictionaries. */
  datatype Data = Leaf(v: Value) | Dict(entries: map<string, Data>) | List(items: seq<Data>)

  type DataRecord = map<string, Data>

  datatype Field = Field(name: string, businessType: string, scopes: seq<string>)

  datatype Content = Content(fields: seq<Field>, scopes: seq<string>)

  // ------------------------------------------------------------ scopes and markers

  function Required(f: Field, c: Content): set<string> {
    (set s | s in c.scopes) + (set s | s in f.scopes)
  }

  /** `effective_scopes` */
  method EffectiveScopes(f: Field, c: Content) returns (scopes: set<string>)
    ensures scopes == Required(f, c)
  {
    scopes := {};
    scopes := scopes + (set s | s in c.scopes);
    scopes := scopes + (set s | s in f.scopes);
  }

  predicate Hides(f: Field, c: Content, caller: set<string>) {
    Required(f, c) != {} && !(Required(f, c) <= caller)
  }

  /** `_make_redaction_marker` */
  function Marker(f: Field, missing: string): Data {
    Dict(map["__redacted" := Leaf(Bool(true)), "field" := Leaf(Str(f.name)),
             "expected_type" := Leaf(Str(f.businessType)), "scope" := Leaf(Str(missing)),
             "reason" := Leaf(Str("requires scope '" + missing + "'"))])
  }

  predicate IsRedacted(d: Data) {
    d.Dict? && "__redacted" in d.entries && d.entries["__redacted"] == Leaf(Bool(true))
  }

  /** The first missing scope in sorted order. */
  ghost function FirstMissing(f: Field, c: Content, caller: set<string>): (s: string)
    requires Hides(f, c, caller)
    ensures IsLeast(s, Required(f, c) - caller)
  {
    var missing := Required(f, c) - caller;
    MissingScope(missing, Required(f, c), caller);
    Sorted(missing)[0]
  }

  lemma MissingScope(missing: set<string>, required: set<string>, caller: set<string>)
    requires missing == required - caller && !(required <= caller)
    ensures Sorted(missing) != [] && IsLeast(Sorted(missing)[0], missing)
  {
    var s :| s in required && s !in caller;
    assert s in missing;
    SortedHeadIsLeast(missing);
  }

  ghost function MarkerFor(f: Field, c: Content, caller: set<string>): Data
    requires Hides(f, c, caller)
  {
    Marker(f, FirstMissing(f, c, caller))
  }

  method MakeMarker(f: Field, c: Content, required: set<string>, caller: set<string>) returns (m: Data)
    requires Hides(f, c, caller) && required == Required(f, c)
    ensures m == MarkerFor(f, c, caller)
  {
    MissingScope(required - caller, required, caller);
    assert Sorted(required - caller)[0] in required - caller;
    var missing := LeastOf(required - caller);
    StringLeqAntisymmetric(missing, FirstMissing(f, c, caller));
    m := Marker(f, missing);
  }

  // ------------------------------------------------------------ what the redacted record is

  /** The field a key is looked up as: the last declared with that name. */
  function FieldNamed(fields: seq<Field>, key: string): Option<Field> {
    if fields == [] then None
    else if fields[|fields| - 1].name == key then Some(fields[|fields| - 1])
    else FieldNamed(fields[..|fields| - 1], key)
  }

  /** The field whose marker pads an absent key: the last of that name that is hidden. */
  function PaddingField(fields: seq<Field>, c: Content, caller: set<string>, key: string): Option<Field> {
    if fields == [] then None
    else
      var last := fields[|fields| - 1];
      if last.name == key && Hides(last, c, caller) then Some(last)
      else PaddingField(fields[..|fields| - 1], c, caller, key)
  }

  lemma {:induction false} PaddingFieldHides(fields: seq<Field>, c: Content, caller: set<string>, key: string)
    ensures var p := PaddingField(fields, c, caller, key);
            && (p.Some? ==> p.value in fields && p.value.name == key && Hides(p.value, c, caller))
            && (p.None? ==> forall f :: f in fields && f.name == key ==> !Hides(f, c, caller))
  {
    if fields != [] {
      PaddingFieldHides(fields[..|fields| - 1], c, caller, key);
      assert forall f :: f in fields <==> f in fields[..|fields| - 1] || f == fields[|fields| - 1];
    }
  }

  /** A key the caller may not see. */
  predicate Hidden(c: Content, caller: set<string>, key: string) {
    var f := FieldNamed(c.fields, key);
    f.Some? && Hides(f.value, c, caller)
  }

  function Names(fields: seq<Field>): set<string> {
    set f | f in fields :: f.name
  }

  /** What the caller is shown under `key`, if anything. */
  ghost function Shown(record: DataRecord, c: Content, fields: seq<Field>, caller: set<string>, key: string)
    : Option<Data>
  {
    if key in record then
      if Hidden(c, caller, key) then Some(MarkerFor(FieldNamed(c.fields, key).value, c, caller)) else Some(record[key])
    else
      PaddingFieldHides(fields, c, caller, key);
      match PaddingField(fields, c, caller, key)
      case None => None
      case Some(f) => Some(MarkerFor(f, c, caller))
  }

  ghost function Redact(record: DataRecord, c: Content, caller: set<string>): DataRecord {
    map key | key in record.Keys + Names(c.fields) && Shown(record, c, c.fields, caller, key).Some?
              :: Shown(record, c, c.fields, caller, key).value
  }

  lemma RedactAt(record: DataRecord, c: Content, caller: set<string>, key: string)
    ensures Shown(record, c, c.fields, caller, key) ==
            Lookup(Redact(record, c, caller), key)
  {
    PaddingFieldHides(c.fields, c, caller, key);
  }

  // ------------------------------------------------------------ the code

  /** `{f["name"]: f for f in fields}` */
  method FieldsByName(fields: seq<Field>) returns (byName: map<string, Field>)
    ensures forall key :: FieldNamed(fields, key) == Lookup(byName, key)
  {
    byName := map[];
    var i := 0;
    while i < |fields|
      invariant 0 <= i <= |fields|
      invariant forall key :: FieldNamed(fields[..i], key) == Lookup(byName, key)
    {
      assert fields[..i + 1][..i] == fields[..i];
      byName := byName[fields[i].name := fields[i]];
      i := i + 1;
    }
    assert fields[..i] == fields;
  }

  /** `redact_record` */
  method RedactRecord(record: DataRecord, c: Content, caller: set<string>) returns (result: DataRecord)
    ensures result == Redact(record, c, caller)
  {
    var byName := FieldsByName(c.fields);
    result := PresentKeys(record, c, byName, caller);
    result := AbsentFields(record, c, caller, result);
    forall key ensures Lookup(result, key) == Lookup(Redact(record, c, caller), key) {
      RedactAt(record, c, caller, key);
    }
    assert forall key :: key in result <==> Lookup(result, key).Some?;
    assert forall key :: key in Redact(record, c, caller) <==> Lookup(Redact(record, c, caller), key).Some?;
  }

  /** The second pass: a marker for every hidden field the record does not have. */
  method AbsentFields(record: DataRecord, c: Content, caller: set<string>, present: DataRecord)
    returns (result: DataRecord)
    requires forall key :: Shown(record, c, [], caller, key) == Lookup(present, key)
    ensures forall key :: Shown(record, c, c.fields, caller, key) == Lookup(result, key)
  {
    result := present;
    var i := 0;
    while i < |c.fields|
      invariant 0 <= i <= |c.fields|
      invariant forall key :: Shown(record, c, c.fields[..i], caller, key) == Lookup(result, key)
    {
      var f := c.fields[i];
      assert c.fields[..i + 1][..i] == c.fields[..i];
      if f.name !in record {
        var required := EffectiveScopes(f, c);
        if required != {} && !(required <= caller) {
          var m := MakeMarker(f, c, required, caller);
          result := result[f.name := m];
        }
      }
      forall key ensures Shown(record, c, c.fields[..i + 1], caller, key) == Lookup(result, key) {
        ShownStep(record, c, c.fields[..i], f, c.fields[..i + 1], caller, key);
      }
      i := i + 1;
    }
    assert c.fields[..i] == c.fields;
  }

  /** One more field matters only under its own name, when it is absent and hidden. */
  lemma ShownStep(record: DataRecord, c: Content, front: seq<Field>, f: Field, all: seq<Field>, caller: set<string>,
                  key: string)
    requires all == front + [f]
    ensures Shown(record, c, all, caller, key) ==
            if key !in record && f.name == key && Hides(f, c, caller) then Some(MarkerFor(f, c, caller))
            else Shown(record, c, front, caller, key)
  {
    assert all[..|all| - 1] == front;
  }

  /** The first pass: redact in place or pass through. */
  method PresentKeys(record: DataRecord, c: Content, byName: map<string, Field>, caller: set<string>)
    returns (result: DataRecord)
    requires forall key :: FieldNamed(c.fields, key) == Lookup(byName, key)
    ensures forall key :: Shown(record, c, [], caller, key) == Lookup(result, key)
  {
    result := map[];
    var todo := record.Keys;
    while todo != {}
      invariant todo <= record.Keys && result.Keys == record.Keys - todo
      invariant forall key :: key in result ==> Some(result[key]) == Shown(record, c, [], caller, key)
      decreases |todo|
    {
      var key :| key in todo;
      todo := todo - {key};
      if key !in byName {
        result := result[key := record[key]];
      } else {
        var f := byName[key];
        var required := EffectiveScopes(f, c);
        if required != {} && !(required <= caller) {
          var m := MakeMarker(f, c, required, caller);
          result := result[key := m];
        } else {
          result := result[key := record[key]];
        }
      }
    }
  }

  ghost function RedactAll(records: seq<DataRecord>, c: Content, caller: set<string>): seq<DataRecord> {
    seq(|records|, i requires 0 <= i < |records| => Redact(records[i], c, caller))
  }

  /** `redact_records` */
  method RedactRecords(records: seq<DataRecord>, c: Content, caller: set<string>) returns (results: seq<DataRecord>)
    ensures results == RedactAll(records, c, caller)
  {
    results := [];
    var i := 0;
    while i < |records|
      invariant 0 <= i <= |records|
      invariant results == RedactAll(records[..i], c, caller)
    {
      var r := RedactRecord(records[i], c, caller);
      results := results + [r];
      i := i + 1;
    }
    assert records[..i] == records;
  }

  /** `check_write_access`: the refused key, or nothing. */
  method CheckWriteAccess(payload: DataRecord, c: Content, caller: set<string>) returns (refused: Option<string>)
    ensures refused.None? <==> forall key :: key in payload ==> !Hidden(c, caller, key)
    ensures refused.Some? ==> refused.value in payload && Hidden(c, caller, refused.value)
  {
    var byName := FieldsByName(c.fields);
    var todo := payload.Keys;
    while todo != {}
      invariant todo <= payload.Keys
      invariant forall key :: key in payload && key !in todo ==> !Hidden(c, caller, key)
      decreases |todo|
    {
      var key :| key in todo;
      todo := todo - {key};
      if key in byName {
        var required := EffectiveScopes(byName[key], c);
        if required != {} && !(required <= caller) {
          return Some(key);
        }
      }
    }
    return None;
  }

  /** A field that should be hidden from the delegate arrives with a value. */
  predicate Tainted(record: DataRecord, c: Content, delegate: set<string>, key: string) {
    key in record && Hidden(c, delegate, key) && record[key] != Leaf(Null) && !IsRedacted(record[key])
  }

  /** `check_taint_integrity`: the offending field, or nothing. */
  method CheckTaintIntegrity(input: seq<DataRecord>, c: Content, delegate: set<string>) returns (bad: Option<string>)
    ensures bad.None? <==> forall i, key :: 0 <= i < |input| ==> !Tainted(input[i], c, delegate, key)
    ensures bad.Some? ==> exists i :: 0 <= i < |input| && Tainted(input[i], c, delegate, bad.value)
  {
    var byName := FieldsByName(c.fields);
    var i := 0;
    while i < |input|
      invariant 0 <= i <= |input|
      invariant forall k, key :: 0 <= k < i ==> !Tainted(input[k], c, delegate, key)
    {
      var record := input[i];
      var todo := record.Keys;
      while todo != {}
        invariant todo <= record.Keys
        invariant forall key :: key !in todo ==> !Tainted(record, c, delegate, key)
        decreases |todo|
      {
        var key :| key in todo;
        todo := todo - {key};
        if key in byName {
          var required := EffectiveScopes(byName[key], c);
          if required != {} && !(required <= delegate) {
            if record[key] != Leaf(Null) && !IsRedacted(record[key]) {
              assert Tainted(input[i], c, delegate, key);
              return Some(key);
            }
          }
        }
      }
      i := i + 1;
    }
    return None;
  }

  predicate TruthyData(d: Data) {
    match d
    case Leaf(v) => Truthy(v)
    case Dict(m) => m != map[]
    case List(xs) => xs != []
  }

  /** `check_for_redacted_values` finds a marker, at any depth. */
  predicate ContainsMarker(d: Data) {
    match d
    case Leaf(_) => false
    case Dict(m) => ("__redacted" in m && TruthyData(m["__redacted"])) || exists k :: k in m && ContainsMarker(m[k])
    case List(xs) => exists i :: 0 <= i < |xs| && ContainsMarker(xs[i])
  }
}

/** What redaction guarantees. */
module RedactionLaws {
  import opened Basics
  import opened Redaction

  /** Two records a caller may not tell apart: equal, present and absent, on every key not hidden from the caller. */
  ghost predicate LookAlike(r: DataRecord, s: DataRecord, c: Content, caller: set<string>) {
    forall key :: !Hidden(c, caller, key) ==> (key in r <==> key in s) && (key in r ==> r[key] == s[key])
  }

  lemma {:induction false} HiddenKeyIsPaddedAsShown(fields: seq<Field>, c: Content, caller: set<string>, key: string)
    requires var f := FieldNamed(fields, key); f.Some? && Hides(f.value, c, caller)
    ensures PaddingField(fields, c, caller, key) == FieldNamed(fields, key)
  {
    if fields[|fields| - 1].name != key {
      HiddenKeyIsPaddedAsShown(fields[..|fields| - 1], c, caller, key);
    }
  }

  /** Noninterference: neither the value nor the presence of a hidden field shows. */
  lemma HiddenFieldsDoNotInterfere(r: DataRecord, s: DataRecord, c: Content, caller: set<string>)
    requires LookAlike(r, s, c, caller)
    ensures Redact(r, c, caller) == Redact(s, c, caller)
  {
    forall key
      ensures Shown(r, c, c.fields, caller, key) == Shown(s, c, c.fields, caller, key)
    {
      if Hidden(c, caller, key) { HiddenKeyIsPaddedAsShown(c.fields, c, caller, key); }
    }
    MapsEqualWhenShown(r, s, c, caller);
  }

  lemma MapsEqualWhenShown(r: DataRecord, s: DataRecord, c: Content, caller: set<string>)
    requires forall key :: Shown(r, c, c.fields, caller, key) == Shown(s, c, c.fields, caller, key)
    ensures Redact(r, c, caller) == Redact(s, c, caller)
  {
    var a, b := Redact(r, c, caller), Redact(s, c, caller);
    forall key ensures (key in a <==> key in b) && (key in a ==> a[key] == b[key]) {
      RedactAt(r, c, caller, key);
      RedactAt(s, c, caller, key);
    }
  }

  /** The converse: what is not hidden is shown as it is, so records that differ there redact differently. */
  lemma VisibleFieldsAreTold(r: DataRecord, s: DataRecord, c: Content, caller: set<string>)
    requires DistinctNames(c.fields) && Redact(r, c, caller) == Redact(s, c, caller)
    ensures LookAlike(r, s, c, caller)
  {
    forall key | !Hidden(c, caller, key)
      ensures (key in r <==> key in s) && (key in r ==> r[key] == s[key])
    {
      RedactAt(r, c, caller, key);
      RedactAt(s, c, caller, key);
      OneFieldPerName(c.fields, c, caller, key);
    }
  }

  ghost predicate DistinctNames(fields: seq<Field>) {
    forall i, j :: 0 <= i < j < |fields| ==> fields[i].name != fields[j].name
  }

  lemma {:induction false} OneFieldPerName(fields: seq<Field>, c: Content, caller: set<string>, key: string)
    requires DistinctNames(fields)
    ensures var f := FieldNamed(fields, key);
            PaddingField(fields, c, caller, key) == if f.Some? && Hides(f.value, c, caller) then f else None
    ensures FieldNamed(fields, key).None? ==> key !in Names(fields)
  {
    if fields != [] {
      var front, last := fields[..|fields| - 1], fields[|fields| - 1];
      OneFieldPerName(front, c, caller, key);
      assert Names(fields) == Names(front) + {last.name} by {
        assert forall f :: f in fields <==> f in front || f == last;
      }
      if last.name == key {
        PaddingFieldHides(front, c, caller, key);
        assert forall f :: f in front ==> f.name != key;
      }
    }
  }

  /** Redacting for one caller and then for a caller with fewer scopes is redacting for the second. */
  lemma RedactingTwiceIsRedactingOnce(r: DataRecord, c: Content, more: set<string>, fewer: set<string>)
    requires DistinctNames(c.fields) && fewer <= more
    ensures Redact(Redact(r, c, more), c, fewer) == Redact(r, c, fewer)
  {
    var once := Redact(r, c, more);
    forall key ensures Shown(once, c, c.fields, fewer, key) == Shown(r, c, c.fields, fewer, key) {
      RedactAt(r, c, more, key);
      OneFieldPerName(c.fields, c, more, key);
      OneFieldPerName(c.fields, c, fewer, key);
    }
    MapsEqualWhenShown(once, r, c, fewer);
  }

  /** Redacted records always pass the taint check for the same scopes. */
  lemma RedactedDataIsUntainted(records: seq<DataRecord>, c: Content, caller: set<string>)
    ensures forall i, key :: 0 <= i < |records| ==> !Tainted(RedactAll(records, c, caller)[i], c, caller, key)
  {
    forall i, key | 0 <= i < |records| ensures !Tainted(RedactAll(records, c, caller)[i], c, caller, key) {
      RedactAt(records[i], c, caller, key);
      if Hidden(c, caller, key) { HiddenKeyIsPaddedAsShown(c.fields, c, caller, key); }
    }
  }

  /** Every declared hidden field is there and marked; a marker names a scope the field requires and the caller
      lacks. */
  lemma HiddenFieldsAreMarked(r: DataRecord, c: Content, caller: set<string>, key: string)
    requires Hidden(c, caller, key)
    ensures var f := FieldNamed(c.fields, key).value;
            && key in Redact(r, c, caller)
            && IsRedacted(Redact(r, c, caller)[key])
            && Redact(r, c, caller)[key] == Marker(f, FirstMissing(f, c, caller))
            && FirstMissing(f, c, caller) in Required(f, c) && FirstMissing(f, c, caller) !in caller
  {
    RedactAt(r, c, caller, key);
    HiddenKeyIsPaddedAsShown(c.fields, c, caller, key);
  }

  /** A payload without markers may be written exactly when redaction would leave all of its keys as they are. */
  lemma WritableIffLeftVisible(payload: DataRecord, c: Content, caller: set<string>)
    requires forall key :: key in payload ==> !IsRedacted(payload[key])
    ensures (forall key :: key in payload ==> !Hidden(c, caller, key)) <==>
            (forall key :: key in payload ==>
               key in Redact(payload, c, caller) && Redact(payload, c, caller)[key] == payload[key])
  {
    forall key | key in payload
      ensures !Hidden(c, caller, key) <==>
              key in Redact(payload, c, caller) && Redact(payload, c, caller)[key] == payload[key]
    {
      RedactAt(payload, c, caller, key);
      if Hidden(c, caller, key) { HiddenFieldsAreMarked(payload, c, caller, key); }
    }
  }

  /** The redaction guard trips on a redacted record exactly when the caller lacks a scope for some declared field,
      or the record brought a marker of its own in a field the caller sees. */
  lemma GuardTripsIff(r: DataRecord, c: Content, caller: set<string>)
    requires DistinctNames(c.fields) && "__redacted" !in r && "__redacted" !in Names(c.fields)
    ensures ContainsMarker(Dict(Redact(r, c, caller))) <==>
            || (exists f :: f in c.fields && Hides(f, c, caller))
            || (exists key :: key in r && !Hidden(c, caller, key) && ContainsMarker(r[key]))
  {
    var d := Redact(r, c, caller);
    forall key ensures key in d && ContainsMarker(d[key]) <==> MarkedFor(r, c, caller, key) {
      MarkerAt(r, c, caller, key);
    }
    SomeFieldHidden(c, caller);
    MarkersOf(d);
    assert "__redacted" !in d by { MarkerAt(r, c, caller, "__redacted"); }
    if key :| key in d && ContainsMarker(d[key]) { assert MarkedFor(r, c, caller, key); }
    if key :| Hidden(c, caller, key) { assert MarkedFor(r, c, caller, key); }
    if key :| key in r && !Hidden(c, caller, key) && ContainsMarker(r[key]) { assert MarkedFor(r, c, caller, key); }
  }

  /** The key is hidden, or visible with a marker in its value. */
  ghost predicate MarkedFor(r: DataRecord, c: Content, caller: set<string>, key: string) {
    Hidden(c, caller, key) || (key in r && !Hidden(c, caller, key) && ContainsMarker(r[key]))
  }

  lemma MarkersOf(d: DataRecord)
    ensures "__redacted" !in d ==>
              (ContainsMarker(Dict(d)) <==> exists key :: key in d && ContainsMarker(d[key]))
  {
  }

  lemma MarkerAt(r: DataRecord, c: Content, caller: set<string>, key: string)
    requires DistinctNames(c.fields)
    ensures var d := Redact(r, c, caller);
            && (key in d && ContainsMarker(d[key]) <==> MarkedFor(r, c, caller, key))
            && (key !in r && key !in Names(c.fields) ==> key !in d)
  {
    RedactAt(r, c, caller, key);
    OneFieldPerName(c.fields, c, caller, key);
    PaddingFieldHides(c.fields, c, caller, key);
    if Hidden(c, caller, key) {
      HiddenFieldsAreMarked(r, c, caller, key);
    }
  }

  lemma SomeFieldHidden(c: Content, caller: set<string>)
    requires DistinctNames(c.fields)
    ensures (exists f :: f in c.fields && Hides(f, c, caller)) <==> (exists key :: Hidden(c, caller, key))
  {
    if f :| f in c.fields && Hides(f, c, caller) {
      FieldIsFound(c.fields, f);
      assert Hidden(c, caller, f.name);
    }
    if key :| Hidden(c, caller, key) {
      FieldNamedIsThere(c.fields, key);
    }
  }

  lemma {:induction false} FieldIsFound(fields: seq<Field>, f: Field)
    requires DistinctNames(fields) && f in fields
    ensures FieldNamed(fields, f.name) == Some(f)
  {
    if fields[|fields| - 1] != f {
      assert f in fields[..|fields| - 1];
      FieldIsFound(fields[..|fields| - 1], f);
    }
  }

  lemma {:induction false} FieldNamedIsThere(fields: seq<Field>, key: string)
    requires FieldNamed(fields, key).Some?
    ensures FieldNamed(fields, key).value in fields
  {
    if fields[|fields| - 1].name != key {
      FieldNamedIsThere(fields[..|fields| - 1], key);
    }
  }
}
