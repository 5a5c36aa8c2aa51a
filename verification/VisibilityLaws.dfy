/** What a caller sees of a record, spelled out on scopes and fields (termin_core/confidentiality/redaction.py). */
module VisibilityLaws {
  import opened Basics
  import opened Redaction

  /** The caller lacks this scope of the content or of the field. */
  predicate Lacks(f: Field, c: Content, caller: set<string>, scope: string) {
    (scope in c.scopes || scope in f.scopes) && scope !in caller
  }

  lemma HidesIff(f: Field, c: Content, caller: set<string>)
    ensures Hides(f, c, caller) <==> exists scope :: Lacks(f, c, caller, scope)
  {
    if scope :| Lacks(f, c, caller, scope) {
      assert scope in Required(f, c);
    }
    if Hides(f, c, caller) {
      var scope :| scope in Required(f, c) && scope !in caller;
      assert Lacks(f, c, caller, scope);
    }
  }

  /** `f` is the last field declared under its name. */
  ghost predicate LastOfItsName(fields: seq<Field>, k: int) {
    0 <= k < |fields| && forall j :: k < j < |fields| ==> fields[j].name != fields[k].name
  }

  lemma {:induction false} FieldNamedIsLast(fields: seq<Field>, key: string)
    ensures match FieldNamed(fields, key)
            case None => forall f :: f in fields ==> f.name != key
            case Some(f) => exists k :: LastOfItsName(fields, k) && fields[k] == f && f.name == key
  {
    if fields != [] {
      var front, last := fields[..|fields| - 1], fields[|fields| - 1];
      if last.name == key {
        assert LastOfItsName(fields, |fields| - 1);
      } else {
        FieldNamedIsLast(front, key);
        assert forall f :: f in fields <==> f in front || f == last;
        if FieldNamed(front, key).Some? {
          var k :| LastOfItsName(front, k) && front[k] == FieldNamed(front, key).value && front[k].name == key;
          assert forall j :: 0 <= j < |front| ==> front[j] == fields[j];
          assert LastOfItsName(fields, k);
        }
      }
    }
  }

  lemma LastIsUnique(fields: seq<Field>, j: int, k: int)
    requires LastOfItsName(fields, j) && LastOfItsName(fields, k) && fields[j].name == fields[k].name
    ensures j == k
  {
  }

  /** A key is hidden exactly when the caller lacks a scope of the last field declared under it. */
  lemma HiddenIff(c: Content, caller: set<string>, key: string)
    ensures Hidden(c, caller, key) <==>
              exists k, scope :: LastOfItsName(c.fields, k) && c.fields[k].name == key
                                 && Lacks(c.fields[k], c, caller, scope)
  {
    FieldNamedIsLast(c.fields, key);
    var f := FieldNamed(c.fields, key);
    if f.Some? {
      HidesIff(f.value, c, caller);
      var j :| LastOfItsName(c.fields, j) && c.fields[j] == f.value && f.value.name == key;
      forall k | LastOfItsName(c.fields, k) && c.fields[k].name == key ensures c.fields[k] == f.value {
        LastIsUnique(c.fields, j, k);
      }
    }
  }

  /** The marker of a field names the field, its type, and the first scope in sorted order that the caller lacks. */
  ghost predicate IsMarkerOf(d: Data, f: Field, c: Content, caller: set<string>) {
    exists scope ::
      && Lacks(f, c, caller, scope)
      && (forall other :: Lacks(f, c, caller, other) ==> StringLeq(scope, other))
      && d == Dict(map["__redacted" := Leaf(Bool(true)), "field" := Leaf(Str(f.name)),
                       "expected_type" := Leaf(Str(f.businessType)), "scope" := Leaf(Str(scope)),
                       "reason" := Leaf(Str("requires scope '" + scope + "'"))])
  }

  lemma MarkersAre(f: Field, c: Content, caller: set<string>)
    requires Hides(f, c, caller)
    ensures IsMarkerOf(MarkerFor(f, c, caller), f, c, caller)
  {
    var scope := FirstMissing(f, c, caller);
    forall other | Lacks(f, c, caller, other) ensures StringLeq(scope, other) {
      assert other in Required(f, c) - caller;
    }
    assert Lacks(f, c, caller, scope);
  }

  /** What the redacted record holds: under a hidden key of the record the marker of its field, under a visible one the
      value itself, and under an absent key a marker exactly when some field of that name is hidden from the caller. */
  lemma RedactedRecordIs(r: DataRecord, c: Content, caller: set<string>, key: string)
    ensures var d := Redact(r, c, caller);
            && (key in r && Hidden(c, caller, key) ==>
                  key in d && exists k :: LastOfItsName(c.fields, k) && c.fields[k].name == key
                                          && IsMarkerOf(d[key], c.fields[k], c, caller))
            && (key in r && !Hidden(c, caller, key) ==> key in d && d[key] == r[key])
            && (key !in r ==>
                  && (key in d <==> exists f, scope :: f in c.fields && f.name == key && Lacks(f, c, caller, scope))
                  && (key in d ==> exists f :: f in c.fields && f.name == key && IsMarkerOf(d[key], f, c, caller)))
  {
    RedactAt(r, c, caller, key);
    FieldNamedIsLast(c.fields, key);
    PaddingFieldHides(c.fields, c, caller, key);
    if key in r && Hidden(c, caller, key) {
      MarkersAre(FieldNamed(c.fields, key).value, c, caller);
    }
    if key !in r {
      forall f | f in c.fields && f.name == key
        ensures Hides(f, c, caller) <==> exists scope :: Lacks(f, c, caller, scope)
      {
        HidesIff(f, c, caller);
      }
      var p := PaddingField(c.fields, c, caller, key);
      if p.Some? {
        MarkersAre(p.value, c, caller);
      }
    }
  }

  /** A record is tainted for a delegate under a hidden key with a value that is neither null nor a marker. */
  lemma TaintedIff(r: DataRecord, c: Content, delegate: set<string>, key: string)
    ensures Tainted(r, c, delegate, key) <==>
              && key in r && Hidden(c, delegate, key)
              && r[key] != Leaf(Null)
              && !(r[key].Dict? && Lookup(r[key].entries, "__redacted") == Some(Leaf(Bool(true))))
  {
  }

  // ------------------------------------------------------------ markers at any depth

  datatype Hop = Entry(key: string) | Item(index: nat)

  /** What stands at the end of a path into a value, if the path leads anywhere. */
  function At(d: Data, path: seq<Hop>): Option<Data> {
    if path == [] then Some(d)
    else
      match (d, path[0])
      case (Dict(m), Entry(k)) => if k in m then At(m[k], path[1..]) else None
      case (List(xs), Item(i)) => if i < |xs| then At(xs[i], path[1..]) else None
      case _ => None
  }

  /** A dictionary whose `__redacted` entry is anything but null, false, zero or empty. */
  predicate IsFlagged(d: Data) {
    && d.Dict? && "__redacted" in d.entries
    && d.entries["__redacted"] !in {Leaf(Null), Leaf(Bool(false)), Leaf(Int(0)), Leaf(Str("")), Dict(map[]), List([])}
  }

  ghost predicate FlaggedAt(d: Data, path: seq<Hop>) {
    At(d, path).Some? && IsFlagged(At(d, path).value)
  }

  lemma FlaggedIff(d: Data)
    ensures IsFlagged(d) <==> d.Dict? && "__redacted" in d.entries && TruthyData(d.entries["__redacted"])
  {
  }

  /** The guard finds a marker exactly when some path into the value ends at one. */
  lemma {:induction false} GuardFindsIff(d: Data)
    ensures ContainsMarker(d) <==> exists path :: FlaggedAt(d, path)
    decreases d
  {
    FlaggedIff(d);
    if ContainsMarker(d) {
      var path := PathToMarker(d);
    }
    if path :| FlaggedAt(d, path) {
      PathFindsMarker(d, path);
    }
  }

  lemma {:induction false} PathToMarker(d: Data) returns (path: seq<Hop>)
    requires ContainsMarker(d)
    ensures FlaggedAt(d, path)
    decreases d
  {
    FlaggedIff(d);
    if IsFlagged(d) {
      path := [];
    } else if d.Dict? {
      var k :| k in d.entries && ContainsMarker(d.entries[k]);
      var rest := PathToMarker(d.entries[k]);
      path := [Entry(k)] + rest;
    } else {
      var i :| 0 <= i < |d.items| && ContainsMarker(d.items[i]);
      var rest := PathToMarker(d.items[i]);
      path := [Item(i)] + rest;
    }
  }

  lemma {:induction false} PathFindsMarker(d: Data, path: seq<Hop>)
    requires FlaggedAt(d, path)
    ensures ContainsMarker(d)
    decreases |path|
  {
    FlaggedIff(d);
    if path != [] {
      match path[0]
      case Entry(k) => PathFindsMarker(d.entries[k], path[1..]);
      case Item(i) => PathFindsMarker(d.items[i], path[1..]);
    }
  }
}
