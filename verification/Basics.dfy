/** Values, records, sequences without repetition and string helpers shared by every module. */
module Basics {
  datatype Option<+T> = None | Some(value: T)

  datatype Result<+T, +E> = Success(value: T) | Failure(error: E)

  /** The scalar values a record field, a CEL result or a predicate literal can hold. */
  datatype Value = Null | Bool(b: bool) | Int(i: int) | Str(s: string)

  type Record = map<string, Value>

  /** Reading a column: an absent column and a NULL column are the same thing to storage. */
  function Get(r: Record, field: string): Value {
    if field in r then r[field] else Null
  }

  /** Python truthiness. */
  predicate Truthy(v: Value) {
    match v
    case Null => false
    case Bool(b) => b
    case Int(i) => i != 0
    case Str(s) => s != ""
  }

  function Lookup<K, V>(m: map<K, V>, k: K): Option<V> {
    if k in m then Some(m[k]) else None
  }

  // ---------------------------------------------------------------- sequences

  /** The sequence without its element at `k`. */
  function DropAt<T>(xs: seq<T>, k: nat): seq<T>
    requires k < |xs|
  {
    xs[..k] + xs[k + 1..]
  }

  ghost predicate NoDup<T>(xs: seq<T>) {
    forall i, j :: 0 <= i < j < |xs| ==> xs[i] != xs[j]
  }

  ghost function Elements<T>(xs: seq<T>): set<T> {
    set x | x in xs
  }

  lemma NoDupSameElementsSamePermutation<T>(xs: seq<T>, ys: seq<T>)
    requires NoDup(xs) && NoDup(ys) && Elements(xs) == Elements(ys)
    ensures multiset(xs) == multiset(ys)
  {
    NoDupMultiset(xs);
    NoDupMultiset(ys);
  }

  lemma {:induction false} NoDupMultiset<T>(xs: seq<T>)
    requires NoDup(xs)
    ensures multiset(xs) == multiset(Elements(xs))
  {
    if xs == [] {
    } else {
      var init, last := xs[..|xs| - 1], xs[|xs| - 1];
      NoDupMultiset(init);
      assert xs == init + [last];
      assert Elements(xs) == Elements(init) + {last};
      assert last !in init;
    }
  }

  // ------------------------------------------------------------------ strings

  predicate StartsWith(s: string, prefix: string) {
    |prefix| <= |s| && s[..|prefix|] == prefix
  }

  function LowerChar(c: char): char {
    if 'A' <= c <= 'Z' then (c as int + 32) as char else c
  }

  /** `str.lower` on ASCII letters; other characters are left as they are. */
  function Lower(s: string): string {
    if s == "" then "" else [LowerChar(s[0])] + Lower(s[1..])
  }

  /** Code-point order on strings, the order Python's `sorted` uses. */
  predicate StringLeq(a: string, b: string) {
    if a == "" then true
    else if b == "" then false
    else if a[0] != b[0] then a[0] < b[0]
    else StringLeq(a[1..], b[1..])
  }

  /** Lexicographic: after a common beginning, either `a` ends or it goes on with the smaller character. */
  lemma {:induction false} StringLeqIff(a: string, b: string)
    ensures StringLeq(a, b) <==>
              exists k :: 0 <= k <= |a| && k <= |b| && a[..k] == b[..k] && (k == |a| || (k < |b| && a[k] < b[k]))
  {
    if a == "" {
      assert a[..0] == b[..0];
    } else if b != "" && a[0] != b[0] {
      assert a[..0] == b[..0];
      assert forall k :: 0 < k <= |a| && k <= |b| ==> a[..k][0] != b[..k][0];
    } else if b != "" {
      var s, t := a[1..], b[1..];
      StringLeqIff(s, t);
      if k :| 0 <= k <= |s| && k <= |t| && s[..k] == t[..k] && (k == |s| || (k < |t| && s[k] < t[k])) {
        assert a[..k + 1] == [a[0]] + s[..k] && b[..k + 1] == [b[0]] + t[..k];
      }
      if k :| 0 < k <= |a| && k <= |b| && a[..k] == b[..k] && (k == |a| || (k < |b| && a[k] < b[k])) {
        assert s[..k - 1] == a[..k][1..] && t[..k - 1] == b[..k][1..];
      }
    }
  }

  lemma {:induction false} StringLeqAntisymmetric(a: string, b: string)
    requires StringLeq(a, b) && StringLeq(b, a)
    ensures a == b
  {
    if a != "" {
      StringLeqAntisymmetric(a[1..], b[1..]);
      assert a == [a[0]] + a[1..] && b == [b[0]] + b[1..];
    }
  }

  lemma {:induction false} StringLeqTransitive(a: string, b: string, c: string)
    requires StringLeq(a, b) && StringLeq(b, c)
    ensures StringLeq(a, c)
  {
    if a != "" && a[0] == b[0] == c[0] {
      StringLeqTransitive(a[1..], b[1..], c[1..]);
    }
  }

  lemma {:induction false} StringLeqTotal(a: string, b: string)
    ensures StringLeq(a, b) || StringLeq(b, a)
  {
    if a != "" && b != "" && a[0] == b[0] {
      StringLeqTotal(a[1..], b[1..]);
    }
  }

  ghost predicate IsLeast(x: string, s: set<string>) {
    x in s && forall y :: y in s ==> StringLeq(x, y)
  }

  lemma {:induction false} LeastExists(s: set<string>) returns (least: string)
    requires s != {}
    ensures IsLeast(least, s)
    decreases |s|
  {
    var x :| x in s;
    var rest := s - {x};
    StringLeqTotal(x, x);
    if rest == {} {
      assert s == {x};
      least := x;
    } else {
      var l := LeastExists(rest);
      StringLeqTotal(x, l);
      least := if StringLeq(x, l) then x else l;
      forall y | y in s ensures StringLeq(least, y) {
        if y != x && least == x { StringLeqTransitive(x, l, y); }
        assert y == x || y in rest;
      }
    }
  }

  ghost predicate Ascending(xs: seq<string>) {
    forall i, j {:trigger StringLeq(xs[i], xs[j])} :: 0 <= i < j < |xs| ==> StringLeq(xs[i], xs[j])
  }

  lemma ConsAscending(x: string, xs: seq<string>)
    requires Ascending(xs) && forall y :: y in xs ==> StringLeq(x, y)
    ensures Ascending([x] + xs)
  {
    var r := [x] + xs;
    forall i, j | 0 <= i < j < |r| ensures StringLeq(r[i], r[j]) {
      assert r[j] == xs[j - 1] && r[j] in xs;
      if i > 0 { assert StringLeq(xs[i - 1], xs[j - 1]); }
    }
  }

  lemma TailAscending(xs: seq<string>)
    requires Ascending(xs) && xs != []
    ensures Ascending(xs[1..]) && forall y :: y in xs[1..] ==> StringLeq(xs[0], y)
  {
    var tail := xs[1..];
    forall i, j | 0 <= i < j < |tail| ensures StringLeq(tail[i], tail[j]) {
      assert StringLeq(xs[i + 1], xs[j + 1]);
    }
    forall y | y in tail ensures StringLeq(xs[0], y) {
      var i :| 0 <= i < |tail| && tail[i] == y;
      assert StringLeq(xs[0], xs[i + 1]);
    }
  }

  /** `r` lists the set in ascending order, each element once. */
  ghost predicate IsSorted(r: seq<string>, s: set<string>) {
    Elements(r) == s && NoDup(r) && Ascending(r)
  }

  lemma {:induction false} SortedExists(s: set<string>) returns (r: seq<string>)
    ensures IsSorted(r, s)
    decreases |s|
  {
    if s == {} {
      r := [];
    } else {
      var x := LeastExists(s);
      var rest := SortedExists(s - {x});
      r := [x] + rest;
      assert forall y :: y in rest ==> y in Elements(rest);
      assert Elements(r) == {x} + Elements(rest);
      ConsAscending(x, rest);
    }
  }

  lemma {:induction false} SortedUnique(r: seq<string>, q: seq<string>, s: set<string>)
    requires IsSorted(r, s) && IsSorted(q, s)
    ensures r == q
  {
    assert |r| == |q| by { NoDupMultiset(r); NoDupMultiset(q); }
    if r != [] {
      SortedStartsLeast(r, s);
      SortedStartsLeast(q, s);
      StringLeqAntisymmetric(r[0], q[0]);
      SortedUnique(r[1..], q[1..], s - {r[0]});
    }
  }

  lemma SortedStartsLeast(r: seq<string>, s: set<string>)
    requires IsSorted(r, s) && r != []
    ensures IsLeast(r[0], s) && IsSorted(r[1..], s - {r[0]})
  {
    StringLeqTotal(r[0], r[0]);
    TailAscending(r);
    assert r == [r[0]] + r[1..];
    assert forall y :: y in s ==> y == r[0] || y in r[1..];
    assert Elements(r[1..]) == s - {r[0]};
  }

  /** `sorted(s)` for a set of strings. */
  ghost function Sorted(s: set<string>): (r: seq<string>)
    ensures IsSorted(r, s)
  {
    assert exists r :: IsSorted(r, s) by { var r := SortedExists(s); }
    var r :| IsSorted(r, s);
    r
  }

  method SortSet(s: set<string>) returns (r: seq<string>)
    ensures r == Sorted(s)
    ensures forall x :: x in r <==> x in s
  {
    r := [];
    var todo := s;
    while todo != {}
      invariant todo <= s && r + Sorted(todo) == Sorted(s)
      decreases |todo|
    {
      var x := LeastOf(todo);
      SortedStep(todo, x);
      r := r + [x];
      todo := todo - {x};
    }
    SortedEmpty();
    assert forall x :: x in r <==> x in Elements(r);
  }

  method LeastOf(s: set<string>) returns (x: string)
    requires s != {}
    ensures IsLeast(x, s)
  {
    x :| x in s;
    var todo := s - {x};
    StringLeqTotal(x, x);
    while todo != {}
      invariant x in s && todo <= s
      invariant forall y :: y in s && y !in todo ==> StringLeq(x, y)
      decreases |todo|
    {
      var y :| y in todo;
      todo := todo - {y};
      StringLeqTotal(x, y);
      StringLeqTotal(y, y);
      if !StringLeq(x, y) {
        forall z | z in s && z !in todo ensures StringLeq(y, z) {
          if z != y { StringLeqTransitive(y, x, z); }
        }
        x := y;
      }
    }
  }

  lemma SortedStep(s: set<string>, x: string)
    requires IsLeast(x, s)
    ensures Sorted(s) == [x] + Sorted(s - {x})
  {
    var r := Sorted(s);
    assert x in Elements(r);
    SortedStartsLeast(r, s);
    StringLeqAntisymmetric(x, r[0]);
    SortedUnique(r[1..], Sorted(s - {x}), s - {x});
  }

  lemma SortedHeadIsLeast(s: set<string>)
    requires s != {}
    ensures Sorted(s) != [] && IsLeast(Sorted(s)[0], s)
  {
    var x :| x in s;
    assert x in Elements(Sorted(s));
    SortedStartsLeast(Sorted(s), s);
  }

  lemma SortedEmpty()
    ensures Sorted({}) == []
  {
    SortedUnique(Sorted({}), [], {});
  }

  // ---------------------------------------------------------------- sorting a list

  /** `sorted(xs)` for a list of strings. */
  function SortList(xs: seq<string>): seq<string> {
    if xs == [] then [] else Insert(xs[0], SortList(xs[1..]))
  }

  function Insert(x: string, xs: seq<string>): seq<string> {
    if xs == [] || StringLeq(x, xs[0]) then [x] + xs else [xs[0]] + Insert(x, xs[1..])
  }

  lemma {:induction false} InsertSorts(x: string, xs: seq<string>)
    requires Ascending(xs)
    ensures Ascending(Insert(x, xs)) && multiset(Insert(x, xs)) == multiset{x} + multiset(xs)
  {
    if xs == [] {
    } else {
      var head, tail := xs[0], xs[1..];
      assert xs == [head] + tail;
      TailAscending(xs);
      StringLeqTotal(x, head);
      if StringLeq(x, head) {
        forall y | y in tail ensures StringLeq(x, y) { StringLeqTransitive(x, head, y); }
        ConsAscending(x, xs);
      } else {
        InsertSorts(x, tail);
        var rest := Insert(x, tail);
        forall y | y in rest ensures StringLeq(head, y) {
          assert y in multiset(rest);
        }
        ConsAscending(head, rest);
      }
    }
  }

  lemma {:induction false} SortListSorts(xs: seq<string>)
    ensures Ascending(SortList(xs)) && multiset(SortList(xs)) == multiset(xs)
  {
    if xs != [] {
      SortListSorts(xs[1..]);
      InsertSorts(xs[0], SortList(xs[1..]));
      assert xs == [xs[0]] + xs[1..];
    }
  }
}
