/** What the comparisons of the Predicate AST mean on the values of a record
    (termin_core/providers/storage_contract.py). */
module StorageLaws {
  import opened Basics
  import opened Storage

  /** Two numbers compare as numbers. */
  lemma NumbersCompare(r: Record, f: string, a: int, b: int)
    requires Get(r, f) == Int(a)
    ensures Holds(Gt(f, Int(b)), r) <==> a > b
    ensures Holds(Gte(f, Int(b)), r) <==> a >= b
    ensures Holds(Lt(f, Int(b)), r) <==> a < b
    ensures Holds(Lte(f, Int(b)), r) <==> a <= b
  {
  }

  /** `a` comes before `b`: they agree up to a place where `a` ends or has the smaller character. */
  ghost predicate ComesBefore(a: string, b: string) {
    exists k :: 0 <= k <= |a| && k < |b| && a[..k] == b[..k] && (k == |a| || a[k] < b[k])
  }

  lemma NotAfterIff(a: string, b: string)
    ensures StringLeq(a, b) <==> a == b || ComesBefore(a, b)
  {
    StringLeqIff(a, b);
    assert a[..|a|] == a && b[..|b|] == b;
  }

  lemma NeverBoth(a: string, b: string)
    ensures !(a == b && ComesBefore(a, b)) && !(ComesBefore(a, b) && ComesBefore(b, a))
    ensures a == b || ComesBefore(a, b) || ComesBefore(b, a)
  {
    NotAfterIff(a, b);
    NotAfterIff(b, a);
    StringLeqTotal(a, b);
    if StringLeq(a, b) && StringLeq(b, a) {
      StringLeqAntisymmetric(a, b);
    }
  }

  /** Two strings compare by code points, the shorter first. */
  lemma StringsCompare(r: Record, f: string, a: string, b: string)
    requires Get(r, f) == Str(a)
    ensures Holds(Gt(f, Str(b)), r) <==> ComesBefore(b, a)
    ensures Holds(Gte(f, Str(b)), r) <==> !ComesBefore(a, b)
    ensures Holds(Lt(f, Str(b)), r) <==> ComesBefore(a, b)
    ensures Holds(Lte(f, Str(b)), r) <==> !ComesBefore(b, a)
  {
    NotAfterIff(a, b);
    NotAfterIff(b, a);
    NeverBoth(a, b);
    NeverBoth(b, a);
    hide ComesBefore, StringLeq;
  }

  /** A number and a string, or anything else, is in no order. */
  lemma OthersNeverCompare(r: Record, f: string, v: Value)
    requires !(Get(r, f).Int? && v.Int?) && !(Get(r, f).Str? && v.Str?)
    ensures !Holds(Gt(f, v), r) && !Holds(Gte(f, v), r) && !Holds(Lt(f, v), r) && !Holds(Lte(f, v), r)
  {
  }

  /** A text contains what stands somewhere between a beginning and an end of it; nothing else contains anything. */
  lemma ContainsIff(r: Record, f: string, s: string)
    ensures Holds(Contains(f, s), r) <==> exists before, after :: Get(r, f) == Str(before + s + after)
  {
    if Holds(Contains(f, s), r) {
      var t := Get(r, f).s;
      var i :| 0 <= i <= |t| && StartsWith(t[i..], s);
      assert t == t[..i] + s + t[i + |s|..];
    }
    if before, after :| Get(r, f) == Str(before + s + after) {
      var t := before + s + after;
      assert t[|before|..] == s + after;
      assert (s + after)[..|s|] == s;
      assert StartsWith(t[|before|..], s);
    }
  }
}
