/** The storage contract: the Predicate AST and the conditional update
    (termin_core/providers/storage_contract.py). */
module Storage {
  import opened Basics

  datatype Predicate =
    | Eq(field: string, value: Value)
    | Ne(field: string, value: Value)
    | Gt(field: string, value: Value)
    | Gte(field: string, value: Value)
    | Lt(field: string, value: Value)
    | Lte(field: string, value: Value)
    | In(field: string, values: seq<Value>)
    | Contains(field: string, substring: string)
    | And(predicates: seq<Predicate>)
    | Or(predicates: seq<Predicate>)
    | Not(operand: Predicate)

  /** `a <= b` where the two values are comparable at all: two numbers or two strings. */
  predicate ValueLeq(a: Value, b: Value) {
    match (a, b)
    case (Int(i), Int(j)) => i <= j
    case (Str(s), Str(t)) => StringLeq(s, t)
    case _ => false
  }

  predicate Occurs(needle: string, hay: string) {
    exists i :: 0 <= i <= |hay| && StartsWith(hay[i..], needle)
  }

  predicate ContainsText(v: Value, substring: string) {
    v.Str? && Occurs(substring, v.s)
  }

  /** Does the record satisfy the predicate? */
  predicate Holds(p: Predicate, r: Record) {
    match p
    case Eq(f, v) => Get(r, f) == v
    case Ne(f, v) => Get(r, f) != v
    case Gt(f, v) => ValueLeq(v, Get(r, f)) && Get(r, f) != v
    case Gte(f, v) => ValueLeq(v, Get(r, f))
    case Lt(f, v) => ValueLeq(Get(r, f), v) && Get(r, f) != v
    case Lte(f, v) => ValueLeq(Get(r, f), v)
    case In(f, vs) => Get(r, f) in vs
    case Contains(f, s) => ContainsText(Get(r, f), s)
    case And(ps) => forall q :: q in ps ==> Holds(q, r)
    case Or(ps) => exists q :: q in ps && Holds(q, r)
    case Not(q) => !Holds(q, r)
  }

  datatype Key = Key(table: string, id: int)
  type Rows = map<Key, Record>

  /** The three terminal states of a conditional update. */
  datatype UpdateResult = Applied(record: Record) | NotFound | ConditionFailed(record: Record)

  /** The contract of `update_if`: the patch lands iff the row exists and meets the condition
      at the moment of the write; nothing else in the store moves. */
  function UpdateIf(rows: Rows, key: Key, condition: Predicate, patch: Record): (Rows, UpdateResult) {
    if key !in rows then (rows, NotFound)
    else if Holds(condition, rows[key]) then
      var updated := rows[key] + patch;
      (rows[key := updated], Applied(updated))
    else (rows, ConditionFailed(rows[key]))
  }

  /** A provider honouring the contract. */
  class Store {
    var rows: Rows

    constructor ()
      ensures rows == map[]
    {
      rows := map[];
    }

    method Read(key: Key) returns (r: Option<Record>)
      ensures r == if key in rows then Some(rows[key]) else None
    {
      if key in rows { r := Some(rows[key]); } else { r := None; }
    }

    method UpdateIfMatches(key: Key, condition: Predicate, patch: Record) returns (r: UpdateResult)
      modifies this
      ensures (rows, r) == UpdateIf(old(rows), key, condition, patch)
      ensures r.NotFound? <==> key !in old(rows)
      ensures r.Applied? <==> key in old(rows) && Holds(condition, old(rows)[key])
      ensures r.Applied? ==> rows == old(rows)[key := old(rows)[key] + patch]
      ensures !r.Applied? ==> rows == old(rows)
      ensures !r.NotFound? ==> r.record == rows[key]
    {
      if key !in rows {
        r := NotFound;
      } else if Holds(condition, rows[key]) {
        rows := rows[key := rows[key] + patch];
        r := Applied(rows[key]);
      } else {
        r := ConditionFailed(rows[key]);
      }
    }
  }
}
