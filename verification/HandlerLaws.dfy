/** What each handler stores and answers, spelled out on the request and the rows (termin_core/routing/crud.py,
    termin_core/validation/dependents.py). */
module HandlerLaws {
  import opened Basics
  import opened Storage
  import opened StateMachine
  import opened Crud
  import Events

  // ------------------------------------------------------------ columns and rows

  predicate IsState(site: Site, table: string, f: string) {
    table in site.cfg.machines && exists m :: m in site.cfg.machines[table] && m.name == f
  }

  predicate IsOwner(site: Site, table: string, f: string) {
    f != "" && table in site.ownerField && site.ownerField[table] == f
  }

  predicate IsFilter(site: Site, table: string, f: string) {
    f != "" && table in site.ownershipFilter && site.ownershipFilter[table] == f
  }

  predicate IsKnown(site: Site, table: string, f: string) {
    f == "status" || (table in site.known && f in site.known[table])
  }

  /** The table filters on an owner column and the row does not hold the caller's id there. */
  predicate SomebodyElses(site: Site, table: string, row: Record, user: User) {
    && table in site.ownershipFilter && site.ownershipFilter[table] != ""
    && (site.ownershipFilter[table] in row ==> row[site.ownershipFilter[table]] != Str(user.principal.id))
  }

  lemma ForeignIff(site: Site, table: string, row: Record, user: User)
    ensures Foreign(site, table, row, user) <==> SomebodyElses(site, table, row, user)
  {
  }

  /** An id addresses itself; another column addresses the row storage picks for it, if that row is there. */
  lemma Addressed(site: Site, rows: Rows, table: string, target: Target)
    ensures var id := Resolve(site, rows, table, target);
            match target
            case ById(i) => id == Some(i)
            case ByColumn(column, value) =>
              var picked := site.hooks.pick(rows, table, Eq(column, value));
              id == (if picked.Some? && Key(table, picked.value) in rows then picked else None)
  {
  }

  /** `both` holds the columns of `over`, and those of `under` where `over` has none. */
  ghost predicate Over(under: Record, over: Record, both: Record) {
    forall f :: Lookup(both, f) == if f in over then Some(over[f]) else Lookup(under, f)
  }

  lemma OverIs(under: Record, over: Record, both: Record)
    requires Over(under, over, both)
    ensures both == under + over
  {
    assert forall f :: f in both <==> Lookup(both, f).Some?;
    assert both.Keys == (under + over).Keys;
  }

  // ------------------------------------------------------------ create

  /** The body as it reaches the defaults: no state column when the gate is installed, and the caller in the owner
      column. */
  ghost predicate IsStamped(site: Site, table: string, body: Record, user: User, stamped: Record) {
    forall f :: Lookup(stamped, f) ==
                if IsOwner(site, table, f) then Some(Str(user.principal.id))
                else if site.seeds && IsState(site, table, f) then None
                else Lookup(body, f)
  }

  /** A field holds what was sent, and its default only if nothing was. */
  ghost predicate IsFilled(site: Site, table: string, user: User, stamped: Record, filled: Record) {
    Over(site.hooks.defaults(table, stamped, user), stamped, filled)
  }

  /** What is inserted: the known fields of the checked body. */
  ghost predicate IsInsert(site: Site, table: string, checked: Record, insert: Record) {
    forall f :: Lookup(insert, f) == if IsKnown(site, table, f) then Lookup(checked, f) else None
  }

  /** The row stored: what is inserted, and every other state column in its initial state. */
  ghost predicate IsCreated(site: Site, table: string, insert: Record, row: Record) {
    && (forall f :: f in insert ==> f in row && row[f] == insert[f])
    && (forall f :: f in row && f !in insert ==>
          exists m :: m in MachinesOf(site.cfg, table) && m.name == f && row[f] == Str(m.initial))
    && (forall f :: f !in row ==> f !in insert && !IsState(site, table, f))
  }

  lemma SameLookups(a: Record, b: Record)
    requires forall f :: Lookup(a, f) == Lookup(b, f)
    ensures a == b
  {
    assert forall f :: f in a <==> Lookup(a, f).Some?;
    assert forall f :: f in b <==> Lookup(b, f).Some?;
  }

  lemma MachineNamesAre(site: Site, table: string, f: string)
    ensures f in MachineNames(MachinesOf(site.cfg, table)) <==> IsState(site, table, f)
  {
  }

  lemma PreparedIsFilled(site: Site, table: string, body: Record, user: User, stamped: Record, filled: Record)
    requires IsStamped(site, table, body, user, stamped) && IsFilled(site, table, user, stamped, filled)
    ensures Prepared(site, table, body, user) == filled
  {
    var names := MachineNames(MachinesOf(site.cfg, table));
    var gated := if site.seeds then body - names else body;
    var owner := Configured(site.ownerField, table);
    var s := if owner.Some? then gated[owner.value := Str(user.principal.id)] else gated;
    forall f ensures Lookup(s, f) == Lookup(stamped, f) {
      MachineNamesAre(site, table, f);
      assert IsOwner(site, table, f) <==> owner == Some(f);
    }
    SameLookups(s, stamped);
    OverIs(site.hooks.defaults(table, stamped, user), stamped, filled);
  }

  lemma {:induction false} InitialStatesHold(ms: seq<Machine>)
    ensures forall f :: f in InitialStates(ms) <==> exists m :: m in ms && m.name == f
    ensures forall f :: f in InitialStates(ms) ==>
              exists m :: m in ms && m.name == f && InitialStates(ms)[f] == Str(m.initial)
  {
    if ms != [] {
      var front, last := ms[..|ms| - 1], ms[|ms| - 1];
      InitialStatesHold(front);
      assert forall m :: m in ms <==> m in front || m == last;
    }
  }

  /** What a create answers and stores, for every hook: denied by the boundary, refused by a validator of the filled
      body or by storage, or the created row. */
  lemma CreateAnswers(site: Site, rows: Rows, table: string, id: int, body: Record, user: User, stamped: Record,
                      filled: Record)
    requires IsStamped(site, table, body, user, stamped) && IsFilled(site, table, user, stamped, filled)
    ensures var (after, r) := CreateStep(site, rows, table, id, body, user);
            && after == (if r.Success? then rows[Key(table, id) := r.value] else rows)
            && if site.hooks.boundaryDenies(table, user) then r == Failure(ScopeDenied(""))
               else if !site.hooks.valid(table, filled) || site.hooks.dependent(table, filled).None?
               then r == Failure(Invalid)
               else exists insert ::
                      && IsInsert(site, table, site.hooks.dependent(table, filled).value, insert)
                      && match site.hooks.createFails(rows, table, insert)
                         case Some(e) => r == Failure(e)
                         case None => r.Success? && IsCreated(site, table, insert, r.value)
  {
    PreparedIsFilled(site, table, body, user, stamped, filled);
    var checked := site.hooks.dependent(table, filled);
    if !site.hooks.boundaryDenies(table, user) && site.hooks.valid(table, filled) && checked.Some? {
      var insert := Restrict(checked.value, KnownFields(site, table));
      InsertedIs(site, table, checked.value, insert);
      hide Prepared, InitialStates, Restrict;
      var r := CreateStep(site, rows, table, id, body, user).1;
      if r.Success? {
        CreatedIs(site, table, insert, r.value);
      }
    }
  }

  lemma InsertedIs(site: Site, table: string, checked: Record, insert: Record)
    requires insert == Restrict(checked, KnownFields(site, table))
    ensures IsInsert(site, table, checked, insert)
  {
  }

  lemma CreatedIs(site: Site, table: string, insert: Record, row: Record)
    requires row == InitialStates(MachinesOf(site.cfg, table)) + insert
    ensures IsCreated(site, table, insert, row)
  {
    InitialStatesHold(MachinesOf(site.cfg, table));
  }

  /** After a successful create a known field that is no state or owner column, and that the dependent values leave
      alone, holds the value sent; one that was not sent holds its default, or is absent if it has none. */
  lemma CreatedRowHoldsTheBody(site: Site, rows: Rows, table: string, id: int, body: Record, user: User,
                               stamped: Record, f: string)
    requires IsStamped(site, table, body, user, stamped)
    requires CreateStep(site, rows, table, id, body, user).1.Success?
    requires IsKnown(site, table, f) && !IsState(site, table, f) && !IsOwner(site, table, f)
    requires forall r :: var d := site.hooks.dependent(table, r); d.Some? ==> Lookup(d.value, f) == Lookup(r, f)
    ensures var (after, r) := CreateStep(site, rows, table, id, body, user);
            && Key(table, id) in after && after[Key(table, id)] == r.value
            && Lookup(r.value, f) ==
               if f in body then Some(body[f]) else Lookup(site.hooks.defaults(table, stamped, user), f)
  {
    var filled := site.hooks.defaults(table, stamped, user) + stamped;
    CreateAnswers(site, rows, table, id, body, user, stamped, filled);
    hide CreateStep;
    assert Lookup(stamped, f) == Lookup(body, f);
    assert Lookup(filled, f) ==
           if f in body then Some(body[f]) else Lookup(site.hooks.defaults(table, stamped, user), f);
    var checked := site.hooks.dependent(table, filled).value;
    var insert :| IsInsert(site, table, checked, insert)
                  && IsCreated(site, table, insert, CreateStep(site, rows, table, id, body, user).1.value);
    assert Lookup(insert, f) == Lookup(checked, f) == Lookup(filled, f);
  }

  /** A created row has no key but known fields and state columns. */
  lemma CreatedRowHasNoOtherKey(site: Site, rows: Rows, table: string, id: int, body: Record, user: User, f: string)
    requires CreateStep(site, rows, table, id, body, user).1.Success?
    requires f in CreateStep(site, rows, table, id, body, user).1.value
    ensures IsKnown(site, table, f) || IsState(site, table, f)
  {
    var row := CreateStep(site, rows, table, id, body, user).1.value;
    var checked := site.hooks.dependent(table, Prepared(site, table, body, user)).value;
    var insert := Restrict(checked, KnownFields(site, table));
    InsertedIs(site, table, checked, insert);
    CreatedIs(site, table, insert, row);
    assert Lookup(insert, f).Some? ==> IsKnown(site, table, f);
  }

  // ------------------------------------------------------------ read

  /** A read answers the addressed row, unless the filter makes it somebody else's. */
  lemma ReadAnswers(site: Site, rows: Rows, table: string, target: Target, user: User)
    ensures var id := Resolve(site, rows, table, target);
            ReadStep(site, rows, table, target, user) ==
            if id.Some? && Key(table, id.value) in rows && !SomebodyElses(site, table, rows[Key(table, id.value)], user)
            then Success(rows[Key(table, id.value)])
            else Failure(RecordNotFound)
  {
  }

  // ------------------------------------------------------------ update

  /** The row an update works on, when there is one and it has a column. */
  ghost predicate IsThere(rows: Rows, table: string, id: Option<int>, row: Record) {
    id.Some? && Key(table, id.value) in rows && rows[Key(table, id.value)] == row && row != map[]
  }

  ghost predicate IsStripped(site: Site, table: string, body: Record, stripped: Record) {
    forall f :: Lookup(stripped, f) == if IsFilter(site, table, f) then None else Lookup(body, f)
  }

  ghost predicate WithoutStates(site: Site, table: string, stripped: Record, rest: Record) {
    forall f :: Lookup(rest, f) == if IsState(site, table, f) then None else Lookup(stripped, f)
  }

  lemma StrippedIs(site: Site, table: string, body: Record, stripped: Record)
    requires IsStripped(site, table, body, stripped)
    ensures OwnerStripped(site, table, body) == stripped
  {
    var filter := Configured(site.ownershipFilter, table);
    forall f ensures Lookup(OwnerStripped(site, table, body), f) == Lookup(stripped, f) {
      assert IsFilter(site, table, f) <==> filter == Some(f);
    }
    SameLookups(OwnerStripped(site, table, body), stripped);
  }

  lemma RestIs(site: Site, table: string, stripped: Record, rest: Record)
    requires WithoutStates(site, table, stripped, rest)
    ensures stripped - MachineNames(MachinesOf(site.cfg, table)) == rest
  {
    var s := stripped - MachineNames(MachinesOf(site.cfg, table));
    forall f ensures Lookup(s, f) == Lookup(rest, f) {
      MachineNamesAre(site, table, f);
    }
    SameLookups(s, rest);
  }

  /** The machines the body names, in the order of the table. */
  lemma {:induction false} TouchedInOrder(a: seq<Machine>, b: seq<Machine>, body: Record)
    ensures Touched([], body) == []
    ensures forall m :: Touched([m], body) == if m.name in body then [m] else []
    ensures Touched(a + b, body) == Touched(a, body) + Touched(b, body)
    decreases |b|
  {
    forall m ensures Touched([m], body) == if m.name in body then [m] else [] {
      assert [m][..0] == [];
    }
    if b == [] {
      assert a + b == a;
    } else {
      assert (a + b)[..|a + b| - 1] == a + b[..|b| - 1];
      TouchedInOrder(a, b[..|b| - 1], body);
    }
  }

  /** One touched machine: nothing if the value is the one read, a conflict if it is no string, else a transition. */
  lemma OneMoveIs(site: Site, rows: Rows, existing: Record, u: Call, id: int, m: Machine)
    requires u.Update? && m.name in u.body
    ensures var now := if m.name in existing then existing[m.name] else Str("");
            var answer, events := MoveAll(site, rows, existing, u, id, [m]),
                                  MoveAllEvents(site, rows, existing, u, id, [m]);
            if u.body[m.name] == now then answer == (rows, None) && events == []
            else if !u.body[m.name].Str? then answer == (rows, Some(Conflict(now))) && events == []
            else
              var req := Request(u.table, id, m.name, u.body[m.name].s, u.user, u.clocks(m.name));
              var o := Transition(site.cfg, req, rows, rows);
              && answer == (o.rows, match o.result case Success(_) => None case Failure(e) => Some(e))
              && events == StampAll(o.events, u.clocks(m.name).publish)
  {
    assert [m][..0] == [];
    hide Transition;
  }

  /** A chain of moves is its front and then its back, which does not start if the front fails; ... */
  lemma {:induction false} ChainRunsInOrder(site: Site, rows: Rows, existing: Record, u: Call, id: int,
                                            a: seq<Machine>, b: seq<Machine>)
    requires u.Update? && (forall m :: m in a ==> m.name in u.body) && forall m :: m in b ==> m.name in u.body
    ensures MoveAll(site, rows, existing, u, id, []) == (rows, None)
    ensures var (moved, failed) := MoveAll(site, rows, existing, u, id, a);
            MoveAll(site, rows, existing, u, id, a + b) ==
            if failed.Some? then (moved, failed) else MoveAll(site, moved, existing, u, id, b)
    decreases |b|
  {
    hide MoveOne;
    if b == [] {
      assert a + b == a;
    } else {
      assert (a + b)[..|a + b| - 1] == a + b[..|b| - 1];
      ChainRunsInOrder(site, rows, existing, u, id, a, b[..|b| - 1]);
    }
  }

  /** ... and so is what it announces. */
  lemma {:induction false} ChainAnnouncesInOrder(site: Site, rows: Rows, existing: Record, u: Call, id: int,
                                                 a: seq<Machine>, b: seq<Machine>)
    requires u.Update? && (forall m :: m in a ==> m.name in u.body) && forall m :: m in b ==> m.name in u.body
    ensures MoveAllEvents(site, rows, existing, u, id, []) == []
    ensures var (moved, failed) := MoveAll(site, rows, existing, u, id, a);
            MoveAllEvents(site, rows, existing, u, id, a + b) ==
            MoveAllEvents(site, rows, existing, u, id, a) +
            if failed.Some? then [] else MoveAllEvents(site, moved, existing, u, id, b)
    decreases |b|
  {
    hide MoveAll, MoveOneEvents;
    if b == [] {
      assert a + b == a;
    } else {
      var front, last := b[..|b| - 1], b[|b| - 1];
      assert (a + b)[..|a + b| - 1] == a + front && (a + b)[|a + b| - 1] == last;
      ChainRunsInOrder(site, rows, existing, u, id, a, front);
      ChainAnnouncesInOrder(site, rows, existing, u, id, a, front);
    }
  }

  /** The write behind the moves: validation of the merged row, then nothing, a refusal of storage, or the fields of
      the body over the row as it is now. */
  ghost predicate Writes(site: Site, now: Rows, table: string, id: int, merged: Record, rest: Record, after: Rows,
                         r: Answer<Record>) {
    var key := Key(table, id);
    && after == (if r.Success? then now[key := r.value] else now)
    && if site.hooks.dependent(table, merged).None? then r == Failure(Invalid)
       else if rest != map[] && site.hooks.updateFails(now, key, rest).Some?
       then r == Failure(site.hooks.updateFails(now, key, rest).value)
       else if key !in now then r == Failure(RecordNotFound)
       else r.Success? && Over(now[key], rest, r.value)
  }

  lemma PersistWrites(site: Site, now: Rows, table: string, id: int, existing: Option<Record>, merged: Record,
                      rest: Record)
    requires existing.Some? && existing.value != map[] ==> Over(existing.value, rest, merged)
    requires (existing.Some? && existing.value != map[]) || merged == rest
    ensures var (after, r) := Persist(site, now, table, Some(id), existing, rest);
            Writes(site, now, table, id, merged, rest, after, r)
  {
    if Present(existing) {
      OverIs(existing.value, rest, merged);
    }
    var key := Key(table, id);
    if key in now && rest == map[] {
      assert now[key := now[key]] == now;
    }
  }

  /** A request that may not write some field is denied, and one for somebody else's row is told there is none. */
  lemma UpdateRefuses(site: Site, rows: Rows, u: Call, row: Record)
    requires u.Update?
    ensures !site.hooks.mayWrite(u.table, u.body, u.user) ==>
              UpdateStep(site, rows, u) == (rows, Failure(ScopeDenied(""))) && UpdateEvents(site, rows, u) == []
    ensures && site.hooks.mayWrite(u.table, u.body, u.user)
            && IsThere(rows, u.table, Resolve(site, rows, u.table, u.target), row)
            && SomebodyElses(site, u.table, row, u.user)
            ==> UpdateStep(site, rows, u) == (rows, Failure(RecordNotFound)) && UpdateEvents(site, rows, u) == []
  {
    hide Resolve, Persist, MoveAll, OwnerStripped;
  }

  /** An update of a row that is there: the body without the owner column moves the machines it names, in order; if none
      fails, the rest is validated over the row as it was before the moves and written over the row after them. */
  lemma UpdateAnswers(site: Site, rows: Rows, u: Call, id: int, row: Record, stripped: Record, rest: Record,
                      merged: Record)
    requires u.Update? && site.hooks.mayWrite(u.table, u.body, u.user)
    requires Resolve(site, rows, u.table, u.target) == Some(id) && IsThere(rows, u.table, Some(id), row)
    requires !SomebodyElses(site, u.table, row, u.user)
    requires IsStripped(site, u.table, u.body, stripped) && WithoutStates(site, u.table, stripped, rest)
    requires Over(row, rest, merged)
    ensures var v, touched := Update(u.table, u.target, stripped, u.user, u.clocks),
                              Touched(MachinesOf(site.cfg, u.table), stripped);
            && (forall m :: m in touched <==> m in MachinesOf(site.cfg, u.table) && m.name in stripped)
            && var (now, failed) := MoveAll(site, rows, row, v, id, touched);
            && UpdateEvents(site, rows, u) == MoveAllEvents(site, rows, row, v, id, touched)
            && var (after, r) := UpdateStep(site, rows, u);
            if failed.Some? then after == now && r == Failure(failed.value)
            else Writes(site, now, u.table, id, merged, rest, after, r)
  {
    StrippedIs(site, u.table, u.body, stripped);
    RestIs(site, u.table, stripped, rest);
    TouchedAreInBody(MachinesOf(site.cfg, u.table), stripped);
    var v, touched := Update(u.table, u.target, stripped, u.user, u.clocks),
                      Touched(MachinesOf(site.cfg, u.table), stripped);
    var (now, failed) := MoveAll(site, rows, row, v, id, touched);
    if failed.None? {
      PersistWrites(site, now, u.table, id, Some(row), merged, rest);
    }
    if u.table !in site.cfg.machines {
      assert touched == [];
      forall f ensures Lookup(rest, f) == Lookup(stripped, f) {}
      SameLookups(rest, stripped);
    }
    hide Resolve, Persist, OwnerStripped, MachineNames, Writes, IsStripped, WithoutStates, Over, Touched;
  }

  /** An update of a row that is not there, or has no column, moves nothing: its body is validated alone. */
  lemma UpdateOfNothingAnswers(site: Site, rows: Rows, u: Call, stripped: Record)
    requires u.Update? && site.hooks.mayWrite(u.table, u.body, u.user)
    requires forall row :: !IsThere(rows, u.table, Resolve(site, rows, u.table, u.target), row)
    requires IsStripped(site, u.table, u.body, stripped)
    ensures var id := Resolve(site, rows, u.table, u.target);
            var (after, r) := UpdateStep(site, rows, u);
            UpdateEvents(site, rows, u) == [] &&
            if id.None? then
              after == rows && r == Failure(if site.hooks.dependent(u.table, stripped).None? then Invalid
                                            else RecordNotFound)
            else Writes(site, rows, u.table, id.value, stripped, stripped, after, r)
  {
    StrippedIs(site, u.table, u.body, stripped);
    var id := Resolve(site, rows, u.table, u.target);
    var existing := RowOf(rows, u.table, id);
    assert !Present(existing) by {
      if Present(existing) { assert IsThere(rows, u.table, id, existing.value); }
    }
    if id.Some? {
      PersistWrites(site, rows, u.table, id.value, existing, stripped, stripped);
    }
  }

  // ------------------------------------------------------------ delete and transition

  /** A delete takes the addressed row and its cascade, unless the filter hides the row, storage refuses, or there is
      none. */
  lemma DeleteAnswers(site: Site, rows: Rows, table: string, target: Target, user: User)
    ensures var id := Resolve(site, rows, table, target);
            DeleteStep(site, rows, table, target, user) ==
            if id.None? then (rows, Failure(RecordNotFound))
            else
              var key := Key(table, id.value);
              if SomebodyElses(site, table, if key in rows then rows[key] else map[], user)
              then (rows, Failure(RecordNotFound))
              else if site.hooks.deleteFails(rows, key).Some?
              then (rows, Failure(site.hooks.deleteFails(rows, key).value))
              else if key !in rows then (rows, Failure(RecordNotFound))
              else (rows - site.hooks.cascade(rows, key) - {key}, Success(map["deleted" := Bool(true)]))
  {
    var id := Resolve(site, rows, table, target);
    hide Resolve;
    if id.Some? {
      var key := Key(table, id.value);
      assert rows - Taken(site, rows, key) == rows - site.hooks.cascade(rows, key) - {key};
    }
  }

  /** A transition request is one transition of the addressed row, of the machine it names or else the first. */
  lemma MoveAnswers(site: Site, rows: Rows, c: Call)
    requires c.Move?
    ensures var id, ms := Resolve(site, rows, c.table, c.target), MachinesOf(site.cfg, c.table);
            if id.None? || Key(c.table, id.value) !in rows || rows[Key(c.table, id.value)] == map[]
            then MoveStep(site, rows, c) == (rows, Failure(RecordNotFound))
            else if c.machine.None? && ms == [] then MoveStep(site, rows, c) == (rows, Failure(BadRequest))
            else
              var machine := match c.machine case Some(name) => name case None => ms[0].name;
              var o := Transition(site.cfg, Request(c.table, id.value, machine, c.to, c.user, c.clocks(machine)), rows,
                                  rows);
              MoveStep(site, rows, c) == (o.rows, o.result)
  {
    hide Resolve, Transition;
  }
}
