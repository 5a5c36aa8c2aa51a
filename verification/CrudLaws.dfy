/** What every run of the handlers keeps. */
module CrudLaws {
  import opened Basics
  import opened Storage
  import opened StateMachine
  import opened Crud

  // ------------------------------------------------------------ what the code relies on

  function OwnerOf(site: Site, table: string): Option<string> {
    Configured(site.ownerField, table)
  }

  /** The columns only the handlers themselves may decide: machine columns and the owner column. */
  function Protected(site: Site, table: string): set<string> {
    MachineNames(MachinesOf(site.cfg, table)) +
    if OwnerOf(site, table).Some? then {OwnerOf(site, table).value} else {}
  }

  ghost predicate DistinctMachines(ms: seq<Machine>) {
    forall i, j :: 0 <= i < j < |ms| ==> ms[i].name != ms[j].name
  }

  ghost predicate GoodTable(site: Site, table: string) {
    var ms := MachinesOf(site.cfg, table);
    && DistinctMachines(ms)
    && (forall m :: m in ms ==> m.column == m.name)
    && (forall m, e :: m in ms && e in m.transitions ==>
          AssignedFields(m.transitions[e].Entered()) !! Protected(site, table))
    && (OwnerOf(site, table).Some? ==>
          && OwnerOf(site, table) == Configured(site.ownershipFilter, table)
          && OwnerOf(site, table).value !in MachineNames(ms)
          && OwnerOf(site, table).value in KnownFields(site, table))
  }

  /** Entered assignments, field defaults and dependent values never name a state or owner column; a table that
      stamps owners also filters on them; the state-column gate is installed. */
  ghost predicate WellConfigured(site: Site) {
    && site.seeds
    && (forall table :: GoodTable(site, table))
    && (forall table, body, user ::
          site.hooks.defaults(table, body, user).Keys !! MachineNames(MachinesOf(site.cfg, table)))
    && (forall table, body :: DependentSpares(site, table, body))
  }

  ghost predicate DependentSpares(site: Site, table: string, body: Record) {
    var d := site.hooks.dependent(table, body);
    d.Some? ==>
      forall f :: f in Protected(site, table) ==> (f in d.value <==> f in body) && (f in body ==> d.value[f] == body[f])
  }

  // ------------------------------------------------------------ declared edges

  ghost predicate Edge(m: Machine, before: Value, after: Value) {
    before.Str? && after.Str? && (before.s, after.s) in m.transitions
  }

  /** Of the machine columns only those in `moved` may have changed, each along one declared edge; the owner stays. */
  ghost predicate MovedOnly(site: Site, table: string, moved: set<string>, before: Record, after: Record) {
    && (forall m :: m in MachinesOf(site.cfg, table) ==>
          || Get(after, m.name) == Get(before, m.name)
          || (m.name in moved && Edge(m, Get(before, m.name), Get(after, m.name))))
    && (OwnerOf(site, table).Some? ==>
          Get(after, OwnerOf(site, table).value) == Get(before, OwnerOf(site, table).value))
  }

  /** The store differs at most in one row, and there only as `MovedOnly` allows. */
  ghost predicate OneRowMoved(site: Site, key: Key, moved: set<string>, before: Rows, after: Rows) {
    && after.Keys == before.Keys
    && (forall k :: k in before && k != key ==> after[k] == before[k])
    && (key in before ==> MovedOnly(site, key.table, moved, before[key], after[key]))
  }

  /** The fields one applied move of `m` into `target` may write: its column and what its edges assign on entry. */
  ghost function WrittenBy(m: Machine, target: string): set<string> {
    {m.name} + set e, f | e in m.transitions && e.1 == target && f in AssignedFields(m.transitions[e].Entered()) :: f
  }

  /** The same for every machine the body asks to move. */
  ghost function WrittenByAll(ms: seq<Machine>, body: Record): set<string> {
    set m, f | m in ms && m.name in body && body[m.name].Str? && f in WrittenBy(m, body[m.name].s) :: f
  }

  /** Every field of the row outside `fields` is as it was, present or absent. */
  ghost predicate KeepsOutside(key: Key, fields: set<string>, before: Rows, after: Rows) {
    key in before && key in after ==> forall f :: f !in fields ==> Lookup(after[key], f) == Lookup(before[key], f)
  }

  /** A transition with nobody in between either fails and changes nothing, or writes its patch over a record its
      gate holds of. */
  lemma TransitionAlone(cfg: Config, req: Request, rows: Rows)
    ensures var o, key := Transition(cfg, req, rows, rows), Key(req.table, req.id);
            && (o.result.Failure? ==> o.rows == rows)
            && (o.result.Success? ==>
                  && key in rows
                  && ReadAndGate(cfg, req, Some(rows[key])).Success?
                  && var r := ReadAndGate(cfg, req, Some(rows[key])).value;
                  && GateHolds(cfg, req, rows[key], r)
                  && Get(rows[key], r.column) == Str(r.from)
                  && o.rows == rows[key := rows[key] + r.patch])
  {
    var key := Key(req.table, req.id);
    ReadAndGateExact(cfg, req, if key in rows then Some(rows[key]) else None);
  }

  lemma TransitionMovesOneColumn(site: Site, req: Request, rows: Rows)
    requires WellConfigured(site)
    ensures OneRowMoved(site, Key(req.table, req.id), {req.machine}, rows, Transition(site.cfg, req, rows, rows).rows)
    ensures var m := FindMachine(MachinesOf(site.cfg, req.table), req.machine);
            KeepsOutside(Key(req.table, req.id), if m.Some? then WrittenBy(m.value, req.target) else {}, rows,
                         Transition(site.cfg, req, rows, rows).rows)
  {
    var o, key := Transition(site.cfg, req, rows, rows), Key(req.table, req.id);
    TransitionAlone(site.cfg, req, rows);
    if o.result.Success? {
      var r := ReadAndGate(site.cfg, req, Some(rows[key])).value;
      ReadyPatch(site.cfg, req, Some(rows[key]));
      var ms := site.cfg.machines[req.table];
      FindMachineFindsFirst(ms, req.machine);
      var m := FindMachine(ms, req.machine).value;
      assert m in ms && m.name == req.machine && GoodTable(site, req.table);
      var entered := m.transitions[(r.from, req.target)].Entered();
      assert AssignedFields(entered) !! Protected(site, req.table);
      PatchMovesOneColumn(site, req.table, m, rows[key], r.patch, entered, Str(req.target));
      assert r.patch.Keys <= WrittenBy(m, req.target);
    }
  }

  lemma PatchMovesOneColumn(site: Site, table: string, m: Machine, before: Record, patch: Record,
                            entered: seq<(string, string)>, target: Value)
    requires GoodTable(site, table) && m in MachinesOf(site.cfg, table)
    requires AssignedFields(entered) !! Protected(site, table)
    requires patch.Keys == {m.name} + AssignedFields(entered) && patch[m.name] == target
    requires Edge(m, Get(before, m.name), target)
    ensures MovedOnly(site, table, {m.name}, before, before + patch)
  {
    var ms := MachinesOf(site.cfg, table);
    forall n | n in ms
      ensures Get(before + patch, n.name) == Get(before, n.name) ||
              (n.name == m.name && Edge(n, Get(before, n.name), Get(before + patch, n.name)))
    {
      assert n.name in Protected(site, table);
      if n.name == m.name {
        var i :| 0 <= i < |ms| && ms[i] == m;
        var j :| 0 <= j < |ms| && ms[j] == n;
        assert n == m;
      }
    }
    assert m.name in MachineNames(ms);
  }

  // ------------------------------------------------------------ a PUT that moves several machines

  /** One touched machine moves at most its own column, and writes nothing beyond what its edges assign. */
  lemma MoveMovesOneColumn(site: Site, rows: Rows, existing: Record, u: Call, id: int, m: Machine)
    requires WellConfigured(site) && u.Update? && m in MachinesOf(site.cfg, u.table) && m.name in u.body
    ensures var after := MoveOne(site, rows, existing, u, id, m).0;
            && OneRowMoved(site, Key(u.table, id), {m.name}, rows, after)
            && KeepsOutside(Key(u.table, id), WrittenByAll([m], u.body), rows, after)
  {
    var target := u.body[m.name];
    if target.Str? {
      assert GoodTable(site, u.table);
      FoundByName(MachinesOf(site.cfg, u.table), m);
      TransitionMovesOneColumn(site, Request(u.table, id, m.name, target.s, u.user, u.clocks(m.name)), rows);
      assert m in [m];
      assert WrittenBy(m, target.s) <= WrittenByAll([m], u.body);
    }
  }

  /** A chain moves each of its columns at most once, each along one declared edge, and leaves every field alone that is
      neither such a column nor assigned on entry. */
  lemma {:induction false} ChainMovesEachColumnOnce(site: Site, rows: Rows, existing: Record, u: Call, id: int,
                                                    ms: seq<Machine>)
    requires WellConfigured(site) && u.Update? && DistinctMachines(ms) && forall m :: m in ms ==> m.name in u.body
    requires forall m :: m in ms ==> m in MachinesOf(site.cfg, u.table)
    ensures OneRowMoved(site, Key(u.table, id), MachineNames(ms), rows, MoveAll(site, rows, existing, u, id, ms).0)
    ensures KeepsOutside(Key(u.table, id), WrittenByAll(ms, u.body), rows, MoveAll(site, rows, existing, u, id, ms).0)
  {
    if ms != [] {
      var front, last := ms[..|ms| - 1], ms[|ms| - 1];
      ChainMovesEachColumnOnce(site, rows, existing, u, id, front);
      var (moved, failed) := MoveAll(site, rows, existing, u, id, front);
      ChainGrows(site, rows, existing, u, id, ms, front, last, moved);
    }
  }

  lemma ChainGrows(site: Site, rows: Rows, existing: Record, u: Call, id: int, ms: seq<Machine>, front: seq<Machine>,
                   last: Machine, moved: Rows)
    requires WellConfigured(site) && u.Update? && last in MachinesOf(site.cfg, u.table) && last.name in u.body
    requires ms == front + [last] && DistinctMachines(ms)
    requires OneRowMoved(site, Key(u.table, id), MachineNames(front), rows, moved)
    requires KeepsOutside(Key(u.table, id), WrittenByAll(front, u.body), rows, moved)
    ensures OneRowMoved(site, Key(u.table, id), MachineNames(ms), rows, moved)
    ensures KeepsOutside(Key(u.table, id), WrittenByAll(ms, u.body), rows, moved)
    ensures var end := MoveOne(site, moved, existing, u, id, last).0;
            && OneRowMoved(site, Key(u.table, id), MachineNames(ms), rows, end)
            && KeepsOutside(Key(u.table, id), WrittenByAll(ms, u.body), rows, end)
  {
    var key, written, end := Key(u.table, id), WrittenByAll(ms, u.body), MoveOne(site, moved, existing, u, id, last).0;
    MoveMovesOneColumn(site, moved, existing, u, id, last);
    LastIsNew(ms, front, last, u.body);
    MovesCompose(site, key, MachineNames(front), {last.name}, rows, moved, end);
    KeepsCompose(key, WrittenByAll(front, u.body), WrittenByAll([last], u.body), written, rows, moved, end);
  }

  lemma KeepsCompose(key: Key, first: set<string>, second: set<string>, all: set<string>, a: Rows, b: Rows, c: Rows)
    requires KeepsOutside(key, first, a, b) && KeepsOutside(key, second, b, c) && first + second <= all
    requires a.Keys == b.Keys == c.Keys
    ensures KeepsOutside(key, all, a, c)
  {
  }

  lemma LastIsNew(ms: seq<Machine>, front: seq<Machine>, last: Machine, body: Record)
    requires ms == front + [last] && DistinctMachines(ms)
    ensures MachineNames(ms) == MachineNames(front) + {last.name} && last.name !in MachineNames(front)
    ensures WrittenByAll(front, body) + WrittenByAll([last], body) <= WrittenByAll(ms, body)
  {
    assert forall m :: m in ms <==> m in front || m == last;
    forall m | m in front ensures m.name != last.name {
      var i :| 0 <= i < |front| && front[i] == m;
      assert ms[i] == m && ms[|front|] == last;
    }
  }

  lemma {:induction false} FoundByName(ms: seq<Machine>, m: Machine)
    requires DistinctMachines(ms) && m in ms
    ensures FindMachine(ms, m.name) == Some(m)
  {
    if ms[0] != m {
      assert m in ms[1..];
      FoundByName(ms[1..], m);
    }
  }

  lemma MovesCompose(site: Site, key: Key, first: set<string>, second: set<string>, a: Rows, b: Rows, c: Rows)
    requires OneRowMoved(site, key, first, a, b) && OneRowMoved(site, key, second, b, c) && first !! second
    ensures OneRowMoved(site, key, first + second, a, c)
  {
  }

  // ------------------------------------------------------------ every handler follows the edges

  /** The row an update, delete or transition request is about. */
  function Addressed(site: Site, rows: Rows, c: Call): Option<Key>
    requires !c.Create?
  {
    var id := Resolve(site, rows, c.table, c.target);
    if id.Some? then Some(Key(c.table, id.value)) else None
  }

  /** What a request may do to one row: a create puts it there in the initial states; an update or a transition that
      addresses it moves its machines along one declared edge each; a delete that addresses it, or a row whose
      cascade reaches it, removes it, if the ownership filter lets the caller through to the row addressed; everything
      else leaves it alone. */
  ghost predicate Follows(site: Site, rows: Rows, c: Call, key: Key, before: Option<Record>, after: Option<Record>) {
    match (before, after)
    case (None, None) => true
    case (None, Some(r)) =>
      && c.Create? && key == Key(c.table, c.id)
      && forall m :: m in MachinesOf(site.cfg, key.table) ==> Get(r, m.name) == Str(m.initial)
    case (Some(a), Some(b)) =>
      && MovedOnly(site, key.table, MachineNames(MachinesOf(site.cfg, key.table)), a, b)
      && (a != b ==> (c.Update? || c.Move?) && Addressed(site, rows, c) == Some(key))
    case (Some(a), None) =>
      c.Delete? && Deleted(site, rows, c, key)
  }

  /** The delete goes through, and the row is the one it addresses or one the cascade takes along. */
  predicate Deleted(site: Site, rows: Rows, c: Call, key: Key)
    requires c.Delete?
  {
    var id := Resolve(site, rows, c.table, c.target);
    MayDelete(site, rows, c.table, id, c.user) && key in Taken(site, rows, Key(c.table, id.value))
  }

  lemma {:induction false} InitialStatesAre(ms: seq<Machine>)
    requires DistinctMachines(ms)
    ensures InitialStates(ms).Keys == MachineNames(ms)
    ensures forall m :: m in ms ==> m.name in InitialStates(ms) && InitialStates(ms)[m.name] == Str(m.initial)
  {
    if ms != [] {
      var front, last := ms[..|ms| - 1], ms[|ms| - 1];
      InitialStatesAre(front);
      assert forall m :: m in ms <==> m in front || m == last;
      assert forall m :: m in front ==> m.name != last.name;
    }
  }

  lemma CreateStartsInitial(site: Site, rows: Rows, table: string, id: int, body: Record, user: User)
    requires WellConfigured(site)
    ensures var (after, r) := CreateStep(site, rows, table, id, body, user);
            && (r.Failure? ==> after == rows)
            && (r.Success? ==>
                  && after == rows[Key(table, id) := r.value]
                  && (forall m :: m in MachinesOf(site.cfg, table) ==> Get(r.value, m.name) == Str(m.initial))
                  && (OwnerOf(site, table).Some? ==>
                        Get(r.value, OwnerOf(site, table).value) == Str(user.principal.id)))
  {
    var (after, r) := CreateStep(site, rows, table, id, body, user);
    if r.Success? {
      var ms := MachinesOf(site.cfg, table);
      assert GoodTable(site, table);
      InitialStatesAre(ms);
      PreparedProtects(site, table, body, user);
      var prepared := Prepared(site, table, body, user);
      assert DependentSpares(site, table, prepared);
      assert forall m :: m in ms ==> m.name in MachineNames(ms) && m.name in Protected(site, table);
      assert OwnerOf(site, table).Some? ==> OwnerOf(site, table).value in Protected(site, table);
    }
  }

  /** What reaches storage names no state column, and names the creator as the owner. */
  lemma PreparedProtects(site: Site, table: string, body: Record, user: User)
    requires WellConfigured(site)
    ensures var prepared, owner := Prepared(site, table, body, user), OwnerOf(site, table);
            && (forall f :: f in MachineNames(MachinesOf(site.cfg, table)) ==> f !in prepared)
            && (owner.Some? ==> owner.value in prepared && prepared[owner.value] == Str(user.principal.id))
  {
    assert GoodTable(site, table);
  }

  lemma PersistKeepsProtected(site: Site, rows: Rows, table: string, id: Option<int>, existing: Option<Record>,
                              body: Record)
    requires WellConfigured(site)
    requires forall m :: m in MachinesOf(site.cfg, table) ==> m.name !in body
    requires OwnerOf(site, table).Some? ==> OwnerOf(site, table).value !in body
    ensures var after := Persist(site, rows, table, id, existing, body).0;
            && (id.None? ==> after == rows)
            && (id.Some? ==> OneRowMoved(site, Key(table, id.value), {}, rows, after))
  {
  }

  /** The machine chain of an update and the write behind it. */
  lemma MachinesThenWrite(site: Site, rows: Rows, v: Call, id: int, existing: Record)
    requires WellConfigured(site) && v.Update?
    requires OwnerOf(site, v.table).Some? ==> OwnerOf(site, v.table).value !in v.body
    ensures var ms := MachinesOf(site.cfg, v.table);
            var touched := Touched(ms, v.body);
            && (forall m :: m in touched ==> m.name in v.body)
            && var moved := MoveAll(site, rows, existing, v, id, touched).0;
            && OneRowMoved(site, Key(v.table, id), MachineNames(ms), rows, moved)
            && OneRowMoved(site, Key(v.table, id), MachineNames(ms), rows,
                           Persist(site, moved, v.table, Some(id), Some(existing), v.body - MachineNames(ms)).0)
  {
    var ms, key := MachinesOf(site.cfg, v.table), Key(v.table, id);
    var touched := Touched(ms, v.body);
    assert GoodTable(site, v.table);
    TouchedAreInBody(ms, v.body);
    TouchedAreDistinct(ms, v.body);
    ChainMovesEachColumnOnce(site, rows, existing, v, id, touched);
    var moved := MoveAll(site, rows, existing, v, id, touched).0;
    assert forall m :: m in ms ==> m.name in MachineNames(ms);
    PersistKeepsProtected(site, moved, v.table, Some(id), Some(existing), v.body - MachineNames(ms));
    var end := Persist(site, moved, v.table, Some(id), Some(existing), v.body - MachineNames(ms)).0;
    MovesCompose(site, key, MachineNames(touched), {}, rows, moved, end);
    MovesWiden(site, key, MachineNames(touched), MachineNames(ms), rows, moved);
    MovesWiden(site, key, MachineNames(touched) + {}, MachineNames(ms), rows, end);
  }

  lemma MovesWiden(site: Site, key: Key, fewer: set<string>, more: set<string>, a: Rows, b: Rows)
    requires OneRowMoved(site, key, fewer, a, b) && fewer <= more
    ensures OneRowMoved(site, key, more, a, b)
  {
  }

  /** Rows with a protected column are never empty. */
  ghost predicate NoEmptyRows(site: Site, rows: Rows) {
    forall key :: key in rows && Protected(site, key.table) != {} ==> rows[key] != map[]
  }

  lemma UpdateMovesEachColumnOnce(site: Site, rows: Rows, u: Call)
    requires WellConfigured(site) && NoEmptyRows(site, rows) && u.Update?
    ensures var after, id := UpdateStep(site, rows, u).0, Resolve(site, rows, u.table, u.target);
            && (id.None? ==> after == rows)
            && (id.Some? ==>
                  OneRowMoved(site, Key(u.table, id.value), MachineNames(MachinesOf(site.cfg, u.table)), rows, after))
  {
    var id := Resolve(site, rows, u.table, u.target);
    var existing := RowOf(rows, u.table, id);
    var body := OwnerStripped(site, u.table, u.body);
    var v := Update(u.table, u.target, body, u.user, u.clocks);
    assert GoodTable(site, u.table);
    UpdateIsMovesOrWrite(site, rows, u, v, id, existing);
    if Present(existing) && u.table in site.cfg.machines {
      MachinesThenWrite(site, rows, v, id.value, existing.value);
    } else {
      WriteWithoutMachines(site, rows, u.table, id, existing, body);
    }
  }

  lemma UpdateIsMovesOrWrite(site: Site, rows: Rows, u: Call, v: Call, id: Option<int>, existing: Option<Record>)
    requires u.Update? && v == Update(u.table, u.target, OwnerStripped(site, u.table, u.body), u.user, u.clocks)
    requires id == Resolve(site, rows, u.table, u.target) && existing == RowOf(rows, u.table, id)
    ensures var after, ms := UpdateStep(site, rows, u).0, MachinesOf(site.cfg, u.table);
            var touched := Touched(ms, v.body);
            && (forall m :: m in touched ==> m.name in v.body)
            && (after == rows ||
                if Present(existing) && u.table in site.cfg.machines then
                  var moved := MoveAll(site, rows, existing.value, v, id.value, touched).0;
                  after == moved || after == Persist(site, moved, u.table, id, existing, v.body - MachineNames(ms)).0
                else after == Persist(site, rows, u.table, id, existing, v.body).0)
  {
    TouchedAreInBody(MachinesOf(site.cfg, u.table), v.body);
  }

  lemma WriteWithoutMachines(site: Site, rows: Rows, table: string, id: Option<int>, existing: Option<Record>,
                             body: Record)
    requires WellConfigured(site) && NoEmptyRows(site, rows) && existing == RowOf(rows, table, id)
    requires !(Present(existing) && table in site.cfg.machines)
    requires OwnerOf(site, table).Some? ==> OwnerOf(site, table).value !in body
    ensures var after := Persist(site, rows, table, id, existing, body).0;
            && (id.None? ==> after == rows)
            && (id.Some? ==> OneRowMoved(site, Key(table, id.value), {}, rows, after))
  {
    var ms := MachinesOf(site.cfg, table);
    if existing.Some? {
      assert existing.value == map[] ==> Protected(site, table) == {};
      assert forall m :: m in ms ==> m.name in Protected(site, table);
      PersistKeepsProtected(site, rows, table, id, existing, body);
    }
  }

  lemma {:induction false} TouchedAreDistinct(ms: seq<Machine>, body: Record)
    requires DistinctMachines(ms)
    ensures DistinctMachines(Touched(ms, body))
  {
    if ms != [] {
      var front, last := ms[..|ms| - 1], ms[|ms| - 1];
      TouchedAreDistinct(front, body);
      TouchedAreInBody(front, body);
      assert forall m :: m in Touched(front, body) ==> m in front && m.name != last.name;
    }
  }

  /** Every handler, on every row: created in the initial states, moved along declared edges when addressed, deleted by
      a delete that may, or left alone. */
  lemma HandlersFollowEdges(site: Site, rows: Rows, c: Call, key: Key)
    requires WellConfigured(site) && NoEmptyRows(site, rows)
    requires c.Create? ==> Key(c.table, c.id) !in rows
    ensures Follows(site, rows, c, key, Lookup(rows, key), Lookup(Handle(site, rows, c).0, key))
  {
    match c
    case Create(table, id, body, user) => CreateStartsInitial(site, rows, table, id, body, user);
    case Update(_, _, _, _, _) => UpdateMovesEachColumnOnce(site, rows, c);
    case Delete(_, _, _) => DeleteTakesIff(site, rows, c, key);
    case Move(_, _, _, _, _, _) => MoveMovesOneRow(site, rows, c);
  }

  /** A row that was there is gone after a delete exactly when the delete goes through and takes it. */
  lemma DeleteTakesIff(site: Site, rows: Rows, c: Call, key: Key)
    requires c.Delete?
    ensures var after := Handle(site, rows, c).0;
            && (key in after ==> key in rows && after[key] == rows[key])
            && (key in rows && key !in after <==> key in rows && Deleted(site, rows, c, key))
  {
  }

  lemma MoveMovesOneRow(site: Site, rows: Rows, c: Call)
    requires WellConfigured(site) && c.Move?
    ensures var after := Handle(site, rows, c).0;
            after == rows ||
            (Addressed(site, rows, c).Some?
             && OneRowMoved(site, Addressed(site, rows, c).value, MachineNames(MachinesOf(site.cfg, c.table)),
                            rows, after))
  {
    var id := Resolve(site, rows, c.table, c.target);
    var ms := MachinesOf(site.cfg, c.table);
    if Present(RowOf(rows, c.table, id)) && (c.machine.Some? || ms != []) {
      var name := if c.machine.Some? then c.machine.value else ms[0].name;
      TransitionMovesOneColumn(site, Request(c.table, id.value, name, c.to, c.user, c.clocks(name)), rows);
      assert forall m :: m in ms ==> m.name in MachineNames(ms);
    }
  }

  // ------------------------------------------------------------ whole runs

  /** A run from some store; storage hands out unused keys. */
  ghost predicate IsServed(site: Site, rows: Rows, calls: seq<Call>)
    decreases |calls|
  {
    calls != [] ==>
      && (calls[0].Create? ==> Key(calls[0].table, calls[0].id) !in rows)
      && IsServed(site, Handle(site, rows, calls[0]).0, calls[1..])
  }

  function After(site: Site, rows: Rows, calls: seq<Call>): Rows
    decreases |calls|
  {
    if calls == [] then rows else After(site, Handle(site, rows, calls[0]).0, calls[1..])
  }

  /** A path of declared edges from the initial state. */
  ghost predicate IsPath(m: Machine, path: seq<string>) {
    && path != [] && path[0] == m.initial
    && forall i :: 0 < i < |path| ==> (path[i - 1], path[i]) in m.transitions
  }

  ghost predicate Reachable(m: Machine, v: Value) {
    v.Str? && exists path :: IsPath(m, path) && path[|path| - 1] == v.s
  }

  ghost predicate StatesReachable(site: Site, rows: Rows) {
    forall key, m :: key in rows && m in MachinesOf(site.cfg, key.table) ==> Reachable(m, Get(rows[key], m.name))
  }

  lemma EdgeKeepsReachable(m: Machine, a: Value, b: Value)
    requires Reachable(m, a) && Edge(m, a, b)
    ensures Reachable(m, b)
  {
    var path :| IsPath(m, path) && path[|path| - 1] == a.s;
    assert IsPath(m, path + [b.s]);
  }

  lemma StepKeepsStatesReachable(site: Site, rows: Rows, c: Call)
    requires WellConfigured(site) && NoEmptyRows(site, rows) && StatesReachable(site, rows)
    requires c.Create? ==> Key(c.table, c.id) !in rows
    ensures StatesReachable(site, Handle(site, rows, c).0)
  {
    var after := Handle(site, rows, c).0;
    forall key, m | key in after && m in MachinesOf(site.cfg, key.table) ensures Reachable(m, Get(after[key], m.name)) {
      HandlersFollowEdges(site, rows, c, key);
      if key in rows {
        if Get(after[key], m.name) != Get(rows[key], m.name) {
          EdgeKeepsReachable(m, Get(rows[key], m.name), Get(after[key], m.name));
        }
      } else {
        assert IsPath(m, [m.initial]);
      }
    }
  }
}
