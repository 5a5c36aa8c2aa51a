/** Who can change an owned row (termin_core/routing/crud.py). */
module OwnershipLaws {
  import opened Basics
  import opened Storage
  import opened StateMachine
  import opened Crud
  import opened CrudLaws
  import opened UpdateLaws
  import Events

  // ------------------------------------------------------------ ownership

  /** Who created each row, as told by the successful creates. */
  type Creators = map<Key, string>

  function Noted(creators: Creators, rows: Rows, site: Site, c: Call): Creators {
    if c.Create? && Handle(site, rows, c).1.Success?
    then creators[Key(c.table, c.id) := c.user.principal.id]
    else creators
  }

  function CreatorsAfter(site: Site, rows: Rows, creators: Creators, calls: seq<Call>): Creators
    decreases |calls|
  {
    if calls == [] then creators
    else CreatorsAfter(site, Handle(site, rows, calls[0]).0, Noted(creators, rows, site, calls[0]), calls[1..])
  }

  ghost predicate OwnersAreCreators(site: Site, rows: Rows, creators: Creators) {
    forall key :: key in rows && OwnerOf(site, key.table).Some? ==>
      key in creators && Get(rows[key], OwnerOf(site, key.table).value) == Str(creators[key])
  }

  lemma StepKeepsOwners(site: Site, rows: Rows, creators: Creators, c: Call)
    requires WellConfigured(site) && NoEmptyRows(site, rows) && OwnersAreCreators(site, rows, creators)
    requires c.Create? ==> Key(c.table, c.id) !in rows
    ensures OwnersAreCreators(site, Handle(site, rows, c).0, Noted(creators, rows, site, c))
  {
    var after := Handle(site, rows, c).0;
    forall key | key in after && OwnerOf(site, key.table).Some?
      ensures var noted := Noted(creators, rows, site, c);
              key in noted && Get(after[key], OwnerOf(site, key.table).value) == Str(noted[key])
    {
      HandlersFollowEdges(site, rows, c, key);
      if c.Create? {
        CreateStartsInitial(site, rows, c.table, c.id, c.body, c.user);
      }
    }
  }

  /** Empty rows cannot appear where something is protected. */
  lemma ProtectedRowsAreNotEmpty(site: Site, rows: Rows, creators: Creators)
    requires StatesReachable(site, rows) && OwnersAreCreators(site, rows, creators)
    ensures NoEmptyRows(site, rows)
  {
    forall key | key in rows && Protected(site, key.table) != {} ensures rows[key] != map[] {
      var f :| f in Protected(site, key.table);
      if f in MachineNames(MachinesOf(site.cfg, key.table)) {
        var m :| m in MachinesOf(site.cfg, key.table) && m.name == f;
        assert Reachable(m, Get(rows[key], m.name));
      }
    }
  }

  /** Over any run from an empty store every machine column holds a state reachable from the initial one by declared
      edges, and every owner column holds the id of the principal who created the row. */
  lemma RunsKeepStatesAndOwners(site: Site, calls: seq<Call>)
    requires WellConfigured(site) && IsServed(site, map[], calls)
    ensures StatesReachable(site, After(site, map[], calls))
    ensures OwnersAreCreators(site, After(site, map[], calls), CreatorsAfter(site, map[], map[], calls))
  {
    RunsKeep(site, map[], map[], calls);
  }

  lemma {:induction false} RunsKeep(site: Site, rows: Rows, creators: Creators, calls: seq<Call>)
    requires WellConfigured(site) && IsServed(site, rows, calls)
    requires StatesReachable(site, rows) && OwnersAreCreators(site, rows, creators)
    ensures StatesReachable(site, After(site, rows, calls))
    ensures OwnersAreCreators(site, After(site, rows, calls), CreatorsAfter(site, rows, creators, calls))
    decreases |calls|
  {
    if calls != [] {
      ProtectedRowsAreNotEmpty(site, rows, creators);
      StepKeepsStatesReachable(site, rows, calls[0]);
      StepKeepsOwners(site, rows, creators, calls[0]);
      RunsKeep(site, Handle(site, rows, calls[0]).0, Noted(creators, rows, site, calls[0]), calls[1..]);
    }
  }

  // ------------------------------------------------------------ who changes an owned row

  function MoveRequest(site: Site, rows: Rows, c: Call): Request
    requires c.Move? && Addressed(site, rows, c).Some?
  {
    var ms := MachinesOf(site.cfg, c.table);
    var machine := if c.machine.Some? then c.machine.value else if ms != [] then ms[0].name else "";
    Request(c.table, Addressed(site, rows, c).value.id, machine, c.to, c.user, c.clocks(machine))
  }

  /** Some field gets another value from the last entered assignment that names it. */
  ghost predicate EntryChanges(entered: seq<(string, string)>, ev: Option<Evaluator>, ctx: EvalContext, row: Record) {
    ev.Some? && exists f, i :: LastAssignment(entered, f, i) && ev.value(entered[i].1, ctx) != Lookup(row, f)
  }

  /** The row is in state `from`, the edge from there to the target is declared, its gate holds, and taking it either
      leaves the state or changes an entered field. */
  ghost predicate EdgeTaken(cfg: Config, req: Request, row: Record, from: string) {
    && req.table in cfg.machines && FindMachine(cfg.machines[req.table], req.machine).Some?
    && var m := FindMachine(cfg.machines[req.table], req.machine).value;
    && Get(row, m.column) == Str(from)
    && GateHolds(cfg, req, row, Ready(m.column, from, map[]))
    && var entered := m.transitions[(from, req.target)].Entered();
    || (from != req.target && m.column !in AssignedFields(entered))
    || EntryChanges(entered, cfg.evaluator, ContextOf(req, row, req.clocks.entry), row)
  }

  ghost predicate MoveGoesThrough(site: Site, rows: Rows, c: Call)
    requires c.Move? && Addressed(site, rows, c).Some? && Addressed(site, rows, c).value in rows
  {
    && (c.machine.Some? || MachinesOf(site.cfg, c.table) != [])
    && exists from :: EdgeTaken(site.cfg, MoveRequest(site, rows, c), rows[Addressed(site, rows, c).value], from)
  }

  lemma PatchChangesIff(entered: seq<(string, string)>, ev: Option<Evaluator>, ctx: EvalContext, column: string,
                        from: string, target: string, row: Record, patch: Record)
    requires Get(row, column) == Str(from)
    requires if entered == [] then patch == map[column := Str(target)]
             else ev.Some? && AssignEntered(entered, ev.value, ctx, map[column := Str(target)]) == Some(patch)
    ensures row + patch != row <==>
              (from != target && column !in AssignedFields(entered)) || EntryChanges(entered, ev, ctx, row)
  {
    if ev.Some? {
      AssignEnteredExact(entered, ev.value, ctx, map[column := Str(target)]);
    }
    assert row + patch != row ==> exists f :: f in patch && Lookup(row, f) != Some(patch[f]);
    if f :| f in patch && Lookup(row, f) != Some(patch[f]) {
      assert (row + patch)[f] == patch[f];
      if f in AssignedFields(entered) {
        var i := LastIndexOf(entered, f);
        assert EntryChanges(entered, ev, ctx, row);
      }
    }
    if column !in AssignedFields(entered) {
      assert (row + patch)[column] == Str(target);
    }
    if EntryChanges(entered, ev, ctx, row) {
      var f, i :| LastAssignment(entered, f, i) && ev.value(entered[i].1, ctx) != Lookup(row, f);
      assert f in row + patch && (row + patch)[f] == patch[f];
    }
  }

  lemma TransitionChangesIff(cfg: Config, req: Request, rows: Rows)
    requires Key(req.table, req.id) in rows
    ensures var key := Key(req.table, req.id);
            Transition(cfg, req, rows, rows).rows != rows <==> exists from :: EdgeTaken(cfg, req, rows[key], from)
  {
    var key := Key(req.table, req.id);
    var row, found := rows[key], Some(rows[key]);
    TransitionAlone(cfg, req, rows);
    ReadAndGateExact(cfg, req, found);
    var ready := ReadAndGate(cfg, req, found);
    if ready.Success? {
      var r := ready.value;
      var m := FindMachine(cfg.machines[req.table], req.machine).value;
      if Get(row, r.column) == Str(r.from) {
        PatchChangesIff(m.transitions[(r.from, req.target)].Entered(), cfg.evaluator,
                        ContextOf(req, row, req.clocks.entry), r.column, r.from, req.target, row, r.patch);
        assert GateHolds(cfg, req, row, Ready(m.column, r.from, map[]));
        assert row + r.patch != row <==> EdgeTaken(cfg, req, row, r.from);
        assert rows[key := row + r.patch] != rows <==> row + r.patch != row;
      }
    }
    forall from | EdgeTaken(cfg, req, row, from) ensures ready.Success? && ready.value.from == from {
      var m := FindMachine(cfg.machines[req.table], req.machine).value;
      assert GateHolds(cfg, req, row, Ready(m.column, from, map[])) && m.column in row;
    }
  }

  /** A transition request changes the row it addresses exactly when an edge from the row's state is declared, lets the
      request through, and is not a loop that enters what is there already. */
  lemma MoveChangesIff(site: Site, rows: Rows, c: Call)
    requires c.Move? && Addressed(site, rows, c).Some? && Addressed(site, rows, c).value in rows
    ensures var key, after := Addressed(site, rows, c).value, Handle(site, rows, c).0;
            && after.Keys == rows.Keys && (forall k :: k in rows && k != key ==> after[k] == rows[k])
            && (after[key] != rows[key] <==> MoveGoesThrough(site, rows, c))
  {
    var req, key := MoveRequest(site, rows, c), Addressed(site, rows, c).value;
    TransitionAlone(site.cfg, req, rows);
    TransitionChangesIff(site.cfg, req, rows);
    var after := Handle(site, rows, c).0;
    assert after.Keys == rows.Keys && forall k :: k in rows && k != key ==> after[k] == rows[k];
    assert after[key] == rows[key] ==> after == rows;
  }

  /** Under an ownership filter a request by somebody else about an existing row changes the store exactly when it is a
      transition that goes through: update and delete are refused, but no handler asks who owns a row that is moved. */
  lemma StrangerChangesRowIff(site: Site, rows: Rows, c: Call)
    requires !c.Create? && Addressed(site, rows, c).Some? && Addressed(site, rows, c).value in rows
    requires var row := rows[Addressed(site, rows, c).value]; row != map[] && Foreign(site, c.table, row, c.user)
    ensures Handle(site, rows, c).0 != rows <==> c.Move? && MoveGoesThrough(site, rows, c)
    ensures c.Update? || c.Delete? ==> Handle(site, rows, c).0 == rows && Handle(site, rows, c).1.Failure?
  {
    if c.Move? {
      MoveChangesIff(site, rows, c);
      var key, after := Addressed(site, rows, c).value, Handle(site, rows, c).0;
      assert after == rows <==> after[key] == rows[key];
    }
  }

  /** One such request: Bob finishes Ann's task. */
  lemma StrangerFinishesATask()
    ensures var site := TaskSite((t, b) => Some(b)).(ownerField := map["tasks" := "owner"],
                                                     ownershipFilter := map["tasks" := "owner"],
                                                     known := map["tasks" := {"owner"}]);
            var rows := map[Key("tasks", 1) := map["status" := Str("open"), "owner" := Str("ann")]];
            var bob := User([], Events.Principal("bob", "", false, false, []));
            var c := Move("tasks", ById(1), None, "done", bob, n => Clocks("", "", ""));
            && WellConfigured(site) && Foreign(site, "tasks", rows[Key("tasks", 1)], bob)
            && Handle(site, rows, c).0 != rows
  {
    var site := TaskSite((t, b) => Some(b)).(ownerField := map["tasks" := "owner"],
                                             ownershipFilter := map["tasks" := "owner"],
                                             known := map["tasks" := {"owner"}]);
    var row: Record := map["status" := Str("open"), "owner" := Str("ann")];
    var bob := User([], Events.Principal("bob", "", false, false, []));
    var c := Move("tasks", ById(1), None, "done", bob, n => Clocks("", "", ""));
    var rows := map[Key("tasks", 1) := row];
    OwnedTaskSite(site);
    var req := MoveRequest(site, rows, c);
    assert TASK.transitions[("open", "done")] == ScopeGate("");
    assert FindMachine([TASK], "status") == Some(TASK) && ("open", "done") in TASK.transitions;
    assert CurrentState(row, "status") == Str("open");
    assert CheckGate(site.cfg, req, ScopeGate(""), row, "status").None?;
    assert GateHolds(site.cfg, req, row, Ready("status", "open", map[]));
    assert EdgeTaken(site.cfg, req, row, "open");
    MoveChangesIff(site, rows, c);
  }

  lemma OwnedTaskSite(site: Site)
    requires MachinesOf(site.cfg, "tasks") == [TASK] && forall t :: t != "tasks" ==> MachinesOf(site.cfg, t) == []
    requires site.seeds && site.ownerField == site.ownershipFilter == map["tasks" := "owner"]
    requires site.known == map["tasks" := {"owner"}]
    requires forall t, b, w :: site.hooks.defaults(t, b, w) == map[]
    requires forall t, b :: site.hooks.dependent(t, b) == Some(b)
    ensures WellConfigured(site)
  {
    forall table ensures GoodTable(site, table) {
      assert TASK.transitions[("open", "done")].Entered() == [];
      assert "owner" != "status";
    }
  }

  /** An owned row disappears only by a delete of its creator, or by one that addresses another row, goes through there
      and takes this one along; it changes only by an update of its creator or by a transition that goes through. */
  ghost predicate ChangedByRight(site: Site, rows: Rows, creators: Creators, c: Call, key: Key)
    requires key in rows && key in creators
  {
    var after := Handle(site, rows, c).0;
    && (key !in after ==>
          && c.Delete? && Deleted(site, rows, c, key)
          && (Addressed(site, rows, c) == Some(key) ==> c.user.principal.id == creators[key]))
    && (key in after && after[key] != rows[key] ==>
          && !c.Create? && Addressed(site, rows, c) == Some(key)
          && ((c.Update? && c.user.principal.id == creators[key]) || (c.Move? && MoveGoesThrough(site, rows, c))))
  }

  lemma OwnedRowsChangeByRight(site: Site, rows: Rows, creators: Creators, c: Call, key: Key)
    requires WellConfigured(site) && NoEmptyRows(site, rows) && OwnersAreCreators(site, rows, creators)
    requires c.Create? ==> Key(c.table, c.id) !in rows
    requires key in rows && OwnerOf(site, key.table).Some?
    ensures ChangedByRight(site, rows, creators, c, key)
  {
    HandlersFollowEdges(site, rows, c, key);
    assert GoodTable(site, key.table);
    assert OwnerOf(site, key.table).value in Protected(site, key.table);
    if !c.Create? && Addressed(site, rows, c) == Some(key) {
      if Foreign(site, key.table, rows[key], c.user) {
        StrangerChangesRowIff(site, rows, c);
      } else if c.Move? {
        MoveChangesIff(site, rows, c);
      }
    }
  }

  /** Somebody who did not create an owned row can delete it exactly by a delete that addresses another row, is let
      through there, and cascades to this one. */
  lemma StrangerDeletesRowIff(site: Site, rows: Rows, creators: Creators, c: Call, key: Key)
    requires WellConfigured(site) && OwnersAreCreators(site, rows, creators) && c.Delete?
    requires key in rows && OwnerOf(site, key.table).Some?
    requires key in creators && c.user.principal.id != creators[key]
    ensures key !in Handle(site, rows, c).0 <==>
              && Addressed(site, rows, c).Some? && Addressed(site, rows, c) != Some(key)
              && MayDelete(site, rows, c.table, Resolve(site, rows, c.table, c.target), c.user)
              && key in site.hooks.cascade(rows, Addressed(site, rows, c).value)
  {
    DeleteTakesIff(site, rows, c, key);
    assert GoodTable(site, key.table);
  }

  /** One such request: tasks go with their project, projects have no owner, and Bob deletes the project of Ann's
      task. */
  lemma StrangerCascadesToATask()
    ensures var plain := TaskSite((t, b) => Some(b));
            var site := plain.(ownerField := map["tasks" := "owner"], ownershipFilter := map["tasks" := "owner"],
                               known := map["tasks" := {"owner"}],
                               hooks := plain.hooks.(cascade := (r, k) => {Key("tasks", 1)}));
            var rows := map[Key("projects", 1) := map["name" := Str("p")],
                            Key("tasks", 1) := map["status" := Str("open"), "owner" := Str("ann")]];
            var bob := User([], Events.Principal("bob", "", false, false, []));
            && WellConfigured(site) && OwnersAreCreators(site, rows, map[Key("tasks", 1) := "ann"])
            && Key("tasks", 1) !in Handle(site, rows, Delete("projects", ById(1), bob)).0
  {
    var plain := TaskSite((t, b) => Some(b));
    var site := plain.(ownerField := map["tasks" := "owner"], ownershipFilter := map["tasks" := "owner"],
                       known := map["tasks" := {"owner"}],
                       hooks := plain.hooks.(cascade := (r, k) => {Key("tasks", 1)}));
    OwnedTaskSite(site);
  }

  /** The same at every moment of every run from an empty store. */
  lemma RunsChangeOwnedRowsByRight(site: Site, calls: seq<Call>, i: nat, key: Key)
    requires WellConfigured(site) && IsServed(site, map[], calls) && i < |calls|
    requires key in After(site, map[], calls[..i]) && OwnerOf(site, key.table).Some?
    ensures var creators := CreatorsAfter(site, map[], map[], calls[..i]);
            && key in creators
            && ChangedByRight(site, After(site, map[], calls[..i]), creators, calls[i], key)
  {
    PrefixIsServed(site, map[], calls, i);
    RunsKeepStatesAndOwners(site, calls[..i]);
    var rows, creators := After(site, map[], calls[..i]), CreatorsAfter(site, map[], map[], calls[..i]);
    ProtectedRowsAreNotEmpty(site, rows, creators);
    OwnedRowsChangeByRight(site, rows, creators, calls[i], key);
  }

  lemma {:induction false} PrefixIsServed(site: Site, rows: Rows, calls: seq<Call>, i: nat)
    requires IsServed(site, rows, calls) && i < |calls|
    ensures IsServed(site, rows, calls[..i])
    ensures calls[i].Create? ==> Key(calls[i].table, calls[i].id) !in After(site, rows, calls[..i])
    decreases i
  {
    if i > 0 {
      PrefixIsServed(site, Handle(site, rows, calls[0]).0, calls[1..], i - 1);
      assert calls[..i][1..] == calls[1..][..i - 1];
    }
  }

  /** The owner's own update and delete are never refused for ownership: they do what they would without the filter,
      except that the owner column is dropped from the body. */
  lemma OwnersPassTheFilter(site: Site, rows: Rows, c: Call)
    requires c.Update? || c.Delete?
    requires var row := RowOf(rows, c.table, Resolve(site, rows, c.table, c.target));
             row.Some? && !Foreign(site, c.table, row.value, c.user)
    ensures var open := site.(ownershipFilter := map[]);
            && (c.Delete? ==> Handle(site, rows, c) == Handle(open, rows, c))
            && (c.Update? && site.hooks.mayWrite(c.table, c.body, c.user) ==>
                  var v := Update(c.table, c.target, OwnerStripped(site, c.table, c.body), c.user, c.clocks);
                  open.hooks.mayWrite(v.table, v.body, v.user) ==> Handle(site, rows, c) == Handle(open, rows, v))
  {
    var open := site.(ownershipFilter := map[]);
    if c.Update? {
      var v := Update(c.table, c.target, OwnerStripped(site, c.table, c.body), c.user, c.clocks);
      assert OwnerStripped(open, v.table, v.body) == v.body;
      var id := Resolve(site, rows, c.table, c.target);
      if c.table in site.cfg.machines && Present(RowOf(rows, c.table, id)) {
        var ms := site.cfg.machines[c.table];
        TouchedAreInBody(ms, v.body);
        ChainIgnoresFilter(site, open, rows, rows[Key(c.table, id.value)], v, id.value, Touched(ms, v.body));
      }
    }
  }

  lemma {:induction false} ChainIgnoresFilter(site: Site, open: Site, rows: Rows, existing: Record, u: Call, id: int,
                                              ms: seq<Machine>)
    requires open == site.(ownershipFilter := map[]) && u.Update? && forall m :: m in ms ==> m.name in u.body
    ensures MoveAll(site, rows, existing, u, id, ms) == MoveAll(open, rows, existing, u, id, ms)
  {
    if ms != [] { ChainIgnoresFilter(site, open, rows, existing, u, id, ms[..|ms| - 1]); }
  }

  // ------------------------------------------------------------ who sees an owned row

  /** A row is listed exactly when it meets every filter of the request and, unless the caller's id is empty, is the
      caller's own. */
  lemma ListedIff(site: Site, rows: Rows, table: string, filters: seq<Predicate>, user: User, key: Key)
    ensures key in Listed(site, rows, table, filters, user) <==>
              && key in rows && key.table == table && (forall p :: p in filters ==> Holds(p, rows[key]))
              && (user.principal.id == "" || !Foreign(site, table, rows[key], user))
  {
    var owner := Configured(site.ownershipFilter, table);
    if owner.Some? && user.principal.id != "" {
      var own := Eq(owner.value, Str(user.principal.id));
      AllOf(filters + [own]);
      assert forall p :: p in filters + [own] <==> p in filters || p == own;
      assert key in rows ==> (Holds(own, rows[key]) <==> !Foreign(site, table, rows[key], user));
    } else {
      AllOf(filters);
    }
  }

  /** One predicate, a conjunction, or none: all must hold. */
  lemma AllOf(ps: seq<Predicate>)
    ensures |ps| == 1 ==> forall r :: Holds(ps[0], r) <==> forall p :: p in ps ==> Holds(p, r)
    ensures forall r :: Holds(And(ps), r) <==> forall p :: p in ps ==> Holds(p, r)
  {
    assert |ps| == 1 ==> ps == [ps[0]];
  }

  /** The read handler shows a row exactly when it is not somebody else's. */
  lemma ReadableIff(site: Site, rows: Rows, user: User, key: Key)
    ensures ReadStep(site, rows, key.table, ById(key.id), user).Success? <==>
              key in rows && !Foreign(site, key.table, rows[key], user)
  {
  }

  /** Whatever is stored and asked for, a user is listed only rows the read handler would show, exactly when the table
      has no ownership filter or the user's id is not empty: the filter is dropped for the empty id. */
  lemma ListedIsReadableIff(site: Site, table: string, user: User)
    ensures (forall rows, filters, key :: key in Listed(site, rows, table, filters, user) ==>
               ReadStep(site, rows, table, ById(key.id), user).Success?)
            <==> Configured(site.ownershipFilter, table).None? || user.principal.id != ""
  {
    if Configured(site.ownershipFilter, table).None? || user.principal.id != "" {
      forall rows, filters, key | key in Listed(site, rows, table, filters, user)
        ensures ReadStep(site, rows, table, ById(key.id), user).Success?
      {
        ListedIff(site, rows, table, filters, user, key);
        ReadableIff(site, rows, user, key);
      }
    } else {
      var key, rows := AnonymousListsAnOwnedRow(site, table, user);
      assert key in Listed(site, rows, table, [], user);
    }
  }

  /** The input that fails: Ann's row, listed to a user without an id. */
  lemma AnonymousListsAnOwnedRow(site: Site, table: string, user: User) returns (key: Key, rows: Rows)
    requires Configured(site.ownershipFilter, table).Some? && user.principal.id == ""
    ensures key == Key(table, 1)
    ensures rows == map[key := map[Configured(site.ownershipFilter, table).value := Str("ann")]]
    ensures key in Listed(site, rows, table, [], user)
    ensures ReadStep(site, rows, table, ById(1), user).Failure?
  {
    key := Key(table, 1);
    rows := map[key := map[Configured(site.ownershipFilter, table).value := Str("ann")]];
    ListedIff(site, rows, table, [], user, key);
    ReadableIff(site, rows, user, key);
  }
}
