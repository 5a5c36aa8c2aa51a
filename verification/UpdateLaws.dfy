/** What a PUT leaves behind, when it fails and when it succeeds (`update_content_handler` in
    termin_core/routing/crud.py). */
module UpdateLaws {
  import opened Basics
  import opened Storage
  import opened StateMachine
  import opened Crud
  import opened CrudLaws
  import Events

  // ------------------------------------------------------------ a PUT that fails

  /** Where the chain stopped: every machine before `k` moved, and at `k` the transition failed and changed nothing. */
  lemma {:induction false} ChainStopsAt(site: Site, rows: Rows, existing: Record, u: Call, id: int, ms: seq<Machine>)
    returns (k: nat)
    requires u.Update? && forall m :: m in ms ==> m.name in u.body
    ensures k <= |ms|
    ensures var whole := MoveAll(site, rows, existing, u, id, ms);
            var before := MoveAll(site, rows, existing, u, id, ms[..k]);
            && before.1.None? && whole.0 == before.0
            && (whole.1.Some? <==> k < |ms|)
            && (k < |ms| ==> MoveOne(site, before.0, existing, u, id, ms[k]) == (before.0, whole.1))
  {
    if ms == [] {
      k := 0;
    } else {
      var n := |ms| - 1;
      k := ChainStopsAt(site, rows, existing, u, id, ms[..n]);
      assert ms[..n][..k] == ms[..k];
      var (moved, failed) := MoveAll(site, rows, existing, u, id, ms[..n]);
      if failed.None? {
        var m := ms[n];
        var target := u.body[m.name];
        if target.Str? {
          TransitionAlone(site.cfg, Request(u.table, id, m.name, target.s, u.user, u.clocks(m.name)), moved);
        }
        if MoveOne(site, moved, existing, u, id, m).1.None? {
          k := n + 1;
          assert ms[..k] == ms;
        }
      }
    }
  }

  /** The call passes the write check and the ownership rule, and the row it addresses is there. */
  predicate ReachesItsRow(site: Site, rows: Rows, u: Call)
    requires u.Update?
  {
    var row := RowOf(rows, u.table, Resolve(site, rows, u.table, u.target));
    && Present(row) && !Foreign(site, u.table, row.value, u.user)
    && site.hooks.mayWrite(u.table, u.body, u.user)
  }

  /** An update that fails leaves exactly the moves before the failing machine; when no machine fails but the later
      validation or write does, it leaves all of them. */
  lemma FailedUpdateKeepsEarlierMoves(site: Site, rows: Rows, u: Call)
    requires u.Update? && u.table in site.cfg.machines && UpdateStep(site, rows, u).1.Failure?
    requires ReachesItsRow(site, rows, u)
    ensures var id := Resolve(site, rows, u.table, u.target).value;
            var existing := rows[Key(u.table, id)];
            var v := Update(u.table, u.target, OwnerStripped(site, u.table, u.body), u.user, u.clocks);
            var touched := Touched(site.cfg.machines[u.table], v.body);
            && (forall m :: m in touched ==> m.name in v.body)
            && exists k :: StoppedAt(site, rows, existing, v, id, touched, UpdateStep(site, rows, u).0, k)
  {
    var id := Resolve(site, rows, u.table, u.target).value;
    var existing := rows[Key(u.table, id)];
    var v := Update(u.table, u.target, OwnerStripped(site, u.table, u.body), u.user, u.clocks);
    var ms := site.cfg.machines[u.table];
    var touched := Touched(ms, v.body);
    FailedUpdateIsItsMoves(site, rows, u, v, id, ms);
    var k := ChainStopsAt(site, rows, existing, v, id, touched);
    assert StoppedAt(site, rows, existing, v, id, touched, UpdateStep(site, rows, u).0, k) by {
      hide UpdateStep, MoveOne;
    }
    hide StoppedAt, UpdateStep, MoveAll, MoveOne, Touched, RowOf, Resolve, OwnerStripped;
  }

  /** `end` is the store after the first `k` moves, and the next one fails, or there is none. */
  ghost predicate StoppedAt(site: Site, rows: Rows, existing: Record, u: Call, id: int, touched: seq<Machine>,
                            end: Rows, k: nat)
    requires u.Update? && forall m :: m in touched ==> m.name in u.body
  {
    && k <= |touched|
    && MoveAll(site, rows, existing, u, id, touched[..k]) == (end, None)
    && (k < |touched| ==> MoveOne(site, end, existing, u, id, touched[k]).1.Some?)
  }

  // ------------------------------------------------------------ reaching the target

  lemma TransitionReachesTarget(site: Site, req: Request, rows: Rows)
    requires WellConfigured(site)
    ensures var o, key := Transition(site.cfg, req, rows, rows), Key(req.table, req.id);
            o.result.Success? ==> key in o.rows && Get(o.rows[key], req.machine) == Str(req.target)
  {
    TransitionAlone(site.cfg, req, rows);
    var o, key := Transition(site.cfg, req, rows, rows), Key(req.table, req.id);
    if o.result.Success? {
      ReadyPatch(site.cfg, req, Some(rows[key]));
      var ms := site.cfg.machines[req.table];
      FindMachineFindsFirst(ms, req.machine);
      assert GoodTable(site, req.table);
      var m := FindMachine(ms, req.machine).value;
      assert m.name in MachineNames(ms);
    }
  }

  // ------------------------------------------------------------ when a failed PUT leaves no trace

  /** The body asks `m` for another state than the one that was read. */
  predicate Asks(existing: Record, body: Record, m: Machine)
    requires m.name in body
  {
    body[m.name] != CurrentState(existing, m.name)
  }

  /** The first machine the body asks to move. */
  function FirstAsk(existing: Record, body: Record, ms: seq<Machine>): Option<Machine>
    requires forall m :: m in ms ==> m.name in body
  {
    if ms == [] then None
    else
      var front := FirstAsk(existing, body, ms[..|ms| - 1]);
      if front.Some? then front
      else if Asks(existing, body, ms[|ms| - 1]) then Some(ms[|ms| - 1]) else None
  }

  lemma {:induction false} FirstAskIsFirst(existing: Record, body: Record, ms: seq<Machine>)
    requires forall m :: m in ms ==> m.name in body
    ensures FirstAsk(existing, body, ms).None? <==> forall m :: m in ms ==> !Asks(existing, body, m)
    ensures FirstAsk(existing, body, ms).Some? ==>
              exists i :: && 0 <= i < |ms| && ms[i] == FirstAsk(existing, body, ms).value && Asks(existing, body, ms[i])
                          && forall j :: 0 <= j < i ==> !Asks(existing, body, ms[j])
  {
    if ms != [] {
      var front := ms[..|ms| - 1];
      FirstAskIsFirst(existing, body, front);
      assert forall m :: m in ms <==> m in front || m == ms[|ms| - 1];
      assert forall i :: 0 <= i < |front| ==> front[i] == ms[i];
    }
  }

  /** A machine that is asked to move and may does leave its old state. */
  lemma MoveLeavesItsState(site: Site, rows: Rows, existing: Record, u: Call, id: int, m: Machine)
    requires WellConfigured(site) && u.Update? && m in MachinesOf(site.cfg, u.table) && m.name in u.body
    ensures var (after, failed) := MoveOne(site, rows, existing, u, id, m);
            && (failed.Some? || !Asks(existing, u.body, m) ==> after == rows)
            && (failed.None? && Asks(existing, u.body, m) ==>
                  Key(u.table, id) in after && Get(after[Key(u.table, id)], m.name) == u.body[m.name])
  {
    var target := u.body[m.name];
    if target.Str? {
      var req := Request(u.table, id, m.name, target.s, u.user, u.clocks(m.name));
      TransitionAlone(site.cfg, req, rows);
      TransitionReachesTarget(site, req, rows);
    }
  }

  /** A chain of moves changes the row exactly when the first machine that is asked to move may: then that machine's
      column is and stays another. */
  lemma {:induction false} ChainChangesIff(site: Site, rows: Rows, u: Call, id: int, ms: seq<Machine>)
    requires WellConfigured(site) && u.Update? && DistinctMachines(ms) && Key(u.table, id) in rows
    requires forall m :: m in ms ==> && m in MachinesOf(site.cfg, u.table) && m.name in u.body
                                     && m.name in rows[Key(u.table, id)]
    ensures var key, existing := Key(u.table, id), rows[Key(u.table, id)];
            var (after, failed) := MoveAll(site, rows, existing, u, id, ms);
            var first := FirstAsk(existing, u.body, ms);
            && (first.None? ==> after == rows && failed.None?)
            && (first.Some? ==>
                  && first.value in ms
                  && var refused := MoveOne(site, rows, existing, u, id, first.value).1.Some?;
                  && (refused ==> after == rows && failed.Some?)
                  && (!refused ==>
                        key in after && Get(after[key], first.value.name) != Get(existing, first.value.name)))
  {
    if ms != [] {
      var front, last, key := ms[..|ms| - 1], ms[|ms| - 1], Key(u.table, id);
      var existing := rows[key];
      ChainChangesIff(site, rows, u, id, front);
      var (moved, stopped) := MoveAll(site, rows, existing, u, id, front);
      MoveLeavesItsState(site, moved, existing, u, id, last);
      MoveMovesOneColumn(site, moved, existing, u, id, last);
      var first := FirstAsk(existing, u.body, front);
      if first.Some? {
        assert first.value in MachinesOf(site.cfg, u.table) && first.value.name != last.name;
      }
    }
  }

  /** An edge from the state that was read to the one asked for is declared, and its gate holds of the row that was
      read. */
  ghost predicate MayMove(site: Site, existing: Record, u: Call, id: int, m: Machine)
    requires u.Update? && m.name in u.body
  {
    var target := u.body[m.name];
    target.Str? &&
    exists from :: GateHolds(site.cfg, Request(u.table, id, m.name, target.s, u.user, u.clocks(m.name)), existing,
                             Ready(m.column, from, map[]))
  }

  /** On the row that was read a machine that is asked to move is refused exactly when it may not. */
  lemma MoveRefusedIff(site: Site, rows: Rows, u: Call, id: int, m: Machine)
    requires WellConfigured(site) && u.Update? && m in MachinesOf(site.cfg, u.table) && m.name in u.body
    requires Key(u.table, id) in rows && m.name in rows[Key(u.table, id)]
    requires Asks(rows[Key(u.table, id)], u.body, m)
    ensures var existing := rows[Key(u.table, id)];
            MoveOne(site, rows, existing, u, id, m).1.Some? <==> !MayMove(site, existing, u, id, m)
  {
    var existing, target := rows[Key(u.table, id)], u.body[m.name];
    if target.Str? {
      var req := Request(u.table, id, m.name, target.s, u.user, u.clocks(m.name));
      assert GoodTable(site, u.table);
      FoundByName(MachinesOf(site.cfg, u.table), m);
      ReadAndGateExact(site.cfg, req, Some(existing));
      var ready := ReadAndGate(site.cfg, req, Some(existing));
      if ready.Success? {
        assert GateHolds(site.cfg, req, existing, Ready(m.column, ready.value.from, map[]));
      }
    }
  }

  /** A PUT that fails after the access checks leaves the store as it was exactly when the body asks no machine for a
      new state, or the first machine it asks has no declared edge there whose gate holds of the row that was read. */
  lemma FailedUpdateLeavesNoTraceIff(site: Site, rows: Rows, u: Call)
    requires WellConfigured(site) && StatesReachable(site, rows)
    requires u.Update? && u.table in site.cfg.machines && UpdateStep(site, rows, u).1.Failure?
    requires ReachesItsRow(site, rows, u)
    ensures var id := Resolve(site, rows, u.table, u.target).value;
            var existing := rows[Key(u.table, id)];
            var v := Update(u.table, u.target, OwnerStripped(site, u.table, u.body), u.user, u.clocks);
            var touched := Touched(site.cfg.machines[u.table], v.body);
            && (forall m :: m in touched ==> m.name in v.body)
            && var first := FirstAsk(existing, v.body, touched);
            (UpdateStep(site, rows, u).0 == rows <==>
               first.None? || (first.value.name in v.body && !MayMove(site, existing, v, id, first.value)))
  {
    var id := Resolve(site, rows, u.table, u.target).value;
    var key := Key(u.table, id);
    var v := Update(u.table, u.target, OwnerStripped(site, u.table, u.body), u.user, u.clocks);
    var ms := site.cfg.machines[u.table];
    TouchedAreInBody(ms, v.body);
    assert GoodTable(site, u.table);
    TouchedAreDistinct(ms, v.body);
    forall m | m in ms ensures m.name in rows[key] {
      assert Reachable(m, Get(rows[key], m.name));
    }
    ChainChangesIff(site, rows, v, id, Touched(ms, v.body));
    FailedUpdateIsItsMoves(site, rows, u, v, id, ms);
    var first := FirstAsk(rows[key], v.body, Touched(ms, v.body));
    if first.Some? {
      FirstAskIsFirst(rows[key], v.body, Touched(ms, v.body));
      MoveRefusedIff(site, rows, v, id, first.value);
    }
  }

  // ------------------------------------------------------------ what was announced

  lemma MoveAnnouncesIff(site: Site, rows: Rows, existing: Record, u: Call, id: int, m: Machine)
    requires u.Update? && m.name in u.body
    ensures MoveOneEvents(site, rows, existing, u, id, m) == [] <==>
              MoveOne(site, rows, existing, u, id, m).1.Some? || !Asks(existing, u.body, m)
  {
    var target := u.body[m.name];
    if target.Str? {
      var o := Transition(site.cfg, Request(u.table, id, m.name, target.s, u.user, u.clocks(m.name)), rows, rows);
      assert o.events == [] <==> o.result.Failure?;
    }
  }

  lemma {:induction false} ChainAnnouncesIff(site: Site, rows: Rows, u: Call, id: int, ms: seq<Machine>)
    requires WellConfigured(site) && u.Update? && DistinctMachines(ms) && Key(u.table, id) in rows
    requires forall m :: m in ms ==> && m in MachinesOf(site.cfg, u.table) && m.name in u.body
                                     && m.name in rows[Key(u.table, id)]
    ensures var existing := rows[Key(u.table, id)];
            MoveAllEvents(site, rows, existing, u, id, ms) == [] <==> MoveAll(site, rows, existing, u, id, ms).0 == rows
  {
    hide MoveOne, MoveOneEvents;
    if ms != [] {
      var front, last := ms[..|ms| - 1], ms[|ms| - 1];
      var existing := rows[Key(u.table, id)];
      ChainAnnouncesIff(site, rows, u, id, front);
      ChainChangesIff(site, rows, u, id, front);
      ChainChangesIff(site, rows, u, id, ms);
      var (moved, stopped) := MoveAll(site, rows, existing, u, id, front);
      MoveAnnouncesIff(site, moved, existing, u, id, last);
      MoveLeavesItsState(site, moved, existing, u, id, last);
    }
  }

  /** A PUT that fails has announced transitions exactly when it has made some: what the bus was told stands although
      the request did not. */
  lemma FailedUpdateAnnouncesIff(site: Site, rows: Rows, u: Call)
    requires WellConfigured(site) && StatesReachable(site, rows)
    requires u.Update? && u.table in site.cfg.machines && UpdateStep(site, rows, u).1.Failure?
    requires ReachesItsRow(site, rows, u)
    ensures UpdateEvents(site, rows, u) == [] <==> UpdateStep(site, rows, u).0 == rows
  {
    hide MoveAll, MoveAllEvents;
    var id := Resolve(site, rows, u.table, u.target).value;
    var v := Update(u.table, u.target, OwnerStripped(site, u.table, u.body), u.user, u.clocks);
    var ms := site.cfg.machines[u.table];
    TouchedAreInBody(ms, v.body);
    assert GoodTable(site, u.table);
    TouchedAreDistinct(ms, v.body);
    forall m | m in ms ensures m.name in rows[Key(u.table, id)] {
      assert Reachable(m, Get(rows[Key(u.table, id)], m.name));
    }
    ChainAnnouncesIff(site, rows, v, id, Touched(ms, v.body));
    FailedUpdateIsItsMoves(site, rows, u, v, id, ms);
  }

  lemma FailedUpdateIsItsMoves(site: Site, rows: Rows, u: Call, v: Call, id: int, ms: seq<Machine>)
    requires u.Update? && v == Update(u.table, u.target, OwnerStripped(site, u.table, u.body), u.user, u.clocks)
    requires u.table in site.cfg.machines && ms == site.cfg.machines[u.table] && UpdateStep(site, rows, u).1.Failure?
    requires Resolve(site, rows, u.table, u.target) == Some(id)
    requires ReachesItsRow(site, rows, u)
    ensures forall m :: m in Touched(ms, v.body) ==> m.name in v.body
    ensures UpdateStep(site, rows, u).0 == MoveAll(site, rows, rows[Key(u.table, id)], v, id, Touched(ms, v.body)).0
  {
    TouchedAreInBody(ms, v.body);
  }

  /** A site with one content type, "tasks", whose status goes from open to done without a gate. `dependent` is the
      validation of the merged row. */
  const TASK: Machine := Machine("status", "status", "open", map[("open", "done") := ScopeGate("")])

  function TaskSite(dependent: (string, Record) -> Option<Record>): Site {
    Site(Config(map["tasks" := [TASK]], None), map[], map[], map[], true,
         Hooks((t, w) => false, (t, b, w) => true, (t, b, w) => map[], (t, b) => true, dependent,
               (r, t, p) => None, (r, t, b) => None, (r, k, b) => None, (r, k) => None, (r, k) => {}))
  }

  const OPEN_TASK: Rows := map[Key("tasks", 1) := map["status" := Str("open")]]

  function FinishTask(): Call {
    Update("tasks", ById(1), map["status" := Str("done")], User([], Events.Principal("", "", true, false, [])),
           n => Clocks("", "", ""))
  }

  lemma TaskSiteIsConfigured(dependent: (string, Record) -> Option<Record>)
    requires forall t, b :: dependent(t, b).Some? ==> Lookup(dependent(t, b).value, "status") == Lookup(b, "status")
    ensures WellConfigured(TaskSite(dependent)) && StatesReachable(TaskSite(dependent), OPEN_TASK)
  {
    var site := TaskSite(dependent);
    forall table ensures GoodTable(site, table) {
      assert TASK.transitions[("open", "done")].Entered() == [];
    }
    assert IsPath(TASK, ["open"]);
  }

  lemma TaskMayMove(dependent: (string, Record) -> Option<Record>)
    ensures MayMove(TaskSite(dependent), OPEN_TASK[Key("tasks", 1)], FinishTask(), 1, TASK)
    ensures Touched([TASK], FinishTask().body) == [TASK]
    ensures FirstAsk(OPEN_TASK[Key("tasks", 1)], FinishTask().body, [TASK]) == Some(TASK)
  {
    assert [TASK][..0] == [];
    var u, snapshot := FinishTask(), OPEN_TASK[Key("tasks", 1)];
    var req := Request("tasks", 1, "status", "done", u.user, u.clocks("status"));
    assert FindMachine([TASK], "status") == Some(TASK) && TASK.transitions[("open", "done")] == ScopeGate("");
    assert GateHolds(TaskSite(dependent).cfg, req, snapshot, Ready("status", "open", map[]));
  }

  /** One input that leaves a trace: the row is moved, and then the validation of the merged row refuses the body. */
  lemma RefusedBodyLeavesTheMove()
    ensures var site, u := TaskSite((t, b) => None), FinishTask();
            && WellConfigured(site) && StatesReachable(site, OPEN_TASK)
            && UpdateStep(site, OPEN_TASK, u).1.Failure? && UpdateStep(site, OPEN_TASK, u).0 != OPEN_TASK
  {
    var refuse: (string, Record) -> Option<Record> := (t, b) => None;
    var site, u := TaskSite(refuse), FinishTask();
    TaskSiteIsConfigured(refuse);
    TaskMayMove(refuse);
    assert Update(u.table, u.target, OwnerStripped(site, "tasks", u.body), u.user, u.clocks) == u;
    UpdateFails(site, u);
    hide UpdateStep, MayMove, FirstAsk, Touched, WellConfigured, StatesReachable;
    FailedUpdateLeavesNoTraceIff(site, OPEN_TASK, u);
  }

  lemma UpdateFails(site: Site, u: Call)
    requires u.Update? && (forall t, b :: site.hooks.dependent(t, b).None?)
    ensures forall rows :: UpdateStep(site, rows, u).1.Failure?
  {
  }

  // ------------------------------------------------------------ a successful PUT does what it was asked

  lemma {:induction false} ChainReachesTargets(site: Site, rows: Rows, u: Call, id: int, ms: seq<Machine>)
    requires WellConfigured(site) && u.Update? && DistinctMachines(ms) && Key(u.table, id) in rows
    requires forall m :: m in ms ==> && m in MachinesOf(site.cfg, u.table) && m.name in u.body
                                     && m.name in rows[Key(u.table, id)]
    requires MoveAll(site, rows, rows[Key(u.table, id)], u, id, ms).1.None?
    ensures var after := MoveAll(site, rows, rows[Key(u.table, id)], u, id, ms).0;
            Key(u.table, id) in after && forall m :: m in ms ==> Get(after[Key(u.table, id)], m.name) == u.body[m.name]
  {
    hide MoveOne;
    if ms != [] {
      var front, last, key := ms[..|ms| - 1], ms[|ms| - 1], Key(u.table, id);
      ChainReachesTargets(site, rows, u, id, front);
      ChainMovesEachColumnOnce(site, rows, rows[key], u, id, front);
      var moved := MoveAll(site, rows, rows[key], u, id, front).0;
      assert forall m :: m in front ==> m.name != last.name;
      assert forall m :: m in ms <==> m in front || m == last;
      assert Get(moved[key], last.name) == Get(rows[key], last.name);
      MoveLeavesItsState(site, moved, rows[key], u, id, last);
      MoveMovesOneColumn(site, moved, rows[key], u, id, last);
    }
  }

  /** After a successful update every state column and every other field of the body holds the value asked for, and
      the answer is the row as stored. */
  lemma SuccessfulUpdateWritesTheBody(site: Site, rows: Rows, u: Call)
    requires WellConfigured(site) && StatesReachable(site, rows) && NoEmptyRows(site, rows)
    requires u.Update? && UpdateStep(site, rows, u).1.Success?
    ensures var (after, r) := UpdateStep(site, rows, u);
            var id := Resolve(site, rows, u.table, u.target);
            && id.Some? && Key(u.table, id.value) in after
            && var row := after[Key(u.table, id.value)];
            && r.value == row
            && forall f :: f in OwnerStripped(site, u.table, u.body) ==> Get(row, f) == u.body[f]
  {
    var id := Resolve(site, rows, u.table, u.target);
    var existing := RowOf(rows, u.table, id);
    var v := Update(u.table, u.target, OwnerStripped(site, u.table, u.body), u.user, u.clocks);
    var ms := MachinesOf(site.cfg, u.table);
    assert GoodTable(site, u.table);
    if Present(existing) && u.table in site.cfg.machines {
      var key := Key(u.table, id.value);
      TouchedAreInBody(ms, v.body);
      TouchedAreDistinct(ms, v.body);
      var touched := Touched(ms, v.body);
      forall m | m in ms ensures m.name in rows[key] {
        assert Reachable(m, Get(rows[key], m.name));
      }
      ChainReachesTargets(site, rows, v, id.value, touched);
      var moved := MoveAll(site, rows, existing.value, v, id.value, touched).0;
      WrittenBody(site, moved, u.table, id, existing, v.body, touched, ms);
    }
  }

  lemma WrittenBody(site: Site, moved: Rows, table: string, id: Option<int>, existing: Option<Record>, body: Record,
                    touched: seq<Machine>, ms: seq<Machine>)
    requires id.Some? && Key(table, id.value) in moved
    requires forall m :: m in touched <==> m in ms && m.name in body
    requires forall m :: m in touched ==> Get(moved[Key(table, id.value)], m.name) == body[m.name]
    requires Persist(site, moved, table, id, existing, body - MachineNames(ms)).1.Success?
    ensures var (after, r) := Persist(site, moved, table, id, existing, body - MachineNames(ms));
            && Key(table, id.value) in after && r.value == after[Key(table, id.value)]
            && forall f :: f in body ==> Get(r.value, f) == body[f]
  {
    var rest := body - MachineNames(ms);
    var r := Persist(site, moved, table, id, existing, rest).1;
    forall f | f in body ensures Get(r.value, f) == body[f] {
      if f in MachineNames(ms) {
        var m :| m in ms && m.name == f;
        assert m in touched && f !in rest;
      } else {
        assert f in rest;
      }
    }
  }

  // ------------------------------------------------------------ a successful PUT does nothing else

  /** A successful update writes the fields of its body and what the edges assign on entry, and nothing else. */
  lemma SuccessfulUpdateKeepsTheRest(site: Site, rows: Rows, u: Call)
    requires WellConfigured(site) && u.Update? && UpdateStep(site, rows, u).1.Success?
    requires Present(RowOf(rows, u.table, Resolve(site, rows, u.table, u.target)))
    ensures var key := Key(u.table, Resolve(site, rows, u.table, u.target).value);
            KeepsOutside(key, WrittenByUpdate(site, u), rows, UpdateStep(site, rows, u).0)
  {
    var id := Resolve(site, rows, u.table, u.target);
    var existing := RowOf(rows, u.table, id);
    var v := Update(u.table, u.target, OwnerStripped(site, u.table, u.body), u.user, u.clocks);
    var ms := MachinesOf(site.cfg, u.table);
    var touched, key := Touched(ms, v.body), Key(u.table, id.value);
    assert GoodTable(site, u.table);
    UpdateIsMovesOrWrite(site, rows, u, v, id, existing);
    TouchedAreInBody(ms, v.body);
    TouchedAreDistinct(ms, v.body);
    ChainMovesEachColumnOnce(site, rows, existing.value, v, id.value, touched);
    assert WrittenByAll(touched, v.body) <= WrittenByUpdate(site, u);
    var moved := MoveAll(site, rows, existing.value, v, id.value, touched).0;
    WriteKeepsTheRest(site, moved, u.table, id, existing, v.body - MachineNames(ms));
    WriteKeepsTheRest(site, rows, u.table, id, existing, v.body);
  }

  /** The fields an update may write. */
  ghost function WrittenByUpdate(site: Site, u: Call): set<string>
    requires u.Update?
  {
    var body := OwnerStripped(site, u.table, u.body);
    body.Keys + WrittenByAll(MachinesOf(site.cfg, u.table), body)
  }

  lemma WriteKeepsTheRest(site: Site, rows: Rows, table: string, id: Option<int>, existing: Option<Record>,
                          body: Record)
    requires id.Some?
    ensures KeepsOutside(Key(table, id.value), body.Keys, rows, Persist(site, rows, table, id, existing, body).0)
  {
  }
}
