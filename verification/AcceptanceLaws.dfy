/** Which rows the enum and bound validators would accept after a create or an update: the create handler runs them
    before dependent values are filled in, the update handler never does (termin_core/routing/crud.py). */
module AcceptanceLaws {
  import opened Basics
  import opened Storage
  import opened StateMachine
  import opened Crud
  import opened CrudLaws
  import opened UpdateLaws
  import Classifier
  import Widening

  /** Does every declared field accept what the row holds? The enum and bound validators, run over a row. */
  ghost predicate Accepted(specs: seq<Classifier.FieldSpec>, row: Record, toFloat: Value -> Option<real>) {
    forall s :: s in specs ==> Widening.Accepts(s, Get(row, s.name), toFloat)
  }

  /** What the edge the body asks `m` to take assigns on entry. */
  function EnteredBy(existing: Record, body: Record, m: Machine): seq<(string, string)>
    requires m.name in body
  {
    var from, to := Get(existing, m.name), body[m.name];
    if from != to && from.Str? && to.Str? && (from.s, to.s) in m.transitions
    then m.transitions[(from.s, to.s)].Entered()
    else []
  }

  /** Of all expressions the asked edges of `ms` assign to `f`, the `i`-th one of the `j`-th machine comes last. */
  ghost predicate EntersLast(existing: Record, body: Record, ms: seq<Machine>, j: int, i: int, f: string)
    requires forall m :: m in ms ==> m.name in body
  {
    && 0 <= j < |ms| && LastAssignment(EnteredBy(existing, body, ms[j]), f, i)
    && forall k :: j < k < |ms| ==> f !in AssignedFields(EnteredBy(existing, body, ms[k]))
  }

  /** That expression, evaluated on the row as the machines before the `j`-th leave it. */
  ghost function EnteredValue(site: Site, rows: Rows, u: Call, id: int, ms: seq<Machine>, j: int, i: int): Option<Value>
    requires u.Update? && Key(u.table, id) in rows && forall m :: m in ms ==> m.name in u.body
    requires 0 <= j < |ms| && 0 <= i < |EnteredBy(rows[Key(u.table, id)], u.body, ms[j])|
  {
    var key, existing := Key(u.table, id), rows[Key(u.table, id)];
    var before := MoveAll(site, rows, existing, u, id, ms[..j]).0;
    if site.cfg.evaluator.None? || key !in before then None
    else EnteredOn(site.cfg.evaluator.value, u, EnteredBy(existing, u.body, ms[j])[i].1, ms[j].name, before[key])
  }

  function EnteredOn(eval: Evaluator, u: Call, expr: string, machine: string, row: Record): Option<Value>
    requires u.Update?
  {
    eval(expr, EvalContext(Alias(u.table), row, u.user.principal, u.clocks(machine).entry))
  }

  /** One move writes its machine's column and, of the fields it enters, what the last expression for each yields on
      the row before. */
  lemma MoveEnters(site: Site, rows: Rows, existing: Record, u: Call, id: int, m: Machine)
    requires WellConfigured(site) && u.Update? && m in MachinesOf(site.cfg, u.table) && m.name in u.body
    requires Key(u.table, id) in rows && m.name in existing
    requires Get(rows[Key(u.table, id)], m.name) == Get(existing, m.name)
    requires MoveOne(site, rows, existing, u, id, m).1.None?
    ensures var key, after := Key(u.table, id), MoveOne(site, rows, existing, u, id, m).0;
            var entered := EnteredBy(existing, u.body, m);
            && key in after
            && (forall f, i :: LastAssignment(entered, f, i) ==>
                  && site.cfg.evaluator.Some? && Lookup(after[key], f).Some?
                  && Lookup(after[key], f) == EnteredOn(site.cfg.evaluator.value, u, entered[i].1, m.name, rows[key]))
            && (forall f :: f != m.name && f !in AssignedFields(entered) ==>
                  Lookup(after[key], f) == Lookup(rows[key], f))
  {
    var target := u.body[m.name];
    if Asks(existing, u.body, m) && target.Str? {
      var req := Request(u.table, id, m.name, target.s, u.user, u.clocks(m.name));
      assert GoodTable(site, u.table);
      FoundByName(MachinesOf(site.cfg, u.table), m);
      TransitionAlone(site.cfg, req, rows);
      TransitionEnters(site.cfg, req, rows[Key(u.table, id)], m);
    }
  }

  lemma TransitionEnters(cfg: Config, req: Request, row: Record, m: Machine)
    requires req.table in cfg.machines && FindMachine(cfg.machines[req.table], req.machine) == Some(m)
    requires m.column == m.name && ReadAndGate(cfg, req, Some(row)).Success?
    requires forall e :: e in m.transitions ==> m.name !in AssignedFields(m.transitions[e].Entered())
    ensures var r := ReadAndGate(cfg, req, Some(row)).value;
            var entered := m.transitions[(r.from, req.target)].Entered();
            && CurrentState(row, m.name) == Str(r.from) && (r.from, req.target) in m.transitions
            && (forall f, i :: LastAssignment(entered, f, i) ==>
                  && cfg.evaluator.Some? && f in r.patch
                  && cfg.evaluator.value(entered[i].1, ContextOf(req, row, req.clocks.entry)) == Some(r.patch[f]))
            && r.patch.Keys == {m.name} + AssignedFields(entered)
  {
    ReadAndGateExact(cfg, req, Some(row));
    ReadyPatch(cfg, req, Some(row));
    var r := ReadAndGate(cfg, req, Some(row)).value;
    var entered := m.transitions[(r.from, req.target)].Entered();
    if entered != [] {
      AssignEnteredExact(entered, cfg.evaluator.value, ContextOf(req, row, req.clocks.entry),
                         map[m.name := Str(req.target)]);
    }
  }

  /** After a chain that succeeds a field holds what the last entered expression for it yielded, or, when none names it
      and it is no column of a touched machine, what it held before. */
  lemma {:induction false} ChainEnters(site: Site, rows: Rows, u: Call, id: int, ms: seq<Machine>)
    requires WellConfigured(site) && u.Update? && DistinctMachines(ms) && Key(u.table, id) in rows
    requires forall m :: m in ms ==> && m in MachinesOf(site.cfg, u.table) && m.name in u.body
                                     && m.name in rows[Key(u.table, id)]
    requires MoveAll(site, rows, rows[Key(u.table, id)], u, id, ms).1.None?
    ensures var key, existing := Key(u.table, id), rows[Key(u.table, id)];
            var after := MoveAll(site, rows, existing, u, id, ms).0;
            && key in after
            && (forall f, j, i :: EntersLast(existing, u.body, ms, j, i, f) ==>
                  Lookup(after[key], f).Some? && Lookup(after[key], f) == EnteredValue(site, rows, u, id, ms, j, i))
            && (forall f :: f !in MachineNames(ms) && NotEntered(existing, u.body, ms, f) ==>
                  Lookup(after[key], f) == Lookup(existing, f))
  {
    hide MoveOne, EnteredBy, EnteredOn, WellConfigured, AssignedFields;
    if ms != [] {
      var front, last, key := ms[..|ms| - 1], ms[|ms| - 1], Key(u.table, id);
      var existing := rows[key];
      ChainEnters(site, rows, u, id, front);
      ChainMovesEachColumnOnce(site, rows, existing, u, id, front);
      var moved := MoveAll(site, rows, existing, u, id, front).0;
      assert forall m :: m in front ==> m.name != last.name;
      MoveEnters(site, moved, existing, u, id, last);
      var after := MoveAll(site, rows, existing, u, id, ms).0;
      assert after == MoveOne(site, moved, existing, u, id, last).0 && ms[..|front|] == front;
      forall f, j, i | EntersLast(existing, u.body, ms, j, i, f)
        ensures Lookup(after[key], f).Some? && Lookup(after[key], f) == EnteredValue(site, rows, u, id, ms, j, i)
      {
        if j < |front| {
          EarlierEntry(site, rows, u, id, ms, j, i, f);
        }
      }
      forall f | f !in MachineNames(ms) && NotEntered(existing, u.body, ms, f)
        ensures Lookup(after[key], f) == Lookup(existing, f)
      {
        assert last in ms && f !in MachineNames(front) && NotEntered(existing, u.body, front, f);
      }
    }
  }

  lemma EarlierEntry(site: Site, rows: Rows, u: Call, id: int, ms: seq<Machine>, j: int, i: int, f: string)
    requires WellConfigured(site) && u.Update? && Key(u.table, id) in rows
    requires forall m :: m in ms ==> m in MachinesOf(site.cfg, u.table) && m.name in u.body
    requires 0 <= j < |ms| - 1 && EntersLast(rows[Key(u.table, id)], u.body, ms, j, i, f)
    ensures var existing, front, last := rows[Key(u.table, id)], ms[..|ms| - 1], ms[|ms| - 1];
            && EntersLast(existing, u.body, front, j, i, f)
            && EnteredValue(site, rows, u, id, front, j, i) == EnteredValue(site, rows, u, id, ms, j, i)
            && f !in AssignedFields(EnteredBy(existing, u.body, last)) && f != last.name
  {
    var existing, front, last := rows[Key(u.table, id)], ms[..|ms| - 1], ms[|ms| - 1];
    assert front[..j] == ms[..j] && front[j] == ms[j];
    assert f in AssignedFields(EnteredBy(existing, u.body, ms[j]));
    assert GoodTable(site, u.table) && last.name in MachineNames(MachinesOf(site.cfg, u.table));
  }

  ghost predicate NotEntered(existing: Record, body: Record, ms: seq<Machine>, f: string)
    requires forall m :: m in ms ==> m.name in body
  {
    forall m :: m in ms ==> f !in AssignedFields(EnteredBy(existing, body, m))
  }

  lemma {:induction false} LastEntry(existing: Record, body: Record, ms: seq<Machine>, f: string)
    returns (j: int, i: int)
    requires (forall m :: m in ms ==> m.name in body) && !NotEntered(existing, body, ms, f)
    ensures EntersLast(existing, body, ms, j, i, f)
  {
    hide EnteredBy;
    var front, last := ms[..|ms| - 1], ms[|ms| - 1];
    if f in AssignedFields(EnteredBy(existing, body, last)) {
      i := LastIndexOf(EnteredBy(existing, body, last), f);
      j := |front|;
    } else {
      assert forall m :: m in ms <==> m in front || m == last;
      j, i := LastEntry(existing, body, front, f);
      assert forall k :: 0 <= k < |front| ==> front[k] == ms[k];
    }
  }

  // ------------------------------------------------------------ an update

  /** The validators, run over what the body writes. */
  ghost predicate BodyAccepted(specs: seq<Classifier.FieldSpec>, body: Record, toFloat: Value -> Option<real>) {
    forall s :: s in specs && s.name in body ==> Widening.Accepts(s, body[s.name], toFloat)
  }

  /** And over what the last entered expression for each other field yields. */
  ghost predicate EntriesAccepted(site: Site, rows: Rows, u: Call, id: int, ms: seq<Machine>,
                                  specs: seq<Classifier.FieldSpec>, toFloat: Value -> Option<real>)
    requires u.Update? && Key(u.table, id) in rows && forall m :: m in ms ==> m.name in u.body
  {
    forall s, j, i :: s in specs && s.name !in u.body
                      && EntersLast(rows[Key(u.table, id)], u.body, ms, j, i, s.name) ==>
      var v := EnteredValue(site, rows, u, id, ms, j, i);
      v.Some? && Widening.Accepts(s, v.value, toFloat)
  }

  /** What a successful update leaves in the row: the body, and elsewhere what the chain of moves left. */
  lemma UpdatedRow(site: Site, rows: Rows, u: Call)
    requires WellConfigured(site) && StatesReachable(site, rows) && NoEmptyRows(site, rows)
    requires u.Update? && UpdateStep(site, rows, u).1.Success?
    requires Present(RowOf(rows, u.table, Resolve(site, rows, u.table, u.target)))
    ensures var id, v := Resolve(site, rows, u.table, u.target).value, Stripped(site, u);
            var key, existing := Key(u.table, id), rows[Key(u.table, id)];
            var touched := Touched(MachinesOf(site.cfg, u.table), v.body);
            var r := UpdateStep(site, rows, u).1;
            && (forall m :: m in touched ==> m.name in v.body) && r.Success?
            && (forall f :: f in v.body ==> Get(r.value, f) == v.body[f])
            && (forall f, j, i :: f !in v.body && EntersLast(existing, v.body, touched, j, i, f) ==>
                  Lookup(r.value, f).Some? && Lookup(r.value, f) == EnteredValue(site, rows, v, id, touched, j, i))
            && (forall f :: f !in v.body && NotEntered(existing, v.body, touched, f) ==>
                  Lookup(r.value, f) == Lookup(existing, f))
  {
    var id, v := Resolve(site, rows, u.table, u.target), Stripped(site, u);
    var ms := MachinesOf(site.cfg, u.table);
    var key, touched := Key(u.table, id.value), Touched(ms, v.body);
    var existing := rows[key];
    assert GoodTable(site, u.table);
    TouchedAreInBody(ms, v.body);
    TouchedAreDistinct(ms, v.body);
    SuccessfulUpdateWritesTheBody(site, rows, u);
    forall m | m in ms ensures m.name in existing {
      assert Reachable(m, Get(existing, m.name));
    }
    UpdateMovesThenWrites(site, rows, u, v, id.value);
    ChainEnters(site, rows, v, id.value, touched);
    assert forall m :: m in touched ==> m.name in v.body;
  }

  lemma UpdateMovesThenWrites(site: Site, rows: Rows, u: Call, v: Call, id: int)
    requires u.Update? && v == Stripped(site, u) && UpdateStep(site, rows, u).1.Success?
    requires Resolve(site, rows, u.table, u.target) == Some(id) && Present(RowOf(rows, u.table, Some(id)))
    ensures var touched, existing := Touched(MachinesOf(site.cfg, u.table), v.body), rows[Key(u.table, id)];
            && (forall m :: m in touched ==> m.name in v.body)
            && var (moved, failed) := MoveAll(site, rows, existing, v, id, touched);
            && failed.None?
            && (Key(u.table, id) in moved ==>
                  forall f :: f !in v.body ==>
                    Lookup(UpdateStep(site, rows, u).1.value, f) == Lookup(moved[Key(u.table, id)], f))
  {
    TouchedAreInBody(MachinesOf(site.cfg, u.table), v.body);
  }

  function Stripped(site: Site, u: Call): Call
    requires u.Update?
  {
    Update(u.table, u.target, OwnerStripped(site, u.table, u.body), u.user, u.clocks)
  }

  /** A row the validators accepted stays accepted by an update exactly when they accept every field of the body and, of
      the other fields, what the last expression entered on the way yields on the row as it then is. */
  lemma UpdateKeepsRowAcceptedIff(site: Site, rows: Rows, u: Call, specs: seq<Classifier.FieldSpec>,
                                  toFloat: Value -> Option<real>)
    requires WellConfigured(site) && StatesReachable(site, rows) && NoEmptyRows(site, rows)
    requires u.Update? && UpdateStep(site, rows, u).1.Success?
    requires var row := RowOf(rows, u.table, Resolve(site, rows, u.table, u.target));
             Present(row) && Accepted(specs, row.value, toFloat)
    ensures var id, v := Resolve(site, rows, u.table, u.target).value, Stripped(site, u);
            var touched := Touched(MachinesOf(site.cfg, u.table), v.body);
            var r := UpdateStep(site, rows, u).1;
            && (forall m :: m in touched ==> m.name in v.body) && r.Success?
            && (Accepted(specs, r.value, toFloat) <==>
                  && BodyAccepted(specs, v.body, toFloat)
                  && EntriesAccepted(site, rows, v, id, touched, specs, toFloat))
  {
    hide UpdateStep, EnteredValue, Widening.Accepts, WellConfigured, StatesReachable, NoEmptyRows;
    UpdatedRow(site, rows, u);
    var id, v := Resolve(site, rows, u.table, u.target).value, Stripped(site, u);
    var touched := Touched(MachinesOf(site.cfg, u.table), v.body);
    var r := UpdateStep(site, rows, u).1.value;
    var existing := rows[Key(u.table, id)];
    forall s | s in specs && s.name !in v.body && !NotEntered(existing, v.body, touched, s.name)
      ensures exists j, i :: EntersLast(existing, v.body, touched, j, i, s.name)
    {
      var j, i := LastEntry(existing, v.body, touched, s.name);
    }
    forall s | s in specs && s.name !in v.body && NotEntered(existing, v.body, touched, s.name)
      ensures Get(r, s.name) == Get(existing, s.name)
    {
      assert Lookup(r, s.name) == Lookup(existing, s.name);
    }
  }

  // ------------------------------------------------------------ a create

  /** A value the dependent-value rules have put in, or put in the place of another. */
  predicate FilledIn(prepared: Record, checked: Record, f: string) {
    f in checked && Lookup(prepared, f) != Some(checked[f])
  }

  /** The create handler runs the validators first and fills dependent values in afterwards: a row it creates is
      accepted exactly when the initial states are and every known field that was filled in is. */
  lemma CreatedRowAcceptedIff(site: Site, rows: Rows, table: string, id: int, body: Record, user: User,
                              specs: seq<Classifier.FieldSpec>, toFloat: Value -> Option<real>)
    requires WellConfigured(site) && (forall b :: site.hooks.valid(table, b) ==> Accepted(specs, b, toFloat))
    requires CreateStep(site, rows, table, id, body, user).1.Success?
    ensures var prepared := Prepared(site, table, body, user);
            var checked := site.hooks.dependent(table, prepared);
            var r := CreateStep(site, rows, table, id, body, user).1;
            && checked.Some? && r.Success?
            && (Accepted(specs, r.value, toFloat) <==>
                  && (forall s, m :: s in specs && m in MachinesOf(site.cfg, table) && m.name == s.name ==>
                        Widening.Accepts(s, Str(m.initial), toFloat))
                  && (forall s :: s in specs && s.name in KnownFields(site, table)
                                  && FilledIn(prepared, checked.value, s.name) ==>
                        Widening.Accepts(s, checked.value[s.name], toFloat)))
  {
    hide Prepared, InitialStates, Widening.Accepts, WellConfigured, KnownFields;
    CreatedRow(site, rows, table, id, body, user);
    assert forall s, m :: s in specs && m in MachinesOf(site.cfg, table) && m.name == s.name ==>
             m.name in MachineNames(MachinesOf(site.cfg, table));
    NullIsAccepted();
  }

  lemma NullIsAccepted()
    ensures forall s, toFloat :: Widening.Accepts(s, Null, toFloat)
  {
  }

  /** What a created row holds: initial states, and of the other fields the known ones as the dependent values left
      them. */
  lemma CreatedRow(site: Site, rows: Rows, table: string, id: int, body: Record, user: User)
    requires WellConfigured(site) && CreateStep(site, rows, table, id, body, user).1.Success?
    ensures var prepared, ms := Prepared(site, table, body, user), MachinesOf(site.cfg, table);
            var checked := site.hooks.dependent(table, prepared);
            var r := CreateStep(site, rows, table, id, body, user).1;
            && site.hooks.valid(table, prepared) && checked.Some? && r.Success?
            && (forall m :: m in ms ==> Get(r.value, m.name) == Str(m.initial) && m.name !in checked.value)
            && (forall f :: f !in MachineNames(ms) ==>
                  Get(r.value, f) == if f in KnownFields(site, table) then Get(checked.value, f) else Null)
  {
    var prepared, ms := Prepared(site, table, body, user), MachinesOf(site.cfg, table);
    assert GoodTable(site, table);
    InitialStatesAre(ms);
    PreparedProtects(site, table, body, user);
    assert DependentSpares(site, table, prepared);
    assert forall m :: m in ms ==> m.name in MachineNames(ms) && m.name in Protected(site, table);
  }

  /** One such row: a number below the declared minimum is stored by an update. */
  lemma UpdateStoresARefusedNumber()
    ensures var site, spec := TaskSite((t, b) => Some(b)), Classifier.FieldSpec(
              "n", Classifier.Number, false, false, Some(5.0), None, [], None, None, None);
            var toFloat: Value -> Option<real> := (v: Value) => if v.Int? then Some(v.i as real) else None;
            var u := Update("tasks", ById(1), map["n" := Int(1)], FinishTask().user, n => Clocks("", "", ""));
            var (after, r) := UpdateStep(site, OPEN_TASK, u);
            && WellConfigured(site) && StatesReachable(site, OPEN_TASK)
            && Accepted([spec], OPEN_TASK[Key("tasks", 1)], toFloat)
            && r.Success? && !Accepted([spec], r.value, toFloat)
  {
    var pass: (string, Record) -> Option<Record> := (t, b) => Some(b);
    TaskSiteIsConfigured(pass);
    var u := Update("tasks", ById(1), map["n" := Int(1)], FinishTask().user, n => Clocks("", "", ""));
    var spec := Classifier.FieldSpec("n", Classifier.Number, false, false, Some(5.0), None, [], None, None, None);
    var toFloat: Value -> Option<real> := (v: Value) => if v.Int? then Some(v.i as real) else None;
    assert "n" in u.body && "status" !in u.body;
    PlainUpdate(pass, u);
    assert !Widening.Accepts(spec, Int(1), toFloat);
    assert spec in [spec];
  }

  /** An update of that row which names no machine column writes its body. */
  lemma PlainUpdate(dependent: (string, Record) -> Option<Record>, u: Call)
    requires forall t, b :: dependent(t, b) == Some(b)
    requires u.Update? && u.table == "tasks" && u.target == ById(1) && "status" !in u.body && u.body != map[]
    ensures UpdateStep(TaskSite(dependent), OPEN_TASK, u).1 == Success(OPEN_TASK[Key("tasks", 1)] + u.body)
  {
    var site := TaskSite(dependent);
    assert Touched([TASK], u.body) == [] by { assert [TASK][..0] == []; }
    assert OwnerStripped(site, "tasks", u.body) == u.body;
    assert u.body - MachineNames([TASK]) == u.body;
  }

  /** One such row: the dependent-value rules fill in a number below the declared minimum. */
  lemma CreateStoresARefusedNumber()
    ensures var spec := Classifier.FieldSpec(
              "n", Classifier.Number, false, false, Some(5.0), None, [], None, None, None);
            var toFloat: Value -> Option<real> := (v: Value) => if v.Int? then Some(v.i as real) else None;
            var site := FillingSite(spec, toFloat);
            var r := CreateStep(site, map[], "tasks", 1, map[], FinishTask().user).1;
            && WellConfigured(site) && (forall b :: site.hooks.valid("tasks", b) ==> Accepted([spec], b, toFloat))
            && r.Success? && !Accepted([spec], r.value, toFloat)
  {
    var spec := Classifier.FieldSpec("n", Classifier.Number, false, false, Some(5.0), None, [], None, None, None);
    var toFloat: Value -> Option<real> := (v: Value) => if v.Int? then Some(v.i as real) else None;
    var site, user := FillingSite(spec, toFloat), FinishTask().user;
    FillingSiteIsConfigured(spec, toFloat);
    assert Prepared(site, "tasks", map[], user) == map[];
    assert spec in [spec] && !Widening.Accepts(spec, Int(1), toFloat);
    CreatedRowAcceptedIff(site, map[], "tasks", 1, map[], user, [spec], toFloat);
  }

  /** The tasks again, with a field "n" that is checked by the validators and set to one by the dependent values. */
  ghost function FillingSite(spec: Classifier.FieldSpec, toFloat: Value -> Option<real>): Site {
    var site := TaskSite((t, b) => Some(b["n" := Int(1)]));
    site.(known := map["tasks" := {"n"}],
          hooks := site.hooks.(valid := (t, b) => Accepted([spec], b, toFloat)))
  }

  lemma FillingSiteIsConfigured(spec: Classifier.FieldSpec, toFloat: Value -> Option<real>)
    ensures WellConfigured(FillingSite(spec, toFloat))
  {
    var fill: (string, Record) -> Option<Record> := (t, b) => Some(b["n" := Int(1)]);
    TaskSiteIsConfigured(fill);
    var site, plain := FillingSite(spec, toFloat), TaskSite(fill);
    forall table ensures GoodTable(site, table) {
      assert GoodTable(plain, table);
    }
    forall table, body ensures DependentSpares(site, table, body) {
      assert Protected(site, table) <= {"status"};
    }
  }
}
