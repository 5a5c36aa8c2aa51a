/** One state transition: read and gate, compare-and-set, publish (termin_core/state/machine.py). */
module StateMachine {
  import opened Basics
  import opened Storage
  import Events

  // ------------------------------------------------------------ configuration

  /** A transition's gate: the legacy scope string, or the dict shape. An empty string is "not set". */
  datatype Gate =
    | ScopeGate(scope: string)
    | FullGate(requiredScope: string, condition: string, entered: seq<(string, string)>)
  {
    function RequiredScope(): string { if ScopeGate? then scope else requiredScope }
    function Condition(): string { if ScopeGate? then "" else condition }
    function Entered(): seq<(string, string)> { if ScopeGate? then [] else entered }
  }

  datatype Machine = Machine(name: string, column: string, initial: string,
                             transitions: map<(string, string), Gate>)

  type Machines = map<string, seq<Machine>>

  /** What a CEL expression sees: the record under the table's singular and under `record`. */
  datatype EvalContext = EvalContext(alias: string, record: Record, theUser: Events.Principal, now: string)

  /** The CEL evaluator is an oracle that may raise (`None`). */
  type Evaluator = (string, EvalContext) -> Option<Value>

  datatype Config = Config(machines: Machines, evaluator: Option<Evaluator>)

  datatype User = User(scopes: seq<string>, principal: Events.Principal)

  datatype Clocks = Clocks(gate: string, entry: string, publish: string)

  datatype Request = Request(table: string, id: int, machine: string, target: string,
                             user: User, clocks: Clocks)

  datatype Error =
    | BadRequest
    | RecordNotFound
    | Conflict(current: Value)
    | ScopeDenied(scope: string)
    | Invalid                      // a validation error; raised by the CRUD handlers only

  type Answer<+T> = Result<T, Error>

  /** A caller that passed its gate: the state it read and the patch it is about to write. */
  datatype Ready = Ready(column: string, from: string, patch: Record)

  function MachinesOf(cfg: Config, table: string): seq<Machine> {
    if table in cfg.machines then cfg.machines[table] else []
  }

  // ------------------------------------------------------------ reading and gating

  function Alias(table: string): string {
    if table != "" && table[|table| - 1] == 's' then table[..|table| - 1] else table
  }

  function ContextOf(req: Request, snapshot: Record, now: string): EvalContext {
    EvalContext(Alias(req.table), snapshot, req.user.principal, now)
  }

  /** `next(s for s in sm_list if s["machine_name"] == name)` */
  function FindMachine(ms: seq<Machine>, name: string): Option<Machine> {
    if ms == [] then None
    else if ms[0].name == name then Some(ms[0])
    else FindMachine(ms[1..], name)
  }

  lemma {:induction false} FindMachineFindsFirst(ms: seq<Machine>, name: string)
    ensures FindMachine(ms, name).None? <==> forall m :: m in ms ==> m.name != name
    ensures FindMachine(ms, name).Some? ==>
              exists i :: && 0 <= i < |ms| && ms[i] == FindMachine(ms, name).value && ms[i].name == name
                          && forall j :: 0 <= j < i ==> ms[j].name != name
  {
    if ms != [] && ms[0].name != name {
      FindMachineFindsFirst(ms[1..], name);
      assert forall m :: m in ms <==> m == ms[0] || m in ms[1..];
      if FindMachine(ms[1..], name).Some? {
        var i :| && 0 <= i < |ms[1..]| && ms[1..][i] == FindMachine(ms[1..], name).value && ms[1..][i].name == name
                 && forall j :: 0 <= j < i ==> ms[1..][j].name != name;
        assert ms[i + 1] == ms[1..][i];
        assert forall j :: 0 < j < i + 1 ==> ms[j] == ms[1..][j - 1];
      }
    }
  }

  /** Evaluates the entered-assignments left to right on top of `patch`; `None` when one raises. */
  function AssignEntered(entered: seq<(string, string)>, eval: Evaluator, ctx: EvalContext, patch: Record)
    : Option<Record>
  {
    if entered == [] then Some(patch)
    else
      match eval(entered[0].1, ctx)
      case None => None
      case Some(v) => AssignEntered(entered[1..], eval, ctx, patch[entered[0].0 := v])
  }

  function CheckGate(cfg: Config, req: Request, gate: Gate, snapshot: Record, column: string): Option<Error> {
    if gate.Condition() != "" then
      if cfg.evaluator.None? then Some(BadRequest)
      else
        match cfg.evaluator.value(gate.Condition(), ContextOf(req, snapshot, req.clocks.gate))
        case None => Some(BadRequest)
        case Some(v) => if Truthy(v) then None else Some(Conflict(CurrentState(snapshot, column)))
    else if gate.RequiredScope() != "" && gate.RequiredScope() !in req.user.scopes then
      Some(ScopeDenied(gate.RequiredScope()))
    else None
  }

  /** `record.get(column, "")` */
  function CurrentState(r: Record, column: string): Value {
    if column in r then r[column] else Str("")
  }

  /** Everything between the read and the compare-and-set, as a function of the snapshot that was read. */
  function ReadAndGate(cfg: Config, req: Request, found: Option<Record>): Answer<Ready> {
    if req.table !in cfg.machines then Failure(BadRequest)
    else
      match FindMachine(cfg.machines[req.table], req.machine)
      case None => Failure(BadRequest)
      case Some(m) =>
        if found.None? || found.value == map[] then Failure(RecordNotFound)
        else
          var snapshot := found.value;
          var current := CurrentState(snapshot, m.column);
          if !current.Str? || (current.s, req.target) !in m.transitions then Failure(Conflict(current))
          else
            var gate := m.transitions[(current.s, req.target)];
            match CheckGate(cfg, req, gate, snapshot, m.column)
            case Some(e) => Failure(e)
            case None =>
              var patch := map[m.column := Str(req.target)];
              if gate.Entered() == [] then Success(Ready(m.column, current.s, patch))
              else if cfg.evaluator.None? then Failure(BadRequest)
              else
                match AssignEntered(gate.Entered(), cfg.evaluator.value,
                                    ContextOf(req, snapshot, req.clocks.entry), patch)
                case None => Failure(BadRequest)
                case Some(p) => Success(Ready(m.column, current.s, p))
  }

  // ------------------------------------------------------------ what the gate means

  /** The fields an entered list assigns. */
  ghost function AssignedFields(entered: seq<(string, string)>): set<string> {
    set i | 0 <= i < |entered| :: entered[i].0
  }

  /** `i` is the assignment that decides `field`. */
  ghost predicate LastAssignment(entered: seq<(string, string)>, field: string, i: int) {
    && 0 <= i < |entered| && entered[i].0 == field
    && forall j :: i < j < |entered| ==> entered[j].0 != field
  }

  /** The assignments succeed exactly when every expression evaluates, touch only the fields they name,
      and the last assignment to a field decides it. */
  lemma {:induction false} AssignEnteredExact(entered: seq<(string, string)>, eval: Evaluator, ctx: EvalContext,
                                              patch: Record)
    ensures var p := AssignEntered(entered, eval, ctx, patch);
            && (p.Some? <==> forall i :: 0 <= i < |entered| ==> eval(entered[i].1, ctx).Some?)
            && (p.Some? ==>
                  && p.value.Keys == patch.Keys + AssignedFields(entered)
                  && (forall f :: f in patch && f !in AssignedFields(entered) ==> p.value[f] == patch[f])
                  && (forall f, i :: LastAssignment(entered, f, i) ==>
                        f in p.value && eval(entered[i].1, ctx) == Some(p.value[f])))
  {
    if entered != [] && eval(entered[0].1, ctx).Some? {
      var rest, next := entered[1..], patch[entered[0].0 := eval(entered[0].1, ctx).value];
      AssignEnteredExact(rest, eval, ctx, next);
      assert forall i :: 0 < i < |entered| ==> entered[i] == rest[i - 1];
      assert AssignedFields(entered) == {entered[0].0} + AssignedFields(rest) by {
        forall i | 0 < i < |entered| ensures entered[i].0 in AssignedFields(rest) {
          assert entered[i].0 == rest[i - 1].0;
        }
        forall i | 0 <= i < |rest| ensures rest[i].0 in AssignedFields(entered) {
          assert rest[i].0 == entered[i + 1].0;
        }
      }
      var p := AssignEntered(entered, eval, ctx, patch);
      if p.Some? {
        forall f, i | LastAssignment(entered, f, i)
          ensures f in p.value && eval(entered[i].1, ctx) == Some(p.value[f])
        {
          if i > 0 {
            assert LastAssignment(rest, f, i - 1);
          } else {
            assert f !in AssignedFields(rest);
          }
        }
      }
    }
  }

  /** The declared edge `r` is about to take, and the gate on it, hold of this snapshot for this request. */
  ghost predicate GateHolds(cfg: Config, req: Request, snapshot: Record, r: Ready) {
    && req.table in cfg.machines
    && FindMachine(cfg.machines[req.table], req.machine).Some?
    && var m := FindMachine(cfg.machines[req.table], req.machine).value;
    && r.column == m.column
    && CurrentState(snapshot, m.column) == Str(r.from)
    && (r.from, req.target) in m.transitions
    && var gate := m.transitions[(r.from, req.target)];
    && (if gate.Condition() != "" then
          && cfg.evaluator.Some?
          && var verdict := cfg.evaluator.value(gate.Condition(), ContextOf(req, snapshot, req.clocks.gate));
             verdict.Some? && Truthy(verdict.value)
        else gate.RequiredScope() == "" || gate.RequiredScope() in req.user.scopes)
    && (gate.Entered() != [] ==>
          && cfg.evaluator.Some?
          && forall i :: 0 <= i < |gate.Entered()| ==>
               cfg.evaluator.value(gate.Entered()[i].1, ContextOf(req, snapshot, req.clocks.entry)).Some?)
  }

  /** A request becomes ready exactly when the record is there and the declared gate holds of it. */
  lemma ReadAndGateExact(cfg: Config, req: Request, found: Option<Record>)
    ensures ReadAndGate(cfg, req, found).Success? <==>
              && found.Some? && found.value != map[]
              && exists r :: GateHolds(cfg, req, found.value, r)
    ensures var r := ReadAndGate(cfg, req, found);
            r.Success? ==> GateHolds(cfg, req, found.value, r.value)
  {
    if req.table in cfg.machines && found.Some? && cfg.evaluator.Some? {
      var m := FindMachine(cfg.machines[req.table], req.machine);
      if m.Some? {
        var current := CurrentState(found.value, m.value.column);
        if current.Str? && (current.s, req.target) in m.value.transitions {
          AssignEnteredExact(m.value.transitions[(current.s, req.target)].Entered(), cfg.evaluator.value,
                             ContextOf(req, found.value, req.clocks.entry), map[m.value.column := Str(req.target)]);
        }
      }
    }
    var r := ReadAndGate(cfg, req, found);
    assert r.Success? ==> GateHolds(cfg, req, found.value, r.value);
    if found.Some? && found.value != map[] {
      if x :| GateHolds(cfg, req, found.value, x) {
        assert r.Success?;
      }
    }
  }

  /** What a ready caller writes: its target state and its entered fields, nothing else. */
  lemma ReadyPatch(cfg: Config, req: Request, found: Option<Record>)
    requires ReadAndGate(cfg, req, found).Success?
    ensures var r := ReadAndGate(cfg, req, found).value;
            var m := FindMachine(cfg.machines[req.table], req.machine).value;
            var entered := m.transitions[(r.from, req.target)].Entered();
            && r.patch.Keys == {r.column} + AssignedFields(entered)
            && (r.column !in AssignedFields(entered) ==> r.patch[r.column] == Str(req.target))
  {
    ReadAndGateExact(cfg, req, found);
    var r := ReadAndGate(cfg, req, found).value;
    var entered := FindMachine(cfg.machines[req.table], req.machine).value.transitions[(r.from, req.target)].Entered();
    if entered != [] {
      AssignEnteredExact(entered, cfg.evaluator.value, ContextOf(req, found.value, req.clocks.entry),
                         map[r.column := Str(req.target)]);
    } else {
      assert AssignedFields(entered) == {};
    }
  }

  /** The write really moves the column to the target, whatever the expressions evaluate to, exactly when
      no entered assignment names the state column itself. */
  lemma TargetWrittenIffNotAssigned(entered: seq<(string, string)>, column: string, target: string)
    ensures (forall eval: Evaluator, ctx: EvalContext ::
               var p := AssignEntered(entered, eval, ctx, map[column := Str(target)]);
               p.Some? ==> column in p.value && p.value[column] == Str(target))
            <==> column !in AssignedFields(entered)
  {
    var start: Record := map[column := Str(target)];
    if column !in AssignedFields(entered) {
      forall eval: Evaluator, ctx: EvalContext
        ensures var p := AssignEntered(entered, eval, ctx, start);
                p.Some? ==> column in p.value && p.value[column] == Str(target)
      {
        AssignEnteredExact(entered, eval, ctx, start);
      }
    } else {
      var adversary: Evaluator := (expr: string, ctx: EvalContext) => Some(Str(target + "!"));
      var ctx := EvalContext("", map[], Events.Principal("", "", true, false, []), "");
      AssignEnteredExact(entered, adversary, ctx, start);
      var i := LastIndexOf(entered, column);
      assert LastAssignment(entered, column, i);
      assert |target + "!"| != |target|;
    }
  }

  lemma {:induction false} LastIndexOf(entered: seq<(string, string)>, field: string) returns (i: int)
    requires field in AssignedFields(entered)
    ensures LastAssignment(entered, field, i)
  {
    var n := |entered| - 1;
    if entered[n].0 == field {
      i := n;
    } else {
      i := LastIndexOf(entered[..n], field);
    }
  }

  // ------------------------------------------------------------ publishing

  /** exited, entered, and the record-shaped legacy event, in the order they are published. */
  function TransitionEvents(req: Request, from: string, updated: Record): seq<Events.Event> {
    var data := Events.TransitionData(req.id, from, req.target, req.user.principal);
    [ Events.Event(req.table + "." + req.machine + "." + from + ".exited", data, None, None),
      Events.Event(req.table + "." + req.machine + "." + req.target + ".entered", data, None, None),
      Events.Event("content." + req.table + ".updated", Events.RecordData(updated), None, None) ]
  }

  function StampAll(es: seq<Events.Event>, now: string): seq<Events.Event> {
    seq(|es|, i requires 0 <= i < |es| => Events.Stamp(es[i], now))
  }

  // ------------------------------------------------------------ the whole call

  datatype Outcome = Outcome(rows: Rows, result: Answer<Record>, events: seq<Events.Event>)

  /** The call seen from outside: `before` is the store when the record is read, `atWrite` the store
      when the compare-and-set runs. Other tasks may do anything in between. */
  function Transition(cfg: Config, req: Request, before: Rows, atWrite: Rows): Outcome {
    var key := Key(req.table, req.id);
    match ReadAndGate(cfg, req, if key in before then Some(before[key]) else None)
    case Failure(e) => Outcome(before, Failure(e), [])
    case Success(r) => CompareAndSet(req, r, atWrite)
  }

  /** The conditional write and how its three results are reported. */
  function CompareAndSet(req: Request, r: Ready, atWrite: Rows): Outcome {
    var (rows, written) := UpdateIf(atWrite, Key(req.table, req.id), Eq(r.column, Str(r.from)), r.patch);
    match written
    case Applied(updated) => Outcome(rows, Success(updated), TransitionEvents(req, r.from, updated))
    case NotFound => Outcome(rows, Failure(RecordNotFound), [])
    case ConditionFailed(now) => Outcome(rows, Failure(Conflict(CurrentState(now, r.column))), [])
  }

  // ------------------------------------------------------------ the gate at the time of the write

  /** The call read state `from` of the record, and its compare-and-set was applied. */
  ghost predicate WonFrom(cfg: Config, req: Request, before: Rows, atWrite: Rows, column: string, from: string) {
    && Key(req.table, req.id) in before
    && CurrentState(before[Key(req.table, req.id)], column) == Str(from)
    && Transition(cfg, req, before, atWrite).result.Success?
  }

  /** If the call wins from `from`, its gate still holds of the record it writes to. */
  ghost predicate GatedAtWrite(cfg: Config, req: Request, before: Rows, atWrite: Rows, column: string, from: string) {
    WonFrom(cfg, req, before, atWrite, column, from) ==>
      && Key(req.table, req.id) in atWrite
      && GateHolds(cfg, req, atWrite[Key(req.table, req.id)], Ready(column, from, map[]))
  }

  /** The compare-and-set re-checks only the state column: whatever others write in between, the gate of an edge still
      holds at the write exactly when it is a matter of scopes alone, with no condition and no entered expression. */
  lemma GateHoldsAtWriteIff(machines: Machines, table: string, m: Machine, from: string, target: string)
    requires table in machines && FindMachine(machines[table], m.name) == Some(m) && (from, target) in m.transitions
    ensures (forall ev: Option<Evaluator>, id: int, user: User, clocks: Clocks, before: Rows, atWrite: Rows ::
               GatedAtWrite(Config(machines, ev), Request(table, id, m.name, target, user, clocks), before, atWrite,
                            m.column, from))
            <==> m.transitions[(from, target)].Condition() == "" && m.transitions[(from, target)].Entered() == []
  {
    var gate := m.transitions[(from, target)];
    if gate.Condition() == "" && gate.Entered() == [] {
      forall ev: Option<Evaluator>, id: int, user: User, clocks: Clocks, before: Rows, atWrite: Rows
        ensures GatedAtWrite(Config(machines, ev), Request(table, id, m.name, target, user, clocks), before, atWrite,
                             m.column, from)
      {
      }
    } else {
      GateOutrun(machines, table, m, from, target);
    }
  }

  /** An input that fails: the expressions evaluate for the record that was read and for no other, and another task
      adds a column before the write. */
  lemma GateOutrun(machines: Machines, table: string, m: Machine, from: string, target: string)
    requires table in machines && FindMachine(machines[table], m.name) == Some(m) && (from, target) in m.transitions
    requires var gate := m.transitions[(from, target)]; gate.Condition() != "" || gate.Entered() != []
    ensures exists ev: Option<Evaluator>, id: int, user: User, clocks: Clocks, before: Rows, atWrite: Rows ::
              !GatedAtWrite(Config(machines, ev), Request(table, id, m.name, target, user, clocks), before, atWrite,
                            m.column, from)
  {
    var gate := m.transitions[(from, target)];
    var snapshot: Record := map[m.column := Str(from)];
    var changed: Record := snapshot[m.column + "x" := Null];
    var eval: Evaluator := (expr: string, ctx: EvalContext) =>
      if ctx.record == snapshot then Some(Bool(true)) else None;
    var user := User([gate.RequiredScope()], Events.Principal("", "", true, false, []));
    var cfg, req := Config(machines, Some(eval)), Request(table, 0, m.name, target, user, Clocks("", "", ""));
    var key := Key(table, 0);
    assert |m.column + "x"| != |m.column|;
    assert m.column + "x" in changed && m.column + "x" !in snapshot;
    assert Get(changed, m.column) == Str(from) == Get(snapshot, m.column);
    ReadyWhenAllHolds(cfg, req, m, from, snapshot, eval);
    assert WonFrom(cfg, req, map[key := snapshot], map[key := changed], m.column, from);
    assert !GateHolds(cfg, req, changed, Ready(m.column, from, map[])) by {
      if gate.Condition() == "" { assert eval(gate.Entered()[0].1, ContextOf(req, changed, "")).None?; }
    }
    assert !GatedAtWrite(cfg, req, map[key := snapshot], map[key := changed], m.column, from);
  }

  lemma ReadyWhenAllHolds(cfg: Config, req: Request, m: Machine, from: string, snapshot: Record, eval: Evaluator)
    requires req.table in cfg.machines && FindMachine(cfg.machines[req.table], req.machine) == Some(m)
    requires (from, req.target) in m.transitions && m.column in snapshot && snapshot[m.column] == Str(from)
    requires m.transitions[(from, req.target)].RequiredScope() in req.user.scopes
    requires cfg.evaluator == Some(eval)
    requires forall expr, now :: eval(expr, ContextOf(req, snapshot, now)) == Some(Bool(true))
    ensures var r := ReadAndGate(cfg, req, Some(snapshot));
            r.Success? && r.value.column == m.column && r.value.from == from
  {
    var gate := m.transitions[(from, req.target)];
    var ctx := ContextOf(req, snapshot, req.clocks.entry);
    AssignEnteredExact(gate.Entered(), eval, ctx, map[m.column := Str(req.target)]);
    assert CheckGate(cfg, req, gate, snapshot, m.column).None?;
  }

  /** The `for ea_field, ea_expr in entered_assignments` loop. */
  method EvaluateEntered(entered: seq<(string, string)>, eval: Evaluator, ctx: EvalContext, start: Record)
    returns (patch: Option<Record>)
    ensures patch == AssignEntered(entered, eval, ctx, start)
  {
    var p := start;
    var i := 0;
    while i < |entered|
      invariant 0 <= i <= |entered|
      invariant AssignEntered(entered[i..], eval, ctx, p) == AssignEntered(entered, eval, ctx, start)
    {
      var v := eval(entered[i].1, ctx);
      if v.None? {
        return None;
      }
      p := p[entered[i].0 := v.value];
      i := i + 1;
    }
    patch := Some(p);
  }

  /** The part of the call up to the compare-and-set. */
  method ReadThenGate(store: Store, cfg: Config, req: Request) returns (r: Answer<Ready>)
    ensures var key := Key(req.table, req.id);
            r == ReadAndGate(cfg, req, if key in store.rows then Some(store.rows[key]) else None)
  {
    if req.table !in cfg.machines {
      return Failure(BadRequest);
    }
    var sm := FindMachine(cfg.machines[req.table], req.machine);
    if sm.None? {
      return Failure(BadRequest);
    }
    var column := sm.value.column;
    var found := store.Read(Key(req.table, req.id));
    if found.None? || found.value == map[] {
      return Failure(RecordNotFound);
    }
    var snapshot := found.value;
    var current := CurrentState(snapshot, column);
    if !current.Str? || (current.s, req.target) !in sm.value.transitions {
      return Failure(Conflict(current));
    }
    var gate := sm.value.transitions[(current.s, req.target)];
    if gate.Condition() != "" {
      if cfg.evaluator.None? {
        return Failure(BadRequest);
      }
      var verdict := cfg.evaluator.value(gate.Condition(), ContextOf(req, snapshot, req.clocks.gate));
      if verdict.None? {
        return Failure(BadRequest);
      }
      if !Truthy(verdict.value) {
        return Failure(Conflict(current));
      }
    } else if gate.RequiredScope() != "" && gate.RequiredScope() !in req.user.scopes {
      return Failure(ScopeDenied(gate.RequiredScope()));
    }
    var patch: Record := map[column := Str(req.target)];
    if gate.Entered() != [] {
      if cfg.evaluator.None? {
        return Failure(BadRequest);
      }
      var evaluated := EvaluateEntered(gate.Entered(), cfg.evaluator.value,
                                      ContextOf(req, snapshot, req.clocks.entry), patch);
      if evaluated.None? {
        return Failure(BadRequest);
      }
      patch := evaluated.value;
    }
    return Success(Ready(column, current.s, patch));
  }

  /** `do_state_transition`. The await between the read and the write is where other tasks run:
      `meanwhile` is whatever they do to the store. */
  method DoStateTransition(store: Store, cfg: Config, req: Request, bus: Events.EventBus?,
                           meanwhile: Rows -> Rows)
    returns (result: Answer<Record>)
    requires bus != null ==> bus.Valid() && store !in bus.Queues() + {bus}
    modifies store, bus, if bus == null then {} else bus.Queues()
    ensures var o := Transition(cfg, req, old(store.rows), meanwhile(old(store.rows)));
            && store.rows == o.rows
            && result == o.result
            && (bus != null ==>
                  && bus.Valid()
                  && bus.published == old(bus.published) + StampAll(o.events, req.clocks.publish)
                  && bus.subscribers == old(bus.subscribers))
  {
    var ready := ReadThenGate(store, cfg, req);
    if ready.Failure? {
      return Failure(ready.error);
    }
    var Ready(column, from, patch) := ready.value;
    store.rows := meanwhile(store.rows);
    var written := store.UpdateIfMatches(Key(req.table, req.id), Eq(column, Str(from)), patch);
    if written.NotFound? {
      return Failure(RecordNotFound);
    }
    if written.ConditionFailed? {
      return Failure(Conflict(CurrentState(written.record, column)));
    }
    if bus != null {
      PublishAll(bus, TransitionEvents(req, from, written.record), req.clocks.publish);
    }
    return Success(written.record);
  }

  /** The three publishes, one after the other. */
  method PublishAll(bus: Events.EventBus, es: seq<Events.Event>, now: string)
    requires bus.Valid() && |es| == 3
    modifies bus`log, bus`published, bus.Queues()
    ensures bus.Valid()
    ensures bus.published == old(bus.published) + StampAll(es, now)
  {
    bus.Publish(es[0], now);
    bus.Publish(es[1], now);
    bus.Publish(es[2], now);
  }
}
