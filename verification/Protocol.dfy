/** Any number of transition calls interleaving with each other, with deletes, creates and ordinary
    writes: `do_state_transition` (termin_core/state/machine.py) cut at its awaits. */
module Protocol {
  import opened Basics
  import opened Storage
  import opened StateMachine
  import Events

  // ------------------------------------------------------------ the system

  /** Where a call stands. `Applied` keeps the snapshot its gate saw, the life its write landed on, and
      how many of its three events it has published. */
  datatype Stage =
    | Waiting
    | Gated(snapshot: Record, ready: Ready)
    | Applied(snapshot: Record, ready: Ready, life: nat, updated: Record, published: nat)
    | Refused(error: Error)

  datatype Caller = Caller(req: Request, stage: Stage)

  /** One record from its create to its delete; a key reused after a delete starts another life. */
  datatype Life = Life(table: string, record: Record)

  datatype Move = Move(caller: nat, life: nat, column: string, from: string, to: string)

  datatype Posted = Posted(caller: nat, event: Events.Event)

  /** `lives[rows[key]]` is the record now stored at `key`; `moves` and `bus` are histories. */
  datatype System = System(rows: map<Key, nat>, lives: seq<Life>, callers: seq<Caller>,
                           moves: seq<Move>, bus: seq<Posted>)

  datatype Action =
    | Arrive(req: Request)
    | Read(caller: nat)                     // read and gate, one await
    | Write(caller: nat)                    // the compare-and-set
    | Publish(caller: nat)                  // the next of its three events
    | Create(key: Key, record: Record)
    | Update(key: Key, patch: Record)       // an ordinary write
    | Delete(key: Key)

  ghost function ColumnsOf(cfg: Config, table: string): set<string> {
    set m | m in MachinesOf(cfg, table) :: m.column
  }

  /** What the code relies on: one column per machine, and `entered:` never assigns a state column. */
  ghost predicate WellFormed(cfg: Config) {
    forall t :: t in cfg.machines ==>
      && (forall i, j :: 0 <= i < j < |cfg.machines[t]| ==> cfg.machines[t][i].column != cfg.machines[t][j].column)
      && (forall m, e :: m in cfg.machines[t] && e in m.transitions ==>
            AssignedFields(m.transitions[e].Entered()) !! ColumnsOf(cfg, t))
  }

  // ------------------------------------------------------------ steps

  function Stored(s: System): Rows
    requires RowsInRange(s)
  {
    map k | k in s.rows :: s.lives[s.rows[k]].record
  }

  predicate RowsInRange(s: System) {
    forall k :: k in s.rows ==> s.rows[k] < |s.lives| && s.lives[s.rows[k]].table == k.table
  }

  function SetStage(s: System, c: nat, stage: Stage): System
    requires c < |s.callers|
  {
    s.(callers := s.callers[c := s.callers[c].(stage := stage)])
  }

  function SetRecord(s: System, life: nat, r: Record): System
    requires life < |s.lives|
  {
    s.(lives := s.lives[life := s.lives[life].(record := r)])
  }

  function KeyOf(req: Request): Key {
    Key(req.table, req.id)
  }

  ghost predicate Enabled(cfg: Config, s: System, a: Action) {
    match a
    case Arrive(_) => true
    case Read(c) => c < |s.callers| && s.callers[c].stage.Waiting?
    case Write(c) => c < |s.callers| && s.callers[c].stage.Gated?
    case Publish(c) => c < |s.callers| && s.callers[c].stage.Applied? && s.callers[c].stage.published < 3
    case Create(key, r) =>
      // the SQL DEFAULT puts every machine in its initial state
      key !in s.rows && forall m :: m in MachinesOf(cfg, key.table) ==> Get(r, m.column) == Str(m.initial)
    case Update(key, patch) => key in s.rows && patch.Keys !! ColumnsOf(cfg, key.table)
    case Delete(key) => true
  }

  ghost function Step(cfg: Config, s: System, a: Action): System
    requires RowsInRange(s) && Enabled(cfg, s, a)
  {
    match a
    case Arrive(req) => s.(callers := s.callers + [Caller(req, Waiting)])
    case Read(c) =>
      var req := s.callers[c].req;
      var found := Lookup(Stored(s), KeyOf(req));
      (match ReadAndGate(cfg, req, found)
       case Failure(e) => SetStage(s, c, Refused(e))
       case Success(r) => SetStage(s, c, Gated(found.value, r)))
    case Write(c) =>
      var Caller(req, Gated(snapshot, r)) := s.callers[c];
      var (_, written) := UpdateIf(Stored(s), KeyOf(req), Eq(r.column, Str(r.from)), r.patch);
      (match written
       case NotFound => SetStage(s, c, Refused(RecordNotFound))
       case ConditionFailed(now) => SetStage(s, c, Refused(Conflict(CurrentState(now, r.column))))
       case Applied(updated) =>
         var life := s.rows[KeyOf(req)];
         SetRecord(SetStage(s, c, Stage.Applied(snapshot, r, life, updated, 0)), life, updated)
         .(moves := s.moves + [Move(c, life, r.column, r.from, req.target)]))
    case Publish(c) =>
      var Caller(req, Applied(snapshot, r, life, updated, n)) := s.callers[c];
      SetStage(s, c, Stage.Applied(snapshot, r, life, updated, n + 1))
      .(bus := s.bus + [Posted(c, TransitionEvents(req, r.from, updated)[n])])
    case Create(key, r) =>
      s.(rows := s.rows[key := |s.lives|], lives := s.lives + [Life(key.table, r)])
    case Update(key, patch) =>
      SetRecord(s, s.rows[key], s.lives[s.rows[key]].record + patch)
    case Delete(key) => s.(rows := s.rows - {key})
  }

  const EMPTY := System(map[], [], [], [], [])

  /** `run` is a history of the system from the empty store, one enabled action at a time. */
  ghost predicate IsRun(cfg: Config, run: seq<System>) {
    && run != [] && run[0] == EMPTY
    && forall i :: 0 < i < |run| ==> IsStep(cfg, run[i - 1], run[i])
  }

  ghost predicate IsStep(cfg: Config, s: System, s': System) {
    RowsInRange(s) && exists a :: Enabled(cfg, s, a) && s' == Step(cfg, s, a)
  }

  // ------------------------------------------------------------ histories

  function MovesOf(moves: seq<Move>, life: nat, column: string): seq<Move> {
    if moves == [] then []
    else
      var last := moves[|moves| - 1];
      MovesOf(moves[..|moves| - 1], life, column)
      + if last.life == life && last.column == column then [last] else []
  }

  function MovesBy(moves: seq<Move>, caller: nat): seq<Move> {
    if moves == [] then []
    else
      var last := moves[|moves| - 1];
      MovesBy(moves[..|moves| - 1], caller) + if last.caller == caller then [last] else []
  }

  function PostedBy(bus: seq<Posted>, caller: nat): seq<Events.Event> {
    if bus == [] then []
    else
      var last := bus[|bus| - 1];
      PostedBy(bus[..|bus| - 1], caller) + if last.caller == caller then [last.event] else []
  }

  /** Each move starts where the one before it ended, from `initial` to `now`. */
  predicate IsPath(moves: seq<Move>, initial: string, now: string) {
    if moves == [] then now == initial
    else
      var last := moves[|moves| - 1];
      last.to == now && IsPath(moves[..|moves| - 1], initial, last.from)
  }

  function Into(moves: seq<Move>, state: string): nat {
    if moves == [] then 0
    else Into(moves[..|moves| - 1], state) + if moves[|moves| - 1].to == state then 1 else 0
  }

  function OutOf(moves: seq<Move>, state: string): nat {
    if moves == [] then 0
    else OutOf(moves[..|moves| - 1], state) + if moves[|moves| - 1].from == state then 1 else 0
  }

  function OneIf(b: bool): nat {
    if b then 1 else 0
  }

  // ------------------------------------------------------------ the invariant

  /** Its published events are the first few of its three, and it moved a record once, or never. */
  ghost predicate CallerOk(cfg: Config, caller: Caller, c: nat, moves: seq<Move>, bus: seq<Posted>) {
    var Caller(req, stage) := caller;
    match stage
    case Waiting => MovesBy(moves, c) == [] && PostedBy(bus, c) == []
    case Refused(_) => MovesBy(moves, c) == [] && PostedBy(bus, c) == []
    case Gated(snapshot, r) =>
      && MovesBy(moves, c) == [] && PostedBy(bus, c) == []
      && ReadAndGate(cfg, req, Some(snapshot)) == Success(r)
    case Applied(snapshot, r, life, updated, n) =>
      && n <= 3
      && MovesBy(moves, c) == [Move(c, life, r.column, r.from, req.target)]
      && PostedBy(bus, c) == TransitionEvents(req, r.from, updated)[..n]
      && ReadAndGate(cfg, req, Some(snapshot)) == Success(r)
  }

  ghost predicate LifeOk(cfg: Config, life: Life, l: nat, moves: seq<Move>) {
    forall m :: m in MachinesOf(cfg, life.table) ==>
      && Get(life.record, m.column).Str?
      && IsPath(MovesOf(moves, l, m.column), m.initial, Get(life.record, m.column).s)
  }

  ghost predicate Inv(cfg: Config, s: System) {
    && RowsInRange(s)
    && (forall j, k :: j in s.rows && k in s.rows && j != k ==> s.rows[j] != s.rows[k])
    && (forall c :: 0 <= c < |s.callers| ==> CallerOk(cfg, s.callers[c], c, s.moves, s.bus))
    && (forall l :: 0 <= l < |s.lives| ==> LifeOk(cfg, s.lives[l], l, s.moves))
    && (forall m :: m in s.moves ==> m.caller < |s.callers| && m.life < |s.lives|)
    && (forall p :: p in s.bus ==> p.caller < |s.callers|)
  }

  // ------------------------------------------------------------ histories grow at the end

  lemma Append(moves: seq<Move>, mv: Move)
    ensures forall l, col :: MovesOf(moves + [mv], l, col)
                             == if mv.life == l && mv.column == col then MovesOf(moves, l, col) + [mv]
                                else MovesOf(moves, l, col)
    ensures forall c :: MovesBy(moves + [mv], c)
                        == if mv.caller == c then MovesBy(moves, c) + [mv] else MovesBy(moves, c)
  {
    assert (moves + [mv])[..|moves|] == moves;
  }

  lemma AppendPosted(bus: seq<Posted>, p: Posted)
    ensures forall c :: PostedBy(bus + [p], c)
                        == if p.caller == c then PostedBy(bus, c) + [p.event] else PostedBy(bus, c)
  {
    assert (bus + [p])[..|bus|] == bus;
  }

  lemma {:induction false} NothingYet(s: System, moves: seq<Move>, bus: seq<Posted>)
    requires forall m :: m in moves ==> m.caller < |s.callers| && m.life < |s.lives|
    requires forall p :: p in bus ==> p.caller < |s.callers|
    ensures MovesBy(moves, |s.callers|) == [] && PostedBy(bus, |s.callers|) == []
    ensures forall col :: MovesOf(moves, |s.lives|, col) == []
    decreases |moves| + |bus|
  {
    if moves != [] {
      assert moves[|moves| - 1] in moves;
      NothingYet(s, moves[..|moves| - 1], bus);
    } else if bus != [] {
      assert bus[|bus| - 1] in bus;
      NothingYet(s, moves, bus[..|bus| - 1]);
    }
  }

  // ------------------------------------------------------------ every step keeps the invariant

  lemma FoundMachineIsDeclared(ms: seq<Machine>, name: string)
    requires FindMachine(ms, name).Some?
    ensures FindMachine(ms, name).value in ms
  {
    FindMachineFindsFirst(ms, name);
  }

  /** The compare-and-set moves its own column from the gated state to the target and no other column. */
  lemma WriteMovesOneColumn(cfg: Config, req: Request, snapshot: Record, r: Ready, rec: Record)
    requires WellFormed(cfg)
    requires ReadAndGate(cfg, req, Some(snapshot)) == Success(r)
    ensures Get(rec + r.patch, r.column) == Str(req.target)
    ensures forall m :: m in MachinesOf(cfg, req.table) && m.column != r.column ==>
              Get(rec + r.patch, m.column) == Get(rec, m.column)
    ensures exists m :: m in MachinesOf(cfg, req.table) && m.column == r.column && (r.from, req.target) in m.transitions
  {
    ReadAndGateExact(cfg, req, Some(snapshot));
    ReadyPatch(cfg, req, Some(snapshot));
    FoundMachineIsDeclared(cfg.machines[req.table], req.machine);
    var m := FindMachine(cfg.machines[req.table], req.machine).value;
    var sideEffects := AssignedFields(m.transitions[(r.from, req.target)].Entered());
    assert sideEffects !! ColumnsOf(cfg, req.table);
    assert forall x :: x in MachinesOf(cfg, req.table) ==> x.column in ColumnsOf(cfg, req.table);
  }

  ghost function Written(s: System, c: nat): UpdateResult
    requires RowsInRange(s) && c < |s.callers| && s.callers[c].stage.Gated?
  {
    var Caller(req, Gated(_, r)) := s.callers[c];
    UpdateIf(Stored(s), KeyOf(req), Eq(r.column, Str(r.from)), r.patch).1
  }

  /** The system after the compare-and-set of `c` has been applied to `life`. */
  function AfterWrite(s: System, c: nat, life: nat): System
    requires c < |s.callers| && s.callers[c].stage.Gated? && life < |s.lives|
  {
    var Caller(req, Gated(snapshot, r)) := s.callers[c];
    var patched := s.lives[life].record + r.patch;
    System(s.rows, s.lives[life := Life(req.table, patched)],
           s.callers[c := Caller(req, Stage.Applied(snapshot, r, life, patched, 0))],
           s.moves + [Move(c, life, r.column, r.from, req.target)], s.bus)
  }

  /** The applied compare-and-set, spelled out. */
  lemma WriteApplied(cfg: Config, s: System, c: nat)
    requires RowsInRange(s) && Enabled(cfg, s, Write(c)) && Written(s, c).Applied?
    ensures var Caller(req, Gated(snapshot, r)) := s.callers[c];
            && KeyOf(req) in s.rows
            && var life := s.rows[KeyOf(req)];
               var rec := s.lives[life].record;
            && Get(rec, r.column) == Str(r.from)
            && s.lives[life].table == req.table
            && Step(cfg, s, Write(c)) == AfterWrite(s, c, life)
  {
  }

  lemma WriteRefused(cfg: Config, s: System, c: nat)
    requires RowsInRange(s) && Enabled(cfg, s, Write(c)) && !Written(s, c).Applied?
    ensures exists e :: Step(cfg, s, Write(c)) == SetStage(s, c, Refused(e))
  {
    var e := if Written(s, c).NotFound? then RecordNotFound
             else Conflict(CurrentState(Written(s, c).record, s.callers[c].stage.ready.column));
    assert Step(cfg, s, Write(c)) == SetStage(s, c, Refused(e));
  }

  /** A move of `l` from where it stands keeps its path; the patch leaves the other machines alone. */
  lemma MoveKeepsLife(cfg: Config, life: Life, l: nat, moves: seq<Move>, mv: Move, patched: Record)
    requires LifeOk(cfg, life, l, moves)
    requires mv.life == l && Get(life.record, mv.column) == Str(mv.from) && Get(patched, mv.column) == Str(mv.to)
    requires forall m :: m in MachinesOf(cfg, life.table) && m.column != mv.column ==>
               Get(patched, m.column) == Get(life.record, m.column)
    ensures LifeOk(cfg, Life(life.table, patched), l, moves + [mv])
  {
    Append(moves, mv);
    forall m | m in MachinesOf(cfg, life.table)
      ensures Get(patched, m.column).Str?
      ensures IsPath(MovesOf(moves + [mv], l, m.column), m.initial, Get(patched, m.column).s)
    {
      if m.column == mv.column {
        var before := MovesOf(moves, l, m.column);
        assert MovesOf(moves + [mv], l, m.column) == before + [mv];
        assert (before + [mv])[..|before|] == before;
      }
    }
  }

  lemma WriteKeepsInv(cfg: Config, s: System, c: nat)
    requires WellFormed(cfg) && Inv(cfg, s) && Enabled(cfg, s, Write(c))
    ensures Inv(cfg, Step(cfg, s, Write(c)))
  {
    if Written(s, c).Applied? {
      WriteApplied(cfg, s, c);
      AppliedKeepsInv(cfg, s, c, s.rows[KeyOf(s.callers[c].req)]);
    } else {
      WriteRefused(cfg, s, c);
      var e :| Step(cfg, s, Write(c)) == SetStage(s, c, Refused(e));
      StageKeepsInv(cfg, s, c, Refused(e));
    }
  }

  /** A call that is waiting or gated may be refused or gated: nothing else changes. */
  lemma StageKeepsInv(cfg: Config, s: System, c: nat, stage: Stage)
    requires Inv(cfg, s) && c < |s.callers| && (s.callers[c].stage.Waiting? || s.callers[c].stage.Gated?)
    requires stage.Refused? ||
             (stage.Gated? && ReadAndGate(cfg, s.callers[c].req, Some(stage.snapshot)) == Success(stage.ready))
    ensures Inv(cfg, SetStage(s, c, stage))
  {
    hide LifeOk, MovesBy, PostedBy, TransitionEvents, ReadAndGate;
    var s' := SetStage(s, c, stage);
    forall d | 0 <= d < |s'.callers| ensures CallerOk(cfg, s'.callers[d], d, s'.moves, s'.bus) {
      assert CallerOk(cfg, s.callers[d], d, s.moves, s.bus);
    }
  }

  lemma AppliedKeepsInv(cfg: Config, s: System, c: nat, life: nat)
    requires WellFormed(cfg) && Inv(cfg, s)
    requires c < |s.callers| && s.callers[c].stage.Gated? && life < |s.lives|
    requires s.lives[life].table == s.callers[c].req.table
    requires Get(s.lives[life].record, s.callers[c].stage.ready.column) == Str(s.callers[c].stage.ready.from)
    ensures Inv(cfg, AfterWrite(s, c, life))
  {
    hide WellFormed, LifeOk, CallerOk;
    var s' := AfterWrite(s, c, life);
    forall l | 0 <= l < |s'.lives| ensures LifeOk(cfg, s'.lives[l], l, s'.moves) {
      AppliedKeepsLife(cfg, s, c, life, l);
    }
    forall d | 0 <= d < |s'.callers| ensures CallerOk(cfg, s'.callers[d], d, s'.moves, s'.bus) {
      AppliedKeepsCaller(cfg, s, c, life, d);
    }
  }

  lemma AppliedKeepsLife(cfg: Config, s: System, c: nat, life: nat, l: nat)
    requires WellFormed(cfg) && c < |s.callers| && CallerOk(cfg, s.callers[c], c, s.moves, s.bus)
    requires s.callers[c].stage.Gated? && life < |s.lives| && l < |s.lives| && LifeOk(cfg, s.lives[l], l, s.moves)
    requires s.lives[life].table == s.callers[c].req.table
    requires Get(s.lives[life].record, s.callers[c].stage.ready.column) == Str(s.callers[c].stage.ready.from)
    ensures LifeOk(cfg, AfterWrite(s, c, life).lives[l], l, AfterWrite(s, c, life).moves)
  {
    var Caller(req, Gated(snapshot, r)) := s.callers[c];
    var mv := Move(c, life, r.column, r.from, req.target);
    if l == life {
      WriteMovesOneColumn(cfg, req, snapshot, r, s.lives[life].record);
      MoveKeepsLife(cfg, s.lives[l], l, s.moves, mv, s.lives[l].record + r.patch);
    } else {
      Append(s.moves, mv);
    }
  }

  lemma AppliedKeepsCaller(cfg: Config, s: System, c: nat, life: nat, d: nat)
    requires c < |s.callers| && s.callers[c].stage.Gated? && life < |s.lives| && d < |s.callers|
    requires CallerOk(cfg, s.callers[d], d, s.moves, s.bus)
    ensures CallerOk(cfg, AfterWrite(s, c, life).callers[d], d, AfterWrite(s, c, life).moves, s.bus)
  {
    hide ReadAndGate;
    var Caller(req, Gated(snapshot, r)) := s.callers[c];
    Append(s.moves, Move(c, life, r.column, r.from, req.target));
  }

  lemma PublishKeepsInv(cfg: Config, s: System, c: nat)
    requires Inv(cfg, s) && Enabled(cfg, s, Publish(c))
    ensures Inv(cfg, Step(cfg, s, Publish(c)))
  {
    var s' := Step(cfg, s, Publish(c));
    var Caller(req, Applied(snapshot, r, life, updated, n)) := s.callers[c];
    var es := TransitionEvents(req, r.from, updated);
    AppendPosted(s.bus, Posted(c, es[n]));
    assert CallerOk(cfg, s.callers[c], c, s.moves, s.bus);
    assert es[..n + 1] == es[..n] + [es[n]];
    forall d | 0 <= d < |s'.callers| ensures CallerOk(cfg, s'.callers[d], d, s'.moves, s'.bus) {
      assert CallerOk(cfg, s.callers[d], d, s.moves, s.bus);
    }
    forall l | 0 <= l < |s'.lives| ensures LifeOk(cfg, s'.lives[l], l, s'.moves) {
      assert LifeOk(cfg, s.lives[l], l, s.moves);
    }
  }

  lemma CreateKeepsInv(cfg: Config, s: System, key: Key, r: Record)
    requires Inv(cfg, s) && Enabled(cfg, s, Create(key, r))
    ensures Inv(cfg, Step(cfg, s, Create(key, r)))
  {
    hide ReadAndGate, UpdateIf, TransitionEvents;
    var s' := Step(cfg, s, Create(key, r));
    NothingYet(s, s.moves, s.bus);
    forall l | 0 <= l < |s'.lives| ensures LifeOk(cfg, s'.lives[l], l, s'.moves) {
      assert l < |s.lives| ==> LifeOk(cfg, s.lives[l], l, s.moves);
    }
    forall d | 0 <= d < |s'.callers| ensures CallerOk(cfg, s'.callers[d], d, s'.moves, s'.bus) {
      assert CallerOk(cfg, s.callers[d], d, s.moves, s.bus);
    }
  }

  lemma UpdateKeepsInv(cfg: Config, s: System, key: Key, patch: Record)
    requires Inv(cfg, s) && Enabled(cfg, s, Update(key, patch))
    ensures Inv(cfg, Step(cfg, s, Update(key, patch)))
  {
    var s' := Step(cfg, s, Update(key, patch));
    forall l | 0 <= l < |s'.lives| ensures LifeOk(cfg, s'.lives[l], l, s'.moves) {
      assert LifeOk(cfg, s.lives[l], l, s.moves);
      assert forall m :: m in MachinesOf(cfg, key.table) ==> m.column in ColumnsOf(cfg, key.table);
    }
    forall d | 0 <= d < |s'.callers| ensures CallerOk(cfg, s'.callers[d], d, s'.moves, s'.bus) {
      assert CallerOk(cfg, s.callers[d], d, s.moves, s.bus);
    }
  }

  lemma ReadKeepsInv(cfg: Config, s: System, c: nat)
    requires Inv(cfg, s) && Enabled(cfg, s, Read(c))
    ensures Inv(cfg, Step(cfg, s, Read(c)))
  {
    hide CallerOk, LifeOk;
    var req := s.callers[c].req;
    var found := Lookup(Stored(s), KeyOf(req));
    ReadAndGateExact(cfg, req, found);
    match ReadAndGate(cfg, req, found)
    case Failure(e) => StageKeepsInv(cfg, s, c, Refused(e));
    case Success(r) => StageKeepsInv(cfg, s, c, Gated(found.value, r));
  }

  lemma ArriveKeepsInv(cfg: Config, s: System, req: Request)
    requires Inv(cfg, s)
    ensures Inv(cfg, Step(cfg, s, Arrive(req)))
  {
    hide LifeOk, ReadAndGate, TransitionEvents;
    var s' := Step(cfg, s, Arrive(req));
    NothingYet(s, s.moves, s.bus);
    forall d | 0 <= d < |s'.callers| ensures CallerOk(cfg, s'.callers[d], d, s'.moves, s'.bus) {
      assert d < |s.callers| ==> CallerOk(cfg, s.callers[d], d, s.moves, s.bus);
    }
  }

  lemma StepKeepsInv(cfg: Config, s: System, a: Action)
    requires WellFormed(cfg) && Inv(cfg, s) && Enabled(cfg, s, a)
    ensures Inv(cfg, Step(cfg, s, a))
  {
    match a
    case Write(c) => WriteKeepsInv(cfg, s, c);
    case Publish(c) => PublishKeepsInv(cfg, s, c);
    case Create(key, r) => CreateKeepsInv(cfg, s, key, r);
    case Update(key, patch) => UpdateKeepsInv(cfg, s, key, patch);
    case Read(c) => ReadKeepsInv(cfg, s, c);
    case Arrive(req) => ArriveKeepsInv(cfg, s, req);
    case Delete(key) =>
  }

  /** The invariant holds at every moment of every run. */
  lemma {:induction false} RunsKeepInv(cfg: Config, run: seq<System>, i: nat)
    requires WellFormed(cfg) && IsRun(cfg, run) && i < |run|
    ensures Inv(cfg, run[i])
  {
    if i > 0 {
      RunsKeepInv(cfg, run, i - 1);
      assert IsStep(cfg, run[i - 1], run[i]);
      var a :| Enabled(cfg, run[i - 1], a) && run[i] == Step(cfg, run[i - 1], a);
      StepKeepsInv(cfg, run[i - 1], a);
    }
  }

  // ------------------------------------------------------------ main results

  lemma OnlyWritesTouchState(cfg: Config, s: System, a: Action, l: nat, m: Machine)
    requires RowsInRange(s) && Enabled(cfg, s, a)
    requires l < |s.lives| && m in MachinesOf(cfg, s.lives[l].table)
    requires Get(Step(cfg, s, a).lives[l].record, m.column) != Get(s.lives[l].record, m.column)
    ensures a.Write?
    ensures var req := s.callers[a.caller].req;
            KeyOf(req) in s.rows && s.rows[KeyOf(req)] == l && s.lives[l].table == req.table
    ensures Written(s, a.caller).Applied?
  {
    assert m.column in ColumnsOf(cfg, s.lives[l].table);
  }

  lemma ColumnIdentifiesMachine(cfg: Config, table: string, m: Machine, n: Machine)
    requires WellFormed(cfg)
    requires m in MachinesOf(cfg, table) && n in MachinesOf(cfg, table) && m.column == n.column
    ensures m == n
  {
  }

  /** A state column of a stored record changes in one way only: a caller whose gate held of the snapshot
      it read takes a declared edge, and the move is entered in the history. */
  lemma StateChangesAreGatedMoves(cfg: Config, s: System, a: Action, l: nat, m: Machine)
    requires WellFormed(cfg) && Inv(cfg, s) && Enabled(cfg, s, a)
    requires l < |s.lives| && m in MachinesOf(cfg, s.lives[l].table)
    requires Get(Step(cfg, s, a).lives[l].record, m.column) != Get(s.lives[l].record, m.column)
    ensures a.Write?
    ensures var c := a.caller;
            var Caller(req, Gated(snapshot, r)) := s.callers[c];
            && GateHolds(cfg, req, snapshot, r)
            && r.column == m.column
            && (r.from, req.target) in m.transitions
            && Get(s.lives[l].record, m.column) == Str(r.from)
            && Get(Step(cfg, s, a).lives[l].record, m.column) == Str(req.target)
            && Step(cfg, s, a).moves == s.moves + [Move(c, l, m.column, r.from, req.target)]
  {
    OnlyWritesTouchState(cfg, s, a, l, m);
    var c := a.caller;
    WriteApplied(cfg, s, c);
    var Caller(req, Gated(snapshot, r)) := s.callers[c];
    assert CallerOk(cfg, s.callers[c], c, s.moves, s.bus);
    ReadAndGateExact(cfg, req, Some(snapshot));
    WriteMovesOneColumn(cfg, req, snapshot, r, s.lives[l].record);
    var x :| x in MachinesOf(cfg, req.table) && x.column == r.column && (r.from, req.target) in x.transitions;
    assert m.column == r.column;
    ColumnIdentifiesMachine(cfg, req.table, x, m);
  }

  /** On an edge without condition and entered expressions the gate holds of the very record that is moved. */
  lemma ScopeGatesHoldAtTheWrite(cfg: Config, s: System, a: Action, l: nat, m: Machine)
    requires WellFormed(cfg) && Inv(cfg, s) && Enabled(cfg, s, a)
    requires l < |s.lives| && m in MachinesOf(cfg, s.lives[l].table)
    requires Get(Step(cfg, s, a).lives[l].record, m.column) != Get(s.lives[l].record, m.column)
    ensures a.Write?
    ensures var Caller(req, Gated(snapshot, r)) := s.callers[a.caller];
            && (r.from, req.target) in m.transitions
            && var gate := m.transitions[(r.from, req.target)];
            gate.Condition() == "" && gate.Entered() == [] ==> GateHolds(cfg, req, s.lives[l].record, r)
  {
    StateChangesAreGatedMoves(cfg, s, a, l, m);
    var Caller(req, Gated(snapshot, r)) := s.callers[a.caller];
    OnlyWritesTouchState(cfg, s, a, l, m);
    var n := FindMachine(cfg.machines[req.table], req.machine).value;
    FindMachineFindsFirst(cfg.machines[req.table], req.machine);
    ColumnIdentifiesMachine(cfg, req.table, m, n);
  }

  /** A path enters each state as often as it leaves it, give or take where it starts and ends. */
  lemma {:induction false} PathConservesFlow(moves: seq<Move>, initial: string, now: string, state: string)
    requires IsPath(moves, initial, now)
    ensures OneIf(state == initial) + Into(moves, state) - OutOf(moves, state) == OneIf(state == now)
  {
    if moves != [] {
      PathConservesFlow(moves[..|moves| - 1], initial, moves[|moves| - 1].from, state);
    }
  }

  /** Conservation of flow, per record life and state, at every moment of every run. */
  lemma FlowIsConserved(cfg: Config, run: seq<System>, i: nat, l: nat, m: Machine, state: string)
    requires WellFormed(cfg) && IsRun(cfg, run) && i < |run|
    requires l < |run[i].lives| && m in MachinesOf(cfg, run[i].lives[l].table)
    ensures var moves := MovesOf(run[i].moves, l, m.column);
            OneIf(state == m.initial) + Into(moves, state) - OutOf(moves, state)
            == OneIf(Get(run[i].lives[l].record, m.column) == Str(state))
  {
    RunsKeepInv(cfg, run, i);
    assert LifeOk(cfg, run[i].lives[l], l, run[i].moves);
    PathConservesFlow(MovesOf(run[i].moves, l, m.column), m.initial,
                      Get(run[i].lives[l].record, m.column).s, state);
  }

  /** One winner: between two moments of a run, if nothing moved the record back into `state`,
      at most one of the callers racing out of it got its write applied. */
  lemma AtMostOneWinner(cfg: Config, run: seq<System>, i: nat, j: nat, l: nat, m: Machine, state: string)
    requires WellFormed(cfg) && IsRun(cfg, run) && i <= j < |run|
    requires l < |run[i].lives| && m in MachinesOf(cfg, run[i].lives[l].table)
    requires Into(MovesOf(run[j].moves, l, m.column), state) == Into(MovesOf(run[i].moves, l, m.column), state)
    ensures OutOf(MovesOf(run[j].moves, l, m.column), state)
            <= OutOf(MovesOf(run[i].moves, l, m.column), state) + 1
  {
    LivesKeepTheirTable(cfg, run, i, j, l);
    FlowIsConserved(cfg, run, i, l, m, state);
    FlowIsConserved(cfg, run, j, l, m, state);
  }

  /** Some caller wins: the write of a caller applies exactly when the record is still there in the state it read. */
  lemma WriterWinsIff(cfg: Config, s: System, c: nat)
    requires RowsInRange(s) && Enabled(cfg, s, Write(c))
    ensures var Caller(req, Gated(_, r)) := s.callers[c];
            Step(cfg, s, Write(c)).callers[c].stage.Applied? <==>
              KeyOf(req) in s.rows && Get(s.lives[s.rows[KeyOf(req)]].record, r.column) == Str(r.from)
  {
    if Written(s, c).Applied? {
      WriteApplied(cfg, s, c);
    } else {
      WriteRefused(cfg, s, c);
    }
  }

  /** And no second one: once `c` has won a record out of a state, another caller that read it in that state wins too,
      before anything else moves the record, exactly when `c` took a loop back to the same state. */
  lemma SecondWinnerIff(cfg: Config, run: seq<System>, i: nat, j: nat, c: nat, d: nat)
    requires WellFormed(cfg) && IsRun(cfg, run) && i < j < |run| && RowsInRange(run[i]) && RowsInRange(run[j])
    requires Enabled(cfg, run[i], Write(c)) && run[i + 1] == Step(cfg, run[i], Write(c))
    requires run[i + 1].callers[c].stage.Applied?
    requires Enabled(cfg, run[j], Write(d)) && SameRace(run[i], c, run[j], d)
    requires var l, column := run[i].rows[KeyOf(run[i].callers[c].req)], run[i].callers[c].stage.ready.column;
             MovesOf(run[j].moves, l, column) == MovesOf(run[i + 1].moves, l, column)
    ensures Step(cfg, run[j], Write(d)).callers[d].stage.Applied? <==>
              run[i].callers[c].req.target == run[i].callers[c].stage.ready.from
  {
    var Caller(req, Gated(snapshot, r)) := run[i].callers[c];
    var l := run[i].rows[KeyOf(req)];
    WriterWinsIff(cfg, run[i], c);
    WriteApplied(cfg, run[i], c);
    Append(run[i].moves, Move(c, l, r.column, r.from, req.target));
    RunsKeepInv(cfg, run, i);
    RunsKeepInv(cfg, run, j);
    LivesKeepTheirTable(cfg, run, i, j, l);
    assert CallerOk(cfg, run[i].callers[c], c, run[i].moves, run[i].bus);
    WriteMovesOneColumn(cfg, req, snapshot, r, run[i].lives[l].record);
    var m :| m in MachinesOf(cfg, req.table) && m.column == r.column;
    assert LifeOk(cfg, run[j].lives[l], l, run[j].moves);
    assert Get(run[j].lives[l].record, r.column) == Str(req.target);
    WriterWinsIff(cfg, run[j], d);
  }

  /** Two callers at the gate of one record, which read the same machine in the same state. */
  ghost predicate SameRace(s: System, c: nat, t: System, d: nat)
    requires c < |s.callers| && d < |t.callers| && s.callers[c].stage.Gated? && t.callers[d].stage.Gated?
  {
    var key := KeyOf(s.callers[c].req);
    && KeyOf(t.callers[d].req) == key && key in s.rows && key in t.rows && s.rows[key] == t.rows[key]
    && s.callers[c].stage.ready.column == t.callers[d].stage.ready.column
    && s.callers[c].stage.ready.from == t.callers[d].stage.ready.from
  }

  lemma {:induction false} LivesKeepTheirTable(cfg: Config, run: seq<System>, i: nat, j: nat, l: nat)
    requires IsRun(cfg, run) && i <= j < |run| && l < |run[i].lives|
    ensures l < |run[j].lives| && run[j].lives[l].table == run[i].lives[l].table
  {
    if i < j {
      LivesKeepTheirTable(cfg, run, i, j - 1, l);
      assert IsStep(cfg, run[j - 1], run[j]);
    }
  }

  /** At every moment of every run a caller has moved a record at most once, it has published nothing
      unless it did, and once finished it has published exactly its three events, in order, iff it did. */
  lemma CallersPublishExactlyTheirMove(cfg: Config, run: seq<System>, i: nat, c: nat)
    requires WellFormed(cfg) && IsRun(cfg, run) && i < |run| && c < |run[i].callers|
    ensures var Caller(req, stage) := run[i].callers[c];
            var moves, events := MovesBy(run[i].moves, c), PostedBy(run[i].bus, c);
            && (stage.Applied? <==> |moves| == 1)
            && (!stage.Applied? <==> moves == [])
            && (!stage.Applied? ==> events == [])
            && (stage.Applied? ==>
                  && moves == [Move(c, stage.life, stage.ready.column, stage.ready.from, req.target)]
                  && GateHolds(cfg, req, stage.snapshot, stage.ready)
                  && |events| == stage.published
                  && (stage.published == 3 <==> events == TransitionEvents(req, stage.ready.from, stage.updated)))
  {
    RunsKeepInv(cfg, run, i);
    assert CallerOk(cfg, run[i].callers[c], c, run[i].moves, run[i].bus);
    var Caller(req, stage) := run[i].callers[c];
    if stage.Applied? {
      ReadAndGateExact(cfg, req, Some(stage.snapshot));
    }
  }

  /** The snapshot a caller was gated on is the record that was stored under its key at some earlier moment of the run,
      while it was still waiting. */
  lemma {:induction false} SnapshotWasStored(cfg: Config, run: seq<System>, i: nat, c: nat) returns (j: nat)
    requires IsRun(cfg, run) && i < |run| && c < |run[i].callers|
    requires run[i].callers[c].stage.Gated? || run[i].callers[c].stage.Applied?
    ensures j < i && RowsInRange(run[j]) && c < |run[j].callers|
    ensures run[j].callers[c] == Caller(run[i].callers[c].req, Waiting)
    ensures Lookup(Stored(run[j]), KeyOf(run[i].callers[c].req)) == Some(run[i].callers[c].stage.snapshot)
  {
    hide Step, Enabled, ReadAndGate, Stored;
    assert IsStep(cfg, run[i - 1], run[i]);
    var s := run[i - 1];
    var a :| Enabled(cfg, s, a) && run[i] == Step(cfg, s, a);
    if c < |s.callers| && (s.callers[c].stage.Gated? || s.callers[c].stage.Applied?) {
      StepKeepsSnapshot(cfg, s, a, c);
      j := SnapshotWasStored(cfg, run, i - 1, c);
    } else {
      GatedByRead(cfg, s, a, c);
      j := i - 1;
    }
  }

  lemma StepKeepsSnapshot(cfg: Config, s: System, a: Action, c: nat)
    requires RowsInRange(s) && Enabled(cfg, s, a) && c < |s.callers|
    requires s.callers[c].stage.Gated? || s.callers[c].stage.Applied?
    ensures var after := Step(cfg, s, a).callers;
            && c < |after| && after[c].req == s.callers[c].req
            && (after[c].stage.Gated? || after[c].stage.Applied? ==>
                  after[c].stage.snapshot == s.callers[c].stage.snapshot)
  {
    hide ReadAndGate, Stored, UpdateIf;
  }

  lemma GatedByRead(cfg: Config, s: System, a: Action, c: nat)
    requires RowsInRange(s) && Enabled(cfg, s, a) && c < |Step(cfg, s, a).callers|
    requires Step(cfg, s, a).callers[c].stage.Gated? || Step(cfg, s, a).callers[c].stage.Applied?
    requires c < |s.callers| ==> !s.callers[c].stage.Gated? && !s.callers[c].stage.Applied?
    ensures c < |s.callers|
    ensures var Caller(req, stage) := Step(cfg, s, a).callers[c];
            s.callers[c] == Caller(req, Waiting) && Lookup(Stored(s), KeyOf(req)) == Some(stage.snapshot)
  {
    if a == Read(c) {
      ReadAndGateExact(cfg, s.callers[c].req, Lookup(Stored(s), KeyOf(s.callers[c].req)));
    }
  }

  /** The call as one method and the call as interleaved steps are the same thing: read in `s`, write in any
      later `t`, and the store, the result and the events owed are those of `Transition`. */
  lemma TransitionIsReadThenWrite(cfg: Config, s: System, t: System, c: nat)
    requires RowsInRange(s) && Inv(cfg, t)
    requires c < |s.callers| && s.callers[c].stage.Waiting? && c < |t.callers|
    requires t.callers[c] == Step(cfg, s, Read(c)).callers[c]
    ensures var o := Transition(cfg, s.callers[c].req, Stored(s), Stored(t));
            if t.callers[c].stage.Refused? then
              o == Outcome(Stored(s), Failure(t.callers[c].stage.error), [])
            else
              t.callers[c].stage.Gated? && WriteMatches(cfg, t, c, o)
  {
    var req := s.callers[c].req;
    match ReadAndGate(cfg, req, Lookup(Stored(s), KeyOf(req)))
    case Failure(e) =>
    case Success(r) => WriteIsCompareAndSet(cfg, t, c);
  }

  /** The write step leaves the store, the result and the debt of events that `o` says. */
  ghost predicate WriteMatches(cfg: Config, t: System, c: nat, o: Outcome)
    requires RowsInRange(t) && Enabled(cfg, t, Write(c))
  {
    var t' := Step(cfg, t, Write(c));
    && RowsInRange(t') && o.rows == Stored(t')
    && match t'.callers[c].stage
       case Refused(e) => o.result == Failure(e) && o.events == []
       case Applied(_, r, _, updated, n) =>
         n == 0 && o.result == Success(updated)
         && o.events == TransitionEvents(t.callers[c].req, r.from, updated)
       case _ => false
  }

  lemma StoredAfterChange(t: System, t': System, key: Key, record: Record)
    requires RowsInRange(t) && RowsInRange(t') && key in t.rows && t'.rows == t.rows
    requires forall j, k :: j in t.rows && k in t.rows && j != k ==> t.rows[j] != t.rows[k]
    requires t'.lives == t.lives[t.rows[key] := Life(key.table, record)]
    ensures Stored(t') == Stored(t)[key := record]
  {
  }

  lemma WriteIsCompareAndSet(cfg: Config, t: System, c: nat)
    requires Inv(cfg, t) && Enabled(cfg, t, Write(c))
    ensures WriteMatches(cfg, t, c, CompareAndSet(t.callers[c].req, t.callers[c].stage.ready, Stored(t)))
  {
    hide CallerOk, LifeOk, ReadAndGate, TransitionEvents;
    if Written(t, c).Applied? {
      AppliedIsCompareAndSet(cfg, t, c);
    }
  }

  lemma AppliedIsCompareAndSet(cfg: Config, t: System, c: nat)
    requires Inv(cfg, t) && Enabled(cfg, t, Write(c)) && Written(t, c).Applied?
    ensures WriteMatches(cfg, t, c, CompareAndSet(t.callers[c].req, t.callers[c].stage.ready, Stored(t)))
  {
    hide CallerOk, LifeOk, ReadAndGate, TransitionEvents;
    var Caller(req, Gated(snapshot, r)) := t.callers[c];
    WriteApplied(cfg, t, c);
    var life := t.rows[KeyOf(req)];
    StoredAfterChange(t, AfterWrite(t, c, life), KeyOf(req), t.lives[life].record + r.patch);
  }

  /** The other steps on the store: arriving, reading and publishing leave it alone, ... */
  lemma QuietStepsOnTheStore(cfg: Config, s: System, a: Action)
    requires RowsInRange(s) && Enabled(cfg, s, a) && (a.Arrive? || a.Read? || a.Publish?)
    ensures RowsInRange(Step(cfg, s, a)) && Stored(Step(cfg, s, a)) == Stored(s)
  {
    hide ReadAndGate, TransitionEvents;
    assert Step(cfg, s, a).rows == s.rows && Step(cfg, s, a).lives == s.lives;
  }

  /** ... a create adds its row, ... */
  lemma CreateOnTheStore(cfg: Config, s: System, key: Key, r: Record)
    requires RowsInRange(s) && Enabled(cfg, s, Create(key, r))
    ensures var t := Step(cfg, s, Create(key, r)); RowsInRange(t) && Stored(t) == Stored(s)[key := r]
  {
    hide ReadAndGate, TransitionEvents;
  }

  /** ... a delete takes one, ... */
  lemma DeleteOnTheStore(cfg: Config, s: System, key: Key)
    requires RowsInRange(s) && Enabled(cfg, s, Delete(key))
    ensures var t := Step(cfg, s, Delete(key)); RowsInRange(t) && Stored(t) == Stored(s) - {key}
  {
    hide ReadAndGate, TransitionEvents;
  }

  /** ... and an ordinary write puts its fields over the row it is for. */
  lemma UpdateOnTheStore(cfg: Config, s: System, key: Key, patch: Record)
    requires Inv(cfg, s) && Enabled(cfg, s, Update(key, patch))
    ensures var t := Step(cfg, s, Update(key, patch));
            RowsInRange(t) && Stored(t) == Stored(s)[key := Stored(s)[key] + patch]
  {
    hide CallerOk, LifeOk, ReadAndGate, TransitionEvents;
    StoredAfterChange(s, Step(cfg, s, Update(key, patch)), key, Stored(s)[key] + patch);
  }

  // ------------------------------------------------------------ what may happen next

  /** Anybody may arrive and anything may be deleted at any moment; a row may be created exactly under a free key with
      every machine in its initial state, and written exactly where no state column is touched. */
  lemma OthersMayAct(cfg: Config, s: System, req: Request, key: Key, r: Record)
    ensures Enabled(cfg, s, Arrive(req)) && Enabled(cfg, s, Delete(key))
    ensures Enabled(cfg, s, Create(key, r)) <==>
              key !in s.rows && forall m :: m in MachinesOf(cfg, key.table) ==> Get(r, m.column) == Str(m.initial)
    ensures Enabled(cfg, s, Update(key, r)) <==>
              key in s.rows && forall m :: m in MachinesOf(cfg, key.table) ==> m.column !in r
  {
    if Enabled(cfg, s, Update(key, r)) {
      forall m | m in MachinesOf(cfg, key.table) ensures m.column !in r {
        assert m.column in ColumnsOf(cfg, key.table);
      }
    }
  }

  /** A caller that waits may read, one that was gated may write, one that has moved a record may publish until its
      three events are out; a caller that was refused, or is done, does nothing more. */
  lemma CallersMayAct(cfg: Config, s: System, c: nat)
    requires c < |s.callers|
    ensures var stage := s.callers[c].stage;
            && (Enabled(cfg, s, Read(c)) <==> stage == Waiting)
            && (Enabled(cfg, s, Write(c)) <==> stage.Gated?)
            && (Enabled(cfg, s, Publish(c)) <==> stage.Applied? && stage.published in {0, 1, 2})
  {
  }
}
