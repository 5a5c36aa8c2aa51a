/** What a transition refuses, and what it tells the bus (termin_core/state/machine.py). */
module EventLaws {
  import opened Basics
  import opened Storage
  import opened StateMachine
  import opened Protocol
  import Events

  // ------------------------------------------------------------ refusals

  /** The row is in `state`: its column says so, or it has none and the state is the empty string. */
  ghost predicate WasIn(cfg: Config, req: Request, rows: Rows, state: string) {
    var key := Key(req.table, req.id);
    && key in rows && req.table in cfg.machines && FindMachine(cfg.machines[req.table], req.machine).Some?
    && var column := FindMachine(cfg.machines[req.table], req.machine).value.column;
    (if column in rows[key] then rows[key][column] else Str("")) == Str(state)
  }

  /** The alias of a table is its name without one final "s". */
  lemma AliasIsSingular(name: string)
    ensures Alias(name + "s") == name
    ensures name == "" || name[|name| - 1] != 's' ==> Alias(name) == name
  {
    assert (name + "s")[..|name|] == name;
  }

  /** A scope string denies with its own scope, and nothing else about the row or the evaluator matters. */
  lemma ScopeGateRefusesIff(cfg: Config, req: Request, row: Record, m: Machine, from: string, scope: string)
    requires req.table in cfg.machines && FindMachine(cfg.machines[req.table], req.machine) == Some(m)
    requires m.column in row && row[m.column] == Str(from)
    requires (from, req.target) in m.transitions && m.transitions[(from, req.target)] == ScopeGate(scope)
    ensures ReadAndGate(cfg, req, Some(row)) ==
            if scope == "" || scope in req.user.scopes
            then Success(Ready(m.column, from, map[m.column := Str(req.target)]))
            else Failure(ScopeDenied(scope))
  {
  }

  /** What the condition of an edge decides: nothing (`None`) when there is none or it holds, else the error. */
  function ConditionSays(cfg: Config, req: Request, row: Record, condition: string, from: string): Option<Error> {
    if condition == "" then None
    else if cfg.evaluator.None? then Some(BadRequest)
    else
      match cfg.evaluator.value(condition, EvalContext(Alias(req.table), row, req.user.principal, req.clocks.gate))
      case None => Some(BadRequest)
      case Some(v) =>
        if v == Null || v == Bool(false) || v == Int(0) || v == Str("") then Some(Conflict(Str(from))) else None
  }

  /** A full gate asks its condition, and only without one its scope; an entered expression that raises is a bad
      request. */
  lemma FullGateRefuses(cfg: Config, req: Request, row: Record, m: Machine, from: string, scope: string,
                        condition: string, entered: seq<(string, string)>)
    requires req.table in cfg.machines && FindMachine(cfg.machines[req.table], req.machine) == Some(m)
    requires m.column in row && row[m.column] == Str(from)
    requires (from, req.target) in m.transitions
    requires m.transitions[(from, req.target)] == FullGate(scope, condition, entered)
    ensures var r, says := ReadAndGate(cfg, req, Some(row)), ConditionSays(cfg, req, row, condition, from);
            var ctx := EvalContext(Alias(req.table), row, req.user.principal, req.clocks.entry);
            if says.Some? then r == Failure(says.value)
            else if condition == "" && scope != "" && scope !in req.user.scopes then r == Failure(ScopeDenied(scope))
            else if entered != [] && (cfg.evaluator.None? ||
                                      exists i :: 0 <= i < |entered| && cfg.evaluator.value(entered[i].1, ctx).None?)
            then r == Failure(BadRequest)
            else r.Success?
  {
    if cfg.evaluator.Some? {
      AssignEnteredExact(entered, cfg.evaluator.value, ContextOf(req, row, req.clocks.entry),
                         map[m.column := Str(req.target)]);
    }
  }

  /** Before any gate: no such table or machine, no such row, no such edge. */
  lemma NoEdgeRefuses(cfg: Config, req: Request, found: Option<Record>)
    ensures var r := ReadAndGate(cfg, req, found);
            if req.table !in cfg.machines || FindMachine(cfg.machines[req.table], req.machine).None?
            then r == Failure(BadRequest)
            else if found.None? || found.value == map[] then r == Failure(RecordNotFound)
            else
              var m := FindMachine(cfg.machines[req.table], req.machine).value;
              var now := if m.column in found.value then found.value[m.column] else Str("");
              (now.Str? && (now.s, req.target) in m.transitions) || r == Failure(Conflict(now))
  {
  }

  /** A write that comes too late says so: the row is gone, or it tells the state it finds. */
  lemma LateWriteRefuses(cfg: Config, req: Request, before: Rows, atWrite: Rows, from: string)
    requires WasIn(cfg, req, before, from)
    requires ReadAndGate(cfg, req, Some(before[Key(req.table, req.id)])).Success?
    ensures var o, key := Transition(cfg, req, before, atWrite), Key(req.table, req.id);
            var column := FindMachine(cfg.machines[req.table], req.machine).value.column;
            && (key !in atWrite ==> o == Outcome(atWrite, Failure(RecordNotFound), []))
            && (key in atWrite && Get(atWrite[key], column) != Str(from) ==>
                  o == Outcome(atWrite, Failure(Conflict(if column in atWrite[key] then atWrite[key][column]
                                                         else Str(""))), []))
            && (key in atWrite && Get(atWrite[key], column) == Str(from) ==>
                  o.result.Success? && key in o.rows && o.result == Success(o.rows[key]))
  {
    ReadAndGateExact(cfg, req, Some(before[Key(req.table, req.id)]));
  }

  // ------------------------------------------------------------ announcements

  ghost predicate OnChannel(es: seq<Events.Event>, channel: string) {
    exists e :: e in es && e.channelId == channel
  }

  lemma SuccessAnnounces(cfg: Config, req: Request, before: Rows, atWrite: Rows) returns (from: string)
    requires Transition(cfg, req, before, atWrite).result.Success?
    ensures WasIn(cfg, req, before, from)
    ensures var o, key := Transition(cfg, req, before, atWrite), Key(req.table, req.id);
            var data := Events.TransitionData(req.id, from, req.target, req.user.principal);
            && key in o.rows && |o.events| == 3
            && o.events[0].channelId == req.table + "." + req.machine + "." + from + ".exited"
            && o.events[1].channelId == req.table + "." + req.machine + "." + req.target + ".entered"
            && o.events[2].channelId == "content." + req.table + ".updated"
            && o.events[0].payload == data == o.events[1].payload
            && o.events[2].payload == Events.RecordData(o.rows[key])
            && forall e :: e in o.events ==> e.logLevel.None? && e.timestamp.None?
  {
    var found := Lookup(before, Key(req.table, req.id));
    ReadAndGateExact(cfg, req, found);
    from := ReadAndGate(cfg, req, found).value.from;
  }

  /** A call puts an event on the `.exited` channel of a state exactly when it succeeds and the row it read was in that
      state, on the `.entered` channel of one exactly when it succeeds and that is its target, and on the content's
      `.updated` channel exactly when it succeeds. */
  lemma AnnouncedIff(cfg: Config, req: Request, before: Rows, atWrite: Rows, state: string)
    ensures var o, prefix := Transition(cfg, req, before, atWrite), req.table + "." + req.machine + ".";
            && (OnChannel(o.events, prefix + state + ".exited") <==>
                  o.result.Success? && WasIn(cfg, req, before, state))
            && (OnChannel(o.events, prefix + state + ".entered") <==> o.result.Success? && req.target == state)
            && (OnChannel(o.events, "content." + req.table + ".updated") <==> o.result.Success?)
  {
    var o, prefix := Transition(cfg, req, before, atWrite), req.table + "." + req.machine + ".";
    if o.result.Success? {
      var from := SuccessAnnounces(cfg, req, before, atWrite);
      hide Transition;
      ChannelsApart(prefix, state, from, req.target, "content." + req.table);
      assert o.events[0] in o.events && o.events[1] in o.events && o.events[2] in o.events;
    }
  }

  /** The three kinds of channel never coincide, and one of a kind tells its state. */
  lemma ChannelsApart(prefix: string, state: string, from: string, target: string, content: string)
    ensures prefix + state + ".exited" == prefix + from + ".exited" <==> state == from
    ensures prefix + state + ".entered" == prefix + target + ".entered" <==> state == target
    ensures prefix + state + ".exited" != prefix + target + ".entered"
    ensures prefix + state + ".entered" != prefix + from + ".exited"
    ensures content + ".updated" != prefix + state + ".exited" && content + ".updated" != prefix + state + ".entered"
    ensures content + ".updated" != prefix + from + ".exited" && content + ".updated" != prefix + target + ".entered"
  {
    Middle(prefix, state, from, ".exited");
    Middle(prefix, state, target, ".entered");
    EndsApart(prefix + state, prefix + target, ".exited", ".entered");
    EndsApart(prefix + state, prefix + from, ".entered", ".exited");
    EndsApart(content, prefix + state, ".updated", ".exited");
    EndsApart(content, prefix + state, ".updated", ".entered");
    EndsApart(content, prefix + from, ".updated", ".exited");
    EndsApart(content, prefix + target, ".updated", ".entered");
  }

  lemma Middle(prefix: string, a: string, b: string, end: string)
    ensures prefix + a + end == prefix + b + end <==> a == b
  {
    var x, y := prefix + a + end, prefix + b + end;
    if x == y {
      assert |a| == |b|;
      assert a == x[|prefix|..|prefix| + |a|] == y[|prefix|..|prefix| + |b|] == b;
    }
  }

  /** Strings that differ in the fourth character from their end are different. */
  lemma EndsApart(a: string, b: string, end: string, other: string)
    requires |end| >= 4 && |other| >= 4 && end[|end| - 4] != other[|other| - 4]
    ensures a + end != b + other
  {
    var x, y := a + end, b + other;
    assert x[|x| - 4] == end[|end| - 4] && y[|y| - 4] == other[|other| - 4];
  }

  /** What the bus does to an event: channel and payload stay, a missing level becomes INFO, a missing time the
      clock. */
  lemma StampFillsIn(e: Events.Event, now: string)
    ensures var s := Events.Stamp(e, now);
            && s.channelId == e.channelId && s.payload == e.payload
            && s.logLevel == (match e.logLevel case None => Some("INFO") case Some(l) => Some(l))
            && s.timestamp == (match e.timestamp case None => Some(now) case Some(t) => Some(t))
  {
  }

  lemma StampsEach(es: seq<Events.Event>, now: string)
    ensures |StampAll(es, now)| == |es|
    ensures forall i :: 0 <= i < |es| ==> StampAll(es, now)[i] == Events.Stamp(es[i], now)
  {
  }

  // ------------------------------------------------------------ the channels over whole runs

  /** No caller is between its write and its last event. */
  ghost predicate Finished(s: System) {
    forall c :: 0 <= c < |s.callers| && s.callers[c].stage.Applied? ==> s.callers[c].stage.published == 3
  }

  /** The caller has moved this column of this record. */
  predicate MovedOn(s: System, c: nat, life: nat, column: string)
    requires c < |s.callers|
  {
    var stage := s.callers[c].stage;
    stage.Applied? && stage.life == life && stage.ready.column == column
  }

  /** How many of the posts on `channel` come from callers that moved this column of this record. */
  function Posts(s: System, bus: seq<Posted>, life: nat, column: string, channel: string): nat
    requires forall p :: p in bus ==> p.caller < |s.callers|
  {
    if bus == [] then 0
    else
      var last := bus[|bus| - 1];
      Posts(s, bus[..|bus| - 1], life, column, channel)
      + OneIf(MovedOn(s, last.caller, life, column) && last.event.channelId == channel)
  }

  function CountOn(es: seq<Events.Event>, channel: string): nat {
    if es == [] then 0
    else CountOn(es[..|es| - 1], channel) + OneIf(es[|es| - 1].channelId == channel)
  }

  /** The same posts, and moves, counted caller by caller. */
  function PostsBy(s: System, bus: seq<Posted>, life: nat, column: string, channel: string, n: nat): nat
    requires n <= |s.callers|
  {
    if n == 0 then 0
    else
      PostsBy(s, bus, life, column, channel, n - 1)
      + if MovedOn(s, n - 1, life, column) then CountOn(PostedBy(bus, n - 1), channel) else 0
  }

  function IntoBy(moves: seq<Move>, life: nat, column: string, state: string, n: nat): nat {
    if n == 0 then 0
    else IntoBy(moves, life, column, state, n - 1) + Into(MovesOf(MovesBy(moves, n - 1), life, column), state)
  }

  function OutOfBy(moves: seq<Move>, life: nat, column: string, state: string, n: nat): nat {
    if n == 0 then 0
    else OutOfBy(moves, life, column, state, n - 1) + OutOf(MovesOf(MovesBy(moves, n - 1), life, column), state)
  }

  lemma {:induction false} PostsByCaller(s: System, bus: seq<Posted>, life: nat, column: string, channel: string)
    requires forall p :: p in bus ==> p.caller < |s.callers|
    ensures Posts(s, bus, life, column, channel) == PostsBy(s, bus, life, column, channel, |s.callers|)
  {
    if bus == [] {
      NoPosts(s, life, column, channel, |s.callers|);
    } else {
      var front, last := bus[..|bus| - 1], bus[|bus| - 1];
      PostsByCaller(s, front, life, column, channel);
      assert bus == front + [last];
      OnePost(s, front, last, life, column, channel, |s.callers|);
    }
  }

  lemma {:induction false} NoPosts(s: System, life: nat, column: string, channel: string, n: nat)
    requires n <= |s.callers|
    ensures PostsBy(s, [], life, column, channel, n) == 0
  {
    if n > 0 { NoPosts(s, life, column, channel, n - 1); }
  }

  lemma {:induction false} OnePost(s: System, bus: seq<Posted>, p: Posted, life: nat, column: string, channel: string,
                                   n: nat)
    requires n <= |s.callers| && p.caller < |s.callers|
    ensures PostsBy(s, bus + [p], life, column, channel, n) ==
            PostsBy(s, bus, life, column, channel, n)
            + OneIf(p.caller < n && MovedOn(s, p.caller, life, column) && p.event.channelId == channel)
  {
    hide MovedOn, CountOn, PostedBy;
    if n > 0 {
      OnePost(s, bus, p, life, column, channel, n - 1);
      AppendPosted(bus, p);
      CountsOne(PostedBy(bus, n - 1), p.event, channel);
    }
  }

  lemma CountsOne(es: seq<Events.Event>, e: Events.Event, channel: string)
    ensures CountOn(es + [e], channel) == CountOn(es, channel) + OneIf(e.channelId == channel)
  {
    assert (es + [e])[..|es|] == es;
  }

  lemma {:induction false} MovesByCaller(moves: seq<Move>, life: nat, column: string, state: string, n: nat)
    requires forall m :: m in moves ==> m.caller < n
    ensures Into(MovesOf(moves, life, column), state) == IntoBy(moves, life, column, state, n)
    ensures OutOf(MovesOf(moves, life, column), state) == OutOfBy(moves, life, column, state, n)
  {
    hide Into, OutOf, MovesOf, MovesBy, IntoBy, OutOfBy;
    if moves == [] {
      NoMoves(life, column, state, n);
    } else {
      var front, last := moves[..|moves| - 1], moves[|moves| - 1];
      MovesByCaller(front, life, column, state, n);
      assert moves == front + [last];
      OneMove(front, last, life, column, state, n);
      OneMoreCounts(front, last, life, column, state);
    }
  }

  lemma {:induction false} NoMoves(life: nat, column: string, state: string, n: nat)
    ensures IntoBy([], life, column, state, n) == 0 == OutOfBy([], life, column, state, n)
    ensures Into(MovesOf([], life, column), state) == 0 == OutOf(MovesOf([], life, column), state)
  {
    if n > 0 { NoMoves(life, column, state, n - 1); }
  }

  lemma OneMoreCounts(moves: seq<Move>, mv: Move, life: nat, column: string, state: string)
    ensures var mine := mv.life == life && mv.column == column;
            && Into(MovesOf(moves + [mv], life, column), state) ==
               Into(MovesOf(moves, life, column), state) + OneIf(mine && mv.to == state)
            && OutOf(MovesOf(moves + [mv], life, column), state) ==
               OutOf(MovesOf(moves, life, column), state) + OneIf(mine && mv.from == state)
  {
    Append(moves, mv);
    var before := MovesOf(moves, life, column);
    assert (before + [mv])[..|before|] == before;
  }

  lemma {:induction false} OneMove(moves: seq<Move>, mv: Move, life: nat, column: string, state: string, n: nat)
    ensures var mine := mv.caller < n && mv.life == life && mv.column == column;
            && IntoBy(moves + [mv], life, column, state, n) ==
               IntoBy(moves, life, column, state, n) + OneIf(mine && mv.to == state)
            && OutOfBy(moves + [mv], life, column, state, n) ==
               OutOfBy(moves, life, column, state, n) + OneIf(mine && mv.from == state)
  {
    hide Into, OutOf, MovesOf, MovesBy;
    if n > 0 {
      OneMove(moves, mv, life, column, state, n - 1);
      Append(moves, mv);
      OneMoreCounts(MovesBy(moves, n - 1), mv, life, column, state);
    }
  }

  /** A record a caller has moved is of the table it asked for. */
  lemma {:induction false} MovedRecordsKeepTheirTable(cfg: Config, run: seq<System>, i: nat, c: nat)
    requires WellFormed(cfg) && IsRun(cfg, run) && i < |run| && c < |run[i].callers|
    requires run[i].callers[c].stage.Applied?
    ensures var life := run[i].callers[c].stage.life;
            life < |run[i].lives| && run[i].lives[life].table == run[i].callers[c].req.table
  {
    hide Step, Enabled;
    assert i > 0;
    assert IsStep(cfg, run[i - 1], run[i]);
    var s := run[i - 1];
    var a :| Enabled(cfg, s, a) && run[i] == Step(cfg, s, a);
    MoveOrigin(cfg, s, a, c);
    if c < |s.callers| && s.callers[c].stage.Applied? {
      MovedRecordsKeepTheirTable(cfg, run, i - 1, c);
      LivesKeepTheirTable(cfg, run, i - 1, i, s.callers[c].stage.life);
    }
  }

  lemma MoveOrigin(cfg: Config, s: System, a: Action, c: nat)
    requires RowsInRange(s) && Enabled(cfg, s, a) && c < |Step(cfg, s, a).callers|
    requires Step(cfg, s, a).callers[c].stage.Applied?
    ensures c < |s.callers| && Step(cfg, s, a).callers[c].req == s.callers[c].req
    ensures var life := Step(cfg, s, a).callers[c].stage.life;
            if s.callers[c].stage.Applied? then life == s.callers[c].stage.life
            else life < |Step(cfg, s, a).lives| && Step(cfg, s, a).lives[life].table == s.callers[c].req.table
  {
    hide ReadAndGate;
    if a == Write(c) && Written(s, c).Applied? {
      WriteApplied(cfg, s, c);
    }
  }

  /** The posts and the moves of one caller that is done. */
  lemma OneCallerMatches(cfg: Config, s: System, c: nat, life: nat, m: Machine, state: string)
    requires WellFormed(cfg) && Inv(cfg, s) && Finished(s) && c < |s.callers| && life < |s.lives|
    requires m in MachinesOf(cfg, s.lives[life].table)
    requires s.callers[c].stage.Applied? && s.callers[c].stage.life == life ==>
               s.callers[c].req.table == s.lives[life].table
    ensures var prefix := s.lives[life].table + "." + m.name + ".";
            var mine, posts := MovesOf(MovesBy(s.moves, c), life, m.column), PostedBy(s.bus, c);
            && (MovedOn(s, c, life, m.column) ==>
                  && CountOn(posts, prefix + state + ".entered") == Into(mine, state)
                  && CountOn(posts, prefix + state + ".exited") == OutOf(mine, state))
            && (!MovedOn(s, c, life, m.column) ==> Into(mine, state) == 0 == OutOf(mine, state))
  {
    assert CallerOk(cfg, s.callers[c], c, s.moves, s.bus);
    hide CallerOk, Inv, WellFormed, CountOn, Into, OutOf, PostedBy, MovesOf, MovesBy;
    OneCallersMoves(cfg, s, c, life, m.column, state);
    if MovedOn(s, c, life, m.column) {
      OneCallersPosts(cfg, s, c, m, state);
    }
  }

  lemma OneCallersMoves(cfg: Config, s: System, c: nat, life: nat, column: string, state: string)
    requires c < |s.callers| && CallerOk(cfg, s.callers[c], c, s.moves, s.bus)
    ensures var mine, Caller(req, stage) := MovesOf(MovesBy(s.moves, c), life, column), s.callers[c];
            if MovedOn(s, c, life, column)
            then && Into(mine, state) == OneIf(req.target == state)
                 && OutOf(mine, state) == OneIf(stage.ready.from == state)
            else Into(mine, state) == 0 == OutOf(mine, state)
  {
    hide ReadAndGate, FindMachine, TransitionEvents, Into, OutOf, MovesOf, MovesBy, PostedBy;
    NoMoves(life, column, state, 0);
    var Caller(req, stage) := s.callers[c];
    if stage.Applied? {
      var mv := Move(c, stage.life, stage.ready.column, stage.ready.from, req.target);
      assert MovesBy(s.moves, c) == [mv] == [] + [mv];
      OneMoreCounts([], mv, life, column, state);
    }
  }

  lemma OneCallersPosts(cfg: Config, s: System, c: nat, m: Machine, state: string)
    requires WellFormed(cfg) && Finished(s) && c < |s.callers| && s.callers[c].stage.Applied?
    requires CallerOk(cfg, s.callers[c], c, s.moves, s.bus) && m in MachinesOf(cfg, s.callers[c].req.table)
    requires m.column == s.callers[c].stage.ready.column
    ensures var Caller(req, stage), posts := s.callers[c], PostedBy(s.bus, c);
            var prefix := req.table + "." + m.name + ".";
            && CountOn(posts, prefix + state + ".entered") == OneIf(req.target == state)
            && CountOn(posts, prefix + state + ".exited") == OneIf(stage.ready.from == state)
  {
    hide CountOn, ReadAndGate;
    var Caller(req, stage) := s.callers[c];
    assert |TransitionEvents(req, stage.ready.from, stage.updated)| == 3;
    assert PostedBy(s.bus, c) == TransitionEvents(req, stage.ready.from, stage.updated);
    SameMachine(cfg, req, stage.snapshot, stage.ready, m);
    ThreePosts(req, stage.ready.from, stage.updated, state);
  }

  lemma SameMachine(cfg: Config, req: Request, snapshot: Record, r: Ready, m: Machine)
    requires WellFormed(cfg) && m in MachinesOf(cfg, req.table) && m.column == r.column
    requires ReadAndGate(cfg, req, Some(snapshot)) == Success(r)
    ensures req.machine == m.name
  {
    ReadAndGateExact(cfg, req, Some(snapshot));
    var n := FindMachine(cfg.machines[req.table], req.machine).value;
    FindMachineFindsFirst(cfg.machines[req.table], req.machine);
    ColumnIdentifiesMachine(cfg, req.table, m, n);
  }

  lemma ThreePosts(req: Request, from: string, updated: Record, state: string)
    ensures var es, prefix := TransitionEvents(req, from, updated), req.table + "." + req.machine + ".";
            && CountOn(es, prefix + state + ".entered") == OneIf(req.target == state)
            && CountOn(es, prefix + state + ".exited") == OneIf(from == state)
  {
    var es, prefix := TransitionEvents(req, from, updated), req.table + "." + req.machine + ".";
    ChannelsApart(prefix, state, from, req.target, "content." + req.table);
    assert es[..2][..1] == es[..1] && es[..1][..0] == [];
    assert es[2].channelId == "content." + req.table + ".updated";
    forall channel ensures CountOn(es, channel) == OneIf(es[0].channelId == channel) + OneIf(es[1].channelId == channel)
                                                   + OneIf(es[2].channelId == channel) {
      assert CountOn(es[..1], channel) == OneIf(es[0].channelId == channel);
      assert CountOn(es[..2], channel) == CountOn(es[..1], channel) + OneIf(es[1].channelId == channel);
    }
  }

  /** Whenever every caller is done, each state of each column of each record has been announced as entered exactly as
      often as the column moved into it, and as exited exactly as often as it moved out. */
  lemma PostsMatchMoves(cfg: Config, run: seq<System>, i: nat, life: nat, m: Machine, state: string)
    requires WellFormed(cfg) && IsRun(cfg, run) && i < |run| && Finished(run[i])
    requires life < |run[i].lives| && m in MachinesOf(cfg, run[i].lives[life].table)
    ensures var s := run[i];
            var moves, prefix := MovesOf(s.moves, life, m.column), s.lives[life].table + "." + m.name + ".";
            && (forall p :: p in s.bus ==> p.caller < |s.callers|)
            && Posts(s, s.bus, life, m.column, prefix + state + ".entered") == Into(moves, state)
            && Posts(s, s.bus, life, m.column, prefix + state + ".exited") == OutOf(moves, state)
  {
    RunsKeepInv(cfg, run, i);
    var s := run[i];
    var prefix := s.lives[life].table + "." + m.name + ".";
    forall c | 0 <= c < |s.callers| && s.callers[c].stage.Applied? && s.callers[c].stage.life == life
      ensures s.callers[c].req.table == s.lives[life].table
    {
      MovedRecordsKeepTheirTable(cfg, run, i, c);
    }
    PostsByCaller(s, s.bus, life, m.column, prefix + state + ".entered");
    PostsByCaller(s, s.bus, life, m.column, prefix + state + ".exited");
    MovesByCaller(s.moves, life, m.column, state, |s.callers|);
    CallersMatch(cfg, s, life, m, state, |s.callers|);
  }

  lemma {:induction false} CallersMatch(cfg: Config, s: System, life: nat, m: Machine, state: string, n: nat)
    requires WellFormed(cfg) && Inv(cfg, s) && Finished(s) && n <= |s.callers| && life < |s.lives|
    requires m in MachinesOf(cfg, s.lives[life].table)
    requires forall c :: 0 <= c < |s.callers| && s.callers[c].stage.Applied? && s.callers[c].stage.life == life ==>
               s.callers[c].req.table == s.lives[life].table
    ensures var prefix := s.lives[life].table + "." + m.name + ".";
            && PostsBy(s, s.bus, life, m.column, prefix + state + ".entered", n) ==
               IntoBy(s.moves, life, m.column, state, n)
            && PostsBy(s, s.bus, life, m.column, prefix + state + ".exited", n) ==
               OutOfBy(s.moves, life, m.column, state, n)
  {
    hide Inv, WellFormed, Finished, Into, OutOf, MovesOf, MovesBy, CountOn, PostedBy, MovedOn;
    if n > 0 {
      CallersMatch(cfg, s, life, m, state, n - 1);
      OneCallerMatches(cfg, s, n - 1, life, m, state);
    }
  }
}
