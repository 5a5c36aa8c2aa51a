/** The list, read, create, update, delete and transition handlers, each as one atomic step
    (termin_core/routing/crud.py). */
module Crud {
  import opened Basics
  import opened Storage
  import opened StateMachine
  import Events

  // ------------------------------------------------------------ what the handlers are given

  /** Code behind the context object: predicates that refuse, and steps that fill values in. `None` from
      `dependent` is a validation error; the `...Fails` hooks are the storage errors; `cascade` is the set of rows the
      foreign keys of the schema delete along with one. */
  datatype Hooks = Hooks(
    boundaryDenies: (string, User) -> bool,
    mayWrite: (string, Record, User) -> bool,
    defaults: (string, Record, User) -> Record,
    valid: (string, Record) -> bool,
    dependent: (string, Record) -> Option<Record>,
    pick: (Rows, string, Predicate) -> Option<int>,
    createFails: (Rows, string, Record) -> Option<Error>,
    updateFails: (Rows, Key, Record) -> Option<Error>,
    deleteFails: (Rows, Key) -> Option<Error>,
    cascade: (Rows, Key) -> set<Key>)

  /** `seeds` says whether the state-column gate is installed. */
  datatype Site = Site(cfg: Config, known: map<string, set<string>>, ownerField: map<string, string>,
                       ownershipFilter: map<string, string>, seeds: bool, hooks: Hooks)

  datatype Target = ById(id: int) | ByColumn(column: string, value: Value)

  datatype Call =
    | Create(table: string, id: int, body: Record, user: User)
    | Update(table: string, target: Target, body: Record, user: User, clocks: string -> Clocks)
    | Delete(table: string, target: Target, user: User)
    | Move(table: string, target: Target, machine: Option<string>, to: string, user: User, clocks: string -> Clocks)

  function MachineNames(ms: seq<Machine>): set<string> {
    set m | m in ms :: m.name
  }

  /** The owner column of a table, when it has one. */
  function Configured(m: map<string, string>, table: string): Option<string> {
    if table in m && m[table] != "" then Some(m[table]) else None
  }

  /** The row a request addresses: by id without looking, by another column through a query. */
  function Resolve(site: Site, rows: Rows, table: string, target: Target): Option<int> {
    match target
    case ById(id) => Some(id)
    case ByColumn(col, v) =>
      var id := site.hooks.pick(rows, table, Eq(col, v));
      if id.Some? && Key(table, id.value) in rows then id else None
  }

  function RowOf(rows: Rows, table: string, id: Option<int>): Option<Record> {
    if id.Some? && Key(table, id.value) in rows then Some(rows[Key(table, id.value)]) else None
  }

  predicate Present(row: Option<Record>) {
    row.Some? && row.value != map[]
  }

  /** Is the row somebody else's? */
  predicate Foreign(site: Site, table: string, row: Record, user: User) {
    var filter := Configured(site.ownershipFilter, table);
    filter.Some? && Get(row, filter.value) != Str(user.principal.id)
  }

  // ------------------------------------------------------------ list and read

  /** The predicate `list_content_handler` sends to storage: the filters of the request, and the owner's id unless it is
      empty. */
  function ListPredicate(site: Site, table: string, filters: seq<Predicate>, user: User): Option<Predicate> {
    var owner := Configured(site.ownershipFilter, table);
    var all := if owner.Some? && user.principal.id != "" then filters + [Eq(owner.value, Str(user.principal.id))]
               else filters;
    if |all| == 1 then Some(all[0]) else if |all| > 1 then Some(And(all)) else None
  }

  /** The rows listed, over all pages. */
  function Listed(site: Site, rows: Rows, table: string, filters: seq<Predicate>, user: User): set<Key> {
    var p := ListPredicate(site, table, filters, user);
    set k | k in rows && k.table == table && (p.None? || Holds(p.value, rows[k]))
  }

  /** `get_content_handler`, before redaction. */
  function ReadStep(site: Site, rows: Rows, table: string, target: Target, user: User): Answer<Record> {
    match RowOf(rows, table, Resolve(site, rows, table, target))
    case None => Failure(RecordNotFound)
    case Some(row) => if Foreign(site, table, row, user) then Failure(RecordNotFound) else Success(row)
  }

  // ------------------------------------------------------------ create

  /** The row storage inserts: machine columns the body does not set get their initial state. */
  function InitialStates(ms: seq<Machine>): Record {
    if ms == [] then map[]
    else InitialStates(ms[..|ms| - 1])[ms[|ms| - 1].name := Str(ms[|ms| - 1].initial)]
  }

  function Restrict(r: Record, keep: set<string>): Record {
    map k | k in r && k in keep :: r[k]
  }

  function KnownFields(site: Site, table: string): set<string> {
    (if table in site.known then site.known[table] else {}) + {"status"}
  }

  /** The body after the state gate, the ownership stamp and the field defaults. */
  function Prepared(site: Site, table: string, body: Record, user: User): Record {
    var gated := if site.seeds then body - MachineNames(MachinesOf(site.cfg, table)) else body;
    var owner := Configured(site.ownerField, table);
    var stamped := if owner.Some? then gated[owner.value := Str(user.principal.id)] else gated;
    site.hooks.defaults(table, stamped, user) + stamped
  }

  function CreateStep(site: Site, rows: Rows, table: string, id: int, body: Record, user: User)
    : (Rows, Answer<Record>)
  {
    if site.hooks.boundaryDenies(table, user) then (rows, Failure(ScopeDenied("")))
    else
      var prepared := Prepared(site, table, body, user);
      if !site.hooks.valid(table, prepared) then (rows, Failure(Invalid))
      else
        match site.hooks.dependent(table, prepared)
        case None => (rows, Failure(Invalid))
        case Some(checked) =>
          var insert := Restrict(checked, KnownFields(site, table));
          match site.hooks.createFails(rows, table, insert)
          case Some(e) => (rows, Failure(e))
          case None =>
            var record := InitialStates(MachinesOf(site.cfg, table)) + insert;
            (rows[Key(table, id) := record], Success(record))
  }

  // ------------------------------------------------------------ update

  function Touched(ms: seq<Machine>, body: Record): seq<Machine> {
    if ms == [] then []
    else
      var front, last := Touched(ms[..|ms| - 1], body), ms[|ms| - 1];
      if last.name in body then front + [last] else front
  }

  /** One touched machine: nothing when the value is the one read before, else a state transition. A target that
      is not a string is in no transition table. */
  function MoveOne(site: Site, rows: Rows, existing: Record, u: Call, id: int, m: Machine): (Rows, Option<Error>)
    requires u.Update? && m.name in u.body
  {
    var target := u.body[m.name];
    if target == CurrentState(existing, m.name) then (rows, None)
    else if !target.Str? then (rows, Some(Conflict(CurrentState(existing, m.name))))
    else
      var o := Transition(site.cfg, Request(u.table, id, m.name, target.s, u.user, u.clocks(m.name)), rows, rows);
      (o.rows, if o.result.Success? then None else Some(o.result.error))
  }

  /** The touched machines one after the other; the first failure stops the chain. */
  function MoveAll(site: Site, rows: Rows, existing: Record, u: Call, id: int, ms: seq<Machine>): (Rows, Option<Error>)
    requires u.Update? && forall m :: m in ms ==> m.name in u.body
  {
    if ms == [] then (rows, None)
    else
      var (moved, failed) := MoveAll(site, rows, existing, u, id, ms[..|ms| - 1]);
      if failed.Some? then (moved, failed) else MoveOne(site, moved, existing, u, id, ms[|ms| - 1])
  }

  /** What one transition announces, stamped with its own clock. */
  function Announced(cfg: Config, req: Request, rows: Rows): seq<Events.Event> {
    StampAll(Transition(cfg, req, rows, rows).events, req.clocks.publish)
  }

  function MoveOneEvents(site: Site, rows: Rows, existing: Record, u: Call, id: int, m: Machine): seq<Events.Event>
    requires u.Update? && m.name in u.body
  {
    var target := u.body[m.name];
    if target == CurrentState(existing, m.name) || !target.Str? then []
    else Announced(site.cfg, Request(u.table, id, m.name, target.s, u.user, u.clocks(m.name)), rows)
  }

  /** What the chain announces before it ends or stops. */
  function MoveAllEvents(site: Site, rows: Rows, existing: Record, u: Call, id: int, ms: seq<Machine>)
    : seq<Events.Event>
    requires u.Update? && forall m :: m in ms ==> m.name in u.body
  {
    if ms == [] then []
    else
      var front, last := ms[..|ms| - 1], ms[|ms| - 1];
      var (moved, failed) := MoveAll(site, rows, existing, u, id, front);
      MoveAllEvents(site, rows, existing, u, id, front) +
      if failed.Some? then [] else MoveOneEvents(site, moved, existing, u, id, last)
  }

  lemma {:induction false} TouchedAreInBody(ms: seq<Machine>, body: Record)
    ensures forall m :: m in Touched(ms, body) <==> m in ms && m.name in body
  {
    if ms != [] {
      TouchedAreInBody(ms[..|ms| - 1], body);
      assert forall m :: m in ms <==> m in ms[..|ms| - 1] || m == ms[|ms| - 1];
    }
  }

  /** The body the ownership rule leaves. */
  function OwnerStripped(site: Site, table: string, body: Record): Record {
    var filter := Configured(site.ownershipFilter, table);
    if filter.Some? then body - {filter.value} else body
  }

  function UpdateStep(site: Site, rows: Rows, u: Call): (Rows, Answer<Record>)
    requires u.Update?
  {
    var id := Resolve(site, rows, u.table, u.target);
    var existing := RowOf(rows, u.table, id);
    if !site.hooks.mayWrite(u.table, u.body, u.user) then (rows, Failure(ScopeDenied("")))
    else if Present(existing) && Foreign(site, u.table, existing.value, u.user) then (rows, Failure(RecordNotFound))
    else
      var stripped := Update(u.table, u.target, OwnerStripped(site, u.table, u.body), u.user, u.clocks);
      if Present(existing) && u.table in site.cfg.machines then
        var ms := site.cfg.machines[u.table];
        TouchedAreInBody(ms, stripped.body);
        var (moved, failed) := MoveAll(site, rows, existing.value, stripped, id.value, Touched(ms, stripped.body));
        if failed.Some? then (moved, Failure(failed.value))
        else Persist(site, moved, u.table, id, existing, stripped.body - MachineNames(ms))
      else Persist(site, rows, u.table, id, existing, stripped.body)
  }

  /** What the state machines announce during an update, whether it fails later or not. */
  function UpdateEvents(site: Site, rows: Rows, u: Call): seq<Events.Event>
    requires u.Update?
  {
    var id := Resolve(site, rows, u.table, u.target);
    var existing := RowOf(rows, u.table, id);
    if !site.hooks.mayWrite(u.table, u.body, u.user) || !Present(existing) || u.table !in site.cfg.machines
       || Foreign(site, u.table, existing.value, u.user) then []
    else
      var stripped := Update(u.table, u.target, OwnerStripped(site, u.table, u.body), u.user, u.clocks);
      var ms := site.cfg.machines[u.table];
      TouchedAreInBody(ms, stripped.body);
      MoveAllEvents(site, rows, existing.value, stripped, id.value, Touched(ms, stripped.body))
  }

  /** Validation of the merged view, and then the write or the read-back. */
  function Persist(site: Site, rows: Rows, table: string, id: Option<int>, existing: Option<Record>, body: Record)
    : (Rows, Answer<Record>)
  {
    var merged := if Present(existing) then existing.value + body else body;
    if site.hooks.dependent(table, merged).None? then (rows, Failure(Invalid))
    else if id.None? then (rows, Failure(RecordNotFound))
    else
      var key := Key(table, id.value);
      if body == map[] then (rows, if key in rows then Success(rows[key]) else Failure(RecordNotFound))
      else
        match site.hooks.updateFails(rows, key, body)
        case Some(e) => (rows, Failure(e))
        case None =>
          if key in rows then (rows[key := rows[key] + body], Success(rows[key] + body))
          else (rows, Failure(RecordNotFound))
  }

  // ------------------------------------------------------------ delete and transition

  /** The addressed row is there, is not somebody else's, and storage lets it go. */
  predicate MayDelete(site: Site, rows: Rows, table: string, id: Option<int>, user: User) {
    && id.Some? && Key(table, id.value) in rows
    && !Foreign(site, table, rows[Key(table, id.value)], user)
    && site.hooks.deleteFails(rows, Key(table, id.value)).None?
  }

  /** What a delete of `key` removes. */
  function Taken(site: Site, rows: Rows, key: Key): set<Key> {
    {key} + site.hooks.cascade(rows, key)
  }

  function DeleteStep(site: Site, rows: Rows, table: string, target: Target, user: User): (Rows, Answer<Record>) {
    match Resolve(site, rows, table, target)
    case None => (rows, Failure(RecordNotFound))
    case Some(id) =>
      var key := Key(table, id);
      var row := RowOf(rows, table, Some(id));
      if Configured(site.ownershipFilter, table).Some? && (row.None? || Foreign(site, table, row.value, user)) then
        (rows, Failure(RecordNotFound))
      else
        match site.hooks.deleteFails(rows, key)
        case Some(e) => (rows, Failure(e))
        case None =>
          if key !in rows then (rows, Failure(RecordNotFound))
          else (rows - Taken(site, rows, key), Success(map["deleted" := Bool(true)]))
  }

  /** The transition a move request asks for; the first machine when it names none. */
  function AskedTransition(site: Site, rows: Rows, c: Call): Answer<Request>
    requires c.Move?
  {
    var id := Resolve(site, rows, c.table, c.target);
    var ms := MachinesOf(site.cfg, c.table);
    if !Present(RowOf(rows, c.table, id)) then Failure(RecordNotFound)
    else if c.machine.None? && ms == [] then Failure(BadRequest)
    else
      var machine := if c.machine.Some? then c.machine.value else ms[0].name;
      Success(Request(c.table, id.value, machine, c.to, c.user, c.clocks(machine)))
  }

  function MoveStep(site: Site, rows: Rows, c: Call): (Rows, Answer<Record>)
    requires c.Move?
  {
    match AskedTransition(site, rows, c)
    case Failure(e) => (rows, Failure(e))
    case Success(req) => (Transition(site.cfg, req, rows, rows).rows, Transition(site.cfg, req, rows, rows).result)
  }

  function Handle(site: Site, rows: Rows, c: Call): (Rows, Answer<Record>) {
    match c
    case Create(table, id, body, user) => CreateStep(site, rows, table, id, body, user)
    case Update(_, _, _, _, _) => UpdateStep(site, rows, c)
    case Delete(table, target, user) => DeleteStep(site, rows, table, target, user)
    case Move(_, _, _, _, _, _) => MoveStep(site, rows, c)
  }

  // ------------------------------------------------------------ the handlers

  /** `create_content_handler`; `id` is the key storage assigns. */
  method CreateContent(store: Store, site: Site, table: string, id: int, body: Record, user: User)
    returns (r: Answer<Record>)
    modifies store
    ensures (store.rows, r) == CreateStep(site, old(store.rows), table, id, body, user)
    ensures store.rows == if r.Success? then old(store.rows)[Key(table, id) := r.value] else old(store.rows)
  {
    if site.hooks.boundaryDenies(table, user) {
      return Failure(ScopeDenied(""));
    }
    var data := body;
    if site.seeds {
      data := data - MachineNames(MachinesOf(site.cfg, table));
    }
    var owner := Configured(site.ownerField, table);
    if owner.Some? {
      data := data[owner.value := Str(user.principal.id)];
    }
    data := site.hooks.defaults(table, data, user) + data;
    if !site.hooks.valid(table, data) {
      return Failure(Invalid);
    }
    var checked := site.hooks.dependent(table, data);
    if checked.None? {
      return Failure(Invalid);
    }
    data := Restrict(checked.value, KnownFields(site, table));
    var failed := site.hooks.createFails(store.rows, table, data);
    if failed.Some? {
      return Failure(failed.value);
    }
    var record := InitialStates(MachinesOf(site.cfg, table)) + data;
    store.rows := store.rows[Key(table, id) := record];
    return Success(record);
  }

  /** `update_content_handler` */
  method UpdateContent(store: Store, site: Site, u: Call, bus: Events.EventBus?) returns (r: Answer<Record>)
    requires u.Update? && (bus != null ==> bus.Valid() && store !in bus.Queues() + {bus})
    modifies store, bus, if bus == null then {} else bus.Queues()
    ensures (store.rows, r) == UpdateStep(site, old(store.rows), u)
    ensures bus != null ==>
              && bus.Valid() && bus.subscribers == old(bus.subscribers)
              && bus.published == old(bus.published) + UpdateEvents(site, old(store.rows), u)
  {
    if !site.hooks.mayWrite(u.table, u.body, u.user) {
      return Failure(ScopeDenied(""));
    }
    var id := Resolve(site, store.rows, u.table, u.target);
    var existing := RowOf(store.rows, u.table, id);
    if Present(existing) && Foreign(site, u.table, existing.value, u.user) {
      return Failure(RecordNotFound);
    }
    var stripped := Update(u.table, u.target, OwnerStripped(site, u.table, u.body), u.user, u.clocks);
    var body := stripped.body;
    if Present(existing) && u.table in site.cfg.machines {
      var ms := site.cfg.machines[u.table];
      var failed := MoveTouched(store, site, existing.value, stripped, id.value, ms, bus);
      if failed.Some? {
        return Failure(failed.value);
      }
      body := body - MachineNames(ms);
    }
    r := WriteBack(store, site, u.table, id, existing, body);
  }

  /** The loop over the touched machines. */
  method MoveTouched(store: Store, site: Site, existing: Record, u: Call, id: int, ms: seq<Machine>,
                     bus: Events.EventBus?)
    returns (failed: Option<Error>)
    requires u.Update? && (bus != null ==> bus.Valid() && store !in bus.Queues() + {bus})
    modifies store, bus, if bus == null then {} else bus.Queues()
    ensures forall m :: m in Touched(ms, u.body) ==> m.name in u.body
    ensures (store.rows, failed) == MoveAll(site, old(store.rows), existing, u, id, Touched(ms, u.body))
    ensures bus != null ==>
              && bus.Valid() && bus.subscribers == old(bus.subscribers)
              && bus.published == old(bus.published) +
                                  MoveAllEvents(site, old(store.rows), existing, u, id, Touched(ms, u.body))
  {
    hide MoveOne, MoveOneEvents;
    TouchedAreInBody(ms, u.body);
    var touched := Touched(ms, u.body);
    ghost var start, log := store.rows, if bus == null then [] else bus.published;
    ghost var log0 := log;
    var i := 0;
    while i < |touched|
      invariant 0 <= i <= |touched|
      invariant MoveAll(site, start, existing, u, id, touched[..i]) == (store.rows, None)
      invariant log == log0 + MoveAllEvents(site, start, existing, u, id, touched[..i])
      invariant bus != null ==>
                  bus.Valid() && bus.subscribers == old(bus.subscribers) && bus.published == log
    {
      ChainStep(site, start, existing, u, id, touched, i, log0);
      log := log + MoveOneEvents(site, store.rows, existing, u, id, touched[i]);
      failed := MoveMachine(store, site, existing, u, id, touched[i], bus);
      i := i + 1;
      if failed.Some? {
        MoveAllStops(site, start, existing, u, id, touched, i);
        return;
      }
    }
    assert touched[..i] == touched;
    return None;
  }

  /** One more machine of the chain. */
  lemma ChainStep(site: Site, rows: Rows, existing: Record, u: Call, id: int, ms: seq<Machine>, k: nat,
                  log: seq<Events.Event>)
    requires u.Update? && k < |ms| && (forall m :: m in ms ==> m.name in u.body)
    requires MoveAll(site, rows, existing, u, id, ms[..k]).1.None?
    ensures var now := MoveAll(site, rows, existing, u, id, ms[..k]).0;
            && MoveAll(site, rows, existing, u, id, ms[..k + 1]) == MoveOne(site, now, existing, u, id, ms[k])
            && log + MoveAllEvents(site, rows, existing, u, id, ms[..k + 1])
               == log + MoveAllEvents(site, rows, existing, u, id, ms[..k])
                  + MoveOneEvents(site, now, existing, u, id, ms[k])
  {
    assert ms[..k + 1][..k] == ms[..k];
  }

  method MoveMachine(store: Store, site: Site, existing: Record, u: Call, id: int, m: Machine, bus: Events.EventBus?)
    returns (failed: Option<Error>)
    requires u.Update? && m.name in u.body && (bus != null ==> bus.Valid() && store !in bus.Queues() + {bus})
    modifies store, bus, if bus == null then {} else bus.Queues()
    ensures (store.rows, failed) == MoveOne(site, old(store.rows), existing, u, id, m)
    ensures bus != null ==>
              && bus.Valid() && bus.subscribers == old(bus.subscribers)
              && bus.published == old(bus.published) + MoveOneEvents(site, old(store.rows), existing, u, id, m)
  {
    var target := u.body[m.name];
    if target == CurrentState(existing, m.name) {
      return None;
    }
    if !target.Str? {
      return Some(Conflict(CurrentState(existing, m.name)));
    }
    var req := Request(u.table, id, m.name, target.s, u.user, u.clocks(m.name));
    var o := DoStateTransition(store, site.cfg, req, bus, rows => rows);
    return if o.Failure? then Some(o.error) else None;
  }

  /** After a failure the rest of the chain does nothing. */
  lemma {:induction false} MoveAllStops(site: Site, rows: Rows, existing: Record, u: Call, id: int, ms: seq<Machine>,
                                        k: nat)
    requires u.Update? && k <= |ms| && (forall m :: m in ms ==> m.name in u.body)
    requires MoveAll(site, rows, existing, u, id, ms[..k]).1.Some?
    ensures MoveAll(site, rows, existing, u, id, ms) == MoveAll(site, rows, existing, u, id, ms[..k])
    ensures MoveAllEvents(site, rows, existing, u, id, ms) == MoveAllEvents(site, rows, existing, u, id, ms[..k])
    decreases |ms|
  {
    if k == |ms| {
      assert ms[..k] == ms;
    } else {
      var front := ms[..|ms| - 1];
      assert front[..k] == ms[..k];
      MoveAllStops(site, rows, existing, u, id, front, k);
    }
  }

  method WriteBack(store: Store, site: Site, table: string, id: Option<int>, existing: Option<Record>, body: Record)
    returns (r: Answer<Record>)
    modifies store
    ensures (store.rows, r) == Persist(site, old(store.rows), table, id, existing, body)
    ensures r.Failure? ==> store.rows == old(store.rows)
    ensures r.Success? ==>
              && id.Some? && Key(table, id.value) in old(store.rows)
              && r.value == old(store.rows)[Key(table, id.value)] + body
              && store.rows == old(store.rows)[Key(table, id.value) := r.value]
  {
    var merged := if Present(existing) then existing.value + body else body;
    var checked := site.hooks.dependent(table, merged);
    if checked.None? {
      return Failure(Invalid);
    }
    if id.None? {
      return Failure(RecordNotFound);
    }
    var key := Key(table, id.value);
    if body != map[] {
      var failed := site.hooks.updateFails(store.rows, key, body);
      if failed.Some? {
        return Failure(failed.value);
      }
      if key !in store.rows {
        return Failure(RecordNotFound);
      }
      store.rows := store.rows[key := store.rows[key] + body];
    }
    var back := store.Read(key);
    if back.None? {
      return Failure(RecordNotFound);
    }
    return Success(back.value);
  }

  /** `delete_content_handler` */
  method DeleteContent(store: Store, site: Site, table: string, target: Target, user: User) returns (r: Answer<Record>)
    modifies store
    ensures (store.rows, r) == DeleteStep(site, old(store.rows), table, target, user)
    ensures r.Success? <==> MayDelete(site, old(store.rows), table, Resolve(site, old(store.rows), table, target), user)
    ensures r.Success? ==>
              var key := Key(table, Resolve(site, old(store.rows), table, target).value);
              key !in store.rows && store.rows == old(store.rows) - {key} - site.hooks.cascade(old(store.rows), key)
    ensures r.Failure? ==> store.rows == old(store.rows)
  {
    var id := Resolve(site, store.rows, table, target);
    if id.None? {
      return Failure(RecordNotFound);
    }
    var key := Key(table, id.value);
    if Configured(site.ownershipFilter, table).Some? {
      var rec := store.Read(key);
      if rec.None? || Foreign(site, table, rec.value, user) {
        return Failure(RecordNotFound);
      }
    }
    var failed := site.hooks.deleteFails(store.rows, key);
    if failed.Some? {
      return Failure(failed.value);
    }
    if key !in store.rows {
      return Failure(RecordNotFound);
    }
    store.rows := store.rows - ({key} + site.hooks.cascade(store.rows, key));
    return Success(map["deleted" := Bool(true)]);
  }

  /** `transition_content_handler` */
  method TransitionContent(store: Store, site: Site, c: Call, bus: Events.EventBus?) returns (r: Answer<Record>)
    requires c.Move? && (bus != null ==> bus.Valid() && store !in bus.Queues() + {bus})
    modifies store, bus, if bus == null then {} else bus.Queues()
    ensures (store.rows, r) == MoveStep(site, old(store.rows), c)
    ensures r.Failure? ==> store.rows == old(store.rows)
    ensures r.Success? ==>
              var key := Key(c.table, Resolve(site, old(store.rows), c.table, c.target).value);
              key in old(store.rows) && store.rows == old(store.rows)[key := r.value]
    ensures bus != null ==>
              && bus.Valid() && bus.subscribers == old(bus.subscribers)
              && var asked := AskedTransition(site, old(store.rows), c);
              bus.published == old(bus.published) +
                               if asked.Failure? then [] else Announced(site.cfg, asked.value, old(store.rows))
  {
    var id := Resolve(site, store.rows, c.table, c.target);
    if !Present(RowOf(store.rows, c.table, id)) {
      return Failure(RecordNotFound);
    }
    var ms := MachinesOf(site.cfg, c.table);
    if c.machine.None? && ms == [] {
      return Failure(BadRequest);
    }
    var machine := if c.machine.Some? then c.machine.value else ms[0].name;
    r := DoStateTransition(store, site.cfg, Request(c.table, id.value, machine, c.to, c.user, c.clocks(machine)),
                           bus, rows => rows);
  }
}
