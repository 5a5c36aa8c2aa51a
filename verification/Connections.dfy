/** Channel names and the ownership filter (termin_core/routing/connection_manager.py, channel_dispatch.py). */
module Channels {
  import opened Basics

  datatype User = NotWired | User(anonymous: bool, id: string)

  /** `_principal_id_of` */
  function PrincipalId(u: User): string {
    if u.NotWired? || u.anonymous then "" else u.id
  }

  /** `str.split(".")` */
  function Split(s: string): (parts: seq<string>)
    ensures |parts| >= 1
  {
    if s == "" then [""]
    else
      var rest := Split(s[1..]);
      if s[0] == '.' then [""] + rest else [[s[0]] + rest[0]] + rest[1..]
  }

  function Join(parts: seq<string>): string
    requires |parts| >= 1
  {
    if |parts| == 1 then parts[0] else parts[0] + "." + Join(parts[1..])
  }

  lemma {:induction false} SplitRoundTrip(s: string)
    ensures Join(Split(s)) == s
    ensures forall p :: p in Split(s) ==> '.' !in p
  {
    if s != "" {
      SplitRoundTrip(s[1..]);
      var rest := Split(s[1..]);
      assert s == [s[0]] + s[1..];
      if s[0] == '.' {
        assert ([""] + rest)[1..] == rest;
      } else {
        assert Split(s)[1..] == rest[1..];
      }
    }
  }

  /** `_content_name_from_channel_id`, as the registry reads a channel. */
  function ContentNameInRegistry(ch: string): Option<string> {
    if !StartsWith(ch, "content.") then None
    else if |Split(ch)| < 2 then None
    else Some(Split(ch)[1])
  }

  /** `_content_name_from_channel`, as the session loop reads it. */
  function ContentName(ch: string): Option<string> {
    var parts := Split(ch);
    if |parts| >= 2 && parts[0] == "content" then Some(parts[1]) else None
  }

  lemma {:induction false} FirstPart(s: string)
    ensures var p := Split(s)[0];
            && '.' !in p
            && |p| <= |s| && s[..|p|] == p
            && (|Split(s)| == 1 <==> |p| == |s|)
            && (|p| < |s| ==> s[|p|] == '.')
  {
    if s != "" && s[0] != '.' {
      FirstPart(s[1..]);
    }
  }

  lemma ContentChannels(ch: string)
    ensures StartsWith(ch, "content.") <==> |Split(ch)| >= 2 && Split(ch)[0] == "content"
  {
    FirstPart(ch);
    var p := Split(ch)[0];
    if StartsWith(ch, "content.") {
      var word := "content.";
      assert forall k :: 0 <= k < 8 ==> ch[k] == ch[..8][k] == word[k];
      assert word[7] == '.' && forall k :: 0 <= k < 7 ==> word[k] != '.';
      assert forall k :: 0 <= k < |p| ==> p[k] == ch[k] && p[k] in p;
      assert |p| == 7;
      assert word[..7] == "content";
      assert forall k :: 0 <= k < 7 ==> p[k] == word[..7][k];
      assert p == word[..7];
    }
    if |Split(ch)| >= 2 && p == "content" {
      assert ch[..8] == p + [ch[7]];
    }
  }

  /** The two parsers, written separately, agree on every string. */
  lemma ParsersAgree(ch: string)
    ensures ContentNameInRegistry(ch) == ContentName(ch)
  {
    ContentChannels(ch);
  }

  // ------------------------------------------------------------ rows a user owns

  /** `[r for r in rows if r.get(field) == pid]` */
  function OwnedBy(rows: seq<Record>, field: string, pid: string): seq<Record> {
    if rows == [] then []
    else
      var front, last := OwnedBy(rows[..|rows| - 1], field, pid), rows[|rows| - 1];
      if Get(last, field) == Str(pid) then front + [last] else front
  }

  function RowsFor(rows: seq<Record>, field: Option<string>, user: User): seq<Record> {
    if field.None? || field.value == "" then rows
    else if PrincipalId(user) == "" then []
    else OwnedBy(rows, field.value, PrincipalId(user))
  }

  /** `filter_owned_rows` */
  method FilterOwnedRows(rows: seq<Record>, field: Option<string>, user: User) returns (kept: seq<Record>)
    ensures kept == RowsFor(rows, field, user)
  {
    if field.None? || field.value == "" {
      return rows;
    }
    var pid := PrincipalId(user);
    if pid == "" {
      return [];
    }
    kept := [];
    var i := 0;
    while i < |rows|
      invariant 0 <= i <= |rows|
      invariant kept == OwnedBy(rows[..i], field.value, pid)
    {
      assert rows[..i + 1][..i] == rows[..i];
      if Get(rows[i], field.value) == Str(pid) {
        kept := kept + [rows[i]];
      }
      i := i + 1;
    }
    assert rows[..i] == rows;
  }

  /** Exactly the user's own rows come through, each as often as it was there. */
  lemma {:induction false} OwnedByKeepsExactlyTheOwned(rows: seq<Record>, field: string, pid: string, r: Record)
    ensures multiset(OwnedBy(rows, field, pid))[r] ==
            if Get(r, field) == Str(pid) then multiset(rows)[r] else 0
  {
    if rows != [] {
      OwnedByKeepsExactlyTheOwned(rows[..|rows| - 1], field, pid, r);
      assert rows == rows[..|rows| - 1] + [rows[|rows| - 1]];
    }
  }
}

/** The connection registry, the fan-out and the session loop. */
module Connections {
  import opened Basics
  import opened Channels

  /** An event's `data` or `record`: missing or falsy, a dictionary, or something else. */
  datatype Payload = NoPayload | Fields(r: Record) | Opaque(what: string)

  datatype Event = Event(data: Payload, record: Payload)

  /** What a push carries: the data, or the record, or the event itself. */
  datatype Body = Carried(p: Payload) | WholeEvent(e: Event)

  datatype Frame =
    | Identity(user: User)
    | Push(ch: string, body: Body)
    | Current(ch: string, ref: string, rows: seq<Record>)
    | Data(ch: string, ref: string, rows: seq<Record>)
    | Unsubscribed(ch: string, ref: string)
    | LoadError(ch: string, ref: string)

  datatype Inbound =
    | Subscribe(ch: string, ref: string)
    | Unsubscribe(ch: string, ref: string)
    | Request(ch: string, ref: string)
    | UnknownOp

  datatype Conn = Conn(user: User, subscriptions: set<string>)

  /** What one socket has been sent, and whose it is. */
  datatype Session = Session(user: User, frames: seq<Frame>)

  /** `active` is the registry; `sessions` remembers every socket ever connected. */
  datatype State = State(active: map<string, Conn>, sessions: map<string, Session>) {
    ghost predicate Valid() {
      forall id :: id in active ==> id in sessions && sessions[id].user == active[id].user
    }
  }

  type Ownership = map<string, string>

  /** Storage as the loop sees it: the rows of a content type, or an exception. */
  type Loader = string -> Option<seq<Record>>

  // ------------------------------------------------------------ the gate

  /** The column that owns the rows of this channel, when there is one. */
  function OwnerField(own: Ownership, name: Option<string>): Option<string> {
    if name.None? || name.value == "" || name.value !in own || own[name.value] == "" then None
    else Some(own[name.value])
  }

  /** An empty dictionary is as good as none. */
  predicate Missing(p: Payload) {
    p.NoPayload? || p == Fields(map[])
  }

  function PayloadOf(e: Event): Payload {
    if Missing(e.data) then e.record else e.data
  }

  function BodyOf(e: Event): Body {
    if Missing(PayloadOf(e)) then WholeEvent(e) else Carried(PayloadOf(e))
  }

  /** `_should_deliver_to` */
  predicate ShouldDeliver(own: Ownership, user: User, ch: string, e: Event) {
    var field := OwnerField(own, ContentNameInRegistry(ch));
    field.Some? ==>
      && PayloadOf(e).Fields?
      && Get(PayloadOf(e).r, field.value) != Null
      && Get(PayloadOf(e).r, field.value) == Str(PrincipalId(user))
  }

  ghost predicate Receives(own: Ownership, c: Conn, ch: string, e: Event) {
    (exists p :: p in c.subscriptions && StartsWith(ch, p)) && ShouldDeliver(own, c.user, ch, e)
  }

  // ------------------------------------------------------------ steps of a run

  datatype Action =
    | Connect(id: string, user: User)
    | Receive(id: string, frame: Inbound, load: Loader)
    | Broadcast(ch: string, e: Event, fails: set<string>)
    | Disconnect(id: string)

  function Send(s: State, id: string, f: Frame): State
    requires id in s.sessions
  {
    s.(sessions := s.sessions[id := Session(s.sessions[id].user, s.sessions[id].frames + [f])])
  }

  function WithSubscriptions(s: State, id: string, subs: set<string>): State
    requires id in s.active
  {
    s.(active := s.active[id := Conn(s.active[id].user, subs)])
  }

  function Subscribed(s: State, id: string, ch: string): State {
    if id in s.active then WithSubscriptions(s, id, s.active[id].subscriptions + {ch}) else s
  }

  function WithoutSubscription(s: State, id: string, ch: string): State {
    if id in s.active then WithSubscriptions(s, id, s.active[id].subscriptions - {ch}) else s
  }

  /** What the loop answers to one frame, if anything. */
  function Answer(own: Ownership, user: User, f: Inbound, load: Loader): Option<Frame> {
    match f
    case UnknownOp => None
    case Unsubscribe(ch, ref) => Some(Unsubscribed(ch, ref))
    case Subscribe(ch, ref) =>
      var name := ContentName(ch);
      if name.None? || name.value == "" then Some(Current(ch, ref, []))
      else
        (match load(name.value)
         case None => Some(LoadError(ch, ref))
         case Some(rows) => Some(Current(ch, ref, RowsFor(rows, Lookup(own, name.value), user))))
    case Request(ch, ref) =>
      var name := ContentName(ch);
      if name.None? || name.value == "" then None
      else
        match load(name.value)
        case None => Some(LoadError(ch, ref))
        case Some(rows) => Some(Data(ch, ref, RowsFor(rows, Lookup(own, name.value), user)))
  }

  function Registered(s: State, id: string, f: Inbound): State {
    match f
    case Subscribe(ch, _) => Subscribed(s, id, ch)
    case Unsubscribe(ch, _) => WithoutSubscription(s, id, ch)
    case _ => s
  }

  function Handled(own: Ownership, s: State, id: string, f: Inbound, load: Loader): State
    requires id in s.sessions
  {
    var t := Registered(s, id, f);
    match Answer(own, s.sessions[id].user, f, load)
    case None => t
    case Some(a) => Send(t, id, a)
  }

  /** Every receiving connection gets one frame, unless its send fails, and then it is dropped. */
  ghost function Broadcasted(own: Ownership, s: State, ch: string, e: Event, fails: set<string>): State
    requires s.Valid()
  {
    State(map id | id in s.active && !(Receives(own, s.active[id], ch, e) && id in fails) :: s.active[id],
          map id | id in s.sessions ::
            if id in s.active && Receives(own, s.active[id], ch, e) && id !in fails
            then Session(s.sessions[id].user, s.sessions[id].frames + [Push(ch, BodyOf(e))])
            else s.sessions[id])
  }

  /** The socket logs once the connections in `done` have been served. */
  ghost function SentTo(own: Ownership, s: State, ch: string, e: Event, fails: set<string>, done: set<string>)
    : map<string, Session>
  {
    map id | id in s.sessions ::
      if id in done && id in s.active && Receives(own, s.active[id], ch, e) && id !in fails
      then Session(s.sessions[id].user, s.sessions[id].frames + [Push(ch, BodyOf(e))])
      else s.sessions[id]
  }

  /** The connections in `done` whose send raised. */
  ghost function Lost(own: Ownership, s: State, ch: string, e: Event, fails: set<string>, done: set<string>)
    : set<string>
  {
    set id | id in s.active && id in done && Receives(own, s.active[id], ch, e) && id in fails
  }

  lemma ServeOneMore(own: Ownership, s: State, ch: string, e: Event, fails: set<string>, done: set<string>, id: string)
    requires s.Valid() && id in s.active && id !in done
    ensures var hit, sent := Receives(own, s.active[id], ch, e), SentTo(own, s, ch, e, fails, done);
            && Lost(own, s, ch, e, fails, done + {id}) ==
               Lost(own, s, ch, e, fails, done) + (if hit && id in fails then {id} else {})
            && SentTo(own, s, ch, e, fails, done + {id}) ==
               (if hit && id !in fails then sent[id := Session(sent[id].user, sent[id].frames + [Push(ch, BodyOf(e))])]
                else sent)
  {
  }

  lemma AllServed(own: Ownership, s: State, ch: string, e: Event, fails: set<string>)
    requires s.Valid()
    ensures Broadcasted(own, s, ch, e, fails) ==
            State(s.active - Lost(own, s, ch, e, fails, s.active.Keys), SentTo(own, s, ch, e, fails, s.active.Keys))
  {
  }

  function Connected(s: State, id: string, user: User): State {
    State(s.active[id := Conn(user, {})], s.sessions[id := Session(user, [Identity(user)])])
  }

  ghost predicate Possible(s: State, a: Action) {
    match a
    case Connect(id, _) => id !in s.sessions
    case Receive(id, _, _) => id in s.sessions
    case _ => true
  }

  ghost function Apply(own: Ownership, s: State, a: Action): (t: State)
    requires s.Valid() && Possible(s, a)
    ensures t.Valid()
  {
    match a
    case Connect(id, user) => Connected(s, id, user)
    case Receive(id, f, load) => Handled(own, s, id, f, load)
    case Broadcast(ch, e, fails) => Broadcasted(own, s, ch, e, fails)
    case Disconnect(id) => s.(active := s.active - {id})
  }

  // ------------------------------------------------------------ the registry object

  class ConnectionManager {
    var active: map<string, Conn>
    var ownership: Ownership
    /** Every frame handed to each socket. */
    ghost var sessions: map<string, Session>

    ghost function Now(): State
      reads this
    {
      State(active, sessions)
    }

    constructor ()
      ensures Now() == State(map[], map[]) && ownership == map[]
    {
      active := map[];
      ownership := map[];
      sessions := map[];
    }

    method SetContentOwnership(mapping: Ownership)
      modifies this`ownership
      ensures ownership == mapping
    {
      ownership := mapping;
    }

    /** The registry part of `connect` and the identity frame that follows it. */
    method Connect(id: string, user: User)
      requires id !in sessions
      modifies this`active, this`sessions
      ensures Now() == Connected(old(Now()), id, user)
    {
      active := active[id := Conn(user, {})];
      sessions := sessions[id := Session(user, [Identity(user)])];
    }

    method Disconnect(id: string)
      modifies this`active
      ensures active == old(active) - {id}
    {
      active := active - {id};
    }

    method AddSubscription(id: string, ch: string)
      modifies this`active
      ensures Now() == Subscribed(old(Now()), id, ch)
    {
      if id in active {
        active := active[id := Conn(active[id].user, active[id].subscriptions + {ch})];
      }
    }

    method RemoveSubscription(id: string, ch: string)
      modifies this`active
      ensures Now() == WithoutSubscription(old(Now()), id, ch)
    {
      if id in active {
        active := active[id := Conn(active[id].user, active[id].subscriptions - {ch})];
      }
    }

    /** `broadcast_to_subscribers`; `fails` are the connections whose send raises. */
    method BroadcastToSubscribers(ch: string, e: Event, fails: set<string>)
      requires Now().Valid()
      modifies this`active, this`sessions
      ensures Now() == Broadcasted(ownership, old(Now()), ch, e, fails)
    {
      var dead := PushAll(ch, e, fails);
      DropAll(dead);
      AllServed(ownership, old(Now()), ch, e, fails);
    }

    /** The loop over the connections; the answer is the list of dead ones. */
    method PushAll(ch: string, e: Event, fails: set<string>) returns (dead: set<string>)
      requires Now().Valid()
      modifies this`sessions
      ensures dead == Lost(ownership, old(Now()), ch, e, fails, active.Keys)
      ensures sessions == SentTo(ownership, old(Now()), ch, e, fails, active.Keys)
    {
      ghost var before := Now();
      dead := {};
      var todo := active.Keys;
      while todo != {}
        invariant todo <= active.Keys
        invariant dead == Lost(ownership, before, ch, e, fails, active.Keys - todo)
        invariant sessions == SentTo(ownership, before, ch, e, fails, active.Keys - todo)
        decreases |todo|
      {
        var id :| id in todo;
        ServeOneMore(ownership, before, ch, e, fails, active.Keys - todo, id);
        assert active.Keys - (todo - {id}) == (active.Keys - todo) + {id};
        todo := todo - {id};
        var hit := MatchAndGate(active[id], ch, e);
        if hit {
          if id in fails {
            dead := dead + {id};
          } else {
            sessions := sessions[id := Session(sessions[id].user, sessions[id].frames + [Push(ch, BodyOf(e))])];
          }
        }
      }
      assert active.Keys - todo == active.Keys;
    }

    /** The inner loop: the first matching pattern decides, in whatever order the set yields them. */
    method MatchAndGate(conn: Conn, ch: string, e: Event) returns (hit: bool)
      ensures hit <==> Receives(ownership, conn, ch, e)
    {
      var patterns := conn.subscriptions;
      while patterns != {}
        invariant patterns <= conn.subscriptions
        invariant forall p :: p in conn.subscriptions && p !in patterns ==> !StartsWith(ch, p)
        decreases |patterns|
      {
        var p :| p in patterns;
        patterns := patterns - {p};
        if StartsWith(ch, p) {
          return ShouldDeliver(ownership, conn.user, ch, e);
        }
      }
      return false;
    }

    /** `for conn_id in dead: self.disconnect(conn_id)` */
    method DropAll(dead: set<string>)
      modifies this`active
      ensures active == old(active) - dead
    {
      var todo := dead;
      while todo != {}
        invariant todo <= dead && active == old(active) - (dead - todo)
        decreases |todo|
      {
        var id :| id in todo;
        todo := todo - {id};
        Disconnect(id);
      }
    }

    /** One turn of the session loop. */
    method HandleFrame(id: string, user: User, f: Inbound, load: Loader)
      requires id in sessions && sessions[id].user == user
      modifies this`active, this`sessions
      ensures Now() == Handled(ownership, old(Now()), id, f, load)
    {
      match f
      case UnknownOp =>
      case Unsubscribe(ch, ref) =>
        RemoveSubscription(id, ch);
        SendFrame(id, Unsubscribed(ch, ref));
      case Subscribe(ch, ref) =>
        AddSubscription(id, ch);
        var name := ContentName(ch);
        if name.Some? && name.value != "" {
          var rows := LoadInitialRows(name.value, user, load);
          if rows.Some? {
            SendFrame(id, Current(ch, ref, rows.value));
          } else {
            SendFrame(id, LoadError(ch, ref));
          }
        } else {
          SendFrame(id, Current(ch, ref, []));
        }
      case Request(ch, ref) =>
        var name := ContentName(ch);
        if name.Some? && name.value != "" {
          var rows := LoadInitialRows(name.value, user, load);
          if rows.Some? {
            SendFrame(id, Data(ch, ref, rows.value));
          } else {
            SendFrame(id, LoadError(ch, ref));
          }
        }
    }

    /** `_load_initial_rows` */
    method LoadInitialRows(name: string, user: User, load: Loader) returns (rows: Option<seq<Record>>)
      ensures rows == match load(name) case None => None
                                       case Some(all) => Some(RowsFor(all, Lookup(ownership, name), user))
    {
      var all := load(name);
      if all.None? {
        return None;
      }
      var kept := FilterOwnedRows(all.value, Lookup(ownership, name), user);
      return Some(kept);
    }

    method SendFrame(id: string, f: Frame)
      requires id in sessions
      modifies this`sessions
      ensures Now() == Send(old(Now()), id, f)
    {
      sessions := sessions[id := Session(sessions[id].user, sessions[id].frames + [f])];
    }

    /** `dispatch_websocket_session` for a client that sends `inbox` and leaves. */
    method DispatchSession(id: string, user: User, inbox: seq<Inbound>, load: Loader)
      requires Now().Valid() && id !in sessions
      modifies this`active, this`sessions
      ensures Now() == AfterFrames(ownership, Connected(old(Now()), id, user), id, inbox, load)
    {
      Connect(id, user);
      ghost var start := Now();
      var i := 0;
      while i < |inbox|
        invariant 0 <= i <= |inbox|
        invariant id in sessions && sessions[id].user == user
        invariant Now() == AfterFrames(ownership, start, id, inbox[..i], load)
      {
        assert inbox[..i + 1][..i] == inbox[..i];
        HandleFrame(id, user, inbox[i], load);
        i := i + 1;
      }
      assert inbox[..i] == inbox;
    }
  }

  function AfterFrames(own: Ownership, s: State, id: string, inbox: seq<Inbound>, load: Loader): (t: State)
    requires id in s.sessions
    ensures id in t.sessions && t.sessions[id].user == s.sessions[id].user
  {
    if inbox == [] then s
    else
      var before := AfterFrames(own, s, id, inbox[..|inbox| - 1], load);
      Handled(own, before, id, inbox[|inbox| - 1], load)
  }
}

/** What holds over every run of the registry. */
module ConnectionLaws {
  import opened Basics
  import opened Channels
  import opened Connections

  ghost predicate IsHistory(own: Ownership, s: State, run: seq<Action>)
    requires s.Valid()
    decreases |run|
  {
    run == [] || (Possible(s, run[0]) && IsHistory(own, Apply(own, s, run[0]), run[1..]))
  }

  ghost function After(own: Ownership, s: State, run: seq<Action>): (t: State)
    requires s.Valid() && IsHistory(own, s, run)
    ensures t.Valid()
    decreases |run|
  {
    if run == [] then s else After(own, Apply(own, s, run[0]), run[1..])
  }

  const NOBODY: State := State(map[], map[])

  // ------------------------------------------------------------ safety

  predicate Owns(pid: string, field: string, r: Record) {
    Get(r, field) == Str(pid)
  }

  /** A frame on an owned channel carries only rows of the receiver; loaded rows never go to the empty id. */
  ghost predicate SafeFrame(own: Ownership, user: User, f: Frame) {
    match f
    case Push(ch, body) =>
      var field := OwnerField(own, ContentName(ch));
      field.Some? ==> body.Carried? && body.p.Fields? && Owns(PrincipalId(user), field.value, body.p.r)
    case Current(ch, _, rows) => SafeRows(own, user, ch, rows)
    case Data(ch, _, rows) => SafeRows(own, user, ch, rows)
    case _ => true
  }

  ghost predicate SafeRows(own: Ownership, user: User, ch: string, rows: seq<Record>) {
    var field := OwnerField(own, ContentName(ch));
    field.Some? ==> forall i :: 0 <= i < |rows| ==>
      PrincipalId(user) != "" && Owns(PrincipalId(user), field.value, rows[i])
  }

  ghost predicate Safe(own: Ownership, s: State) {
    forall id, i :: id in s.sessions && 0 <= i < |s.sessions[id].frames| ==>
      SafeFrame(own, s.sessions[id].user, s.sessions[id].frames[i])
  }

  lemma {:induction false} OwnedByAreOwned(rows: seq<Record>, field: string, pid: string)
    ensures forall i :: 0 <= i < |OwnedBy(rows, field, pid)| ==> Owns(pid, field, OwnedBy(rows, field, pid)[i])
  {
    if rows != [] { OwnedByAreOwned(rows[..|rows| - 1], field, pid); }
  }

  lemma AnswersAreSafe(own: Ownership, user: User, f: Inbound, load: Loader)
    ensures var a := Answer(own, user, f, load); a.Some? ==> SafeFrame(own, user, a.value)
  {
    if f.Subscribe? || f.Request? {
      var name := ContentName(f.ch);
      var field := OwnerField(own, name);
      if field.Some? && load(name.value).Some? {
        OwnedByAreOwned(load(name.value).value, field.value, PrincipalId(user));
      }
    }
  }

  lemma PushesAreSafe(own: Ownership, c: Conn, ch: string, e: Event)
    requires Receives(own, c, ch, e)
    ensures SafeFrame(own, c.user, Push(ch, BodyOf(e)))
  {
    ParsersAgree(ch);
  }

  lemma StepIsSafe(own: Ownership, s: State, a: Action)
    requires s.Valid() && Possible(s, a) && Safe(own, s)
    ensures Safe(own, Apply(own, s, a))
  {
    var t := Apply(own, s, a);
    match a
    case Connect(_, _) =>
    case Disconnect(_) =>
    case Receive(id, f, load) =>
      AnswersAreSafe(own, s.sessions[id].user, f, load);
      assert Registered(s, id, f).sessions == s.sessions;
    case Broadcast(ch, e, fails) =>
      forall id, i | id in t.sessions && 0 <= i < |t.sessions[id].frames|
        ensures SafeFrame(own, t.sessions[id].user, t.sessions[id].frames[i])
      {
        if i < |s.sessions[id].frames| {
          assert t.sessions[id].frames[i] == s.sessions[id].frames[i];
        } else {
          PushesAreSafe(own, s.active[id], ch, e);
        }
      }
  }

  /** Over any run, every pushed or loaded row of owned content carries the receiver's principal id. */
  lemma {:induction false} RunsAreSafe(own: Ownership, s: State, run: seq<Action>)
    requires s.Valid() && IsHistory(own, s, run) && Safe(own, s)
    ensures Safe(own, After(own, s, run))
    decreases |run|
  {
    if run != [] {
      StepIsSafe(own, s, run[0]);
      RunsAreSafe(own, Apply(own, s, run[0]), run[1..]);
    }
  }

  // ------------------------------------------------------------ one connection on its own

  /** All there is to know about one connection. */
  datatype View = Unknown | View(user: User, subscriptions: Option<set<string>>, frames: seq<Frame>)

  function ViewOf(s: State, id: string): View {
    if id !in s.sessions then Unknown
    else View(s.sessions[id].user, if id in s.active then Some(s.active[id].subscriptions) else None,
              s.sessions[id].frames)
  }

  /** What an action does to one connection, told from that connection alone. */
  ghost function Seen(own: Ownership, v: View, id: string, a: Action): View {
    match a
    case Connect(other, user) => if other == id then View(user, Some({}), [Identity(user)]) else v
    case Disconnect(other) => if other == id && v.View? then View(v.user, None, v.frames) else v
    case Receive(other, f, load) =>
      if other != id || v.Unknown? then v
      else
        var answer := Answer(own, v.user, f, load);
        View(v.user,
             if v.subscriptions.None? then None
             else if f.Subscribe? then Some(v.subscriptions.value + {f.ch})
             else if f.Unsubscribe? then Some(v.subscriptions.value - {f.ch})
             else v.subscriptions,
             if answer.Some? then v.frames + [answer.value] else v.frames)
    case Broadcast(ch, e, fails) =>
      if v.Unknown? || v.subscriptions.None? || !Receives(own, Conn(v.user, v.subscriptions.value), ch, e) then v
      else if id in fails then View(v.user, None, v.frames)
      else View(v.user, v.subscriptions, v.frames + [Push(ch, BodyOf(e))])
  }

  ghost function SeenAll(own: Ownership, v: View, id: string, run: seq<Action>): View
    decreases |run|
  {
    if run == [] then v else SeenAll(own, Seen(own, v, id, run[0]), id, run[1..])
  }

  lemma StepIsSeenLocally(own: Ownership, s: State, a: Action, id: string)
    requires s.Valid() && Possible(s, a)
    ensures ViewOf(Apply(own, s, a), id) == Seen(own, ViewOf(s, id), id, a)
  {
    if a.Broadcast? && id in s.active {
      assert Conn(s.sessions[id].user, s.active[id].subscriptions) == s.active[id];
    }
  }

  /** Connections do not interfere: what one is sent over a run, and whether it stays registered, depends only on
      its own frames, the broadcasts and its own failed sends. */
  lemma {:induction false} RunsAreSeenLocally(own: Ownership, s: State, run: seq<Action>, id: string)
    requires s.Valid() && IsHistory(own, s, run)
    ensures ViewOf(After(own, s, run), id) == SeenAll(own, ViewOf(s, id), id, run)
    decreases |run|
  {
    if run != [] {
      StepIsSeenLocally(own, s, run[0], id);
      RunsAreSeenLocally(own, Apply(own, s, run[0]), run[1..], id);
    }
  }

  /** A whole session with nobody else around is a run of the registry. */
  lemma {:induction false} SessionIsARun(own: Ownership, s: State, id: string, inbox: seq<Inbound>, load: Loader)
    requires s.Valid() && id in s.sessions
    ensures var run := Received(id, inbox, load);
            && IsHistory(own, s, run)
            && After(own, s, run) == AfterFrames(own, s, id, inbox, load)
    decreases |inbox|
  {
    if inbox != [] {
      var front, last := inbox[..|inbox| - 1], inbox[|inbox| - 1];
      SessionIsARun(own, s, id, front, load);
      var run := Received(id, front, load);
      assert Received(id, inbox, load) == run + [Receive(id, last, load)];
      RunThenStep(own, s, run, Receive(id, last, load));
    }
  }

  function Received(id: string, inbox: seq<Inbound>, load: Loader): seq<Action> {
    seq(|inbox|, i requires 0 <= i < |inbox| => Receive(id, inbox[i], load))
  }

  lemma {:induction false} RunThenStep(own: Ownership, s: State, run: seq<Action>, a: Action)
    requires s.Valid() && IsHistory(own, s, run) && Possible(After(own, s, run), a)
    ensures IsHistory(own, s, run + [a]) && After(own, s, run + [a]) == Apply(own, After(own, s, run), a)
    decreases |run|
  {
    if run == [] {
      assert run + [a] == [a];
      assert [a][1..] == [];
    } else {
      RunThenStep(own, Apply(own, s, run[0]), run[1..], a);
      assert (run + [a])[1..] == run[1..] + [a];
    }
  }

  // ------------------------------------------------------------ the anonymous subscriber

  /** Loading never shows an owned row to an anonymous user; a broadcast does, exactly when the row's owner value is
      the empty string. */
  lemma AnonymousReceivesIffOwnerIsEmpty(own: Ownership, c: Conn, ch: string, e: Event, rows: seq<Record>)
    requires OwnerField(own, ContentName(ch)).Some? && PrincipalId(c.user) == ""
    requires exists p :: p in c.subscriptions && StartsWith(ch, p)
    ensures var field := OwnerField(own, ContentName(ch)).value;
            && RowsFor(rows, Some(field), c.user) == []
            && (Receives(own, c, ch, e) <==> PayloadOf(e).Fields? && Get(PayloadOf(e).r, field) == Str(""))
  {
    ParsersAgree(ch);
  }
}
