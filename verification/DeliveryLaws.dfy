/** Who is sent what, spelled out on the channel, the event and the connection
    (termin_core/routing/connection_manager.py, channel_dispatch.py). */
module DeliveryLaws {
  import opened Basics
  import opened Channels
  import opened Connections

  // ------------------------------------------------------------ channels

  lemma {:induction false} SplitAtDot(part: string, rest: string)
    requires '.' !in part
    ensures Split(part) == [part]
    ensures Split(part + "." + rest) == [part] + Split(rest)
  {
    var s := part + "." + rest;
    if part == "" {
      assert s[1..] == rest;
    } else {
      SplitAtDot(part[1..], rest);
      assert s[1..] == part[1..] + "." + rest;
      assert part == [part[0]] + part[1..];
    }
  }

  /** A channel is of a content when it is `content.` and the name, and more only after another dot. */
  ghost predicate IsChannelOf(ch: string, name: string) {
    && '.' !in name
    && (ch == "content." + name || exists rest :: ch == "content." + name + "." + rest)
  }

  lemma ContentNameIff(ch: string, name: string)
    ensures ContentName(ch) == Some(name) <==> IsChannelOf(ch, name)
  {
    if ContentName(ch) == Some(name) {
      var parts := Split(ch);
      SplitRoundTrip(ch);
      assert parts == ["content"] + parts[1..] && parts[1..][0] == name;
      assert name in parts;
      assert ch == "content" + "." + Join(parts[1..]);
      if |parts| > 2 {
        var rest := Join(parts[1..][1..]);
        assert Join(parts[1..]) == name + "." + rest;
        assert ch == "content." + name + "." + rest;
      } else {
        assert ch == "content." + name;
      }
    }
    if IsChannelOf(ch, name) {
      NameOfChannel(ch, name);
    }
  }

  lemma NameOfChannel(ch: string, name: string)
    requires IsChannelOf(ch, name)
    ensures ContentName(ch) == Some(name)
  {
    var tail := if ch == "content." + name then name else ch[8..];
    hide Split;
    if ch == "content." + name {
      SplitAtDot(name, "");
    } else {
      var rest :| ch == "content." + name + "." + rest;
      SplitAtDot(name, rest);
      assert tail == name + "." + rest;
    }
    assert ch == "content" + "." + tail;
    SplitAtDot("content", tail);
  }

  // ------------------------------------------------------------ broadcasts

  /** The id the gate compares with: none for a socket without a principal, or an anonymous one. */
  function IdOf(u: User): string {
    match u
    case NotWired => ""
    case User(anonymous, id) => if anonymous then "" else id
  }

  /** What an event carries: its data if there is any, else its record if there is any. */
  function Carries(e: Event): Option<Payload> {
    if e.data != NoPayload && e.data != Fields(map[]) then Some(e.data)
    else if e.record != NoPayload && e.record != Fields(map[]) then Some(e.record)
    else None
  }

  /** On the channel of an owned content only the owner's id in the owner column lets an event through. */
  ghost predicate LetsThrough(own: Ownership, u: User, ch: string, e: Event) {
    forall name :: IsChannelOf(ch, name) && name != "" && name in own && own[name] != "" ==>
      && Carries(e).Some? && Carries(e).value.Fields?
      && own[name] in Carries(e).value.r && Carries(e).value.r[own[name]] == Str(IdOf(u))
  }

  /** Some subscription of the connection is a beginning of the channel. */
  ghost predicate SubscribedTo(c: Conn, ch: string) {
    exists p :: p in c.subscriptions && |p| <= |ch| && ch[..|p|] == p
  }

  lemma ReceivesIff(own: Ownership, c: Conn, ch: string, e: Event)
    ensures Receives(own, c, ch, e) <==> SubscribedTo(c, ch) && LetsThrough(own, c.user, ch, e)
  {
    ParsersAgree(ch);
    var name := ContentName(ch);
    forall n ensures IsChannelOf(ch, n) <==> name == Some(n) {
      ContentNameIff(ch, n);
    }
    hide IsChannelOf, ContentName, ContentNameInRegistry;
    assert ShouldDeliver(own, c.user, ch, e) <==> LetsThrough(own, c.user, ch, e);
    assert forall p :: StartsWith(ch, p) <==> |p| <= |ch| && ch[..|p|] == p;
  }

  /** A broadcast pushes one frame to exactly the subscribed connections the gate lets it through to, drops those of
      them whose send fails, and leaves everything else as it was. */
  lemma BroadcastReaches(own: Ownership, s: State, ch: string, e: Event, fails: set<string>, id: string)
    requires s.Valid() && id in s.sessions
    ensures var t := Apply(own, s, Broadcast(ch, e, fails));
            var hit := id in s.active && SubscribedTo(s.active[id], ch) && LetsThrough(own, s.active[id].user, ch, e);
            var body := match Carries(e) case Some(p) => Carried(p) case None => WholeEvent(e);
            && t.sessions.Keys == s.sessions.Keys
            && t.sessions[id] == (if hit && id !in fails
                                  then Session(s.sessions[id].user, s.sessions[id].frames + [Push(ch, body)])
                                  else s.sessions[id])
            && Lookup(t.active, id) == if hit && id in fails then None else Lookup(s.active, id)
  {
    if id in s.active {
      ReceivesIff(own, s.active[id], ch, e);
    }
    hide Receives, SubscribedTo, LetsThrough;
  }

  // ------------------------------------------------------------ frames of the client

  /** The user's own rows stand in the order they were loaded in. */
  lemma {:induction false} OwnedInOrder(a: seq<Record>, b: seq<Record>, field: string, pid: string)
    ensures OwnedBy([], field, pid) == []
    ensures forall r :: OwnedBy([r], field, pid) == if field in r && r[field] == Str(pid) then [r] else []
    ensures OwnedBy(a + b, field, pid) == OwnedBy(a, field, pid) + OwnedBy(b, field, pid)
    decreases |b|
  {
    forall r ensures OwnedBy([r], field, pid) == if field in r && r[field] == Str(pid) then [r] else [] {
      assert [r][..0] == [];
    }
    if b == [] {
      assert a + b == a;
    } else {
      assert (a + b)[..|a + b| - 1] == a + b[..|b| - 1];
      OwnedInOrder(a, b[..|b| - 1], field, pid);
    }
  }

  /** What is shown of loaded rows: all of them where the content has no owner column, none to nobody, and otherwise
      the user's own. */
  function ShownRows(own: Ownership, name: string, rows: seq<Record>, u: User): seq<Record> {
    if name !in own || own[name] == "" then rows
    else if IdOf(u) == "" then []
    else OwnedBy(rows, own[name], IdOf(u))
  }

  /** The answer to a frame: nothing to an unknown one, a confirmation to an unsubscribe, and to a subscribe or a
      request the rows of the channel's content, or the error of loading them. A channel without a content is
      subscribed to with no rows, and a request for it is not answered. */
  lemma AnswersByFrame(own: Ownership, u: User, load: Loader, ch: string, ref: string, name: string)
    ensures Answer(own, u, UnknownOp, load) == None
    ensures Answer(own, u, Unsubscribe(ch, ref), load) == Some(Unsubscribed(ch, ref))
    ensures IsChannelOf(ch, name) && name != "" ==>
              && Answer(own, u, Subscribe(ch, ref), load) ==
                 Some(match load(name) case None => LoadError(ch, ref)
                                       case Some(rows) => Current(ch, ref, ShownRows(own, name, rows, u)))
              && Answer(own, u, Request(ch, ref), load) ==
                 Some(match load(name) case None => LoadError(ch, ref)
                                       case Some(rows) => Data(ch, ref, ShownRows(own, name, rows, u)))
    ensures (forall n :: IsChannelOf(ch, n) ==> n == "") ==>
              && Answer(own, u, Subscribe(ch, ref), load) == Some(Current(ch, ref, []))
              && Answer(own, u, Request(ch, ref), load) == None
  {
    forall n ensures IsChannelOf(ch, n) <==> ContentName(ch) == Some(n) {
      ContentNameIff(ch, n);
    }
    hide IsChannelOf, ContentName, OwnedBy;
  }

  /** One frame of a client adds its answer to what that client was sent, changes that client's subscriptions exactly by
      the channel it names, if it is registered, and concerns nobody else. */
  lemma ReceiveConcernsOne(own: Ownership, s: State, id: string, f: Inbound, load: Loader, other: string)
    requires s.Valid() && id in s.sessions
    ensures var t, answer := Apply(own, s, Receive(id, f, load)), Answer(own, s.sessions[id].user, f, load);
            && Lookup(t.sessions, other) ==
               (if other == id
                then Some(Session(s.sessions[id].user, s.sessions[id].frames + (match answer case None => []
                                                                                             case Some(a) => [a])))
                else Lookup(s.sessions, other))
            && Lookup(t.active, other) ==
               (if other == id && id in s.active then
                  var Conn(user, subs) := s.active[id];
                  Some(Conn(user, match f
                                  case Subscribe(ch, _) => subs + {ch}
                                  case Unsubscribe(ch, _) => subs - {ch}
                                  case _ => subs))
                else Lookup(s.active, other))
  {
    hide Answer;
    assert s.sessions[id].frames + [] == s.sessions[id].frames;
  }

  /** Connecting registers the socket without a subscription and greets it with its identity; disconnecting takes it off
      the registry; both leave every other socket alone. */
  lemma ConnectsAndDisconnects(own: Ownership, s: State, id: string, user: User, other: string)
    requires s.Valid()
    ensures id !in s.sessions ==>
              var t := Apply(own, s, Connect(id, user));
              && Lookup(t.active, other) == (if other == id then Some(Conn(user, {})) else Lookup(s.active, other))
              && Lookup(t.sessions, other) ==
                 if other == id then Some(Session(user, [Identity(user)])) else Lookup(s.sessions, other)
    ensures var t := Apply(own, s, Disconnect(id));
            && Lookup(t.active, other) == (if other == id then None else Lookup(s.active, other))
            && t.sessions == s.sessions
  {
  }
}
