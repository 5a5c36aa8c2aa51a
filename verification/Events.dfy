/** The in-process publish/subscribe bus (termin_core/events.py). */
module Events {
  import opened Basics

  datatype Principal = Principal(id: string, displayName: string, isAnonymous: bool, isSystem: bool,
                                 scopes: seq<string>)

  datatype Payload =
    | RecordData(record: Record)
    | TransitionData(recordId: int, from: string, to: string, principal: Principal)

  /** `channelId == ""` stands for a missing or empty channel, `None` for a key the publisher left out. */
  datatype Event = Event(channelId: string, payload: Payload, logLevel: Option<string>, timestamp: Option<string>)

  const LOG_LIMIT: nat := 1000

  /** The two `setdefault` calls on the published dict. */
  function Stamp(e: Event, now: string): Event {
    e.(logLevel := if e.logLevel.None? then Some("INFO") else e.logLevel,
       timestamp := if e.timestamp.None? then Some(now) else e.timestamp)
  }

  predicate Matches(e: Event, pattern: Option<string>) {
    pattern.None? || (e.channelId != "" && StartsWith(e.channelId, pattern.value))
  }

  /** The events of `es` a subscriber with this pattern is owed, in order. */
  function Matching(es: seq<Event>, pattern: Option<string>): seq<Event> {
    if es == [] then []
    else
      var last := es[|es| - 1];
      Matching(es[..|es| - 1], pattern) + if Matches(last, pattern) then [last] else []
  }

  /** Independent reading of `Matching`: it keeps exactly the matching events ... */
  lemma {:induction false} MatchingKeepsExactlyMatches(es: seq<Event>, pattern: Option<string>)
    ensures forall e :: e in Matching(es, pattern) <==> e in es && Matches(e, pattern)
  {
    if es != [] {
      var init, last := es[..|es| - 1], es[|es| - 1];
      MatchingKeepsExactlyMatches(init, pattern);
      assert es == init + [last];
    }
  }

  /** ... and is a homomorphism, so splitting a history anywhere keeps the order of delivery. */
  lemma {:induction false} MatchingSplits(es: seq<Event>, fs: seq<Event>, pattern: Option<string>)
    ensures Matching(es + fs, pattern) == Matching(es, pattern) + Matching(fs, pattern)
  {
    if fs == [] {
      assert es + fs == es;
    } else {
      var init, last := fs[..|fs| - 1], fs[|fs| - 1];
      MatchingSplits(es, init, pattern);
      assert (es + fs)[..|es + fs| - 1] == es + init;
    }
  }

  /** A subscription without a pattern is owed everything; one with a pattern every event on a channel that begins with
      it, but for an empty channel. */
  lemma MatchesIff(e: Event, pattern: Option<string>)
    ensures Matches(e, pattern) <==>
              pattern.None? || (e.channelId != "" && exists rest :: e.channelId == pattern.value + rest)
  {
    if pattern.Some? && StartsWith(e.channelId, pattern.value) {
      assert e.channelId == pattern.value + e.channelId[|pattern.value|..];
    }
    if pattern.Some? {
      forall rest | e.channelId == pattern.value + rest ensures e.channelId[..|pattern.value|] == pattern.value {}
    }
  }

  function LastN<T>(s: seq<T>, n: nat): seq<T> {
    if |s| <= n then s else s[|s| - n..]
  }

  /** A subscriber's queue; `delivered` is everything ever put on it. */
  class Queue {
    var delivered: seq<Event>

    constructor ()
      ensures delivered == []
    {
      delivered := [];
    }
  }

  datatype Subscription = Subscription(queue: Queue, pattern: Option<string>)

  class EventBus {
    var subscribers: seq<Subscription>
    var log: seq<Event>
    ghost var published: seq<Event>     // every event ever published, stamped
    ghost var since: map<Queue, nat>    // |published| when the queue was subscribed

    ghost function Queues(): set<object>
      reads this
    {
      set s | s in subscribers :: s.queue
    }

    /** A live subscription has received exactly the matching events published since it was made. */
    ghost predicate UpToDate(s: Subscription)
      reads this, s.queue
    {
      && s.queue in since
      && since[s.queue] <= |published|
      && s.queue.delivered == Matching(published[since[s.queue]..], s.pattern)
    }

    ghost predicate Valid()
      reads this, Queues()
    {
      && log == LastN(published, LOG_LIMIT)
      && DistinctQueues(subscribers)
      && (forall s :: s in subscribers ==> UpToDate(s))
    }

    constructor ()
      ensures Valid()
      ensures subscribers == [] && published == []
    {
      subscribers, log, published, since := [], [], [], map[];
    }

    method Subscribe(pattern: Option<string>) returns (q: Queue)
      requires Valid()
      modifies this
      ensures Valid()
      ensures fresh(q) && subscribers == old(subscribers) + [Subscription(q, pattern)]
      ensures since == old(since)[q := |published|]
      ensures published == old(published) && log == old(log)
    {
      q := new Queue();
      subscribers := subscribers + [Subscription(q, pattern)];
      since := since[q := |published|];
      forall s | s in subscribers
        ensures UpToDate(s)
      {
        if s.queue == q {
          assert published[since[q]..] == [];
        } else {
          assert s in old(subscribers) && old(UpToDate(s));
        }
      }
    }

    /** Drops the subscription held by this very queue and leaves every other one, in order. */
    method Unsubscribe(q: Queue)
      requires Valid()
      modifies this
      ensures Valid()
      ensures subscribers == WithoutQueue(old(subscribers), q)
      ensures published == old(published) && log == old(log) && since == old(since)
    {
      WithoutQueueDistinct(subscribers, q);
      WithoutQueueElements(subscribers, q);
      subscribers := WithoutQueue(subscribers, q);
      forall s | s in old(subscribers) && s.queue != q
        ensures UpToDate(s)
      {
        assert old(UpToDate(s));
      }
    }

    method Publish(e: Event, now: string)
      requires Valid()
      modifies this`log, this`published, Queues()
      ensures Valid()
      ensures published == old(published) + [Stamp(e, now)]
    {
      var stamped := Stamp(e, now);
      log := log + [stamped];
      if |log| > 1000 {
        log := log[|log| - 1000..];
      }
      published := published + [stamped];
      FanOut(stamped);
      forall s | s in subscribers
        ensures UpToDate(s)
      {
        var n := since[s.queue];
        assert old(UpToDate(s));
        assert published[n..] == old(published)[n..] + [stamped];
        assert published[n..][..|published[n..]| - 1] == old(published)[n..];
      }
    }

    /** One copy for each subscription the event matches. */
    method FanOut(e: Event)
      requires DistinctQueues(subscribers)
      modifies Queues()
      ensures forall s :: s in subscribers ==>
                s.queue.delivered == old(s.queue.delivered) + if Matches(e, s.pattern) then [e] else []
    {
      var i := 0;
      while i < |subscribers|
        invariant 0 <= i <= |subscribers|
        invariant forall j :: 0 <= j < i ==>
                    subscribers[j].queue.delivered == old(subscribers[j].queue.delivered)
                      + if Matches(e, subscribers[j].pattern) then [e] else []
        invariant forall j :: i <= j < |subscribers| ==>
                    subscribers[j].queue.delivered == old(subscribers[j].queue.delivered)
        modifies Queues()
      {
        var s := subscribers[i];
        if s.pattern.None? {
          s.queue.delivered := s.queue.delivered + [e];
        } else if e.channelId != "" && StartsWith(e.channelId, s.pattern.value) {
          s.queue.delivered := s.queue.delivered + [e];
        }
        i := i + 1;
      }
    }

    method GetEventLog() returns (r: seq<Event>)
      requires Valid()
      ensures |r| == if |published| <= 1000 then |published| else 1000
      ensures r == published[|published| - |r|..]
    {
      r := log;
    }
  }

  ghost predicate DistinctQueues(ss: seq<Subscription>) {
    forall i, j :: 0 <= i < j < |ss| ==> ss[i].queue != ss[j].queue
  }

  function WithoutQueue(ss: seq<Subscription>, q: Queue): seq<Subscription> {
    if ss == [] then []
    else (if ss[0].queue != q then [ss[0]] else []) + WithoutQueue(ss[1..], q)
  }

  lemma {:induction false} WithoutQueueElements(ss: seq<Subscription>, q: Queue)
    ensures var r := WithoutQueue(ss, q);
            && (forall k :: 0 <= k < |r| ==> r[k] in ss && r[k].queue != q)
            && (forall k :: 0 <= k < |ss| && ss[k].queue != q ==> ss[k] in r)
  {
    if ss != [] {
      WithoutQueueElements(ss[1..], q);
      assert forall k :: 0 < k < |ss| ==> ss[k] == ss[1..][k - 1];
    }
  }

  /** The rest keeps its order. */
  lemma {:induction false} WithoutQueueSplits(ss: seq<Subscription>, ts: seq<Subscription>, q: Queue)
    ensures WithoutQueue(ss + ts, q) == WithoutQueue(ss, q) + WithoutQueue(ts, q)
  {
    if ss == [] {
      assert ss + ts == ts;
    } else {
      WithoutQueueSplits(ss[1..], ts, q);
      assert (ss + ts)[1..] == ss[1..] + ts && (ss + ts)[0] == ss[0];
    }
  }

  lemma {:induction false} WithoutQueueDistinct(ss: seq<Subscription>, q: Queue)
    requires DistinctQueues(ss)
    ensures DistinctQueues(WithoutQueue(ss, q))
  {
    if ss != [] {
      WithoutQueueDistinct(ss[1..], q);
      WithoutQueueElements(ss[1..], q);
      var rest, r := WithoutQueue(ss[1..], q), WithoutQueue(ss, q);
      forall i, j | 0 <= i < j < |r|
        ensures r[i].queue != r[j].queue
      {
        if ss[0].queue != q {
          assert r[j] == rest[j - 1] && rest[j - 1] in rest && rest[j - 1] in ss[1..];
          if i > 0 { assert r[i] == rest[i - 1]; }
        } else {
          assert r == rest;
        }
      }
    }
  }
}
