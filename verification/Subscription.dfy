/**
 The subscription client (ckb-testkit/src/subscribe/mod.rs, Client and Handle): requests and
 notifications (sections 4.1 and 5 of JSON-RPC 2.0) share one connection, and notifications that
 arrive while a response is awaited are put aside.
 */
module Subscription {
  import opened Wrappers

  const ID_RANGE := 0x1_0000_0000_0000_0000

  /** A success carries its result when that is a string. */
  datatype Reply = Success(result: Option<string>) | Failure

  datatype Message =
    | Response(reply: Reply)
    | Notification(subscription: string, result: string)
    | Malformed

  /** What the framed connection yields: a frame or an error. Its end is the end of the sequence. */
  datatype Event = Received(message: Message) | Broken

  datatype Request = Request(id: nat, name: string, param: string)

  datatype Status = Done | BrokenPipe | IoError | Rejected | Panicked

  datatype Polled = Item(topic: string, result: string) | InvalidData | PollError | Ended | Pending | PollPanicked

  /**
   A handle and its connection. `read` and `delivered` record all messages taken from the wire, and all
   messages other than responses that a poll took.
   */
  datatype Conn = Conn(
    incoming: seq<Event>,
    topics: map<string, string>,
    rpcId: nat,
    pending: seq<Message>,
    sent: seq<Request>,
    read: seq<Message>,
    delivered: seq<Message>)

  function Messages(es: seq<Event>): seq<Message> {
    if es == [] then []
    else if es[0].Received? then [es[0].message] + Messages(es[1..])
    else Messages(es[1..])
  }

  function Unsolicited(ms: seq<Message>): seq<Message> {
    if ms == [] then []
    else if ms[0].Response? then Unsolicited(ms[1..])
    else [ms[0]] + Unsolicited(ms[1..])
  }

  // ---------------------------------------------------------------- one operation

  datatype Awaited = Answer(reply: Reply) | Closed | Failed

  /** Reads up to and including the first response: what came, and how many events that took. */
  function Await(es: seq<Event>): (r: (Awaited, nat))
    ensures r.1 <= |es|
  {
    if es == [] then (Closed, 0)
    else match es[0]
      case Broken => (Failed, 1)
      case Received(Response(reply)) => (Answer(reply), 1)
      case Received(_) => var (a, n) := Await(es[1..]); (a, n + 1)
  }

  /** Takes n events off the wire; messages that are not responses are put aside. */
  function Buffer(c: Conn, n: nat): Conn
    requires n <= |c.incoming|
  {
    var ms := Messages(c.incoming[..n]);
    c.(incoming := c.incoming[n..], read := c.read + ms, pending := c.pending + Unsolicited(ms))
  }

  function NextId(id: nat): nat {
    (id + 1) % ID_RANGE
  }

  function Ask(c: Conn, name: string, param: string): Conn {
    c.(sent := c.sent + [Request(c.rpcId, name, param)])
  }

  function SubscribeNew(c: Conn, topic: string): (Conn, Status) {
    var (answer, n) := Await(c.incoming);
    var c1 := Buffer(Ask(c, "subscribe", topic), n);
    match answer
    case Closed => (c1, BrokenPipe)
    case Failed => (c1, IoError)
    case Answer(Failure) => (c1, Rejected)
    case Answer(Success(None)) => (c1, Panicked)
    case Answer(Success(Some(id))) => (c1.(topics := c1.topics[id := topic], rpcId := NextId(c1.rpcId)), Done)
  }

  function Subscribe(c: Conn, topic: string): (Conn, Status) {
    if topic in c.topics.Values then (c, Done) else SubscribeNew(c, topic)
  }

  /** Unsubscribes one id; the handle picks any id of the topic. */
  function UnsubscribeId(c: Conn, id: string): (Conn, Status) {
    var (answer, n) := Await(c.incoming);
    var c1 := Buffer(Ask(c, "unsubscribe", id).(rpcId := NextId(c.rpcId)), n);
    match answer
    case Closed => (c1, BrokenPipe)
    case Failed => (c1, IoError)
    case Answer(Failure) => (c1, Rejected)
    case Answer(Success(_)) => (c1.(topics := c1.topics - {id}), Done)
  }

  function Parse(m: Message, topics: map<string, string>, parses: string -> bool): Polled {
    if !m.Notification? then PollPanicked
    else if !parses(m.result) then InvalidData
    else if m.subscription in topics then Item(topics[m.subscription], m.result)
    else PollPanicked
  }

  function PollNext(c: Conn, ready: bool, parses: string -> bool): (Conn, Polled) {
    if c.pending != [] then
      (c.(pending := c.pending[1..], delivered := c.delivered + [c.pending[0]]), Parse(c.pending[0], c.topics, parses))
    else if !ready then (c, Pending)
    else if c.incoming == [] then (c, Ended)
    else match c.incoming[0]
      case Broken => (c.(incoming := c.incoming[1..]), PollError)
      case Received(m) =>
        (c.(incoming := c.incoming[1..], read := c.read + [m], delivered := c.delivered + Unsolicited([m])),
         Parse(m, c.topics, parses))
  }

  // ---------------------------------------------------------------- the handle

  class Handle {
    var incoming: seq<Event>
    var topicList: map<string, string>
    var rpcId: nat
    var pendingRecv: seq<Message>
    ghost var sent: seq<Request>
    ghost var read: seq<Message>
    ghost var delivered: seq<Message>

    ghost function State(): Conn
      reads this
    {
      Conn(incoming, topicList, rpcId, pendingRecv, sent, read, delivered)
    }

    /** Nothing put aside or delivered is out of wire order, lost or repeated. */
    ghost predicate Valid()
      reads this
    {
      Ordered(State())
    }

    constructor (wire: seq<Event>, id: nat)
      ensures Valid() && State() == Conn(wire, map[], id, [], [], [], [])
    {
      incoming, topicList, rpcId, pendingRecv := wire, map[], id, [];
      sent, read, delivered := [], [], [];
    }

    /** Reads frames until a response comes. */
    method AwaitResponse() returns (a: Awaited)
      modifies this
      ensures var (answer, n) := old(Await(incoming)); a == answer && State() == Buffer(old(State()), n)
    {
      hide Messages, Unsolicited;
      ghost var start := State();
      ghost var n := 0;
      BufferNone(start);
      while true
        invariant n <= |start.incoming| && State() == Buffer(start, n)
        invariant Await(start.incoming) == (Await(incoming).0, n + Await(incoming).1)
        decreases |incoming|
      {
        if incoming == [] {
          return Closed;
        }
        var e := incoming[0];
        BufferOne(start, n);
        incoming := incoming[1..];
        n := n + 1;
        match e {
          case Broken => return Failed;
          case Received(m) =>
            read := read + [m];
            match m {
              case Response(reply) => return Answer(reply);
              case _ => pendingRecv := pendingRecv + [m];
            }
        }
      }
    }

    method SubscribeTopic(topic: string) returns (s: Status)
      modifies this
      ensures (State(), s) == SubscribeNew(old(State()), topic)
    {
      hide Buffer, Messages, Unsolicited;
      sent := sent + [Request(rpcId, "subscribe", topic)];
      var a := AwaitResponse();
      match a {
        case Closed => return BrokenPipe;
        case Failed => return IoError;
        case Answer(Failure) => return Rejected;
        case Answer(Success(None)) => return Panicked;
        case Answer(Success(Some(id))) =>
          topicList := topicList[id := topic];
          rpcId := NextId(rpcId);
          return Done;
      }
    }

    method SubscribeIfNew(topic: string) returns (s: Status)
      requires Valid()
      modifies this
      ensures Valid() && (State(), s) == Subscribe(old(State()), topic)
    {
      SubscribeKeepsOrder(State(), topic);
      if topic in topicList.Values {
        return Done;
      }
      s := SubscribeTopic(topic);
    }

    /** Client::subscribe_list: every name in turn, a repeated name under a second id. */
    method SubscribeList(names: seq<string>) returns (s: Status)
      requires Valid()
      modifies this
      ensures Valid()
      ensures (State(), s) == SubscribeAll(old(State()), names)
    {
      var i := 0;
      ghost var start := State();
      assert names[0..] == names;
      while i < |names|
        invariant i <= |names| && Valid()
        invariant SubscribeAll(start, names) == SubscribeAll(State(), names[i..])
      {
        SubscribeNewKeepsOrder(State(), names[i]);
        assert names[i..][1..] == names[i + 1..];
        s := SubscribeTopic(names[i]);
        if s != Done {
          return;
        }
        i := i + 1;
      }
      return Done;
    }

    method Unsubscribe(topic: string) returns (s: Status)
      requires Valid()
      modifies this
      ensures Valid()
      ensures topic !in old(topicList).Values ==> s == Done && State() == old(State())
      ensures topic in old(topicList).Values ==>
                exists id :: id in old(topicList) && old(topicList)[id] == topic &&
                             (State(), s) == UnsubscribeId(old(State()), id)
    {
      if topic !in topicList.Values {
        return Done;
      }
      var id :| id in topicList && topicList[id] == topic;
      s := UnsubscribeOne(id);
    }

    method UnsubscribeOne(id: string) returns (s: Status)
      requires Valid()
      modifies this
      ensures Valid() && (State(), s) == UnsubscribeId(old(State()), id)
    {
      hide Buffer, Messages, Unsolicited;
      UnsubscribeKeepsOrder(State(), id);
      sent := sent + [Request(rpcId, "unsubscribe", id)];
      rpcId := NextId(rpcId);
      var a := AwaitResponse();
      match a {
        case Closed => return BrokenPipe;
        case Failed => return IoError;
        case Answer(Failure) => return Rejected;
        case Answer(Success(_)) =>
          topicList := topicList - {id};
          return Done;
      }
    }

    /** One unsubscription per entry of a copy of the list, by topic and in any order. */
    method UnsubscribeAll() returns (s: Status)
      requires Valid()
      modifies this
      ensures Valid()
      ensures s == Done ==> topicList == map[] && |sent| == old(|sent| + |topicList|)
      ensures s != Done ==> s in {BrokenPipe, IoError, Rejected}
    {
      var topics := TopicsOf(topicList);
      var i := 0;
      assert topics[0..] == topics;
      while i < |topics|
        invariant i <= |topics| && |sent| == old(|sent|) + i && Valid()
        invariant CountsMatch(topicList, topics[i..])
      {
        var t := topics[i];
        assert topics[i..] == [t] + topics[i + 1..];
        assert multiset(topics[i..])[t] > 0;
        EntryOf(topicList, t);
        ghost var before := State();
        s := Unsubscribe(t);
        ghost var id :| id in before.topics && before.topics[id] == t && (State(), s) == UnsubscribeId(before, id);
        UnsubscribeEffect(before, id);
        if s != Done {
          return;
        }
        RemoveMatches(before.topics, id, topics[i..]);
        i := i + 1;
      }
      NothingLeft(topicList);
      return Done;
    }

    method Poll(ready: bool, parses: string -> bool) returns (p: Polled)
      requires Valid()
      modifies this
      ensures Valid() && (State(), p) == PollNext(old(State()), ready, parses)
    {
      PollKeepsOrder(State(), ready, parses);
      if pendingRecv != [] {
        var data := pendingRecv[0];
        pendingRecv := pendingRecv[1..];
        delivered := delivered + [data];
        return Parse(data, topicList, parses);
      }
      if !ready {
        return Pending;
      }
      if incoming == [] {
        return Ended;
      }
      var e := incoming[0];
      incoming := incoming[1..];
      match e {
        case Broken => return PollError;
        case Received(m) =>
          read := read + [m];
          delivered := delivered + Unsolicited([m]);
          return Parse(m, topicList, parses);
      }
    }
  }

  function SubscribeAll(c: Conn, names: seq<string>): (Conn, Status)
    decreases |names|
  {
    if names == [] then (c, Done)
    else
      var (c1, s) := SubscribeNew(c, names[0]);
      if s != Done then (c1, s) else SubscribeAll(c1, names[1..])
  }

  // ---------------------------------------------------------------- several ids of one topic

  function IdsOf(m: map<string, string>, topic: string): set<string> {
    set id | id in m && m[id] == topic
  }

  ghost predicate CountsMatch(m: map<string, string>, topics: seq<string>) {
    forall t :: multiset(topics)[t] == |IdsOf(m, t)|
  }

  method TopicsOf(m: map<string, string>) returns (topics: seq<string>)
    ensures CountsMatch(m, topics) && |topics| == |m|
  {
    topics := [];
    var rest := m;
    assert m - {} == m;
    while rest.Keys != {}
      invariant rest.Keys <= m.Keys && forall id :: id in rest ==> rest[id] == m[id]
      invariant forall t :: multiset(topics)[t] + |IdsOf(rest, t)| == |IdsOf(m, t)|
      invariant |topics| + |rest| == |m|
      decreases |rest|
    {
      var id :| id in rest.Keys;
      RemoveCounts(rest, id);
      assert |rest - {id}| == |rest| - 1 by {
        assert (rest - {id}).Keys == rest.Keys - {id};
      }
      topics, rest := topics + [rest[id]], rest - {id};
    }
    assert forall t :: IdsOf(rest, t) == {};
  }

  lemma {:induction false} RemoveCounts(m: map<string, string>, id: string)
    requires id in m
    ensures forall t :: |IdsOf(m - {id}, t)| == |IdsOf(m, t)| - (if t == m[id] then 1 else 0)
  {
    forall t
      ensures |IdsOf(m - {id}, t)| == |IdsOf(m, t)| - (if t == m[id] then 1 else 0)
    {
      assert IdsOf(m - {id}, t) == if t == m[id] then IdsOf(m, t) - {id} else IdsOf(m, t);
    }
  }

  lemma {:induction false} RemoveMatches(m: map<string, string>, id: string, topics: seq<string>)
    requires id in m && topics != [] && topics[0] == m[id] && CountsMatch(m, topics)
    ensures CountsMatch(m - {id}, topics[1..])
  {
    RemoveCounts(m, id);
    assert topics == [topics[0]] + topics[1..];
  }

  lemma {:induction false} UnsubscribeEffect(c: Conn, id: string)
    ensures var (d, s) := UnsubscribeId(c, id);
            && |d.sent| == |c.sent| + 1
            && s in {Done, BrokenPipe, IoError, Rejected}
            && d.topics == if s == Done then c.topics - {id} else c.topics
  {
  }

  lemma {:induction false} EntryOf(m: map<string, string>, t: string)
    requires |IdsOf(m, t)| > 0
    ensures t in m.Values
  {
    var id :| id in IdsOf(m, t);
  }

  lemma {:induction false} NothingLeft(m: map<string, string>)
    requires CountsMatch(m, [])
    ensures m == map[]
  {
    assert (set id | id in m && id in IdsOf(m, m[id])) == m.Keys;
    assert forall t :: |IdsOf(m, t)| == 0;
    assert m.Keys == {};
  }

  // ---------------------------------------------------------------- order of notifications

  ghost predicate Ordered(c: Conn) {
    c.delivered + c.pending == Unsolicited(c.read)
  }

  lemma {:induction false} UnsolicitedConcat(a: seq<Message>, b: seq<Message>)
    ensures Unsolicited(a + b) == Unsolicited(a) + Unsolicited(b)
  {
    if a == [] {
      assert a + b == b;
    } else {
      assert (a + b)[1..] == a[1..] + b;
      UnsolicitedConcat(a[1..], b);
    }
  }

  lemma {:induction false} MessagesConcat(a: seq<Event>, b: seq<Event>)
    ensures Messages(a + b) == Messages(a) + Messages(b)
  {
    if a == [] {
      assert a + b == b;
    } else {
      assert (a + b)[1..] == a[1..] + b;
      MessagesConcat(a[1..], b);
    }
  }

  lemma {:induction false} OneEvent(e: Event)
    ensures Messages([e]) == if e.Received? then [e.message] else []
    ensures Unsolicited(Messages([e])) == if e.Received? && !e.message.Response? then [e.message] else []
  {
    assert [e][1..] == [];
    if e.Received? {
      assert Messages([e]) == [e.message] && [e.message][1..] == [];
    }
  }

  lemma {:induction false} BufferOne(c: Conn, n: nat)
    requires n < |c.incoming|
    ensures var d := Buffer(c, n);
            Buffer(c, n + 1) == match c.incoming[n]
              case Broken => d.(incoming := d.incoming[1..])
              case Received(m) =>
                d.(incoming := d.incoming[1..], read := d.read + [m],
                   pending := if m.Response? then d.pending else d.pending + [m])
  {
    hide Messages, Unsolicited;
    var e := c.incoming[n];
    assert c.incoming[..n + 1] == c.incoming[..n] + [e];
    MessagesConcat(c.incoming[..n], [e]);
    UnsolicitedConcat(Messages(c.incoming[..n]), Messages([e]));
    assert c.incoming[n..][1..] == c.incoming[n + 1..];
    OneEvent(e);
    var d := Buffer(c, n);
    assert d.read + [] == d.read && d.pending + [] == d.pending;
  }

  lemma {:induction false} BufferNone(c: Conn)
    ensures Buffer(c, 0) == c
  {
    assert c.incoming[..0] == [] && c.incoming[0..] == c.incoming;
    assert c.read + [] == c.read && c.pending + [] == c.pending;
  }

  /** All that is read, with what is still on the wire, is the wire. */
  ghost predicate Accounted(c: Conn, wire: seq<Event>) {
    Ordered(c) && c.read + Messages(c.incoming) == Messages(wire)
  }

  lemma {:induction false} BufferKeepsWire(c: Conn, n: nat)
    requires n <= |c.incoming|
    ensures Messages(c.incoming[..n]) + Messages(c.incoming[n..]) == Messages(c.incoming)
  {
    MessagesConcat(c.incoming[..n], c.incoming[n..]);
    assert c.incoming[..n] + c.incoming[n..] == c.incoming;
  }

  lemma {:induction false} BufferKeepsOrder(c: Conn, n: nat, wire: seq<Event>)
    requires n <= |c.incoming|
    ensures Ordered(c) ==> Ordered(Buffer(c, n))
    ensures Accounted(c, wire) ==> Accounted(Buffer(c, n), wire)
  {
    var ms := Messages(c.incoming[..n]);
    if Ordered(c) {
      UnsolicitedConcat(c.read, ms);
      assert c.delivered + (c.pending + Unsolicited(ms)) == c.delivered + c.pending + Unsolicited(ms);
    }
    if Accounted(c, wire) {
      BufferKeepsWire(c, n);
      assert c.read + ms + Messages(c.incoming[n..]) == c.read + Messages(c.incoming);
    }
  }

  lemma {:induction false} SubscribeNewKeepsOrder(c: Conn, topic: string)
    requires Ordered(c)
    ensures Ordered(SubscribeNew(c, topic).0)
  {
    BufferKeepsOrder(Ask(c, "subscribe", topic), Await(c.incoming).1, []);
  }

  lemma {:induction false} SubscribeKeepsOrder(c: Conn, topic: string)
    requires Ordered(c)
    ensures Ordered(Subscribe(c, topic).0)
  {
    SubscribeNewKeepsOrder(c, topic);
  }

  lemma {:induction false} UnsubscribeKeepsOrder(c: Conn, id: string)
    requires Ordered(c)
    ensures Ordered(UnsubscribeId(c, id).0)
  {
    BufferKeepsOrder(Ask(c, "unsubscribe", id).(rpcId := NextId(c.rpcId)), Await(c.incoming).1, []);
  }

  lemma {:induction false} PollKeepsOrder(c: Conn, ready: bool, parses: string -> bool)
    requires Ordered(c)
    ensures Ordered(PollNext(c, ready, parses).0)
  {
    if c.pending == [] && ready && c.incoming != [] && c.incoming[0].Received? {
      UnsolicitedConcat(c.read, [c.incoming[0].message]);
    }
  }

  // ---------------------------------------------------------------- runs

  datatype Op = OpSubscribe(topic: string) | OpUnsubscribe(id: string) | OpPoll(ready: bool)

  /** `parses` tells which results the topic's type can be read from. */
  function Apply(c: Conn, op: Op, parses: string -> bool): Conn {
    match op
    case OpSubscribe(topic) => Subscribe(c, topic).0
    case OpUnsubscribe(id) => UnsubscribeId(c, id).0
    case OpPoll(ready) => PollNext(c, ready, parses).0
  }

  function ApplyAll(c: Conn, ops: seq<Op>, parses: string -> bool): Conn
    decreases |ops|
  {
    if ops == [] then c else ApplyAll(Apply(c, ops[0], parses), ops[1..], parses)
  }

  lemma {:induction false} ApplyAccounted(c: Conn, op: Op, parses: string -> bool, wire: seq<Event>)
    requires Accounted(c, wire)
    ensures Accounted(Apply(c, op, parses), wire)
  {
    match op
    case OpSubscribe(topic) => BufferKeepsOrder(Ask(c, "subscribe", topic), Await(c.incoming).1, wire);
    case OpUnsubscribe(id) =>
      BufferKeepsOrder(Ask(c, "unsubscribe", id).(rpcId := NextId(c.rpcId)), Await(c.incoming).1, wire);
    case OpPoll(ready) =>
      PollKeepsOrder(c, ready, parses);
      if c.incoming != [] {
        MessagesConcat([c.incoming[0]], c.incoming[1..]);
        assert [c.incoming[0]] + c.incoming[1..] == c.incoming;
        assert [c.incoming[0]][1..] == [];
      }
  }

  /**
   Over every interleaving of operations, whatever they return: delivered, then put aside, then still on the
   wire are together the wire's notifications, in wire order.
   */
  lemma {:induction false} NotificationOrder(c: Conn, ops: seq<Op>, parses: string -> bool, wire: seq<Event>)
    requires Accounted(c, wire)
    ensures var d := ApplyAll(c, ops, parses);
            && Accounted(d, wire)
            && d.delivered + d.pending + Unsolicited(Messages(d.incoming)) == Unsolicited(Messages(wire))
    decreases |ops|
  {
    if ops == [] {
      UnsolicitedConcat(c.read, Messages(c.incoming));
    } else {
      ApplyAccounted(c, ops[0], parses, wire);
      NotificationOrder(Apply(c, ops[0], parses), ops[1..], parses, wire);
    }
  }

  // ---------------------------------------------------------------- when a poll panics

  /** A notification of a listed subscription whose result can be read. */
  ghost predicate IsGood(m: Message, topics: map<string, string>, parses: string -> bool) {
    m.Notification? && parses(m.result) && m.subscription in topics
  }

  ghost predicate AllGood(ms: seq<Message>, topics: map<string, string>, parses: string -> bool) {
    forall i :: 0 <= i < |ms| ==> IsGood(ms[i], topics, parses)
  }

  ghost predicate Mentions(ms: seq<Message>, id: string) {
    exists i :: 0 <= i < |ms| && ms[i].Notification? && ms[i].subscription == id
  }

  /** Polling on until nothing is put aside panics at some point. */
  ghost predicate DrainPanics(c: Conn, parses: string -> bool)
    decreases |c.pending|
  {
    c.pending != [] &&
    (PollNext(c, false, parses).1 == PollPanicked || DrainPanics(PollNext(c, false, parses).0, parses))
  }

  lemma {:induction false} GoodDrains(c: Conn, parses: string -> bool)
    requires AllGood(c.pending, c.topics, parses)
    ensures !DrainPanics(c, parses)
    decreases |c.pending|
  {
    if c.pending != [] {
      GoodDrains(PollNext(c, false, parses).0, parses);
    }
  }

  /** A readable message put aside whose subscription is not listed is reached. */
  lemma {:induction false} StaleIsReached(c: Conn, i: nat, parses: string -> bool)
    requires i < |c.pending| && c.pending[i].Notification? && parses(c.pending[i].result)
    requires c.pending[i].subscription !in c.topics
    ensures DrainPanics(c, parses)
    decreases i
  {
    if i > 0 {
      StaleIsReached(PollNext(c, false, parses).0, i - 1, parses);
    }
  }

  /** What is read while the response to an unsubscription is awaited. */
  function ReadMeanwhile(c: Conn): seq<Message> {
    Messages(c.incoming[..Await(c.incoming).1])
  }

  lemma {:induction false} UnsolicitedMentions(ms: seq<Message>, id: string)
    ensures Mentions(Unsolicited(ms), id) <==> Mentions(ms, id)
  {
    if ms != [] {
      var rest := ms[1..];
      UnsolicitedMentions(rest, id);
      MentionsConcat([ms[0]], rest, id);
      assert [ms[0]] + rest == ms;
      if !ms[0].Response? {
        MentionsConcat([ms[0]], Unsolicited(rest), id);
      }
    }
  }

  lemma {:induction false} MentionsConcat(a: seq<Message>, b: seq<Message>, id: string)
    ensures Mentions(a + b, id) <==> Mentions(a, id) || Mentions(b, id)
  {
    if Mentions(a, id) {
      var i :| 0 <= i < |a| && a[i].Notification? && a[i].subscription == id;
      assert (a + b)[i] == a[i];
    }
    if Mentions(b, id) {
      var i :| 0 <= i < |b| && b[i].Notification? && b[i].subscription == id;
      assert (a + b)[|a| + i] == b[i];
    }
  }

  /** With one subscription less, what was good makes polls panic exactly when that subscription is mentioned. */
  lemma {:induction false} DrainAfterRemoval(c: Conn, topics: map<string, string>, id: string, parses: string -> bool)
    requires AllGood(c.pending, topics, parses) && c.topics == topics - {id}
    ensures DrainPanics(c, parses) <==> Mentions(c.pending, id)
  {
    if Mentions(c.pending, id) {
      var i :| 0 <= i < |c.pending| && c.pending[i].Notification? && c.pending[i].subscription == id;
      assert IsGood(c.pending[i], topics, parses);
      StaleIsReached(c, i, parses);
    } else {
      forall i | 0 <= i < |c.pending|
        ensures IsGood(c.pending[i], c.topics, parses)
      {
        assert IsGood(c.pending[i], topics, parses);
      }
      GoodDrains(c, parses);
    }
  }

  /**
   A successful unsubscription, with only readable notifications of listed subscriptions put aside, makes polls
   panic exactly when one of the subscription was put aside already or comes before the response.
   */
  lemma {:induction false} UnsubscribePanicsExactly(c: Conn, id: string, parses: string -> bool)
    requires UnsubscribeId(c, id).1 == Done && AllGood(UnsubscribeId(c, id).0.pending, c.topics, parses)
    ensures DrainPanics(UnsubscribeId(c, id).0, parses) <==> Mentions(c.pending, id) || Mentions(ReadMeanwhile(c), id)
  {
    DrainAfterRemoval(UnsubscribeId(c, id).0, c.topics, id, parses);
    UnsolicitedMentions(ReadMeanwhile(c), id);
    MentionsConcat(c.pending, Unsolicited(ReadMeanwhile(c)), id);
  }

  // ---------------------------------------------------------------- runs that panic

  /**
   The node sends only readable notifications, of subscriptions listed before or after the operation that reads
   them.
   */
  ghost predicate IsHonest(c: Conn, op: Op, parses: string -> bool) {
    var d := Apply(c, op, parses);
    AllGood(ReadBy(c, op), if op.OpSubscribe? then d.topics else c.topics, parses)
  }

  /** The messages other than responses that an operation reads. */
  function ReadBy(c: Conn, op: Op): seq<Message> {
    match op
    case OpSubscribe(topic) => if topic in c.topics.Values then [] else Unsolicited(ReadMeanwhile(c))
    case OpUnsubscribe(_) => Unsolicited(ReadMeanwhile(c))
    case OpPoll(ready) =>
      if c.pending == [] && ready && c.incoming != [] && c.incoming[0].Received? then [c.incoming[0].message] else []
  }

  ghost predicate IsHonestRun(c: Conn, ops: seq<Op>, parses: string -> bool)
    decreases |ops|
  {
    ops == [] || (IsHonest(c, ops[0], parses) && IsHonestRun(Apply(c, ops[0], parses), ops[1..], parses))
  }

  ghost predicate PollPanics(c: Conn, op: Op, parses: string -> bool) {
    op.OpPoll? && PollNext(c, op.ready, parses).1 == PollPanicked
  }

  /** Some poll of the run panics, or would if at some point what is put aside were polled. */
  ghost predicate CanPanic(c: Conn, ops: seq<Op>, parses: string -> bool)
    decreases |ops|
  {
    DrainPanics(c, parses) ||
    (ops != [] && (PollPanics(c, ops[0], parses) || CanPanic(Apply(c, ops[0], parses), ops[1..], parses)))
  }

  /** A successful unsubscription of a subscription with notifications still to be polled. */
  ghost predicate LeavesStale(c: Conn, op: Op) {
    && op.OpUnsubscribe? && UnsubscribeId(c, op.id).1 == Done
    && (Mentions(c.pending, op.id) || Mentions(ReadMeanwhile(c), op.id))
  }

  ghost predicate EverLeavesStale(c: Conn, ops: seq<Op>, parses: string -> bool)
    decreases |ops|
  {
    ops != [] && (LeavesStale(c, ops[0]) || EverLeavesStale(Apply(c, ops[0], parses), ops[1..], parses))
  }

  lemma {:induction false} GoodConcat(a: seq<Message>, b: seq<Message>, topics: map<string, string>,
                                      more: map<string, string>, parses: string -> bool)
    requires AllGood(a, topics, parses) && AllGood(b, more, parses) && topics.Keys <= more.Keys
    ensures AllGood(a + b, more, parses)
  {
    forall i | 0 <= i < |a + b|
      ensures IsGood((a + b)[i], more, parses)
    {
      assert i < |a| ==> IsGood(a[i], topics, parses);
      assert i >= |a| ==> IsGood(b[i - |a|], more, parses);
    }
  }

  /** What is put aside stays good unless a step leaves something stale. */
  lemma {:induction false} GoodStep(c: Conn, op: Op, parses: string -> bool)
    requires AllGood(c.pending, c.topics, parses) && IsHonest(c, op, parses)
    ensures !PollPanics(c, op, parses)
    ensures var d := Apply(c, op, parses);
            if LeavesStale(c, op) then DrainPanics(d, parses) else AllGood(d.pending, d.topics, parses)
  {
    hide Await, Messages, Unsolicited;
    var d := Apply(c, op, parses);
    match op
    case OpSubscribe(topic) => GoodConcat(c.pending, ReadBy(c, op), c.topics, d.topics, parses);
    case OpUnsubscribe(id) =>
      GoodConcat(c.pending, ReadBy(c, op), c.topics, c.topics, parses);
      if UnsubscribeId(c, id).1 == Done {
        GoodUnsubscribe(c, id, parses);
      }
    case OpPoll(ready) =>
      if c.pending != [] {
        assert IsGood(c.pending[0], c.topics, parses);
      } else if ReadBy(c, op) != [] {
        assert IsGood(ReadBy(c, op)[0], c.topics, parses);
      }
  }

  lemma {:induction false} GoodUnsubscribe(c: Conn, id: string, parses: string -> bool)
    requires UnsubscribeId(c, id).1 == Done && AllGood(UnsubscribeId(c, id).0.pending, c.topics, parses)
    ensures var d := UnsubscribeId(c, id).0;
            if LeavesStale(c, OpUnsubscribe(id)) then DrainPanics(d, parses) else AllGood(d.pending, d.topics, parses)
  {
    var d := UnsubscribeId(c, id).0;
    UnsubscribePanicsExactly(c, id, parses);
    if !DrainPanics(d, parses) {
      forall i | 0 <= i < |d.pending|
        ensures IsGood(d.pending[i], d.topics, parses)
      {
        assert IsGood(d.pending[i], c.topics, parses);
        if d.pending[i].subscription == id {
          StaleIsReached(d, i, parses);
        }
      }
    }
  }

  /**
   Over every interleaving of operations with an honest node: polls can panic exactly when some unsubscription
   succeeds while notifications of its subscription are put aside.
   */
  lemma {:induction false} PanicsExactlyWhenStale(c: Conn, ops: seq<Op>, parses: string -> bool)
    requires AllGood(c.pending, c.topics, parses) && IsHonestRun(c, ops, parses)
    ensures CanPanic(c, ops, parses) <==> EverLeavesStale(c, ops, parses)
    decreases |ops|
  {
    GoodDrains(c, parses);
    if ops != [] {
      GoodStep(c, ops[0], parses);
      if !LeavesStale(c, ops[0]) {
        PanicsExactlyWhenStale(Apply(c, ops[0], parses), ops[1..], parses);
      }
    }
  }

  /** A notification put aside while its own topic is being unsubscribed makes the next poll panic. */
  lemma {:induction false} StaleNotificationPanics(id: string, topic: string, result: string, reply: Option<string>,
                                                   parses: string -> bool)
    requires parses(result)
    ensures var c := Conn([Received(Notification(id, result)), Received(Response(Success(reply)))],
                          map[id := topic], 0, [], [], [], []);
            UnsubscribeId(c, id).1 == Done &&
            PollNext(UnsubscribeId(c, id).0, true, parses).1 == PollPanicked
  {
    var note := Notification(id, result);
    var es := [Received(note), Received(Response(Success(reply)))];
    assert es[1..] == [Received(Response(Success(reply)))];
    assert Await(es[1..]) == (Answer(Success(reply)), 1);
    assert Await(es) == (Answer(Success(reply)), 2);
    MessagesConcat([Received(note)], [Received(Response(Success(reply)))]);
    assert [Received(note)] + [Received(Response(Success(reply)))] == es;
    assert es[..2] == es;
    assert Messages(es) == [note, Response(Success(reply))];
    UnsolicitedConcat([note], [Response(Success(reply))]);
    assert [note] + [Response(Success(reply))] == [note, Response(Success(reply))];
    assert Unsolicited([note]) == [note];
  }
}
