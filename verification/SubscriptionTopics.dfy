/** What a subscription lists, and what polls yield for it. */
module SubscriptionTopics {
  import opened Wrappers
  import opened Subscription

  // ---------------------------------------------------------------- the response

  ghost predicate IsUnsolicited(e: Event) {
    e.Received? && !e.message.Response?
  }

  /** The first event that is no notification answers the request; without one the connection has ended. */
  lemma {:induction false} FirstResponseAnswers(es: seq<Event>)
    ensures var (a, n) := Await(es);
            && (forall i :: 0 <= i < n - 1 ==> IsUnsolicited(es[i]))
            && match a
               case Answer(reply) => n > 0 && es[n - 1] == Received(Response(reply))
               case Failed => n > 0 && es[n - 1] == Broken
               case Closed => n == |es| && forall i :: 0 <= i < n ==> IsUnsolicited(es[i])
    decreases |es|
  {
    if es != [] && IsUnsolicited(es[0]) {
      FirstResponseAnswers(es[1..]);
      var (a, n) := Await(es[1..]);
      assert forall i :: 0 < i < |es| ==> es[i] == es[1..][i - 1];
    }
  }

  /** One request for each operation; its id moves on with every success, and with every unsubscription anyway. */
  lemma {:induction false} RequestsSent(c: Conn, topic: string, id: string)
    ensures var (d, s) := SubscribeNew(c, topic);
            && d.sent == c.sent + [Request(c.rpcId, "subscribe", topic)]
            && d.rpcId == if s == Done then (c.rpcId + 1) % 18_446_744_073_709_551_616 else c.rpcId
    ensures var d := UnsubscribeId(c, id).0;
            && d.sent == c.sent + [Request(c.rpcId, "unsubscribe", id)]
            && d.rpcId == (c.rpcId + 1) % 18_446_744_073_709_551_616
  {
    assert ID_RANGE == 18_446_744_073_709_551_616;
  }

  // ---------------------------------------------------------------- one subscription

  /** The message a poll would take. */
  function Head(c: Conn, ready: bool): Option<Message> {
    if c.pending != [] then Some(c.pending[0])
    else if ready && c.incoming != [] && c.incoming[0].Received? then Some(c.incoming[0].message)
    else None
  }

  ghost predicate SameOtherwise(c: Conn, d: Conn, id: string) {
    forall i: string :: i != id ==> (i in c.topics <==> i in d.topics) && (i in c.topics ==> c.topics[i] == d.topics[i])
  }

  /** A poll of a listed subscription yields its topic with the result of the notification. */
  lemma {:induction false} PollYields(c: Conn, ready: bool, parses: string -> bool, id: string, result: string)
    requires Head(c, ready) == Some(Notification(id, result)) && parses(result) && id in c.topics
    ensures PollNext(c, ready, parses).1 == Item(c.topics[id], result)
    ensures PollNext(c, ready, parses).0.delivered == c.delivered + [Notification(id, result)]
    ensures PollNext(c, ready, parses).0.topics == c.topics
  {
    var note := Notification(id, result);
    assert [note][1..] == [];
    assert Unsolicited([note]) == [note];
  }

  /** Without a message nothing is taken from what is put aside, and only an error takes anything off the wire. */
  lemma {:induction false} PollWaits(c: Conn, ready: bool, parses: string -> bool)
    requires Head(c, ready) == None
    ensures var (d, polled) := PollNext(c, ready, parses);
            if ready && c.incoming != [] && c.incoming[0] == Broken
            then polled == PollError && d == c.(incoming := c.incoming[1..])
            else polled == (if ready then Ended else Pending) && d == c
  {
  }

  /**
   When the response carries an id, that id stands for the topic from then on and all others are as before, and the
   topic is not subscribed again.
   */
  lemma {:induction false} SubscriptionLists(c: Conn, topic: string, id: string)
    requires topic !in c.topics.Values && Await(c.incoming).0 == Answer(Success(Some(id)))
    ensures var (d, s) := Subscribe(c, topic);
            && s == Done && id in d.topics && d.topics[id] == topic && SameOtherwise(c, d, id)
            && forall e: Conn :: e.topics == d.topics ==> Subscribe(e, topic) == (e, Done)
  {
    var d := Subscribe(c, topic).0;
    assert d.topics[id] in d.topics.Values;
  }

  /**
   What a request returns by its answer: the end of the connection is a broken pipe, an error on it is passed on, a
   failure is an error, a subscription without an id is a panic.
   */
  ghost predicate IsOutcome(a: Awaited, needsId: bool, s: Status) {
    match a
    case Closed => s == BrokenPipe
    case Failed => s == IoError
    case Answer(Failure) => s == Rejected
    case Answer(Success(id)) => s == if needsId && id == None then Panicked else Done
  }

  /** Nothing is listed without an id, and nothing is removed unless the request succeeds. */
  lemma {:induction false} OnlySuccessChangesList(c: Conn, topic: string, id: string)
    ensures var (d, s) := SubscribeNew(c, topic);
            IsOutcome(Await(c.incoming).0, true, s) && (s != Done ==> d.topics == c.topics)
    ensures var (d, s) := UnsubscribeId(c, id);
            && IsOutcome(Await(c.incoming).0, false, s)
            && (s != Done ==> d.topics == c.topics)
            && (s == Done ==> id !in d.topics && SameOtherwise(c, d, id))
  {
  }

  /** So polls yield the topic for the new subscription, and for all others what they would have before. */
  lemma {:induction false} SubscriptionAnswers(c: Conn, topic: string, id: string, e: Conn, ready: bool,
                                               parses: string -> bool)
    requires topic !in c.topics.Values && Await(c.incoming).0 == Answer(Success(Some(id)))
    requires e.topics == Subscribe(c, topic).0.topics && Head(e, ready).Some? && Head(e, ready).value.Notification?
    ensures var note, polled := Head(e, ready).value, PollNext(e, ready, parses).1;
            if note.subscription == id
            then polled == if parses(note.result) then Item(topic, note.result) else InvalidData
            else polled == PollNext(e.(topics := c.topics), ready, parses).1
  {
    SubscriptionLists(c, topic, id);
  }

  /** A subscription and its first notification. */
  lemma {:induction false} FirstNotification(rpcId: nat, result: string, parses: string -> bool)
    requires parses(result)
    ensures var wire := [Received(Response(Success(Some("0x1")))), Received(Notification("0x1", result))];
            var (d, s) := Subscribe(Conn(wire, map[], rpcId, [], [], [], []), "new_tip_block");
            s == Done && PollNext(d, true, parses).1 == Item("new_tip_block", result)
  {
    var wire := [Received(Response(Success(Some("0x1")))), Received(Notification("0x1", result))];
    var c := Conn(wire, map[], rpcId, [], [], [], []);
    assert Await(wire) == (Answer(Success(Some("0x1"))), 1);
    var d := Subscribe(c, "new_tip_block").0;
    OneEvent(wire[0]);
    assert wire[..1] == [wire[0]] && wire[1..] == [Received(Notification("0x1", result))];
    assert d.pending == [] && d.incoming == [Received(Notification("0x1", result))];
    PollYields(d, true, parses, "0x1", result);
  }

  // ---------------------------------------------------------------- all runs

  datatype Change = Granted(id: string, topic: string) | Removed(id: string) | Neither

  /** What an operation does to the list, by the response it gets. */
  function ChangeBy(c: Conn, op: Op): Change {
    match op
    case OpSubscribe(topic) =>
      if topic in c.topics.Values then Neither
      else (match Await(c.incoming).0 case Answer(Success(Some(id))) => Granted(id, topic) case _ => Neither)
    case OpUnsubscribe(id) =>
      (match Await(c.incoming).0 case Answer(Success(_)) => Removed(id) case _ => Neither)
    case OpPoll(_) => Neither
  }

  function Changes(c: Conn, ops: seq<Op>, parses: string -> bool): seq<Change>
    decreases |ops|
  {
    if ops == [] then [] else [ChangeBy(c, ops[0])] + Changes(Apply(c, ops[0], parses), ops[1..], parses)
  }

  /** The topic of the last grant of the id, unless it was removed since; `first` if neither ever happened. */
  function LastTopic(changes: seq<Change>, id: string, first: Option<string>): Option<string> {
    if changes == [] then first
    else match changes[|changes| - 1]
      case Granted(i, topic) => if i == id then Some(topic) else LastTopic(changes[..|changes| - 1], id, first)
      case Removed(i) => if i == id then None else LastTopic(changes[..|changes| - 1], id, first)
      case Neither => LastTopic(changes[..|changes| - 1], id, first)
  }

  function TopicOf(c: Conn, id: string): Option<string> {
    if id in c.topics then Some(c.topics[id]) else None
  }

  lemma {:induction false} LastTopicFront(ch: Change, later: seq<Change>, id: string, first: Option<string>)
    ensures LastTopic([ch] + later, id, first) == LastTopic(later, id, LastTopic([ch], id, first))
    decreases |later|
  {
    if later == [] {
      assert [ch] + later == [ch];
    } else {
      assert ([ch] + later)[..|later|] == [ch] + later[..|later| - 1];
      LastTopicFront(ch, later[..|later| - 1], id, first);
    }
  }

  lemma {:induction false} OneChange(c: Conn, op: Op, parses: string -> bool, id: string)
    ensures TopicOf(Apply(c, op, parses), id) == LastTopic([ChangeBy(c, op)], id, TopicOf(c, id))
  {
    assert [ChangeBy(c, op)][..0] == [];
  }

  /** Over every run, a subscription is listed under the topic it was last granted for, unless removed since. */
  lemma {:induction false} ListedAsGranted(c: Conn, ops: seq<Op>, parses: string -> bool, id: string)
    ensures TopicOf(ApplyAll(c, ops, parses), id) == LastTopic(Changes(c, ops, parses), id, TopicOf(c, id))
    decreases |ops|
  {
    if ops != [] {
      var d := Apply(c, ops[0], parses);
      ListedAsGranted(d, ops[1..], parses, id);
      OneChange(c, ops[0], parses, id);
      LastTopicFront(ChangeBy(c, ops[0]), Changes(d, ops[1..], parses), id, TopicOf(c, id));
    }
  }

  /** So whatever is polled at any point of a run comes with the topic its subscription was last granted for. */
  lemma {:induction false} RunYieldsGranted(c: Conn, ops: seq<Op>, parses: string -> bool, ready: bool)
    ensures var d := ApplyAll(c, ops, parses);
            match PollNext(d, ready, parses).1
            case Item(topic, result) =>
              && Head(d, ready).Some? && Head(d, ready).value.Notification? && Head(d, ready).value.result == result
              && var id := Head(d, ready).value.subscription;
                 LastTopic(Changes(c, ops, parses), id, TopicOf(c, id)) == Some(topic)
            case _ => true
  {
    hide ApplyAll, Changes, LastTopic;
    var d := ApplyAll(c, ops, parses);
    if PollNext(d, ready, parses).1.Item? {
      ListedAsGranted(c, ops, parses, Head(d, ready).value.subscription);
    }
  }
}
