/** The broker of server-sent events: one buffered channel per subscriber, grouped by topic.  Publishing
    copies the group under the lock and sends outside it, so the steps of several callers interleave. */
module Sse {

  const CAPACITY: nat := 8

  datatype Channel<M> = Channel(topic: string, buffer: seq<M>, isOpen: bool)

  /** The subscriber map, and every channel ever made, by number. */
  datatype Broker<M> = Broker(subscribers: map<string, set<nat>>, channels: map<nat, Channel<M>>)

  function Group<M>(b: Broker<M>, topic: string): set<nat> {
    if topic in b.subscribers then b.subscribers[topic] else {}
  }

  /** A channel is registered under its topic exactly as long as it is open; no group is empty; no buffer
      holds more than it can. */
  ghost predicate WellKept<M>(b: Broker<M>) {
    && (forall t :: t in b.subscribers ==> b.subscribers[t] != {})
    && (forall t, c :: c in Group(b, t) ==> c in b.channels && b.channels[c].topic == t)
    && (forall c :: c in b.channels && b.channels[c].isOpen ==> c in Group(b, b.channels[c].topic))
    && (forall c :: c in b.channels && c in Group(b, b.channels[c].topic) ==> b.channels[c].isOpen)
    && (forall c :: c in b.channels ==> |b.channels[c].buffer| <= CAPACITY)
  }

  // ------------------------------------------------------------------ the critical sections

  function Subscribed<M>(b: Broker<M>, topic: string, c: nat): Broker<M> {
    Broker(b.subscribers[topic := Group(b, topic) + {c}], b.channels[c := Channel(topic, [], true)])
  }

  function Cancelled<M>(b: Broker<M>, c: nat): Broker<M>
    requires c in b.channels
  {
    var topic := b.channels[c].topic;
    if topic !in b.subscribers then b else
      var group := b.subscribers[topic] - {c};
      Broker(
        if group == {} then b.subscribers - {topic} else b.subscribers[topic := group],
        if c in b.subscribers[topic] then b.channels[c := b.channels[c].(isOpen := false)] else b.channels)
  }

  function Offered<M>(channel: Channel<M>, m: M): Channel<M> {
    if |channel.buffer| < CAPACITY then channel.(buffer := channel.buffer + [m]) else channel
  }

  function Sent<M>(b: Broker<M>, c: nat, m: M): Broker<M>
    requires c in b.channels
  {
    b.(channels := b.channels[c := Offered(b.channels[c], m)])
  }

  function Taken<M>(b: Broker<M>, c: nat): Broker<M>
    requires c in b.channels && b.channels[c].buffer != []
  {
    b.(channels := b.channels[c := b.channels[c].(buffer := b.channels[c].buffer[1..])])
  }

  /** A whole publication with no other step between its sends. */
  function Published<M>(b: Broker<M>, topic: string, m: M): Broker<M> {
    SentToAll(b, Group(b, topic), m)
  }

  function SentToAll<M>(b: Broker<M>, targets: set<nat>, m: M): Broker<M> {
    b.(channels := map c | c in b.channels :: if c in targets then Offered(b.channels[c], m) else b.channels[c])
  }

  lemma SubscribeKeeps<M>(b: Broker<M>, topic: string, c: nat)
    requires WellKept(b) && c !in b.channels
    ensures WellKept(Subscribed(b, topic, c))
  {
    var b' := Subscribed(b, topic, c);
    forall t ensures Group(b', t) == if t == topic then Group(b, t) + {c} else Group(b, t) {}
  }

  lemma CancelKeeps<M>(b: Broker<M>, c: nat)
    requires WellKept(b) && c in b.channels
    ensures WellKept(Cancelled(b, c))
    ensures Cancelled(b, c).channels == b.channels[c := b.channels[c].(isOpen := false)]
    ensures forall t :: Group(Cancelled(b, c), t) == Group(b, t) - {c}
  {
    var b' := Cancelled(b, c);
    forall t ensures Group(b', t) == Group(b, t) - {c} {}
  }

  lemma SendKeeps<M>(b: Broker<M>, c: nat, m: M)
    requires WellKept(b) && c in b.channels
    ensures WellKept(Sent(b, c, m))
  {
    var b' := Sent(b, c, m);
    forall t ensures Group(b', t) == Group(b, t) {}
  }

  lemma SentToNone<M>(b: Broker<M>, m: M)
    ensures SentToAll(b, {}, m) == b
  {
    assert SentToAll(b, {}, m).channels == b.channels;
  }

  lemma SentToOneMore<M>(b: Broker<M>, done: set<nat>, c: nat, m: M)
    requires c in b.channels && c !in done
    ensures c in SentToAll(b, done, m).channels && SentToAll(b, done, m).channels[c] == b.channels[c]
    ensures Sent(SentToAll(b, done, m), c, m) == SentToAll(b, done + {c}, m)
  {
    assert Sent(SentToAll(b, done, m), c, m).channels == SentToAll(b, done + {c}, m).channels;
  }

  lemma SentToAllKeeps<M>(b: Broker<M>, targets: set<nat>, m: M)
    requires WellKept(b)
    ensures WellKept(SentToAll(b, targets, m)) && SentToAll(b, targets, m).channels.Keys == b.channels.Keys
  {
    var b' := SentToAll(b, targets, m);
    forall t ensures Group(b', t) == Group(b, t) {}
  }

  lemma TakeKeeps<M>(b: Broker<M>, c: nat)
    requires WellKept(b) && c in b.channels && b.channels[c].buffer != []
    ensures WellKept(Taken(b, c))
  {
    var b' := Taken(b, c);
    forall t ensures Group(b', t) == Group(b, t) {}
  }

  // ------------------------------------------------------------------ the broker

  class SseBroker<M> {
    var subscribers: map<string, set<nat>>
    var channels: map<nat, Channel<M>>
    var made: nat

    function View(): Broker<M>
      reads this
    {
      Broker(subscribers, channels)
    }

    ghost predicate Valid()
      reads this
    {
      WellKept(View()) && forall c :: c in channels ==> c < made
    }

    constructor ()
      ensures Valid() && View() == Broker(map[], map[])
    {
      subscribers, channels, made := map[], map[], 0;
    }

    method Subscribe(inboxID: string) returns (ch: nat)
      requires Valid()
      modifies this
      ensures Valid()
      ensures ch !in old(channels) && View() == Subscribed(old(View()), inboxID, ch)
    {
      ghost var before := View();
      SubscribeKeeps(before, inboxID, made);
      hide WellKept;
      ch := made;
      channels := channels[ch := Channel(inboxID, [], true)];
      made := made + 1;
      Register(inboxID, ch);
      assert View() == Subscribed(before, inboxID, ch);
    }

    method Register(inboxID: string, ch: nat)
      modifies this`subscribers
      ensures subscribers == old(subscribers)[inboxID := Group(old(View()), inboxID) + {ch}]
    {
      if inboxID !in subscribers {
        subscribers := subscribers[inboxID := {}];
      }
      subscribers := subscribers[inboxID := subscribers[inboxID] + {ch}];
    }

    /** The cancel function that `Subscribe` hands out; calling it again does nothing. */
    method Cancel(inboxID: string, ch: nat)
      requires Valid() && ch in channels && channels[ch].topic == inboxID
      modifies this
      ensures Valid()
      ensures View() == Cancelled(old(View()), ch)
      ensures !old(channels)[ch].isOpen ==> View() == old(View())
    {
      ghost var before := View();
      CancelKeeps(before, ch);
      if !channels[ch].isOpen { CancelAgain(before, ch); }
      hide WellKept;
      if inboxID in subscribers {
        var group := subscribers[inboxID];
        if ch in group {
          group := group - {ch};
          subscribers := subscribers[inboxID := group];
          assert channels[ch].isOpen by { RegisteredIsOpen(before, ch); }
          Close(ch);
        }
        if group == {} {
          subscribers := subscribers - {inboxID};
        }
      }
      assert subscribers == Cancelled(before, ch).subscribers;
      assert View() == Cancelled(before, ch);
    }

    /** `close` panics on a closed channel, so it demands an open one. */
    method Close(ch: nat)
      requires ch in channels && channels[ch].isOpen
      modifies this`channels
      ensures channels == old(channels)[ch := old(channels)[ch].(isOpen := false)]
    {
      channels := channels[ch := channels[ch].(isOpen := false)];
    }

    /** The critical section of `Publish`: the group as a list, in an arbitrary order. */
    method CopyGroup(inboxID: string) returns (targets: seq<nat>)
      ensures multiset(targets) == multiset(Group(View(), inboxID))
    {
      targets := [];
      if inboxID !in subscribers || subscribers[inboxID] == {} {
        return;
      }
      var left := subscribers[inboxID];
      while left != {}
        invariant left <= subscribers[inboxID]
        invariant multiset(targets) == multiset(subscribers[inboxID] - left)
        decreases |left|
      {
        var ch :| ch in left;
        left := left - {ch};
        targets := targets + [ch];
      }
    }

    /** A send that does not wait; on a closed channel it would panic, so it demands an open one. */
    method TrySend(ch: nat, data: M)
      requires ch in channels && channels[ch].isOpen
      modifies this`channels
      ensures View() == Sent(old(View()), ch, data)
    {
      var channel := channels[ch];
      if |channel.buffer| < CAPACITY {
        channels := channels[ch := channel.(buffer := channel.buffer + [data])];
      }
    }

    /** A receive from a channel that has something buffered. */
    method Receive(ch: nat) returns (data: M)
      requires Valid() && ch in channels && channels[ch].buffer != []
      modifies this`channels
      ensures Valid() && View() == Taken(old(View()), ch)
      ensures data == old(channels)[ch].buffer[0]
    {
      ghost var before := View();
      TakeKeeps(before, ch);
      hide WellKept;
      var channel := channels[ch];
      data := channel.buffer[0];
      channels := channels[ch := channel.(buffer := channel.buffer[1..])];
      assert View() == Taken(before, ch);
    }

    /** With nothing in between, every subscriber of the topic is offered the data once and no other
        channel is touched. */
    method Publish(inboxID: string, data: M)
      requires Valid()
      modifies this`channels
      ensures Valid()
      ensures View() == Published(old(View()), inboxID, data)
    {
      ghost var before := View();
      ghost var done, group: set<nat> := {}, Group(before, inboxID);
      var targets := CopyGroup(inboxID);
      SentToNone(before, data);
      assert targets[0..] == targets && group - done == group;
      hide WellKept, SentToAll, Sent, IsToDo, Group;
      for i := 0 to |targets|
        invariant View() == SentToAll(before, done, data)
        invariant IsToDo(targets[i..], group, done)
      {
        NextSend(before, inboxID, targets[i..], done, data);
        assert targets[i..][1..] == targets[i + 1..];
        done := done + {targets[i]};
        TrySend(targets[i], data);
      }
      assert targets[|targets|..] == [];
      NothingToDo(group, done);
      SentToAllKeeps(before, group, data);
    }
  }

  /** The targets still to be served are the rest of the group. */
  ghost predicate IsToDo(rest: seq<nat>, group: set<nat>, done: set<nat>) {
    done <= group && multiset(rest) == multiset(group - done)
  }

  lemma NothingToDo(group: set<nat>, done: set<nat>)
    requires IsToDo([], group, done)
    ensures done == group
  {
    assert |multiset(group - done)| == |group - done|;
  }

  lemma NextSend<M>(b: Broker<M>, topic: string, rest: seq<nat>, done: set<nat>, m: M)
    requires WellKept(b) && rest != [] && IsToDo(rest, Group(b, topic), done)
    ensures var now, c := SentToAll(b, done, m), rest[0];
      && c in now.channels && now.channels[c].isOpen
      && Sent(now, c, m) == SentToAll(b, done + {c}, m)
      && IsToDo(rest[1..], Group(b, topic), done + {c})
  {
    var group := Group(b, topic);
    NextTarget(rest, group - done);
    RegisteredIsOpen(b, rest[0]);
    assert group - done - {rest[0]} == group - (done + {rest[0]});
    SentToOneMore(b, done, rest[0], m);
    hide SentToAll, Sent, WellKept;
  }

  lemma RegisteredIsOpen<M>(b: Broker<M>, c: nat)
    requires WellKept(b)
    ensures c in b.channels && c in Group(b, b.channels[c].topic) ==> b.channels[c].isOpen
    ensures forall t :: c in Group(b, t) ==> c in b.channels && b.channels[c].isOpen
  {
  }

  /** Cancelling a closed channel changes nothing. */
  lemma CancelAgain<M>(b: Broker<M>, c: nat)
    requires WellKept(b) && c in b.channels && !b.channels[c].isOpen
    ensures Cancelled(b, c) == b
  {
    var topic := b.channels[c].topic;
    if topic in b.subscribers {
      assert c !in Group(b, topic);
      assert b.subscribers[topic] - {c} == b.subscribers[topic];
    }
  }

  lemma NextTarget(rest: seq<nat>, left: set<nat>)
    requires rest != [] && multiset(rest) == multiset(left)
    ensures rest[0] in left && multiset(rest[1..]) == multiset(left - {rest[0]})
  {
    var c := rest[0];
    assert rest == [c] + rest[1..];
    assert multiset(rest) == multiset{c} + multiset(rest[1..]);
    assert c in multiset(rest);
    assert multiset(left - {c}) == multiset(left) - multiset{c};
  }
}
