/** The broker under concurrency: subscribers, cancels, receivers and publishers interleave at the
    granularity of critical sections and single channel operations. */
module SseRuns {
  import opened Sse

  /** The `number`-th publication of one publisher. */
  datatype Message = Message(publisher: nat, number: nat)

  /** A publisher between its copy and its last send. */
  datatype Sending = Sending(message: Message, targets: set<nat>)

  /** `published` lists the topics of each publisher's publications; `received` and `dropped` say what
      became of the messages offered to a channel beyond those still in its buffer; `panicked` holds the
      publication that a publisher was cut off in. */
  datatype World = World(
    broker: Broker<Message>, published: map<nat, seq<string>>, sending: map<nat, Sending>,
    received: map<nat, seq<Message>>, dropped: map<nat, set<Message>>, panicked: map<nat, Sending>)

  const EMPTY_WORLD := World(Broker(map[], map[]), map[], map[], map[], map[], map[])

  datatype Step =
    | Subscribe(topic: string, c: nat)
    | Cancel(c: nat)
    | Copy(p: nat, topic: string)
    | Send(p: nat, c: nat)
    | Receive(c: nat)

  function PublishedBy(w: World, p: nat): seq<string> {
    if p in w.published then w.published[p] else []
  }

  function ReceivedFrom(w: World, c: nat): seq<Message> {
    if c in w.received then w.received[c] else []
  }

  function DroppedAt(w: World, c: nat): set<Message> {
    if c in w.dropped then w.dropped[c] else {}
  }

  /** What a channel has taken in: read by its subscriber or still buffered. */
  function Delivered(w: World, c: nat): seq<Message> {
    ReceivedFrom(w, c) + if c in w.broker.channels then w.broker.channels[c].buffer else []
  }

  predicate IsOpen(w: World, c: nat) {
    c in w.broker.channels && w.broker.channels[c].isOpen
  }

  predicate Enabled(w: World, step: Step) {
    match step
    case Subscribe(_, c) => c !in w.broker.channels
    case Cancel(c) => c in w.broker.channels
    case Copy(p, _) => p !in w.sending && p !in w.panicked
    case Send(p, c) => p in w.sending && c in w.sending[p].targets && c in w.broker.channels
    case Receive(c) => c in w.broker.channels && w.broker.channels[c].buffer != []
  }

  function AfterCopy(w: World, p: nat, topic: string): World {
    var group, mine := Group(w.broker, topic), PublishedBy(w, p);
    w.(published := w.published[p := mine + [topic]],
       sending := if group == {} then w.sending else w.sending[p := Sending(Message(p, |mine|), group)])
  }

  /** A send on a closed channel panics, which ends its publisher; a full buffer drops the message. */
  function AfterSend(w: World, p: nat, c: nat): World
    requires Enabled(w, Send(p, c))
  {
    if !w.broker.channels[c].isOpen then
      w.(sending := w.sending - {p}, panicked := w.panicked[p := w.sending[p]])
    else
      var m, left := w.sending[p].message, w.sending[p].targets - {c};
      w.(broker := Sent(w.broker, c, m),
         sending := if left == {} then w.sending - {p} else w.sending[p := Sending(m, left)],
         dropped := if |w.broker.channels[c].buffer| < CAPACITY then w.dropped else w.dropped[c := DroppedAt(w, c) + {m}])
  }

  function Next(w: World, step: Step): World
    requires Enabled(w, step)
  {
    match step
    case Subscribe(topic, c) => w.(broker := Subscribed(w.broker, topic, c))
    case Cancel(c) => w.(broker := Cancelled(w.broker, c))
    case Copy(p, topic) => AfterCopy(w, p, topic)
    case Send(p, c) => AfterSend(w, p, c)
    case Receive(c) =>
      w.(broker := Taken(w.broker, c), received := w.received[c := ReceivedFrom(w, c) + [w.broker.channels[c].buffer[0]]])
  }

  // ------------------------------------------------------------------ the invariant

  /** Numbers of one publisher only go up, so no message comes twice or out of its publisher's order. */
  predicate InPublisherOrder(d: seq<Message>) {
    forall i, j :: 0 <= i < j < |d| && d[i].publisher == d[j].publisher ==> d[i].number < d[j].number
  }

  predicate WasPublishedTo(w: World, m: Message, topic: string) {
    m.number < |PublishedBy(w, m.publisher)| && PublishedBy(w, m.publisher)[m.number] == topic
  }

  predicate ChannelOk(w: World, c: nat) {
    c in w.broker.channels ==>
      && InPublisherOrder(Delivered(w, c))
      && (forall m :: m in Delivered(w, c) ==> WasPublishedTo(w, m, w.broker.channels[c].topic))
      && (forall m :: m in DroppedAt(w, c) ==> WasPublishedTo(w, m, w.broker.channels[c].topic))
  }

  predicate PublisherOk(w: World, p: nat) {
    p in w.sending ==>
      var m := w.sending[p].message;
      && p !in w.panicked && w.sending[p].targets != {}
      && m.publisher == p && m.number + 1 == |PublishedBy(w, p)|
      && forall c :: c in w.sending[p].targets ==> IsAhead(w, m, c)
  }

  /** The channel is there for the message, and has nothing of this number or later yet. */
  predicate IsAhead(w: World, m: Message, c: nat) {
    && c in w.broker.channels && WasPublishedTo(w, m, w.broker.channels[c].topic)
    && forall d :: d in Delivered(w, c) && d.publisher == m.publisher ==> d.number < m.number
  }

  ghost predicate Invariant(w: World) {
    && WellKept(w.broker)
    && w.received.Keys <= w.broker.channels.Keys && w.dropped.Keys <= w.broker.channels.Keys
    && (forall c :: ChannelOk(w, c))
    && (forall p :: PublisherOk(w, p))
  }

  // ------------------------------------------------------------------ single steps

  lemma BrokerStays(w: World, step: Step)
    requires Invariant(w) && Enabled(w, step)
    ensures var w' := Next(w, step);
      && WellKept(w'.broker) && w.broker.channels.Keys <= w'.broker.channels.Keys
      && w'.received.Keys <= w'.broker.channels.Keys && w'.dropped.Keys <= w'.broker.channels.Keys
  {
    hide ChannelOk, PublisherOk;
    match step
    case Subscribe(topic, c) => SubscribeKeeps(w.broker, topic, c);
    case Cancel(c) => CancelKeeps(w.broker, c);
    case Copy(_, _) =>
    case Send(p, c) => SendKeeps(w.broker, c, w.sending[p].message);
    case Receive(c) => TakeKeeps(w.broker, c);
  }

  predicate Takes(w: World, step: Step, c: nat)
    requires Enabled(w, step)
  {
    step.Send? && step.c == c && w.broker.channels[c].isOpen && |w.broker.channels[c].buffer| < CAPACITY
  }

  /** Only a send that finds room changes what a channel has taken in, and it adds its message at the end. */
  lemma DeliveredAfter(w: World, step: Step, c: nat)
    requires Invariant(w) && Enabled(w, step)
    ensures Delivered(Next(w, step), c) == Delivered(w, c) + if Takes(w, step, c) then [w.sending[step.p].message] else []
  {
    hide ChannelOk, PublisherOk, WellKept;
    match step
    case Subscribe(_, _) =>
    case Cancel(_) => CancelLeavesBuffers(w.broker, step.c);
    case Copy(_, _) =>
    case Send(p, to) => DeliveredAfterSend(w, p, to, c);
    case Receive(from) => DeliveredAfterReceive(w, from, c);
  }

  lemma DeliveredAfterSend(w: World, p: nat, to: nat, c: nat)
    requires Enabled(w, Send(p, to))
    ensures Delivered(AfterSend(w, p, to), c)
      == Delivered(w, c) + if Takes(w, Send(p, to), c) then [w.sending[p].message] else []
  {
    if Takes(w, Send(p, to), c) {
      var m := w.sending[p].message;
      assert ReceivedFrom(w, c) + (w.broker.channels[c].buffer + [m]) == Delivered(w, c) + [m];
    }
  }

  lemma DeliveredAfterReceive(w: World, from: nat, c: nat)
    requires Enabled(w, Receive(from))
    ensures Delivered(Next(w, Receive(from)), c) == Delivered(w, c)
  {
    if from == c {
      var buffer := w.broker.channels[c].buffer;
      assert ReceivedFrom(w, c) + [buffer[0]] + buffer[1..] == ReceivedFrom(w, c) + buffer;
    }
  }

  lemma CancelLeavesBuffers(b: Broker<Message>, c: nat)
    requires c in b.channels
    ensures Cancelled(b, c).channels.Keys == b.channels.Keys
    ensures forall d :: d in b.channels ==>
      Cancelled(b, c).channels[d].buffer == b.channels[d].buffer && Cancelled(b, c).channels[d].topic == b.channels[d].topic
  {
  }

  lemma TopicStays(w: World, step: Step, c: nat)
    requires Enabled(w, step) && c in w.broker.channels
    ensures c in Next(w, step).broker.channels && Next(w, step).broker.channels[c].topic == w.broker.channels[c].topic
  {
    if step.Cancel? { CancelLeavesBuffers(w.broker, step.c); }
    hide Cancelled;
  }

  lemma DroppedAfter(w: World, step: Step, m: Message, c: nat)
    requires Enabled(w, step)
    ensures m in DroppedAt(Next(w, step), c) <==>
      m in DroppedAt(w, c) || (step.Send? && step.c == c && IsOpen(w, c) && !Takes(w, step, c) && w.sending[step.p].message == m)
  {
  }

  lemma PublishedAfter(w: World, step: Step, p: nat)
    requires Enabled(w, step)
    ensures PublishedBy(Next(w, step), p) == PublishedBy(w, p) + if step.Copy? && step.p == p then [step.topic] else []
  {
  }

  lemma StaysPublished(w: World, step: Step, m: Message, topic: string)
    requires Enabled(w, step) && WasPublishedTo(w, m, topic)
    ensures WasPublishedTo(Next(w, step), m, topic)
  {
  }

  lemma StepKeepsChannel(w: World, step: Step, c: nat)
    requires Invariant(w) && Enabled(w, step)
    ensures ChannelOk(Next(w, step), c)
  {
    if c in w.broker.channels {
      KnownChannelStaysOk(w, step, c);
    } else {
      NewChannelIsOk(w, step, c);
    }
  }

  lemma KnownChannelStaysOk(w: World, step: Step, c: nat)
    requires Invariant(w) && Enabled(w, step) && c in w.broker.channels
    ensures ChannelOk(Next(w, step), c)
  {
    hide Next, Delivered, WasPublishedTo, WellKept, DroppedAt;
    var w' := Next(w, step);
    assert ChannelOk(w, c);
    DeliveredAfter(w, step, c);
    TopicStays(w, step, c);
    var topic := w.broker.channels[c].topic;
    if step.Send? {
      assert PublisherOk(w, step.p);
      if step.c == c { assert IsAhead(w, w.sending[step.p].message, c); }
    }
    hide PublisherOk, Invariant;
    forall m | m in Delivered(w', c) ensures WasPublishedTo(w', m, topic) {
      StaysPublished(w, step, m, topic);
    }
    forall m | m in DroppedAt(w', c) ensures WasPublishedTo(w', m, topic) {
      DroppedAfter(w, step, m, c);
      StaysPublished(w, step, m, topic);
    }
  }

  lemma NewChannelIsOk(w: World, step: Step, c: nat)
    requires Invariant(w) && Enabled(w, step) && c !in w.broker.channels
    ensures ChannelOk(Next(w, step), c)
  {
    DeliveredAfter(w, step, c);
    hide ChannelOk, PublisherOk, WellKept, WasPublishedTo;
    assert Delivered(w, c) == [] && DroppedAt(w, c) == {};
    forall m ensures m !in DroppedAt(Next(w, step), c) { DroppedAfter(w, step, m, c); }
    hide Next, Delivered, DroppedAt;
    assert ChannelOk(Next(w, step), c) by { EmptyChannelOk(Next(w, step), c); }
  }

  lemma EmptyChannelOk(w: World, c: nat)
    requires Delivered(w, c) == [] && forall m :: m !in DroppedAt(w, c)
    ensures ChannelOk(w, c)
  {
    hide Delivered, DroppedAt;
  }

  lemma StaysAhead(w: World, step: Step, m: Message, c: nat)
    requires Invariant(w) && Enabled(w, step) && IsAhead(w, m, c)
    requires Takes(w, step, c) ==> w.sending[step.p].message.publisher != m.publisher
    ensures IsAhead(Next(w, step), m, c)
  {
    DeliveredAfter(w, step, c);
    TopicStays(w, step, c);
    StaysPublished(w, step, m, w.broker.channels[c].topic);
    hide Next, Delivered, Takes, Invariant, WasPublishedTo;
  }

  /** A new publication is ahead of everything its group has taken in. */
  lemma CopyIsAhead(w: World, p: nat, topic: string, c: nat)
    requires Invariant(w) && Enabled(w, Copy(p, topic)) && c in Group(w.broker, topic)
    ensures IsAhead(AfterCopy(w, p, topic), Message(p, |PublishedBy(w, p)|), c)
  {
    assert ChannelOk(w, c);
    hide PublisherOk;
    var w' := AfterCopy(w, p, topic);
    assert Delivered(w', c) == Delivered(w, c);
    PublishedAfter(w, Copy(p, topic), p);
    hide Delivered;
  }

  lemma CopyKeepsPublisher(w: World, p: nat, topic: string)
    requires Invariant(w) && Enabled(w, Copy(p, topic))
    ensures PublisherOk(Next(w, Copy(p, topic)), p)
  {
    var w' := Next(w, Copy(p, topic));
    PublishedAfter(w, Copy(p, topic), p);
    forall c | c in Group(w.broker, topic) ensures IsAhead(w', Message(p, |PublishedBy(w, p)|), c) {
      CopyIsAhead(w, p, topic, c);
    }
    hide Invariant, PublishedBy, IsAhead, Group;
  }

  /** A step other than its own copy leaves a publisher its message and some of its targets, or ends it. */
  lemma SendingAfter(w: World, step: Step, p: nat)
    requires Enabled(w, step) && PublisherOk(w, p) && !(step.Copy? && step.p == p)
    ensures var w' := Next(w, step);
      p in w'.sending ==>
        && p in w.sending && w'.sending[p].message == w.sending[p].message
        && w'.sending[p].targets <= w.sending[p].targets && w'.sending[p].targets != {} && p !in w'.panicked
        && (step.Send? && step.p == p ==> step.c !in w'.sending[p].targets)
  {
    hide IsAhead;
  }

  lemma StepKeepsPublisher(w: World, step: Step, p: nat)
    requires Invariant(w) && Enabled(w, step)
    ensures PublisherOk(Next(w, step), p)
  {
    assert PublisherOk(w, p);
    if step.Copy? && step.p == p {
      CopyKeepsPublisher(w, p, step.topic);
    } else {
      var w' := Next(w, step);
      SendingAfter(w, step, p);
      PublishedAfter(w, step, p);
      if p in w'.sending {
        if step.Send? { assert PublisherOk(w, step.p); }
        hide Next;
        forall c | c in w'.sending[p].targets ensures IsAhead(w', w.sending[p].message, c) {
          StaysAhead(w, step, w.sending[p].message, c);
        }
      }
      hide PublishedBy, IsAhead;
    }
  }

  lemma StepKeepsInvariant(w: World, step: Step)
    requires Invariant(w) && Enabled(w, step)
    ensures Invariant(Next(w, step))
  {
    BrokerStays(w, step);
    var w' := Next(w, step);
    forall c ensures ChannelOk(w', c) { StepKeepsChannel(w, step, c); }
    forall p ensures PublisherOk(w', p) { StepKeepsPublisher(w, step, p); }
    hide ChannelOk, PublisherOk, WellKept, Next;
  }

  // ------------------------------------------------------------------ no publication is forgotten

  /** The publisher has copied the channel for this message and has not come to it yet. */
  predicate OnItsWay(w: World, m: Message, c: nat) {
    m.publisher in w.sending && w.sending[m.publisher].message == m && c in w.sending[m.publisher].targets
  }

  /** The message was taken in, or met a full buffer. */
  predicate WasOffered(w: World, m: Message, c: nat) {
    m in Delivered(w, c) || m in DroppedAt(w, c)
  }

  /** The publisher panicked in this very publication before it served the channel. */
  predicate CutOff(w: World, m: Message, c: nat) {
    m.publisher in w.panicked && w.panicked[m.publisher].message == m && c in w.panicked[m.publisher].targets
  }

  /** Exactly one of the three has become of a message for a channel. */
  predicate Settled(w: World, m: Message, c: nat) {
    && m.number < |PublishedBy(w, m.publisher)|
    && (OnItsWay(w, m, c) ==> !WasOffered(w, m, c) && !CutOff(w, m, c))
    && (!OnItsWay(w, m, c) ==> (WasOffered(w, m, c) <==> !CutOff(w, m, c)))
  }

  lemma CopySettles(w: World, p: nat, topic: string, c: nat)
    requires Invariant(w) && Enabled(w, Copy(p, topic)) && c in Group(w.broker, topic)
    ensures OnItsWay(Next(w, Copy(p, topic)), Message(p, |PublishedBy(w, p)|), c)
    ensures Settled(Next(w, Copy(p, topic)), Message(p, |PublishedBy(w, p)|), c)
  {
    var w', m := Next(w, Copy(p, topic)), Message(p, |PublishedBy(w, p)|);
    CopyIsAhead(w, p, topic, c);
    PublishedAfter(w, Copy(p, topic), p);
    assert c in w.broker.channels && ChannelOk(w, c);
    hide Invariant, Delivered, ChannelOk, PublishedBy;
    assert m !in Delivered(w', c);
    DroppedAfter(w, Copy(p, topic), m, c);
    if m in DroppedAt(w', c) { DroppedWasPublished(w, m, c); }
  }

  lemma DroppedWasPublished(w: World, m: Message, c: nat)
    requires ChannelOk(w, c) && c in w.broker.channels && m in DroppedAt(w, c)
    ensures m.number < |PublishedBy(w, m.publisher)|
  {
    hide Delivered;
  }

  /** How a step changes whether a message is on its way. */
  lemma OnItsWayAfter(w: World, step: Step, m: Message, c: nat)
    requires Invariant(w) && Enabled(w, step) && m.number < |PublishedBy(w, m.publisher)|
    ensures OnItsWay(Next(w, step), m, c) <==>
      OnItsWay(w, m, c) && !(step.Send? && step.p == m.publisher && (step.c == c || !IsOpen(w, step.c)))
  {
    hide Invariant, PublisherOk;
    match step
    case Send(p, to) =>
      if p == m.publisher && IsOpen(w, to) && OnItsWay(w, m, c) && to != c { assert c in w.sending[p].targets - {to}; }
    case Copy(_, _) =>
    case _ =>
  }

  /** How a step cuts a message off. */
  lemma CutOffAfter(w: World, step: Step, m: Message, c: nat)
    requires Invariant(w) && Enabled(w, step)
    ensures CutOff(Next(w, step), m, c) <==>
      CutOff(w, m, c) || (OnItsWay(w, m, c) && step.Send? && step.p == m.publisher && !IsOpen(w, step.c))
  {
    assert PublisherOk(w, m.publisher);
    hide Invariant, PublisherOk;
  }

  /** How a step offers a message. */
  lemma WasOfferedAfter(w: World, step: Step, m: Message, c: nat)
    requires Invariant(w) && Enabled(w, step)
    ensures WasOffered(Next(w, step), m, c) <==>
      WasOffered(w, m, c) || (OnItsWay(w, m, c) && step.Send? && step.p == m.publisher && step.c == c && IsOpen(w, c))
  {
    DeliveredAfter(w, step, c);
    DroppedAfter(w, step, m, c);
    if step.Send? { assert PublisherOk(w, step.p); }
    hide Invariant, PublisherOk, Next, Delivered, DroppedAt;
  }

  lemma StepKeepsSettled(w: World, step: Step, m: Message, c: nat)
    requires Invariant(w) && Enabled(w, step) && Settled(w, m, c)
    ensures Settled(Next(w, step), m, c)
  {
    OnItsWayAfter(w, step, m, c);
    CutOffAfter(w, step, m, c);
    WasOfferedAfter(w, step, m, c);
    PublishedAfter(w, step, m.publisher);
    hide Invariant, Next, OnItsWay, CutOff, WasOffered, PublishedBy;
  }

  // ------------------------------------------------------------------ whole runs

  predicate IsRun(run: seq<Step>)
    decreases |run|, 0
  {
    run == [] || (IsRun(run[..|run| - 1]) && Enabled(After(run[..|run| - 1]), run[|run| - 1]))
  }

  function After(run: seq<Step>): World
    requires IsRun(run)
    decreases |run|, 1
  {
    if run == [] then EMPTY_WORLD else Next(After(run[..|run| - 1]), run[|run| - 1])
  }

  /** Over every interleaving: a channel is registered exactly as long as it is open, no group is empty,
      buffers hold at most 8, and what a subscriber has taken in are publications of its own topic, each
      at most once and in the order of each publisher. */
  lemma {:induction false} RunKeepsInvariant(run: seq<Step>)
    requires IsRun(run)
    ensures Invariant(After(run))
  {
    if run == [] {
    } else {
      RunKeepsInvariant(run[..|run| - 1]);
      StepKeepsInvariant(After(run[..|run| - 1]), run[|run| - 1]);
      hide Invariant, Enabled, Next;
    }
  }

  lemma OpenAfterStep(w: World, step: Step, c: nat)
    requires Invariant(w) && Enabled(w, step) && c in w.broker.channels
    ensures c in Next(w, step).broker.channels
    ensures IsOpen(Next(w, step), c) <==> IsOpen(w, c) && step != Cancel(c)
  {
    hide ChannelOk, PublisherOk;
    if step.Cancel? { CancelKeeps(w.broker, step.c); }
    hide WellKept, Cancelled;
  }

  predicate CancelledIn(run: seq<Step>, c: nat) {
    exists k :: 0 <= k < |run| && run[k] == Cancel(c)
  }

  lemma CancelledInAppend(run: seq<Step>, i: nat, c: nat)
    requires i < |run|
    ensures CancelledIn(run[i..], c) <==> CancelledIn(run[..|run| - 1][i..], c) || run[|run| - 1] == Cancel(c)
  {
  }

  /** A channel that is open at some point of a run is open at its end exactly when it was not cancelled
      in between. */
  lemma {:induction false} OpenIffNotCancelled(run: seq<Step>, i: nat, c: nat)
    requires IsRun(run) && i <= |run| && IsRun(run[..i]) && IsOpen(After(run[..i]), c)
    ensures c in After(run).broker.channels
    ensures IsOpen(After(run), c) <==> !CancelledIn(run[i..], c)
    decreases |run|
  {
    if i == |run| {
      assert run[..i] == run && run[i..] == [];
    } else {
      var front := run[..|run| - 1];
      assert front[..i] == run[..i];
      OpenIffNotCancelled(front, i, c);
      RunKeepsInvariant(front);
      OpenAfterStep(After(front), run[|run| - 1], c);
      CancelledInAppend(run, i, c);
      hide Invariant, Enabled, Next, CancelledIn, IsOpen;
    }
  }

  lemma RegisteredIsOpenNow(w: World, topic: string, c: nat)
    requires Invariant(w) && c in Group(w.broker, topic)
    ensures IsOpen(w, c)
  {
    hide ChannelOk, PublisherOk;
  }

  /** A send to a channel that was in the copied group panics exactly when that channel was cancelled
      between the copy and the send. */
  lemma SendPanicsIff(run: seq<Step>, i: nat, p: nat, topic: string, c: nat)
    requires IsRun(run) && i < |run| - 1 && IsRun(run[..i])
    requires run[i] == Copy(p, topic) && run[|run| - 1] == Send(p, c) && c in Group(After(run[..i]).broker, topic)
    ensures p in After(run).panicked <==> CancelledIn(run[i..|run| - 1], c)
  {
    var front := run[..|run| - 1];
    assert front[..i] == run[..i] && front[i..] == run[i..|run| - 1];
    RunKeepsInvariant(run[..i]);
    RegisteredIsOpenNow(After(run[..i]), topic, c);
    OpenIffNotCancelled(front, i, c);
    RunKeepsInvariant(front);
    assert PublisherOk(After(front), p);
    SendPanicsNow(After(front), p, c);
    hide Invariant, Enabled, Next, CancelledIn, IsOpen, PublisherOk;
  }

  lemma SendPanicsNow(w: World, p: nat, c: nat)
    requires Enabled(w, Send(p, c)) && PublisherOk(w, p)
    ensures p in Next(w, Send(p, c)).panicked <==> !IsOpen(w, c)
  {
  }

  /** How often the steps of a run close a channel: a cancel closes it only while it is registered. */
  function Closings(run: seq<Step>, c: nat): nat
    requires IsRun(run)
  {
    if run == [] then 0 else
      var w, last := After(run[..|run| - 1]), run[|run| - 1];
      Closings(run[..|run| - 1], c)
      + if last == Cancel(c) && c in Group(w.broker, w.broker.channels[c].topic) then 1 else 0
  }

  /** No channel is closed twice, and every close meets an open channel. */
  lemma {:induction false} ClosedAtMostOnce(run: seq<Step>, c: nat)
    requires IsRun(run)
    ensures Closings(run, c) == if c in After(run).broker.channels && !IsOpen(After(run), c) then 1 else 0
  {
    if run != [] {
      var front, last := run[..|run| - 1], run[|run| - 1];
      ClosedAtMostOnce(front, c);
      RunKeepsInvariant(front);
      var w := After(front);
      if c in w.broker.channels {
        OpenAfterStep(w, last, c);
        assert c in Group(w.broker, w.broker.channels[c].topic) <==> IsOpen(w, c);
        hide Invariant, Enabled, Next, IsOpen, Group;
      } else {
        assert last == Cancel(c) ==> c in w.broker.channels;
        NewIsOpen(w, last, c);
        hide Invariant, Enabled, Next, IsOpen, Group;
      }
    }
  }

  lemma NewIsOpen(w: World, step: Step, c: nat)
    requires Enabled(w, step) && c !in w.broker.channels
    ensures c in Next(w, step).broker.channels ==> IsOpen(Next(w, step), c)
  {
  }

  /** The number that a publisher's next publication gets. */
  function NextMessage(run: seq<Step>, p: nat): Message
    requires IsRun(run)
  {
    Message(p, |PublishedBy(After(run), p)|)
  }

  /** After a publication copied its group, exactly one of three things holds for each target: the message
      is on its way to it, it was offered, or the publisher was cut off in this publication before. */
  lemma {:induction false} PublicationSettled(run: seq<Step>, i: nat, p: nat, topic: string, c: nat)
    requires IsRun(run) && i < |run| && IsRun(run[..i])
    requires run[i] == Copy(p, topic) && c in Group(After(run[..i]).broker, topic)
    ensures Settled(After(run), NextMessage(run[..i], p), c)
    decreases |run|
  {
    var front := run[..|run| - 1];
    RunKeepsInvariant(front);
    if i == |run| - 1 {
      CopySettles(After(front), p, topic, c);
    } else {
      assert front[..i] == run[..i];
      PublicationSettled(front, i, p, topic, c);
      StepKeepsSettled(After(front), run[|run| - 1], NextMessage(run[..i], p), c);
    }
    hide Invariant, Enabled, Next, Settled, Group;
  }

  /** A publication only ever serves the group that it copied. */
  lemma {:induction false} TargetsAreCopied(run: seq<Step>, i: nat, p: nat, topic: string, c: nat)
    requires IsRun(run) && i < |run| && IsRun(run[..i]) && run[i] == Copy(p, topic)
    ensures NextMessage(run[..i], p).number < |PublishedBy(After(run), p)|
    ensures OnItsWay(After(run), NextMessage(run[..i], p), c) ==> c in Group(After(run[..i]).broker, topic)
    decreases |run|
  {
    var front, last := run[..|run| - 1], run[|run| - 1];
    RunKeepsInvariant(front);
    PublishedAfter(After(front), last, p);
    if i < |run| - 1 {
      assert front[..i] == run[..i];
      TargetsAreCopied(front, i, p, topic, c);
      OnItsWayAfter(After(front), last, NextMessage(run[..i], p), c);
      hide Invariant, Enabled, Next, Group, OnItsWay;
    } else {
      assert PublisherOk(After(front), p);
      hide Invariant, PublisherOk;
    }
  }

  /** Step `j` of the run is a send of the publication copied at `i` to a channel cancelled since, while the
      message was still on its way to `c`. */
  predicate MeetsCancelled(run: seq<Step>, i: nat, j: nat, m: Message, c: nat) {
    && i < j < |run| && run[j].Send? && run[j].p == m.publisher && CancelledIn(run[i..j], run[j].c)
    && IsRun(run[..j]) && OnItsWay(After(run[..j]), m, c)
  }

  /** A send in flight finds a closed channel exactly when the channel was cancelled since the copy. */
  lemma ClosedIffCancelled(run: seq<Step>, i: nat, p: nat, topic: string, c: nat, d: nat)
    requires IsRun(run) && i < |run| && IsRun(run[..i]) && run[i] == Copy(p, topic)
    requires Enabled(After(run), Send(p, d)) && OnItsWay(After(run), NextMessage(run[..i], p), c)
    ensures !IsOpen(After(run), d) <==> CancelledIn(run[i..], d)
  {
    assert OnItsWay(After(run), NextMessage(run[..i], p), d);
    TargetsAreCopied(run, i, p, topic, d);
    RunKeepsInvariant(run[..i]);
    RegisteredIsOpenNow(After(run[..i]), topic, d);
    OpenIffNotCancelled(run, i, d);
    hide After, IsRun, Invariant, CancelledIn, IsOpen;
  }

  lemma {:induction false} CutOffIff(run: seq<Step>, i: nat, p: nat, topic: string, c: nat)
    requires IsRun(run) && i < |run| && IsRun(run[..i]) && run[i] == Copy(p, topic)
    ensures CutOff(After(run), NextMessage(run[..i], p), c) <==>
      exists j :: MeetsCancelled(run, i, j, NextMessage(run[..i], p), c)
    decreases |run|
  {
    hide Invariant, Enabled, Next, OnItsWay, CutOff, CancelledIn, IsOpen, PublishedBy;
    var front, last := run[..|run| - 1], run[|run| - 1];
    var m, w := NextMessage(run[..i], p), After(front);
    RunKeepsInvariant(front);
    CutOffAfter(w, last, m, c);
    if i == |run| - 1 {
      NotCutOffYet(w, p, topic, c);
      hide IsRun, After;
      forall j ensures !MeetsCancelled(run, i, j, m, c) {}
    } else {
      assert front[..i] == run[..i];
      CutOffIff(front, i, p, topic, c);
      if last.Send? && last.p == p && OnItsWay(w, m, c) { ClosedIffCancelled(front, i, p, topic, c, last.c); }
      MeetingsAppend(run, i, m, c);
      hide MeetsCancelled;
    }
  }

  lemma NotCutOffYet(w: World, p: nat, topic: string, c: nat)
    requires Invariant(w) && Enabled(w, Copy(p, topic))
    ensures !CutOff(w, Message(p, |PublishedBy(w, p)|), c)
  {
  }

  lemma MeetingsAppend(run: seq<Step>, i: nat, m: Message, c: nat)
    requires i < |run| - 1 && IsRun(run[..|run| - 1])
    ensures var front, last := run[..|run| - 1], run[|run| - 1];
      (exists j :: MeetsCancelled(run, i, j, m, c)) <==>
        || (exists j :: MeetsCancelled(front, i, j, m, c))
        || (last.Send? && last.p == m.publisher && CancelledIn(front[i..], last.c) && OnItsWay(After(front), m, c))
  {
    hide After, IsRun, CancelledIn, OnItsWay;
    var front, last := run[..|run| - 1], run[|run| - 1];
    assert run[i..|run| - 1] == front[i..];
    forall j: nat | i < j < |front|
      ensures MeetsCancelled(run, i, j, m, c) <==> MeetsCancelled(front, i, j, m, c)
    {
      assert front[..j] == run[..j] && front[i..j] == run[i..j];
    }
    if last.Send? && last.p == m.publisher && CancelledIn(front[i..], last.c) && OnItsWay(After(front), m, c) {
      assert MeetsCancelled(run, i, |run| - 1, m, c);
    }
  }

  /** Over every run: once a message is no longer on its way to a target, it was offered to it exactly unless
      an earlier send of the same publication met a channel cancelled since the copy. */
  lemma OfferedIffNoneMet(run: seq<Step>, i: nat, p: nat, topic: string, c: nat)
    requires IsRun(run) && i < |run| && IsRun(run[..i])
    requires run[i] == Copy(p, topic) && c in Group(After(run[..i]).broker, topic)
    requires !OnItsWay(After(run), NextMessage(run[..i], p), c)
    ensures WasOffered(After(run), NextMessage(run[..i], p), c) <==>
      !exists j :: MeetsCancelled(run, i, j, NextMessage(run[..i], p), c)
  {
    PublicationSettled(run, i, p, topic, c);
    CutOffIff(run, i, p, topic, c);
    hide After, IsRun, OnItsWay, WasOffered, CutOff, MeetsCancelled;
  }

  /** One subscriber leaving at the wrong moment costs another its message: the send to the closed channel
      panics before the other subscriber is served, and nothing was dropped at a full buffer. */
  lemma PanicSkipsOthers(topic: string)
    ensures var run := [Subscribe(topic, 0), Subscribe(topic, 1), Copy(0, topic), Cancel(0), Send(0, 0)];
      && IsRun(run) && IsOpen(After(run), 1)
      && 0 in After(run).panicked && 0 !in After(run).sending
      && Delivered(After(run), 1) == [] && DroppedAt(After(run), 1) == {}
  {
    var a, b, c, d, e := Subscribe(topic, 0), Subscribe(topic, 1), Copy(0, topic), Cancel(0), Send(0, 0);
    RunOfSteps([], a);
    RunOfSteps([a], b);
    RunOfSteps([a, b], c);
    RunOfSteps([a, b, c], d);
    RunOfSteps([a, b, c, d], e);
    assert [] + [a] == [a] && [a] + [b] == [a, b] && [a, b] + [c] == [a, b, c];
    assert [a, b, c] + [d] == [a, b, c, d] && [a, b, c, d] + [e] == [a, b, c, d, e];
    TwoSubscribers(topic);
    LeavesBeforeSend(topic);
    hide IsRun, After, Enabled, Next;
  }

  function WithTwo(topic: string, firstOpen: bool): Broker<Message> {
    Broker(map[topic := if firstOpen then {0, 1} else {1}],
           map[0 := Channel(topic, [], firstOpen), 1 := Channel(topic, [], true)])
  }

  lemma TwoSubscribers(topic: string)
    ensures Enabled(EMPTY_WORLD, Subscribe(topic, 0))
    ensures Enabled(Next(EMPTY_WORLD, Subscribe(topic, 0)), Subscribe(topic, 1))
    ensures Next(Next(EMPTY_WORLD, Subscribe(topic, 0)), Subscribe(topic, 1)) == EMPTY_WORLD.(broker := WithTwo(topic, true))
  {
    var b := Subscribed(Subscribed(EMPTY_WORLD.broker, topic, 0), topic, 1);
    assert b.subscribers[topic] == {0, 1};
    assert b.subscribers == WithTwo(topic, true).subscribers;
    assert b.channels == WithTwo(topic, true).channels;
  }

  lemma LeavesBeforeSend(topic: string)
    ensures var w2 := EMPTY_WORLD.(broker := WithTwo(topic, true));
      && Enabled(w2, Copy(0, topic))
      && var w3 := Next(w2, Copy(0, topic));
      && Enabled(w3, Cancel(0))
      && var w4 := Next(w3, Cancel(0));
      && Enabled(w4, Send(0, 0))
      && var w5 := Next(w4, Send(0, 0));
      && IsOpen(w5, 1) && 0 in w5.panicked && 0 !in w5.sending && Delivered(w5, 1) == [] && DroppedAt(w5, 1) == {}
  {
  }

  lemma RunOfSteps(run: seq<Step>, step: Step)
    ensures IsRun(run) && Enabled(After(run), step) ==> IsRun(run + [step]) && After(run + [step]) == Next(After(run), step)
    ensures IsRun([]) && After([]) == EMPTY_WORLD
  {
  }
}
