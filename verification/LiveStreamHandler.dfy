/** The two ends of the live stream as the handlers run them: recording and publishing a hook call, and
    subscribing, taking the snapshot and serving the channel until the request ends. */
module LiveStreamHandler {
  import opened Wrappers
  import opened Domain
  import opened Folds
  import opened Rollups
  import opened Summaries
  import opened Snapshots
  import opened MonitoringInputs
  import opened Services
  import opened Sse
  import L = LiveStream

  type EventBroker = SseBroker<LiveEvent>

  method PublishMonitoringLiveEvent(sse: EventBroker, event: Option<LiveEvent>)
    requires sse.Valid()
    modifies sse`channels
    ensures sse.Valid()
    ensures sse.View() ==
      if event.None? then old(sse.View()) else Published(old(sse.View()), L.LIVE, event.value)
  {
    if event.None? {
      return;
    }
    sse.Publish(L.LIVE, event.value);
  }

  /** The deferred recorder of a hook call: a call without a response leaves no trace; any other is logged
      and then offered, as the event it was logged as, to every live subscriber. */
  method RecordThenPublish(services: Services, sse: EventBroker, input: HookObservationInput,
        responseStatus: int, now: nat)
    requires sse.Valid()
    modifies services.store, sse`channels
    ensures sse.Valid()
    ensures responseStatus == 0 ==>
      services.store.View() == old(services.store.View()) && sse.View() == old(sse.View())
    ensures responseStatus != 0 ==>
      var o := ObservationFrom(input.(statusCode := responseStatus), now);
      && services.store.View() == old(services.store.View()).(counters := Recorded(old(services.store.View()).counters, o))
      && sse.View() == Published(old(sse.View()), L.LIVE, ToLive(o))
  {
    hide ObservationFrom, Recorded, Published, WellKept;
    if responseStatus == 0 {
      return;
    }
    var event := services.RecordHookObservation(input.(statusCode := responseStatus), now);
    PublishMonitoringLiveEvent(sse, Some(event));
  }

  /** The snapshot that a stream begins with. */
  ghost predicate IsLiveSnapshot(written: seq<LiveEvent>, events: seq<Observation>, q: MonitoringQuery, limit: nat) {
    exists listed ::
      && IsSnapshot(listed, Select(events, Matching(q)), limit)
      && |written| == |listed|
      && forall i :: 0 <= i < |listed| ==> written[i] == ToLive(listed[i])
  }

  /** Subscribes first and reads the log second; a query that is refused leaves no subscription behind. */
  method BeginLiveStream(services: Services, sse: EventBroker, q: MonitoringQuery, limit: int, now: int)
    returns (ch: nat, r: Result<seq<LiveEvent>, StoreError>)
    requires sse.Valid()
    modifies sse
    ensures sse.Valid()
    ensures ch !in old(sse.channels)
    ensures r.Ok? <==> IsAcceptable(q, now)
    ensures r.Ok? ==>
      && sse.View() == Subscribed(old(sse.View()), L.LIVE, ch)
      && IsLiveSnapshot(r.value, services.store.monitoringEvents, NormalForm(q, now), Clamped(limit, 50, 500))
    ensures r.Err? ==>
      && r.error == InvalidInput && sse.subscribers == old(sse.subscribers)
      && ch in sse.channels && !sse.channels[ch].isOpen
  {
    hide NormalForm, IsAcceptable, WellKept, IsSnapshot, Select;
    var snapshotLimit := limit;
    if snapshotLimit <= 0 {
      snapshotLimit := 50;
    }
    if snapshotLimit > 500 {
      snapshotLimit := 500;
    }
    ghost var before := sse.View();
    ch := sse.Subscribe(L.LIVE);
    var snapshot := services.GetMonitoringLiveSnapshot(q, snapshotLimit, now);
    if snapshot.Err? {
      SubscribeThenCancel(before, L.LIVE, ch);
      sse.Cancel(L.LIVE, ch);
      return ch, Err(snapshot.error);
    }
    return ch, Ok(snapshot.value);
  }

  lemma SubscribeThenCancel<M>(b: Broker<M>, topic: string, c: nat)
    requires WellKept(b) && c !in b.channels
    ensures var b' := Cancelled(Subscribed(b, topic, c), c);
      b'.subscribers == b.subscribers && c in b'.channels && !b'.channels[c].isOpen
  {
  }

  // ------------------------------------------------------------------ the loop of an open stream

  /** What happens next while a stream waits: a publisher's send to its channel, or the case that its select
      takes, which is the channel, the heartbeat or the end of the request. */
  datatype Turn = Offer(event: LiveEvent) | Receive | Beat | Finish

  /** What is written to the client; an event goes out in its two forms at once. */
  datatype Frame = HookObservation(event: LiveEvent) | Ping

  datatype Serving = Serving(channel: Channel<LiveEvent>, written: seq<Frame>, ended: bool)

  /** A receive from an empty channel waits while the channel is open. */
  function AfterTurn(s: Serving, turn: Turn): Serving {
    if s.ended then s else
      match turn
      case Offer(event) => s.(channel := Offered(s.channel, event))
      case Receive =>
        var buffer := s.channel.buffer;
        if buffer == [] then s.(ended := !s.channel.isOpen)
        else s.(channel := s.channel.(buffer := buffer[1..]), written := s.written + [HookObservation(buffer[0])])
      case Beat => s.(written := s.written + [Ping])
      case Finish => s.(ended := true)
  }

  function Served(channel: Channel<LiveEvent>, turns: seq<Turn>): Serving {
    if turns == [] then Serving(channel, [], false)
    else AfterTurn(Served(channel, turns[..|turns| - 1]), turns[|turns| - 1])
  }

  function WithChannel<M>(b: Broker<M>, c: nat, channel: Channel<M>): Broker<M> {
    b.(channels := b.channels[c := channel])
  }

  ghost predicate IsStreaming(sse: EventBroker, ch: nat)
    reads sse
  {
    sse.Valid() && ch in sse.channels && sse.channels[ch].isOpen && sse.channels[ch].topic == L.LIVE
  }

  /** The loop over any turns: it writes what the channel yields and the pings, and the handler's deferred
      cancel closes the channel when the loop ends. */
  method ServeEvents(sse: EventBroker, ch: nat, turns: seq<Turn>) returns (written: seq<Frame>, ended: bool)
    requires IsStreaming(sse, ch)
    modifies sse
    ensures sse.Valid()
    ensures var s := Served(old(sse.channels)[ch], turns);
      && written == s.written && ended == s.ended
      && var b := WithChannel(old(sse.View()), ch, s.channel);
      sse.View() == if ended then Cancelled(b, ch) else b
  {
    hide Served, WellKept, AfterTurn;
    written, ended := [], false;
    ghost var before, channel := sse.View(), sse.channels[ch];
    ServedAtFirst(before, ch);
    assert turns[..0] == [];
    for i := 0 to |turns|
      invariant IsStreaming(sse, ch)
      invariant Served(channel, turns[..i]) == Serving(sse.channels[ch], written, ended)
      invariant sse.View() == WithChannel(before, ch, sse.channels[ch])
    {
      assert turns[..i + 1] == turns[..i] + [turns[i]];
      ServedNext(channel, turns[..i], turns[i]);
      if !ended {
        written, ended := ServeTurn(sse, ch, turns[i], written);
      }
    }
    assert turns[..|turns|] == turns;
    if ended {
      sse.Cancel(L.LIVE, ch);
    }
  }

  /** One turn of the loop. */
  method ServeTurn(sse: EventBroker, ch: nat, turn: Turn, soFar: seq<Frame>) returns (written: seq<Frame>, ended: bool)
    requires IsStreaming(sse, ch)
    modifies sse`channels
    ensures IsStreaming(sse, ch)
    ensures AfterTurn(Serving(old(sse.channels)[ch], soFar, false), turn) == Serving(sse.channels[ch], written, ended)
    ensures sse.View() == WithChannel(old(sse.View()), ch, sse.channels[ch])
  {
    hide WellKept;
    assert sse.channels[ch := sse.channels[ch]] == sse.channels;
    written, ended := soFar, false;
    match turn {
      case Offer(event) =>
        SendKeeps(sse.View(), ch, event);
        sse.TrySend(ch, event);
      case Receive =>
        if sse.channels[ch].buffer != [] {
          var payload := sse.Receive(ch);
          written := written + [HookObservation(payload)];
        }
      case Beat =>
        written := written + [Ping];
      case Finish =>
        ended := true;
    }
  }

  lemma ServedAtFirst(b: Broker<LiveEvent>, ch: nat)
    requires ch in b.channels
    ensures Served(b.channels[ch], []) == Serving(b.channels[ch], [], false) && WithChannel(b, ch, b.channels[ch]) == b
  {
    assert b.channels[ch := b.channels[ch]] == b.channels;
  }

  lemma ServedNext(channel: Channel<LiveEvent>, turns: seq<Turn>, turn: Turn)
    ensures Served(channel, turns + [turn]) == AfterTurn(Served(channel, turns), turn)
    ensures Served(channel, turns).ended ==> Served(channel, turns + [turn]) == Served(channel, turns)
  {
    assert (turns + [turn])[..|turns|] == turns;
  }

  /** The events of what was written, in order. */
  function Payloads(written: seq<Frame>): seq<LiveEvent> {
    if written == [] then []
    else
      Payloads(written[..|written| - 1]) +
      match written[|written| - 1]
      case HookObservation(event) => [event]
      case Ping => []
  }

  /** The turn is a send that the stream is there to see. */
  predicate IsLiveOffer(channel: Channel<LiveEvent>, before: seq<Turn>, turn: Turn) {
    turn.Offer? && !Served(channel, before).ended
  }

  /** The events sent to the channel until the stream ends. */
  function OffersTo(channel: Channel<LiveEvent>, turns: seq<Turn>): seq<LiveEvent> {
    if turns == [] then []
    else
      var front, last := turns[..|turns| - 1], turns[|turns| - 1];
      OffersTo(channel, front) + if IsLiveOffer(channel, front, last) then [last.event] else []
  }

  /** Those of them that found room. */
  function AcceptedBy(channel: Channel<LiveEvent>, turns: seq<Turn>): seq<LiveEvent> {
    if turns == [] then []
    else
      var front, last := turns[..|turns| - 1], turns[|turns| - 1];
      AcceptedBy(channel, front) +
      if IsLiveOffer(channel, front, last) && |Served(channel, front).channel.buffer| < CAPACITY then [last.event] else []
  }

  lemma PayloadsNext(written: seq<Frame>, frame: Frame)
    ensures Payloads(written + [frame]) == Payloads(written) + if frame.Ping? then [] else [frame.event]
  {
    assert (written + [frame])[..|written|] == written;
  }

  lemma TurnConserves(s: Serving, turn: Turn)
    ensures var s' := AfterTurn(s, turn);
      Payloads(s'.written) + s'.channel.buffer == Payloads(s.written) + s.channel.buffer +
        if !s.ended && turn.Offer? && |s.channel.buffer| < CAPACITY then [turn.event] else []
  {
    hide Payloads;
    PayloadsNext(s.written, Ping);
    if s.channel.buffer != [] { PayloadsNext(s.written, HookObservation(s.channel.buffer[0])); }
  }

  /** What was written and what is still buffered are, in order, what was buffered at first and what was
      accepted since: the loop loses, repeats and reorders nothing. */
  lemma {:induction false} StreamConserves(channel: Channel<LiveEvent>, turns: seq<Turn>)
    ensures var s := Served(channel, turns);
      Payloads(s.written) + s.channel.buffer == channel.buffer + AcceptedBy(channel, turns)
  {
    if turns != [] {
      var front, last := turns[..|turns| - 1], turns[|turns| - 1];
      StreamConserves(channel, front);
      TurnConserves(Served(channel, front), last);
      hide AfterTurn, Payloads;
    }
  }

  /** How many events the client has yet to be written, if none was dropped. */
  function Unread(channel: Channel<LiveEvent>, turns: seq<Turn>): int {
    |channel.buffer| + |OffersTo(channel, turns)| - |Payloads(Served(channel, turns).written)|
  }

  /** Whenever an event is sent, fewer events are unread than the buffer can hold. */
  predicate KeepsUp(channel: Channel<LiveEvent>, turns: seq<Turn>) {
    forall i :: 0 <= i < |turns| && IsLiveOffer(channel, turns[..i], turns[i]) ==> Unread(channel, turns[..i]) < 8
  }

  lemma KeepsUpNext(channel: Channel<LiveEvent>, front: seq<Turn>, last: Turn)
    ensures KeepsUp(channel, front + [last]) <==>
      KeepsUp(channel, front) && (IsLiveOffer(channel, front, last) ==> Unread(channel, front) < 8)
  {
    hide IsLiveOffer, Unread;
    var turns := front + [last];
    assert turns[..|front|] == front && turns[|front|] == last;
    assert forall i :: 0 <= i < |front| ==> turns[..i] == front[..i] && turns[i] == front[i];
  }

  lemma {:induction false} AcceptedAtMostOffered(channel: Channel<LiveEvent>, turns: seq<Turn>)
    ensures |AcceptedBy(channel, turns)| <= |OffersTo(channel, turns)|
    ensures |AcceptedBy(channel, turns)| == |OffersTo(channel, turns)| ==>
      AcceptedBy(channel, turns) == OffersTo(channel, turns)
  {
    if turns != [] {
      hide Served;
      AcceptedAtMostOffered(channel, turns[..|turns| - 1]);
    }
  }

  lemma {:induction false} AllAcceptedIff(channel: Channel<LiveEvent>, turns: seq<Turn>)
    ensures |AcceptedBy(channel, turns)| == |OffersTo(channel, turns)| <==> KeepsUp(channel, turns)
  {
    if turns != [] {
      var front, last := turns[..|turns| - 1], turns[|turns| - 1];
      hide Served, KeepsUp, Payloads;
      AllAcceptedIff(channel, front);
      KeepsUpNext(channel, front, last);
      AcceptedAtMostOffered(channel, front);
      StreamConserves(channel, front);
      assert turns == front + [last];
    }
  }

  /** A stream writes or still holds every event sent to it, in the order sent, exactly when at every send fewer
      than eight events were unread. */
  lemma NothingDroppedIff(channel: Channel<LiveEvent>, turns: seq<Turn>)
    ensures var s := Served(channel, turns);
      Payloads(s.written) + s.channel.buffer == channel.buffer + OffersTo(channel, turns) <==> KeepsUp(channel, turns)
  {
    hide Served, Payloads, OffersTo, AcceptedBy, KeepsUp;
    StreamConserves(channel, turns);
    AcceptedAtMostOffered(channel, turns);
    AllAcceptedIff(channel, turns);
  }
}
