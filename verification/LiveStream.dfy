/** The hand-off between the log and the broker: recorders log an observation and then publish it, while
    a live stream subscribes and then takes a snapshot of the log.  All steps interleave. */
module LiveStream {
  import opened Domain
  import opened Folds
  import opened Rollups
  import opened Summaries
  import opened Snapshots
  import opened MonitoringInputs
  import opened Sse
  import S = SseRuns

  const LIVE := "__monitoring_live__"

  /** A hook call: started, logged, published as its publisher's `number`-th publication.  A hook call
      also publishes the captured request to the topic of its inbox; that publication may panic without
      stopping the recorder, so it counts as another publisher. */
  datatype Recorder = Started(at: nat) | Logged(o: Observation) | Announced(o: Observation, number: nat)

  /** A live stream on its channel: subscribed, its query in normal form, its snapshot taken when `watermark`
      was the largest retention cutoff. */
  datatype Phase =
    | Subscribed
    | Normalised(q: MonitoringQuery)
    | Snapped(q: MonitoringQuery, matches: seq<Observation>, watermark: int)

  datatype Stream = Stream(asked: MonitoringQuery, since: int, phase: Phase)

  /** `watermark` is the largest retention cutoff so far. */
  datatype Live = Live(
    sse: S.World, clock: nat, log: seq<Observation>, watermark: int,
    recorders: map<nat, Recorder>, streams: map<nat, Stream>)

  const QUIET := Live(S.EMPTY_WORLD, 0, [], 0, map[], map[])

  datatype Step =
    | Tick(t: nat)
    | Start(p: nat)
    | Log(p: nat, input: HookObservationInput)
    | Announce(p: nat)
    | Open(c: nat, asked: MonitoringQuery)
    | Normalise(c: nat)
    | Snap(c: nat)
    | Retain(cutoff: int)
    | Other(step: S.Step)

  predicate Enabled(l: Live, step: Step) {
    match step
    case Tick(t) => l.clock <= t
    case Start(p) => p !in l.recorders
    case Log(p, input) => p in l.recorders && l.recorders[p].Started? && input.observedAt == l.recorders[p].at
    case Announce(p) => p in l.recorders && l.recorders[p].Logged? && S.Enabled(l.sse, S.Copy(p, LIVE))
    case Open(c, _) => S.Enabled(l.sse, S.Subscribe(LIVE, c)) && c !in l.streams
    case Normalise(c) => c in l.streams && l.streams[c].phase.Subscribed? && IsAcceptable(l.streams[c].asked, l.clock)
    case Snap(c) => c in l.streams && l.streams[c].phase.Normalised?
    case Retain(_) => true
    case Other(s) => S.Enabled(l.sse, s) && (s.Copy? || s.Subscribe? ==> s.topic != LIVE)
  }

  function Next(l: Live, step: Step): Live
    requires Enabled(l, step)
  {
    match step
    case Tick(t) => l.(clock := t)
    case Start(p) => l.(recorders := l.recorders[p := Started(l.clock)])
    case Log(p, input) =>
      var o := ObservationFrom(input, l.clock);
      l.(log := l.log + [o], recorders := l.recorders[p := Logged(o)])
    case Announce(p) =>
      l.(sse := S.Next(l.sse, S.Copy(p, LIVE)),
         recorders := l.recorders[p := Announced(l.recorders[p].o, |S.PublishedBy(l.sse, p)|)])
    case Open(c, asked) =>
      l.(sse := S.Next(l.sse, S.Subscribe(LIVE, c)), streams := l.streams[c := Stream(asked, l.clock, Subscribed)])
    case Normalise(c) =>
      l.(streams := l.streams[c := l.streams[c].(phase := Normalised(NormalForm(l.streams[c].asked, l.clock)))])
    case Snap(c) =>
      var q := l.streams[c].phase.q;
      l.(streams := l.streams[c := l.streams[c].(phase := Snapped(q, Select(l.log, Matching(q)), l.watermark))])
    case Retain(cutoff) => l.(log := Select(l.log, Since(cutoff)), watermark := Max(l.watermark, cutoff))
    case Other(s) => l.(sse := S.Next(l.sse, s))
  }

  // ------------------------------------------------------------------ the invariant

  /** The event is in the log, unless retention may have removed it. */
  predicate Kept(l: Live, o: Observation) {
    o in l.log || o.observedAt < l.watermark
  }

  predicate RecorderOk(l: Live, p: nat) {
    p in l.recorders ==>
      match l.recorders[p]
      case Started(at) => at <= l.clock
      case Logged(o) => o.observedAt <= l.clock && Kept(l, o)
      case Announced(o, _) => o.observedAt <= l.clock && Kept(l, o)
  }

  predicate IsOpenEnded(q: MonitoringQuery) {
    q.from == 0 && q.to == 0
  }

  predicate StreamOk(l: Live, c: nat) {
    c in l.streams ==>
      var s := l.streams[c];
      && c in l.sse.broker.channels && l.sse.broker.channels[c].topic == LIVE && s.since <= l.clock
      && (IsOpenEnded(s.asked) && !s.phase.Subscribed? ==> s.since <= s.phase.q.to)
  }

  /** The event was there before the stream began, and the snapshot has it or will have it. */
  predicate SeenBefore(l: Live, o: Observation, s: Stream) {
    && o.observedAt <= s.since
    && match s.phase
       case Snapped(q, matches, watermark) => Matches(o, q) ==> o in matches || o.observedAt < watermark
       case _ => Kept(l, o)
  }

  /** What was announced is settled with the stream's channel, or was there before the stream, unless the
      channel is closed. */
  predicate HandedOff(l: Live, p: nat, c: nat) {
    p in l.recorders && l.recorders[p].Announced? && c in l.streams ==>
      var r := l.recorders[p];
      S.Settled(l.sse, S.Message(p, r.number), c) || SeenBefore(l, r.o, l.streams[c]) || !S.IsOpen(l.sse, c)
  }

  ghost predicate Invariant(l: Live) {
    && S.Invariant(l.sse)
    && (forall p :: RecorderOk(l, p))
    && (forall c :: StreamOk(l, c))
    && (forall p, c :: HandedOff(l, p, c))
  }

  /** The step of the broker inside a step, if there is one. */
  predicate MovesBroker(step: Step) {
    step.Announce? || step.Open? || step.Other?
  }

  function BrokerStep(step: Step): S.Step
    requires MovesBroker(step)
  {
    match step
    case Announce(p) => S.Copy(p, LIVE)
    case Open(c, _) => S.Subscribe(LIVE, c)
    case Other(s) => s
  }

  lemma BrokerMoves(l: Live, step: Step)
    requires Enabled(l, step)
    ensures MovesBroker(step) ==> S.Enabled(l.sse, BrokerStep(step)) && Next(l, step).sse == S.Next(l.sse, BrokerStep(step))
    ensures !MovesBroker(step) ==> Next(l, step).sse == l.sse
    ensures l.clock <= Next(l, step).clock && l.watermark <= Next(l, step).watermark
  {
    hide S.Next, S.Enabled, Select, ObservationFrom, NormalForm;
  }

  lemma StaysKept(l: Live, step: Step, o: Observation)
    requires Enabled(l, step) && Kept(l, o)
    ensures Kept(Next(l, step), o)
  {
    hide S.Next, S.Enabled, ObservationFrom, NormalForm;
  }

  lemma StepKeepsRecorder(l: Live, step: Step, p: nat)
    requires Enabled(l, step) && RecorderOk(l, p)
    ensures RecorderOk(Next(l, step), p)
  {
    BrokerMoves(l, step);
    if p in l.recorders && !l.recorders[p].Started? { StaysKept(l, step, l.recorders[p].o); }
    hide S.Next, S.Enabled, Select, TextBlob, UpperOrUnknown, NormalForm;
  }

  lemma StepKeepsStream(l: Live, step: Step, c: nat)
    requires S.Invariant(l.sse) && Enabled(l, step) && StreamOk(l, c)
    ensures StreamOk(Next(l, step), c)
  {
    BrokerMoves(l, step);
    if MovesBroker(step) && c in l.streams { S.TopicStays(l.sse, BrokerStep(step), c); }
    hide Select, ObservationFrom;
    if step == Normalise(c) {
      hide S.Next, S.Enabled;
    } else if step.Open? && step.c == c {
    } else {
      hide S.Next, S.Enabled, NormalForm;
    }
  }

  lemma SettledStays(l: Live, step: Step, m: S.Message, c: nat)
    requires S.Invariant(l.sse) && Enabled(l, step) && S.Settled(l.sse, m, c)
    ensures S.Settled(Next(l, step).sse, m, c)
  {
    BrokerMoves(l, step);
    if MovesBroker(step) { S.StepKeepsSettled(l.sse, BrokerStep(step), m, c); }
    hide *;
  }

  lemma ClosedStays(l: Live, step: Step, c: nat)
    requires S.Invariant(l.sse) && Enabled(l, step) && c in l.sse.broker.channels && !S.IsOpen(l.sse, c)
    ensures !S.IsOpen(Next(l, step).sse, c)
  {
    BrokerMoves(l, step);
    if MovesBroker(step) { S.OpenAfterStep(l.sse, BrokerStep(step), c); }
    hide *;
  }

  lemma SeenStays(l: Live, step: Step, p: nat, c: nat)
    requires Enabled(l, step) && p in l.recorders && l.recorders[p].Announced? && c in l.streams
    requires SeenBefore(l, l.recorders[p].o, l.streams[c]) && RecorderOk(l, p)
    ensures c in Next(l, step).streams && SeenBefore(Next(l, step), l.recorders[p].o, Next(l, step).streams[c])
  {
    BrokerMoves(l, step);
    StaysKept(l, step, l.recorders[p].o);
    if step == Snap(c) {
      var o := l.recorders[p].o;
      hide S.Next, S.Enabled, ObservationFrom, NormalForm, Matches;
    } else {
      hide S.Next, S.Enabled, ObservationFrom, NormalForm, Select, Matches;
    }
  }

  /** An announcement is settled at once with every stream's open channel, which is in the copied group. */
  lemma AnnouncementSettles(l: Live, p: nat, c: nat)
    requires S.Invariant(l.sse) && Enabled(l, Announce(p)) && c in l.streams && StreamOk(l, c) && S.IsOpen(l.sse, c)
    ensures S.Settled(S.Next(l.sse, S.Copy(p, LIVE)), S.Message(p, |S.PublishedBy(l.sse, p)|), c)
  {
    assert c in Group(l.sse.broker, LIVE);
    S.CopySettles(l.sse, p, LIVE, c);
    hide *;
  }

  lemma StepKeepsHandedOff(l: Live, step: Step, p: nat, c: nat)
    requires Invariant(l) && Enabled(l, step)
    ensures HandedOff(Next(l, step), p, c)
  {
    assert RecorderOk(l, p) && StreamOk(l, c) && HandedOff(l, p, c);
    var l' := Next(l, step);
    if step == Announce(p) {
      if c in l.streams {
        if S.IsOpen(l.sse, c) { AnnouncementSettles(l, p, c); } else { ClosedStays(l, step, c); }
      }
      hide S.Next, S.Enabled, S.Settled, Select, ObservationFrom, NormalForm;
    } else if p in l.recorders && l.recorders[p].Announced? {
      OthersLeaveAnnounced(l, step, p);
      if step.Open? && step.c == c {
        StaysKept(l, step, l.recorders[p].o);
        BeginsAfter(l, step.asked, c, l.recorders[p].o);
      } else {
        OthersLeaveStreams(l, step, c);
        if c in l.streams {
          var r := l.recorders[p];
          if S.Settled(l.sse, S.Message(p, r.number), c) {
            SettledStays(l, step, S.Message(p, r.number), c);
          } else if SeenBefore(l, r.o, l.streams[c]) {
            SeenStays(l, step, p, c);
          } else {
            ClosedStays(l, step, c);
          }
        }
      }
      hide Next, S.Settled, SeenBefore, S.Enabled, S.IsOpen;
    } else {
      OnlyAnnounceAnnounces(l, step, p);
      hide Next, S.Settled, SeenBefore, S.IsOpen;
    }
  }

  lemma OthersLeaveAnnounced(l: Live, step: Step, p: nat)
    requires Enabled(l, step) && p in l.recorders && l.recorders[p].Announced?
    ensures p in Next(l, step).recorders && Next(l, step).recorders[p] == l.recorders[p]
  {
    hide S.Next, S.Enabled, Select, ObservationFrom, NormalForm;
  }

  lemma OnlyAnnounceAnnounces(l: Live, step: Step, p: nat)
    requires Enabled(l, step) && step != Announce(p) && !(p in l.recorders && l.recorders[p].Announced?)
    ensures !(p in Next(l, step).recorders && Next(l, step).recorders[p].Announced?)
  {
    hide S.Next, S.Enabled, Select, ObservationFrom, NormalForm;
  }

  lemma OthersLeaveStreams(l: Live, step: Step, c: nat)
    requires Enabled(l, step) && !(step.Open? && step.c == c)
    ensures c in Next(l, step).streams <==> c in l.streams
  {
    hide S.Next, S.Enabled, Select, ObservationFrom, NormalForm;
  }

  lemma BeginsAfter(l: Live, asked: MonitoringQuery, c: nat, o: Observation)
    requires Enabled(l, Open(c, asked)) && o.observedAt <= l.clock && Kept(l, o)
    ensures var l' := Next(l, Open(c, asked));
      c in l'.streams && SeenBefore(l', o, l'.streams[c])
  {
    hide S.Next, S.Enabled;
  }

  lemma StepKeepsInvariant(l: Live, step: Step)
    requires Invariant(l) && Enabled(l, step)
    ensures Invariant(Next(l, step))
  {
    BrokerMoves(l, step);
    var l' := Next(l, step);
    if MovesBroker(step) { S.StepKeepsInvariant(l.sse, BrokerStep(step)); }
    forall p ensures RecorderOk(l', p) { StepKeepsRecorder(l, step, p); }
    forall c ensures StreamOk(l', c) { StepKeepsStream(l, step, c); }
    forall p, c ensures HandedOff(l', p, c) { StepKeepsHandedOff(l, step, p, c); }
    hide RecorderOk, StreamOk, HandedOff, Next, Enabled, S.Invariant, S.Next;
  }

  // ------------------------------------------------------------------ whole runs

  predicate IsRun(run: seq<Step>)
    decreases |run|, 0
  {
    run == [] || (IsRun(run[..|run| - 1]) && Enabled(After(run[..|run| - 1]), run[|run| - 1]))
  }

  function After(run: seq<Step>): Live
    requires IsRun(run)
    decreases |run|, 1
  {
    if run == [] then QUIET else Next(After(run[..|run| - 1]), run[|run| - 1])
  }

  lemma {:induction false} RunKeepsInvariant(run: seq<Step>)
    requires IsRun(run)
    ensures Invariant(After(run))
  {
    if run == [] {
      S.RunKeepsInvariant([]);
      assert S.Invariant(S.EMPTY_WORLD);
    } else {
      RunKeepsInvariant(run[..|run| - 1]);
      StepKeepsInvariant(After(run[..|run| - 1]), run[|run| - 1]);
    }
    hide S.Invariant, Enabled, Next;
  }

  /** The message under which a recorder announced its observation. */
  function Announcement(l: Live, p: nat): S.Message
    requires p in l.recorders && l.recorders[p].Announced?
  {
    S.Message(p, l.recorders[p].number)
  }

  /** The recorder has announced and is through with the channel: the announcement is not on its way to it,
      and no earlier send of the announcement met a cancelled channel. */
  predicate IsThrough(l: Live, p: nat, c: nat) {
    && p in l.recorders && l.recorders[p].Announced?
    && !S.OnItsWay(l.sse, Announcement(l, p), c) && !S.CutOff(l.sse, Announcement(l, p), c)
  }

  /** The event is listed by the snapshot, or was cut by its limit in favour of events no older. */
  ghost predicate ListedOrCutBy(o: Observation, listed: seq<Observation>, limit: nat) {
    o in listed || (|listed| == limit && forall y :: y in listed ==> o.observedAt <= y.observedAt)
  }

  /** No gap: for a stream that is still open and a query whose window does not end before the stream
      subscribed, the event of every recorder that is through with its channel, from the window's start on
      and passing the filters, is in the snapshot (or cut by its limit) or was offered to the channel.
      Only retention before the snapshot may have taken it away. */
  lemma NoGap(run: seq<Step>, p: nat, c: nat, listed: seq<Observation>, limit: nat)
    requires IsRun(run)
    requires IsThrough(After(run), p, c) && c in After(run).streams && S.IsOpen(After(run).sse, c)
    requires After(run).streams[c].phase.Snapped?
    requires var s := After(run).streams[c];
      && IsSnapshot(listed, s.phase.matches, limit)
      && (IsOpenEnded(s.asked) || s.since <= s.phase.q.to)
    ensures var o, phase := After(run).recorders[p].o, After(run).streams[c].phase;
      phase.q.from <= o.observedAt && MatchesFilters(o, phase.q) && phase.watermark <= o.observedAt ==>
        ListedOrCutBy(o, listed, limit) || S.WasOffered(After(run).sse, Announcement(After(run), p), c)
  {
    RunKeepsInvariant(run);
    var l := After(run);
    hide After, IsRun;
    assert StreamOk(l, c) && HandedOff(l, p, c);
    hide S.Invariant, MatchesFilters, IsSnapshot, S.WasOffered, S.OnItsWay, S.CutOff, S.IsOpen;
    var o, s := l.recorders[p].o, l.streams[c];
    if SeenBefore(l, o, s) && o in s.phase.matches {
      ListedOrCut(listed, s.phase.matches, limit, o);
    }
  }

  // ------------------------------------------------------------------ windows that end too early

  /** The run in which a call at time `t` is logged and announced just before a stream subscribes. */
  function GapRun(asked: MonitoringQuery, t: nat, input: HookObservationInput): seq<Step> {
    CallRun(t, input) + [Open(0, asked)] + [Normalise(0)] + [Snap(0)]
  }

  function CallRun(t: nat, input: HookObservationInput): seq<Step> {
    [] + [Tick(t)] + [Start(0)] + [Log(0, input)] + [Announce(0)]
  }

  function JustAnnounced(t: nat, o: Observation): Live {
    Live(S.EMPTY_WORLD.(published := map[0 := [LIVE]]), t, [o], 0, map[0 := Announced(o, 0)], map[])
  }

  function JustOpened(t: nat, o: Observation, s: Stream): Live {
    Live(S.World(Broker(map[LIVE := {0}], map[0 := Channel(LIVE, [], true)]), map[0 := [LIVE]], map[], map[], map[], map[]),
      t, [o], 0, map[0 := Announced(o, 0)], map[0 := s])
  }

  /** The condition on the window is needed: whatever the filters, if the window of the query ends before
      the stream subscribes, then an event in between is neither in the snapshot nor offered.  It happens
      to an explicit `to`, which is read before the subscription, and to a `from` without a `to`. */
  lemma WindowEndingEarlyLeavesGap(asked: MonitoringQuery, t: nat, input: HookObservationInput)
    requires IsAcceptable(asked, t) && To(asked, t) < t && input.observedAt == t
    requires MatchesFilters(ObservationFrom(input, t), NormalForm(asked, t))
    ensures var run, o, q := GapRun(asked, t, input), ObservationFrom(input, t), NormalForm(asked, t);
      && IsRun(run)
      && var l := After(run);
      && IsThrough(l, 0, 0) && l.recorders[0].o == o && 0 in l.streams && S.IsOpen(l.sse, 0)
      && l.streams[0] == Stream(asked, t, Snapped(q, [], 0))
      && q.from <= o.observedAt && !S.WasOffered(l.sse, Announcement(l, 0), 0)
  {
    var o, q := ObservationFrom(input, t), NormalForm(asked, t);
    assert o.observedAt == t;
    hide IsRun, After, Enabled, Next, IsAcceptable, NormalForm, ObservationFrom, MatchesFilters;
    hide IsThrough, S.WasOffered, S.IsOpen, To;
    CallRunIsRun(t, input);
    var run := CallRun(t, input);
    hide CallRun;
    RunOfSteps(run, Open(0, asked));
    RunOfSteps(run + [Open(0, asked)], Normalise(0));
    RunOfSteps(run + [Open(0, asked)] + [Normalise(0)], Snap(0));
    OpensAfter(asked, t, o);
    SnapsNothing(asked, t, o);
  }

  lemma CallRunIsRun(t: nat, input: HookObservationInput)
    requires input.observedAt == t
    ensures IsRun(CallRun(t, input)) && After(CallRun(t, input)) == JustAnnounced(t, ObservationFrom(input, t))
  {
    hide IsRun, After, Enabled, Next, ObservationFrom, JustAnnounced;
    var a, b, c, d := Tick(t), Start(0), Log(0, input), Announce(0);
    RunOfSteps([], a);
    RunOfSteps([] + [a], b);
    RunOfSteps([] + [a] + [b], c);
    RunOfSteps([] + [a] + [b] + [c], d);
    LoggedThenAnnounced(t, input);
  }

  lemma RunOfSteps(run: seq<Step>, step: Step)
    ensures IsRun(run) && Enabled(After(run), step) ==> IsRun(run + [step]) && After(run + [step]) == Next(After(run), step)
    ensures IsRun([]) && After([]) == QUIET
  {
  }

  lemma LoggedThenAnnounced(t: nat, input: HookObservationInput)
    requires input.observedAt == t
    ensures Enabled(QUIET, Tick(t))
    ensures var l1 := Next(QUIET, Tick(t));
      && Enabled(l1, Start(0))
      && var l2 := Next(l1, Start(0));
      && Enabled(l2, Log(0, input))
      && var l3 := Next(l2, Log(0, input));
      && Enabled(l3, Announce(0)) && Next(l3, Announce(0)) == JustAnnounced(t, ObservationFrom(input, t))
  {
    hide ObservationFrom;
    var o := ObservationFrom(input, t);
    var l3 := Live(S.EMPTY_WORLD, t, [o], 0, map[0 := Logged(o)], map[]);
    assert Next(Next(Next(QUIET, Tick(t)), Start(0)), Log(0, input)) == l3;
    var l4 := Next(l3, Announce(0));
    assert S.PublishedBy(l3.sse, 0) + [LIVE] == [LIVE];
    assert l4.sse.published == map[0 := [LIVE]];
    assert l4.recorders == map[0 := Announced(o, 0)];
  }

  lemma OpensAfter(asked: MonitoringQuery, t: nat, o: Observation)
    ensures var l := JustAnnounced(t, o);
      Enabled(l, Open(0, asked)) && Next(l, Open(0, asked)) == JustOpened(t, o, Stream(asked, t, Subscribed))
  {
    var l' := Next(JustAnnounced(t, o), Open(0, asked));
    assert l'.sse.broker.subscribers[LIVE] == {0};
    assert l'.sse.broker.subscribers == map[LIVE := {0}];
    assert l'.sse.broker.channels == map[0 := Channel(LIVE, [], true)];
    assert l'.streams == map[0 := Stream(asked, t, Subscribed)];
  }

  lemma SnapsNothing(asked: MonitoringQuery, t: nat, o: Observation)
    requires IsAcceptable(asked, t) && To(asked, t) < t && o.observedAt == t
    ensures var l5, q := JustOpened(t, o, Stream(asked, t, Subscribed)), NormalForm(asked, t);
      && Enabled(l5, Normalise(0))
      && var l6 := Next(l5, Normalise(0));
      && Enabled(l6, Snap(0)) && Next(l6, Snap(0)) == JustOpened(t, o, Stream(asked, t, Snapped(q, [], 0)))
      && q.from <= t
      && var l7 := Next(l6, Snap(0));
      IsThrough(l7, 0, 0) && !S.WasOffered(l7.sse, Announcement(l7, 0), 0) && S.IsOpen(l7.sse, 0)
  {
    var l5, q := JustOpened(t, o, Stream(asked, t, Subscribed)), NormalForm(asked, t);
    assert q.to == To(asked, t) && q.from <= t;
    hide NormalForm, IsAcceptable, MatchesFilters;
    SelectNone([o], Matching(q));
    var l6 := Next(l5, Normalise(0));
    assert l6.streams == map[0 := Stream(asked, t, Normalised(q))];
    assert Next(l6, Snap(0)).streams == map[0 := Stream(asked, t, Snapped(q, [], 0))];
    hide Select;
  }
}
