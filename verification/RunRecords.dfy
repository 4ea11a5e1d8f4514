/** What the client and the gateway hold after a run, told from the run's events and from what
    passes over the link in each direction. */
module RunRecords {
  import opened Wrappers
  import opened QueueDirectory
  import opened StoreForward
  import opened WireOrder

  ghost function Before(events: seq<Event>, maxDepth: nat): System
    requires events != []
  {
    Run(INIT, events[..|events| - 1], maxDepth)
  }

  predicate HasClock(e: Event) {
    e.DoSend? || e.DoReplayOne? || e.DoReceiveOne?
  }

  function ClockOf(e: Event): real
    requires HasClock(e)
  {
    e.now
  }

  // ---- What is sent and when ----

  /** The clock at which the id was last put on the link. */
  ghost function SentAt(events: seq<Event>, maxDepth: nat, id: nat): Option<real> {
    if events == [] then None else
      var out := Added(Before(events, maxDepth), events[|events| - 1]);
      if out != [] && out[0].seqId == id then Some(ClockOf(events[|events| - 1]))
      else SentAt(events[..|events| - 1], maxDepth, id)
  }

  // ---- What is read ----

  function ReadNow(y: System, e: Event): seq<GroundMessage> {
    if e.DoReceiveOne? && y.s.pending == [] && y.s.connected && y.s.toFlight != [] then [y.s.toFlight[0]] else []
  }

  /** Everything the client has read from the link, in order. */
  ghost function Read(events: seq<Event>, maxDepth: nat): seq<GroundMessage> {
    if events == [] then [] else
      Read(events[..|events| - 1], maxDepth) + ReadNow(Before(events, maxDepth), events[|events| - 1])
  }

  /** The greatest id any of the replies acknowledges, 0 without one. */
  function HighestNamed(rs: seq<GroundMessage>): nat {
    if rs == [] then 0 else
      var r, h := rs[|rs| - 1], HighestNamed(rs[..|rs| - 1]);
      if r.TelemetryAck? && r.highestAckSeqId > h then r.highestAckSeqId else h
  }

  function PlansIn(rs: seq<GroundMessage>): seq<string> {
    if rs == [] then [] else
      PlansIn(rs[..|rs| - 1]) + if rs[|rs| - 1].PlanUpload? then [rs[|rs| - 1].plan] else []
  }

  /** The event reads an acknowledgement above all that were read before. */
  ghost predicate AckMoves(events: seq<Event>, maxDepth: nat)
    requires events != []
  {
    var r := ReadNow(Before(events, maxDepth), events[|events| - 1]);
    r != [] && r[0].TelemetryAck? && r[0].highestAckSeqId > HighestNamed(Read(events[..|events| - 1], maxDepth))
  }

  ghost function AckedNow(events: seq<Event>, maxDepth: nat): nat
    requires events != [] && AckMoves(events, maxDepth)
  {
    ReadNow(Before(events, maxDepth), events[|events| - 1])[0].highestAckSeqId
  }

  /** In milliseconds, from clocks in seconds. */
  function Latency(sent: real, received: real): real {
    (received - sent) * 1000.0
  }

  /** One entry for each acknowledgement that moves the counter, in order: 1000 times the clock of
      its receipt minus the clock at which the acknowledged id was last sent. */
  ghost function LatenciesOf(events: seq<Event>, maxDepth: nat): seq<real> {
    if events == [] then [] else
      var front := events[..|events| - 1];
      LatenciesOf(front, maxDepth) +
      if !AckMoves(events, maxDepth) then [] else
        match SentAt(front, maxDepth, AckedNow(events, maxDepth))
        case None => []
        case Some(sent) => [Latency(sent, ClockOf(events[|events| - 1]))]
  }

  // ---- One step ----

  lemma {:induction false} StepTimes(y: System, e: Event, maxDepth: nat, id: nat)
    requires id in Step(y, e, maxDepth).s.client.sendTimestamps
    ensures var sent := Step(y, e, maxDepth).s.client.sendTimestamps[id];
      if Added(y, e) != [] && Added(y, e)[0].seqId == id then HasClock(e) && sent == ClockOf(e)
      else id in y.s.client.sendTimestamps && sent == y.s.client.sendTimestamps[id]
  {
  }

  lemma {:induction false} StepAcks(y: System, e: Event, maxDepth: nat)
    ensures var c, c', r := y.s.client, Step(y, e, maxDepth).s.client, ReadNow(y, e);
      if r != [] && r[0].TelemetryAck? && r[0].highestAckSeqId > c.highestAck then
        && HasClock(e)
        && c'.highestAck == r[0].highestAckSeqId
        && (r[0].highestAckSeqId in c.sendTimestamps ==>
             c'.ackLatencies == c.ackLatencies + [Latency(c.sendTimestamps[r[0].highestAckSeqId], ClockOf(e))])
      else c'.highestAck == c.highestAck && c'.ackLatencies == c.ackLatencies
  {
  }

  /** What is read is acknowledged only for ids that are on the wire, so a moving one has a
      timestamp. */
  lemma {:induction false} MovingAckWasSent(y: System, e: Event)
    requires Inv(y) && ReadNow(y, e) != [] && ReadNow(y, e)[0].TelemetryAck?
    requires ReadNow(y, e)[0].highestAckSeqId > y.s.client.highestAck
    ensures ReadNow(y, e)[0].highestAckSeqId in y.s.client.sendTimestamps
  {
    hide IntegrityOf, DeliveryOf;
    var r := y.s.toFlight[0];
    assert r in y.s.toFlight;
    var m :| m in y.s.gateway.received && m.seqId == r.highestAckSeqId;
    assert m in Wire(y.s);
  }

  // ---- Over a run ----

  ghost predicate AckRecords(events: seq<Event>, maxDepth: nat) {
    var c := Run(INIT, events, maxDepth).s.client;
    && c.highestAck == HighestNamed(Read(events, maxDepth))
    && c.ackLatencies == LatenciesOf(events, maxDepth)
    && forall id :: id in c.sendTimestamps ==> SentAt(events, maxDepth, id) == Some(c.sendTimestamps[id])
  }

  lemma {:induction false} HighestNamedMore(rs: seq<GroundMessage>, r: GroundMessage)
    ensures HighestNamed(rs + [r])
         == if r.TelemetryAck? && r.highestAckSeqId > HighestNamed(rs) then r.highestAckSeqId else HighestNamed(rs)
    ensures PlansIn(rs + [r]) == PlansIn(rs) + if r.PlanUpload? then [r.plan] else []
  {
    assert (rs + [r])[..|rs|] == rs;
  }

  lemma {:induction false} ReadGrows(events: seq<Event>, maxDepth: nat)
    requires events != []
    ensures var r, read := ReadNow(Before(events, maxDepth), events[|events| - 1]), Read(events[..|events| - 1], maxDepth);
      && |r| <= 1
      && HighestNamed(Read(events, maxDepth)) == if AckMoves(events, maxDepth) then r[0].highestAckSeqId else HighestNamed(read)
  {
    var r, read := ReadNow(Before(events, maxDepth), events[|events| - 1]), Read(events[..|events| - 1], maxDepth);
    hide HighestNamed, Run;
    if r == [] {
      assert Read(events, maxDepth) == read;
    } else {
      assert r == [r[0]];
      HighestNamedMore(read, r[0]);
    }
  }

  lemma {:induction false} HighestStep(events: seq<Event>, maxDepth: nat)
    requires events != [] && AckRecords(events[..|events| - 1], maxDepth)
    ensures Run(INIT, events, maxDepth).s.client.highestAck == HighestNamed(Read(events, maxDepth))
  {
    StepAcks(Before(events, maxDepth), events[|events| - 1], maxDepth);
    ReadGrows(events, maxDepth);
    hide Step, HighestNamed, Read, ReadNow, LatenciesOf, SentAt;
  }

  lemma {:induction false} LatenciesGrow(events: seq<Event>, maxDepth: nat)
    requires events != []
    ensures var front := events[..|events| - 1];
      && (!AckMoves(events, maxDepth) ==> LatenciesOf(events, maxDepth) == LatenciesOf(front, maxDepth))
      && (AckMoves(events, maxDepth) && SentAt(front, maxDepth, AckedNow(events, maxDepth)).Some? ==>
           LatenciesOf(events, maxDepth) == LatenciesOf(front, maxDepth)
             + [Latency(SentAt(front, maxDepth, AckedNow(events, maxDepth)).value, ClockOf(events[|events| - 1]))])
  {
    hide AckMoves, AckedNow, SentAt;
    assert forall ls: seq<real> :: ls + [] == ls;
  }

  lemma {:induction false} MovingIsTimed(events: seq<Event>, maxDepth: nat)
    requires events != [] && AckRecords(events[..|events| - 1], maxDepth) && AckMoves(events, maxDepth)
    ensures AckedNow(events, maxDepth) in Before(events, maxDepth).s.client.sendTimestamps
  {
    RunInv(events[..|events| - 1], maxDepth);
    hide Inv, Run;
    MovingAckWasSent(Before(events, maxDepth), events[|events| - 1]);
  }

  lemma {:induction false} LatencyStays(events: seq<Event>, maxDepth: nat)
    requires events != [] && AckRecords(events[..|events| - 1], maxDepth) && !AckMoves(events, maxDepth)
    ensures Run(INIT, events, maxDepth).s.client.ackLatencies == LatenciesOf(events, maxDepth)
  {
    StepAcks(Before(events, maxDepth), events[|events| - 1], maxDepth);
    LatenciesGrow(events, maxDepth);
    hide Step, HighestNamed, SentAt, Read, ReadNow, LatenciesOf;
  }

  lemma {:induction false} LatencyMoves(events: seq<Event>, maxDepth: nat)
    requires events != [] && AckRecords(events[..|events| - 1], maxDepth) && AckMoves(events, maxDepth)
    ensures Run(INIT, events, maxDepth).s.client.ackLatencies == LatenciesOf(events, maxDepth)
  {
    MovingIsTimed(events, maxDepth);
    StepAcks(Before(events, maxDepth), events[|events| - 1], maxDepth);
    LatenciesGrow(events, maxDepth);
    hide Step, HighestNamed, SentAt, Read, ReadNow, LatenciesOf, Latency;
    var sent := Before(events, maxDepth).s.client.sendTimestamps[AckedNow(events, maxDepth)];
    assert SentAt(events[..|events| - 1], maxDepth, AckedNow(events, maxDepth)) == Some(sent);
    hide AckRecords;
  }

  lemma {:induction false} TimesStep(events: seq<Event>, maxDepth: nat)
    requires events != [] && AckRecords(events[..|events| - 1], maxDepth)
    ensures var c := Run(INIT, events, maxDepth).s.client;
      forall id :: id in c.sendTimestamps ==> SentAt(events, maxDepth, id) == Some(c.sendTimestamps[id])
  {
    hide Step, Added, Read, LatenciesOf, HighestNamed;
    var c := Run(INIT, events, maxDepth).s.client;
    forall id | id in c.sendTimestamps ensures SentAt(events, maxDepth, id) == Some(c.sendTimestamps[id]) {
      StepTimes(Before(events, maxDepth), events[|events| - 1], maxDepth, id);
    }
  }

  /** In every run the client's counter is the highest acknowledgement it has read, its
      timestamps are the clocks of the last transmissions, and its latencies are the times from
      there to the acknowledgements, in order. */
  lemma {:induction false} LatenciesAre(events: seq<Event>, maxDepth: nat)
    ensures AckRecords(events, maxDepth)
  {
    if events != [] {
      LatenciesAre(events[..|events| - 1], maxDepth);
      HighestStep(events, maxDepth);
      if AckMoves(events, maxDepth) {
        LatencyMoves(events, maxDepth);
      } else {
        LatencyStays(events, maxDepth);
      }
      TimesStep(events, maxDepth);
    }
  }

  /** Every acknowledgement that moves the counter adds an entry. */
  lemma {:induction false} MovingAddsOne(events: seq<Event>, maxDepth: nat)
    requires events != []
    ensures |LatenciesOf(events, maxDepth)|
            == |LatenciesOf(events[..|events| - 1], maxDepth)| + if AckMoves(events, maxDepth) then 1 else 0
  {
    LatenciesAre(events[..|events| - 1], maxDepth);
    if AckMoves(events, maxDepth) {
      MovingIsTimed(events, maxDepth);
    }
    LatenciesGrow(events, maxDepth);
  }

  /** The clock the events were stamped with never runs backwards. */
  ghost predicate ClockForward(events: seq<Event>) {
    forall i, j :: 0 <= i < j < |events| && HasClock(events[i]) && HasClock(events[j])
      ==> ClockOf(events[i]) <= ClockOf(events[j])
  }

  lemma {:induction false} SentAtIsEvent(events: seq<Event>, maxDepth: nat, id: nat)
    requires SentAt(events, maxDepth, id).Some?
    ensures exists i :: 0 <= i < |events| && HasClock(events[i]) && SentAt(events, maxDepth, id) == Some(ClockOf(events[i]))
  {
    var out := Added(Before(events, maxDepth), events[|events| - 1]);
    if out == [] || out[0].seqId != id {
      SentAtIsEvent(events[..|events| - 1], maxDepth, id);
    }
  }

  /** Under a clock that never runs backwards no latency is negative. */
  lemma {:induction false} LatenciesNotNegative(events: seq<Event>, maxDepth: nat)
    requires ClockForward(events)
    ensures forall l :: l in Run(INIT, events, maxDepth).s.client.ackLatencies ==> l >= 0.0
  {
    LatenciesAre(events, maxDepth);
    LatenciesOfNotNegative(events, maxDepth);
  }

  lemma {:induction false} LatenciesOfNotNegative(events: seq<Event>, maxDepth: nat)
    requires ClockForward(events)
    ensures forall l :: l in LatenciesOf(events, maxDepth) ==> l >= 0.0
  {
    if events != [] {
      var front := events[..|events| - 1];
      LatenciesOfNotNegative(front, maxDepth);
      if AckMoves(events, maxDepth) && SentAt(front, maxDepth, AckedNow(events, maxDepth)).Some? {
        SentAtIsEvent(front, maxDepth, AckedNow(events, maxDepth));
        var i :| 0 <= i < |front| && HasClock(front[i]) && SentAt(front, maxDepth, AckedNow(events, maxDepth)) == Some(ClockOf(front[i]));
        assert front[i] == events[i];
      }
    }
  }

  // ---- What the gateway answers ----

  /** The gateway reads a telemetry message. */
  predicate TelemetryHeard(y: System, e: Event) {
    e.DoGatewayStep? && y.s.toGround != [] && y.s.toGround[0].msgType == TELEMETRY
  }

  /** The highest id of a telemetry message, 0 without one. */
  function HighestTelemetry(ms: seq<Message>): nat {
    if ms == [] then 0 else
      var m, h := ms[|ms| - 1], HighestTelemetry(ms[..|ms| - 1]);
      if m.msgType == TELEMETRY && m.seqId > h then m.seqId else h
  }

  /** The latest plan queued since the gateway last read telemetry. */
  ghost function PlanWaiting(events: seq<Event>, maxDepth: nat): Option<string> {
    if events == [] then None else
      var e := events[|events| - 1];
      if e.DoQueuePlan? then Some(e.plan)
      else if TelemetryHeard(Before(events, maxDepth), e) then None
      else PlanWaiting(events[..|events| - 1], maxDepth)
  }

  /** The answer to a telemetry message: one acknowledgement, and after it the plan that waits,
      if there is one. */
  function AnswerNow(y: System, e: Event, waiting: Option<string>): seq<GroundMessage> {
    if !TelemetryHeard(y, e) then [] else
      var m := y.s.toGround[0];
      [TelemetryAck(m.seqId, HighestTelemetry(y.s.gateway.received + [m]))] +
      match waiting
      case None => []
      case Some(plan) => [PlanUpload(plan)]
  }

  /** Everything the gateway has put on the link, in order. */
  ghost function Answers(events: seq<Event>, maxDepth: nat): seq<GroundMessage> {
    if events == [] then [] else
      var front := events[..|events| - 1];
      Answers(front, maxDepth) + AnswerNow(Before(events, maxDepth), events[|events| - 1], PlanWaiting(front, maxDepth))
  }

  ghost predicate GatewayRecords(events: seq<Event>, maxDepth: nat) {
    var s := Run(INIT, events, maxDepth).s;
    && s.gateway.highestAck == HighestTelemetry(s.gateway.received)
    && s.gateway.planToSend == PlanWaiting(events, maxDepth)
    && Answers(events, maxDepth) == Read(events, maxDepth) + s.toFlight
  }

  lemma {:induction false} HighestTelemetryMore(ms: seq<Message>, m: Message)
    ensures HighestTelemetry(ms + [m])
         == if m.msgType == TELEMETRY && m.seqId > HighestTelemetry(ms) then m.seqId else HighestTelemetry(ms)
  {
    assert (ms + [m])[..|ms|] == ms;
  }

  lemma {:induction false} GatewayStepRecords(y: System, e: Event, maxDepth: nat)
    requires y.s.gateway.highestAck == HighestTelemetry(y.s.gateway.received)
    ensures var g := Step(y, e, maxDepth).s.gateway;
      && g.highestAck == HighestTelemetry(g.received)
      && g.planToSend == (if e.DoQueuePlan? then Some(e.plan) else if TelemetryHeard(y, e) then None else y.s.gateway.planToSend)
  {
    if e.DoGatewayStep? && y.s.toGround != [] {
      HighestTelemetryMore(y.s.gateway.received, y.s.toGround[0]);
    }
  }

  lemma {:induction false} StepToFlight(y: System, e: Event, maxDepth: nat)
    requires y.s.gateway.highestAck == HighestTelemetry(y.s.gateway.received)
    ensures ReadNow(y, e) + Step(y, e, maxDepth).s.toFlight
            == y.s.toFlight + AnswerNow(y, e, y.s.gateway.planToSend)
  {
    if TelemetryHeard(y, e) {
      HighestTelemetryMore(y.s.gateway.received, y.s.toGround[0]);
    }
  }

  /** In every run the gateway's counter is the highest telemetry id it has received, it holds
      the latest plan that waits, and what the client has read and what is still on the link are
      its answers, in order and none twice. */
  lemma {:induction false} AnswersAre(events: seq<Event>, maxDepth: nat)
    ensures GatewayRecords(events, maxDepth)
  {
    if events != [] {
      var front, e, y := events[..|events| - 1], events[|events| - 1], Before(events, maxDepth);
      AnswersAre(front, maxDepth);
      GatewayStepRecords(y, e, maxDepth);
      StepToFlight(y, e, maxDepth);
      hide Step, TelemetryHeard, ReadNow, HighestTelemetry, AnswerNow;
      Regroup(Read(front, maxDepth), ReadNow(y, e), Step(y, e, maxDepth).s.toFlight, y.s.toFlight,
              AnswerNow(y, e, y.s.gateway.planToSend));
    }
  }

  lemma {:induction false} Regroup(read: seq<GroundMessage>, now: seq<GroundMessage>, left: seq<GroundMessage>, flight: seq<GroundMessage>, out: seq<GroundMessage>)
    requires now + left == flight + out
    ensures (read + now) + left == (read + flight) + out
  {
    assert (read + now) + left == read + (now + left);
  }

  // ---- Plans ----

  lemma {:induction false} StepPlans(y: System, e: Event, maxDepth: nat)
    ensures var c, c', r := y.s.client, Step(y, e, maxDepth).s.client, ReadNow(y, e);
      if r != [] && r[0].PlanUpload?
      then c'.plans == c.plans + [r[0].plan] && c'.stats.plansReceived == c.stats.plansReceived + 1
      else c'.plans == c.plans && c'.stats.plansReceived == c.stats.plansReceived
  {
  }

  lemma {:induction false} PlansInBoth(a: seq<GroundMessage>, b: seq<GroundMessage>)
    ensures PlansIn(a + b) == PlansIn(a) + PlansIn(b)
  {
    if b == [] {
      assert a + b == a;
    } else {
      var front := b[..|b| - 1];
      assert (a + b)[..|a + b| - 1] == a + front;
      PlansInBoth(a, front);
    }
  }

  /** Every plan handed over reaches the client once and in order: the client holds those it has
      read, and the rest are on the link. */
  lemma {:induction false} PlansArrive(events: seq<Event>, maxDepth: nat)
    ensures var s := Run(INIT, events, maxDepth).s;
      && s.client.plans == PlansIn(Read(events, maxDepth))
      && s.client.stats.plansReceived == |s.client.plans|
      && s.client.plans + PlansIn(s.toFlight) == PlansIn(Answers(events, maxDepth))
  {
    AnswersAre(events, maxDepth);
    PlansInBoth(Read(events, maxDepth), Run(INIT, events, maxDepth).s.toFlight);
    PlansRead(events, maxDepth);
  }

  lemma {:induction false} PlansRead(events: seq<Event>, maxDepth: nat)
    ensures var c := Run(INIT, events, maxDepth).s.client;
      c.plans == PlansIn(Read(events, maxDepth)) && c.stats.plansReceived == |c.plans|
  {
    if events != [] {
      var front, e, y := events[..|events| - 1], events[|events| - 1], Before(events, maxDepth);
      PlansRead(front, maxDepth);
      StepPlans(y, e, maxDepth);
      hide Step;
      if ReadNow(y, e) == [] {
        assert Read(events, maxDepth) == Read(front, maxDepth);
      } else {
        HighestNamedMore(Read(front, maxDepth), ReadNow(y, e)[0]);
      }
    }
  }

  // ---- The link, the log and the counters ----

  /** The link is up exactly from a connect to the next drop. */
  ghost function LinkUp(events: seq<Event>, maxDepth: nat): bool {
    events != [] &&
      var e := events[|events| - 1];
      if e.DoConnect? && Before(events, maxDepth).s.pending == [] then true
      else !e.DoDisconnect? && LinkUp(events[..|events| - 1], maxDepth)
  }

  /** The messages `send` was asked for, numbered from 1. */
  ghost function Requested(events: seq<Event>, maxDepth: nat): seq<Message> {
    if events == [] then [] else
      var front, e := Requested(events[..|events| - 1], maxDepth), events[|events| - 1];
      if Sends(Before(events, maxDepth), e) then front + [Message(e.msgType, |front| + 1, e.timestamp, e.payload)] else front
  }

  predicate Sends(y: System, e: Event) {
    e.DoSend? && y.s.pending == []
  }

  predicate SendsToDisk(y: System, e: Event) {
    Sends(y, e) && !y.s.connected
  }

  predicate Connects(y: System, e: Event) {
    e.DoConnect? && y.s.pending == []
  }

  predicate Drops(y: System, e: Event) {
    e.DoDisconnect?
  }

  predicate Replays(y: System, e: Event) {
    e.DoReplayOne? && y.s.pending != [] && y.s.connected
  }

  predicate GatewayReads(y: System, e: Event) {
    e.DoGatewayStep? && y.s.toGround != []
  }

  /** How many of the events did this. */
  ghost function Times(events: seq<Event>, maxDepth: nat, did: (System, Event) -> bool): nat {
    if events == [] then 0 else
      Times(events[..|events| - 1], maxDepth, did) + if did(Before(events, maxDepth), events[|events| - 1]) then 1 else 0
  }

  ghost predicate RunRecordsOf(events: seq<Event>, maxDepth: nat) {
    var y := Run(INIT, events, maxDepth);
    var st := y.s.client.stats;
    && y.s.connected == LinkUp(events, maxDepth)
    && y.h.log == Requested(events, maxDepth)
    && st.messagesSent == |Wire(y.s)|
    && st.messagesQueued == Times(events, maxDepth, SendsToDisk)
    && st.messagesReplayed + y.s.replayed == Times(events, maxDepth, Replays)
    && st.connectCount == Times(events, maxDepth, Connects)
    && st.disconnectCount == Times(events, maxDepth, Drops)
    && |y.s.gateway.received| == Times(events, maxDepth, GatewayReads)
  }

  lemma {:induction false} StepCounts(y: System, e: Event, maxDepth: nat)
    ensures var y' := Step(y, e, maxDepth);
      var st, st' := y.s.client.stats, y'.s.client.stats;
      && y'.s.connected == (if Connects(y, e) then true else !e.DoDisconnect? && y.s.connected)
      && y'.h.log == (if Sends(y, e) then y.h.log + [Message(e.msgType, y.s.client.nextSeqId, e.timestamp, e.payload)] else y.h.log)
      && st'.messagesQueued == st.messagesQueued + (if SendsToDisk(y, e) then 1 else 0)
      && st'.messagesReplayed + y'.s.replayed
         == (if Connects(y, e) then st.messagesReplayed else st.messagesReplayed + y.s.replayed) + (if Replays(y, e) then 1 else 0)
      && st'.connectCount == st.connectCount + (if Connects(y, e) then 1 else 0)
      && st'.disconnectCount == st.disconnectCount + (if Drops(y, e) then 1 else 0)
      && |y'.s.gateway.received| == |y.s.gateway.received| + (if GatewayReads(y, e) then 1 else 0)
  {
  }

  lemma {:induction false} BookkeepingParts(events: seq<Event>, maxDepth: nat)
    ensures var y := Run(INIT, events, maxDepth);
      && y.s.client.stats.messagesSent == |Wire(y.s)| && y.s.client.nextSeqId == |y.h.log| + 1
      && (y.s.pending == [] ==> y.s.replayed == 0)
  {
    hide Run;
    RunInv(events, maxDepth);
  }

  /** In every run the link flag, the log and the counters tell what the run did. */
  lemma {:induction false} CountersAre(events: seq<Event>, maxDepth: nat)
    ensures RunRecordsOf(events, maxDepth)
  {
    BookkeepingParts(events, maxDepth);
    if events != [] {
      var front, e, y := events[..|events| - 1], events[|events| - 1], Before(events, maxDepth);
      CountersAre(front, maxDepth);
      BookkeepingParts(front, maxDepth);
      StepCounts(y, e, maxDepth);
      hide Step, Wire, Sends, Drops, GatewayReads, Replays, SendsToDisk;
    }
  }
}
