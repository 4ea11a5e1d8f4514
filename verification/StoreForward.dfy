/** The store-and-forward protocol as a step system: the flight client, its disk queue, the
    in-process link and the gateway, interleaved one atomic action at a time. */
module StoreForward {
  import opened Wrappers
  import opened QueueDirectory

  const TELEMETRY: string := "TELEMETRY"

  datatype GroundMessage =
    | TelemetryAck(seqId: nat, highestAckSeqId: nat)
    | PlanUpload(plan: string)

  datatype Stats = Stats(
    messagesSent: nat, messagesQueued: nat, messagesReplayed: nat, acksReceived: nat,
    plansReceived: nat, connectCount: nat, disconnectCount: nat)

  datatype Client = Client(
    nextSeqId: nat, highestAck: nat, stats: Stats,
    sendTimestamps: map<nat, real>, ackLatencies: seq<real>, plans: seq<string>)

  datatype Gateway = Gateway(received: seq<Message>, highestAck: nat, planToSend: Option<string>)

  /** `pending` is what a running replay has read from disk and not sent yet; `replayed`
      counts what it has sent. While it is not empty the client's thread is inside connect. */
  datatype State = State(
    client: Client, disk: map<nat, Message>, pending: seq<Message>, replayed: nat,
    connected: bool, toGround: seq<Message>, toFlight: seq<GroundMessage>, gateway: Gateway)

  // ---- The flight client's actions ----

  /** Put one message on the link, which is up. */
  function Transmit(s: State, msg: Message, now: real): (s': State) {
    s.(toGround := s.toGround + [msg],
       client := s.client.(
         stats := s.client.stats.(messagesSent := s.client.stats.messagesSent + 1),
         sendTimestamps := s.client.sendTimestamps[msg.seqId := now]))
  }

  function Envelope(s: State, msgType: string, timestamp: string, payload: string): Message {
    Message(msgType, s.client.nextSeqId, timestamp, payload)
  }

  function TakeNumber(s: State): (s': State) {
    s.(client := s.client.(nextSeqId := s.client.nextSeqId + 1))
  }

  ghost function QueueToDisk(s: State, msg: Message, maxDepth: nat): (s': State) {
    s.(disk := Insert(s.disk, msg, maxDepth),
       client := s.client.(stats := s.client.stats.(messagesQueued := s.client.stats.messagesQueued + 1)))
  }

  ghost function Send(s: State, msg: Message, now: real, maxDepth: nat): (s': State) {
    if s.connected then Transmit(TakeNumber(s), msg, now) else QueueToDisk(TakeNumber(s), msg, maxDepth)
  }

  function Disconnect(s: State): (s': State) {
    s.(connected := false,
       client := s.client.(stats := s.client.stats.(disconnectCount := s.client.stats.disconnectCount + 1)))
  }

  /** Bring the link up and read the unacknowledged messages back from disk. */
  function Connect(s: State): (s': State) {
    s.(connected := true,
       client := s.client.(stats := s.client.stats.(connectCount := s.client.stats.connectCount + 1)),
       pending := ReplayList(s.disk, s.client.highestAck + 1, s.client.nextSeqId),
       replayed := 0)
  }

  function EndReplay(s: State): (s': State) {
    s.(pending := [], replayed := 0,
       client := s.client.(
         stats := s.client.stats.(messagesReplayed := s.client.stats.messagesReplayed + s.replayed)))
  }

  /** One turn of the replay loop: send the next message, or stop when the link is gone. */
  function ReplayOne(s: State, now: real): (s': State)
    requires s.pending != []
  {
    if !s.connected then EndReplay(s) else
      var s1 := Transmit(s, s.pending[0], now).(pending := s.pending[1..], replayed := s.replayed + 1);
      if s1.pending == [] then EndReplay(s1) else s1
  }

  function HandleAck(s: State, ack: nat, now: real): (s': State) {
    if ack <= s.client.highestAck then s else
      var c := s.client.(highestAck := ack,
                         stats := s.client.stats.(acksReceived := s.client.stats.acksReceived + 1));
      var c' := if ack !in c.sendTimestamps then c else
                  c.(ackLatencies := c.ackLatencies + [(now - c.sendTimestamps[ack]) * 1000.0],
                     sendTimestamps := map id | id in c.sendTimestamps && id > ack :: c.sendTimestamps[id]);
      s.(client := c', disk := map id | id in s.disk && id > ack :: s.disk[id])
  }

  function HandleIncoming(s: State, msg: GroundMessage, now: real): (s': State) {
    match msg
    case TelemetryAck(_, highest) => HandleAck(s, highest, now)
    case PlanUpload(plan) =>
      s.(client := s.client.(plans := s.client.plans + [plan],
                             stats := s.client.stats.(plansReceived := s.client.stats.plansReceived + 1)))
  }

  /** The link hands over the oldest message from the ground, if it is up and has one. */
  function ReceiveOne(s: State, now: real): (s': State) {
    if !s.connected || s.toFlight == [] then s else
      HandleIncoming(s.(toFlight := s.toFlight[1..]), s.toFlight[0], now)
  }

  // ---- The gateway's action ----

  function GatewayReceive(g: Gateway, msg: Message): (r: (Gateway, seq<GroundMessage>)) {
    var g1 := g.(received := g.received + [msg]);
    if msg.msgType != TELEMETRY then (g1, []) else
      var g2 := if msg.seqId > g.highestAck then g1.(highestAck := msg.seqId) else g1;
      var ack := TelemetryAck(msg.seqId, g2.highestAck);
      if g2.planToSend.Some?
      then (g2.(planToSend := None), [ack, PlanUpload(g2.planToSend.value)])
      else (g2, [ack])
  }

  function GatewayStep(s: State): (s': State) {
    if s.toGround == [] then s else
      var (g, out) := GatewayReceive(s.gateway, s.toGround[0]);
      s.(toGround := s.toGround[1..], gateway := g, toFlight := s.toFlight + out)
  }

  // ---- Runs ----

  datatype Event =
    | DoSend(msgType: string, timestamp: string, payload: string, now: real)
    | DoDisconnect
    | DoConnect
    | DoReplayOne(now: real)
    | DoReceiveOne(now: real)
    | DoGatewayStep
    | DoQueuePlan(plan: string)

  /** What a run has done, kept beside the state: every message `send` built, in order, and
      the ids a full disk queue has dropped. */
  datatype History = History(log: seq<Message>, dropped: set<nat>)

  datatype System = System(s: State, h: History)

  const FRESH_STATS := Stats(0, 0, 0, 0, 0, 0, 0)

  const INIT := System(
    State(Client(1, 0, FRESH_STATS, map[], [], []), map[], [], 0, false, [], [], Gateway([], 0, None)),
    History([], {}))

  /** Sends, receives and connects wait for a running replay: one thread drives the client.
      The link drop, the gateway and the planner act at any time. */
  ghost function Step(y: System, e: Event, maxDepth: nat): (y': System) {
    var s := y.s;
    match e
    case DoSend(msgType, timestamp, payload, now) =>
      if s.pending != [] then y else
        var msg := Envelope(s, msgType, timestamp, payload);
        System(Send(s, msg, now, maxDepth),
               History(y.h.log + [msg],
                       y.h.dropped + if !s.connected && Overflows(s.disk, maxDepth) then {OldestId(s.disk)} else {}))
    case DoDisconnect => y.(s := Disconnect(s))
    case DoConnect => if s.pending != [] then y else y.(s := Connect(s))
    case DoReplayOne(now) => if s.pending == [] then y else y.(s := ReplayOne(s, now))
    case DoReceiveOne(now) => if s.pending != [] then y else y.(s := ReceiveOne(s, now))
    case DoGatewayStep => y.(s := GatewayStep(s))
    case DoQueuePlan(plan) => y.(s := s.(gateway := s.gateway.(planToSend := Some(plan))))
  }

  ghost function Run(y: System, events: seq<Event>, maxDepth: nat): (y': System) {
    if events == [] then y else
      Step(Run(y, events[..|events| - 1], maxDepth), events[|events| - 1], maxDepth)
  }

  /** `verify_zero_loss`: what the client reports about its own delivery. */
  function ZeroLossReport(s: State, expectedCount: nat): bool {
    s.client.highestAck >= expectedCount && |s.disk| == 0
  }

  // ---- The invariant ----

  ghost function Ids(ms: seq<Message>): set<nat> {
    set m | m in ms :: m.seqId
  }

  ghost function TelemetryIds(ms: seq<Message>): set<nat> {
    set m | m in ms && m.msgType == TELEMETRY :: m.seqId
  }

  /** Everything ever put on the link towards the ground, in order. */
  function Wire(s: State): seq<Message> {
    s.gateway.received + s.toGround
  }

  /** Before an id goes on the wire, every smaller one has, except the dropped ones. */
  ghost predicate GapFree(wire: seq<Message>, dropped: set<nat>) {
    wire != [] ==>
      var front := wire[..|wire| - 1];
      GapFree(front, dropped) &&
      forall i :: 1 <= i < wire[|wire| - 1].seqId && i !in dropped ==> i in Ids(front)
  }

  /** m is the message that `send` built under its number. */
  ghost predicate Genuine(m: Message, log: seq<Message>) {
    1 <= m.seqId <= |log| && log[m.seqId - 1] == m
  }

  /** Only messages that `send` built are on the wire, in a replay or on disk. */
  ghost predicate IntegrityOf(log: seq<Message>, wire: seq<Message>, pending: seq<Message>, disk: map<nat, Message>, dropped: set<nat>) {
    && (forall m :: m in wire ==> Genuine(m, log))
    && (forall m :: m in pending ==> Genuine(m, log) && m.seqId in disk)
    && (forall id :: id in disk ==> disk[id].seqId == id && Genuine(disk[id], log))
    && (forall id :: id in dropped ==> 1 <= id < |log| && id !in disk)
  }

  /** Every id up to n is on the wire, on disk or dropped; while the link is up, every id is
      on the wire, about to be replayed or dropped. */
  ghost predicate DeliveryOf(n: nat, wire: seq<Message>, pending: seq<Message>, disk: map<nat, Message>, connected: bool, dropped: set<nat>) {
    && GapFree(wire, dropped)
    && (forall i :: 1 <= i <= n ==> i in Ids(wire) || i in disk || i in dropped)
    && (connected ==> forall i :: 1 <= i <= n ==> i in Ids(wire) || i in Ids(pending) || i in dropped)
    && IncreasingIds(pending)
  }

  ghost predicate Integrity(y: System) {
    && y.s.client.nextSeqId == |y.h.log| + 1
    && IntegrityOf(y.h.log, Wire(y.s), y.s.pending, y.s.disk, y.h.dropped)
  }

  ghost predicate Delivery(y: System) {
    DeliveryOf(|y.h.log|, Wire(y.s), y.s.pending, y.s.disk, y.s.connected, y.h.dropped)
  }

  /** The value the client's counter will have once it has read every pending reply. */
  function FinalAck(highest: nat, replies: seq<GroundMessage>): (r: nat)
    ensures r >= highest
    decreases |replies|
  {
    if replies == [] then highest else
      FinalAck(if replies[0].TelemetryAck? && replies[0].highestAckSeqId > highest
               then replies[0].highestAckSeqId else highest,
               replies[1..])
  }

  /** Every acknowledgement names a received id; the gateway's counter bounds the telemetry
      it has received, and is what the client's counter will become. */
  ghost predicate AcksOf(highest: nat, toFlight: seq<GroundMessage>, g: Gateway) {
    && (highest == 0 || highest in Ids(g.received))
    && (g.highestAck == 0 || g.highestAck in TelemetryIds(g.received))
    && (forall r :: r in toFlight && r.TelemetryAck? ==> r.highestAckSeqId in Ids(g.received))
    && (forall m :: m in g.received && m.msgType == TELEMETRY ==> m.seqId <= g.highestAck)
    && FinalAck(highest, toFlight) == g.highestAck
  }

  ghost predicate Acks(y: System) {
    var s := y.s;
    && AcksOf(s.client.highestAck, s.toFlight, s.gateway)
    && (forall id :: id in s.disk ==> id > s.client.highestAck)
    && (forall m :: m in s.pending ==> m.seqId > s.client.highestAck)
  }

  ghost predicate Counts(y: System) {
    var c := y.s.client;
    && (forall id :: id in c.sendTimestamps <==> id in Ids(Wire(y.s)) && id > c.highestAck)
    && |c.ackLatencies| == c.stats.acksReceived
    && c.stats.messagesSent == |Wire(y.s)|
    && c.stats.messagesSent + c.stats.messagesQueued
       == |y.h.log| + c.stats.messagesReplayed + y.s.replayed
  }

  ghost predicate Bookkeeping(y: System) {
    Counts(y) && (y.s.pending == [] ==> y.s.replayed == 0)
  }

  ghost predicate Inv(y: System) {
    Integrity(y) && Delivery(y) && Acks(y) && Bookkeeping(y)
  }

  // ---- Each event keeps it ----

  lemma {:induction false} IdsAppend(ms: seq<Message>, m: Message)
    ensures Ids(ms + [m]) == Ids(ms) + {m.seqId}
    ensures TelemetryIds(ms + [m]) == TelemetryIds(ms) + if m.msgType == TELEMETRY then {m.seqId} else {}
    ensures TelemetryIds(ms) <= Ids(ms)
  {
    assert forall x :: x in ms + [m] <==> x in ms || x == m;
  }

  /** Putting a message on the wire keeps it gap-free when all smaller ids are covered. */
  lemma {:induction false} GapFreeAppend(wire: seq<Message>, m: Message, dropped: set<nat>)
    requires GapFree(wire, dropped)
    requires forall i :: 1 <= i < m.seqId && i !in dropped ==> i in Ids(wire)
    ensures GapFree(wire + [m], dropped)
  {
    assert (wire + [m])[..|wire|] == wire;
  }

  lemma {:induction false} GapFreeMore(wire: seq<Message>, dropped: set<nat>, more: set<nat>)
    requires GapFree(wire, dropped)
    ensures GapFree(wire, dropped + more)
  {
    if wire != [] {
      GapFreeMore(wire[..|wire| - 1], dropped, more);
    }
  }

  lemma {:induction false} GapFreePrefix(ms: seq<Message>, rest: seq<Message>, dropped: set<nat>)
    requires GapFree(ms + rest, dropped)
    ensures GapFree(ms, dropped)
  {
    if rest == [] {
      assert ms + rest == ms;
    } else {
      assert (ms + rest)[..|ms + rest| - 1] == ms + rest[..|rest| - 1];
      GapFreePrefix(ms, rest[..|rest| - 1], dropped);
    }
  }

  lemma {:induction false} CoveredBelowId(ms: seq<Message>, dropped: set<nat>, ack: nat, i: nat)
    requires GapFree(ms, dropped)
    requires ack in Ids(ms) && 1 <= i <= ack && i !in dropped
    ensures i in Ids(ms)
  {
    var front, last := ms[..|ms| - 1], ms[|ms| - 1];
    assert ms == front + [last];
    IdsAppend(front, last);
    if ack in Ids(front) {
      CoveredBelowId(front, dropped, ack, i);
    }
  }

  /** An id on the wire means every smaller id is on the wire before it, or was dropped. */
  lemma {:induction false} CoveredBelow(ms: seq<Message>, rest: seq<Message>, dropped: set<nat>, ack: nat, i: nat)
    requires GapFree(ms + rest, dropped)
    requires ack in Ids(ms) && 1 <= i <= ack && i !in dropped
    ensures i in Ids(ms)
  {
    GapFreePrefix(ms, rest, dropped);
    CoveredBelowId(ms, dropped, ack, i);
  }

  /** What a transmission changes, and what it leaves alone. */
  lemma {:induction false} TransmitIs(s: State, msg: Message, now: real)
    ensures var s' := Transmit(s, msg, now);
      && Wire(s') == Wire(s) + [msg]
      && s'.disk == s.disk && s'.pending == s.pending && s'.replayed == s.replayed
      && s'.connected == s.connected && s'.toFlight == s.toFlight && s'.gateway == s.gateway
      && s'.client.nextSeqId == s.client.nextSeqId && s'.client.highestAck == s.client.highestAck
      && s'.client.ackLatencies == s.client.ackLatencies
      && s'.client.sendTimestamps == s.client.sendTimestamps[msg.seqId := now]
      && s'.client.stats == s.client.stats.(messagesSent := s.client.stats.messagesSent + 1)
  {
    assert s.gateway.received + (s.toGround + [msg]) == s.gateway.received + s.toGround + [msg];
  }

  lemma {:induction false} SendInv(y: System, e: Event, maxDepth: nat)
    requires Inv(y) && e.DoSend?
    ensures Inv(Step(y, e, maxDepth))
  {
    if y.s.pending == [] {
      var msg := Envelope(y.s, e.msgType, e.timestamp, e.payload);
      if y.s.connected {
        SendOnlineInv(y, msg, e.now);
        assert Step(y, e, maxDepth) == System(Transmit(TakeNumber(y.s), msg, e.now), History(y.h.log + [msg], y.h.dropped));
      } else {
        SendOfflineInv(y, msg, maxDepth);
      }
    }
  }

  lemma {:induction false} IntegrityGrows(log: seq<Message>, msg: Message, wire: seq<Message>, pending: seq<Message>, disk: map<nat, Message>, dropped: set<nat>)
    requires IntegrityOf(log, wire, pending, disk, dropped) && msg.seqId == |log| + 1
    ensures IntegrityOf(log + [msg], wire, pending, disk, dropped)
    ensures Genuine(msg, log + [msg])
    ensures msg.seqId !in Ids(wire) && msg.seqId !in disk && msg.seqId !in dropped
  {
  }

  lemma {:induction false} CountsAfterTransmit(y: System, y': System, msg: Message, now: real)
    requires Counts(y) && Wire(y'.s) == Wire(y.s) + [msg] && msg.seqId > y.s.client.highestAck
    requires y'.s.client.highestAck == y.s.client.highestAck
    requires y'.s.client.ackLatencies == y.s.client.ackLatencies
    requires y'.s.client.sendTimestamps == y.s.client.sendTimestamps[msg.seqId := now]
    requires y'.s.client.stats == y.s.client.stats.(messagesSent := y.s.client.stats.messagesSent + 1)
    requires |y'.h.log| + y'.s.replayed == |y.h.log| + y.s.replayed + 1
    ensures Counts(y')
  {
    IdsAppend(Wire(y.s), msg);
    hide Ids, Wire;
  }

  lemma {:induction false} AppendIntegrity(log: seq<Message>, msg: Message, wire: seq<Message>, disk: map<nat, Message>, dropped: set<nat>)
    requires IntegrityOf(log, wire, [], disk, dropped) && msg.seqId == |log| + 1
    ensures IntegrityOf(log + [msg], wire + [msg], [], disk, dropped)
  {
    IntegrityGrows(log, msg, wire, [], disk, dropped);
    hide Genuine;
    assert forall m :: m in wire + [msg] <==> m in wire || m == msg;
  }

  lemma {:induction false} AppendDelivery(n: nat, wire: seq<Message>, disk: map<nat, Message>, dropped: set<nat>, msg: Message)
    requires DeliveryOf(n, wire, [], disk, true, dropped) && msg.seqId == n + 1
    ensures DeliveryOf(n + 1, wire + [msg], [], disk, true, dropped)
  {
    assert Ids([]) == {};
    hide Ids, GapFree;
    IdsAppend(wire, msg);
    GapFreeAppend(wire, msg, dropped);
  }

  lemma {:induction false} SendOnlineInv(y: System, msg: Message, now: real)
    requires Inv(y) && y.s.pending == [] && y.s.connected && msg.seqId == y.s.client.nextSeqId
    ensures Inv(System(Transmit(TakeNumber(y.s), msg, now), History(y.h.log + [msg], y.h.dropped)))
  {
    hide IntegrityOf, DeliveryOf, AcksOf, Transmit, Ids;
    var s' := Transmit(TakeNumber(y.s), msg, now);
    TransmitIs(TakeNumber(y.s), msg, now);
    assert Wire(TakeNumber(y.s)) == Wire(y.s);
    AckBelowNext(y);
    hide Wire;
    AppendIntegrity(y.h.log, msg, Wire(y.s), y.s.disk, y.h.dropped);
    AppendDelivery(|y.h.log|, Wire(y.s), y.s.disk, y.h.dropped, msg);
    CountsAfterTransmit(y, System(s', History(y.h.log + [msg], y.h.dropped)), msg, now);
    hide Counts;
  }

  lemma {:induction false} InsertIntegrity(log: seq<Message>, msg: Message, wire: seq<Message>, disk: map<nat, Message>, dropped: set<nat>, maxDepth: nat)
    requires IntegrityOf(log, wire, [], disk, dropped) && msg.seqId == |log| + 1
    ensures var lost := if Overflows(disk, maxDepth) then {OldestId(disk)} else {};
      IntegrityOf(log + [msg], wire, [], Insert(disk, msg, maxDepth), dropped + lost)
  {
    IntegrityGrows(log, msg, wire, [], disk, dropped);
    hide Genuine;
  }

  lemma {:induction false} InsertDelivery(n: nat, wire: seq<Message>, disk: map<nat, Message>, dropped: set<nat>, msg: Message, maxDepth: nat)
    requires DeliveryOf(n, wire, [], disk, false, dropped) && msg.seqId == n + 1
    ensures var lost := if Overflows(disk, maxDepth) then {OldestId(disk)} else {};
      DeliveryOf(n + 1, wire, [], Insert(disk, msg, maxDepth), false, dropped + lost)
  {
    hide Ids;
    GapFreeMore(wire, dropped, if Overflows(disk, maxDepth) then {OldestId(disk)} else {});
  }

  lemma {:induction false} InsertAbove(disk: map<nat, Message>, msg: Message, maxDepth: nat, low: nat)
    requires forall id :: id in disk ==> id > low
    requires msg.seqId > low
    ensures forall id :: id in Insert(disk, msg, maxDepth) ==> id > low
  {
  }

  lemma {:induction false} SendOfflineInv(y: System, msg: Message, maxDepth: nat)
    requires Inv(y) && y.s.pending == [] && !y.s.connected && msg.seqId == y.s.client.nextSeqId
    ensures var lost := if Overflows(y.s.disk, maxDepth) then {OldestId(y.s.disk)} else {};
      Inv(System(QueueToDisk(TakeNumber(y.s), msg, maxDepth), History(y.h.log + [msg], y.h.dropped + lost)))
  {
    var wire := Wire(y.s);
    var s' := QueueToDisk(TakeNumber(y.s), msg, maxDepth);
    var lost := if Overflows(y.s.disk, maxDepth) then {OldestId(y.s.disk)} else {};
    var y' := System(s', History(y.h.log + [msg], y.h.dropped + lost));
    assert Wire(s') == wire;
    AckBelowNext(y);
    InsertIntegrity(y.h.log, msg, wire, y.s.disk, y.h.dropped, maxDepth);
    InsertDelivery(|y.h.log|, wire, y.s.disk, y.h.dropped, msg, maxDepth);
    InsertAbove(y.s.disk, msg, maxDepth, y.s.client.highestAck);
    hide IntegrityOf, DeliveryOf, Wire, Ids, Insert, OldestId, Overflows, GapFree, IncreasingIds, FinalAck;
    assert Integrity(y');
    assert Delivery(y');
    assert Acks(y');
    assert Bookkeeping(y');
  }

  lemma {:induction false} AckBelowNext(y: System)
    requires Integrity(y) && Acks(y)
    ensures y.s.client.highestAck <= |y.h.log| && y.s.gateway.highestAck <= |y.h.log|
  {
    assert TelemetryIds(y.s.gateway.received) <= Ids(y.s.gateway.received);
    assert forall m :: m in y.s.gateway.received ==> m in Wire(y.s);
  }

  /** What a connect reads from disk is everything the wire still lacks. */
  lemma {:induction false} ReplayCovers(disk: map<nat, Message>, highest: nat, next: nat)
    requires forall id :: id in disk ==> disk[id].seqId == id && highest < id < next
    ensures var pending := ReplayList(disk, highest + 1, next);
      && IncreasingIds(pending) && Ids(pending) == disk.Keys
      && forall m :: m in pending ==> m.seqId in disk && disk[m.seqId] == m
  {
    var pending := ReplayList(disk, highest + 1, next);
    ReplayListIs(disk, highest + 1, next);
    hide ReplayList, IncreasingIds;
    forall id | id in disk ensures id in Ids(pending) {
      assert disk[id] in pending;
    }
  }

  lemma {:induction false} ConnectInv(y: System)
    requires Inv(y) && y.s.pending == []
    ensures Inv(y.(s := Connect(y.s)))
  {
    var s := y.s;
    assert forall id :: id in s.disk ==> Genuine(s.disk[id], y.h.log);
    ReplayCovers(s.disk, s.client.highestAck, s.client.nextSeqId);
    assert Wire(Connect(s)) == Wire(s);
    hide ReplayList, GapFree, IncreasingIds, Ids, Wire, AcksOf;
  }

  lemma {:induction false} TransmitPendingDelivery(n: nat, wire: seq<Message>, pending: seq<Message>, disk: map<nat, Message>, dropped: set<nat>)
    requires DeliveryOf(n, wire, pending, disk, true, dropped)
    requires pending != [] && pending[0].seqId <= n
    ensures DeliveryOf(n, wire + [pending[0]], pending[1..], disk, true, dropped)
  {
    var head, rest := pending[0], pending[1..];
    HeadIsLeast(pending);
    IdsAppend(wire, head);
    hide Ids, GapFree, IncreasingIds;
    GapFreeAppend(wire, head, dropped);
  }

  lemma {:induction false} HeadIsLeast(pending: seq<Message>)
    requires IncreasingIds(pending) && pending != []
    ensures IncreasingIds(pending[1..])
    ensures Ids(pending) == {pending[0].seqId} + Ids(pending[1..])
    ensures forall i :: i in Ids(pending) ==> i >= pending[0].seqId
  {
    var head, rest := pending[0], pending[1..];
    assert pending == [head] + rest;
    assert forall m :: m in pending <==> m == head || m in rest;
    assert forall m :: m in rest ==> m.seqId > head.seqId;
  }

  /** The replay counts are settled when the loop ends, not here. */
  ghost predicate MidReplay(y: System) {
    Integrity(y) && Delivery(y) && Acks(y) && Counts(y)
  }

  lemma {:induction false} TransmitPendingIntegrity(log: seq<Message>, wire: seq<Message>, pending: seq<Message>, disk: map<nat, Message>, dropped: set<nat>)
    requires IntegrityOf(log, wire, pending, disk, dropped) && pending != []
    ensures IntegrityOf(log, wire + [pending[0]], pending[1..], disk, dropped)
    ensures Genuine(pending[0], log)
  {
    assert pending[0] in pending;
    assert forall m :: m in wire + [pending[0]] <==> m in wire || m == pending[0];
    assert forall m :: m in pending[1..] ==> m in pending;
  }

  lemma {:induction false} TransmitPendingInv(y: System, now: real)
    requires Inv(y) && y.s.connected && y.s.pending != []
    ensures MidReplay(y.(s := Transmit(y.s, y.s.pending[0], now).(pending := y.s.pending[1..], replayed := y.s.replayed + 1)))
  {
    hide IntegrityOf, DeliveryOf, AcksOf, Transmit, Ids;
    var s, head := y.s, y.s.pending[0];
    var s' := Transmit(s, head, now).(pending := s.pending[1..], replayed := s.replayed + 1);
    TransmitIs(s, head, now);
    assert Wire(s') == Wire(Transmit(s, head, now));
    hide Wire;
    TransmitPendingIntegrity(y.h.log, Wire(s), s.pending, s.disk, y.h.dropped);
    TransmitPendingDelivery(|y.h.log|, Wire(s), s.pending, s.disk, y.h.dropped);
    CountsAfterTransmit(y, y.(s := s'), head, now);
    hide Counts;
  }

  lemma {:induction false} EndReplayInv(y: System)
    requires MidReplay(y) && (y.s.connected ==> y.s.pending == [])
    ensures Inv(y.(s := EndReplay(y.s)))
  {
    assert Wire(EndReplay(y.s)) == Wire(y.s);
  }

  lemma {:induction false} ReplayOneInv(y: System, now: real)
    requires Inv(y) && y.s.pending != []
    ensures Inv(y.(s := ReplayOne(y.s, now)))
  {
    if y.s.connected {
      TransmitPendingInv(y, now);
      var s1 := Transmit(y.s, y.s.pending[0], now).(pending := y.s.pending[1..], replayed := y.s.replayed + 1);
      if s1.pending == [] {
        EndReplayInv(y.(s := s1));
      }
    } else {
      EndReplayInv(y);
    }
  }

  lemma {:induction false} HandleAckInv(y: System, ack: nat, now: real)
    requires Integrity(y) && Delivery(y) && Bookkeeping(y) && y.s.pending == []
    requires ack in Ids(y.s.gateway.received) && ack > y.s.client.highestAck
    ensures var y' := y.(s := HandleAck(y.s, ack, now)); Integrity(y') && Delivery(y') && Bookkeeping(y')
  {
    var s := y.s;
    var s' := HandleAck(s, ack, now);
    assert Wire(s') == Wire(s);
    assert forall m :: m in s.gateway.received ==> m in Wire(s);
    assert ack in s.client.sendTimestamps;
    forall i | 1 <= i <= |y.h.log| && i !in y.h.dropped && i !in Ids(Wire(s)) ensures i in s'.disk {
      if i <= ack {
        CoveredBelow(s.gateway.received, s.toGround, y.h.dropped, ack, i);
      }
    }
  }

  lemma {:induction false} ReceiveOneInv(y: System, now: real)
    requires Inv(y) && y.s.pending == []
    ensures Inv(y.(s := ReceiveOne(y.s, now)))
  {
    var s := y.s;
    if s.connected && s.toFlight != [] {
      var r, s1 := s.toFlight[0], s.(toFlight := s.toFlight[1..]);
      assert s.toFlight == [r] + s1.toFlight;
      assert Wire(s1) == Wire(s);
      if r.TelemetryAck? && r.highestAckSeqId > s.client.highestAck {
        HandleAckInv(y.(s := s1), r.highestAckSeqId, now);
      } else {
        assert Wire(HandleIncoming(s1, r, now)) == Wire(s);
      }
    }
  }

  lemma {:induction false} FinalAckAppend(highest: nat, replies: seq<GroundMessage>, more: seq<GroundMessage>)
    ensures FinalAck(highest, replies + more) == FinalAck(FinalAck(highest, replies), more)
    decreases |replies|
  {
    if replies == [] {
      assert replies + more == more;
    } else {
      assert (replies + more)[1..] == replies[1..] + more;
      FinalAckAppend(if replies[0].TelemetryAck? && replies[0].highestAckSeqId > highest
                     then replies[0].highestAckSeqId else highest, replies[1..], more);
    }
  }

  lemma {:induction false} GatewayAcks(highest: nat, toFlight: seq<GroundMessage>, g: Gateway, head: Message)
    requires AcksOf(highest, toFlight, g) && head.seqId >= 1
    ensures var (g', out) := GatewayReceive(g, head); AcksOf(highest, toFlight + out, g')
  {
    var (g', out) := GatewayReceive(g, head);
    IdsAppend(g.received, head);
    FinalAckAppend(highest, toFlight, out);
    FinalAckOfReply(g, head);
    hide FinalAck;
    assert forall r :: r in toFlight + out <==> r in toFlight || r in out;
  }

  lemma {:induction false} GatewayInv(y: System)
    requires Inv(y)
    ensures Inv(y.(s := GatewayStep(y.s)))
  {
    var s := y.s;
    if s.toGround != [] {
      var head := s.toGround[0];
      var s' := GatewayStep(s);
      assert s.toGround == [head] + s.toGround[1..];
      assert Wire(s') == Wire(s);
      assert head in Wire(s);
      GatewayAcks(s.client.highestAck, s.toFlight, s.gateway, head);
      hide IntegrityOf, DeliveryOf, AcksOf, Wire;
    }
  }

  lemma {:induction false} FinalAckOfReply(g: Gateway, msg: Message)
    ensures var (g', out) := GatewayReceive(g, msg);
      && FinalAck(g.highestAck, out) == g'.highestAck
      && (forall r :: r in out && r.TelemetryAck? ==> r.highestAckSeqId == g'.highestAck)
      && g'.highestAck == if msg.msgType == TELEMETRY && msg.seqId > g.highestAck then msg.seqId else g.highestAck
  {
    var (g', out) := GatewayReceive(g, msg);
    if |out| == 1 {
      assert out[1..] == [];
    } else if |out| == 2 {
      assert out[1..] == [out[1]] && out[1..][1..] == [];
      assert FinalAck(g'.highestAck, out[1..]) == FinalAck(g'.highestAck, out[1..][1..]);
      assert FinalAck(g.highestAck, out) == FinalAck(g'.highestAck, out[1..]);
    }
  }

  lemma {:induction false} StepInv(y: System, e: Event, maxDepth: nat)
    requires Inv(y)
    ensures Inv(Step(y, e, maxDepth))
  {
    match e
    case DoSend(_, _, _, _) => SendInv(y, e, maxDepth);
    case DoDisconnect => assert Wire(Disconnect(y.s)) == Wire(y.s);
    case DoConnect => if y.s.pending == [] { ConnectInv(y); }
    case DoReplayOne(now) => if y.s.pending != [] { ReplayOneInv(y, now); }
    case DoReceiveOne(now) => if y.s.pending == [] { ReceiveOneInv(y, now); }
    case DoGatewayStep => GatewayInv(y);
    case DoQueuePlan(plan) => assert Wire(Step(y, e, maxDepth).s) == Wire(y.s);
  }

  lemma {:induction false} RunInv(events: seq<Event>, maxDepth: nat)
    ensures Inv(Run(INIT, events, maxDepth))
  {
    if events != [] {
      RunInv(events[..|events| - 1], maxDepth);
      StepInv(Run(INIT, events[..|events| - 1], maxDepth), events[|events| - 1], maxDepth);
    }
  }
}
