/** The communications client, its in-process transport and the mock gateway as objects;
    each method is one action of the protocol on the abstract state. */
module Comms {
  import opened Wrappers
  import opened QueueDirectory
  import opened StoreForward
  import opened DiskQueues
  import FileNames
  import Latency

  /** Two FIFO queues and a flag. */
  class InProcessTransport {
    var flightToGround: seq<Message>
    var groundToFlight: seq<GroundMessage>
    var connected: bool

    constructor ()
      ensures flightToGround == [] && groundToFlight == [] && !connected
    {
      flightToGround, groundToFlight, connected := [], [], false;
    }

    method Connect() returns (ok: bool)
      modifies this`connected
      ensures ok && connected
    {
      connected := true;
      ok := true;
    }

    method Disconnect()
      modifies this`connected
      ensures !connected
    {
      connected := false;
    }

    method Send(msg: Message) returns (ok: bool)
      modifies this`flightToGround
      ensures ok == connected
      ensures flightToGround == if ok then old(flightToGround) + [msg] else old(flightToGround)
    {
      if !connected {
        return false;
      }
      flightToGround := flightToGround + [msg];
      ok := true;
    }

    method Recv() returns (msg: Option<GroundMessage>)
      modifies this`groundToFlight
      ensures msg.Some? <==> connected && old(groundToFlight) != []
      ensures msg.Some? ==> old(groundToFlight) == [msg.value] + groundToFlight
      ensures msg.None? ==> groundToFlight == old(groundToFlight)
    {
      if !connected || groundToFlight == [] {
        return None;
      }
      msg := Some(groundToFlight[0]);
      groundToFlight := groundToFlight[1..];
    }

    method GroundRecv() returns (msg: Option<Message>)
      modifies this`flightToGround
      ensures msg.Some? <==> old(flightToGround) != []
      ensures msg.Some? ==> old(flightToGround) == [msg.value] + flightToGround
      ensures msg.None? ==> flightToGround == old(flightToGround)
    {
      if flightToGround == [] {
        return None;
      }
      msg := Some(flightToGround[0]);
      flightToGround := flightToGround[1..];
    }

    method GroundSend(msg: GroundMessage)
      modifies this`groundToFlight
      ensures groundToFlight == old(groundToFlight) + [msg]
    {
      groundToFlight := groundToFlight + [msg];
    }
  }

  class MockGateway {
    const transport: InProcessTransport
    var received: seq<Message>
    var highestAck: nat
    var planToSend: Option<string>

    constructor (transport: InProcessTransport)
      ensures this.transport == transport && View() == Gateway([], 0, None)
    {
      this.transport := transport;
      received, highestAck, planToSend := [], 0, None;
    }

    ghost function View(): Gateway
      reads this
    {
      Gateway(received, highestAck, planToSend)
    }

    method QueuePlan(plan: string)
      modifies this`planToSend
      ensures planToSend == Some(plan)
    {
      planToSend := Some(plan);
    }

    /** One turn of the receive loop. */
    method LoopOnce()
      modifies this, transport`flightToGround, transport`groundToFlight
      ensures old(transport.flightToGround) == [] ==>
        View() == old(View()) && transport.flightToGround == [] && transport.groundToFlight == old(transport.groundToFlight)
      ensures old(transport.flightToGround) != [] ==>
        var (g, out) := GatewayReceive(old(View()), old(transport.flightToGround)[0]);
        && View() == g
        && transport.flightToGround == old(transport.flightToGround)[1..]
        && transport.groundToFlight == old(transport.groundToFlight) + out
    {
      var raw := transport.GroundRecv();
      if raw.None? {
        return;
      }
      var msg := raw.value;
      received := received + [msg];
      if msg.msgType == TELEMETRY {
        if msg.seqId > highestAck {
          highestAck := msg.seqId;
        }
        transport.GroundSend(TelemetryAck(msg.seqId, highestAck));
        if planToSend.Some? {
          transport.GroundSend(PlanUpload(planToSend.value));
          planToSend := None;
        }
      }
    }
  }

  /** The rest of a replay once it runs without interruption; `clock(k)` is the reading taken
      when the k-th message goes out. */
  function ReplayRest(s: State, clock: nat -> real): (s': State)
    decreases |s.pending|
  {
    if s.pending == [] then s else ReplayRest(ReplayOne(s, clock(s.replayed)), clock)
  }

  /** What is left to do when the loop stands at s: the rest, or settling the count. */
  function RestOf(s: State, clock: nat -> real): (s': State) {
    if s.pending == [] then EndReplay(s) else ReplayRest(s, clock)
  }

  function SentOne(s: State, now: real): (s': State)
    requires s.pending != []
  {
    Transmit(s, s.pending[0], now).(pending := s.pending[1..], replayed := s.replayed + 1)
  }

  lemma RestOfStart(s: State, clock: nat -> real)
    requires s.pending != []
    ensures RestOf(s, clock) == ReplayRest(s, clock)
  {
  }

  lemma RestOfStep(s: State, clock: nat -> real)
    requires s.pending != [] && s.connected
    ensures RestOf(s, clock) == RestOf(SentOne(s, clock(s.replayed)), clock)
  {
    var s1 := SentOne(s, clock(s.replayed));
    assert ReplayRest(s, clock) == ReplayRest(ReplayOne(s, clock(s.replayed)), clock);
    assert s1.pending == [] ==> ReplayOne(s, clock(s.replayed)) == EndReplay(s1);
  }

  lemma RestOfEnd(s: State, clock: nat -> real)
    requires s.pending == [] || !s.connected
    ensures RestOf(s, clock) == EndReplay(s)
  {
    if s.pending != [] {
      assert ReplayOne(s, clock(s.replayed)) == EndReplay(s);
      assert ReplayRest(EndReplay(s), clock) == EndReplay(s);
    }
  }

  /** Up to `maxCount` receives, stopping at the first that finds nothing. */
  function Drain(s: State, maxCount: nat, clock: nat -> real): (s': State)
    decreases maxCount
  {
    if maxCount == 0 || !s.connected || s.toFlight == [] then s
    else Drain(ReceiveOne(s, clock(maxCount)), maxCount - 1, clock)
  }

  /** With the link up a drain reads the oldest replies, as many as it may and as there are;
      with the link down it reads none. */
  lemma {:induction false} DrainReads(s: State, maxCount: nat, clock: nat -> real)
    ensures Drain(s, maxCount, clock).toFlight ==
      if !s.connected then s.toFlight
      else if maxCount < |s.toFlight| then s.toFlight[maxCount..]
      else []
    decreases maxCount
  {
    if maxCount > 0 && s.connected && s.toFlight != [] {
      var next := ReceiveOne(s, clock(maxCount));
      assert next.toFlight == s.toFlight[1..] && next.connected;
      hide ReceiveOne;
      DrainReads(next, maxCount - 1, clock);
    }
  }

  datatype ZeroLossVerdict = ZeroLossVerdict(
    totalGenerated: int, highestAck: nat, queueRemaining: nat, unacked: int, zeroLoss: bool)

  class CommsClient {
    const transport: InProcessTransport
    const queue: DiskQueue

    var nextSeqId: nat
    var highestAckSeqId: nat
    var stats: Stats
    var sendTimestamps: map<nat, real>
    var ackLatencies: seq<real>
    var plans: seq<string>

    /** A fresh client over an empty queue: numbering restarts at 1. */
    constructor (transport: InProcessTransport, queue: DiskQueue)
      requires WellFormed(queue.files) && Contents(queue.files) == map[]
      ensures this.transport == transport && this.queue == queue
      ensures Valid() && View() == INIT.s.client
    {
      this.transport, this.queue := transport, queue;
      nextSeqId, highestAckSeqId, stats := 1, 0, FRESH_STATS;
      sendTimestamps, ackLatencies, plans := map[], [], [];
      IdsBelowIs(queue.files, 1);
    }

    ghost predicate Valid()
      reads this, queue
    {
      WellFormed(queue.files) && IdsBelow(queue.files, nextSeqId) && 1 <= nextSeqId <= FileNames.ID_LIMIT
    }

    ghost function View(): Client
      reads this
    {
      Client(nextSeqId, highestAckSeqId, stats, sendTimestamps, ackLatencies, plans)
    }

    /** The protocol state as the client's actions see it; they do not touch the gateway. */
    ghost function Abs(): State
      requires Valid()
      reads this, queue, transport
    {
      AbsReplaying([], 0)
    }

    ghost function AbsReplaying(pending: seq<Message>, replayed: nat): State
      requires Valid()
      reads this, queue, transport
    {
      State(View(), Contents(queue.files), pending, replayed, transport.connected,
            transport.flightToGround, transport.groundToFlight, Gateway([], 0, None))
    }

    method SendTransport(msg: Message, now: real) returns (ok: bool)
      modifies this`stats, this`sendTimestamps, transport`flightToGround
      ensures ok == transport.connected
      ensures transport.flightToGround == if ok then old(transport.flightToGround) + [msg] else old(transport.flightToGround)
      ensures stats == if ok then old(stats).(messagesSent := old(stats).messagesSent + 1) else old(stats)
      ensures sendTimestamps == if ok then old(sendTimestamps)[msg.seqId := now] else old(sendTimestamps)
    {
      ok := transport.Send(msg);
      if ok {
        stats := stats.(messagesSent := stats.messagesSent + 1);
        sendTimestamps := sendTimestamps[msg.seqId := now];
      }
    }

    method QueueToDisk(msg: Message)
      requires WellFormed(queue.files) && IdsBelow(queue.files, FileNames.ID_LIMIT)
      modifies this`stats, queue`files
      ensures WellFormed(queue.files)
      ensures Contents(queue.files) == QueueDirectory.Insert(old(Contents(queue.files)), msg, queue.maxDepth)
      ensures stats == old(stats).(messagesQueued := old(stats).messagesQueued + 1)
    {
      EnqueueRefines(queue.files, msg, queue.maxDepth);
      var r, _ := queue.Enqueue(Keyed(msg));
      stats := stats.(messagesQueued := stats.messagesQueued + 1);
    }

    method Send(msgType: string, timestamp: string, payload: string, now: real) returns (seqId: nat)
      requires Valid() && nextSeqId < FileNames.ID_LIMIT
      modifies this`nextSeqId, this`stats, this`sendTimestamps, transport`flightToGround, queue`files
      ensures Valid() && seqId == old(nextSeqId)
      ensures Abs() == StoreForward.Send(old(Abs()), Message(msgType, seqId, timestamp, payload), now, queue.maxDepth)
    {
      BelowLimit(queue.files, nextSeqId, FileNames.ID_LIMIT);
      BelowLimit(queue.files, nextSeqId, nextSeqId + 1);
      IdsBelowIs(queue.files, nextSeqId);
      hide WellFormed, IdsBelow, Contents;
      ghost var s := Abs();
      seqId := nextSeqId;
      nextSeqId := nextSeqId + 1;
      var envelope := Message(msgType, seqId, timestamp, payload);
      var success := false;
      if transport.connected {
        success := SendTransport(envelope, now);
      }
      if !success {
        QueueToDisk(envelope);
        IdsBelowIs(queue.files, nextSeqId);
      }
    }

    method Disconnect()
      requires Valid()
      modifies this`stats, transport`connected
      ensures Valid() && Abs() == StoreForward.Disconnect(old(Abs()))
    {
      transport.Disconnect();
      stats := stats.(disconnectCount := stats.disconnectCount + 1);
    }

    method Connect(clock: nat -> real) returns (ok: bool)
      requires Valid()
      modifies this`stats, this`sendTimestamps, transport`connected, transport`flightToGround
      ensures Valid() && ok
      ensures Abs() == ReplayRest(StoreForward.Connect(old(Abs())), clock)
    {
      hide WellFormed, IdsBelow, Contents, ReplayList, ReplayRest;
      ghost var s := StoreForward.Connect(Abs());
      ok := transport.Connect();
      stats := stats.(connectCount := stats.connectCount + 1);
      assert s == AbsReplaying(ReplayList(Contents(queue.files), highestAckSeqId + 1, nextSeqId), 0);
      ReplayQueued(clock);
    }

    /** The replay loop: send in order until the link fails or nothing is left. */
    method SendPending(messages: seq<Message>, clock: nat -> real) returns (replayed: nat)
      requires Valid()
      modifies this`stats, this`sendTimestamps, transport`flightToGround
      ensures Valid() && replayed <= |messages|
      ensures replayed == |messages| || !transport.connected
      ensures RestOf(AbsReplaying(messages[replayed..], replayed), clock)
              == RestOf(old(AbsReplaying(messages, 0)), clock)
    {
      hide WellFormed, IdsBelow, Contents, RestOf;
      replayed := 0;
      ghost var s := AbsReplaying(messages, 0);
      assert messages[0..] == messages;
      while replayed < |messages|
        invariant replayed <= |messages| && Valid()
        invariant s == AbsReplaying(messages[replayed..], replayed)
        invariant RestOf(s, clock) == RestOf(old(AbsReplaying(messages, 0)), clock)
      {
        var sent := SendTransport(messages[replayed], clock(replayed));
        if !sent {
          break;
        }
        RestOfStep(s, clock);
        s := SentOne(s, clock(replayed));
        assert s.pending == messages[replayed + 1..];
        replayed := replayed + 1;
      }
    }

    method ReplayQueued(clock: nat -> real)
      requires Valid()
      modifies this`stats, this`sendTimestamps, transport`flightToGround
      ensures Valid()
      ensures Abs() == ReplayRest(
        old(AbsReplaying(ReplayList(Contents(queue.files), highestAckSeqId + 1, nextSeqId), 0)), clock)
    {
      hide WellFormed, IdsBelow, Contents, ReplayList, RestOf, QueueDirectory.GetFrom;
      GetFromIsReplayList(queue.files, highestAckSeqId + 1, nextSeqId);
      var messages := queue.GetFrom(highestAckSeqId + 1);
      if messages == [] {
        return;
      }
      RestOfStart(AbsReplaying(messages, 0), clock);
      hide ReplayRest;
      var replayed := SendPending(messages, clock);
      ghost var s := AbsReplaying(messages[replayed..], replayed);
      RestOfEnd(s, clock);
      if replayed > 0 {
        stats := stats.(messagesReplayed := stats.messagesReplayed + replayed);
      }
      assert Abs() == EndReplay(s);
    }

    method HandleTelemetryAck(ack: nat, now: real)
      requires Valid()
      modifies this`highestAckSeqId, this`stats, this`ackLatencies, this`sendTimestamps, queue`files
      ensures Valid() && Abs() == HandleAck(old(Abs()), ack, now)
      ensures highestAckSeqId == if ack > old(highestAckSeqId) then ack else old(highestAckSeqId)
      ensures ackLatencies ==
        if ack > old(highestAckSeqId) && ack in old(sendTimestamps)
        then old(ackLatencies) + [1000.0 * (now - old(sendTimestamps)[ack])]
        else old(ackLatencies)
    {
      if ack > highestAckSeqId {
        highestAckSeqId := ack;
        stats := stats.(acksReceived := stats.acksReceived + 1);
        if ack in sendTimestamps {
          ackLatencies := ackLatencies + [(now - sendTimestamps[ack]) * 1000.0];
          sendTimestamps := map sid | sid in sendTimestamps && sid > ack :: sendTimestamps[sid];
        }
        RemoveUpToContents(queue.files, ack);
        IdsBelowIs(queue.files, nextSeqId);
        hide WellFormed, IdsBelow, Contents;
        var removed := queue.RemoveUpTo(ack);
        IdsBelowIs(queue.files, nextSeqId);
      }
    }

    method Receive(now: real) returns (msg: Option<GroundMessage>)
      requires Valid()
      modifies this`highestAckSeqId, this`stats, this`ackLatencies, this`sendTimestamps, this`plans,
               queue`files, transport`groundToFlight
      ensures Valid() && Abs() == ReceiveOne(old(Abs()), now)
      ensures msg.Some? <==> transport.connected && old(transport.groundToFlight) != []
    {
      ghost var s := Abs();
      msg := transport.Recv();
      if msg.Some? {
        assert s.toFlight[0] == msg.value && s.toFlight[1..] == transport.groundToFlight;
        match msg.value
        case TelemetryAck(_, highest) =>
          HandleTelemetryAck(highest, now);
        case PlanUpload(plan) =>
          stats := stats.(plansReceived := stats.plansReceived + 1);
          plans := plans + [plan];
      }
    }

    method DrainReceives(maxCount: nat, clock: nat -> real)
      requires Valid()
      modifies this`highestAckSeqId, this`stats, this`ackLatencies, this`sendTimestamps, this`plans,
               queue`files, transport`groundToFlight
      ensures Valid() && Abs() == Drain(old(Abs()), maxCount, clock)
    {
      hide WellFormed, IdsBelow, Contents, ReceiveOne;
      ghost var start := Abs();
      var left := maxCount;
      while left > 0
        invariant 0 <= left <= maxCount && Valid()
        invariant Drain(start, maxCount, clock) == Drain(Abs(), left, clock)
      {
        ghost var s := Abs();
        var msg := Receive(clock(left));
        if msg.None? {
          IdleReceive(s, clock(left));
          return;
        }
        left := left - 1;
      }
    }

    method ComputeP95() returns (p95: Option<real>)
      ensures p95 == Latency.P95(ackLatencies)
    {
      p95 := Latency.P95(ackLatencies);
    }

    method VerifyZeroLoss(expectedCount: nat) returns (v: ZeroLossVerdict)
      requires Valid()
      ensures v.zeroLoss == ZeroLossReport(Abs(), expectedCount)
      ensures v.queueRemaining == |Contents(queue.files)| && v.highestAck == highestAckSeqId
      ensures v.totalGenerated == nextSeqId - 1 && v.unacked == v.totalGenerated - v.highestAck
    {
      DepthIsSize(queue.files);
      var total := nextSeqId - 1;
      var q := queue.CountFiles();
      v := ZeroLossVerdict(total, highestAckSeqId, q, total - highestAckSeqId,
                           highestAckSeqId >= expectedCount && q == 0);
    }
  }

  lemma {:induction false} IdleReceive(s: State, now: real)
    requires !s.connected || s.toFlight == []
    ensures ReceiveOne(s, now) == s
  {
  }
}
