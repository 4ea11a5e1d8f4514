/** The client, its disk queue, the in-process link and the mock gateway as one assembly: every
    call of a method is a piece of a protocol run, so what holds of all runs holds of the
    objects. */
module FlightSegments {
  import opened Wrappers
  import opened QueueDirectory
  import opened StoreForward
  import opened WireOrder
  import opened ZeroLoss
  import opened Comms
  import opened DiskQueues
  import FileNames

  // ---- Calls as events ----

  lemma {:induction false} RunConcat(y: System, a: seq<Event>, b: seq<Event>, maxDepth: nat)
    ensures Run(y, a + b, maxDepth) == Run(Run(y, a, maxDepth), b, maxDepth)
  {
    hide Step;
    if b == [] {
      assert a + b == a;
    } else {
      RunConcat(y, a, b[..|b| - 1], maxDepth);
      assert (a + b)[..|a + b| - 1] == a + b[..|b| - 1];
    }
  }

  lemma RunOne(y: System, e: Event, maxDepth: nat)
    ensures Run(y, [e], maxDepth) == Step(y, e, maxDepth)
  {
    hide Step;
    assert [e][..0] == [];
  }

  /** The turns of an uninterrupted replay loop. */
  function ReplayEvents(s: State, clock: nat -> real): seq<Event>
    decreases |s.pending|
  {
    if s.pending == [] then [] else
      [DoReplayOne(clock(s.replayed))] + ReplayEvents(ReplayOne(s, clock(s.replayed)), clock)
  }

  lemma {:induction false} ReplayIsRun(y: System, clock: nat -> real, maxDepth: nat)
    ensures Run(y, ReplayEvents(y.s, clock), maxDepth) == y.(s := ReplayRest(y.s, clock))
    decreases |y.s.pending|
  {
    if y.s.pending != [] {
      var e := DoReplayOne(clock(y.s.replayed));
      var next := y.(s := ReplayOne(y.s, clock(y.s.replayed)));
      assert Step(y, e, maxDepth) == next && |next.s.pending| < |y.s.pending|;
      hide Step, ReplayOne;
      ReplayIsRun(next, clock, maxDepth);
      RunOne(y, e, maxDepth);
      RunConcat(y, [e], ReplayEvents(next.s, clock), maxDepth);
    }
  }

  lemma {:induction false} ConnectIsRun(y0: System, events: seq<Event>, clock: nat -> real, maxDepth: nat)
    requires Run(y0, events, maxDepth).s.pending == []
    ensures var y := Run(y0, events, maxDepth);
      var s := StoreForward.Connect(y.s);
      Run(y0, events + [DoConnect] + ReplayEvents(s, clock), maxDepth) == y.(s := ReplayRest(s, clock))
  {
    var y := Run(y0, events, maxDepth);
    var y1 := Step(y, DoConnect, maxDepth);
    assert y1 == y.(s := StoreForward.Connect(y.s));
    hide Step, ReplayEvents, ReplayRest, StoreForward.Connect;
    RunConcat(y0, events, [DoConnect], maxDepth);
    RunOne(y, DoConnect, maxDepth);
    RunConcat(y0, events + [DoConnect], ReplayEvents(y1.s, clock), maxDepth);
    ReplayIsRun(y1, clock, maxDepth);
  }

  /** The receives of a drain that find a message. */
  function DrainEvents(s: State, maxCount: nat, clock: nat -> real): seq<Event>
    decreases maxCount
  {
    if maxCount == 0 || !s.connected || s.toFlight == [] then [] else
      [DoReceiveOne(clock(maxCount))] + DrainEvents(ReceiveOne(s, clock(maxCount)), maxCount - 1, clock)
  }

  lemma {:induction false} ReceiveKeeps(s: State, now: real)
    ensures var s' := ReceiveOne(s, now);
      s'.pending == s.pending && s'.connected == s.connected && s'.toGround == s.toGround
    ensures s.connected && s.toFlight != [] ==> ReceiveOne(s, now).toFlight == s.toFlight[1..]
  {
  }

  lemma {:induction false} DrainIsRun(y: System, maxCount: nat, clock: nat -> real, maxDepth: nat)
    requires y.s.pending == []
    ensures Run(y, DrainEvents(y.s, maxCount, clock), maxDepth) == y.(s := Drain(y.s, maxCount, clock))
    decreases maxCount
  {
    if maxCount > 0 && y.s.connected && y.s.toFlight != [] {
      var e := DoReceiveOne(clock(maxCount));
      var next := y.(s := ReceiveOne(y.s, clock(maxCount)));
      assert Step(y, e, maxDepth) == next;
      ReceiveKeeps(y.s, clock(maxCount));
      hide Step, ReceiveOne;
      DrainIsRun(next, maxCount - 1, clock, maxDepth);
      RunOne(y, e, maxDepth);
      RunConcat(y, [e], DrainEvents(next.s, maxCount - 1, clock), maxDepth);
    }
  }

  lemma {:induction false} DrainEmpties(s: State, maxCount: nat, clock: nat -> real)
    requires s.connected && |s.toFlight| <= maxCount
    ensures var s' := Drain(s, maxCount, clock);
      s'.toFlight == [] && s'.connected && s'.pending == s.pending && s'.toGround == s.toGround
    decreases maxCount
  {
    if maxCount > 0 && s.toFlight != [] {
      ReceiveKeeps(s, clock(maxCount));
      hide ReceiveOne;
      DrainEmpties(ReceiveOne(s, clock(maxCount)), maxCount - 1, clock);
    }
  }

  // ---- The client does not look at the gateway ----

  function With(s: State, g: Gateway): State {
    s.(gateway := g)
  }

  lemma {:induction false} ReplayRestWith(s: State, g: Gateway, clock: nat -> real)
    ensures ReplayRest(With(s, g), clock) == With(ReplayRest(s, clock), g)
    decreases |s.pending|
  {
    if s.pending != [] {
      var now := clock(s.replayed);
      assert ReplayOne(With(s, g), now) == With(ReplayOne(s, now), g);
      ReplayRestWith(ReplayOne(s, now), g, clock);
    }
  }

  lemma {:induction false} DrainWith(s: State, g: Gateway, maxCount: nat, clock: nat -> real)
    ensures Drain(With(s, g), maxCount, clock) == With(Drain(s, maxCount, clock), g)
    decreases maxCount
  {
    if maxCount > 0 && s.connected && s.toFlight != [] {
      var now := clock(maxCount);
      assert ReceiveOne(With(s, g), now) == With(ReceiveOne(s, now), g);
      DrainWith(ReceiveOne(s, now), g, maxCount - 1, clock);
    }
  }

  /** A replay that nothing interrupts ends with nothing pending. */
  lemma {:induction false} ReplayRestEnds(s: State, clock: nat -> real)
    ensures ReplayRest(s, clock).pending == [] && ReplayRest(s, clock).connected == s.connected
    decreases |s.pending|
  {
    if s.pending != [] {
      assert ReplayOne(s, clock(s.replayed)).connected == s.connected;
      hide ReplayOne;
      ReplayRestEnds(ReplayOne(s, clock(s.replayed)), clock);
    }
  }

  class FlightSegment {
    const client: CommsClient
    const gateway: MockGateway
    ghost var events: seq<Event>

    /** The run of the protocol that the calls so far make up. */
    ghost function Abstract(): System
      reads this
    {
      Run(INIT, events, client.queue.maxDepth)
    }

    ghost predicate Valid()
      reads this, client, client.queue, client.transport, gateway
    {
      && client.Valid() && gateway.transport == client.transport
      && Abstract().s == With(client.Abs(), gateway.View())
    }

    constructor (queue: DiskQueue)
      requires WellFormed(queue.files) && Contents(queue.files) == map[]
      ensures Valid() && events == [] && client.queue == queue
      ensures fresh(client) && fresh(gateway) && fresh(client.transport)
    {
      var transport := new InProcessTransport();
      client := new CommsClient(transport, queue);
      gateway := new MockGateway(transport);
      events := [];
    }

    method Send(msgType: string, timestamp: string, payload: string, now: real)
      requires Valid() && client.nextSeqId < FileNames.ID_LIMIT
      modifies this`events, client, client.queue, client.transport
      ensures Valid() && events == old(events) + [DoSend(msgType, timestamp, payload, now)]
    {
      ghost var e := DoSend(msgType, timestamp, payload, now);
      RunConcat(INIT, events, [e], client.queue.maxDepth);
      RunOne(Abstract(), e, client.queue.maxDepth);
      var seqId := client.Send(msgType, timestamp, payload, now);
      events := events + [e];
    }

    method Disconnect()
      requires Valid()
      modifies this`events, client, client.transport
      ensures Valid() && events == old(events) + [DoDisconnect]
    {
      RunConcat(INIT, events, [DoDisconnect], client.queue.maxDepth);
      RunOne(Abstract(), DoDisconnect, client.queue.maxDepth);
      client.Disconnect();
      events := events + [DoDisconnect];
    }

    /** Connecting is the connect event and the turns of the replay loop. */
    method Connect(clock: nat -> real)
      requires Valid()
      modifies this`events, client, client.transport
      ensures Valid() && client.transport.connected
      ensures events == old(events) + [DoConnect]
        + ReplayEvents(StoreForward.Connect(old(Abstract()).s), clock)
    {
      hide ReplayRest, ReplayEvents, Run, WellFormed, IdsBelow, Contents, ReplayList;
      ghost var y, n := Abstract(), client.queue.maxDepth;
      ghost var replay := ReplayEvents(StoreForward.Connect(y.s), clock);
      ConnectIsRun(INIT, events, clock, n);
      ReplayRestWith(StoreForward.Connect(client.Abs()), gateway.View(), clock);
      ReplayRestEnds(StoreForward.Connect(client.Abs()), clock);
      var ok := client.Connect(clock);
      events := events + [DoConnect] + replay;
    }

    method GatewayTurn()
      requires Valid()
      modifies this`events, gateway, client.transport
      ensures Valid() && events == old(events) + [DoGatewayStep]
      ensures client.transport.connected == old(client.transport.connected)
      ensures client.transport.flightToGround
        == if old(client.transport.flightToGround) == [] then [] else old(client.transport.flightToGround)[1..]
    {
      RunConcat(INIT, events, [DoGatewayStep], client.queue.maxDepth);
      RunOne(Abstract(), DoGatewayStep, client.queue.maxDepth);
      gateway.LoopOnce();
      events := events + [DoGatewayStep];
    }

    method QueuePlan(plan: string)
      requires Valid()
      modifies this`events, gateway
      ensures Valid() && events == old(events) + [DoQueuePlan(plan)]
    {
      RunConcat(INIT, events, [DoQueuePlan(plan)], client.queue.maxDepth);
      RunOne(Abstract(), DoQueuePlan(plan), client.queue.maxDepth);
      gateway.QueuePlan(plan);
      events := events + [DoQueuePlan(plan)];
    }

    method DrainReceives(maxCount: nat, clock: nat -> real)
      requires Valid()
      modifies this`events, client, client.queue, client.transport
      ensures Valid()
      ensures events == old(events) + DrainEvents(old(Abstract()).s, maxCount, clock)
      ensures Abstract().s == Drain(old(Abstract()).s, maxCount, clock)
    {
      hide Drain, DrainEvents;
      ghost var y, n := Abstract(), client.queue.maxDepth;
      ghost var drain := DrainEvents(y.s, maxCount, clock);
      RunConcat(INIT, events, drain, n);
      DrainIsRun(y, maxCount, clock, n);
      DrainWith(client.Abs(), gateway.View(), maxCount, clock);
      client.DrainReceives(maxCount, clock);
      events := events + drain;
    }

    /** A positive report on n: each of 1..n is with the gateway exactly if it is not lost. */
    method VerifyZeroLoss(n: nat) returns (zeroLoss: bool)
      requires Valid()
      ensures zeroLoss == ZeroLossReport(Abstract().s, n)
      ensures zeroLoss ==> forall i :: 1 <= i <= n ==> (i in Ids(gateway.received) <==> !Lost(Abstract(), i))
    {
      var v := client.VerifyZeroLoss(n);
      zeroLoss := v.zeroLoss;
      if zeroLoss {
        hide Run, ZeroLossReport, Lost;
        forall i | 1 <= i <= n ensures i in Ids(gateway.received) <==> !Lost(Abstract(), i) {
          ReportSound(events, client.queue.maxDepth, n, i);
        }
      }
    }

    /** Reconnecting, pumping the gateway until the link is empty and draining its replies
        leaves the gateway with every message that is not lost, in order. */
    method Resynchronise(clock: nat -> real)
      requires Valid()
      modifies this`events, client, client.queue, client.transport, gateway
      ensures Valid() && old(events) <= events && Quiet(Abstract())
      ensures FirstReceipts(gateway.received) == Surviving(Abstract(), Abstract().h.log)
    {
      hide Run, ReplayEvents, DrainEvents, ReplayRest, Drain;
      Connect(clock);
      while client.transport.flightToGround != []
        invariant Valid() && client.transport.connected && old(events) <= events
        decreases |client.transport.flightToGround|
      {
        GatewayTurn();
      }
      ghost var before := Abstract().s;
      var count := |client.transport.groundToFlight|;
      DrainEmpties(before, count, clock);
      DrainReceives(count, clock);
      RunReachable(events, client.queue.maxDepth);
      LogNumbered(events, client.queue.maxDepth);
      QuietReceipts(Abstract());
    }
  }
}
