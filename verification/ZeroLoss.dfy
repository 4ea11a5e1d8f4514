/** What the store-and-forward protocol promises, over every interleaving. */
module ZeroLoss {
  import opened Wrappers
  import opened QueueDirectory
  import opened StoreForward
  import opened WireOrder

  // ---- Safety ----

  /** i has left the flight segment's hands without reaching the ground. */
  ghost predicate Lost(y: System, i: nat) {
    1 <= i <= |y.h.log| && i !in Ids(Wire(y.s)) && i !in y.s.disk
  }

  /** In every reachable state a message is received, in flight or on disk, unless a full disk
      queue dropped it before it was ever sent; and those are lost. */
  lemma {:induction false} LossIsExactlyOverflow(events: seq<Event>, maxDepth: nat)
    ensures var y := Run(INIT, events, maxDepth);
      forall i: nat :: Lost(y, i) <==> i in y.h.dropped && i !in Ids(Wire(y.s))
  {
    RunInv(events, maxDepth);
  }

  /** A lost message stays lost. */
  lemma {:induction false} LossIsPermanent(y: System, e: Event, maxDepth: nat, i: nat)
    requires Inv(y) && Lost(y, i)
    ensures Lost(Step(y, e, maxDepth), i)
  {
    hide DeliveryOf, AcksOf, Counts, Genuine;
    StepWire(y, e, maxDepth);
    AddedLength(y, e);
    if Added(y, e) == [] {
      assert Wire(y.s) + [] == Wire(y.s);
    } else {
      var m := Added(y, e)[0];
      assert Added(y, e) == [m] && (e.DoReplayOne? ==> m in y.s.pending);
      IdsAppend(Wire(y.s), m);
    }
  }

  /** The client would queue to disk, and the disk queue is full. */
  ghost predicate QueuesWhenFull(y: System, e: Event, maxDepth: nat) {
    e.DoSend? && y.s.pending == [] && !y.s.connected && Overflows(y.s.disk, maxDepth)
  }

  /** The caller's side condition: no message is queued to disk while the queue is full. */
  ghost predicate RoomForEverySend(events: seq<Event>, maxDepth: nat) {
    events != [] ==>
      var front := events[..|events| - 1];
      RoomForEverySend(front, maxDepth) && !QueuesWhenFull(Run(INIT, front, maxDepth), events[|events| - 1], maxDepth)
  }

  /** The side condition holds exactly when nothing is ever dropped. */
  lemma {:induction false} RoomMeansNoDrop(events: seq<Event>, maxDepth: nat)
    ensures RoomForEverySend(events, maxDepth) <==> Run(INIT, events, maxDepth).h.dropped == {}
  {
    if events != [] {
      var front, last := events[..|events| - 1], events[|events| - 1];
      RoomMeansNoDrop(front, maxDepth);
      DropStep(Run(INIT, front, maxDepth), last, maxDepth);
      hide Step, QueuesWhenFull;
    }
  }

  lemma {:induction false} DropStep(y: System, e: Event, maxDepth: nat)
    ensures Step(y, e, maxDepth).h.dropped
            == y.h.dropped + if QueuesWhenFull(y, e, maxDepth) then {OldestId(y.s.disk)} else {}
  {
  }

  /** Zero loss: with room for every send, every message ever built is received, in flight or
      on disk, whatever the link, the replays, the gateway and the acknowledgements do. */
  lemma {:induction false} NoMessageLost(events: seq<Event>, maxDepth: nat, i: nat)
    requires RoomForEverySend(events, maxDepth)
    ensures !Lost(Run(INIT, events, maxDepth), i)
  {
    RoomMeansNoDrop(events, maxDepth);
    LossIsExactlyOverflow(events, maxDepth);
  }

  /** A cumulative acknowledgement deletes from disk only what the gateway has received. */
  lemma {:induction false} PurgeOnlyReceived(events: seq<Event>, maxDepth: nat, e: Event, id: nat)
    requires !e.DoSend?
    requires id in Run(INIT, events, maxDepth).s.disk
    requires id !in Step(Run(INIT, events, maxDepth), e, maxDepth).s.disk
    ensures id in Ids(Run(INIT, events, maxDepth).s.gateway.received)
  {
    var y := Run(INIT, events, maxDepth);
    RunInv(events, maxDepth);
    assert e.DoReceiveOne? && y.s.toFlight[0].TelemetryAck?;
    assert y.s.toFlight[0] in y.s.toFlight;
    CoveredBelow(y.s.gateway.received, y.s.toGround, y.h.dropped, y.s.toFlight[0].highestAckSeqId, id);
  }

  // ---- Receipts ----

  ghost predicate Reachable(y: System) {
    Inv(y) && FirstsAscend(Wire(y.s))
  }

  lemma {:induction false} RunReachable(events: seq<Event>, maxDepth: nat)
    ensures Reachable(Run(INIT, events, maxDepth))
  {
    hide Inv, FirstsAscend, Run;
    RunInv(events, maxDepth);
    RunAscends(events, maxDepth);
  }

  /** Below any received id, a message was received exactly if it is not lost. */
  lemma {:induction false} ReceivedBelow(y: System, a: nat, i: nat)
    requires Reachable(y) && a in Ids(y.s.gateway.received) && 1 <= i <= a
    ensures i in Ids(y.s.gateway.received) <==> !Lost(y, i)
  {
    hide AcksOf, Counts, GapFree, FirstsAscend;
    var received, rest := y.s.gateway.received, y.s.toGround;
    IdsPrefix(received, rest);
    var m :| m in received && m.seqId == a;
    assert m in Wire(y.s) && Genuine(m, y.h.log);
    if i in Ids(Wire(y.s)) {
      AppearedBefore(received, rest, a, i);
    } else if i !in y.h.dropped {
      CoveredBelow(received, rest, y.h.dropped, a, i);
    }
  }

  /** The log without the lost messages. */
  ghost function Surviving(y: System, ms: seq<Message>): (r: seq<Message>) {
    if ms == [] then [] else
      var last := ms[|ms| - 1];
      Surviving(y, ms[..|ms| - 1]) + if Lost(y, last.seqId) then [] else [last]
  }

  ghost function Highest(ms: seq<Message>): (h: nat)
    ensures forall m :: m in ms ==> m.seqId <= h
    ensures ms != [] ==> h in Ids(ms)
    ensures ms == [] ==> h == 0
  {
    if ms == [] then 0 else
      var front, last := ms[..|ms| - 1], ms[|ms| - 1];
      assert ms == front + [last];
      IdsAppend(front, last);
      if last.seqId > Highest(front) then last.seqId else
        assert front == [] ==> last.seqId == 0;
        Highest(front)
  }

  ghost predicate Numbered(log: seq<Message>) {
    forall i :: 0 <= i < |log| ==> log[i].seqId == i + 1
  }

  lemma {:induction false} IncreasingAppend(ms: seq<Message>, m: Message)
    requires IncreasingIds(ms) && forall i :: i in Ids(ms) ==> i < m.seqId
    ensures IncreasingIds(ms + [m])
  {
    forall i | 0 <= i < |ms| ensures ms[i].seqId < m.seqId {
      assert ms[i] in ms && ms[i].seqId in Ids(ms);
    }
  }

  /** r holds the messages of log[..k] that are not lost, in order. */
  ghost predicate SurvivorsOf(y: System, log: seq<Message>, k: nat, r: seq<Message>) {
    && IncreasingIds(r) && AllGenuine(r, log)
    && forall i :: i in Ids(r) <==> 1 <= i <= k && !Lost(y, i)
  }

  lemma {:induction false} SurvivorsExtend(y: System, log: seq<Message>, k: nat, r: seq<Message>)
    requires k < |log| && log[k].seqId == k + 1 && SurvivorsOf(y, log, k, r)
    ensures SurvivorsOf(y, log, k + 1, if Lost(y, k + 1) then r else r + [log[k]])
  {
    hide Lost;
    if !Lost(y, k + 1) {
      IdsAppend(r, log[k]);
      IncreasingAppend(r, log[k]);
    }
  }

  lemma {:induction false} SurvivingIs(y: System, log: seq<Message>, k: nat)
    requires Numbered(log) && k <= |log|
    ensures SurvivorsOf(y, log, k, Surviving(y, log[..k]))
  {
    if k > 0 {
      hide Lost, SurvivorsOf;
      SurvivingIs(y, log, k - 1);
      assert log[..k][..k - 1] == log[..k - 1];
      SurvivorsExtend(y, log, k - 1, Surviving(y, log[..k - 1]));
      assert Surviving(y, log[..k - 1]) + [] == Surviving(y, log[..k - 1]);
    }
  }

  lemma {:induction false} LogNumbered(events: seq<Event>, maxDepth: nat)
    ensures Numbered(Run(INIT, events, maxDepth).h.log)
  {
    if events != [] {
      var y := Run(INIT, events[..|events| - 1], maxDepth);
      LogNumbered(events[..|events| - 1], maxDepth);
      RunInv(events[..|events| - 1], maxDepth);
    }
  }

  lemma {:induction false} ReceiptsSurvive(y: System)
    requires Reachable(y) && Numbered(y.h.log)
    ensures var received := y.s.gateway.received;
      && Highest(received) <= |y.h.log|
      && FirstReceipts(received) == Surviving(y, y.h.log[..Highest(received)])
  {
    hide AcksOf, Counts, DeliveryOf, FirstsAscend, Lost, Highest;
    var received, log := y.s.gateway.received, y.h.log;
    var h := Highest(received);
    assert forall m :: m in received ==> m in Wire(y.s) && Genuine(m, log);
    assert AllGenuine(FirstReceipts(received), log) by {
      FirstsAscendPrefix(received, y.s.toGround);
      FirstReceiptsAre(received);
    }
    if received != [] {
      var top :| top in received && top.seqId == h;
    }
    SurvivingIs(y, log, h);
    FirstsAscendPrefix(received, y.s.toGround);
    FirstReceiptsAre(received);
    var a, b := FirstReceipts(received), Surviving(y, log[..h]);
    forall i ensures i in Ids(a) <==> i in Ids(b) {
      if 1 <= i <= h && received != [] {
        ReceivedBelow(y, h, i);
      }
      if i in Ids(received) {
        var m :| m in received && m.seqId == i;
      }
    }
    IncreasingUnique(a, b, log);
  }

  ghost predicate NothingLost(y: System) {
    forall i: nat :: !Lost(y, i)
  }

  lemma {:induction false} SurvivingAll(y: System, ms: seq<Message>)
    requires NothingLost(y)
    ensures Surviving(y, ms) == ms
  {
    hide Lost;
    if ms != [] {
      var front, last := ms[..|ms| - 1], ms[|ms| - 1];
      assert !Lost(y, last.seqId);
      hide NothingLost;
      SurvivingAll(y, front);
      assert Surviving(y, ms) == front + [last];
      assert ms == front + [last];
    }
  }

  /** Repeats apart, the gateway receives the messages in the order in which `send` built them,
      unchanged and without a gap but for the lost ones; with room for every send there are no
      lost ones. */
  lemma {:induction false} ReceivedInOrder(events: seq<Event>, maxDepth: nat)
    ensures var y := Run(INIT, events, maxDepth);
      var received := y.s.gateway.received;
      && Highest(received) <= |y.h.log|
      && FirstReceipts(received) == Surviving(y, y.h.log[..Highest(received)])
      && (RoomForEverySend(events, maxDepth) ==> FirstReceipts(received) <= y.h.log)
  {
    var y := Run(INIT, events, maxDepth);
    hide Run, RoomForEverySend, Lost, Surviving, FirstReceipts, Highest;
    RunReachable(events, maxDepth);
    LogNumbered(events, maxDepth);
    ReceiptsSurvive(y);
    if RoomForEverySend(events, maxDepth) {
      forall i: nat ensures !Lost(y, i) {
        NoMessageLost(events, maxDepth, i);
      }
      SurvivingAll(y, y.h.log[..Highest(y.s.gateway.received)]);
    }
  }

  // ---- The client's own report ----

  /** When the report says zero loss for n, each of 1..n was received exactly if it is not
      lost, that is, not dropped by overflow before it was ever sent. */
  lemma {:induction false} ReportSound(events: seq<Event>, maxDepth: nat, n: nat, i: nat)
    requires ZeroLossReport(Run(INIT, events, maxDepth).s, n)
    requires 1 <= i <= n
    ensures var y := Run(INIT, events, maxDepth);
      && (i in Ids(y.s.gateway.received) <==> !Lost(y, i))
      && (Lost(y, i) <==> i in y.h.dropped && i !in Ids(Wire(y.s)))
  {
    var y := Run(INIT, events, maxDepth);
    RunReachable(events, maxDepth);
    assert y.s.client.highestAck in Ids(y.s.gateway.received);
    hide Run, Reachable, Lost;
    ReceivedBelow(y, y.s.client.highestAck, i);
    LossIsExactlyOverflow(events, maxDepth);
  }

  /** A positive report on n is right exactly if no message up to n was dropped before it was
      ever sent. */
  lemma {:induction false} ReportRightIff(events: seq<Event>, maxDepth: nat, n: nat)
    requires ZeroLossReport(Run(INIT, events, maxDepth).s, n)
    ensures var y := Run(INIT, events, maxDepth);
      (forall i :: 1 <= i <= n ==> i in Ids(y.s.gateway.received))
      <==> (forall i: nat :: i in y.h.dropped && i !in Ids(Wire(y.s)) ==> i > n)
  {
    var y := Run(INIT, events, maxDepth);
    hide Run, ZeroLossReport, Lost;
    LossIsExactlyOverflow(events, maxDepth);
    forall i | 1 <= i <= n ensures i in Ids(y.s.gateway.received) <==> !Lost(y, i) {
      ReportSound(events, maxDepth, n, i);
    }
    DroppedPositive(events, maxDepth);
  }

  lemma {:induction false} DroppedPositive(events: seq<Event>, maxDepth: nat)
    ensures forall i :: i in Run(INIT, events, maxDepth).h.dropped ==> i >= 1
  {
    RunInv(events, maxDepth);
  }

  /** With room for every send the report is right: what it vouches for was received. */
  lemma {:induction false} ReportTrueMeansReceived(events: seq<Event>, maxDepth: nat, n: nat, i: nat)
    requires RoomForEverySend(events, maxDepth)
    requires ZeroLossReport(Run(INIT, events, maxDepth).s, n)
    requires 1 <= i <= n
    ensures i in Ids(Run(INIT, events, maxDepth).s.gateway.received)
  {
    RoomMeansNoDrop(events, maxDepth);
    ReportSound(events, maxDepth, n, i);
  }

  // ---- Convergence ----

  ghost function Repeat(y: System, e: Event, n: nat, maxDepth: nat): (y': System)
    decreases n
  {
    if n == 0 then y else Repeat(Step(y, e, maxDepth), e, n - 1, maxDepth)
  }

  /** Finish a running replay, connect, replay, let the gateway read the link empty, and let
      the client read its replies: as many steps as the queues have elements. */
  ghost function Recover(y: System, now: real, maxDepth: nat): (y': System) {
    var y0 := Repeat(y, DoReplayOne(now), |y.s.pending|, maxDepth);
    var y1 := Step(y0, DoConnect, maxDepth);
    var y2 := Repeat(y1, DoReplayOne(now), |y1.s.pending|, maxDepth);
    var y3 := Repeat(y2, DoGatewayStep, |y2.s.toGround|, maxDepth);
    Repeat(y3, DoReceiveOne(now), |y3.s.toFlight|, maxDepth)
  }

  lemma {:induction false} ReplayStepIs(y: System, now: real, maxDepth: nat)
    ensures var y' := Step(y, DoReplayOne(now), maxDepth);
      && (y.s.pending != [] ==> |y'.s.pending| < |y.s.pending|)
      && (y.s.pending == [] ==> y'.s.pending == [])
      && y'.s.connected == y.s.connected && y'.h == y.h
  {
  }

  lemma {:induction false} ReplayToEnd(y: System, now: real, n: nat, maxDepth: nat)
    requires Inv(y) && n >= |y.s.pending|
    ensures var y' := Repeat(y, DoReplayOne(now), n, maxDepth);
      Inv(y') && y'.s.pending == [] && y'.s.connected == y.s.connected && y'.h == y.h
    decreases n
  {
    if n > 0 {
      StepInv(y, DoReplayOne(now), maxDepth);
      ReplayStepIs(y, now, maxDepth);
      hide Inv, Step;
      ReplayToEnd(Step(y, DoReplayOne(now), maxDepth), now, n - 1, maxDepth);
    }
  }

  lemma {:induction false} GatewayStepIs(y: System, maxDepth: nat)
    ensures var y' := Step(y, DoGatewayStep, maxDepth);
      && y'.s.toGround == (if y.s.toGround == [] then [] else y.s.toGround[1..])
      && y'.h == y.h && y'.s.connected == y.s.connected && y'.s.pending == y.s.pending
  {
  }

  lemma {:induction false} GatewayToEnd(y: System, n: nat, maxDepth: nat)
    requires Inv(y) && n >= |y.s.toGround|
    ensures var y' := Repeat(y, DoGatewayStep, n, maxDepth);
      && Inv(y') && y'.s.toGround == [] && y'.h == y.h
      && y'.s.pending == y.s.pending && y'.s.connected == y.s.connected
    decreases n
  {
    if n > 0 {
      StepInv(y, DoGatewayStep, maxDepth);
      GatewayStepIs(y, maxDepth);
      hide Inv, Step;
      GatewayToEnd(Step(y, DoGatewayStep, maxDepth), n - 1, maxDepth);
    }
  }

  lemma {:induction false} ReceiveStepIs(y: System, now: real, maxDepth: nat)
    requires y.s.pending == [] && y.s.connected
    ensures var y' := Step(y, DoReceiveOne(now), maxDepth);
      && y'.s.toFlight == (if y.s.toFlight == [] then [] else y.s.toFlight[1..])
      && y'.h == y.h && y'.s.connected && y'.s.pending == [] && y'.s.toGround == y.s.toGround
  {
  }

  lemma {:induction false} ReceiveToEnd(y: System, now: real, n: nat, maxDepth: nat)
    requires Inv(y) && n >= |y.s.toFlight| && y.s.pending == [] && y.s.connected
    ensures var y' := Repeat(y, DoReceiveOne(now), n, maxDepth);
      && Inv(y') && y'.s.toFlight == [] && y'.h == y.h && y'.s.connected && y'.s.pending == []
      && y'.s.toGround == y.s.toGround
    decreases n
  {
    if n > 0 {
      StepInv(y, DoReceiveOne(now), maxDepth);
      ReceiveStepIs(y, now, maxDepth);
      hide Inv, Step;
      ReceiveToEnd(Step(y, DoReceiveOne(now), maxDepth), now, n - 1, maxDepth);
    }
  }

  lemma {:induction false} RepeatKeepsLost(y: System, e: Event, n: nat, maxDepth: nat, i: nat)
    requires Inv(y) && Lost(y, i)
    ensures Inv(Repeat(y, e, n, maxDepth)) && Lost(Repeat(y, e, n, maxDepth), i)
    decreases n
  {
    if n > 0 {
      StepInv(y, e, maxDepth);
      LossIsPermanent(y, e, maxDepth, i);
      hide Inv, Lost, Step;
      RepeatKeepsLost(Step(y, e, maxDepth), e, n - 1, maxDepth, i);
    }
  }

  lemma {:induction false} RecoverKeepsLost(y: System, i: nat, now: real, maxDepth: nat)
    requires Inv(y) && Lost(y, i)
    ensures Lost(Recover(y, now, maxDepth), i)
  {
    hide Inv, Lost, Step;
    var y0 := Repeat(y, DoReplayOne(now), |y.s.pending|, maxDepth);
    RepeatKeepsLost(y, DoReplayOne(now), |y.s.pending|, maxDepth, i);
    var y1 := Step(y0, DoConnect, maxDepth);
    StepInv(y0, DoConnect, maxDepth);
    LossIsPermanent(y0, DoConnect, maxDepth, i);
    var y2 := Repeat(y1, DoReplayOne(now), |y1.s.pending|, maxDepth);
    RepeatKeepsLost(y1, DoReplayOne(now), |y1.s.pending|, maxDepth, i);
    var y3 := Repeat(y2, DoGatewayStep, |y2.s.toGround|, maxDepth);
    RepeatKeepsLost(y2, DoGatewayStep, |y2.s.toGround|, maxDepth, i);
    RepeatKeepsLost(y3, DoReceiveOne(now), |y3.s.toFlight|, maxDepth, i);
  }

  /** A state in which the link is up and nothing is under way. */
  ghost predicate Quiet(y: System) {
    y.s.connected && y.s.pending == [] && y.s.toGround == [] && y.s.toFlight == []
  }

  lemma {:induction false} RecoverQuiet(y: System, now: real, maxDepth: nat)
    requires Inv(y)
    ensures var y' := Recover(y, now, maxDepth); Inv(y') && Quiet(y') && y'.h == y.h
  {
    hide Inv;
    var y0 := Repeat(y, DoReplayOne(now), |y.s.pending|, maxDepth);
    ReplayToEnd(y, now, |y.s.pending|, maxDepth);
    var y1 := Step(y0, DoConnect, maxDepth);
    StepInv(y0, DoConnect, maxDepth);
    var y2 := Repeat(y1, DoReplayOne(now), |y1.s.pending|, maxDepth);
    ReplayToEnd(y1, now, |y1.s.pending|, maxDepth);
    var y3 := Repeat(y2, DoGatewayStep, |y2.s.toGround|, maxDepth);
    GatewayToEnd(y2, |y2.s.toGround|, maxDepth);
    ReceiveToEnd(y3, now, |y3.s.toFlight|, maxDepth);
  }

  /** In a quiet state every message was received or lost to overflow, and the report on all
      of them is positive exactly when the newest message is telemetry: only telemetry is
      acknowledged, so a trailing message of another kind stays on disk or unacknowledged. */
  lemma {:induction false} QuietOutcome(y: System)
    requires Inv(y) && Quiet(y)
    ensures forall i :: 1 <= i <= |y.h.log| ==> i in Ids(y.s.gateway.received) || i in y.h.dropped
    ensures ZeroLossReport(y.s, |y.h.log|)
            <==> |y.h.log| == 0 || y.h.log[|y.h.log| - 1].msgType == TELEMETRY
  {
    var n, received := |y.h.log|, y.s.gateway.received;
    assert Wire(y.s) == received;
    DiskRange(y);
    QuietAck(y);
    if n > 0 {
      assert n in Ids(received);
      var m :| m in received && m.seqId == n;
      assert Genuine(m, y.h.log);
    }
  }

  /** With nothing under way the client's counter has reached n exactly when message n was
      telemetry. */
  lemma {:induction false} QuietAck(y: System)
    requires Inv(y) && Quiet(y)
    ensures var n, c := |y.h.log|, y.s.client.highestAck;
      n > 0 && n in Ids(y.s.gateway.received) ==> (c >= n <==> y.h.log[n - 1].msgType == TELEMETRY)
  {
    hide DeliveryOf, Counts;
    var n, received := |y.h.log|, y.s.gateway.received;
    assert Wire(y.s) == received;
    AckBelowNext(y);
    assert y.s.client.highestAck == y.s.gateway.highestAck;
    assert forall m :: m in received ==> Genuine(m, y.h.log);
    if n > 0 && n in Ids(received) {
      var m :| m in received && m.seqId == n;
      assert m == y.h.log[n - 1];
      assert forall m' :: m' in received && m'.seqId == n ==> m' == m;
    }
  }

  lemma {:induction false} DiskRange(y: System)
    requires Inv(y)
    ensures forall id :: id in y.s.disk ==> y.s.client.highestAck < id <= |y.h.log|
    ensures y.s.client.highestAck >= |y.h.log| ==> |y.s.disk| == 0
  {
    assert forall id :: id in y.s.disk ==> Genuine(y.s.disk[id], y.h.log);
    if y.s.client.highestAck >= |y.h.log| {
      assert y.s.disk.Keys == {};
    }
  }

  /** Convergence: from any reachable state, recovery ends with all of 1..n received (overflow
      apart) and, when the newest message is telemetry, a positive report for n. */
  lemma {:induction false} RecoveryDelivers(events: seq<Event>, now: real, maxDepth: nat)
    ensures var y, y' := Run(INIT, events, maxDepth), Recover(Run(INIT, events, maxDepth), now, maxDepth);
      && y'.h == y.h
      && (forall i :: 1 <= i <= |y.h.log| ==> i in Ids(y'.s.gateway.received) || i in y.h.dropped)
      && (ZeroLossReport(y'.s, |y.h.log|) <==> |y.h.log| == 0 || y.h.log[|y.h.log| - 1].msgType == TELEMETRY)
  {
    hide Run, Recover, Inv, Quiet, Ids, ZeroLossReport;
    RunInv(events, maxDepth);
    RecoverQuiet(Run(INIT, events, maxDepth), now, maxDepth);
    QuietOutcome(Recover(Run(INIT, events, maxDepth), now, maxDepth));
  }

  lemma {:induction false} RepeatWire(y: System, e: Event, n: nat, maxDepth: nat)
    requires Reachable(y)
    ensures var y' := Repeat(y, e, n, maxDepth); Reachable(y') && Wire(y.s) <= Wire(y'.s)
    decreases n
  {
    hide Step, Inv, FirstsAscend, Wire, Added;
    if n > 0 {
      StepReachable(y, e, maxDepth);
      StepWire(y, e, maxDepth);
      RepeatWire(Step(y, e, maxDepth), e, n - 1, maxDepth);
    }
  }

  lemma {:induction false} StepReachable(y: System, e: Event, maxDepth: nat)
    requires Reachable(y)
    ensures Reachable(Step(y, e, maxDepth))
  {
    hide Step, Inv, FirstsAscend, Wire, Added;
    StepInv(y, e, maxDepth);
    StepAscends(y, e, maxDepth);
  }

  lemma {:induction false} RecoverWire(y: System, now: real, maxDepth: nat)
    requires Reachable(y)
    ensures var y' := Recover(y, now, maxDepth); Reachable(y') && Wire(y.s) <= Wire(y'.s)
  {
    hide Step, Repeat, Reachable, Wire;
    var y0 := Repeat(y, DoReplayOne(now), |y.s.pending|, maxDepth);
    RepeatWire(y, DoReplayOne(now), |y.s.pending|, maxDepth);
    var y1 := Step(y0, DoConnect, maxDepth);
    StepReachable(y0, DoConnect, maxDepth);
    StepWire(y0, DoConnect, maxDepth);
    RepeatWire(y1, DoReplayOne(now), |y1.s.pending|, maxDepth);
    var y2 := Repeat(y1, DoReplayOne(now), |y1.s.pending|, maxDepth);
    RepeatWire(y2, DoGatewayStep, |y2.s.toGround|, maxDepth);
    var y3 := Repeat(y2, DoGatewayStep, |y2.s.toGround|, maxDepth);
    RepeatWire(y3, DoReceiveOne(now), |y3.s.toFlight|, maxDepth);
  }

  /** Recovery loses nothing more and brings nothing back. */
  lemma {:induction false} RecoverSameLosses(y: System, now: real, maxDepth: nat, i: nat)
    requires Reachable(y)
    ensures Lost(Recover(y, now, maxDepth), i) <==> Lost(y, i)
  {
    var y' := Recover(y, now, maxDepth);
    hide Recover;
    RecoverWire(y, now, maxDepth);
    RecoverQuiet(y, now, maxDepth);
    if Lost(y, i) {
      RecoverKeepsLost(y, i, now, maxDepth);
    }
    IdsPrefix(Wire(y.s), Wire(y'.s)[|Wire(y.s)|..]);
    assert Wire(y'.s) == Wire(y.s) + Wire(y'.s)[|Wire(y.s)|..];
    assert y'.h == y.h;
    hide AcksOf, Counts, GapFree;
    assert i in y.h.dropped && i !in Ids(Wire(y.s)) ==> Lost(y, i);
  }

  lemma {:induction false} SurvivingSame(y: System, y': System, ms: seq<Message>)
    requires forall i: nat :: Lost(y, i) <==> Lost(y', i)
    ensures Surviving(y, ms) == Surviving(y', ms)
  {
    hide Lost;
    if ms != [] {
      SurvivingSame(y, y', ms[..|ms| - 1]);
    }
  }

  /** ... and the gateway ends up with exactly the log, without the messages that were lost
      before; with room for every send there are none. */
  lemma {:induction false} RecoveryDeliversAll(events: seq<Event>, now: real, maxDepth: nat)
    ensures var y := Run(INIT, events, maxDepth);
      var receipts := FirstReceipts(Recover(y, now, maxDepth).s.gateway.received);
      && receipts == Surviving(y, y.h.log)
      && (RoomForEverySend(events, maxDepth) ==> receipts == y.h.log)
  {
    var y := Run(INIT, events, maxDepth);
    var y' := Recover(y, now, maxDepth);
    hide Run, Recover, RoomForEverySend, Lost, Surviving, FirstReceipts, Reachable, Quiet;
    RunReachable(events, maxDepth);
    LogNumbered(events, maxDepth);
    RecoverWire(y, now, maxDepth);
    RecoverOutcome(y, now, maxDepth);
    QuietReceipts(y');
    forall i: nat ensures Lost(y, i) <==> Lost(y', i) {
      RecoverSameLosses(y, now, maxDepth, i);
    }
    SurvivingSame(y, y', y.h.log);
    if RoomForEverySend(events, maxDepth) {
      forall i: nat ensures !Lost(y, i) {
        NoMessageLost(events, maxDepth, i);
      }
      SurvivingAll(y, y.h.log);
    }
  }

  lemma {:induction false} RecoverOutcome(y: System, now: real, maxDepth: nat)
    requires Reachable(y)
    ensures var y' := Recover(y, now, maxDepth); Quiet(y') && y'.h == y.h
  {
    hide Recover, Quiet, Inv, FirstsAscend;
    RecoverQuiet(y, now, maxDepth);
  }

  lemma {:induction false} QuietReceipts(y: System)
    requires Reachable(y) && Quiet(y) && Numbered(y.h.log)
    ensures FirstReceipts(y.s.gateway.received) == Surviving(y, y.h.log)
  {
    hide Lost, Surviving, FirstReceipts, Highest, Numbered;
    ReceiptsSurvive(y);
    NewestReceived(y);
    assert y.h.log[..|y.h.log|] == y.h.log;
  }

  lemma {:induction false} NewestReceived(y: System)
    requires Inv(y) && Quiet(y)
    ensures Highest(y.s.gateway.received) >= |y.h.log|
  {
    hide Highest;
    QuietOutcome(y);
    if |y.h.log| > 0 {
      assert |y.h.log| !in y.h.dropped;
      var m :| m in y.s.gateway.received && m.seqId == |y.h.log|;
    }
  }

  // ---- Bookkeeping ----

  /** One latency per acknowledgement that moves the counter; timestamps are kept for exactly
      the sent ids above it; and every transmission is a fresh message or a replay. */
  lemma {:induction false} LatencyBookkeeping(events: seq<Event>, maxDepth: nat)
    ensures var y := Run(INIT, events, maxDepth);
      var c := y.s.client;
      && |c.ackLatencies| == c.stats.acksReceived
      && c.sendTimestamps.Keys == (set id | id in Ids(Wire(y.s)) && id > c.highestAck)
      && (y.s.pending == [] ==>
           |Wire(y.s)| == |y.h.log| - c.stats.messagesQueued + c.stats.messagesReplayed)
  {
    RunInv(events, maxDepth);
  }

  // ---- Where the promises end ----

  function SendEvent(): Event {
    DoSend(TELEMETRY, "", "", 0.0)
  }

  function TelemetryMessage(id: nat): Message {
    Message(TELEMETRY, id, "", "")
  }

  /** Overflow goes unreported: with room for one message on disk, two sends while the link is
      down and a full recovery end with a positive report for 2, and message 1 is gone. */
  lemma {:induction false} ReportMissesOverflow()
    ensures var y := Recover(Run(INIT, [SendEvent(), SendEvent()], 1), 0.0, 1);
      ZeroLossReport(y.s, 2) && 1 !in Ids(y.s.gateway.received) && |y.h.log| == 2
  {
    var events := [SendEvent(), SendEvent()];
    var y1, y := Run(INIT, [SendEvent()], 1), Run(INIT, events, 1);
    var m1, m2 := TelemetryMessage(1), TelemetryMessage(2);
    assert [SendEvent()][..0] == [] && events[..1] == [SendEvent()];
    assert y1 == Step(INIT, SendEvent(), 1);
    assert y1.s.disk == map[1 := m1] && y1.h == History([m1], {});
    assert y == Step(y1, SendEvent(), 1);
    assert OldestId(y1.s.disk) == 1;
    assert y.s.disk == map[2 := m2] && y.h == History([m1, m2], {1});
    RunInv(events, 1);
    RecoveryDelivers(events, 0.0, 1);
    RecoverKeepsLost(y, 1, 0.0, 1);
  }


  /** Two messages queued while the link is down, and a connect that has read them back. */
  ghost function ReplayOfTwo(): State {
    Connect(Send(Send(INIT.s, TelemetryMessage(1), 0.0, 10), TelemetryMessage(2), 0.0, 10))
  }

  lemma {:induction false} ReplayOfTwoIs()
    ensures var s, m1, m2 := ReplayOfTwo(), TelemetryMessage(1), TelemetryMessage(2);
      && s.pending == [m1, m2] && s.disk == map[1 := m1, 2 := m2] && s.connected
      && s.toGround == [] && s.toFlight == [] && s.gateway == Gateway([], 0, None)
      && s.client.highestAck == 0 && s.client.nextSeqId == 3
  {
    var m1, m2 := TelemetryMessage(1), TelemetryMessage(2);
    var s1 := Send(INIT.s, m1, 0.0, 10);
    assert s1.disk == map[1 := m1] && |s1.disk| == 1;
    var s2 := Send(s1, m2, 0.0, 10);
    assert s2.disk == map[1 := m1, 2 := m2];
    assert ReplayList(s2.disk, 3, 3) == [] && ReplayList(s2.disk, 2, 3) == [m2];
  }

  /** A second thread sends message 3 between the two replayed messages, the gateway reads
      both, and that thread reads the replies. */
  ghost function SecondThread(s: State): (s': State)
    requires s.pending != []
    ensures |s.pending| == 2 && s.connected ==> s'.pending == s.pending[1..]
  {
    var s1 := Send(ReplayOne(s, 0.0), TelemetryMessage(3), 0.0, 10);
    ReceiveOne(ReceiveOne(GatewayStep(GatewayStep(s1)), 0.0), 0.0)
  }

  lemma {:induction false} SecondThreadIs(s: State)
    requires var m1, m2 := TelemetryMessage(1), TelemetryMessage(2);
      && s.pending == [m1, m2] && s.disk == map[1 := m1, 2 := m2] && s.connected
      && s.toGround == [] && s.toFlight == [] && s.gateway == Gateway([], 0, None)
      && s.client.highestAck == 0
    ensures var s', m1, m2, m3 := SecondThread(s), TelemetryMessage(1), TelemetryMessage(2), TelemetryMessage(3);
      s'.disk == map[] && s'.pending == [m2] && s'.toGround == [] && s'.gateway.received == [m1, m3]
  {
    var m1, m2, m3 := TelemetryMessage(1), TelemetryMessage(2), TelemetryMessage(3);
    var s1 := Send(ReplayOne(s, 0.0), m3, 0.0, 10);
    assert s1.toGround == [m1, m3] && s1.pending == [m2] && s1.client.highestAck == 0;
    hide Send, ReplayOne;
    GatewayReadsTwo(s1, m1, m3);
    hide GatewayStep;
    TwoAcks(GatewayStep(GatewayStep(s1)));
    hide ReceiveOne;
  }

  lemma {:induction false} GatewayReadsTwo(s: State, a: Message, b: Message)
    requires s.toGround == [a, b] && s.toFlight == [] && s.gateway == Gateway([], 0, None)
    requires a == TelemetryMessage(1) && b == TelemetryMessage(3)
    ensures var s' := GatewayStep(GatewayStep(s));
      && s'.toGround == [] && s'.gateway.received == [a, b]
      && s'.toFlight == [TelemetryAck(1, 1), TelemetryAck(3, 3)]
      && s'.client == s.client && s'.disk == s.disk && s'.pending == s.pending && s'.connected == s.connected
  {
    var g := GatewayStep(s);
    assert g.toGround == [b] && g.gateway == Gateway([a], 1, None) && g.toFlight == [TelemetryAck(1, 1)];
  }

  lemma {:induction false} TwoAcks(s: State)
    requires s.toFlight == [TelemetryAck(1, 1), TelemetryAck(3, 3)] && s.connected && s.client.highestAck == 0
    requires forall id :: id in s.disk ==> id <= 3
    ensures var s' := ReceiveOne(ReceiveOne(s, 0.0), 0.0);
      s'.disk == map[] && s'.pending == s.pending && s'.toGround == s.toGround && s'.gateway == s.gateway
  {
    var a := ReceiveOne(s, 0.0);
    assert a.toFlight == [TelemetryAck(3, 3)] && a.client.highestAck == 1;
    assert a.disk.Keys <= s.disk.Keys;
    assert ReceiveOne(a, 0.0).disk == map[];
  }

  /** One thread must drive the client. Let a second one send and receive while a replay is
      under way, and then let the link drop: message 2 is neither on disk nor on the wire. */
  lemma {:induction false} SecondThreadLosesMessage()
    ensures ReplayOfTwo().pending != []
    ensures var s := ReplayOne(Disconnect(SecondThread(ReplayOfTwo())), 0.0);
      s.pending == [] && 2 !in s.disk && 2 !in Ids(Wire(s))
  {
    ReplayOfTwoIs();
    hide ReplayOfTwo;
    SecondThreadIs(ReplayOfTwo());
    hide SecondThread;
    var s := ReplayOne(Disconnect(SecondThread(ReplayOfTwo())), 0.0);
    assert Wire(s) == [TelemetryMessage(1), TelemetryMessage(3)];
  }
}
