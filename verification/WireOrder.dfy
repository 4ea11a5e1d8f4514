/** The order in which messages appear on the link, in every run and with overflow too. */
module WireOrder {
  import opened Wrappers
  import opened QueueDirectory
  import opened StoreForward

  /** An id that appears for the first time exceeds every id before it. */
  ghost predicate FirstsAscend(wire: seq<Message>) {
    wire != [] ==>
      var front, last := wire[..|wire| - 1], wire[|wire| - 1];
      FirstsAscend(front) && (last.seqId in Ids(front) || forall j :: j in Ids(front) ==> j < last.seqId)
  }

  /** What an event puts on the link towards the ground. */
  function Added(y: System, e: Event): seq<Message> {
    match e
    case DoSend(msgType, timestamp, payload, _) =>
      if y.s.pending == [] && y.s.connected then [Envelope(y.s, msgType, timestamp, payload)] else []
    case DoReplayOne(_) => if y.s.pending != [] && y.s.connected then [y.s.pending[0]] else []
    case _ => []
  }

  lemma {:induction false} StepWire(y: System, e: Event, maxDepth: nat)
    ensures Wire(Step(y, e, maxDepth).s) == Wire(y.s) + Added(y, e)
  {
    var y' := Step(y, e, maxDepth);
    match e
    case DoSend(msgType, timestamp, payload, now) =>
      if y.s.pending == [] && y.s.connected {
        TransmitIs(TakeNumber(y.s), Envelope(y.s, msgType, timestamp, payload), now);
        assert Wire(TakeNumber(y.s)) == Wire(y.s);
      } else {
        assert Wire(y'.s) == Wire(y.s);
      }
    case DoReplayOne(now) =>
      if y.s.pending != [] && y.s.connected {
        TransmitIs(y.s, y.s.pending[0], now);
        assert Wire(y'.s) == Wire(Transmit(y.s, y.s.pending[0], now));
      } else {
        assert Wire(y'.s) == Wire(y.s);
      }
    case DoGatewayStep =>
      if y.s.toGround != [] {
        assert y.s.toGround == [y.s.toGround[0]] + y.s.toGround[1..];
      }
      assert Wire(y'.s) == Wire(y.s);
    case _ => assert Wire(y'.s) == Wire(y.s);
  }

  /** A fresh number exceeds all on the wire; a replayed one that is new there was never
      overtaken, because it is still on disk and so was not dropped. */
  lemma {:induction false} AddedAscends(y: System, e: Event)
    requires Inv(y) && Added(y, e) != []
    ensures var m := Added(y, e)[0]; m.seqId in Ids(Wire(y.s)) || forall j :: j in Ids(Wire(y.s)) ==> j < m.seqId
  {
    hide AcksOf, Counts, GapFree;
    var m, wire := Added(y, e)[0], Wire(y.s);
    forall j | j in Ids(wire) && !(j < m.seqId) ensures m.seqId in Ids(wire) {
      var w :| w in wire && w.seqId == j;
      assert Genuine(w, y.h.log);
      if e.DoReplayOne? {
        assert m in y.s.pending && Genuine(m, y.h.log);
        assert wire + [] == wire;
        CoveredBelow(wire, [], y.h.dropped, j, m.seqId);
      }
    }
  }

  lemma {:induction false} FirstsAscendAppend(wire: seq<Message>, m: Message)
    requires FirstsAscend(wire)
    requires m.seqId in Ids(wire) || forall j :: j in Ids(wire) ==> j < m.seqId
    ensures FirstsAscend(wire + [m])
  {
    assert (wire + [m])[..|wire|] == wire;
  }

  lemma {:induction false} StepAscends(y: System, e: Event, maxDepth: nat)
    requires Inv(y) && FirstsAscend(Wire(y.s))
    ensures FirstsAscend(Wire(Step(y, e, maxDepth).s))
  {
    hide Step, Added, Inv, Wire, FirstsAscend;
    StepWire(y, e, maxDepth);
    AddedLength(y, e);
    if Added(y, e) == [] {
      assert Wire(y.s) + [] == Wire(y.s);
    } else {
      AddedAscends(y, e);
      assert Added(y, e) == [Added(y, e)[0]];
      FirstsAscendAppend(Wire(y.s), Added(y, e)[0]);
    }
  }

  /** In every run, first appearances on the wire ascend. */
  lemma {:induction false} RunAscends(events: seq<Event>, maxDepth: nat)
    ensures FirstsAscend(Wire(Run(INIT, events, maxDepth).s))
  {
    if events != [] {
      hide Step, Inv, Wire, FirstsAscend;
      RunAscends(events[..|events| - 1], maxDepth);
      RunInv(events[..|events| - 1], maxDepth);
      StepAscends(Run(INIT, events[..|events| - 1], maxDepth), events[|events| - 1], maxDepth);
    }
  }

  lemma {:induction false} AddedLength(y: System, e: Event)
    ensures |Added(y, e)| <= 1
  {
  }

  /** Whatever is on the wire at all was there before any larger id. */
  lemma {:induction false} AppearedBefore(ms: seq<Message>, rest: seq<Message>, a: nat, i: nat)
    requires FirstsAscend(ms + rest) && a in Ids(ms) && i in Ids(ms + rest) && i <= a
    ensures i in Ids(ms)
  {
    if rest == [] {
      assert ms + rest == ms;
    } else {
      var front, last := rest[..|rest| - 1], rest[|rest| - 1];
      assert (ms + rest)[..|ms + rest| - 1] == ms + front && ms + rest == (ms + front) + [last];
      IdsAppend(ms + front, last);
      IdsPrefix(ms, front);
      AppearedBefore(ms, front, a, i);
    }
  }

  lemma {:induction false} IdsPrefix(ms: seq<Message>, rest: seq<Message>)
    ensures Ids(ms) <= Ids(ms + rest)
  {
    assert forall m :: m in ms ==> m in ms + rest;
  }

  lemma {:induction false} FirstsAscendPrefix(ms: seq<Message>, rest: seq<Message>)
    requires FirstsAscend(ms + rest)
    ensures FirstsAscend(ms)
  {
    if rest == [] {
      assert ms + rest == ms;
    } else {
      assert (ms + rest)[..|ms + rest| - 1] == ms + rest[..|rest| - 1];
      FirstsAscendPrefix(ms, rest[..|rest| - 1]);
    }
  }

  /** The messages of ms, each id at its first appearance only. */
  ghost function FirstReceipts(ms: seq<Message>): (r: seq<Message>) {
    if ms == [] then [] else
      var front, last := ms[..|ms| - 1], ms[|ms| - 1];
      if last.seqId in Ids(front) then FirstReceipts(front) else FirstReceipts(front) + [last]
  }

  /** First appearances ascend, are messages of ms, and cover its ids. */
  lemma {:induction false} FirstReceiptsAre(ms: seq<Message>)
    requires FirstsAscend(ms)
    ensures IncreasingIds(FirstReceipts(ms))
    ensures Ids(FirstReceipts(ms)) == Ids(ms)
    ensures forall m :: m in FirstReceipts(ms) ==> m in ms
  {
    if ms != [] {
      var front, last := ms[..|ms| - 1], ms[|ms| - 1];
      assert ms == front + [last];
      FirstReceiptsAre(front);
      IdsAppend(front, last);
      IdsAppend(FirstReceipts(front), last);
      if last.seqId !in Ids(front) {
        var r := FirstReceipts(front);
        forall i | 0 <= i < |r| ensures r[i].seqId < last.seqId {
          assert r[i] in r && r[i].seqId in Ids(r);
        }
      }
    }
  }

  ghost predicate AllGenuine(ms: seq<Message>, log: seq<Message>) {
    forall m :: m in ms ==> Genuine(m, log)
  }

  lemma {:induction false} GenuineSame(a: seq<Message>, b: seq<Message>, log: seq<Message>)
    requires AllGenuine(a, log) && AllGenuine(b, log) && a != [] && b != []
    requires a[|a| - 1].seqId == b[|b| - 1].seqId
    ensures a[|a| - 1] == b[|b| - 1]
    ensures AllGenuine(a[..|a| - 1], log) && AllGenuine(b[..|b| - 1], log)
  {
    assert a[|a| - 1] in a && b[|b| - 1] in b;
  }

  /** Two increasing lists of messages from one log are equal if they have the same ids. */
  lemma {:induction false} IncreasingUnique(a: seq<Message>, b: seq<Message>, log: seq<Message>)
    requires IncreasingIds(a) && IncreasingIds(b) && Ids(a) == Ids(b)
    requires AllGenuine(a, log) && AllGenuine(b, log)
    ensures a == b
  {
    hide AllGenuine;
    if a == [] || b == [] {
      assert a != [] ==> a[0].seqId in Ids(a);
      assert b != [] ==> b[0].seqId in Ids(b);
    } else {
      LastIsGreatest(a);
      LastIsGreatest(b);
      hide Ids, IncreasingIds;
      GenuineSame(a, b, log);
      IncreasingUnique(a[..|a| - 1], b[..|b| - 1], log);
      assert a == a[..|a| - 1] + [a[|a| - 1]] && b == b[..|b| - 1] + [b[|b| - 1]];
    }
  }

  lemma {:induction false} LastIsGreatest(a: seq<Message>)
    requires IncreasingIds(a) && a != []
    ensures a[|a| - 1].seqId in Ids(a) && forall i :: i in Ids(a) ==> i <= a[|a| - 1].seqId
    ensures IncreasingIds(a[..|a| - 1])
    ensures Ids(a[..|a| - 1]) == Ids(a) - {a[|a| - 1].seqId}
  {
    var front, last := a[..|a| - 1], a[|a| - 1];
    assert a == front + [last];
    IdsAppend(front, last);
    forall m | m in front ensures m.seqId < last.seqId {
      var i :| 0 <= i < |front| && front[i] == m;
      assert a[i] == m;
    }
  }
}
