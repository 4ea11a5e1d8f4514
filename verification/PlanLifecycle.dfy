/** The life of a command plan on the ground: signing, upload, and the acknowledgements and
    rejections that come back from flight. */
module PlanLifecycle {
  import opened Wrappers

  datatype PlanStatus = DRAFT | SIGNED | UPLOADED | EXECUTING | COMPLETED | REJECTED

  datatype CommandStatus = QUEUED | SENT | ACKED | EXECUTED | FAILED | EXPIRED

  datatype CommandRow = CommandRow(sequenceId: int, status: CommandStatus)

  datatype PlanRow = PlanRow(status: PlanStatus, commands: seq<CommandRow>)

  /** Rows of one plan have different sequence numbers. */
  predicate DistinctIds(commands: seq<CommandRow>) {
    forall i, j :: 0 <= i < j < |commands| ==> commands[i].sequenceId != commands[j].sequenceId
  }

  predicate Allowed(from: PlanStatus, to: PlanStatus) {
    match from
    case DRAFT => to == SIGNED
    case SIGNED => to == UPLOADED
    case UPLOADED => to == EXECUTING || to == REJECTED
    case EXECUTING => to == COMPLETED || to == REJECTED
    case _ => false
  }

  function Rank(s: PlanStatus): nat {
    match s
    case DRAFT => 0
    case SIGNED => 1
    case UPLOADED => 2
    case EXECUTING => 3
    case _ => 4
  }

  // ---- Acknowledgement payloads ----

  /** A field of a message payload, as text or as a number. */
  datatype Field = Text(text: string) | Number(number: int)

  type Payload = map<string, Field>

  /** The COMMAND_ACK payload as the flight client builds it. */
  function FlightAck(planId: string, seqId: int, status: string, executedAt: string): Payload {
    map["plan_id" := Text(planId), "sequence_id" := Number(seqId), "status" := Text(status), "executed_at" := Text(executedAt)]
  }

  /** The COMMAND_ACK payload with the field name the gateway reads. */
  function GatewayAck(planId: string, seqId: int, status: string, executedAt: string): Payload {
    map["plan_id" := Text(planId), "command_seq_id" := Number(seqId), "status" := Text(status), "executed_at" := Text(executedAt)]
  }

  /** What the gateway takes from a payload: absent fields and texts that are no number find
      no command. */
  function PlanIdOf(p: Payload): Option<string> {
    if "plan_id" in p && p["plan_id"].Text? then Some(p["plan_id"].text) else None
  }

  function CommandSeqIdOf(p: Payload): Option<int> {
    if "command_seq_id" in p && p["command_seq_id"].Number? then Some(p["command_seq_id"].number) else None
  }

  /** The status column accepts its six values only; an absent, empty or zero status stands
      for EXECUTED. */
  function StatusOf(p: Payload): Option<CommandStatus> {
    if "status" !in p || p["status"] == Number(0) then Some(EXECUTED)
    else if p["status"].Number? then None
    else ReadStatus(p["status"].text)
  }

  function ReadStatus(text: string): Option<CommandStatus> {
    if text == "" || text == "EXECUTED" then Some(EXECUTED)
    else if text == "QUEUED" then Some(QUEUED)
    else if text == "SENT" then Some(SENT)
    else if text == "ACKED" then Some(ACKED)
    else if text == "FAILED" then Some(FAILED)
    else if text == "EXPIRED" then Some(EXPIRED)
    else None
  }

  lemma FieldNames()
    ensures "command_seq_id" != "plan_id" && "command_seq_id" != "sequence_id"
    ensures "command_seq_id" != "status" && "command_seq_id" != "executed_at"
    ensures "plan_id" != "sequence_id" && "plan_id" != "status" && "plan_id" != "executed_at"
    ensures "status" != "executed_at" && "status" != "sequence_id"
  {
    assert |"command_seq_id"| == 14 && |"plan_id"| == 7 && |"sequence_id"| == 11;
    assert |"status"| == 6 && "executed_at"[0] == 'e' && "sequence_id"[0] == 's';
  }

  lemma FlightAckReads(planId: string, seqId: int, status: string, executedAt: string)
    ensures var p := FlightAck(planId, seqId, status, executedAt);
      PlanIdOf(p) == Some(planId) && CommandSeqIdOf(p) == None && StatusOf(p) == ReadStatus(status)
  {
    FieldNames();
  }

  lemma GatewayAckReads(planId: string, seqId: int, status: string, executedAt: string)
    ensures var p := GatewayAck(planId, seqId, status, executedAt);
      PlanIdOf(p) == Some(planId) && CommandSeqIdOf(p) == Some(seqId) && StatusOf(p) == ReadStatus(status)
  {
    FieldNames();
  }

  /** The text of each value of the status column. */
  function StatusName(status: CommandStatus): string {
    match status
    case QUEUED => "QUEUED"
    case SENT => "SENT"
    case ACKED => "ACKED"
    case EXECUTED => "EXECUTED"
    case FAILED => "FAILED"
    case EXPIRED => "EXPIRED"
  }

  lemma NamesDiffer(a: CommandStatus, b: CommandStatus)
    requires StatusName(a) == StatusName(b)
    ensures a == b
  {
    assert StatusName(QUEUED)[0] == 'Q' && StatusName(SENT)[0] == 'S' && StatusName(ACKED)[0] == 'A';
    assert StatusName(FAILED)[0] == 'F' && StatusName(EXECUTED)[2] == 'E' && StatusName(EXPIRED)[2] == 'P';
    assert StatusName(EXECUTED)[0] == 'E' && StatusName(EXPIRED)[0] == 'E';
  }

  /** A payload's status is read as the one it names, and as EXECUTED also where it is absent,
      empty or zero; nothing else is read. */
  lemma StatusReads(p: Payload, status: CommandStatus)
    ensures StatusOf(p) == Some(status) <==>
      || ("status" in p && p["status"] == Text(StatusName(status)))
      || (status == EXECUTED && ("status" !in p || p["status"] == Text("") || p["status"] == Number(0)))
  {
    if "status" in p && p["status"].Text? {
      var text := p["status"].text;
      forall other | text == StatusName(other) ensures ReadStatus(text) == Some(other) {
        ReadsName(other);
      }
      if text == StatusName(status) {
        assert text != "";
      }
    }
  }

  lemma ReadsName(status: CommandStatus)
    ensures ReadStatus(StatusName(status)) == Some(status)
  {
    var name := StatusName(status);
    forall other | name == StatusName(other) ensures other == status {
      NamesDiffer(other, status);
    }
    assert StatusName(EXECUTED) == "EXECUTED" && StatusName(QUEUED) == "QUEUED" && StatusName(SENT) == "SENT";
    assert StatusName(ACKED) == "ACKED" && StatusName(FAILED) == "FAILED" && StatusName(EXPIRED) == "EXPIRED";
  }

  // ---- One plan ----

  predicate Known(commands: seq<CommandRow>, id: Option<int>) {
    id.Some? && exists i :: 0 <= i < |commands| && commands[i].sequenceId == id.value
  }

  function SetStatus(commands: seq<CommandRow>, id: int, status: CommandStatus): (r: seq<CommandRow>)
    ensures |r| == |commands|
    ensures forall i :: 0 <= i < |commands| ==>
      r[i] == if commands[i].sequenceId == id then commands[i].(status := status) else commands[i]
  {
    seq(|commands|, i requires 0 <= i < |commands| =>
      if commands[i].sequenceId == id then commands[i].(status := status) else commands[i])
  }

  function SetAll(commands: seq<CommandRow>, status: CommandStatus): (r: seq<CommandRow>)
    ensures |r| == |commands| && forall i :: 0 <= i < |commands| ==> r[i] == commands[i].(status := status)
  {
    seq(|commands|, i requires 0 <= i < |commands| => commands[i].(status := status))
  }

  predicate AllExecuted(commands: seq<CommandRow>) {
    forall i :: 0 <= i < |commands| ==> commands[i].status == EXECUTED
  }

  /** A status update that is not allowed fails and changes nothing. */
  function Move(from: PlanStatus, to: PlanStatus): PlanStatus {
    if Allowed(from, to) then to else from
  }

  function Ack(row: PlanRow, p: Payload): PlanRow {
    var id, status := CommandSeqIdOf(p), StatusOf(p);
    if !Known(row.commands, id) || status.None? then row else
      var commands := SetStatus(row.commands, id.value, status.value);
      PlanRow(if AllExecuted(commands) then Move(Move(row.status, EXECUTING), COMPLETED) else row.status, commands)
  }

  function Nack(row: PlanRow): PlanRow {
    var through := if row.status == UPLOADED then Move(row.status, EXECUTING) else row.status;
    PlanRow(Move(through, REJECTED), SetAll(row.commands, FAILED))
  }

  /** Uploading needs a signed plan, a connected flight segment and, if the plan names a
      contact window, an active one. */
  function Upload(row: PlanRow, connected: bool, windowOk: bool): PlanRow {
    if row.status == SIGNED && connected && windowOk
    then PlanRow(UPLOADED, SetAll(row.commands, SENT))
    else row
  }

  function Sign(row: PlanRow, complete: bool): PlanRow {
    if complete && row.status == DRAFT then row.(status := SIGNED) else row
  }

  datatype Op =
    | DoSign(complete: bool)
    | DoUpload(connected: bool, windowOk: bool)
    | DoAck(payload: Payload)
    | DoNack

  function Step(row: PlanRow, op: Op): PlanRow {
    match op
    case DoSign(complete) => Sign(row, complete)
    case DoUpload(connected, windowOk) => Upload(row, connected, windowOk)
    case DoAck(payload) => Ack(row, payload)
    case DoNack => Nack(row)
  }

  function Run(row: PlanRow, ops: seq<Op>): PlanRow {
    if ops == [] then row else Step(Run(row, ops[..|ops| - 1]), ops[|ops| - 1])
  }

  // ---- Whole lives ----

  lemma StepKeeps(row: PlanRow, op: Op)
    ensures var r := Step(row, op);
      && (r.status != row.status ==> Rank(row.status) < Rank(r.status))
      && |r.commands| == |row.commands|
      && (forall i :: 0 <= i < |row.commands| ==> r.commands[i].sequenceId == row.commands[i].sequenceId)
  {
  }

  /** Over any operations the status changes only forwards: DRAFT, SIGNED, UPLOADED, EXECUTING,
      then COMPLETED or REJECTED, which stay. */
  lemma {:induction false} StatusNeverGoesBack(row: PlanRow, ops: seq<Op>, i: nat, j: nat)
    requires i <= j <= |ops|
    ensures var a, b := Run(row, ops[..i]).status, Run(row, ops[..j]).status;
      && (b != a ==> Rank(a) < Rank(b))
      && (a in {COMPLETED, REJECTED} ==> b == a)
    decreases j
  {
    hide Step;
    if i < j {
      assert ops[..j][..j - 1] == ops[..j - 1];
      StatusNeverGoesBack(row, ops, i, j - 1);
      StepKeeps(Run(row, ops[..j - 1]), ops[j - 1]);
    }
  }

  /** The commands would all be executed once this payload is taken in. */
  ghost predicate LastExecuted(commands: seq<CommandRow>, p: Payload) {
    && StatusOf(p).Some?
    && (exists i :: 0 <= i < |commands| && CommandSeqIdOf(p) == Some(commands[i].sequenceId))
    && forall i :: 0 <= i < |commands| ==>
         if CommandSeqIdOf(p) == Some(commands[i].sequenceId) then StatusOf(p) == Some(EXECUTED)
         else commands[i].status == EXECUTED
  }

  /** How each status is entered from another one: SIGNED by a complete signature on a draft,
      UPLOADED by a connected upload of a signed plan in an open window, COMPLETED by the
      acknowledgement that leaves all commands of an uploaded plan executed, REJECTED by a
      rejection of an uploaded plan. EXECUTING is passed through and DRAFT never entered. */
  lemma StatusEntered(row: PlanRow, op: Op, to: PlanStatus)
    requires to != row.status
    ensures Step(row, op).status == to <==>
      match to
      case DRAFT => false
      case SIGNED => row.status == DRAFT && op == DoSign(true)
      case UPLOADED => row.status == SIGNED && op == DoUpload(true, true)
      case EXECUTING => false
      case COMPLETED => row.status in {UPLOADED, EXECUTING} && op.DoAck? && LastExecuted(row.commands, op.payload)
      case REJECTED => row.status in {UPLOADED, EXECUTING} && op.DoNack?
  {
    if op.DoAck? {
      AckCompletes(row, op.payload);
    }
  }

  lemma AckCompletes(row: PlanRow, p: Payload)
    ensures Ack(row, p).status ==
      if row.status in {UPLOADED, EXECUTING} && LastExecuted(row.commands, p) then COMPLETED else row.status
  {
    var id, status := CommandSeqIdOf(p), StatusOf(p);
    hide CommandSeqIdOf, StatusOf;
    if Known(row.commands, id) && status.Some? {
      var after := SetStatus(row.commands, id.value, status.value);
      forall i | 0 <= i < |row.commands|
        ensures after[i].status == if id == Some(row.commands[i].sequenceId) then status.value else row.commands[i].status
      {
      }
      assert AllExecuted(after) <==> LastExecuted(row.commands, p);
    }
  }

  /** What each operation does to the commands: an upload marks all as sent, an acknowledgement
      sets the one it names, and a rejection fails all, in whatever status the plan is. */
  lemma CommandsAfter(row: PlanRow, op: Op, i: nat)
    requires i < |row.commands|
    ensures |Step(row, op).commands| == |row.commands|
    ensures var c := row.commands[i];
      Step(row, op).commands[i] == CommandRow(c.sequenceId,
        match op
        case DoSign(_) => c.status
        case DoUpload(connected, windowOk) => if connected && windowOk && row.status == SIGNED then SENT else c.status
        case DoAck(p) => if CommandSeqIdOf(p) == Some(c.sequenceId) && StatusOf(p).Some? then StatusOf(p).value else c.status
        case DoNack => FAILED)
  {
    hide CommandSeqIdOf, StatusOf;
  }

  /** A plan that starts as a draft has left it exactly if it was signed completely, and has
      been uploaded exactly if such a signature was followed by an upload that went through. */
  lemma {:induction false} HowFarItCame(row: PlanRow, ops: seq<Op>)
    requires row.status == DRAFT
    ensures Run(row, ops).status != DRAFT <==> Signs(ops)
    ensures Run(row, ops).status !in {DRAFT, SIGNED} <==> Uploads(ops)
  {
    if ops != [] {
      var front, op := ops[..|ops| - 1], ops[|ops| - 1];
      HowFarItCame(row, front);
      var before, after := Run(row, front), Run(row, ops);
      assert after == Step(before, op);
      if after.status != before.status {
        StatusEntered(before, op, after.status);
      }
      if before.status == DRAFT {
        StatusEntered(before, op, SIGNED);
      }
      if before.status == SIGNED {
        StatusEntered(before, op, UPLOADED);
      }
      hide Step, Run;
      SignedMore(ops);
      UploadsMore(ops);
    }
  }

  /** A complete signature, and after it an upload that goes through. */
  ghost predicate Uploads(ops: seq<Op>) {
    exists i, j :: 0 <= i < j < |ops| && ops[i] == DoSign(true) && ops[j] == DoUpload(true, true)
  }

  ghost predicate Signs(ops: seq<Op>) {
    exists i :: 0 <= i < |ops| && ops[i] == DoSign(true)
  }

  lemma SignedMore(ops: seq<Op>)
    requires ops != []
    ensures Signs(ops) <==> Signs(ops[..|ops| - 1]) || ops[|ops| - 1] == DoSign(true)
  {
    var front := ops[..|ops| - 1];
    if Signs(front) {
      var i :| 0 <= i < |front| && front[i] == DoSign(true);
      assert ops[i] == DoSign(true);
    }
    if Signs(ops) {
      var i :| 0 <= i < |ops| && ops[i] == DoSign(true);
      assert i < |front| ==> front[i] == ops[i];
    }
  }

  lemma UploadsMore(ops: seq<Op>)
    requires ops != []
    ensures var front := ops[..|ops| - 1];
      Uploads(ops) <==> Uploads(front) || (Signs(front) && ops[|ops| - 1] == DoUpload(true, true))
  {
    var front := ops[..|ops| - 1];
    if Uploads(front) {
      var i, j :| 0 <= i < j < |front| && front[i] == DoSign(true) && front[j] == DoUpload(true, true);
      assert ops[i] == front[i] && ops[j] == front[j];
    }
    if Signs(front) && ops[|ops| - 1] == DoUpload(true, true) {
      var i :| 0 <= i < |front| && front[i] == DoSign(true);
      assert ops[i] == front[i];
    }
    if Uploads(ops) {
      var i, j :| 0 <= i < j < |ops| && ops[i] == DoSign(true) && ops[j] == DoUpload(true, true);
      assert front[i] == ops[i] && (j < |front| ==> front[j] == ops[j]);
    }
  }

  // ---- Which acknowledgements change a plan ----

  /** An acknowledgement changes the plan exactly if it carries `command_seq_id` as the number
      of a command of the plan and a readable status, and either that command had another
      status or now every command is executed while the plan is still under way. */
  lemma AckChangesIff(row: PlanRow, p: Payload)
    requires DistinctIds(row.commands)
    ensures var id, status := CommandSeqIdOf(p), StatusOf(p);
      Ack(row, p) != row <==>
        && Known(row.commands, id) && status.Some?
        && ((exists i :: 0 <= i < |row.commands| && row.commands[i].sequenceId == id.value
               && row.commands[i].status != status.value)
            || (AllExecuted(SetStatus(row.commands, id.value, status.value)) && row.status in {UPLOADED, EXECUTING}))
  {
    var id, status := CommandSeqIdOf(p), StatusOf(p);
    if Known(row.commands, id) && status.Some? {
      var commands := SetStatus(row.commands, id.value, status.value);
      assert (forall i :: 0 <= i < |row.commands| ==> row.commands[i] == commands[i]) <==> commands == row.commands;
    }
  }

  /** An acknowledgement as the flight client sends it. */
  ghost predicate IsFlightAck(op: Op) {
    op.DoAck? && exists planId, seqId, status, executedAt :: op.payload == FlightAck(planId, seqId, status, executedAt)
  }

  /** The flight client names the field `sequence_id`, the gateway reads `command_seq_id`: the
      acknowledgements that flight sends change no plan, whatever they name and however many
      come. */
  lemma {:induction false} FlightAcksChangeNothing(row: PlanRow, ops: seq<Op>)
    requires forall i :: 0 <= i < |ops| ==> IsFlightAck(ops[i])
    ensures Run(row, ops) == row
  {
    if ops != [] {
      FlightAcksChangeNothing(row, ops[..|ops| - 1]);
      var p := ops[|ops| - 1].payload;
      var planId, seqId, status, executedAt :| p == FlightAck(planId, seqId, status, executedAt);
      FlightAckReads(planId, seqId, status, executedAt);
    }
  }

  // ---- Completion ----

  /** EXECUTED acknowledgements of these commands, one after the other. */
  function Acks(planId: string, ids: seq<int>): seq<Op> {
    if ids == [] then [] else
      Acks(planId, ids[..|ids| - 1]) + [DoAck(GatewayAck(planId, ids[|ids| - 1], "EXECUTED", ""))]
  }

  /** The acknowledged commands are the executed ones. */
  ghost predicate ExecutedAre(commands: seq<CommandRow>, ids: seq<int>) {
    forall i :: 0 <= i < |commands| ==> (commands[i].status == EXECUTED <==> commands[i].sequenceId in ids)
  }

  ghost predicate Covered(commands: seq<CommandRow>, ids: seq<int>) {
    forall i :: 0 <= i < |commands| ==> commands[i].sequenceId in ids
  }

  lemma SetStatusExecutedAre(commands: seq<CommandRow>, ids: seq<int>, id: int)
    requires ExecutedAre(commands, ids)
    ensures ExecutedAre(SetStatus(commands, id, EXECUTED), ids + [id])
    ensures !Known(commands, Some(id)) ==> ExecutedAre(commands, ids + [id])
  {
  }

  predicate SameIds(a: seq<CommandRow>, b: seq<CommandRow>) {
    |a| == |b| && forall i :: 0 <= i < |a| ==> a[i].sequenceId == b[i].sequenceId
  }

  lemma AckStep(commands: seq<CommandRow>, s: PlanRow, ids: seq<int>, id: int, p: Payload)
    requires SameIds(s.commands, commands) && commands != [] && ExecutedAre(s.commands, ids)
    requires s.status == if Covered(commands, ids) then COMPLETED else UPLOADED
    requires CommandSeqIdOf(p) == Some(id) && StatusOf(p) == Some(EXECUTED)
    ensures var r := Ack(s, p);
      && r.status == (if Covered(commands, ids + [id]) then COMPLETED else UPLOADED)
      && ExecutedAre(r.commands, ids + [id]) && SameIds(r.commands, commands)
  {
    SetStatusExecutedAre(s.commands, ids, id);
    var after := SetStatus(s.commands, id, EXECUTED);
    assert AllExecuted(after) <==> Covered(commands, ids + [id]);
    assert Covered(commands, ids) ==> Covered(commands, ids + [id]);
    if !Known(s.commands, Some(id)) {
      assert Covered(commands, ids + [id]) ==> Covered(commands, ids);
    }
  }

  lemma LastAck(row: PlanRow, planId: string, ids: seq<int>)
    requires ids != []
    ensures Run(row, Acks(planId, ids))
            == Ack(Run(row, Acks(planId, ids[..|ids| - 1])), GatewayAck(planId, ids[|ids| - 1], "EXECUTED", ""))
  {
    hide Ack, GatewayAck, Nack, Upload, Sign;
    var acks := Acks(planId, ids);
    assert acks[..|acks| - 1] == Acks(planId, ids[..|ids| - 1]);
  }

  /** From the upload on, EXECUTED acknowledgements in any order, with repetitions and unknown
      numbers, complete the plan exactly when every sequence number has been acknowledged. */
  lemma {:induction false} CompletesExactlyWhenCovered(row: PlanRow, planId: string, ids: seq<int>)
    requires row.status == UPLOADED && row.commands != [] && ExecutedAre(row.commands, [])
    ensures var r := Run(row, Acks(planId, ids));
      && r.status == (if Covered(row.commands, ids) then COMPLETED else UPLOADED)
      && ExecutedAre(r.commands, ids) && SameIds(r.commands, row.commands)
  {
    if ids == [] {
      assert row.commands[0].sequenceId !in ids;
    } else {
      hide Ack, ExecutedAre, Covered, SameIds, GatewayAck, StatusOf, CommandSeqIdOf, PlanIdOf, ReadStatus, Nack, Upload, Sign;
      var front, id := ids[..|ids| - 1], ids[|ids| - 1];
      CompletesExactlyWhenCovered(row, planId, front);
      var p := GatewayAck(planId, id, "EXECUTED", "");
      GatewayAckReads(planId, id, "EXECUTED", "");
      LastAck(row, planId, ids);
      hide Acks, Run;
      assert ids == front + [id];
      AckStep(row.commands, Run(row, Acks(planId, front)), front, id, p);
    }
  }

  /** An uploaded plan starts with no executed command. */
  lemma UploadStartsClean(row: PlanRow, connected: bool, windowOk: bool)
    requires Upload(row, connected, windowOk) != row
    ensures var r := Upload(row, connected, windowOk);
      r.status == UPLOADED && ExecutedAre(r.commands, []) && row.status == SIGNED
  {
  }

  /** The life of a signed plan after a successful upload, for both field names: with the one
      the gateway reads it completes exactly when every command is acknowledged; with the one
      flight sends it stays UPLOADED. */
  lemma UploadedPlanLives(row: PlanRow, planId: string, ids: seq<int>, flight: seq<Op>)
    requires row.status == SIGNED && row.commands != []
    requires forall i :: 0 <= i < |flight| ==> IsFlightAck(flight[i])
    ensures var uploaded := Step(row, DoUpload(true, true));
      && Run(uploaded, Acks(planId, ids)).status == (if Covered(row.commands, ids) then COMPLETED else UPLOADED)
      && Run(uploaded, flight).status == UPLOADED
  {
    var uploaded := Step(row, DoUpload(true, true));
    UploadStartsClean(row, true, true);
    CompletesExactlyWhenCovered(uploaded, planId, ids);
    FlightAcksChangeNothing(uploaded, flight);
    assert Covered(uploaded.commands, ids) <==> Covered(row.commands, ids);
  }

  lemma {:induction false} RunAfter(row: PlanRow, first: seq<Op>, rest: seq<Op>)
    ensures Run(row, first + rest) == Run(Run(row, first), rest)
  {
    if rest == [] {
      assert first + rest == first;
    } else {
      assert (first + rest)[..|first + rest| - 1] == first + rest[..|rest| - 1];
      RunAfter(row, first, rest[..|rest| - 1]);
    }
  }

  /** The whole life of a draft that is signed and uploaded: EXECUTED acknowledgements complete
      it exactly when they cover its commands, a rejection rejects it and fails them all, and
      what flight sends leaves it UPLOADED. */
  lemma DraftLives(row: PlanRow, planId: string, ids: seq<int>, flight: seq<Op>)
    requires row.status == DRAFT && row.commands != []
    requires forall i :: 0 <= i < |flight| ==> IsFlightAck(flight[i])
    ensures var begin := [DoSign(true), DoUpload(true, true)];
      && Run(row, begin + Acks(planId, ids)).status == (if Covered(row.commands, ids) then COMPLETED else UPLOADED)
      && Run(row, begin + [DoNack]) == PlanRow(REJECTED, SetAll(row.commands, FAILED))
      && Run(row, begin + flight).status == UPLOADED
  {
    var begin, signed := [DoSign(true), DoUpload(true, true)], Step(row, DoSign(true));
    var uploaded := Step(signed, DoUpload(true, true));
    assert begin[..1] == [DoSign(true)] && begin[..1][..0] == [];
    assert Run(row, begin[..1]) == Step(Run(row, []), DoSign(true));
    assert Run(row, begin) == uploaded;
    StatusEntered(row, DoSign(true), SIGNED);
    UploadedPlanLives(signed, planId, ids, flight);
    RunAfter(row, begin, Acks(planId, ids));
    RunAfter(row, begin, flight);
    RunAfter(row, begin, [DoNack]);
    assert [DoNack][..0] == [];
    assert Run(uploaded, [DoNack]) == Step(Run(uploaded, []), DoNack);
    StatusEntered(uploaded, DoNack, REJECTED);
    assert Step(uploaded, DoNack).commands == SetAll(row.commands, FAILED);
  }

  // ---- The store and the gateway ----

  datatype StoreError = MissingSignature | NotFound | NotDraft | InvalidTransition

  class Store {
    var plans: map<string, PlanRow>

    constructor (plans: map<string, PlanRow>)
      ensures this.plans == plans
    {
      this.plans := plans;
    }

    method SignPlan(id: string, signature: string, publicKey: string) returns (r: Result<PlanRow, StoreError>)
      modifies this
      ensures var complete := signature != "" && publicKey != "";
        && (id in old(plans) ==> plans == old(plans)[id := Sign(old(plans)[id], complete)])
        && (r.Success? <==> complete && id in old(plans) && old(plans)[id].status == DRAFT)
        && (r == Failure(MissingSignature) <==> !complete)
        && (r == Failure(NotFound) <==> complete && id !in old(plans))
        && (r == Failure(NotDraft) <==> complete && id in old(plans) && old(plans)[id].status != DRAFT)
      ensures r.Success? ==>
        r.value == PlanRow(SIGNED, old(plans)[id].commands) && plans == old(plans)[id := r.value]
      ensures r.Failure? ==> plans == old(plans)
    {
      if signature == "" || publicKey == "" {
        assert id in plans ==> plans[id := plans[id]] == plans;
        return Failure(MissingSignature);
      }
      if id !in plans {
        return Failure(NotFound);
      }
      if plans[id].status != DRAFT {
        assert plans[id := plans[id]] == plans;
        return Failure(NotDraft);
      }
      plans := plans[id := plans[id].(status := SIGNED)];
      return Success(plans[id]);
    }

    method UpdateStatus(id: string, to: PlanStatus) returns (r: Result<PlanRow, StoreError>)
      modifies this
      ensures id in old(plans) ==>
        plans == old(plans)[id := old(plans)[id].(status := Move(old(plans)[id].status, to))]
      ensures r.Success? <==>
        && id in old(plans)
        && (old(plans)[id].status, to) in {(DRAFT, SIGNED), (SIGNED, UPLOADED), (UPLOADED, EXECUTING),
                                           (UPLOADED, REJECTED), (EXECUTING, COMPLETED), (EXECUTING, REJECTED)}
      ensures r == Failure(NotFound) <==> id !in old(plans)
      ensures r.Success? ==>
        r.value == PlanRow(to, old(plans)[id].commands) && plans == old(plans)[id := r.value]
      ensures r.Failure? ==> plans == old(plans)
    {
      if id !in plans {
        return Failure(NotFound);
      }
      var plan := plans[id];
      if !Allowed(plan.status, to) {
        assert plans[id := plan] == plans;
        return Failure(InvalidTransition);
      }
      plans := plans[id := plan.(status := to)];
      return Success(plans[id]);
    }

    /** One row of a plan, by its sequence number. */
    method UpdateCommand(id: string, sequenceId: int, status: CommandStatus)
      requires id in plans
      modifies this
      ensures plans == old(plans)[id := old(plans)[id].(commands := SetStatus(old(plans)[id].commands, sequenceId, status))]
    {
      plans := plans[id := plans[id].(commands := SetStatus(plans[id].commands, sequenceId, status))];
    }

    method BulkUpdate(id: string, status: CommandStatus)
      modifies this
      ensures id in old(plans) ==> plans == old(plans)[id := old(plans)[id].(commands := SetAll(old(plans)[id].commands, status))]
      ensures id !in old(plans) ==> plans == old(plans)
    {
      if id in plans {
        plans := plans[id := plans[id].(commands := SetAll(plans[id].commands, status))];
      }
    }
  }

  class Gateway {
    const store: Store
    var acksReceived: nat
    var nacksReceived: nat

    constructor (store: Store)
      ensures this.store == store && acksReceived == 0 && nacksReceived == 0
    {
      this.store := store;
      acksReceived, nacksReceived := 0, 0;
    }

    method HandleCommandAck(payload: Payload)
      modifies this`acksReceived, store
      ensures acksReceived == old(acksReceived) + 1
      ensures var id := PlanIdOf(payload);
        if id.Some? && id.value in old(store.plans)
        then store.plans == old(store.plans)[id.value := Ack(old(store.plans)[id.value], payload)]
        else store.plans == old(store.plans)
    {
      hide CommandSeqIdOf, StatusOf, PlanIdOf;
      acksReceived := acksReceived + 1;
      var id := PlanIdOf(payload);
      if id.None? || id.value !in store.plans {
        return;
      }
      var planId, commandSeqId, status := id.value, CommandSeqIdOf(payload), StatusOf(payload);
      var row := store.plans[planId];
      var found := FindCommand(row.commands, commandSeqId);
      if !found || status.None? {
        assert store.plans[planId := row] == store.plans;
        return;
      }
      store.UpdateCommand(planId, commandSeqId.value, status.value);
      var rows := store.plans[planId].commands;
      if AllExecuted(rows) {
        var first := store.UpdateStatus(planId, EXECUTING);
        var second := store.UpdateStatus(planId, COMPLETED);
      }
    }

    method HandleCommandNack(planId: string)
      modifies this`nacksReceived, store
      ensures nacksReceived == old(nacksReceived) + 1
      ensures planId !in old(store.plans) ==> store.plans == old(store.plans)
      ensures planId in old(store.plans) ==> store.plans == old(store.plans)[planId := Nack(old(store.plans)[planId])]
    {
      nacksReceived := nacksReceived + 1;
      if planId in store.plans && store.plans[planId].status == UPLOADED {
        var first := store.UpdateStatus(planId, EXECUTING);
      }
      var second := store.UpdateStatus(planId, REJECTED);
      store.BulkUpdate(planId, FAILED);
    }

    /** The upload route; every command row is marked as sent, one after the other. */
    method UploadPlan(planId: string, connected: bool, windowOk: bool) returns (uploaded: bool)
      requires planId in store.plans ==> DistinctIds(store.plans[planId].commands)
      modifies store
      ensures planId !in old(store.plans) ==> store.plans == old(store.plans) && !uploaded
      ensures planId in old(store.plans) ==>
        && store.plans == old(store.plans)[planId := Upload(old(store.plans)[planId], connected, windowOk)]
        && (uploaded <==> old(store.plans)[planId].status == SIGNED && connected && windowOk)
    {
      if planId !in store.plans {
        return false;
      }
      var row := store.plans[planId];
      if row.status != SIGNED || !connected || !windowOk {
        assert store.plans[planId := row] == store.plans;
        return false;
      }
      var updated := store.UpdateStatus(planId, UPLOADED);
      ghost var rest := old(store.plans);
      for k := 0 to |row.commands|
        invariant planId in store.plans
        invariant store.plans == rest[planId := PlanRow(UPLOADED, store.plans[planId].commands)]
        invariant |store.plans[planId].commands| == |row.commands|
        invariant forall i :: 0 <= i < |row.commands| ==>
          store.plans[planId].commands[i] == if i < k then row.commands[i].(status := SENT) else row.commands[i]
      {
        store.UpdateCommand(planId, row.commands[k].sequenceId, SENT);
      }
      assert store.plans[planId].commands == SetAll(row.commands, SENT);
      return true;
    }
  }

  method FindCommand(commands: seq<CommandRow>, id: Option<int>) returns (found: bool)
    ensures found <==> Known(commands, id)
  {
    found := false;
    if id.None? {
      return;
    }
    for i := 0 to |commands|
      invariant !found && forall j :: 0 <= j < i ==> commands[j].sequenceId != id.value
    {
      if commands[i].sequenceId == id.value {
        return true;
      }
    }
  }
}
