/** Which plans run on board and what running one leaves behind, in terms of the texts, the
    trusted keys and the positions of the handler runs. */
module PlanGates {
  import opened Wrappers
  import opened JsonText
  import opened CanonicalJson
  import opened SignedText
  import opened KeyTexts
  import opened CommandExecution
  import opened PlanExecution
  import Fdir
  import JsonReader
  import LexOrder

  // ---- The gates ----

  predicate KeyListed(keys: map<string, string>, text: string) {
    match FromHex(text)
    case Some(key) => ToHex(key) in keys
    case None => false
  }

  /** The signature checks, over the hash of the commands' canonical text. */
  predicate SignatureChecks(scheme: Scheme, plan: Plan) {
    && plan.commands != [] && plan.signature != "" && plan.publicKey != ""
    && match (FromHex(plan.publicKey), FromHex(plan.signature))
       case (Some(key), Some(signature)) => scheme.check(key, signature, scheme.hash(CommandsText(plan.commands)))
       case _ => false
  }

  // ---- What a plan behind the gates leaves ----

  predicate Registered(handlers: set<string>, c: Command) {
    c.commandType in handlers
  }

  /** How many of the first m commands have a handler. */
  function Rank(handlers: set<string>, commands: seq<Command>, m: nat): nat
    requires m <= |commands|
  {
    if m == 0 then 0 else Rank(handlers, commands, m - 1) + if Registered(handlers, commands[m - 1]) then 1 else 0
  }

  /** The commands that are tried when command k is the first to fail (none, if k is the end). */
  function TriedCount(commands: seq<Command>, k: nat): nat {
    if k < |commands| then k + 1 else k
  }

  /** The handler runs go on from n0: one for each of the first `tried` commands that has a
      handler, in order, with the command's own payload. */
  ghost predicate RunsInOrder(handlers: set<string>, commands: seq<Command>, tried: nat, n0: nat, calls: seq<Call>) {
    && tried <= |commands|
    && |calls| == n0 + Rank(handlers, commands, tried)
    && forall m :: 0 <= m < tried && Registered(handlers, commands[m]) ==>
         var at := n0 + Rank(handlers, commands, m);
         at < |calls| && calls[at] == Call(commands[m].commandType, commands[m].payload)
  }

  /** Among the runs from n0 on, command k's is the first that raises, given the runs before it. */
  ghost predicate StopsAt(raises: Raises, handlers: set<string>, commands: seq<Command>, k: nat, n0: nat, calls: seq<Call>) {
    && k <= |commands| && n0 <= |calls|
    && (forall m :: 0 <= m < k && Registered(handlers, commands[m]) ==>
         var at := n0 + Rank(handlers, commands, m);
         at < |calls| && !raises(calls[..at], calls[at]))
    && (k < |commands| ==>
         var at := n0 + Rank(handlers, commands, k);
         Registered(handlers, commands[k]) && at < |calls| && raises(calls[..at], calls[at]))
  }

  /** The log goes on from n0 with the plan's receipt, its executed commands and its end. */
  ghost predicate LogTells(plan: Plan, k: nat, n0: nat, log: seq<LogEntry>) {
    var cs, id := plan.commands, plan.planId;
    && k <= |cs|
    && |log| == n0 + 1 + k + (if k < |cs| then 2 else 1)
    && log[n0] == PlanReceived(id, |cs|)
    && (forall m :: 0 <= m < k ==> log[n0 + 1 + m] == CommandExecuted(id, cs[m].sequenceId, cs[m].commandType))
    && if k < |cs| then
         && log[n0 + 1 + k] == CommandFailed(id, cs[k].sequenceId, cs[k].commandType)
         && log[n0 + 2 + k] == CommandRejected(id, EXECUTION_ERROR)
       else log[n0 + 1 + k] == PlanCompleted(id, |cs|)
  }

  lemma {:induction false} PrefixCount(handlers: set<string>, commands: seq<Command>, m: nat)
    requires m <= |commands|
    ensures |CallsOf(handlers, commands[..m])| == Rank(handlers, commands, m)
  {
    hide CallsOf;
    if m == 0 {
      NoCommands(handlers);
      assert commands[..0] == [];
    } else {
      PrefixCount(handlers, commands, m - 1);
      PrefixNext(handlers, commands, m - 1);
    }
  }

  lemma PrefixNext(handlers: set<string>, commands: seq<Command>, m: nat)
    requires m < |commands|
    ensures CallsOf(handlers, commands[..m + 1]) == CallsOf(handlers, commands[..m])
              + if Registered(handlers, commands[m]) then [Call(commands[m].commandType, commands[m].payload)] else []
  {
    hide CallsOf;
    assert commands[..m + 1] == commands[..m] + [commands[m]];
    CallsOfAppend(handlers, commands[..m], commands[m]);
  }

  lemma {:induction false} PrefixMonotone(handlers: set<string>, commands: seq<Command>, m: nat, n: nat)
    requires m <= n <= |commands|
    ensures CallsOf(handlers, commands[..m]) <= CallsOf(handlers, commands[..n])
    decreases n
  {
    hide CallsOf;
    if m < n {
      PrefixMonotone(handlers, commands, m, n - 1);
      PrefixNext(handlers, commands, n - 1);
    }
  }

  /** The run of command m among the runs of the first n commands. */
  lemma RunAt(handlers: set<string>, commands: seq<Command>, m: nat, n: nat, before: seq<Call>, calls: seq<Call>)
    requires m < n <= |commands| && calls == before + CallsOf(handlers, commands[..n])
    ensures var at := |before| + Rank(handlers, commands, m);
      && at <= |calls| && calls[..at] == before + CallsOf(handlers, commands[..m])
      && (Registered(handlers, commands[m]) ==>
           at < |calls| && calls[at] == Call(commands[m].commandType, commands[m].payload))
  {
    hide CallsOf, Rank;
    PrefixCount(handlers, commands, m);
    PrefixNext(handlers, commands, m);
    PrefixMonotone(handlers, commands, m, n);
    PrefixMonotone(handlers, commands, m + 1, n);
  }

  lemma CallsRun(raises: Raises, handlers: set<string>, before: seq<Call>, commands: seq<Command>, k: nat, calls: seq<Call>)
    requires FirstFailure(raises, handlers, before, commands, k)
    requires calls == before + CallsOf(handlers, commands[..TriedCount(commands, k)])
    ensures RunsInOrder(handlers, commands, TriedCount(commands, k), |before|, calls)
    ensures StopsAt(raises, handlers, commands, k, |before|, calls)
  {
    var n := TriedCount(commands, k);
    hide CallsOf, Rank;
    PrefixCount(handlers, commands, n);
    forall m | 0 <= m < n
      ensures var at := |before| + Rank(handlers, commands, m);
        && at <= |calls| && calls[..at] == before + CallsOf(handlers, commands[..m])
        && (Registered(handlers, commands[m]) ==>
             at < |calls| && calls[at] == Call(commands[m].commandType, commands[m].payload))
    {
      RunAt(handlers, commands, m, n, before, calls);
    }
  }

  lemma OutcomeTells(plan: Plan, k: nat, before: seq<LogEntry>)
    requires k <= |plan.commands|
    ensures LogTells(plan, k, |before|, before + [PlanReceived(plan.planId, |plan.commands|)] + Outcome(plan, k))
  {
    var first, outcome := before + [PlanReceived(plan.planId, |plan.commands|)], Outcome(plan, k);
    OutcomeIs(plan, k);
    hide Outcome;
    var log := first + outcome;
    assert log[|before|] == first[|before|];
    forall i: nat | i < |outcome| ensures log[|before| + 1 + i] == outcome[i] {
    }
  }

  lemma OutcomeIs(plan: Plan, k: nat)
    requires k <= |plan.commands|
    ensures var cs, id, r := plan.commands, plan.planId, Outcome(plan, k);
      && |r| == k + (if k < |cs| then 2 else 1)
      && (forall m :: 0 <= m < k ==> r[m] == CommandExecuted(id, cs[m].sequenceId, cs[m].commandType))
      && if k < |cs| then
           r[k] == CommandFailed(id, cs[k].sequenceId, cs[k].commandType) && r[k + 1] == CommandRejected(id, EXECUTION_ERROR)
         else r[k] == PlanCompleted(id, |cs|)
  {
    var executed := ExecutedEntries(plan.planId, plan.commands[..k]);
    assert |executed| == k;
    forall m | 0 <= m < k ensures Outcome(plan, k)[m] == executed[m] {
    }
  }

  /** What receiving a plan does. A refused plan runs nothing and is logged with the reason of
      the first gate it fails, each under exactly its own condition; a plan that passes them runs
      its commands one after the other up to and including the first that fails. */
  ghost predicate Receives(env: Env, s: ExecState, plan: Plan, state: Fdir.FswState, s': ExecState) {
    var received, id := s.log + [PlanReceived(plan.planId, |plan.commands|)], plan.planId;
    && s'.keys == s.keys && s'.handlers == s.handlers
    && if state != Fdir.Nominal then
         s'.calls == s.calls && s'.log == received + [CommandRejected(id, NOT_IN_NOMINAL)]
       else if !KeyListed(s.keys, plan.publicKey) then
         s'.calls == s.calls && s'.log == received + [SignatureInvalid(id, UNKNOWN_KEY), CommandRejected(id, UNKNOWN_KEY)]
       else if !SignatureChecks(env.scheme, plan) then
         s'.calls == s.calls && s'.log == received + [SignatureInvalid(id, SIG_INVALID), CommandRejected(id, SIG_INVALID)]
       else
         s.calls <= s'.calls && s.log <= s'.log && exists k ::
           && StopsAt(env.raises, s.handlers, plan.commands, k, |s.calls|, s'.calls)
           && RunsInOrder(s.handlers, plan.commands, TriedCount(plan.commands, k), |s.calls|, s'.calls)
           && LogTells(plan, k, |s.log|, s'.log)
  }

  lemma GateIs(env: Env, s: ExecState, plan: Plan, state: Fdir.FswState)
    ensures Gate(env.scheme, s.keys, state, plan) ==
      if state != Fdir.Nominal then Some(NOT_IN_NOMINAL)
      else if !KeyListed(s.keys, plan.publicKey) then Some(UNKNOWN_KEY)
      else if !SignatureChecks(env.scheme, plan) then Some(SIG_INVALID)
      else None
  {
  }

  lemma SubmitIs(env: Env, s: ExecState, plan: Plan, state: Fdir.FswState)
    ensures Receives(env, s, plan, state, Step(env, s, Submit(plan, state)))
  {
    GateIs(env, s, plan, state);
    var s' := Step(env, s, Submit(plan, state));
    hide Gate, KeyListed, SignatureChecks;
    if Gate(env.scheme, s.keys, state, plan).None? {
      hide FailFrom, CallsOf, FirstFailure, Outcome, LogTells, RunsInOrder, StopsAt;
      var k := FailureOf(env, s, plan);
      FailFromIsFirst(env.raises, s.handlers, s.calls, plan.commands, 0);
      assert plan.commands[..|plan.commands|] == plan.commands;
      CallsRun(env.raises, s.handlers, s.calls, plan.commands, k, s'.calls);
      OutcomeTells(plan, k, s.log);
    }
  }

  lemma {:induction false} RunPrefix(env: Env, s0: ExecState, ops: seq<Op>, j: nat)
    requires j <= |ops|
    ensures var early, late := Run(env, s0, ops[..j]), Run(env, s0, ops); early.calls <= late.calls && early.log <= late.log
  {
    hide Step;
    if j < |ops| {
      var front := ops[..|ops| - 1];
      RunPrefix(env, s0, front, j);
      assert front[..j] == ops[..j];
      CallsGrow(env, Run(env, s0, front), ops[|ops| - 1]);
    } else {
      assert ops[..j] == ops;
    }
  }

  /** In any history, every plan received does exactly that, and what it has run and logged
      stays. With EveryCallAuthorised: a handler runs if and only if a plan that passes the
      gates gets as far as its command. */
  lemma {:induction false} EveryPlanReceived(env: Env, s0: ExecState, ops: seq<Op>, j: nat)
    requires j < |ops| && ops[j].Submit?
    ensures var s, s', end := Run(env, s0, ops[..j]), Run(env, s0, ops[..j + 1]), Run(env, s0, ops);
      && Receives(env, s, ops[j].plan, ops[j].state, s')
      && s'.calls <= end.calls && s'.log <= end.log
  {
    hide Step, Receives;
    assert ops[..j + 1][..j] == ops[..j];
    SubmitIs(env, Run(env, s0, ops[..j]), ops[j].plan, ops[j].state);
    RunPrefix(env, s0, ops, j + 1);
  }

  /** Only a received plan adds to the handler runs and to this log; keys and handlers change
      only through their own methods. */
  lemma OnlyPlansRun(env: Env, s: ExecState, op: Op)
    ensures var s' := Step(env, s, op);
      && (!op.Submit? ==> s'.calls == s.calls && s'.log == s.log)
      && (forall key :: key in s'.keys <==>
           (op.AddKey? && key == ToHex(op.key)) || (key in s.keys && !(op.RemoveKey? && key == ToHex(op.key))))
      && (forall t :: t in s'.handlers <==>
           (op.Register? && t == op.commandType) || (t in s.handlers && !(op.Unregister? && t == op.commandType)))
  {
    hide FromHex, ToHex, CallsOf, FailFrom, Gate;
  }

  // ---- What the signature is over ----

  /** The command as the flight software spells it: its three members by name, the payload's
      members sorted. */
  function Spelled(c: Command): Json {
    Obj([Member("command_type", Str(c.commandType)),
         Member("payload", Canon(LexOrder.Less, c.payload)),
         Member("sequence_id", Num(c.sequenceId))])
  }

  lemma SpelledIs(c: Command)
    ensures Canon(LexOrder.Less, Body(c)) == Spelled(c)
  {
    var kind, payload, id := Member("command_type", Str(c.commandType)),
      Member("payload", Canon(LexOrder.Less, c.payload)), Member("sequence_id", Num(c.sequenceId));
    var ms := Body(c).members;
    assert CanonMembers(LexOrder.Less, ms[1..][1..][1..]) == [];
    assert CanonMembers(LexOrder.Less, ms[1..][1..]) == [payload];
    assert CanonMembers(LexOrder.Less, ms[1..]) == [kind, payload];
    assert CanonMembers(LexOrder.Less, ms) == [id, kind, payload];
    hide Canon;
    NamesAscend();
    assert [payload][1..] == [] && [kind, payload][1..] == [payload] && [id, kind, payload][1..] == [kind, payload];
    assert SortBy(LexOrder.Less, [payload]) == [payload];
    assert SortBy(LexOrder.Less, [kind, payload]) == [kind, payload];
    assert Insert(LexOrder.Less, [payload], id) == [payload, id];
    assert Insert(LexOrder.Less, [kind, payload], id) == [kind, payload, id];
  }

  lemma NamesAscend()
    ensures LexOrder.Less("command_type", "payload") && !LexOrder.Less("payload", "command_type")
    ensures LexOrder.Less("payload", "sequence_id") && !LexOrder.Less("sequence_id", "payload")
    ensures LexOrder.Less("command_type", "sequence_id") && !LexOrder.Less("sequence_id", "command_type")
  {
  }

  lemma {:induction false} CanonItemsAt(items: seq<Json>, i: nat)
    requires i < |items|
    ensures |CanonItems(LexOrder.Less, items)| == |items|
    ensures CanonItems(LexOrder.Less, items)[i] == Canon(LexOrder.Less, items[i])
  {
  }

  /** The signed text is JSON text of the list of commands, each in this spelling. */
  lemma CommandsTextReads(commands: seq<Command>)
    ensures JsonReader.Parse(CommandsText(commands)) == Some(Arr(seq(|commands|, i requires 0 <= i < |commands| => Spelled(commands[i]))))
  {
    hide JsonReader.Parse, Dump, Body, Spelled;
    JsonReader.PyTextParses(Arr(Bodies(commands)));
    var items, spelled := CanonItems(LexOrder.Less, Bodies(commands)), seq(|commands|, i requires 0 <= i < |commands| => Spelled(commands[i]));
    forall i | 0 <= i < |commands| ensures |items| == |commands| && items[i] == spelled[i] {
      CanonItemsAt(Bodies(commands), i);
      SpelledIs(commands[i]);
    }
    assert commands == [] ==> items == [];
    assert items == spelled;
  }
}
