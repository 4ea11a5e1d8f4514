/** The command executor: which handlers run for a plan, in what order, and what the audit log
    says about it. */
module PlanExecution {
  import opened Wrappers
  import opened JsonText
  import opened CommandExecution
  import opened KeyTexts
  import Fdir

  datatype Reason = NOT_IN_NOMINAL | UNKNOWN_KEY | SIG_INVALID | EXECUTION_ERROR

  datatype PlanResult = COMPLETED | REJECTED(reason: Reason)

  datatype CmdResult = EXECUTED(sequenceId: int) | FAILED(sequenceId: int)

  datatype LogEntry =
    | PlanReceived(planId: string, count: nat)
    | SignatureInvalid(planId: string, reason: Reason)
    | CommandRejected(planId: string, reason: Reason)
    | CommandExecuted(planId: string, sequenceId: int, commandType: string)
    | CommandFailed(planId: string, sequenceId: int, commandType: string)
    | PlanCompleted(planId: string, count: nat)

  /** One run of a handler. */
  datatype Call = Call(commandType: string, payload: Json)

  /** Whether a handler raises may depend on everything that ran before it. */
  type Raises = (seq<Call>, Call) -> bool

  function CallOf(c: Command): Call {
    Call(c.commandType, c.payload)
  }

  // ---- What a list of commands does ----

  /** The handler run of one command: none for a type without a handler. */
  function CallsOfOne(handlers: set<string>, c: Command): seq<Call> {
    if c.commandType in handlers then [CallOf(c)] else []
  }

  function CallsOf(handlers: set<string>, commands: seq<Command>): seq<Call> {
    if commands == [] then [] else CallsOfOne(handlers, commands[0]) + CallsOf(handlers, commands[1..])
  }

  predicate Fails(raises: Raises, handlers: set<string>, before: seq<Call>, c: Command) {
    c.commandType in handlers && raises(before, CallOf(c))
  }

  /** Command k is the first that fails when the commands run one after the other. */
  ghost predicate FirstFailure(raises: Raises, handlers: set<string>, before: seq<Call>, commands: seq<Command>, k: nat) {
    && k <= |commands|
    && (forall j :: 0 <= j < k ==> !Fails(raises, handlers, before + CallsOf(handlers, commands[..j]), commands[j]))
    && (k < |commands| ==> Fails(raises, handlers, before + CallsOf(handlers, commands[..k]), commands[k]))
  }

  function ExecutedEntries(planId: string, commands: seq<Command>): (r: seq<LogEntry>)
    ensures |r| == |commands|
    ensures forall i :: 0 <= i < |r| ==> r[i] == CommandExecuted(planId, commands[i].sequenceId, commands[i].commandType)
  {
    seq(|commands|, i requires 0 <= i < |commands| =>
      CommandExecuted(planId, commands[i].sequenceId, commands[i].commandType))
  }

  /** What is left of a plan whose first failing command is k (or none, if k is the end). */
  function Outcome(plan: Plan, k: nat): seq<LogEntry>
    requires k <= |plan.commands|
  {
    ExecutedEntries(plan.planId, plan.commands[..k]) +
    if k < |plan.commands|
    then [CommandFailed(plan.planId, plan.commands[k].sequenceId, plan.commands[k].commandType),
          CommandRejected(plan.planId, EXECUTION_ERROR)]
    else [PlanCompleted(plan.planId, |plan.commands|)]
  }

  /** What a gate leaves in the log. */
  function Refusal(planId: string, reason: Reason): seq<LogEntry> {
    (if reason == NOT_IN_NOMINAL then [] else [SignatureInvalid(planId, reason)]) + [CommandRejected(planId, reason)]
  }

  /** The commands whose handlers were tried: the successful ones and the first that fails. */
  function Tried(plan: Plan, k: nat): seq<Command>
    requires k <= |plan.commands|
  {
    if k < |plan.commands| then plan.commands[..k + 1] else plan.commands
  }

  /** The gate that turns a plan away, in the order the gates are passed. */
  function Gate(scheme: Scheme, keys: map<string, string>, state: Fdir.FswState, plan: Plan): Option<Reason> {
    if state != Fdir.Nominal then Some(NOT_IN_NOMINAL)
    else if !Trusted(keys, plan.publicKey) then Some(UNKNOWN_KEY)
    else if !Verifies(scheme, keys, plan) then Some(SIG_INVALID)
    else None
  }

  lemma {:induction false} CallsOfAppend(handlers: set<string>, commands: seq<Command>, c: Command)
    ensures CallsOf(handlers, commands + [c]) == CallsOf(handlers, commands) + CallsOfOne(handlers, c)
  {
    hide CallsOfOne;
    var longer := commands + [c];
    if commands == [] {
      assert longer[0] == c && longer[1..] == [];
    } else {
      assert longer[0] == commands[0] && longer[1..] == commands[1..] + [c];
      CallsOfAppend(handlers, commands[1..], c);
    }
  }

  lemma NoCommands(handlers: set<string>)
    ensures CallsOf(handlers, []) == []
  {
  }

  lemma ExecutedAppend(planId: string, commands: seq<Command>, c: Command)
    ensures ExecutedEntries(planId, commands + [c]) ==
      ExecutedEntries(planId, commands) + [CommandExecuted(planId, c.sequenceId, c.commandType)]
  {
  }

  lemma {:induction false} FirstFailureUnique(
    raises: Raises, handlers: set<string>, before: seq<Call>, commands: seq<Command>, k: nat, l: nat)
    requires FirstFailure(raises, handlers, before, commands, k) && FirstFailure(raises, handlers, before, commands, l)
    ensures k == l
  {
  }

  // ---- Histories of plans, keys and handlers ----

  function FailFrom(raises: Raises, handlers: set<string>, before: seq<Call>, commands: seq<Command>, i: nat): (k: nat)
    requires i <= |commands|
    ensures i <= k <= |commands|
    decreases |commands| - i
  {
    if i == |commands| || Fails(raises, handlers, before + CallsOf(handlers, commands[..i]), commands[i]) then i
    else FailFrom(raises, handlers, before, commands, i + 1)
  }

  lemma {:induction false} FailFromIsFirst(
    raises: Raises, handlers: set<string>, before: seq<Call>, commands: seq<Command>, i: nat)
    requires i <= |commands|
    requires forall j :: 0 <= j < i ==> !Fails(raises, handlers, before + CallsOf(handlers, commands[..j]), commands[j])
    ensures FirstFailure(raises, handlers, before, commands, FailFrom(raises, handlers, before, commands, i))
    decreases |commands| - i
  {
    hide Fails, CallsOf;
    if i < |commands| && !Fails(raises, handlers, before + CallsOf(handlers, commands[..i]), commands[i]) {
      FailFromIsFirst(raises, handlers, before, commands, i + 1);
    }
  }

  datatype Op =
    | Submit(plan: Plan, state: Fdir.FswState)
    | AddKey(name: string, key: Bytes)
    | RemoveKey(key: Bytes)
    | Register(commandType: string)
    | Unregister(commandType: string)

  datatype ExecState = ExecState(keys: map<string, string>, handlers: set<string>, calls: seq<Call>, log: seq<LogEntry>)

  datatype Env = Env(scheme: Scheme, raises: Raises)

  function FailureOf(env: Env, s: ExecState, plan: Plan): nat {
    FailFrom(env.raises, s.handlers, s.calls, plan.commands, 0)
  }

  /** What the executor's methods do to keys, handlers, handler runs and log. */
  function Step(env: Env, s: ExecState, op: Op): ExecState {
    match op
    case AddKey(name, key) => s.(keys := s.keys[ToHex(key) := name])
    case RemoveKey(key) => s.(keys := s.keys - {ToHex(key)})
    case Register(t) => s.(handlers := s.handlers + {t})
    case Unregister(t) => s.(handlers := s.handlers - {t})
    case Submit(plan, state) =>
      var received := s.log + [PlanReceived(plan.planId, |plan.commands|)];
      match Gate(env.scheme, s.keys, state, plan)
      case Some(reason) => s.(log := received + Refusal(plan.planId, reason))
      case None =>
        var k := FailureOf(env, s, plan);
        s.(calls := s.calls + CallsOf(s.handlers, Tried(plan, k)), log := received + Outcome(plan, k))
  }

  function Run(env: Env, s0: ExecState, ops: seq<Op>): ExecState {
    if ops == [] then s0 else Step(env, Run(env, s0, ops[..|ops| - 1]), ops[|ops| - 1])
  }

  /** This operation, in this state, is what the call comes from: a plan received in NOMINAL
      under a key trusted at that time, with a signature that verifies, and the call is of one
      of its commands up to and including the first that fails. */
  ghost predicate Authorises(env: Env, s: ExecState, op: Op, call: Call) {
    && op.Submit? && op.state == Fdir.Nominal
    && Trusted(s.keys, op.plan.publicKey) && Verifies(env.scheme, s.keys, op.plan)
    && exists m :: 0 <= m < |op.plan.commands| && m <= FailureOf(env, s, op.plan)
         && op.plan.commands[m].commandType in s.handlers && call == CallOf(op.plan.commands[m])
  }

  lemma {:induction false} CallsOfFrom(handlers: set<string>, commands: seq<Command>, call: Call)
    requires call in CallsOf(handlers, commands)
    ensures exists m :: 0 <= m < |commands| && commands[m].commandType in handlers && call == CallOf(commands[m])
  {
    if !(commands[0].commandType in handlers && call == CallOf(commands[0])) {
      CallsOfFrom(handlers, commands[1..], call);
      var m :| 0 <= m < |commands[1..]| && commands[1..][m].commandType in handlers && call == CallOf(commands[1..][m]);
      assert commands[m + 1] == commands[1..][m];
    }
  }

  lemma StepAuthorises(env: Env, s: ExecState, op: Op, i: nat)
    requires |s.calls| <= i < |Step(env, s, op).calls|
    ensures Authorises(env, s, op, Step(env, s, op).calls[i])
  {
    hide CallsOf, Verifies, Outcome, Refusal, CallOf, FailFrom;
    var k := FailureOf(env, s, op.plan);
    var call := Step(env, s, op).calls[i];
    assert call in CallsOf(s.handlers, Tried(op.plan, k));
    CallsOfFrom(s.handlers, Tried(op.plan, k), call);
    var m :| 0 <= m < |Tried(op.plan, k)| && Tried(op.plan, k)[m].commandType in s.handlers && call == CallOf(Tried(op.plan, k)[m]);
    assert op.plan.commands[m] == Tried(op.plan, k)[m];
  }

  /** In any history, every handler run is authorised by the plan it comes from. */
  lemma {:induction false} EveryCallAuthorised(env: Env, s0: ExecState, ops: seq<Op>, i: nat) returns (j: nat)
    requires |s0.calls| <= i < |Run(env, s0, ops).calls|
    ensures j < |ops| && Authorises(env, Run(env, s0, ops[..j]), ops[j], Run(env, s0, ops).calls[i])
  {
    hide Step, Authorises;
    var front, op := ops[..|ops| - 1], ops[|ops| - 1];
    var s := Run(env, s0, front);
    if i < |s.calls| {
      CallsGrow(env, s, op);
      j := EveryCallAuthorised(env, s0, front, i);
      assert front[..j] == ops[..j];
    } else {
      j := |ops| - 1;
      StepAuthorises(env, s, op, i);
    }
  }

  lemma CallsGrow(env: Env, s: ExecState, op: Op)
    ensures s.calls <= Step(env, s, op).calls && s.log <= Step(env, s, op).log
  {
  }

  /** Every plan signed in the browser with a key of 32 bytes is refused as UNKNOWN_KEY, in
      any history and whatever keys are trusted: its Base64 key text is not hexadecimal. */
  lemma BrowserPlanRefused(env: Env, s0: ExecState, ops: seq<Op>, signer: Signer, planId: string, commands: seq<Command>)
    requires |signer.publicKey| == 32
    ensures var s, plan := Run(env, s0, ops), SignedInBrowser(env.scheme, signer, planId, commands);
      && Gate(env.scheme, s.keys, Fdir.Nominal, plan) == Some(UNKNOWN_KEY)
      && Step(env, s, Submit(plan, Fdir.Nominal)).calls == s.calls
  {
    hide Base64, Run;
    Base64KeyTrustedIff(Run(env, s0, ops).keys, signer.publicKey);
  }

  /** A plan without commands under a trusted key fails as SIG_INVALID and runs nothing. */
  lemma EmptyPlanRefused(env: Env, s: ExecState, plan: Plan, state: Fdir.FswState)
    requires plan.commands == []
    ensures Step(env, s, Submit(plan, state)).calls == s.calls
    ensures state == Fdir.Nominal && Trusted(s.keys, plan.publicKey) ==>
      Gate(env.scheme, s.keys, state, plan) == Some(SIG_INVALID)
  {
  }

  /** Every plan that completes had commands: an empty one is refused, whatever its signature. */
  lemma {:induction false} CompletedPlansHaveCommands(env: Env, s0: ExecState, ops: seq<Op>, i: nat)
    requires |s0.log| <= i < |Run(env, s0, ops).log| && Run(env, s0, ops).log[i].PlanCompleted?
    ensures Run(env, s0, ops).log[i].count > 0
  {
    hide Step;
    var front, op := ops[..|ops| - 1], ops[|ops| - 1];
    var s := Run(env, s0, front);
    CallsGrow(env, s, op);
    if i < |s.log| {
      CompletedPlansHaveCommands(env, s0, front, i);
    } else {
      StepCompletes(env, s, op, i);
    }
  }

  lemma StepCompletes(env: Env, s: ExecState, op: Op, i: nat)
    requires |s.log| <= i < |Step(env, s, op).log| && Step(env, s, op).log[i].PlanCompleted?
    ensures Step(env, s, op).log[i].count > 0
  {
    hide FromHex, ToHex, FailFrom, CallsOf;
  }

  predicate NeverAdds(ops: seq<Op>, key: Bytes) {
    forall i :: 0 <= i < |ops| && ops[i].AddKey? ==> ops[i].key != key
  }

  lemma {:induction false} RemovedKeyStaysOut(env: Env, s: ExecState, key: Bytes, ops: seq<Op>)
    requires ToHex(key) !in s.keys && NeverAdds(ops, key)
    ensures ToHex(key) !in Run(env, s, ops).keys
  {
    hide ToHex;
    if ops != [] {
      RemovedKeyStaysOut(env, s, key, ops[..|ops| - 1]);
      var op := ops[|ops| - 1];
      if op.AddKey? {
        FromHexToHex(op.key);
        FromHexToHex(key);
      }
    }
  }

  /** Once its key is removed, plans under the key are refused as UNKNOWN_KEY throughout any
      history in which it is not added again. */
  lemma RemovedKeyRefused(env: Env, s: ExecState, key: Bytes, ops: seq<Op>, plan: Plan)
    requires FromHex(plan.publicKey) == Some(key) && NeverAdds(ops, key)
    ensures var later := Run(env, Step(env, s, RemoveKey(key)), ops);
      Gate(env.scheme, later.keys, Fdir.Nominal, plan) == Some(UNKNOWN_KEY)
  {
    hide ToHex;
    RemovedKeyStaysOut(env, Step(env, s, RemoveKey(key)), key, ops);
  }

  class CmdExecutor {
    const crypto: CryptoVerifier
    const raises: Raises
    var handlers: set<string>
    var calls: seq<Call>
    var log: seq<LogEntry>

    constructor (crypto: CryptoVerifier, raises: Raises, handlers: set<string>)
      ensures this.crypto == crypto && this.raises == raises
      ensures this.handlers == handlers && calls == [] && log == []
    {
      this.crypto, this.raises, this.handlers := crypto, raises, handlers;
      calls, log := [], [];
    }

    /** A handler that raises has run; a type without a handler counts as executed. */
    method ExecuteSingle(c: Command, planId: string) returns (r: CmdResult)
      modifies this`calls, this`log
      ensures calls == old(calls) + CallsOfOne(handlers, c)
      ensures var failed := Fails(raises, handlers, old(calls), c);
        && r == (if failed then FAILED(c.sequenceId) else EXECUTED(c.sequenceId))
        && log == old(log) + [if failed
             then CommandFailed(planId, c.sequenceId, c.commandType)
             else CommandExecuted(planId, c.sequenceId, c.commandType)]
    {
      if c.commandType in handlers {
        var before := calls;
        calls := calls + [CallOf(c)];
        if raises(before, CallOf(c)) {
          log := log + [CommandFailed(planId, c.sequenceId, c.commandType)];
          return FAILED(c.sequenceId);
        }
      }
      log := log + [CommandExecuted(planId, c.sequenceId, c.commandType)];
      return EXECUTED(c.sequenceId);
    }

    /** The commands one after the other, up to the first that fails. */
    method RunCommands(plan: Plan) returns (r: PlanResult, ghost k: nat)
      modifies this`calls, this`log
      ensures FirstFailure(raises, handlers, old(calls), plan.commands, k)
      ensures r == if k < |plan.commands| then REJECTED(EXECUTION_ERROR) else COMPLETED
      ensures calls == old(calls) + CallsOf(handlers, Tried(plan, k))
      ensures log == old(log) + Outcome(plan, k)
    {
      hide CallsOf, CallsOfOne, Fails, ExecutedEntries;
      k := 0;
      var results: seq<CmdResult> := [];
      NoCommands(handlers);
      assert plan.commands[..0] == [];
      for i := 0 to |plan.commands|
        invariant |results| == i
        invariant forall j :: 0 <= j < i ==>
          !Fails(raises, handlers, old(calls) + CallsOf(handlers, plan.commands[..j]), plan.commands[j])
        invariant calls == old(calls) + CallsOf(handlers, plan.commands[..i])
        invariant log == old(log) + ExecutedEntries(plan.planId, plan.commands[..i])
      {
        var cmd := plan.commands[i];
        CallsOfAppend(handlers, plan.commands[..i], cmd);
        assert plan.commands[..i] + [cmd] == plan.commands[..i + 1];
        ExecutedAppend(plan.planId, plan.commands[..i], cmd);
        var result := ExecuteSingle(cmd, plan.planId);
        results := results + [result];
        if result.FAILED? {
          log := log + [CommandRejected(plan.planId, EXECUTION_ERROR)];
          return REJECTED(EXECUTION_ERROR), i;
        }
      }
      assert plan.commands[..|plan.commands|] == plan.commands;
      log := log + [PlanCompleted(plan.planId, |results|)];
      return COMPLETED, |plan.commands|;
    }

    /** Behind the gates, k is the first failing command; a plan completes exactly if there is
        none. */
    method ExecutePlan(plan: Plan, state: Fdir.FswState) returns (r: PlanResult, ghost k: nat)
      modifies this`calls, this`log
      ensures var gate := Gate(crypto.scheme, crypto.trustedKeys, state, plan);
        if gate.Some? then
          && r == REJECTED(gate.value) && calls == old(calls)
          && log == old(log) + [PlanReceived(plan.planId, |plan.commands|)] + Refusal(plan.planId, gate.value)
        else
          && FirstFailure(raises, handlers, old(calls), plan.commands, k)
          && r == (if k < |plan.commands| then REJECTED(EXECUTION_ERROR) else COMPLETED)
          && calls == old(calls) + CallsOf(handlers, Tried(plan, k))
          && log == old(log) + [PlanReceived(plan.planId, |plan.commands|)] + Outcome(plan, k)
      ensures var key, signature := FromHex(plan.publicKey), FromHex(plan.signature);
        var known := key.Some? && ToHex(key.value) in crypto.trustedKeys;
        var signed :=
          && plan.commands != [] && plan.signature != "" && plan.publicKey != "" && key.Some? && signature.Some?
          && crypto.scheme.check(key.value, signature.value, crypto.scheme.hash(CommandsText(plan.commands)));
        && (r == REJECTED(NOT_IN_NOMINAL) <==> state != Fdir.Nominal)
        && (r == REJECTED(UNKNOWN_KEY) <==> state == Fdir.Nominal && !known)
        && (r == REJECTED(SIG_INVALID) <==> state == Fdir.Nominal && known && !signed)
        && (r == REJECTED(EXECUTION_ERROR) <==> state == Fdir.Nominal && known && signed && k < |plan.commands|)
        && (r == COMPLETED <==> state == Fdir.Nominal && known && signed && k == |plan.commands|)
      ensures var env := Env(crypto.scheme, raises);
        ExecState(crypto.trustedKeys, handlers, calls, log) ==
        Step(env, old(ExecState(crypto.trustedKeys, handlers, calls, log)), Submit(plan, state))
    {
      hide FromHex, ToHex, CommandsText, CallsOf, FirstFailure, Tried, Outcome, FailFrom;
      k := 0;
      log := log + [PlanReceived(plan.planId, |plan.commands|)];
      if state != Fdir.Nominal {
        log := log + [CommandRejected(plan.planId, NOT_IN_NOMINAL)];
        return REJECTED(NOT_IN_NOMINAL), 0;
      }
      var key := FromHex(plan.publicKey);
      var keyTrusted := false;
      if key.Some? {
        keyTrusted := crypto.IsTrustedKey(key.value);
      }
      if !keyTrusted {
        log := log + [SignatureInvalid(plan.planId, UNKNOWN_KEY)] + [CommandRejected(plan.planId, UNKNOWN_KEY)];
        return REJECTED(UNKNOWN_KEY), 0;
      }
      var sigValid := crypto.Verify(plan);
      if !sigValid {
        log := log + [SignatureInvalid(plan.planId, SIG_INVALID)] + [CommandRejected(plan.planId, SIG_INVALID)];
        return REJECTED(SIG_INVALID), 0;
      }
      r, k := RunCommands(plan);
      FailFromIsFirst(raises, handlers, old(calls), plan.commands, 0);
      FirstFailureUnique(
        raises, handlers, old(calls), plan.commands, k, FailFrom(raises, handlers, old(calls), plan.commands, 0));
    }

    method RegisterHandler(commandType: string)
      modifies this`handlers
      ensures handlers == old(handlers) + {commandType}
    {
      handlers := handlers + {commandType};
    }

    method UnregisterHandler(commandType: string)
      modifies this`handlers
      ensures handlers == old(handlers) - {commandType}
    {
      handlers := handlers - {commandType};
    }
  }
}
