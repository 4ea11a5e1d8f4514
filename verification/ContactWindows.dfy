/** Contact windows: the natural open and closed phases, the forced closure laid over them, and
    what every history of ticks, forces, clears and queries keeps. */
module ContactWindows {
  import opened Wrappers

  datatype Config = Config(openDuration: real, closedDuration: real, startOpen: bool)

  datatype Transition =
    | WindowClosed(time: real, windowId: nat)
    | WindowOpened(time: real, windowId: nat)
    | ForceClosed(time: real, duration: Option<real>)
    | ForceCleared(time: real)
  {
    predicate Natural() {
      WindowClosed? || WindowOpened?
    }
  }

  /** What the state-change callback is told. */
  datatype Note = Note(open: bool, windowId: nat)

  datatype State = State(
    isOpen: bool, stateStart: real, windowId: nat, totalCompleted: nat,
    forced: bool, forceUntil: Option<real>, transitions: seq<Transition>, notes: seq<Note>)

  datatype Event =
    | Tick(now: real)
    | Force(now: real, duration: Option<real>)
    | Clear(now: real)
    | Query(now: real)

  function Init(c: Config, t0: real): State {
    State(c.startOpen, t0, 0, 0, false, None, [], [])
  }

  function CheckExpiry(s: State, now: real): State {
    if s.forced && s.forceUntil.Some? && now >= s.forceUntil.value
    then s.(forced := false, forceUntil := None)
    else s
  }

  function PhaseDuration(c: Config, open: bool): real {
    if open then c.openDuration else c.closedDuration
  }

  predicate Due(c: Config, s: State, now: real) {
    now - s.stateStart >= PhaseDuration(c, s.isOpen)
  }

  /** The natural part of a tick. */
  function Advance(c: Config, s: State, now: real): State {
    if !Due(c, s, now) then s
    else if s.isOpen then
      s.(isOpen := false, stateStart := now, totalCompleted := s.totalCompleted + 1,
         transitions := s.transitions + [WindowClosed(now, s.windowId)],
         notes := s.notes + [Note(false, s.windowId)])
    else
      s.(isOpen := true, stateStart := now, windowId := s.windowId + 1,
         transitions := s.transitions + [WindowOpened(now, s.windowId + 1)],
         notes := s.notes + [Note(true, s.windowId + 1)])
  }

  function Step(c: Config, s: State, e: Event): State {
    match e
    case Tick(now) => Advance(c, CheckExpiry(s, now), now)
    case Force(now, d) =>
      s.(forced := true, forceUntil := if d.Some? then Some(now + d.value) else None,
         transitions := s.transitions + [ForceClosed(now, d)],
         notes := s.notes + [Note(false, s.windowId)])
    case Clear(now) =>
      s.(forced := false, forceUntil := None,
         transitions := s.transitions + [ForceCleared(now)],
         notes := s.notes + if s.isOpen then [Note(true, s.windowId)] else [])
    case Query(now) => CheckExpiry(s, now)
  }

  function Run(c: Config, t0: real, events: seq<Event>): State {
    if events == [] then Init(c, t0) else
      Step(c, Run(c, t0, events[..|events| - 1]), events[|events| - 1])
  }

  /** The clock never goes back. */
  predicate Ordered(t0: real, events: seq<Event>) {
    events == [] ||
    (Ordered(t0, events[..|events| - 1]) && LastTime(t0, events[..|events| - 1]) <= events[|events| - 1].now)
  }

  function LastTime(t0: real, events: seq<Event>): real {
    if events == [] then t0 else events[|events| - 1].now
  }

  function IsOpen(s: State, now: real): bool {
    !CheckExpiry(s, now).forced && s.isOpen
  }

  // ---- The forced closure is the history's latest force ----

  /** Whether the latest force or clear in the history closes the window at time `now`. */
  function ForcedAt(events: seq<Event>, now: real): bool {
    if events == [] then false else
      match events[|events| - 1]
      case Force(t, d) => d.None? || now < t + d.value
      case Clear(_) => false
      case _ => ForcedAt(events[..|events| - 1], now)
  }

  /** A force that has expired stays expired. */
  lemma {:induction false} ForcedShrinks(events: seq<Event>, now: real, later: real)
    requires now <= later && ForcedAt(events, later)
    ensures ForcedAt(events, now)
  {
    if events != [] && !events[|events| - 1].Force? && !events[|events| - 1].Clear? {
      ForcedShrinks(events[..|events| - 1], now, later);
    }
  }

  lemma {:induction false} ForcedIsHistory(c: Config, t0: real, events: seq<Event>, now: real)
    requires Ordered(t0, events) && LastTime(t0, events) <= now
    ensures CheckExpiry(Run(c, t0, events), now).forced == ForcedAt(events, now)
  {
    if events != [] {
      var front, e := events[..|events| - 1], events[|events| - 1];
      var s := Run(c, t0, front);
      if e.Tick? || e.Query? {
        ForcedIsHistory(c, t0, front, e.now);
        ForcedIsHistory(c, t0, front, now);
        assert CheckExpiry(CheckExpiry(s, e.now), now) == CheckExpiry(s, now);
      }
    }
  }

  /** Expiring forces lazily, when somebody looks, is the same as following the history:
      `is_open` is the natural phase without an unexpired latest force. */
  lemma {:induction false} LazyExpiryIsHistory(c: Config, t0: real, events: seq<Event>, now: real)
    requires Ordered(t0, events) && LastTime(t0, events) <= now
    ensures IsOpen(Run(c, t0, events), now) <==> Run(c, t0, events).isOpen && !ForcedAt(events, now)
  {
    ForcedIsHistory(c, t0, events, now);
  }

  // ---- Forcing leaves the natural windows alone ----

  function NaturalOnly(ts: seq<Transition>): seq<Transition> {
    if ts == [] then [] else
      var last := ts[|ts| - 1];
      NaturalOnly(ts[..|ts| - 1]) + if last.Natural() then [last] else []
  }

  lemma NaturalOnlyAppend(ts: seq<Transition>, t: Transition)
    ensures NaturalOnly(ts + [t]) == if t.Natural() then NaturalOnly(ts) + [t] else NaturalOnly(ts)
  {
    assert (ts + [t])[..|ts|] == ts;
  }

  function TicksOnly(events: seq<Event>): seq<Event> {
    if events == [] then [] else
      var last := events[|events| - 1];
      TicksOnly(events[..|events| - 1]) + if last.Tick? then [last] else []
  }

  /** The natural side of a state. */
  predicate SameWindows(a: State, b: State) {
    && a.isOpen == b.isOpen && a.stateStart == b.stateStart && a.windowId == b.windowId
    && a.totalCompleted == b.totalCompleted && NaturalOnly(a.transitions) == NaturalOnly(b.transitions)
  }

  lemma {:induction false} AdvanceSameWindows(c: Config, a: State, b: State, now: real)
    requires SameWindows(a, b)
    ensures SameWindows(Advance(c, a, now), Advance(c, b, now))
  {
    hide NaturalOnly;
    if Due(c, a, now) {
      var t := if a.isOpen then WindowClosed(now, a.windowId) else WindowOpened(now, a.windowId + 1);
      NaturalOnlyAppend(a.transitions, t);
      NaturalOnlyAppend(b.transitions, t);
    }
  }

  lemma {:induction false} StepSameWindows(c: Config, a: State, b: State, e: Event)
    requires SameWindows(a, b)
    ensures SameWindows(Step(c, a, e), if e.Tick? then Step(c, b, e) else b)
  {
    hide NaturalOnly, Advance;
    match e
    case Tick(now) => AdvanceSameWindows(c, CheckExpiry(a, now), CheckExpiry(b, now), now);
    case Force(now, d) => NaturalOnlyAppend(a.transitions, ForceClosed(now, d));
    case Clear(now) => NaturalOnlyAppend(a.transitions, ForceCleared(now));
    case Query(_) =>
  }

  lemma {:induction false} RunTicksOnly(c: Config, t0: real, events: seq<Event>)
    requires events != []
    ensures var front, e := events[..|events| - 1], events[|events| - 1];
      var b := Run(c, t0, TicksOnly(front));
      Run(c, t0, TicksOnly(events)) == if e.Tick? then Step(c, b, e) else b
  {
    hide Step;
    var front, e := events[..|events| - 1], events[|events| - 1];
    if e.Tick? {
      assert TicksOnly(events)[..|TicksOnly(events)| - 1] == TicksOnly(front);
    } else {
      assert TicksOnly(events) == TicksOnly(front);
    }
  }

  /** Erasing every force, clear and query from a history leaves the natural windows as they
      were: phase, counters and natural transitions. */
  lemma {:induction false} ForcesLeaveWindows(c: Config, t0: real, events: seq<Event>)
    ensures SameWindows(Run(c, t0, events), Run(c, t0, TicksOnly(events)))
  {
    hide Step, SameWindows, TicksOnly;
    if events == [] {
      NoEvents(c, t0);
    } else {
      var front, e := events[..|events| - 1], events[|events| - 1];
      ForcesLeaveWindows(c, t0, front);
      RunTicksOnly(c, t0, events);
      StepSameWindows(c, Run(c, t0, front), Run(c, t0, TicksOnly(front)), e);
    }
  }

  lemma {:induction false} NoEvents(c: Config, t0: real)
    ensures SameWindows(Run(c, t0, []), Run(c, t0, TicksOnly([])))
  {
  }

  // ---- Counters and the transition log ----

  /** The phase that a log of natural transitions ends in, and when it began. */
  function LogOpen(c: Config, log: seq<Transition>): bool {
    if log == [] then c.startOpen else log[|log| - 1].WindowOpened?
  }

  function LogStart(t0: real, log: seq<Transition>): real {
    if log == [] then t0 else log[|log| - 1].time
  }

  function CountClosed(log: seq<Transition>): nat {
    if log == [] then 0 else CountClosed(log[..|log| - 1]) + if log[|log| - 1].WindowClosed? then 1 else 0
  }

  function CountOpened(log: seq<Transition>): nat {
    if log == [] then 0 else CountOpened(log[..|log| - 1]) + if log[|log| - 1].WindowOpened? then 1 else 0
  }

  /** Natural transitions alternate, each phase lasts at least its duration, and the window
      identifier counts the openings. */
  predicate Spaced(c: Config, t0: real, log: seq<Transition>) {
    log == [] ||
    var front, last := log[..|log| - 1], log[|log| - 1];
    && Spaced(c, t0, front)
    && last.Natural()
    && last.WindowClosed? == LogOpen(c, front)
    && last.time - LogStart(t0, front) >= (if last.WindowClosed? then c.openDuration else c.closedDuration)
    && last.windowId == CountOpened(log)
  }

  ghost predicate LogTells(
    c: Config, t0: real, log: seq<Transition>, isOpen: bool, stateStart: real, windowId: nat, totalCompleted: nat)
  {
    && Spaced(c, t0, log)
    && isOpen == LogOpen(c, log)
    && stateStart == LogStart(t0, log)
    && windowId == CountOpened(log)
    && totalCompleted == CountClosed(log)
  }

  ghost predicate Consistent(c: Config, t0: real, s: State) {
    LogTells(c, t0, NaturalOnly(s.transitions), s.isOpen, s.stateStart, s.windowId, s.totalCompleted)
  }

  lemma {:induction false} LogExtends(
    c: Config, t0: real, log: seq<Transition>, isOpen: bool, start: real, id: nat, total: nat, now: real)
    requires LogTells(c, t0, log, isOpen, start, id, total)
    requires now - start >= PhaseDuration(c, isOpen)
    ensures isOpen ==> LogTells(c, t0, log + [WindowClosed(now, id)], false, now, id, total + 1)
    ensures !isOpen ==> LogTells(c, t0, log + [WindowOpened(now, id + 1)], true, now, id + 1, total)
  {
    var t := if isOpen then WindowClosed(now, id) else WindowOpened(now, id + 1);
    var longer := log + [t];
    assert longer[..|longer| - 1] == log && longer[|longer| - 1] == t;
  }

  lemma {:induction false} AdvanceConsistent(c: Config, t0: real, s: State, now: real)
    requires Consistent(c, t0, s)
    ensures Consistent(c, t0, Advance(c, s, now))
  {
    hide LogTells, PhaseDuration, NaturalOnly;
    if Due(c, s, now) {
      var t := if s.isOpen then WindowClosed(now, s.windowId) else WindowOpened(now, s.windowId + 1);
      NaturalOnlyAppend(s.transitions, t);
      LogExtends(c, t0, NaturalOnly(s.transitions), s.isOpen, s.stateStart, s.windowId, s.totalCompleted, now);
    }
  }

  lemma {:induction false} StepConsistent(c: Config, t0: real, s: State, e: Event)
    requires Consistent(c, t0, s)
    ensures Consistent(c, t0, Step(c, s, e))
  {
    hide LogTells, NaturalOnly, Advance;
    match e
    case Tick(now) => AdvanceConsistent(c, t0, CheckExpiry(s, now), now);
    case Force(now, d) => NaturalOnlyAppend(s.transitions, ForceClosed(now, d));
    case Clear(now) => NaturalOnlyAppend(s.transitions, ForceCleared(now));
    case Query(_) =>
  }

  /** In every reachable state the log is alternating and well spaced, and the counters count
      it. */
  lemma {:induction false} RunConsistent(c: Config, t0: real, events: seq<Event>)
    ensures Consistent(c, t0, Run(c, t0, events))
  {
    hide Step;
    if events == [] {
      assert NaturalOnly(Init(c, t0).transitions) == [];
    } else {
      RunConsistent(c, t0, events[..|events| - 1]);
      StepConsistent(c, t0, Run(c, t0, events[..|events| - 1]), events[|events| - 1]);
    }
  }

  lemma {:induction false} AlternatingCounts(c: Config, t0: real, log: seq<Transition>)
    requires Spaced(c, t0, log)
    ensures CountOpened(log) + (if LogOpen(c, log) then 0 else 1) == CountClosed(log) + (if c.startOpen then 0 else 1)
  {
    if log != [] {
      AlternatingCounts(c, t0, log[..|log| - 1]);
    }
  }

  /** The window identifier and the number of completed windows differ by what the phase and
      the start mode dictate. */
  lemma {:induction false} CountersDiffer(c: Config, t0: real, events: seq<Event>)
    ensures var s := Run(c, t0, events);
      s.windowId + (if s.isOpen then 0 else 1) == s.totalCompleted + (if c.startOpen then 0 else 1)
  {
    RunConsistent(c, t0, events);
    AlternatingCounts(c, t0, NaturalOnly(Run(c, t0, events).transitions));
  }

  // ---- The whole log and the callback ----

  /** What the callback has to be told about a log: each natural change with its window, each
      forced closure, and each release during an open phase. */
  function NotesOf(c: Config, ts: seq<Transition>): seq<Note> {
    if ts == [] then [] else NotesOf(c, ts[..|ts| - 1]) + NoteOf(c, NaturalOnly(ts[..|ts| - 1]), ts[|ts| - 1])
  }

  function NoteOf(c: Config, windows: seq<Transition>, t: Transition): seq<Note> {
    match t
    case WindowClosed(_, id) => [Note(false, id)]
    case WindowOpened(_, id) => [Note(true, id)]
    case ForceClosed(_, _) => [Note(false, CountOpened(windows))]
    case ForceCleared(_) => if LogOpen(c, windows) then [Note(true, CountOpened(windows))] else []
  }

  lemma NotesOfAppend(c: Config, ts: seq<Transition>, t: Transition)
    ensures NotesOf(c, ts + [t]) == NotesOf(c, ts) + NoteOf(c, NaturalOnly(ts), t)
  {
    assert (ts + [t])[..|ts|] == ts;
  }

  function ForcedOnly(ts: seq<Transition>): seq<Transition> {
    if ts == [] then [] else
      ForcedOnly(ts[..|ts| - 1]) + if ts[|ts| - 1].Natural() then [] else [ts[|ts| - 1]]
  }

  function EntryOf(e: Event): seq<Transition> {
    match e
    case Force(now, d) => [ForceClosed(now, d)]
    case Clear(now) => [ForceCleared(now)]
    case _ => []
  }

  /** The log entries of the forces and releases in a history. */
  function Entries(events: seq<Event>): seq<Transition> {
    if events == [] then [] else Entries(events[..|events| - 1]) + EntryOf(events[|events| - 1])
  }

  /** The entries that one event adds: one for a force or a release, and one for a tick that
      changes the phase, at its own time. */
  lemma {:induction false} StepLogs(c: Config, s: State, e: Event)
    ensures var s' := Step(c, s, e);
      match e
      case Force(now, d) => s'.transitions == s.transitions + [ForceClosed(now, d)]
      case Clear(now) => s'.transitions == s.transitions + [ForceCleared(now)]
      case Query(_) => s'.transitions == s.transitions
      case Tick(now) =>
        if s'.isOpen == s.isOpen then s'.transitions == s.transitions
        else s'.transitions == s.transitions + [if s.isOpen then WindowClosed(now, s.windowId) else WindowOpened(now, s.windowId + 1)]
  {
  }

  lemma {:induction false} StepNotes(c: Config, t0: real, s: State, e: Event)
    requires Consistent(c, t0, s) && s.notes == NotesOf(c, s.transitions)
    ensures Step(c, s, e).notes == NotesOf(c, Step(c, s, e).transitions)
  {
    hide NaturalOnly, Spaced, CountClosed, CountOpened, NotesOf;
    match e
    case Tick(now) =>
      if Due(c, s, now) {
        NotesOfAppend(c, s.transitions, if s.isOpen then WindowClosed(now, s.windowId) else WindowOpened(now, s.windowId + 1));
      }
    case Force(now, d) => NotesOfAppend(c, s.transitions, ForceClosed(now, d));
    case Clear(now) => NotesOfAppend(c, s.transitions, ForceCleared(now));
    case Query(_) =>
  }

  /** In every history the callback has been told exactly what the log says. */
  lemma {:induction false} NotesTell(c: Config, t0: real, events: seq<Event>)
    ensures Run(c, t0, events).notes == NotesOf(c, Run(c, t0, events).transitions)
  {
    hide Step, Consistent;
    if events != [] {
      NotesTell(c, t0, events[..|events| - 1]);
      RunConsistent(c, t0, events[..|events| - 1]);
      StepNotes(c, t0, Run(c, t0, events[..|events| - 1]), events[|events| - 1]);
    }
  }

  lemma ForcedOnlyAppend(ts: seq<Transition>, t: Transition)
    ensures ForcedOnly(ts + [t]) == if t.Natural() then ForcedOnly(ts) else ForcedOnly(ts) + [t]
  {
    assert (ts + [t])[..|ts|] == ts;
  }

  ghost predicate NaturalAtTicks(ts: seq<Transition>, events: seq<Event>) {
    forall t :: t in ts && t.Natural() ==> Tick(t.time) in events
  }

  lemma AtTicksMore(ts: seq<Transition>, events: seq<Event>, more: seq<Transition>, e: Event)
    requires NaturalAtTicks(ts, events)
    requires forall t :: t in more && t.Natural() ==> e == Tick(t.time)
    ensures NaturalAtTicks(ts + more, events + [e])
  {
  }

  lemma {:induction false} StepForces(c: Config, s: State, e: Event)
    ensures ForcedOnly(Step(c, s, e).transitions) == ForcedOnly(s.transitions) + EntryOf(e)
  {
    StepLogs(c, s, e);
    hide Step, ForcedOnly;
    if Step(c, s, e).transitions != s.transitions {
      var t := Step(c, s, e).transitions[|s.transitions|];
      assert Step(c, s, e).transitions == s.transitions + [t];
      ForcedOnlyAppend(s.transitions, t);
    }
  }

  lemma {:induction false} StepAtTicks(c: Config, s: State, events: seq<Event>, e: Event)
    requires NaturalAtTicks(s.transitions, events)
    ensures NaturalAtTicks(Step(c, s, e).transitions, events + [e])
  {
    StepLogs(c, s, e);
    hide Step, NaturalAtTicks;
    if Step(c, s, e).transitions == s.transitions {
      AtTicksMore(s.transitions, events, [], e);
      assert s.transitions + [] == s.transitions;
    } else {
      var t := Step(c, s, e).transitions[|s.transitions|];
      assert Step(c, s, e).transitions == s.transitions + [t];
      AtTicksMore(s.transitions, events, [t], e);
    }
  }

  /** The log holds the history's forces and releases, all of them and in order ... */
  lemma {:induction false} ForcesAreLogged(c: Config, t0: real, events: seq<Event>)
    ensures ForcedOnly(Run(c, t0, events).transitions) == Entries(events)
  {
    hide Step, EntryOf;
    if events != [] {
      ForcesAreLogged(c, t0, events[..|events| - 1]);
      StepForces(c, Run(c, t0, events[..|events| - 1]), events[|events| - 1]);
    }
  }

  /** ... and natural changes at times of ticks only. */
  lemma {:induction false} ChangesAreAtTicks(c: Config, t0: real, events: seq<Event>)
    ensures NaturalAtTicks(Run(c, t0, events).transitions, events)
  {
    if events != [] {
      hide Step, NaturalAtTicks;
      var front, e := events[..|events| - 1], events[|events| - 1];
      ChangesAreAtTicks(c, t0, front);
      StepAtTicks(c, Run(c, t0, front), front, e);
      assert events == front + [e];
    }
  }

  // ---- How late a transition can be ----

  /** Ticks, from the start on, at most `gap` apart. */
  predicate Frequent(t0: real, ticks: seq<Event>, gap: real) {
    ticks == [] ||
    var front, last := ticks[..|ticks| - 1], ticks[|ticks| - 1];
    && Frequent(t0, front, gap)
    && last.Tick?
    && LastTime(t0, front) <= last.now <= LastTime(t0, front) + gap
  }

  /** Each phase lasts less than its duration and one gap. */
  predicate Prompt(c: Config, t0: real, log: seq<Transition>, gap: real) {
    log == [] ||
    var front, last := log[..|log| - 1], log[|log| - 1];
    && Prompt(c, t0, front, gap)
    && last.Natural()
    && last.time - LogStart(t0, front) < (if last.WindowClosed? then c.openDuration else c.closedDuration) + gap
  }

  lemma {:induction false} PromptExtends(c: Config, t0: real, log: seq<Transition>, t: Transition, gap: real)
    requires Prompt(c, t0, log, gap) && t.Natural()
    requires t.time - LogStart(t0, log) < (if t.WindowClosed? then c.openDuration else c.closedDuration) + gap
    ensures Prompt(c, t0, log + [t], gap)
  {
    var longer := log + [t];
    assert longer[..|longer| - 1] == log && longer[|longer| - 1] == t;
  }

  lemma {:induction false} AdvancePrompt(c: Config, t0: real, s: State, before: real, now: real, gap: real)
    requires c.openDuration > 0.0 && c.closedDuration > 0.0
    requires Consistent(c, t0, s) && Prompt(c, t0, NaturalOnly(s.transitions), gap)
    requires before - s.stateStart < PhaseDuration(c, s.isOpen) && now <= before + gap
    ensures var s' := Advance(c, s, now);
      Prompt(c, t0, NaturalOnly(s'.transitions), gap) && now - s'.stateStart < PhaseDuration(c, s'.isOpen)
  {
    hide Spaced, Prompt, NaturalOnly;
    if Due(c, s, now) {
      var t := if s.isOpen then WindowClosed(now, s.windowId) else WindowOpened(now, s.windowId + 1);
      NaturalOnlyAppend(s.transitions, t);
      PromptExtends(c, t0, NaturalOnly(s.transitions), t, gap);
    }
  }

  lemma {:induction false} TicksArePrompt(c: Config, t0: real, ticks: seq<Event>, gap: real)
    requires c.openDuration > 0.0 && c.closedDuration > 0.0 && Frequent(t0, ticks, gap)
    ensures var s := Run(c, t0, ticks);
      && Prompt(c, t0, NaturalOnly(s.transitions), gap)
      && LastTime(t0, ticks) - s.stateStart < PhaseDuration(c, s.isOpen)
  {
    hide Advance, Consistent, PhaseDuration;
    if ticks == [] {
      assert NaturalOnly(Init(c, t0).transitions) == [];
      PhasesLast(c);
    } else {
      hide Prompt, NaturalOnly;
      var front, now := ticks[..|ticks| - 1], ticks[|ticks| - 1].now;
      TicksArePrompt(c, t0, front, gap);
      RunConsistent(c, t0, front);
      var s := Run(c, t0, front);
      ExpiryConsistent(c, t0, s, now);
      AdvancePrompt(c, t0, CheckExpiry(s, now), LastTime(t0, front), now, gap);
    }
  }

  lemma {:induction false} PhasesLast(c: Config)
    requires c.openDuration > 0.0 && c.closedDuration > 0.0
    ensures PhaseDuration(c, true) > 0.0 && PhaseDuration(c, false) > 0.0
  {
  }

  lemma {:induction false} ExpiryConsistent(c: Config, t0: real, s: State, now: real)
    requires Consistent(c, t0, s)
    ensures Consistent(c, t0, CheckExpiry(s, now))
  {
  }

  /** Whatever is forced in between, with ticks at most `gap` apart every natural phase lasts
      at least its duration and less than its duration plus the gap. */
  lemma {:induction false} PhasesOnTime(c: Config, t0: real, events: seq<Event>, gap: real)
    requires c.openDuration > 0.0 && c.closedDuration > 0.0 && Frequent(t0, TicksOnly(events), gap)
    ensures var log := NaturalOnly(Run(c, t0, events).transitions);
      Spaced(c, t0, log) && Prompt(c, t0, log, gap)
  {
    ForcesLeaveWindows(c, t0, events);
    TicksArePrompt(c, t0, TicksOnly(events), gap);
    RunConsistent(c, t0, events);
  }

  // ---- Remaining times ----

  /** Seconds until the next opening; None is no end in sight. A force that ends at clock time
      zero counts as one without end. */
  function TimeUntilNextOpen(c: Config, state: State, now: real): Option<real> {
    var s := CheckExpiry(state, now);
    if s.forced then
      if s.forceUntil.Some? && s.forceUntil.value != 0.0
      then Some(NotNegative(s.forceUntil.value - now))
      else None
    else if s.isOpen then Some(0.0)
    else Some(NotNegative(c.closedDuration - (now - s.stateStart)))
  }

  function TimeUntilClose(c: Config, state: State, now: real): real {
    var s := CheckExpiry(state, now);
    if s.forced || !s.isOpen then 0.0
    else NotNegative(c.openDuration - (now - s.stateStart))
  }

  function NotNegative(x: real): real {
    if x < 0.0 then 0.0 else x
  }

  /** While no force is on, the remaining times are exact: the next tick, whenever it comes,
      changes the phase precisely if the reported time has passed. None is ever negative. */
  lemma {:induction false} RemainingTimesExact(c: Config, s: State, now: real, later: real)
    requires !CheckExpiry(s, now).forced && now <= later
    ensures TimeUntilClose(c, s, now) >= 0.0
    ensures TimeUntilNextOpen(c, s, now).Some? && TimeUntilNextOpen(c, s, now).value >= 0.0
    ensures var after := Step(c, s, Tick(later));
      && (s.isOpen ==>
        TimeUntilNextOpen(c, s, now) == Some(0.0) && (!after.isOpen <==> later - now >= TimeUntilClose(c, s, now)))
      && (!s.isOpen ==>
        TimeUntilClose(c, s, now) == 0.0 && (after.isOpen <==> later - now >= TimeUntilNextOpen(c, s, now).value))
  {
  }

  /** Under a timed force the reported time is when the force ends. That is the next opening
      exactly if the natural window is open: without a tick in between, `is_open` then gives
      the natural phase. */
  lemma {:induction false} ForcedTimeIsForceEnd(c: Config, s: State, now: real, later: real)
    requires CheckExpiry(s, now).forced && s.forceUntil.Some? && s.forceUntil.value != 0.0 && now <= later
    ensures var r := TimeUntilNextOpen(c, s, now);
      r.Some? && r.value > 0.0 && (IsOpen(s, later) <==> s.isOpen && later - now >= r.value)
  {
  }

  /** The callback announces every natural opening; it is right exactly if no force is on. */
  lemma {:induction false} AnnouncementRightIff(c: Config, t0: real, events: seq<Event>, now: real)
    requires Ordered(t0, events) && LastTime(t0, events) <= now
    requires var s := Run(c, t0, events); !s.isOpen && Due(c, s, now)
    ensures var s' := Run(c, t0, events + [Tick(now)]);
      && s'.notes[|s'.notes| - 1] == Note(true, s'.windowId)
      && (IsOpen(s', now) <==> !ForcedAt(events, now))
  {
    var all := events + [Tick(now)];
    assert all[..|all| - 1] == events;
    LazyExpiryIsHistory(c, t0, all, now);
  }

  // ---- The scheduler object ----

  class WindowScheduler {
    const config: Config
    var isOpen: bool
    var stateStart: real
    var windowId: nat
    var totalCompleted: nat
    var forcedClosed: bool
    var forceUntil: Option<real>
    var transitions: seq<Transition>
    var notes: seq<Note>

    ghost function View(): State
      reads this
    {
      State(isOpen, stateStart, windowId, totalCompleted, forcedClosed, forceUntil, transitions, notes)
    }

    constructor (config: Config, now: real)
      ensures this.config == config && View() == Init(config, now)
    {
      this.config := config;
      isOpen, stateStart, windowId, totalCompleted := config.startOpen, now, 0, 0;
      forcedClosed, forceUntil := false, None;
      transitions, notes := [], [];
    }

    method CheckForceExpiry(now: real)
      modifies this`forcedClosed, this`forceUntil
      ensures View() == CheckExpiry(old(View()), now)
    {
      if forcedClosed && forceUntil.Some? {
        if now >= forceUntil.value {
          forcedClosed, forceUntil := false, None;
        }
      }
    }

    /** `is_open`: looking at the window settles an expired force. */
    method QueryOpen(now: real) returns (open: bool)
      modifies this`forcedClosed, this`forceUntil
      ensures View() == Step(config, old(View()), Query(now))
      ensures open == IsOpen(old(View()), now)
    {
      CheckForceExpiry(now);
      if forcedClosed {
        return false;
      }
      return isOpen;
    }

    method QueryTimeUntilNextOpen(now: real) returns (seconds: Option<real>)
      modifies this`forcedClosed, this`forceUntil
      ensures View() == Step(config, old(View()), Query(now))
      ensures seconds == TimeUntilNextOpen(config, old(View()), now)
    {
      CheckForceExpiry(now);
      if forcedClosed {
        if forceUntil.Some? && forceUntil.value != 0.0 {
          return Some(NotNegative(forceUntil.value - now));
        }
        return None;
      }
      if isOpen {
        return Some(0.0);
      }
      var elapsed := now - stateStart;
      return Some(NotNegative(config.closedDuration - elapsed));
    }

    method QueryTimeUntilClose(now: real) returns (seconds: real)
      modifies this`forcedClosed, this`forceUntil
      ensures View() == Step(config, old(View()), Query(now))
      ensures seconds == TimeUntilClose(config, old(View()), now)
    {
      CheckForceExpiry(now);
      if forcedClosed || !isOpen {
        return 0.0;
      }
      var elapsed := now - stateStart;
      return NotNegative(config.openDuration - elapsed);
    }

    method ForceWindowClosed(now: real, duration: Option<real>)
      modifies this
      ensures View() == Step(config, old(View()), Force(now, duration))
    {
      forcedClosed := true;
      if duration.Some? {
        forceUntil := Some(now + duration.value);
      } else {
        forceUntil := None;
      }
      transitions := transitions + [ForceClosed(now, duration)];
      notes := notes + [Note(false, windowId)];
    }

    method ClearForce(now: real)
      modifies this
      ensures View() == Step(config, old(View()), Clear(now))
    {
      forcedClosed, forceUntil := false, None;
      transitions := transitions + [ForceCleared(now)];
      if isOpen {
        notes := notes + [Note(true, windowId)];
      }
    }

    /** One scheduler tick; true when the natural phase changed. */
    method DoTick(now: real) returns (changed: bool)
      modifies this
      ensures View() == Step(config, old(View()), Tick(now))
      ensures changed <==> old(View()).isOpen != isOpen
    {
      CheckForceExpiry(now);
      var elapsed := now - stateStart;
      if isOpen && elapsed >= config.openDuration {
        isOpen := false;
        stateStart := now;
        totalCompleted := totalCompleted + 1;
        transitions := transitions + [WindowClosed(now, windowId)];
        notes := notes + [Note(false, windowId)];
        return true;
      } else if !isOpen && elapsed >= config.closedDuration {
        isOpen := true;
        stateStart := now;
        windowId := windowId + 1;
        transitions := transitions + [WindowOpened(now, windowId)];
        notes := notes + [Note(true, windowId)];
        return true;
      }
      return false;
    }
  }
}
