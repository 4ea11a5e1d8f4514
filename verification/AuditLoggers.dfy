/** The flight audit logger over its log file, and the ground's audit service and chain
    verification route over the event table. */
module AuditLoggers {
  import opened Wrappers
  import opened AuditChain

  /** A terminated line of the log file: a record, nothing, or text that does not parse. */
  datatype Line = Record(entry: Entry) | Empty | Garbled

  /** What stands behind the last line break: nothing, white space, or text that a write cut
      short has left, which may be a whole record without its line break. */
  datatype Tail = NoTail | Blank | Rest(entry: Option<Entry>)

  datatype LogText = LogText(lines: seq<Line>, tail: Tail)

  function LineEntries(lines: seq<Line>): (r: seq<Entry>) {
    if lines == [] then [] else
      var last := lines[|lines| - 1];
      LineEntries(lines[..|lines| - 1]) + if last.Record? then [last.entry] else []
  }

  function TailEntries(tail: Tail): seq<Entry> {
    if tail.Rest? && tail.entry.Some? then [tail.entry.value] else []
  }

  function Entries(text: LogText): (r: seq<Entry>) {
    LineEntries(text.lines) + TailEntries(text.tail)
  }

  /** Writing a record and its line break at the end of the file. White space before a record
      does not matter, but a record glued to other text does not parse: JSON allows nothing
      but white space before a value, and the text before it cannot be a string that the
      record's first quote closes. */
  function AppendRecord(text: LogText, e: Entry): LogText {
    LogText(text.lines + [if text.tail.Rest? then Garbled else Record(e)], NoTail)
  }

  /** The append-only file, which outlives every logger opened on it. */
  class LogFile {
    var text: LogText

    constructor (text: LogText)
      ensures this.text == text
    {
      this.text := text;
    }
  }

  class AuditLogger {
    const file: LogFile
    const source: string
    const hash: string -> string
    var prevHash: string

    /** A logger picks up the chain at the last readable entry. */
    constructor (file: LogFile, source: string, hash: string -> string)
      ensures this.file == file && this.source == source && this.hash == hash
      ensures prevHash == LastHash(Entries(file.text))
    {
      this.file, this.source, this.hash := file, source, hash;
      prevHash := GENESIS;
      new;
      var entries := ReadAllEntries();
      if entries != [] {
        prevHash := entries[|entries| - 1].hash;
      }
    }

    method ReadAllEntries() returns (entries: seq<Entry>)
      ensures entries == Entries(file.text)
    {
      entries := [];
      var lines := file.text.lines;
      for i := 0 to |lines|
        invariant entries == LineEntries(lines[..i])
      {
        assert lines[..i + 1][..i] == lines[..i];
        match lines[i]
        case Record(e) => entries := entries + [e];
        case Empty =>
        case Garbled =>
      }
      assert lines[..|lines|] == lines;
      entries := entries + TailEntries(file.text.tail);
    }

    method Log(timestamp: string, eventType: string, severity: string, description: string, metadata: string)
      returns (entry: Entry)
      modifies this`prevHash, file
      ensures entry == Linked(hash, old(prevHash), Entry(timestamp, eventType, source, severity, description, metadata, "", ""))
      ensures var text := old(prevHash) + "|" + timestamp + "|" + eventType + "|" + source + "|" + description;
        entry == Entry(timestamp, eventType, source, severity, description, metadata, hash(text), old(prevHash))
      ensures file.text == AppendRecord(old(file.text), entry) && prevHash == entry.hash
      ensures LoggerState(file.text, prevHash) ==
        Step(hash, source, old(LoggerState(file.text, prevHash)),
             DoLog(timestamp, eventType, severity, description, metadata))
    {
      var input := prevHash + "|" + (timestamp + "|" + (eventType + "|" + (source + "|" + description)));
      var entryHash := hash(input);
      entry := Entry(timestamp, eventType, source, severity, description, metadata, entryHash, prevHash);
      assert FlightRecord(entry) == input;
      assert input == prevHash + "|" + timestamp + "|" + eventType + "|" + source + "|" + description;
      file.text := AppendRecord(file.text, entry);
      prevHash := entryHash;
    }

    method VerifyChain() returns (v: Verdict)
      ensures IsVerdict(FlightDigest(hash), Entries(file.text), v)
      ensures ReportsLinkFirst(FlightDigest(hash), Entries(file.text), v)
    {
      var entries := ReadAllEntries();
      if |entries| == 0 {
        return Verdict(true, 0, None, None, None);
      }
      ghost var d := FlightDigest(hash);
      var prev := GENESIS;
      for i := 0 to |entries|
        invariant prev == LastHash(entries[..i])
        invariant forall j :: 0 <= j < i ==> Good(d, entries, j)
      {
        var entry := entries[i];
        if entry.prevHash != prev {
          assert !Good(d, entries, i);
          return Verdict(false, |entries|, Some(i), Some(prev), Some(entry.prevHash));
        }
        var expected := hash(FlightRecord(entry));
        if entry.hash != expected {
          assert !Good(d, entries, i);
          return Verdict(false, |entries|, Some(i), Some(expected), Some(entry.hash));
        }
        prev := entry.hash;
      }
      v := Verdict(true, |entries|, None, None, None);
    }
  }

  function Linked(hash: string -> string, prev: string, e: Entry): (r: Entry) {
    var linked := e.(prevHash := prev);
    linked.(hash := hash(FlightRecord(linked)))
  }

  // ---- Runs of logging, restarting and crashing ----

  /** How far a write got that a crash cut short: not at all, to somewhere inside the record,
      or to just before the line break. */
  datatype Cut = Nothing | Inside | BeforeBreak

  datatype Op =
    | DoLog(timestamp: string, eventType: string, severity: string, description: string, metadata: string)
    | Restart
    | Crash(timestamp: string, eventType: string, severity: string, description: string, metadata: string, cut: Cut)

  datatype LoggerState = LoggerState(text: LogText, prevHash: string)

  function CutShort(text: LogText, e: Entry, cut: Cut): LogText {
    match cut
    case Nothing => text
    case Inside => text.(tail := Rest(None))
    case BeforeBreak => text.(tail := Rest(if text.tail.Rest? then None else Some(e)))
  }

  /** What Log, a new logger on the same file, and a crash inside Log followed by a new logger
      do to the file and the chain pointer. */
  function Step(hash: string -> string, source: string, s: LoggerState, op: Op): (s': LoggerState) {
    match op
    case DoLog(ts, et, sev, desc, meta) =>
      var e := Linked(hash, s.prevHash, Entry(ts, et, source, sev, desc, meta, "", ""));
      LoggerState(AppendRecord(s.text, e), e.hash)
    case Restart => Reopened(s.text)
    case Crash(ts, et, sev, desc, meta, cut) =>
      var e := Linked(hash, s.prevHash, Entry(ts, et, source, sev, desc, meta, "", ""));
      Reopened(CutShort(s.text, e, cut))
  }

  /** A new logger on the file. */
  function Reopened(text: LogText): LoggerState {
    LoggerState(text, LastHash(Entries(text)))
  }

  function RunOps(hash: string -> string, source: string, s: LoggerState, ops: seq<Op>): (s': LoggerState) {
    if ops == [] then s else
      Step(hash, source, RunOps(hash, source, s, ops[..|ops| - 1]), ops[|ops| - 1])
  }

  function LogCount(ops: seq<Op>): nat {
    if ops == [] then 0 else LogCount(ops[..|ops| - 1]) + if ops[|ops| - 1].DoLog? then 1 else 0
  }

  predicate NoCrash(ops: seq<Op>) {
    forall i :: 0 <= i < |ops| ==> !ops[i].Crash?
  }

  /** A file that the next record can follow, with a logger at the end of its chain. */
  ghost predicate Sound(hash: string -> string, s: LoggerState) {
    !s.text.tail.Rest? && Verified(FlightDigest(hash), Entries(s.text)) && s.prevHash == LastHash(Entries(s.text))
  }

  lemma AppendedEntries(text: LogText, e: Entry)
    ensures var r := AppendRecord(text, e);
      && Entries(r) == LineEntries(r.lines)
      && LineEntries(r.lines) == if text.tail.Rest? then LineEntries(text.lines) else LineEntries(text.lines) + [e]
  {
    var r := AppendRecord(text, e);
    assert r.lines[..|r.lines| - 1] == text.lines;
  }

  lemma LinkedIsAppend(hash: string -> string, entries: seq<Entry>, e: Entry)
    ensures Append(FlightDigest(hash), entries, e) == entries + [Linked(hash, LastHash(entries), e)]
  {
  }

  lemma LogStep(hash: string -> string, source: string, s: LoggerState, op: Op)
    requires Sound(hash, s) && op.DoLog?
    ensures var s' := Step(hash, source, s, op);
      Sound(hash, s') && |Entries(s'.text)| == |Entries(s.text)| + 1 && Entries(s.text) <= Entries(s'.text)
  {
    var e := Entry(op.timestamp, op.eventType, source, op.severity, op.description, op.metadata, "", "");
    var s' := Step(hash, source, s, op);
    var linked := Linked(hash, s.prevHash, e);
    AppendedEntries(s.text, linked);
    assert Entries(s'.text) == Entries(s.text) + [linked];
    DigestsIgnoreOwnHash(hash);
    AppendVerified(FlightDigest(hash), Entries(s.text), e);
    LinkedIsAppend(hash, Entries(s.text), e);
  }

  /** Any interleaving of logs and restarts, on a file that ends in a line break or white space
      and whose readable entries verify, leaves such a file, with one entry more per log and
      none lost. */
  lemma {:induction false} LogsVerify(hash: string -> string, source: string, text: LogText, ops: seq<Op>)
    requires Sound(hash, Reopened(text)) && NoCrash(ops)
    ensures var s := RunOps(hash, source, Reopened(text), ops);
      && Sound(hash, s)
      && |Entries(s.text)| == |Entries(text)| + LogCount(ops)
      && Entries(text) <= Entries(s.text)
  {
    hide Sound;
    if ops != [] {
      var front, last := ops[..|ops| - 1], ops[|ops| - 1];
      LogsVerify(hash, source, text, front);
      var s := RunOps(hash, source, Reopened(text), front);
      if last.DoLog? {
        LogStep(hash, source, s, last);
      } else {
        RestartKeepsSound(hash, s);
      }
    }
  }

  lemma RestartKeepsSound(hash: string -> string, s: LoggerState)
    requires Sound(hash, s)
    ensures Sound(hash, Reopened(s.text)) && Reopened(s.text) == s
  {
  }

  /** A crash inside a log leaves a file whose readable entries verify, with at most the one
      entry more; and if a line break is missing at its end, the next log is not sound. */
  lemma CrashLeaves(hash: string -> string, source: string, s: LoggerState, op: Op)
    requires Sound(hash, s) && op.Crash?
    ensures var s' := Step(hash, source, s, op);
      && Verified(FlightDigest(hash), Entries(s'.text))
      && (op.cut == BeforeBreak ==> |Entries(s'.text)| == |Entries(s.text)| + 1)
      && (op.cut != BeforeBreak ==> Entries(s'.text) == Entries(s.text))
      && (Sound(hash, s') <==> op.cut == Nothing)
  {
    var e := Entry(op.timestamp, op.eventType, source, op.severity, op.description, op.metadata, "", "");
    DigestsIgnoreOwnHash(hash);
    AppendVerified(FlightDigest(hash), Entries(s.text), e);
    LinkedIsAppend(hash, Entries(s.text), e);
    var s' := Step(hash, source, s, op);
    if op.cut == BeforeBreak {
      assert Entries(s'.text) == Entries(s.text) + [Linked(hash, s.prevHash, e)];
    } else {
      assert Entries(s'.text) == Entries(s.text);
    }
  }

  /** What a crash leaves readable, on any file: a cut inside the record adds nothing, a cut
      before the line break adds the record unless it was glued to unterminated text, and both
      lose what that text may have been. */
  lemma CrashReadable(hash: string -> string, source: string, s: LoggerState, op: Op)
    requires op.Crash?
    ensures var s' := Step(hash, source, s, op);
      var text := s.prevHash + "|" + op.timestamp + "|" + op.eventType + "|" + source + "|" + op.description;
      var e := Entry(op.timestamp, op.eventType, source, op.severity, op.description, op.metadata, hash(text), s.prevHash);
      && Entries(s'.text) == (
           if op.cut == Nothing then Entries(s.text)
           else if op.cut == BeforeBreak && !s.text.tail.Rest? then LineEntries(s.text.lines) + [e]
           else LineEntries(s.text.lines))
      && s'.prevHash == LastHash(Entries(s'.text)) && s'.text.lines == s.text.lines
  {
    assert s.prevHash + "|" + (op.timestamp + "|" + (op.eventType + "|" + (source + "|" + op.description)))
        == s.prevHash + "|" + op.timestamp + "|" + op.eventType + "|" + source + "|" + op.description;
  }

  /** The first log of a new logger adds its entry to the readable ones exactly if the file
      does not end in unterminated text. Otherwise the record is lost, and so is the record
      that the unterminated text may have been. */
  lemma FirstLogKeptIff(hash: string -> string, source: string, text: LogText, op: Op)
    requires op.DoLog?
    ensures var s' := Step(hash, source, Reopened(text), op);
      && (|Entries(s'.text)| == |Entries(text)| + 1 <==> !text.tail.Rest?)
      && (text.tail.Rest? ==> Entries(s'.text) == LineEntries(text.lines))
  {
    AppendedEntries(text, Linked(hash, LastHash(Entries(text)),
      Entry(op.timestamp, op.eventType, source, op.severity, op.description, op.metadata, "", "")));
  }

  lemma {:induction false} CountAfterRest(hash: string -> string, source: string, text: LogText, ops: seq<Op>)
    requires text.tail.Rest? && NoCrash(ops)
    ensures var after := RunOps(hash, source, Reopened(text), ops).text;
      if LogCount(ops) == 0 then after == text
      else !after.tail.Rest? && |Entries(after)| == |LineEntries(text.lines)| + LogCount(ops) - 1
  {
    if ops != [] {
      var front, op := ops[..|ops| - 1], ops[|ops| - 1];
      CountAfterRest(hash, source, text, front);
      if op.DoLog? {
        var s := RunOps(hash, source, Reopened(text), front);
        AppendedEntries(s.text, Linked(hash, s.prevHash,
          Entry(op.timestamp, op.eventType, source, op.severity, op.description, op.metadata, "", "")));
      }
    }
  }

  /** One entry more per log, over any logs and restarts with at least one log: exactly if the
      file does not end in unterminated text. */
  lemma NoneLostIff(hash: string -> string, source: string, text: LogText, ops: seq<Op>)
    requires Verified(FlightDigest(hash), Entries(text)) && NoCrash(ops) && LogCount(ops) > 0
    ensures |Entries(RunOps(hash, source, Reopened(text), ops).text)| == |Entries(text)| + LogCount(ops)
      <==> !text.tail.Rest?
  {
    if text.tail.Rest? {
      CountAfterRest(hash, source, text, ops);
    } else {
      LogsVerify(hash, source, text, ops);
    }
  }

  /** After such a loss the logger goes on with the lost record's hash: its next entry is
      reported as the first break, at exactly the index the lost one should have had. */
  lemma LostRecordBreaksChain(hash: string -> string, source: string, text: LogText, first: Op, second: Op)
    requires text.tail.Rest? && first.DoLog? && second.DoLog?
    requires Chain(hash, Entries(text)) && NoBar(first.timestamp) && NoBar(first.eventType) && NoBar(source)
    requires NoBar(LastHash(Entries(text)))
    requires var s1 := Step(hash, source, Reopened(text), first);
      var e1 := Linked(hash, LastHash(Entries(text)),
                       Entry(first.timestamp, first.eventType, source, first.severity, first.description, first.metadata, "", ""));
      CollisionFreeOn(hash, Records(Entries(text) + [e1]))
    ensures var s2 := RunOps(hash, source, Reopened(text), [first, second]);
      FirstBreak(FlightDigest(hash), Entries(s2.text), |LineEntries(text.lines)|)
  {
    hide FlightRecord, RunOps, Step, CollisionFreeOn;
    var start := Entry(first.timestamp, first.eventType, source, first.severity, first.description, first.metadata, "", "");
    var e1 := Linked(hash, LastHash(Entries(text)), start);
    MemoryChain(hash, Entries(text), start);
    LostHashDiffers(hash, text, e1);
    TwoLogs(hash, source, text, first, second);
    var e2 := Linked(hash, e1.hash,
      Entry(second.timestamp, second.eventType, source, second.severity, second.description, second.metadata, "", ""));
    BreakAfter(FlightDigest(hash), Entries(text), LineEntries(text.lines), e2);
  }

  /** An entry put behind a part of a verified chain that it does not link to. */
  lemma BreakAfter(d: Digest, entries: seq<Entry>, kept: seq<Entry>, e: Entry)
    requires Verified(d, entries) && kept <= entries && e.prevHash != LastHash(kept)
    ensures FirstBreak(d, kept + [e], |kept|)
  {
    var all := kept + [e];
    forall j | 0 <= j < |kept| ensures Good(d, all, j) {
      assert Good(d, entries, j);
    }
    assert all[|kept|] == e;
    assert kept != [] ==> all[|kept| - 1] == kept[|kept| - 1];
  }

  /** The chain as the logger has it in memory. */
  lemma MemoryChain(hash: string -> string, entries: seq<Entry>, e: Entry)
    requires Chain(hash, entries) && NoBar(e.timestamp) && NoBar(e.eventType) && NoBar(e.source)
    requires NoBar(LastHash(entries))
    ensures Chain(hash, entries + [Linked(hash, LastHash(entries), e)])
  {
    DigestsIgnoreOwnHash(hash);
    AppendVerified(FlightDigest(hash), entries, e);
    LinkedIsAppend(hash, entries, e);
  }

  lemma LostHashDiffers(hash: string -> string, text: LogText, e1: Entry)
    requires Chain(hash, Entries(text) + [e1]) && CollisionFreeOn(hash, Records(Entries(text) + [e1]))
    ensures e1.hash != LastHash(LineEntries(text.lines))
  {
    var memory, kept := Entries(text) + [e1], LineEntries(text.lines);
    var n := |memory| - 1;
    assert memory[n] == e1;
    if kept != [] {
      assert memory[|kept| - 1] == kept[|kept| - 1];
      HashesDistinct(hash, memory, |kept| - 1, n);
    } else {
      ChainFront(hash, memory);
    }
  }

  lemma TwoLogs(hash: string -> string, source: string, text: LogText, first: Op, second: Op)
    requires text.tail.Rest? && first.DoLog? && second.DoLog?
    ensures var e1 := Linked(hash, LastHash(Entries(text)),
                       Entry(first.timestamp, first.eventType, source, first.severity, first.description, first.metadata, "", ""));
      var e2 := Linked(hash, e1.hash,
                       Entry(second.timestamp, second.eventType, source, second.severity, second.description, second.metadata, "", ""));
      Entries(RunOps(hash, source, Reopened(text), [first, second]).text) == LineEntries(text.lines) + [e2]
  {
    hide Entries;
    var ops := [first, second];
    assert ops[..1] == [first] && [first][..0] == [];
    var s1 := Step(hash, source, Reopened(text), first);
    assert RunOps(hash, source, Reopened(text), [first]) == s1;
    var s2 := Step(hash, source, s1, second);
    assert RunOps(hash, source, Reopened(text), ops) == s2;
    var e1 := Linked(hash, LastHash(Entries(text)),
      Entry(first.timestamp, first.eventType, source, first.severity, first.description, first.metadata, "", ""));
    var e2 := Linked(hash, e1.hash,
      Entry(second.timestamp, second.eventType, source, second.severity, second.description, second.metadata, "", ""));
    AppendedEntries(text, e1);
    AppendedEntries(s1.text, e2);
  }

  // ---- The ground side ----

  datatype LogError = MissingField | InvalidSource | InvalidSeverity

  const VALID_SOURCES: set<string> := {"GROUND", "FLIGHT", "SCHEDULER", "TWIN"}
  const VALID_SEVERITIES: set<string> := {"INFO", "WARNING", "CRITICAL"}

  function FlightRow(messageTime: string, e: Entry): Entry {
    e.(timestamp := messageTime, source := if e.source == "" then "FLIGHT" else e.source)
  }

  function Bars(s: string): nat {
    if s == "" then 0 else Bars(s[1..]) + if s[0] == '|' then 1 else 0
  }

  lemma {:induction false} BarsConcat(s: string, t: string)
    ensures Bars(s + t) == Bars(s) + Bars(t)
  {
    if s == "" {
      assert s + t == t;
    } else {
      assert (s + t)[1..] == s[1..] + t;
      BarsConcat(s[1..], t);
    }
  }

  lemma {:induction false} NoBarsIff(s: string)
    ensures Bars(s) == 0 <==> NoBar(s)
  {
    if s != "" {
      NoBarsIff(s[1..]);
      assert s == [s[0]] + s[1..];
    }
  }

  /** The text that flight hashed has four bars more than the text the ground verifiers hash. */
  lemma FlightTextDiffers(e: Entry, messageTime: string)
    requires e.source != "" && NoBar(e.timestamp) && NoBar(messageTime)
    ensures FlightRecord(e) != GroundRecord(FlightRow(messageTime, e))
  {
    var row := FlightRow(messageTime, e);
    NoBarsIff(e.timestamp);
    NoBarsIff(messageTime);
    var r3 := e.source + "|" + e.description;
    var r2 := e.eventType + "|" + r3;
    var r1 := e.timestamp + "|" + r2;
    BarsConcat(e.prevHash + "|", r1);
    BarsConcat(e.prevHash, "|");
    BarsConcat(e.timestamp + "|", r2);
    BarsConcat(e.timestamp, "|");
    BarsConcat(e.eventType + "|", r3);
    BarsConcat(e.eventType, "|");
    BarsConcat(e.source + "|", e.description);
    BarsConcat(e.source, "|");
    BarsConcat(e.prevHash + messageTime + e.eventType + e.source, e.description);
    BarsConcat(e.prevHash + messageTime + e.eventType, e.source);
    BarsConcat(e.prevHash + messageTime, e.eventType);
    BarsConcat(e.prevHash, messageTime);
    assert Bars("|") == 1;
    assert FlightRecord(e) == e.prevHash + "|" + r1;
    assert GroundRecord(row) == e.prevHash + messageTime + e.eventType + e.source + e.description;
  }

  /** A flight event in the ground's table breaks the verified chain at its own row, whatever
      it links to and whatever follows: its hash is over another text. */
  lemma FlightRowBreaksChain(h: string -> string, rows: seq<Entry>, e: Entry, messageTime: string, more: seq<Entry>)
    requires Verified(GroundDigest(h), rows) && e.hash == h(FlightRecord(e))
    requires e.source != "" && NoBar(e.timestamp) && NoBar(messageTime)
    requires CollisionFreeOn(h, {FlightRecord(e), GroundRecord(FlightRow(messageTime, e))})
    ensures FirstBreak(GroundDigest(h), rows + [FlightRow(messageTime, e)] + more, |rows|)
  {
    hide FlightRecord, GroundRecord;
    FlightTextDiffers(e, messageTime);
    var d, all := GroundDigest(h), rows + [FlightRow(messageTime, e)] + more;
    forall j | 0 <= j < |rows| ensures Good(d, all, j) {
      assert Good(d, rows, j);
    }
    assert all[|rows|] == FlightRow(messageTime, e);
  }

  class AuditService {
    var rows: seq<Entry>
    const hash: string -> string

    constructor (hash: string -> string)
      ensures this.hash == hash && rows == []
    {
      this.hash := hash;
      rows := [];
    }

    method LogEvent(timestamp: string, eventType: string, source: string, severity: string, description: string, metadata: string)
      returns (r: Result<Entry, LogError>)
      modifies this`rows
      ensures r.Success? <==>
        eventType != "" && description != "" && source in VALID_SOURCES && severity in VALID_SEVERITIES
      ensures r.Failure? ==> rows == old(rows)
      ensures r == Failure(MissingField) <==> eventType == "" || source == "" || severity == "" || description == ""
      ensures r == Failure(InvalidSource) ==> source !in VALID_SOURCES
      ensures r == Failure(InvalidSeverity) ==> source in VALID_SOURCES && severity !in VALID_SEVERITIES
      ensures r.Success? ==>
        var prev := if old(rows) == [] then "GENESIS" else old(rows)[|old(rows)| - 1].hash;
        r.value == Entry(timestamp, eventType, source, severity, description, metadata,
                         hash(prev + timestamp + eventType + source + description), prev)
      ensures r.Success? ==>
        && rows == old(rows) + [r.value]
        && rows == Append(GroundDigest(hash), old(rows),
                          Entry(timestamp, eventType, source, severity, description, metadata, "", ""))
      ensures Verified(GroundDigest(hash), old(rows)) ==> Verified(GroundDigest(hash), rows)
    {
      ghost var d := GroundDigest(hash);
      ghost var entry := Entry(timestamp, eventType, source, severity, description, metadata, "", "");
      if Verified(d, rows) {
        DigestsIgnoreOwnHash(hash);
        AppendVerified(d, rows, entry);
      }
      if eventType == "" || source == "" || severity == "" || description == "" {
        return Failure(MissingField);
      }
      if source !in VALID_SOURCES {
        return Failure(InvalidSource);
      }
      if severity !in VALID_SEVERITIES {
        return Failure(InvalidSeverity);
      }
      var prevHash := if rows == [] then GENESIS else rows[|rows| - 1].hash;
      var h := hash(prevHash + timestamp + eventType + source + description);
      var event := Entry(timestamp, eventType, source, severity, description, metadata, h, prevHash);
      assert GroundRecord(event) == GroundRecord(event.(hash := ""));
      rows := rows + [event];
      r := Success(event);
    }

    /** The gateway's handler for a flight audit event: the row keeps the hashes that flight
        computed, under the time stamp of the message. Rows with an empty field are refused. */
    method InsertFlightEvent(messageTime: string, entry: Entry) returns (ok: bool)
      modifies this`rows
      ensures ok == (messageTime != "" && entry.eventType != "" && entry.severity != "" && entry.description != ""
                     && entry.hash != "" && entry.prevHash != "")
      ensures rows == if ok then old(rows) + [FlightRow(messageTime, entry)] else old(rows)
      ensures ok ==>
        var source := if entry.source == "" then "FLIGHT" else entry.source;
        rows[|old(rows)|] == Entry(messageTime, entry.eventType, source, entry.severity, entry.description,
                                   entry.metadata, entry.hash, entry.prevHash)
    {
      var row := FlightRow(messageTime, entry);
      if row.timestamp == "" || row.eventType == "" || row.source == "" || row.severity == "" || row.description == ""
         || row.hash == "" || row.prevHash == "" {
        return false;
      }
      rows := rows + [row];
      return true;
    }

    /** The service's verifier: the link first, against the row before. */
    method VerifyChain() returns (v: Verdict)
      ensures IsVerdict(GroundDigest(hash), rows, v) && ReportsLinkFirst(GroundDigest(hash), rows, v)
    {
      if |rows| == 0 {
        return Verdict(true, 0, None, None, None);
      }
      ghost var d := GroundDigest(hash);
      for i := 0 to |rows|
        invariant forall j :: 0 <= j < i ==> Good(d, rows, j)
      {
        var event := rows[i];
        var expectedPrev := if i == 0 then GENESIS else rows[i - 1].hash;
        if event.prevHash != expectedPrev {
          assert !Good(d, rows, i);
          return Verdict(false, |rows|, Some(i), Some(expectedPrev), Some(event.prevHash));
        }
        var recomputed := hash(GroundRecord(event));
        if recomputed != event.hash {
          assert !Good(d, rows, i);
          return Verdict(false, |rows|, Some(i), Some(recomputed), Some(event.hash));
        }
      }
      v := Verdict(true, |rows|, None, None, None);
    }
  }

  /** `GET /verify`: the digest first, then the link, leaving the loop at the first break. */
  method VerifyRoute(hash: string -> string, events: seq<Entry>) returns (v: Verdict)
    ensures IsVerdict(GroundDigest(hash), events, v) && ReportsHashFirst(GroundDigest(hash), events, v)
  {
    if |events| == 0 {
      return Verdict(true, 0, None, None, None);
    }
    ghost var d := GroundDigest(hash);
    var chainValid := true;
    var breakAt, expected, actual := None, None, None;
    var i := 0;
    while i < |events|
      invariant 0 <= i <= |events| && chainValid
      invariant forall j :: 0 <= j < i ==> Good(d, events, j)
      invariant breakAt == None
    {
      var event := events[i];
      var recomputed := hash(GroundRecord(event));
      if event.hash != recomputed {
        assert !Good(d, events, i);
        chainValid, breakAt, expected, actual := false, Some(i), Some(recomputed), Some(event.hash);
        break;
      }
      if i > 0 {
        if event.prevHash != events[i - 1].hash {
          assert !Good(d, events, i);
          chainValid, breakAt, expected, actual := false, Some(i), Some(events[i - 1].hash), Some(event.prevHash);
          break;
        }
      } else {
        if event.prevHash != GENESIS {
          assert !Good(d, events, i);
          chainValid, breakAt, expected, actual := false, Some(0), Some(GENESIS), Some(event.prevHash);
          break;
        }
      }
      i := i + 1;
    }
    v := Verdict(chainValid, |events|, breakAt, expected, actual);
  }
}
