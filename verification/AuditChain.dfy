/** The hash-chained audit log: what a chain commits to, and where a verifier finds the first
    break. The hash is a parameter; claims that need it to have no collision say on which
    inputs. */
module AuditChain {
  import opened Wrappers

  datatype Entry = Entry(
    timestamp: string, eventType: string, source: string, severity: string,
    description: string, metadata: string, hash: string, prevHash: string)

  const GENESIS: string := "GENESIS"

  /** The text that the flight logger hashes. */
  function FlightRecord(e: Entry): string {
    e.prevHash + "|" + (e.timestamp + "|" + (e.eventType + "|" + (e.source + "|" + e.description)))
  }

  /** The text that the ground services hash: the same fields run together. */
  function GroundRecord(e: Entry): string {
    e.prevHash + e.timestamp + e.eventType + e.source + e.description
  }

  /** What a verifier recomputes from the fields of an entry. */
  type Digest = Entry -> string

  function FlightDigest(h: string -> string): Digest {
    (e: Entry) => h(FlightRecord(e))
  }

  function GroundDigest(h: string -> string): Digest {
    (e: Entry) => h(GroundRecord(e))
  }

  function ExpectedPrev(entries: seq<Entry>, i: nat): string
    requires i < |entries|
  {
    if i == 0 then GENESIS else entries[i - 1].hash
  }

  predicate LinkOk(entries: seq<Entry>, i: nat)
    requires i < |entries|
  {
    entries[i].prevHash == ExpectedPrev(entries, i)
  }

  predicate Good(d: Digest, entries: seq<Entry>, i: nat)
    requires i < |entries|
  {
    LinkOk(entries, i) && entries[i].hash == d(entries[i])
  }

  ghost predicate Verified(d: Digest, entries: seq<Entry>) {
    forall i :: 0 <= i < |entries| ==> Good(d, entries, i)
  }

  function LastHash(entries: seq<Entry>): string {
    if entries == [] then GENESIS else entries[|entries| - 1].hash
  }

  // ---- Verdicts ----

  datatype Verdict = Verdict(
    valid: bool, total: nat, breakAt: Option<nat>, expected: Option<string>, actual: Option<string>)

  ghost predicate FirstBreak(d: Digest, entries: seq<Entry>, k: nat) {
    k < |entries| && !Good(d, entries, k) && forall j :: 0 <= j < k ==> Good(d, entries, j)
  }

  /** The verdict names the least bad index, or none. */
  ghost predicate IsVerdict(d: Digest, entries: seq<Entry>, v: Verdict) {
    && v.total == |entries|
    && (v.valid <==> Verified(d, entries))
    && (v.valid ==> v.breakAt == None)
    && (!v.valid ==> v.breakAt.Some? && FirstBreak(d, entries, v.breakAt.value))
  }

  /** The hashes reported for a break at k: the link if it is broken, else the digest ... */
  ghost predicate ReportsLinkFirst(d: Digest, entries: seq<Entry>, v: Verdict) {
    v.breakAt.Some? && v.breakAt.value < |entries| ==>
      var k := v.breakAt.value;
      if !LinkOk(entries, k)
      then v.expected == Some(ExpectedPrev(entries, k)) && v.actual == Some(entries[k].prevHash)
      else v.expected == Some(d(entries[k])) && v.actual == Some(entries[k].hash)
  }

  /** ... or the digest if it is wrong, else the link. */
  ghost predicate ReportsHashFirst(d: Digest, entries: seq<Entry>, v: Verdict) {
    v.breakAt.Some? && v.breakAt.value < |entries| ==>
      var k := v.breakAt.value;
      if entries[k].hash != d(entries[k])
      then v.expected == Some(d(entries[k])) && v.actual == Some(entries[k].hash)
      else v.expected == Some(ExpectedPrev(entries, k)) && v.actual == Some(entries[k].prevHash)
  }

  /** All verifiers agree on validity, total and break index, whatever the order of their two
      checks; their reported hashes agree too unless both checks fail at the break and the two
      pairs differ. */
  lemma {:induction false} VerdictsAgree(d: Digest, entries: seq<Entry>, v: Verdict, w: Verdict)
    requires IsVerdict(d, entries, v) && IsVerdict(d, entries, w)
    requires ReportsLinkFirst(d, entries, v) && ReportsHashFirst(d, entries, w)
    ensures v.valid == w.valid && v.total == w.total && v.breakAt == w.breakAt
    ensures !v.valid ==>
      var e := entries[v.breakAt.value];
      (v.expected == w.expected && v.actual == w.actual <==>
         LinkOk(entries, v.breakAt.value) || e.hash == d(e)
         || (d(e) == ExpectedPrev(entries, v.breakAt.value) && e.hash == e.prevHash))
  {
    if !v.valid && !w.valid {
      assert v.breakAt.value == w.breakAt.value;
    }
  }

  // ---- Unique decoding ----

  predicate NoBar(s: string) {
    '|' !in s
  }

  /** No separator inside the first four fields. */
  predicate Clean(e: Entry) {
    NoBar(e.prevHash) && NoBar(e.timestamp) && NoBar(e.eventType) && NoBar(e.source)
  }

  predicate SameHashedFields(a: Entry, b: Entry) {
    && a.prevHash == b.prevHash && a.timestamp == b.timestamp && a.eventType == b.eventType
    && a.source == b.source && a.description == b.description
  }

  lemma {:induction false} SplitAtBar(a: string, s: string, b: string, t: string)
    requires NoBar(a) && NoBar(b) && a + "|" + s == b + "|" + t
    ensures a == b && s == t
  {
    var x, y := a + "|" + s, b + "|" + t;
    assert x[0] == if a == [] then '|' else a[0];
    assert y[0] == if b == [] then '|' else b[0];
    assert (a == [] || a[0] in a) && (b == [] || b[0] in b);
    if a == [] || b == [] {
      assert x[1..] == s && y[1..] == t;
    } else {
      assert x[1..] == a[1..] + "|" + s && y[1..] == b[1..] + "|" + t;
      SplitAtBar(a[1..], s, b[1..], t);
      assert a == [a[0]] + a[1..] && b == [b[0]] + b[1..];
    }
  }

  /** The flight record decodes uniquely. */
  lemma {:induction false} RecordDecodes(a: Entry, b: Entry)
    requires Clean(a) && Clean(b) && FlightRecord(a) == FlightRecord(b)
    ensures SameHashedFields(a, b)
  {
    var ra3, rb3 := a.source + "|" + a.description, b.source + "|" + b.description;
    var ra2, rb2 := a.eventType + "|" + ra3, b.eventType + "|" + rb3;
    var ra1, rb1 := a.timestamp + "|" + ra2, b.timestamp + "|" + rb2;
    hide NoBar;
    SplitAtBar(a.prevHash, ra1, b.prevHash, rb1);
    SplitAtBar(a.timestamp, ra2, b.timestamp, rb2);
    SplitAtBar(a.eventType, ra3, b.eventType, rb3);
    SplitAtBar(a.source, a.description, b.source, b.description);
  }

  function Blank(eventType: string, source: string): Entry {
    Entry("", eventType, source, "", "", "", "", "")
  }

  /** With a separator inside a field the flight record is ambiguous, and the ground record is
      ambiguous always: text can move from one field to the next. */
  lemma {:induction false} AmbiguousRecords(x: string, y: string, z: string)
    ensures FlightRecord(Blank(x + "|" + y, z)) == FlightRecord(Blank(x, y + "|" + z))
    ensures GroundRecord(Blank(x + y, z)) == GroundRecord(Blank(x, y + z))
  {
    assert (x + "|" + y) + "|" + (z + "|" + "") == x + "|" + ((y + "|" + z) + "|" + "");
  }

  // ---- The head commits to the log ----

  ghost function Records(entries: seq<Entry>): set<string> {
    set e | e in entries :: FlightRecord(e)
  }

  /** On these inputs the hash has no collision and never yields the genesis marker. */
  ghost predicate CollisionFreeOn(h: string -> string, inputs: set<string>) {
    && (forall x, y :: x in inputs && y in inputs && h(x) == h(y) ==> x == y)
    && (forall x :: x in inputs ==> h(x) != GENESIS)
  }

  /** A verified flight log with clean fields. */
  ghost predicate Chain(h: string -> string, entries: seq<Entry>) {
    Verified(FlightDigest(h), entries) && forall e :: e in entries ==> Clean(e)
  }

  lemma {:induction false} ChainFront(h: string -> string, entries: seq<Entry>)
    requires Chain(h, entries) && entries != []
    ensures var front, last := entries[..|entries| - 1], entries[|entries| - 1];
      && Chain(h, front) && Records(front) <= Records(entries) && FlightRecord(last) in Records(entries)
      && last.hash == h(FlightRecord(last)) && last.prevHash == LastHash(front) && Clean(last)
  {
    var front, last := entries[..|entries| - 1], entries[|entries| - 1];
    assert forall i :: 0 <= i < |front| ==> front[i] == entries[i];
    forall i | 0 <= i < |front| ensures Good(FlightDigest(h), front, i) {
      assert Good(FlightDigest(h), entries, i);
    }
    assert Good(FlightDigest(h), entries, |front|);
    assert last in entries;
  }

  lemma {:induction false} ChainPrefix(h: string -> string, entries: seq<Entry>, k: nat)
    requires Chain(h, entries) && k <= |entries|
    ensures Chain(h, entries[..k]) && Records(entries[..k]) <= Records(entries)
    decreases |entries|
  {
    if k == |entries| {
      assert entries[..k] == entries;
    } else {
      ChainFront(h, entries);
      ChainPrefix(h, entries[..|entries| - 1], k);
      assert entries[..|entries| - 1][..k] == entries[..k];
    }
  }

  /** The last hash commits to the log: two verified logs with the same last hash have the
      same length and the same hashed fields throughout. */
  lemma {:induction false} HeadCommits(h: string -> string, a: seq<Entry>, b: seq<Entry>)
    requires Chain(h, a) && Chain(h, b) && LastHash(a) == LastHash(b)
    requires CollisionFreeOn(h, Records(a) + Records(b))
    ensures |a| == |b| && forall i :: 0 <= i < |a| ==> SameHashedFields(a[i], b[i]) && a[i].hash == b[i].hash
    decreases |a|
  {
    hide Chain, FlightRecord, Clean, Records;
    if a != [] {
      ChainFront(h, a);
    }
    if b != [] {
      ChainFront(h, b);
    }
    if a != [] && b != [] {
      var x, y := a[|a| - 1], b[|b| - 1];
      assert FlightRecord(x) == FlightRecord(y);
      RecordDecodes(x, y);
      HeadCommits(h, a[..|a| - 1], b[..|b| - 1]);
    }
  }

  /** No hash repeats in a verified log. */
  lemma {:induction false} HashesDistinct(h: string -> string, a: seq<Entry>, i: nat, j: nat)
    requires Chain(h, a) && CollisionFreeOn(h, Records(a))
    requires i < j < |a|
    ensures a[i].hash != a[j].hash && a[i].hash != GENESIS
  {
    ChainPrefix(h, a, i + 1);
    ChainPrefix(h, a, j + 1);
    ChainFront(h, a[..i + 1]);
    if a[i].hash == a[j].hash {
      HeadCommits(h, a[..i + 1], a[..j + 1]);
    }
  }

  /** Losing one entry, as a line that no longer parses is lost, is reported at exactly its
      index, unless it was the last one: then the shorter log verifies. */
  lemma {:induction false} DroppedEntryFound(h: string -> string, a: seq<Entry>, i: nat)
    requires Chain(h, a) && CollisionFreeOn(h, Records(a)) && i < |a|
    ensures var b := a[..i] + a[i + 1..];
      if i < |a| - 1 then FirstBreak(FlightDigest(h), b, i) else Verified(FlightDigest(h), b)
  {
    var d, b := FlightDigest(h), a[..i] + a[i + 1..];
    forall j | 0 <= j < i ensures Good(d, b, j) {
      assert Good(d, a, j);
    }
    if i < |a| - 1 {
      assert b[i] == a[i + 1];
      assert Good(d, a, i + 1);
      HashesDistinct(h, a, i, i + 1);
      if i > 0 {
        HashesDistinct(h, a, i - 1, i);
      }
    }
  }

  /** Rewriting entry i under its old hashes goes unnoticed exactly when no hashed field
      changed; severity and metadata are not hashed. A change that is noticed is reported at
      index i. */
  lemma {:induction false} RewriteFoundIff(h: string -> string, a: seq<Entry>, i: nat, e: Entry)
    requires Chain(h, a) && i < |a| && Clean(e)
    requires e.hash == a[i].hash && e.prevHash == a[i].prevHash
    requires CollisionFreeOn(h, Records(a) + {FlightRecord(e)})
    ensures var d, b := FlightDigest(h), a[i := e];
      && (Verified(d, b) <==> SameHashedFields(e, a[i]))
      && (!SameHashedFields(e, a[i]) ==> FirstBreak(d, b, i))
  {
    var d, b := FlightDigest(h), a[i := e];
    forall j | 0 <= j < |b| && j != i ensures Good(d, b, j) {
      assert Good(d, a, j);
    }
    assert Good(d, a, i);
    assert a[i] in a;
    assert Good(d, b, i) <==> h(FlightRecord(e)) == h(FlightRecord(a[i]));
    if FlightRecord(e) == FlightRecord(a[i]) {
      RecordDecodes(e, a[i]);
    }
    assert Verified(d, b) <==> Good(d, b, i);
  }

  // ---- Appending ----

  function Append(d: Digest, entries: seq<Entry>, e: Entry): (r: seq<Entry>) {
    var linked := e.(prevHash := LastHash(entries));
    entries + [linked.(hash := d(linked))]
  }

  /** A digest that looks at the hashed fields only. */
  ghost predicate IgnoresOwnHash(d: Digest) {
    forall e: Entry, x: string :: d(e.(hash := x)) == d(e)
  }

  lemma {:induction false} DigestsIgnoreOwnHash(h: string -> string)
    ensures IgnoresOwnHash(FlightDigest(h)) && IgnoresOwnHash(GroundDigest(h))
  {
    forall e: Entry, x: string
      ensures FlightRecord(e.(hash := x)) == FlightRecord(e) && GroundRecord(e.(hash := x)) == GroundRecord(e) {
    }
    assert forall e: Entry, x: string :: FlightDigest(h)(e.(hash := x)) == FlightDigest(h)(e);
    assert forall e: Entry, x: string :: GroundDigest(h)(e.(hash := x)) == GroundDigest(h)(e);
  }

  lemma {:induction false} AppendVerified(d: Digest, entries: seq<Entry>, e: Entry)
    requires IgnoresOwnHash(d) && Verified(d, entries)
    ensures Verified(d, Append(d, entries, e))
  {
    var r := Append(d, entries, e);
    forall i | 0 <= i < |r| ensures Good(d, r, i) {
      if i < |entries| {
        assert Good(d, entries, i);
      }
    }
  }
}
