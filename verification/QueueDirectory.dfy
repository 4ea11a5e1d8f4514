/** The queue directory of the store-and-forward disk queue as a value: file names mapped to
    file contents, the operations of the queue on it, and the bounded map it stands for. */
module QueueDirectory {
  import opened Wrappers
  import opened FileNames
  import LexOrder

  /** One envelope as the communications client builds it. */
  datatype Message = Message(msgType: string, seqId: nat, timestamp: string, payload: string)

  /** What reading a file gives: a whole message, or text that is not JSON. */
  datatype Content = Complete(msg: Message) | Torn

  type Directory = map<string, Content>

  function QueueNames(d: Directory): (names: set<string>) {
    set n | n in d && IsQueueName(n)
  }

  /** The queue's files sorted by name. */
  function Listing(d: Directory): (files: seq<string>) {
    LexOrder.Sorted(QueueNames(d))
  }

  function Depth(d: Directory): nat {
    |Listing(d)|
  }

  function ReadOne(d: Directory, file: string, from: nat): (r: seq<Message>)
    requires file in d
  {
    var id := SeqFromFileName(file);
    if id.Some? && id.value >= from && d[file].Complete? then [d[file].msg] else []
  }

  /** The messages of `files` whose names carry an id of at least `from`; a file whose name
      is not a number, or whose text does not parse, is passed over. */
  function ReadMatching(d: Directory, files: seq<string>, from: nat): (r: seq<Message>)
    requires forall f :: f in files ==> f in d
  {
    if files == [] then [] else
      ReadMatching(d, files[..|files| - 1], from) + ReadOne(d, files[|files| - 1], from)
  }

  function GetFrom(d: Directory, from: nat): (r: seq<Message>) {
    ReadMatching(d, Listing(d), from)
  }

  lemma {:induction false} ReadMatchingHas(d: Directory, files: seq<string>, from: nat, m: Message)
    requires forall f :: f in files ==> f in d
    ensures m in ReadMatching(d, files, from) <==>
      exists f :: f in files && m in ReadOne(d, f, from)
  {
    hide ReadOne;
    if files != [] {
      var front, last := files[..|files| - 1], files[|files| - 1];
      ReadMatchingHas(d, front, from, m);
      assert files == front + [last];
    }
  }

  /** In any directory, whatever else it holds, get_from gives exactly the messages of the queue
      files whose names are numbers from that id on and whose text parses. */
  lemma {:induction false} GetFromHas(d: Directory, from: nat, m: Message)
    ensures m in GetFrom(d, from) <==>
      exists f :: f in QueueNames(d) && d[f] == Complete(m) && SeqFromFileName(f).Some? && SeqFromFileName(f).value >= from
  {
    hide IsQueueName, SeqFromFileName, LexOrder.Sorted, ReadMatching;
    ReadMatchingHas(d, Listing(d), from, m);
    if exists f :: f in QueueNames(d) && d[f] == Complete(m) && SeqFromFileName(f).Some? && SeqFromFileName(f).value >= from {
      var f :| f in QueueNames(d) && d[f] == Complete(m) && SeqFromFileName(f).Some? && SeqFromFileName(f).value >= from;
      assert f in Listing(d) && m in ReadOne(d, f, from);
    }
  }

  predicate NamedUpTo(file: string, id: nat) {
    SeqFromFileName(file).Some? && SeqFromFileName(file).value <= id
  }

  function RemoveUpTo(d: Directory, id: nat): (d': Directory) {
    d - set n | n in QueueNames(d) && NamedUpTo(n, id)
  }

  // ---- Enqueue as file-system operations ----

  datatype FsOp =
    | Unlink(name: string)
    | Write(name: string, content: Content)
    | Rename(from: string, to: string)

  function Apply(d: Directory, op: FsOp): (d': Directory) {
    match op
    case Unlink(name) => d - {name}
    case Write(name, content) => d[name := content]
    case Rename(from, to) => if from in d then (d - {from})[to := d[from]] else d
  }

  function ApplyAll(d: Directory, ops: seq<FsOp>): (d': Directory) {
    if ops == [] then d else Apply(ApplyAll(d, ops[..|ops| - 1]), ops[|ops| - 1])
  }

  function DropOps(d: Directory, maxDepth: nat): (ops: seq<FsOp>) {
    if Depth(d) >= maxDepth && Listing(d) != [] then [Unlink(Listing(d)[0])] else []
  }

  /** What enqueue does to the directory, in order. Opening the temporary file truncates it,
      so until the text is written out whole it does not parse. */
  function EnqueueOps(d: Directory, msg: Message, maxDepth: nat): (ops: seq<FsOp>) {
    DropOps(d, maxDepth) +
    [Write(TmpName(msg.seqId), Torn),
     Write(TmpName(msg.seqId), Complete(msg)),
     Rename(TmpName(msg.seqId), FileName(msg.seqId))]
  }

  function Enqueued(d: Directory, msg: Message, maxDepth: nat): (d': Directory) {
    ApplyAll(d, EnqueueOps(d, msg, maxDepth))
  }

  /** What a queue opened on the directory can see. */
  function Visible(d: Directory): (v: Directory) {
    map n | n in QueueNames(d) :: d[n]
  }

  function AfterDrop(d: Directory, maxDepth: nat): (d': Directory) {
    ApplyAll(d, DropOps(d, maxDepth))
  }

  lemma {:induction false} ApplyAllConcat(d: Directory, a: seq<FsOp>, b: seq<FsOp>)
    ensures ApplyAll(d, a + b) == ApplyAll(ApplyAll(d, a), b)
  {
    if b == [] {
      assert a + b == a;
    } else {
      ApplyAllConcat(d, a, b[..|b| - 1]);
      assert (a + b)[..|a + b| - 1] == a + b[..|b| - 1];
    }
  }

  lemma {:induction false} AfterDropIs(d: Directory, maxDepth: nat)
    ensures AfterDrop(d, maxDepth)
            == if Depth(d) >= maxDepth && Listing(d) != [] then d - {Listing(d)[0]} else d
  {
    var drop := DropOps(d, maxDepth);
    if drop != [] {
      var first := Listing(d)[0];
      assert drop == [Unlink(first)] && drop[..|drop| - 1] == [];
      assert ApplyAll(d, drop) == Apply(ApplyAll(d, []), Unlink(first));
    }
  }

  /** The directory after k of the operations that write the message. */
  lemma {:induction false} WriteOps(d: Directory, msg: Message, k: nat)
    requires k <= 3
    ensures var tmp, name := TmpName(msg.seqId), FileName(msg.seqId);
      ApplyAll(d, [Write(tmp, Torn), Write(tmp, Complete(msg)), Rename(tmp, name)][..k])
      == if k == 0 then d
         else if k == 1 then d[tmp := Torn]
         else if k == 2 then d[tmp := Complete(msg)]
         else (d - {tmp})[name := Complete(msg)]
  {
    var tmp, name := TmpName(msg.seqId), FileName(msg.seqId);
    var ops := [Write(tmp, Torn), Write(tmp, Complete(msg)), Rename(tmp, name)];
    TmpNameHidden(msg.seqId);
    if k > 0 {
      WriteOps(d, msg, k - 1);
      assert ops[..k][..k - 1] == ops[..k - 1];
      assert d[tmp := Torn][tmp := Complete(msg)] == d[tmp := Complete(msg)];
      assert d[tmp := Complete(msg)] - {tmp} == d - {tmp};
    }
  }

  lemma {:induction false} EnqueuedIs(d: Directory, msg: Message, maxDepth: nat)
    ensures Enqueued(d, msg, maxDepth)
            == (AfterDrop(d, maxDepth) - {TmpName(msg.seqId)})[FileName(msg.seqId) := Complete(msg)]
  {
    var tmp, name := TmpName(msg.seqId), FileName(msg.seqId);
    var ops := [Write(tmp, Torn), Write(tmp, Complete(msg)), Rename(tmp, name)];
    ApplyAllConcat(d, DropOps(d, maxDepth), ops);
    WriteOps(AfterDrop(d, maxDepth), msg, 3);
    assert ops[..3] == ops;
  }

  lemma {:induction false} VisibleAfterWrite(d: Directory, tmp: string, name: string, content: Content)
    requires !IsQueueName(tmp) && IsQueueName(name)
    ensures Visible(d[tmp := content]) == Visible(d)
    ensures Visible((d - {tmp})[name := content]) == Visible(d)[name := content]
    ensures QueueNames((d - {tmp})[name := content]) == QueueNames(d) + {name}
  {
    assert QueueNames(d[tmp := content]) == QueueNames(d);
    assert QueueNames((d - {tmp})[name := content]) == QueueNames(d) + {name};
  }

  /** What the files look like once a full queue has given up its oldest one. */
  function Kept(d: Directory, maxDepth: nat): (v: Directory) {
    if Depth(d) >= maxDepth && Listing(d) != [] then Visible(d) - {Listing(d)[0]} else Visible(d)
  }

  lemma {:induction false} VisibleAfterDrop(d: Directory, maxDepth: nat)
    ensures Visible(AfterDrop(d, maxDepth)) == Kept(d, maxDepth)
  {
    AfterDropIs(d, maxDepth);
    hide IsQueueName, LexOrder.Sorted, ApplyAll, AfterDrop;
    if DropOps(d, maxDepth) != [] {
      var n := Listing(d)[0];
      assert QueueNames(d - {n}) == QueueNames(d) - {n};
    }
  }

  /** Crash safety. Stop enqueue after any number k of its operations: a queue reopened on
      the directory sees the old files, or those without the oldest one (only when the queue
      was full), or, once the rename is done, those and the complete new message. */
  lemma {:induction false} EnqueueCrashSafe(d: Directory, msg: Message, maxDepth: nat, k: nat)
    requires k <= |EnqueueOps(d, msg, maxDepth)|
    ensures var ops := EnqueueOps(d, msg, maxDepth);
      Visible(ApplyAll(d, ops[..k]))
      == if k == 0 then Visible(d)
         else if k < |ops| then Kept(d, maxDepth)
         else Kept(d, maxDepth)[FileName(msg.seqId) := Complete(msg)]
  {
    var drop := DropOps(d, maxDepth);
    var tmp, name := TmpName(msg.seqId), FileName(msg.seqId);
    var write := [Write(tmp, Torn), Write(tmp, Complete(msg)), Rename(tmp, name)];
    VisibleAfterDrop(d, maxDepth);
    if k >= |drop| {
      var j := k - |drop|;
      assert (drop + write)[..k] == drop + write[..j];
      ApplyAllConcat(d, drop, write[..j]);
      var d1 := AfterDrop(d, maxDepth);
      WriteOps(d1, msg, j);
      TmpNameHidden(msg.seqId);
      NameRoundTrip(msg.seqId);
      VisibleAfterWrite(d1, tmp, name, Torn);
      VisibleAfterWrite(d1, tmp, name, Complete(msg));
    }
  }

  // ---- The bounded map the directory stands for ----

  /** Every queue file was put there by an enqueue: its name is the name of its id, and it
      holds the whole message with that id. */
  ghost predicate WellFormed(d: Directory) {
    forall n :: n in QueueNames(d) ==>
      && SeqFromFileName(n).Some?
      && n == FileName(SeqFromFileName(n).value)
      && d[n].Complete?
      && d[n].msg.seqId == SeqFromFileName(n).value
  }

  ghost predicate IdsBelow(d: Directory, limit: nat) {
    forall n :: n in QueueNames(d) ==>
      SeqFromFileName(n).Some? ==> SeqFromFileName(n).value < limit
  }

  function IdOf(name: string): nat {
    SeqFromFileName(name).GetOr(0)
  }

  /** The messages on disk by id. */
  ghost function Contents(d: Directory): (c: map<nat, Message>)
    requires WellFormed(d)
  {
    var ids := set n | n in QueueNames(d) :: IdOf(n);
    map id | id in ids && FileName(id) in QueueNames(d) :: d[FileName(id)].msg
  }

  lemma {:induction false} ContentsAt(d: Directory, id: nat)
    requires WellFormed(d)
    ensures id in Contents(d) <==> FileName(id) in d
    ensures id in Contents(d) ==> d[FileName(id)] == Complete(Contents(d)[id])
    ensures id in Contents(d) ==> Contents(d)[id].seqId == id
  {
    NameRoundTrip(id);
    if FileName(id) in d {
      assert IdOf(FileName(id)) == id;
    }
  }

  lemma {:induction false} IdsBelowIs(d: Directory, n: nat)
    requires WellFormed(d)
    ensures IdsBelow(d, n) <==> forall id :: id in Contents(d) ==> id < n
  {
    forall name | name in QueueNames(d) ensures IdOf(name) in Contents(d) {
      ContentsAt(d, IdOf(name));
    }
    forall id | id in Contents(d) ensures FileName(id) in QueueNames(d) && SeqFromFileName(FileName(id)) == Some(id) {
      ContentsAt(d, id);
      NameRoundTrip(id);
    }
  }

  ghost predicate IncreasingIds(ms: seq<Message>) {
    forall i, j :: 0 <= i < j < |ms| ==> ms[i].seqId < ms[j].seqId
  }

  /** Sorting by name is sorting by id. */
  lemma {:induction false} ListingInIdOrder(d: Directory, i: nat, j: nat)
    requires WellFormed(d) && IdsBelow(d, ID_LIMIT)
    requires i < j < Depth(d)
    ensures IdOf(Listing(d)[i]) < IdOf(Listing(d)[j])
  {
    hide IsQueueName, SeqFromFileName, FileName, LexOrder.Sorted, LexOrder.Less;
    var a, b := Listing(d)[i], Listing(d)[j];
    assert a in QueueNames(d) && b in QueueNames(d);
    LexOrder.Asymmetric(a, b);
    if IdOf(b) < IdOf(a) {
      NameOrderBelowLimit(IdOf(b), IdOf(a));
    }
  }

  /** The messages of c with lo <= id < hi, in increasing order of id. */
  function ReplayList(c: map<nat, Message>, lo: nat, hi: nat): (r: seq<Message>)
    decreases hi - lo
  {
    if lo >= hi then [] else
      (if lo in c then [c[lo]] else []) + ReplayList(c, lo + 1, hi)
  }

  lemma {:induction false} ReplayListIs(c: map<nat, Message>, lo: nat, hi: nat)
    requires forall id :: id in c ==> c[id].seqId == id
    ensures IncreasingIds(ReplayList(c, lo, hi))
    ensures forall m :: m in ReplayList(c, lo, hi) <==>
              lo <= m.seqId < hi && m.seqId in c && c[m.seqId] == m
    decreases hi - lo
  {
    if lo < hi {
      ReplayListIs(c, lo + 1, hi);
      var rest := ReplayList(c, lo + 1, hi);
      assert forall i :: 0 <= i < |rest| ==> rest[i] in rest;
    }
  }

  lemma {:induction false} ReplayListSplit(c: map<nat, Message>, lo: nat, mid: nat, hi: nat)
    requires lo <= mid <= hi
    ensures ReplayList(c, lo, hi) == ReplayList(c, lo, mid) + ReplayList(c, mid, hi)
    decreases mid - lo
  {
    if lo < mid {
      ReplayListSplit(c, lo + 1, mid, hi);
    }
  }

  lemma {:induction false} ReplayListEmpty(c: map<nat, Message>, lo: nat, hi: nat)
    requires forall id :: lo <= id < hi ==> id !in c
    ensures ReplayList(c, lo, hi) == []
    decreases hi - lo
  {
    if lo < hi {
      ReplayListEmpty(c, lo + 1, hi);
    }
  }

  /** The id of the k-th file, or `hi` past the last one. */
  ghost function FileBound(d: Directory, k: nat, hi: nat): nat {
    if k < Depth(d) then IdOf(Listing(d)[k]) else hi
  }

  /** A stored id has a place in the listing. */
  lemma {:induction false} FileIndex(d: Directory, id: nat) returns (j: nat)
    requires WellFormed(d) && id in Contents(d)
    ensures j < Depth(d) && IdOf(Listing(d)[j]) == id
  {
    ContentsAt(d, id);
    NameRoundTrip(id);
    var name := FileName(id);
    assert name in Listing(d);
    j :| 0 <= j < Depth(d) && Listing(d)[j] == name;
  }

  lemma {:induction false} ListedBelow(d: Directory, k: nat, hi: nat)
    requires IdsBelow(d, hi) && WellFormed(d) && k < Depth(d)
    ensures IdOf(Listing(d)[k]) < hi
  {
    assert Listing(d)[k] in QueueNames(d);
  }

  lemma {:induction false} BelowLimit(d: Directory, lo: nat, hi: nat)
    requires IdsBelow(d, lo) && lo <= hi
    ensures IdsBelow(d, hi)
  {
  }

  /** No stored id lies between two neighbouring files. */
  lemma {:induction false} NoIdBetween(d: Directory, k: nat, hi: nat, id: nat)
    requires WellFormed(d) && IdsBelow(d, hi) && hi <= ID_LIMIT
    requires k <= Depth(d) && id in Contents(d)
    ensures k == 0 || id <= FileBound(d, k - 1, hi) || FileBound(d, k, hi) <= id
    ensures k == 0 ==> FileBound(d, 0, hi) <= id
    ensures id < hi
  {
    hide SeqFromFileName, FileName, IsQueueName, Contents, IdOf, WellFormed, LexOrder.Sorted, QueueNames;
    var j := FileIndex(d, id);
    ListedBelow(d, j, hi);
    BelowLimit(d, hi, ID_LIMIT);
    hide IdsBelow;
    if j < k - 1 {
      ListingInIdOrder(d, j, k - 1);
    } else if k < j {
      ListingInIdOrder(d, k, j);
    }
  }

  lemma {:induction false} ReadOneIs(d: Directory, file: string, from: nat)
    requires WellFormed(d) && file in QueueNames(d)
    ensures IdOf(file) in Contents(d)
    ensures ReadOne(d, file, from) == if IdOf(file) >= from then [Contents(d)[IdOf(file)]] else []
  {
    ContentsAt(d, IdOf(file));
  }

  /** With no stored id strictly between low and bound, the list up to bound adds low only. */
  lemma {:induction false} ReplayListExtend(c: map<nat, Message>, from: nat, low: nat, bound: nat)
    requires low < bound && low in c
    requires forall id :: low < id < bound ==> id !in c
    ensures ReplayList(c, from, bound)
            == ReplayList(c, from, low) + if low >= from then [c[low]] else []
  {
    if from <= low {
      ReplayListSplit(c, from, low, bound);
      ReplayListSplit(c, low, low + 1, bound);
      ReplayListEmpty(c, low + 1, bound);
    } else {
      ReplayListEmpty(c, from, bound);
    }
  }

  lemma {:induction false} ReadMatchingStep(d: Directory, k: nat, from: nat)
    requires 0 < k <= Depth(d)
    ensures forall f :: f in Listing(d)[..k] ==> f in QueueNames(d) && f in d
    ensures Listing(d)[k - 1] in QueueNames(d)
    ensures forall f :: f in Listing(d)[..k - 1] ==> f in d
    ensures ReadMatching(d, Listing(d)[..k], from)
            == ReadMatching(d, Listing(d)[..k - 1], from) + ReadOne(d, Listing(d)[k - 1], from)
  {
    assert forall f :: f in Listing(d)[..k] ==> f in Listing(d);
    assert Listing(d)[..k][..k - 1] == Listing(d)[..k - 1];
  }

  lemma {:induction false} ReadMatchingIs(d: Directory, k: nat, from: nat, hi: nat)
    requires WellFormed(d) && IdsBelow(d, hi) && hi <= ID_LIMIT
    requires k <= Depth(d)
    ensures forall f :: f in Listing(d)[..k] ==> f in d
    ensures ReadMatching(d, Listing(d)[..k], from) == ReplayList(Contents(d), from, FileBound(d, k, hi))
  {
    hide SeqFromFileName, FileName, IsQueueName, WellFormed, Contents, IdOf, LexOrder.Sorted, QueueNames;
    var c, bound := Contents(d), FileBound(d, k, hi);
    if k == 0 {
      forall id: nat | id < bound ensures id !in c {
        if id in c { NoIdBetween(d, 0, hi, id); }
      }
      ReplayListEmpty(c, from, bound);
    } else {
      ReadMatchingIs(d, k - 1, from, hi);
      ReadMatchingStep(d, k, from);
      ReadOneIs(d, Listing(d)[k - 1], from);
      FileBoundsIncrease(d, k, hi);
      forall id: nat | FileBound(d, k - 1, hi) < id < bound ensures id !in c {
        if id in c { NoIdBetween(d, k, hi, id); }
      }
      ReplayListExtend(c, from, FileBound(d, k - 1, hi), bound);
    }
  }

  lemma {:induction false} FileBoundsIncrease(d: Directory, k: nat, hi: nat)
    requires WellFormed(d) && IdsBelow(d, hi) && hi <= ID_LIMIT
    requires 0 < k <= Depth(d)
    ensures FileBound(d, k - 1, hi) < FileBound(d, k, hi)
    ensures FileBound(d, k - 1, hi) == IdOf(Listing(d)[k - 1])
  {
    hide SeqFromFileName, FileName, IsQueueName, IdOf, WellFormed, IdsBelow, LexOrder.Sorted, QueueNames;
    ListedBelow(d, k - 1, hi);
    BelowLimit(d, hi, ID_LIMIT);
    if k < Depth(d) {
      ListingInIdOrder(d, k - 1, k);
    }
  }

  /** `get_from(n)` returns exactly the stored messages with id at least n, in order of id. */
  lemma {:induction false} GetFromIsReplayList(d: Directory, from: nat, hi: nat)
    requires WellFormed(d) && IdsBelow(d, hi) && hi <= ID_LIMIT
    ensures GetFrom(d, from) == ReplayList(Contents(d), from, hi)
  {
    ReadMatchingIs(d, Depth(d), from, hi);
    assert Listing(d)[..Depth(d)] == Listing(d);
  }

  /** `remove_up_to(n)` removes exactly the stored messages with id at most n. */
  lemma {:induction false} RemoveUpToContents(d: Directory, n: nat)
    requires WellFormed(d)
    ensures WellFormed(RemoveUpTo(d, n))
    ensures Contents(RemoveUpTo(d, n)) == map id | id in Contents(d) && id > n :: Contents(d)[id]
  {
    var d' := RemoveUpTo(d, n);
    forall id: nat ensures id in Contents(d') <==> id in Contents(d) && id > n
      ensures id in Contents(d') ==> Contents(d')[id] == Contents(d)[id] {
      ContentsAt(d, id);
      ContentsAt(d', id);
      NameRoundTrip(id);
    }
  }

  /** The queue's depth is the number of stored messages. */
  lemma {:induction false} DepthIsSize(d: Directory)
    requires WellFormed(d)
    ensures Depth(d) == |Contents(d)|
  {
    var c := Contents(d);
    SameSize(QueueNames(d), c.Keys, d);
  }

  lemma {:induction false} SameSize(names: set<string>, ids: set<nat>, d: Directory)
    requires forall n :: n in names ==> IsQueueName(n) && SeqFromFileName(n).Some? && n == FileName(IdOf(n)) && IdOf(n) in ids
    requires forall id :: id in ids ==> FileName(id) in names
    ensures |names| == |ids|
    decreases |names|
  {
    if names == {} {
      assert forall id :: id in ids ==> FileName(id) in names;
      assert ids == {};
    } else {
      var n :| n in names;
      var id := IdOf(n);
      forall other | other in ids && other != id ensures FileName(other) != n {
        NameRoundTrip(other);
      }
      SameSize(names - {n}, ids - {id}, d);
      assert |names| == |names - {n}| + 1 && |ids| == |ids - {id}| + 1;
    }
  }

  ghost predicate IsOldest(c: map<nat, Message>, id: nat) {
    id in c && forall k :: k in c ==> id <= k
  }

  lemma {:induction false} OldestExists(c: map<nat, Message>)
    requires c != map[]
    ensures exists id: nat :: IsOldest(c, id)
    decreases |c|
  {
    var k :| k in c;
    MapSizes(c, k, c[k]);
    if c - {k} == map[] {
      assert forall i :: i in c ==> i == k || i in c - {k};
      assert IsOldest(c, k);
    } else {
      OldestExists(c - {k});
      var m: nat :| IsOldest(c - {k}, m);
      assert forall i :: i in c ==> i == k || i in c - {k};
      assert IsOldest(c, if m < k then m else k);
    }
  }

  ghost function OldestId(c: map<nat, Message>): (id: nat)
    requires c != map[]
    ensures IsOldest(c, id)
  {
    OldestExists(c);
    var id: nat :| IsOldest(c, id);
    id
  }

  lemma {:induction false} OldestIs(c: map<nat, Message>, id: nat)
    requires IsOldest(c, id)
    ensures OldestId(c) == id
  {
  }

  ghost predicate Overflows(c: map<nat, Message>, maxDepth: nat) {
    |c| >= maxDepth && c != map[]
  }

  /** A full queue gives up its oldest message; then the new one is filed under its id. */
  ghost function Insert(c: map<nat, Message>, msg: Message, maxDepth: nat): (c': map<nat, Message>) {
    if Overflows(c, maxDepth) then (c - {OldestId(c)})[msg.seqId := msg] else c[msg.seqId := msg]
  }

  /** Filing a message under its name is putting it into the map under its id. */
  lemma {:induction false} FiledContents(d: Directory, tmp: string, msg: Message)
    requires WellFormed(d) && !IsQueueName(tmp)
    ensures var d' := (d - {tmp})[FileName(msg.seqId) := Complete(msg)];
      WellFormed(d') && Contents(d') == Contents(d)[msg.seqId := msg]
  {
    var name := FileName(msg.seqId);
    var d' := (d - {tmp})[name := Complete(msg)];
    NameRoundTrip(msg.seqId);
    VisibleAfterWrite(d, tmp, name, Complete(msg));
    FiledVisible(d, d', name, msg);
  }

  lemma {:induction false} FiledVisible(d: Directory, d': Directory, name: string, msg: Message)
    requires WellFormed(d) && name == FileName(msg.seqId)
    requires Visible(d') == Visible(d)[name := Complete(msg)]
    ensures WellFormed(d') && Contents(d') == Contents(d)[msg.seqId := msg]
  {
    NameRoundTrip(msg.seqId);
    hide SeqFromFileName, FileName, IsQueueName;
    assert QueueNames(d') == Visible(d').Keys && QueueNames(d) == Visible(d).Keys;
    forall n | n in QueueNames(d') ensures d'[n] == if n == name then Complete(msg) else d[n] {
      assert d'[n] == Visible(d')[n];
    }
    forall id: nat
      ensures id in Contents(d') <==> id == msg.seqId || id in Contents(d)
      ensures id in Contents(d') ==> Contents(d')[id] == if id == msg.seqId then msg else Contents(d)[id]
    {
      ContentsAt(d, id);
      ContentsAt(d', id);
      NameRoundTrip(id);
    }
  }

  /** Unlinking a file is taking its id out of the map. */
  lemma {:induction false} UnlinkedContents(d: Directory, file: string)
    requires WellFormed(d) && file in QueueNames(d)
    ensures WellFormed(d - {file})
    ensures Contents(d - {file}) == Contents(d) - {IdOf(file)}
  {
    hide SeqFromFileName, FileName, IsQueueName;
    forall id: nat
      ensures id in Contents(d - {file}) <==> id != IdOf(file) && id in Contents(d)
      ensures id in Contents(d - {file}) ==> Contents(d - {file})[id] == Contents(d)[id]
    {
      ContentsAt(d, id);
      ContentsAt(d - {file}, id);
      NameRoundTrip(id);
    }
  }

  /** `enqueue` on the directory is the bounded insertion on the map. */
  lemma {:induction false} EnqueueRefines(d: Directory, msg: Message, maxDepth: nat)
    requires WellFormed(d) && IdsBelow(d, ID_LIMIT)
    ensures WellFormed(Enqueued(d, msg, maxDepth))
    ensures Contents(Enqueued(d, msg, maxDepth)) == Insert(Contents(d), msg, maxDepth)
  {
    hide IsQueueName, SeqFromFileName, FileName, TmpName, IdOf, WellFormed, Contents, IdsBelow, ApplyAll, AfterDrop, Enqueued,
         EnqueueOps, QueueNames;
    var d1 := AfterDrop(d, maxDepth);
    EnqueuedIs(d, msg, maxDepth);
    AfterDropIs(d, maxDepth);
    DepthIsSize(d);
    if Depth(d) >= maxDepth && Listing(d) != [] {
      assert Listing(d)[0] in QueueNames(d);
      OldestIsFirst(d);
      UnlinkedContents(d, Listing(d)[0]);
    }
    TmpNameHidden(msg.seqId);
    FiledContents(d1, TmpName(msg.seqId), msg);
    assert |Contents(d)| == 0 <==> Contents(d) == map[];
  }

  lemma {:induction false} OldestIsFirst(d: Directory)
    requires WellFormed(d) && IdsBelow(d, ID_LIMIT) && Listing(d) != []
    ensures IsOldest(Contents(d), IdOf(Listing(d)[0]))
  {
    var c := Contents(d);
    assert Listing(d)[0] in QueueNames(d);
    ContentsAt(d, IdOf(Listing(d)[0]));
    forall k | k in c ensures IdOf(Listing(d)[0]) <= k {
      ContentsAt(d, k);
      NameRoundTrip(k);
      assert FileName(k) in Listing(d);
      var j :| 0 <= j < Depth(d) && Listing(d)[j] == FileName(k);
      if j > 0 {
        ListingInIdOrder(d, 0, j);
      }
    }
  }

  // ---- Depth and overflow ----

  lemma {:induction false} MapSizes<V>(c: map<nat, V>, k: nat, v: V)
    ensures k in c ==> |c - {k}| == |c| - 1
    ensures |c[k := v]| == if k in c then |c| else |c| + 1
  {
    assert (c - {k}).Keys == c.Keys - {k};
    assert c[k := v].Keys == c.Keys + {k};
  }

  /** A queue within its bound stays within it, exactly when the bound is at least one: with
      max_depth 0 there is nothing to drop and the message is filed all the same. */
  lemma {:induction false} DepthStaysBounded(d: Directory, msg: Message, maxDepth: nat)
    requires WellFormed(d) && IdsBelow(d, ID_LIMIT)
    requires Depth(d) <= maxDepth
    ensures Depth(Enqueued(d, msg, maxDepth)) <= maxDepth <==> maxDepth >= 1
  {
    hide SeqFromFileName, FileName, IsQueueName, WellFormed, Contents, IdOf, LexOrder.Sorted, QueueNames, EnqueueOps, Enqueued;
    var c := Contents(d);
    EnqueueRefines(d, msg, maxDepth);
    DepthIsSize(d);
    DepthIsSize(Enqueued(d, msg, maxDepth));
    MapSizes(c, msg.seqId, msg);
    if Overflows(c, maxDepth) {
      MapSizes(c, OldestId(c), msg);
      MapSizes(c - {OldestId(c)}, msg.seqId, msg);
    } else {
      assert |c| == 0 <==> c == map[];
    }
  }

  function EnqueueAll(d: Directory, ms: seq<Message>, maxDepth: nat): (d': Directory) {
    if ms == [] then d else
      Enqueued(EnqueueAll(d, ms[..|ms| - 1], maxDepth), ms[|ms| - 1], maxDepth)
  }

  ghost function MapOf(ms: seq<Message>): (c: map<nat, Message>) {
    if ms == [] then map[] else
      MapOf(ms[..|ms| - 1])[ms[|ms| - 1].seqId := ms[|ms| - 1]]
  }

  lemma {:induction false} MapOfIs(ms: seq<Message>)
    requires IncreasingIds(ms)
    ensures forall id :: id in MapOf(ms) ==> ms != [] && ms[0].seqId <= id <= ms[|ms| - 1].seqId
    ensures ms != [] ==> ms[0].seqId in MapOf(ms)
    ensures |MapOf(ms)| == |ms|
  {
    if ms != [] {
      var front, last := ms[..|ms| - 1], ms[|ms| - 1];
      MapOfIs(front);
      MapSizes(MapOf(front), last.seqId, last);
    }
  }

  lemma {:induction false} MapOfTail(ms: seq<Message>)
    requires IncreasingIds(ms) && ms != []
    ensures MapOf(ms) - {ms[0].seqId} == MapOf(ms[1..])
  {
    var front, last := ms[..|ms| - 1], ms[|ms| - 1];
    if front == [] {
      assert MapOf(ms) == map[last.seqId := last];
    } else {
      MapOfTail(front);
      assert ms[1..][..|ms| - 2] == front[1..];
      assert MapOf(ms[1..]) == MapOf(front[1..])[last.seqId := last];
      assert MapOf(front)[last.seqId := last] - {ms[0].seqId} == (MapOf(front) - {ms[0].seqId})[last.seqId := last];
    }
  }

  lemma {:induction false} ReplayListFrame(c: map<nat, Message>, c': map<nat, Message>, lo: nat, hi: nat)
    requires forall id :: lo <= id < hi ==> (id in c <==> id in c') && (id in c ==> c[id] == c'[id])
    ensures ReplayList(c, lo, hi) == ReplayList(c', lo, hi)
    decreases hi - lo
  {
    if lo < hi {
      ReplayListFrame(c, c', lo + 1, hi);
    }
  }

  /** Adding a message above all stored ids adds it at the end of the list. */
  lemma {:induction false} ReplayListAppend(c: map<nat, Message>, last: Message, hi: nat)
    requires forall id :: id in c ==> id < last.seqId
    requires last.seqId < hi
    ensures ReplayList(c[last.seqId := last], 0, hi) == ReplayList(c, 0, last.seqId) + [last]
  {
    ReplayListFrame(c[last.seqId := last], c, 0, last.seqId);
    ReplayListExtend(c[last.seqId := last], 0, last.seqId, hi);
  }

  lemma {:induction false} ReplayListOfMap(ms: seq<Message>, hi: nat)
    requires IncreasingIds(ms)
    requires ms != [] ==> ms[|ms| - 1].seqId < hi
    ensures ReplayList(MapOf(ms), 0, hi) == ms
  {
    if ms == [] {
      ReplayListEmpty(MapOf(ms), 0, hi);
    } else {
      var front, last := ms[..|ms| - 1], ms[|ms| - 1];
      assert ms[0..|ms| - 1] == front;
      IncreasingPart(ms, 0, |front|);
      MapOfIs(front);
      assert front != [] ==> front[|front| - 1].seqId < last.seqId;
      hide IncreasingIds, ReplayList;
      ReplayListOfMap(front, last.seqId);
      ReplayListAppend(MapOf(front), last, hi);
    }
  }

  function KeptTail(ms: seq<Message>, maxDepth: nat): (r: seq<Message>) {
    if |ms| <= maxDepth then ms else ms[|ms| - maxDepth..]
  }

  lemma {:induction false} KeptTailStep(front: seq<Message>, last: Message, maxDepth: nat)
    requires maxDepth >= 1 && IncreasingIds(front + [last])
    ensures IncreasingIds(front)
    ensures Insert(MapOf(KeptTail(front, maxDepth)), last, maxDepth) == MapOf(KeptTail(front + [last], maxDepth))
  {
    hide MapOf, IncreasingIds, Insert;
    var ms, n, k := front + [last], |front|, |KeptTail(front, maxDepth)|;
    var kept := ms[n - k..n];
    IncreasingPart(ms, 0, n);
    IncreasingPart(ms, n - k, n);
    assert ms[0..n] == front;
    assert KeptTail(front, maxDepth) == kept;
    InsertAtEnd(kept, last, maxDepth);
    assert KeptTail(ms, maxDepth) == (if k == maxDepth then kept[1..] else kept) + [last];
  }

  lemma {:induction false} InsertAtEnd(kept: seq<Message>, last: Message, maxDepth: nat)
    requires IncreasingIds(kept) && |kept| <= maxDepth && maxDepth >= 1
    ensures Insert(MapOf(kept), last, maxDepth)
            == MapOf((if |kept| == maxDepth then kept[1..] else kept) + [last])
  {
    MapOfIs(kept);
    hide IncreasingIds;
    if |kept| == maxDepth {
      MapOfAppend(kept[1..], last);
      MapOfTail(kept);
      OldestIs(MapOf(kept), kept[0].seqId);
    } else {
      MapOfAppend(kept, last);
    }
  }

  lemma {:induction false} IncreasingPart(ms: seq<Message>, lo: nat, hi: nat)
    requires IncreasingIds(ms) && lo <= hi <= |ms|
    ensures IncreasingIds(ms[lo..hi])
  {
  }

  lemma {:induction false} MapOfAppend(ms: seq<Message>, last: Message)
    ensures MapOf(ms + [last]) == MapOf(ms)[last.seqId := last]
  {
    assert (ms + [last])[..|ms|] == ms;
  }

  lemma {:induction false} EnqueueAllContents(ms: seq<Message>, maxDepth: nat)
    requires IncreasingIds(ms) && maxDepth >= 1
    requires forall i :: 0 <= i < |ms| ==> ms[i].seqId < ID_LIMIT
    ensures var d := EnqueueAll(map[], ms, maxDepth);
      WellFormed(d) && IdsBelow(d, ID_LIMIT) && Contents(d) == MapOf(KeptTail(ms, maxDepth))
  {
    if ms == [] {
      assert Contents(map[]) == map[];
    } else {
      hide SeqFromFileName, FileName, IsQueueName, WellFormed, Contents, IdOf, LexOrder.Sorted, QueueNames, IdsBelow,
           EnqueueOps, Enqueued, Insert;
      var front, last := ms[..|ms| - 1], ms[|ms| - 1];
      assert ms == front + [last];
      KeptTailStep(front, last, maxDepth);
      EnqueueAllContents(front, maxDepth);
      var d := EnqueueAll(map[], front, maxDepth);
      EnqueueRefines(d, last, maxDepth);
      KeptTailIds(ms, maxDepth);
      ContentsBound(Enqueued(d, last, maxDepth), KeptTail(ms, maxDepth));
    }
  }

  lemma {:induction false} KeptTailIds(ms: seq<Message>, maxDepth: nat)
    requires IncreasingIds(ms)
    requires forall i :: 0 <= i < |ms| ==> ms[i].seqId < ID_LIMIT
    ensures IncreasingIds(KeptTail(ms, maxDepth))
    ensures forall i :: 0 <= i < |KeptTail(ms, maxDepth)| ==> KeptTail(ms, maxDepth)[i].seqId < ID_LIMIT
  {
  }

  lemma {:induction false} ContentsBound(d: Directory, ms: seq<Message>)
    requires WellFormed(d) && IncreasingIds(ms) && Contents(d) == MapOf(ms)
    requires forall i :: 0 <= i < |ms| ==> ms[i].seqId < ID_LIMIT
    ensures IdsBelow(d, ID_LIMIT)
  {
    MapOfIs(ms);
    forall n | n in QueueNames(d) ensures SeqFromFileName(n).value < ID_LIMIT {
      ContentsAt(d, IdOf(n));
    }
  }

  /** Overflow keeps the newest: after enqueuing any messages with increasing ids into an
      empty queue, a reader gets exactly the last min(count, max_depth) of them, in order. */
  lemma {:induction false} OverflowKeepsNewest(ms: seq<Message>, maxDepth: nat)
    requires IncreasingIds(ms) && maxDepth >= 1
    requires forall i :: 0 <= i < |ms| ==> ms[i].seqId < ID_LIMIT
    ensures GetFrom(EnqueueAll(map[], ms, maxDepth), 0) == KeptTail(ms, maxDepth)
  {
    hide SeqFromFileName, FileName, IsQueueName, WellFormed, Contents, IdOf, LexOrder.Sorted, QueueNames, IdsBelow, Enqueued;
    EnqueueAllContents(ms, maxDepth);
    GetFromIsReplayList(EnqueueAll(map[], ms, maxDepth), 0, ID_LIMIT);
    KeptTailIds(ms, maxDepth);
    ReplayListOfMap(KeptTail(ms, maxDepth), ID_LIMIT);
  }
}
