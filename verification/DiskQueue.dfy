/** The disk queue object: a directory of message files behind enqueue, replay and purge. */
module DiskQueues {
  import opened Wrappers
  import opened QueueDirectory
  import FileNames
  import LexOrder

  /** What a caller hands to enqueue: a dictionary with or without the 'seq_id' key. */
  datatype Submission = Keyed(msg: Message) | Unkeyed

  datatype QueueError = MissingSeqId

  class DiskQueue {
    var files: Directory   // the queue directory, which outlives the object
    const maxDepth: nat

    /** Opening a queue takes the directory as it is. */
    constructor (files: Directory, maxDepth: nat)
      ensures this.files == files && this.maxDepth == maxDepth
    {
      this.files := files;
      this.maxDepth := maxDepth;
    }

    /** `trace` holds the directory after every file-system operation, the initial one first:
        the states a crash can leave behind. */
    method Enqueue(submission: Submission) returns (r: Result<(), QueueError>, ghost trace: seq<Directory>)
      modifies this`files
      ensures r.Failure? <==> submission.Unkeyed?
      ensures r.Failure? ==> files == old(files)
      ensures r.Success? ==> files == Enqueued(old(files), submission.msg, maxDepth)
      ensures r.Success? ==> IsRun(old(files), EnqueueOps(old(files), submission.msg, maxDepth), trace)
    {
      trace := [files];
      if submission.Unkeyed? {
        return Failure(MissingSeqId), trace;
      }
      var msg := submission.msg;
      var tmp, final := FileNames.TmpName(msg.seqId), FileNames.FileName(msg.seqId);
      hide FileNames.FileName, FileNames.TmpName, FileNames.IsQueueName, LexOrder.Sorted, ApplyAll, IsRun, Enqueued, EnqueueOps;

      var listing := Listing(files);
      if |listing| >= maxDepth && listing != [] {
        files := files - {listing[0]};
        trace := trace + [files];
      }
      ghost var kept := files;
      files := files[tmp := Torn];
      trace := trace + [files];
      files := files[tmp := Complete(msg)];
      trace := trace + [files];
      files := (files - {tmp})[final := files[tmp]];
      trace := trace + [files];

      EnqueueIsRun(old(files), msg, maxDepth, kept, trace);
      r := Success(());
    }

    method GetFrom(seqId: nat) returns (results: seq<Message>)
      ensures results == QueueDirectory.GetFrom(files, seqId)
    {
      hide FileNames.IsQueueName, FileNames.SeqFromFileName, LexOrder.Sorted, LexOrder.Ascending;
      var listing := Listing(files);
      results := [];
      assert forall f :: f in listing ==> f in QueueNames(files);
      for i := 0 to |listing|
        invariant forall f :: f in listing[..i] ==> f in files
        invariant results == ReadMatching(files, listing[..i], seqId)
      {
        var fileSeq := FileNames.SeqFromFileName(listing[i]);
        assert listing[..i + 1][..i] == listing[..i];
        assert listing[i] in QueueNames(files);
        if fileSeq.Some? && fileSeq.value >= seqId {
          if files[listing[i]].Complete? {
            results := results + [files[listing[i]].msg];
          }
        }
      }
      assert listing[..|listing|] == listing;
    }

    method RemoveUpTo(seqId: nat) returns (removed: nat)
      modifies this`files
      ensures files == QueueDirectory.RemoveUpTo(old(files), seqId)
      ensures removed == |set n | n in QueueNames(old(files)) && NamedUpTo(n, seqId)|
    {
      hide NamedUpTo, FileNames.IsQueueName, LexOrder.Sorted, PurgedNames;
      var listing := Listing(files);
      ghost var before := files;
      NothingPurged(seqId);
      removed := 0;
      for i := 0 to |listing|
        invariant files == before - PurgedNames(listing[..i], seqId)
        invariant removed == |PurgedNames(listing[..i], seqId)|
      {
        PurgedStep(listing, i, seqId);
        if NamedUpTo(listing[i], seqId) {
          files := files - {listing[i]};
          removed := removed + 1;
        }
      }
      assert listing[..|listing|] == listing;
      AllPurged(before, seqId);
    }

    method CountFiles() returns (n: nat)
      ensures n == Depth(files)
    {
      n := |Listing(files)|;
    }

    method IsEmpty() returns (b: bool)
      ensures b <==> QueueNames(files) == {}
    {
      var n := CountFiles();
      b := n == 0;
    }

    /** The file that sorts first, if it can be read. */
    method Peek() returns (msg: Option<Message>)
      ensures QueueNames(files) == {} ==> msg == None
      ensures QueueNames(files) != {} ==>
        var first := LexOrder.Least(QueueNames(files));
        msg == if files[first].Complete? then Some(files[first].msg) else None
    {
      var listing := Listing(files);
      if listing == [] {
        return None;
      }
      assert listing[0] in QueueNames(files);
      msg := if files[listing[0]].Complete? then Some(files[listing[0]].msg) else None;
    }
  }

  /** `trace` lists the directory after each prefix of the operations. */
  ghost predicate IsRun(d: Directory, ops: seq<FsOp>, trace: seq<Directory>) {
    |trace| == |ops| + 1 && forall k :: 0 <= k <= |ops| ==> trace[k] == ApplyAll(d, ops[..k])
  }

  lemma {:induction false} StepsAreRun(d: Directory, ops: seq<FsOp>, trace: seq<Directory>)
    requires |trace| == |ops| + 1 && trace[0] == d
    requires forall k :: 0 <= k < |ops| ==> trace[k + 1] == Apply(trace[k], ops[k])
    ensures IsRun(d, ops, trace)
  {
    if ops != [] {
      var front := ops[..|ops| - 1];
      StepsAreRun(d, front, trace[..|ops|]);
      forall k | 0 <= k <= |ops| ensures trace[k] == ApplyAll(d, ops[..k]) {
        if k < |ops| {
          assert ops[..k] == front[..k];
          assert trace[k] == trace[..|ops|][k];
        } else {
          assert front == front[..|front|] && ops[..k] == ops;
          assert trace[k - 1] == trace[..|ops|][k - 1];
        }
      }
    }
  }

  lemma {:induction false} EnqueueIsRun(d: Directory, msg: Message, maxDepth: nat, kept: Directory, trace: seq<Directory>)
    requires var full, tmp := Depth(d) >= maxDepth && Listing(d) != [], FileNames.TmpName(msg.seqId);
      && kept == (if full then d - {Listing(d)[0]} else d)
      && trace == [d] + (if full then [kept] else []) +
           [kept[tmp := Torn], kept[tmp := Torn][tmp := Complete(msg)],
            (kept[tmp := Torn][tmp := Complete(msg)] - {tmp})[FileNames.FileName(msg.seqId) := Complete(msg)]]
    ensures IsRun(d, EnqueueOps(d, msg, maxDepth), trace)
    ensures trace[|trace| - 1] == Enqueued(d, msg, maxDepth)
  {
    hide FileNames.FileName, FileNames.TmpName, FileNames.IsQueueName, LexOrder.Sorted;
    var ops := EnqueueOps(d, msg, maxDepth);
    var n := |DropOps(d, maxDepth)|;
    assert trace[n] == kept && trace[n + 1] == Apply(trace[n], ops[n]);
    assert trace[n + 2] == Apply(trace[n + 1], ops[n + 1]);
    assert trace[n + 3] == Apply(trace[n + 2], ops[n + 2]);
    assert n == 1 ==> trace[1] == Apply(trace[0], ops[0]);
    StepsAreRun(d, ops, trace);
    assert ops[..|ops|] == ops;
  }

  ghost function PurgedNames(files: seq<string>, seqId: nat): set<string> {
    set n | n in files && NamedUpTo(n, seqId)
  }

  lemma {:induction false} NothingPurged(seqId: nat)
    ensures PurgedNames([], seqId) == {}
  {
  }

  lemma {:induction false} AllPurged(d: Directory, seqId: nat)
    ensures PurgedNames(Listing(d), seqId) == set n | n in QueueNames(d) && NamedUpTo(n, seqId)
  {
  }

  lemma {:induction false} PurgedStep(listing: seq<string>, i: nat, seqId: nat)
    requires LexOrder.Ascending(listing) && i < |listing|
    ensures listing[i] !in PurgedNames(listing[..i], seqId)
    ensures PurgedNames(listing[..i + 1], seqId)
            == PurgedNames(listing[..i], seqId) + if NamedUpTo(listing[i], seqId) then {listing[i]} else {}
  {
    assert listing[..i + 1] == listing[..i] + [listing[i]];
    if listing[i] in listing[..i] {
      var j :| 0 <= j < i && listing[j] == listing[i];
      LexOrder.Asymmetric(listing[j], listing[i]);
    }
  }
}
