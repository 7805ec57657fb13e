// The durable queue of events that exhausted their retries.
module DeadLetters {
  import opened Chain

  // One line of the file.
  datatype Record = Record(contract: string, eventId: string)

  function RecordOf(e: Event): Record
  {
    Record(e.contract, e.id)
  }

  // format!("{contract_id}:{event_id}")
  function Key(r: Record): string
  {
    r.contract + ":" + r.eventId
  }

  // The file and the set of keys this process believes to be in it.
  datatype Queue = Queue(file: seq<Record>, recorded: set<string>)

  // How an append ends: written and synced, failed before anything was
  // written, or written although an error was reported (a failed sync).
  datatype AppendReply = Appended | NotAppended | AppendedUnsynced

  datatype PushResult = Recorded | AlreadyRecorded | PushFailed

  function KeysOf(file: seq<Record>): set<string>
  {
    set r | r in file :: Key(r)
  }

  function Pushed(q: Queue, r: Record, reply: AppendReply): Queue
  {
    if Key(r) in q.recorded then q
    else
      match reply
      case Appended => Queue(q.file + [r], q.recorded + {Key(r)})
      case NotAppended => q
      case AppendedUnsynced => Queue(q.file + [r], q.recorded)
  }

  function Reopened(file: seq<Record>): Queue
  {
    Queue(file, KeysOf(file))
  }

  // No key twice in the file.
  ghost predicate Distinct(file: seq<Record>)
  {
    forall i, j :: 0 <= i < j < |file| ==> Key(file[i]) != Key(file[j])
  }

  ghost predicate Consistent(q: Queue)
  {
    q.recorded == KeysOf(q.file) && Distinct(q.file)
  }

  class DeadLetterQueue {
    var file: seq<Record>
    var recorded: set<string>

    ghost function View(): Queue
      reads this
    {
      Queue(file, recorded)
    }

    // Reads back every line left by earlier processes.
    constructor Open(lines: seq<Record>)
      ensures View() == Reopened(lines)
    {
      var keys := {};
      for i := 0 to |lines|
        invariant keys == KeysOf(lines[..i])
      {
        assert lines[..i + 1] == lines[..i] + [lines[i]];
        KeysAppend(lines[..i], lines[i]);
        keys := keys + {Key(lines[i])};
      }
      assert lines[..|lines|] == lines;
      file, recorded := lines, keys;
    }

    method Push(e: Event, reply: AppendReply) returns (result: PushResult)
      modifies this
      ensures View() == Pushed(old(View()), RecordOf(e), reply)
      ensures result == AlreadyRecorded <==> Key(RecordOf(e)) in old(recorded)
      ensures result == Recorded <==> Key(RecordOf(e)) !in old(recorded) && reply == Appended
    {
      var record := RecordOf(e);
      var key := Key(record);
      if key in recorded { return AlreadyRecorded; }
      if reply == NotAppended { return PushFailed; }
      file := file + [record];
      if reply == AppendedUnsynced { return PushFailed; }
      recorded := recorded + {key};
      return Recorded;
    }
  }

  lemma KeysAppend(file: seq<Record>, r: Record)
    ensures KeysOf(file + [r]) == KeysOf(file) + {Key(r)}
  {
    assert forall x :: x in file + [r] <==> x in file || x == r;
    assert r in file + [r];
  }

  // A push keeps the queue consistent exactly when it does not write a new
  // record and then report an error.
  lemma PushKeepsConsistent(q: Queue, r: Record, reply: AppendReply)
    requires Consistent(q)
    ensures Consistent(Pushed(q, r, reply)) <==> (reply == AppendedUnsynced ==> Key(r) in q.recorded)
    ensures Distinct(Pushed(q, r, reply).file)
  {
    KeysAppend(q.file, r);
    forall i | 0 <= i < |q.file| ensures Key(q.file[i]) in KeysOf(q.file) { assert q.file[i] in q.file; }
  }

  // Two pushes onto a consistent queue leave a key twice in the file if and only
  // if they are for the same unrecorded key, the first was written but reported
  // as failed, and the second is written as well.
  lemma TwoPushesDuplicate(q: Queue, r1: Record, reply1: AppendReply, r2: Record, reply2: AppendReply)
    requires Consistent(q)
    ensures !Distinct(Pushed(Pushed(q, r1, reply1), r2, reply2).file)
      <==> Key(r1) == Key(r2) && Key(r1) !in q.recorded && reply1 == AppendedUnsynced && reply2 != NotAppended
  {
    var q1 := Pushed(q, r1, reply1);
    PushKeepsConsistent(q, r1, reply1);
    if Consistent(q1) {
      PushKeepsConsistent(q1, r2, reply2);
    } else {
      assert q1 == Queue(q.file + [r1], q.recorded) && Key(r1) !in q.recorded;
      SecondPush(q, r1, r2, reply2);
    }
  }

  lemma SecondPush(q: Queue, r1: Record, r2: Record, reply2: AppendReply)
    requires Consistent(q) && Key(r1) !in q.recorded && Distinct(q.file + [r1])
    ensures !Distinct(Pushed(Queue(q.file + [r1], q.recorded), r2, reply2).file) <==> Key(r1) == Key(r2) && reply2 != NotAppended
  {
    var file := q.file + [r1];
    if Key(r2) !in q.recorded && reply2 != NotAppended {
      var file' := file + [r2];
      if Key(r1) == Key(r2) {
        assert file'[|q.file|] == r1 && file'[|file|] == r2;
      } else {
        forall i | 0 <= i < |file| ensures Key(file'[i]) != Key(r2) {
          if i < |q.file| { assert file'[i] in q.file && Key(file'[i]) in KeysOf(q.file); }
        }
        assert forall i :: 0 <= i < |file| ==> file'[i] == file[i];
      }
    }
  }

  // Restarting re-reads the file, which repairs the in-memory set but not the file.
  lemma ReopenConsistent(file: seq<Record>)
    ensures Consistent(Reopened(file)) <==> Distinct(file)
  {
  }

  // An append whose sync fails is not remembered, so the next attempt at the
  // same event writes it again.
  lemma UnsyncedDuplicates(r: Record)
    ensures
      var q := Pushed(Pushed(Reopened([]), r, AppendedUnsynced), r, Appended);
      q.file == [r, r] && !Distinct(q.file)
  {
    var q := Pushed(Pushed(Reopened([]), r, AppendedUnsynced), r, Appended);
    assert q.file == [r, r];
    assert Key(q.file[0]) == Key(q.file[1]);
  }

  // One run of the queue: pushes and restarts in any order.
  datatype Operation = PushOp(record: Record, reply: AppendReply) | RestartOp

  function RunQueue(q: Queue, ops: seq<Operation>): Queue
    decreases |ops|
  {
    if ops == [] then q
    else
      var q' := RunQueue(q, ops[..|ops| - 1]);
      match ops[|ops| - 1]
      case PushOp(r, reply) => Pushed(q', r, reply)
      case RestartOp => Reopened(q'.file)
  }

  // Over any run without a failed sync the file never holds a key twice and the
  // in-memory set is exactly the keys of the file.
  lemma {:induction false} QueueStaysConsistent(ops: seq<Operation>)
    requires forall i :: 0 <= i < |ops| && ops[i].PushOp? ==> ops[i].reply != AppendedUnsynced
    ensures Consistent(RunQueue(Reopened([]), ops))
  {
    if ops != [] {
      var ops', last := ops[..|ops| - 1], ops[|ops| - 1];
      QueueStaysConsistent(ops');
      if last.PushOp? { PushKeepsConsistent(RunQueue(Reopened([]), ops'), last.record, last.reply); }
    }
  }

  // ---- What the key identifies ----

  ghost predicate ColonFree(s: string)
  {
    forall i :: 0 <= i < |s| ==> s[i] != ':'
  }

  // Events of colon-free contracts have the same key only if they are the same
  // event of the same contract.
  lemma KeyIdentifies(e: Event, f: Event)
    requires ColonFree(e.contract) && ColonFree(f.contract)
    ensures Key(RecordOf(e)) == Key(RecordOf(f)) <==> e.contract == f.contract && e.id == f.id
  {
    var a, b := Key(RecordOf(e)), Key(RecordOf(f));
    if a == b {
      assert a[|e.contract|] == ':' && b[|f.contract|] == ':';
      assert |e.contract| == |f.contract|;
      assert e.contract == a[..|e.contract|] == b[..|f.contract|] == f.contract;
      assert e.id == a[|e.contract| + 1..] == b[|f.contract| + 1..] == f.id;
    }
  }

  // With colons in contracts they can collide.
  lemma ColonsCollide()
    ensures Key(Record("a", "b:c")) == Key(Record("a:b", "c"))
  {
    assert "a" + ":" + "b:c" == "a:b" + ":" + "c";
  }

  // A push only ever adds to the file, and one that is reported as recorded has
  // its key there.
  lemma PushRecords(q: Queue, r: Record, reply: AppendReply)
    requires q.recorded <= KeysOf(q.file)
    ensures q.file <= Pushed(q, r, reply).file && Pushed(q, r, reply).recorded <= KeysOf(Pushed(q, r, reply).file)
    ensures Key(r) in q.recorded || reply == Appended ==> Key(r) in KeysOf(Pushed(q, r, reply).file)
    ensures reply == AppendedUnsynced ==> Key(r) in KeysOf(Pushed(q, r, reply).file)
  {
    KeysAppend(q.file, r);
  }
}
