// Durable checkpoints, in a file behind an in-memory cache or in Postgres.
module Checkpoints {
  import opened Prelude
  import opened Chain

  // The stored checkpoint is a ledger number; the batch that produced it is
  // kept beside it as history.
  datatype Mark = Mark(ledger: nat, batch: Batch)

  type Marks = map<string, Mark>

  datatype Store = FileStore(cache: Marks, disk: Marks) | PgStore(rows: Marks)

  // Whether a save was acknowledged, and if not whether it happened anyway.
  datatype SaveReply = Saved | NotSaved | SavedUnacked

  function Load(s: Store, contract: string): Option<Mark>
  {
    var m := if s.FileStore? then s.cache else s.rows;
    if contract in m then Some(m[contract]) else None
  }

  // GREATEST(stored, excluded)
  function Greatest(rows: Marks, contract: string, mark: Mark): Mark
  {
    if contract in rows && rows[contract].ledger > mark.ledger then rows[contract] else mark
  }

  // The file store updates its cache before it writes, whatever becomes of the
  // write; a successful write flushes the whole cache.
  function Save(s: Store, contract: string, mark: Mark, reply: SaveReply): Store
  {
    match s
    case FileStore(cache, disk) =>
      var cache' := cache[contract := mark];
      FileStore(cache', if reply == NotSaved then disk else cache')
    case PgStore(rows) =>
      if reply == NotSaved then s else PgStore(rows[contract := Greatest(rows, contract, mark)])
  }

  function Durable(s: Store): Marks
  {
    if s.FileStore? then s.disk else s.rows
  }

  // Everything a restart or a flush could still turn up.
  function Held(s: Store): Marks
  {
    if s.FileStore? then s.cache else s.rows
  }

  function Restarted(s: Store): Store
  {
    match s
    case FileStore(_, disk) => FileStore(disk, disk)
    case PgStore(_) => s
  }

  class FileCheckpointStore {
    var cache: Marks
    var disk: Marks

    ghost function View(): Store
      reads this
    {
      FileStore(cache, disk)
    }

    constructor (file: Marks)
      ensures View() == Restarted(FileStore(file, file)) && disk == file
    {
      cache, disk := file, file;
    }

    method LoadMark(contract: string) returns (r: Option<Mark>)
      ensures r == Load(View(), contract)
    {
      if contract in cache { r := Some(cache[contract]); } else { r := None; }
    }

    method SaveMark(contract: string, mark: Mark, reply: SaveReply) returns (ok: bool)
      modifies this
      ensures View() == Save(old(View()), contract, mark, reply) && ok == (reply == Saved)
    {
      cache := cache[contract := mark];
      if reply == NotSaved { return false; }
      disk := cache;
      return reply == Saved;
    }
  }

  // A failed write is not forgotten: the next save of any other contract makes
  // it durable.
  lemma FailedWriteIsFlushed(s: Store, a: string, b: string, ma: Mark, mb: Mark)
    requires s.FileStore? && a != b
    ensures Durable(Save(Save(s, a, ma, NotSaved), b, mb, Saved))[a] == ma
    ensures a !in Durable(s) ==> a !in Durable(Save(s, a, ma, NotSaved))
  {
  }

  // Postgres never lowers a checkpoint, whoever writes and however it ends.
  lemma PostgresMonotone(s: Store, contract: string, mark: Mark, reply: SaveReply, c: string)
    requires s.PgStore? && c in Durable(s)
    ensures c in Durable(Save(s, contract, mark, reply))
    ensures Durable(Save(s, contract, mark, reply))[c].ledger >= Durable(s)[c].ledger
  {
  }

  // What a save leaves on disk: nothing new when it was not written, and
  // otherwise this checkpoint, or in Postgres the larger of the two.
  lemma SaveLeaves(s: Store, contract: string, mark: Mark, reply: SaveReply)
    ensures reply == NotSaved ==> Durable(Save(s, contract, mark, reply)) == Durable(s)
    ensures reply != NotSaved ==>
      var saved := Durable(Save(s, contract, mark, reply));
      && contract in saved
      && (s.FileStore? ==> saved[contract] == mark)
      && (s.PgStore? ==> saved[contract].ledger >= mark.ledger)
      && (s.PgStore? && contract in Durable(s) && Durable(s)[contract].ledger > mark.ledger ==> saved[contract] == Durable(s)[contract])
  {
  }
}
