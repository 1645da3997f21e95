/** The database the synchronizer stores payloads and its progress marker in. */
module Storage {
  import opened Types

  /** The payload table: content key to bytes. */
  type Payloads = map<Hash, seq<byte>>

  /** The keys of a list of payloads. */
  function KeysOf(data: seq<OffChainData>): set<Hash>
  {
    set d | d in data :: d.key
  }

  /** Writing `data` into the payload table one row after the other; a row whose key
      is already present is left as it is, so a stored payload never changes. */
  function InsertAll(m: Payloads, data: seq<OffChainData>): (r: Payloads)
    ensures r.Keys == m.Keys + KeysOf(data)
    ensures forall k :: k in m ==> r[k] == m[k]
    ensures forall k :: k in r && k !in m ==> OffChainData(k, r[k]) in data
    decreases |data|
  {
    if data == [] then m
    else
      var d := data[0];
      assert data == [d] + data[1..];
      assert KeysOf(data) == {d.key} + KeysOf(data[1..]);
      InsertAll(if d.key in m then m else m[d.key := d.value], data[1..])
  }

  /** Writing the same payloads twice leaves the table as writing them once: a block
      replayed after a failure stores nothing new. */
  lemma {:induction false} InsertAllIdempotent(m: Payloads, data: seq<OffChainData>)
    ensures InsertAll(InsertAll(m, data), data) == InsertAll(m, data)
  {
    var once := InsertAll(m, data);
    InsertAllStored(once, data);
  }

  /** Payloads whose keys are all stored already change nothing. */
  lemma {:induction false} InsertAllStored(m: Payloads, data: seq<OffChainData>)
    requires KeysOf(data) <= m.Keys
    ensures InsertAll(m, data) == m
    decreases |data|
  {
    if data != [] {
      assert data[0] in data;
      assert KeysOf(data[1..]) <= KeysOf(data) by {
        forall k | k in KeysOf(data[1..]) ensures k in KeysOf(data) {
          var d :| d in data[1..] && d.key == k;
          assert d in data;
        }
      }
      InsertAllStored(m, data[1..]);
    }
  }

  /** The state an open transaction would make durable on commit. */
  datatype Pending = Pending(payloads: Payloads, lastProcessedBlock: uint64)

  /** Failure points of one store call: the error, if any, each step returns. */
  datatype Faults = Faults(begin: Option<Error>, storeData: Option<Error>,
                           storeBlock: Option<Error>, commit: Option<Error>)

  /** The error a store call with these faults ends with: that of the first step that fails. */
  function FirstFault(f: Faults): (err: Option<Error>)
    ensures err.None? <==> f == Faults(None, None, None, None)
    ensures err.Some? ==> err == f.begin || err == f.storeData || err == f.storeBlock || err == f.commit
    ensures f.begin.Some? ==> err == f.begin
  {
    if f.begin.Some? then f.begin
    else if f.storeData.Some? then f.storeData
    else if f.storeBlock.Some? then f.storeBlock
    else f.commit
  }

  /** db.DB: the durable payload table and sync record, and the transaction open on them. */
  class Database {
    var payloads: Payloads
    var lastProcessedBlock: uint64
    var tx: Option<Pending>

    constructor ()
      ensures payloads == map[] && lastProcessedBlock == 0 && tx == None
    {
      payloads := map[];
      lastProcessedBlock := 0;
      tx := None;
    }

    /** Exists: whether a payload is stored under `key`. */
    predicate Exists(key: Hash)
      reads this
    {
      key in payloads
    }

    /** BeginStateTransaction: open a transaction that starts from the durable state. */
    method BeginStateTransaction(fault: Option<Error>) returns (err: Option<Error>)
      requires tx.None?
      modifies this`tx
      ensures err == fault
      ensures tx == if fault.None? then Some(Pending(payloads, lastProcessedBlock)) else None
    {
      err := fault;
      if fault.None? {
        tx := Some(Pending(payloads, lastProcessedBlock));
      }
    }

    /** StoreOffChainData: write the payloads inside the open transaction. When it
        fails the transaction stays open and what it holds is not to be relied on. */
    method StoreOffChainData(data: seq<OffChainData>, fault: Option<Error>) returns (err: Option<Error>)
      requires tx.Some?
      modifies this`tx
      ensures err == fault && tx.Some?
      ensures fault.None? ==> tx == Some(old(tx.value).(payloads := InsertAll(old(tx.value.payloads), data)))
    {
      err := fault;
      if fault.None? {
        tx := Some(tx.value.(payloads := InsertAll(tx.value.payloads, data)));
      }
    }

    /** StoreLastProcessedBlock: record `block` as the progress marker inside the open transaction. */
    method StoreLastProcessedBlock(block: uint64, fault: Option<Error>) returns (err: Option<Error>)
      requires tx.Some?
      modifies this`tx
      ensures err == fault && tx.Some?
      ensures fault.None? ==> tx == Some(old(tx.value).(lastProcessedBlock := block))
    {
      err := fault;
      if fault.None? {
        tx := Some(tx.value.(lastProcessedBlock := block));
      }
    }

    /** Commit: make the open transaction durable. A failed commit makes nothing durable. */
    method Commit(fault: Option<Error>) returns (err: Option<Error>)
      requires tx.Some?
      modifies this
      ensures err == fault && tx.None?
      ensures fault.None? ==> payloads == old(tx.value.payloads)
      ensures fault.None? ==> lastProcessedBlock == old(tx.value.lastProcessedBlock)
      ensures fault.Some? ==> payloads == old(payloads) && lastProcessedBlock == old(lastProcessedBlock)
    {
      err := fault;
      if fault.None? {
        payloads := tx.value.payloads;
        lastProcessedBlock := tx.value.lastProcessedBlock;
      }
      tx := None;
    }

    /** Rollback: drop the open transaction; the durable state is the one it started from. */
    method Rollback()
      modifies this`tx
      ensures tx.None?
    {
      tx := None;
    }
  }
}
