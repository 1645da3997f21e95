/** Where the synchronizer resumes, and what one "sequence batches" event asks for. */
module Events {
  import opened Types

  /** getStartBlock: resume from the block before the last processed one, because that
      block may have been only partly handled; the read error, if any, is passed on. */
  function StartBlock(last: uint64, readErr: Option<Error>): (r: (uint64, Option<Error>))
    ensures r.1 == readErr
    ensures r.0 <= last
    ensures last as int <= r.0 as int + 1
    ensures last > 0 ==> r.0 < last
  {
    if last > 0 then (last - 1, readErr) else (last, readErr)
  }

  /** Once block `last` is the progress marker, resuming from StartBlock(last) replays
      it and every later block: nothing after the marker is skipped. */
  lemma ResumeReplaysFrom(last: uint64, readErr: Option<Error>, block: uint64)
    requires block >= last
    ensures StartBlock(last, readErr).0 <= block
  {
  }

  /** supernets2.Supernets2BatchData; only the field the synchronizer reads is kept. */
  datatype BatchData = BatchData(transactionsHash: Hash)

  /** The log an event was read from: its block and its data. */
  datatype Log = Log(blockNumber: uint64, data: seq<byte>)

  /** supernets2.Supernets2SequenceBatches, as far as the synchronizer looks at it. */
  datatype SequenceBatchesEvent = SequenceBatchesEvent(raw: Log)

  /** The ABI decoding of parseEvent: from a 4-byte method selector and the packed
      arguments to the list of batches, or an error. */
  type Decoder = (seq<byte>, seq<byte>) -> Result<seq<BatchData>>

  /** The block of an event and the content keys it references. */
  datatype ParsedEvent = ParsedEvent(block: uint64, keys: seq<Hash>)

  /** The content keys of a batch list: each batch's transactions hash, in batch order. */
  function TransactionHashes(batches: seq<BatchData>): (keys: seq<Hash>)
    ensures |keys| == |batches|
    ensures forall i :: 0 <= i < |batches| ==> keys[i] == batches[i].transactionsHash
  {
    seq(|batches|, i requires 0 <= i < |batches| => batches[i].transactionsHash)
  }

  /** The batches an event's data decodes to. */
  function Decode(event: SequenceBatchesEvent, decode: Decoder): Result<seq<BatchData>>
    requires |event.raw.data| >= 4
  {
    decode(event.raw.data[..4], event.raw.data[4..])
  }

  /** parseEvent: decode the event and collect one key per batch. A decoding error is
      returned as it is, with no keys. */
  method ParseEvent(event: SequenceBatchesEvent, decode: Decoder) returns (r: Result<ParsedEvent>)
    requires |event.raw.data| >= 4
    ensures Decode(event, decode).Failure? ==> r == Failure(Decode(event, decode).error)
    ensures Decode(event, decode).Success? ==> r.Success?
    ensures r.Success? ==> r.value.block == event.raw.blockNumber
    ensures r.Success? ==> |r.value.keys| == |Decode(event, decode).value|
    ensures r.Success? ==> forall i :: 0 <= i < |r.value.keys| ==>
      r.value.keys[i] == Decode(event, decode).value[i].transactionsHash
  {
    var decoded := decode(event.raw.data[..4], event.raw.data[4..]);
    if decoded.Failure? {
      return Failure(decoded.error);
    }
    var batches := decoded.value;
    var keys: seq<Hash> := [];
    for i := 0 to |batches|
      invariant |keys| == i
      invariant forall j :: 0 <= j < i ==> keys[j] == batches[j].transactionsHash
    {
      keys := keys + [batches[i].transactionsHash];
    }
    r := Success(ParsedEvent(event.raw.blockNumber, keys));
  }
}
