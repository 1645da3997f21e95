/** Values shared by every component of the batch synchronizer. */
module Types {

  /** One byte of a payload, a hash or an address. */
  newtype byte = x: int | 0 <= x < 0x100

  /** Go's uint64: block numbers. */
  newtype uint64 = x: int | 0 <= x < 0x1_0000_0000_0000_0000

  /** common.Hash: the 32-byte content key of one off-chain payload. */
  type Hash = h: seq<byte> | |h| == 32 witness seq(32, _ => 0)

  /** common.Address: the 20-byte on-chain identity of a committee member. */
  type Address = a: seq<byte> | |a| == 20 witness seq(20, _ => 0)

  /** The zero value of common.Address. */
  const ZeroAddress: Address := [0, 0, 0, 0, 0, 0, 0, 0, 0, 0, 0, 0, 0, 0, 0, 0, 0, 0, 0, 0]

  /** etherman.DataCommitteeMember: an address and the endpoint serving its data. */
  datatype Member = Member(addr: Address, url: string)

  /** The zero value of Member, which `make` puts in every slot of a fresh slice. */
  const ZeroMember: Member := Member(ZeroAddress, "")

  /** offchaindata.OffChainData: a payload under its content key. */
  datatype OffChainData = OffChainData(key: Hash, value: seq<byte>)

  /** The errors the core produces or passes on. */
  datatype Error =
    | NoDataForKey(key: Hash)   // not-found RPC error: no committee member had the key
    | DataNotFound              // not-found RPC error: a member answered with no bytes
    | External(cause: string)   // an error returned by the chain, a member's endpoint or the database

  datatype Option<T> = None | Some(value: T)

  datatype Result<T> = Success(value: T) | Failure(error: Error)
}
