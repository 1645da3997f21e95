/** One point query to one committee member (resolveWithMember). */
module MemberClient {
  import opened Types

  /** What GetOffChainData hands back: the bytes it read and the error, if any. */
  datatype Reply = Reply(bytes: seq<byte>, err: Option<Error>)

  /** The members' endpoints, as an oracle from (endpoint URL, key) to a reply. */
  type Network = (string, Hash) -> Reply

  /** One call of resolveWithMember: the member that was asked and the key it was asked for. */
  datatype Query = Query(member: Member, key: Hash)

  /** The reply a client built on `member.url` gets. A client with no endpoint cannot
      send its request, so it fails with a transport error and reads no bytes. */
  function Fetch(net: Network, member: Member, key: Hash): Reply
  {
    if member.url == "" then Reply([], Some(External("unsupported protocol scheme")))
    else net(member.url, key)
  }

  /** resolveWithMember: ask one member for `key`. An empty reply is turned into a
      not-found error; otherwise any error of the call is returned as it is. */
  function ResolveWithMember(key: Hash, member: Member, net: Network): (r: Result<OffChainData>)
    ensures r.Success? <==> |Fetch(net, member, key).bytes| > 0 && Fetch(net, member, key).err.None?
    ensures r.Success? ==> r.value.key == key && r.value.value == Fetch(net, member, key).bytes
    ensures |Fetch(net, member, key).bytes| == 0 ==> r == Failure(DataNotFound)
  {
    var reply := Fetch(net, member, key);
    if |reply.bytes| == 0 then Failure(DataNotFound)
    else if reply.err.Some? then Failure(reply.err.value)
    else Success(OffChainData(key, reply.bytes))
  }

  /** The zero-valued member never resolves anything, whatever the network does. */
  lemma ZeroMemberFails(key: Hash, net: Network)
    ensures ResolveWithMember(key, ZeroMember, net) == Failure(DataNotFound)
  {
  }
}
