/** The committee cache and the order in which `resolve` visits it. */
module Committee {
  import opened Types
  import opened MemberClient

  /** The map resolveCommittee builds from the chain's member list: every member
      except `self`, keyed by address; a later entry for an address replaces an earlier one. */
  function CommitteeOf(members: seq<Member>, self: Address): (c: map<Address, Member>)
    ensures self !in c
    ensures forall a :: a in c ==> c[a].addr == a && c[a] in members
    ensures forall m :: m in members && m.addr != self ==> m.addr in c
    decreases |members|
  {
    if members == [] then map[]
    else
      var earlier := CommitteeOf(members[..|members| - 1], self);
      var last := members[|members| - 1];
      if last.addr != self then earlier[last.addr := last] else earlier
  }

  /** Adding one more listed member to the rebuilt cache: it replaces any earlier
      entry for its address, unless it is `self`. */
  lemma CommitteeOfExtend(members: seq<Member>, i: nat, self: Address)
    requires i < |members|
    ensures CommitteeOf(members[..i + 1], self) ==
      var prev := CommitteeOf(members[..i], self);
      if members[i].addr != self then prev[members[i].addr := members[i]] else prev
  {
    assert members[..i + 1][..i] == members[..i];
  }

  /** No entry after index `i` has the address of `members[i]`. */
  ghost predicate LastWithAddr(members: seq<Member>, i: nat)
    requires i < |members|
  {
    forall j :: i < j < |members| ==> members[j].addr != members[i].addr
  }

  lemma LastWithAddrPrefix(members: seq<Member>, i: nat)
    requires i < |members| - 1 && LastWithAddr(members, i)
    ensures LastWithAddr(members[..|members| - 1], i)
  {
    var prefix := members[..|members| - 1];
    forall j | i < j < |prefix| ensures prefix[j].addr != prefix[i].addr {
      assert prefix[j] == members[j];
    }
  }

  /** The rebuilt cache is decided last by the last listed member. */
  lemma CommitteeOfLast(members: seq<Member>, self: Address)
    requires members != []
    ensures CommitteeOf(members, self) ==
      var earlier := CommitteeOf(members[..|members| - 1], self);
      var last := members[|members| - 1];
      if last.addr != self then earlier[last.addr := last] else earlier
  {
  }

  /** The last listed member for an address is the one the committee keeps. */
  lemma {:induction false} CommitteeOfLastWins(members: seq<Member>, self: Address, i: nat)
    requires i < |members| && members[i].addr != self && LastWithAddr(members, i)
    ensures members[i].addr in CommitteeOf(members, self)
    ensures CommitteeOf(members, self)[members[i].addr] == members[i]
    decreases |members|
  {
    var n := |members|;
    var prefix := members[..n - 1];
    var last := members[n - 1];
    var a := members[i].addr;
    CommitteeOfLast(members, self);
    if i < n - 1 {
      assert prefix[i] == members[i];
      LastWithAddrPrefix(members, i);
      CommitteeOfLastWins(prefix, self, i);
      assert last.addr != a;
    }
  }

  /** The addresses of the members of `s`. */
  function AddrsOf(s: seq<Member>): set<Address>
  {
    set m | m in s :: m.addr
  }

  lemma AddrsOfPrepend(m: Member, s: seq<Member>)
    ensures AddrsOf([m] + s) == {m.addr} + AddrsOf(s)
  {
    assert forall x :: x in [m] + s <==> x == m || x in s;
  }

  lemma AddrsOfAppend(s: seq<Member>, m: Member)
    ensures AddrsOf(s + [m]) == AddrsOf(s) + {m.addr}
  {
    assert forall x :: x in s + [m] <==> x in s || x == m;
  }

  /** `s` lists the committee's entries, each once. */
  ghost predicate Enumerates(s: seq<Member>, c: map<Address, Member>)
  {
    && |s| == |c|
    && (forall i :: 0 <= i < |s| ==> s[i].addr in c && c[s[i].addr] == s[i])
    && c.Keys <= AddrsOf(s)
  }

  /** `s` lists, each once, the entries of `c` under the addresses in `done`. */
  ghost predicate EnumeratesPart(s: seq<Member>, c: map<Address, Member>, done: set<Address>)
  {
    && done <= c.Keys
    && |s| == |done|
    && (forall i :: 0 <= i < |s| ==> s[i].addr in done && c[s[i].addr] == s[i])
    && done <= AddrsOf(s)
  }

  lemma EnumeratesPartExtend(s: seq<Member>, c: map<Address, Member>, done: set<Address>, a: Address)
    requires EnumeratesPart(s, c, done) && a in c && a !in done && c[a].addr == a
    ensures EnumeratesPart(s + [c[a]], c, done + {a})
  {
    var s' := s + [c[a]];
    AddrsOfAppend(s, c[a]);
    assert |done + {a}| == |done| + 1;
    forall i | 0 <= i < |s'| ensures s'[i].addr in done + {a} && c[s'[i].addr] == s'[i] {
      if i < |s| {
        assert s'[i] == s[i];
      } else {
        assert s'[i] == c[a];
      }
    }
  }

  lemma EnumeratesPartDone(s: seq<Member>, c: map<Address, Member>)
    requires EnumeratesPart(s, c, c.Keys)
    ensures Enumerates(s, c)
  {
  }

  /** Part way through building the working list: `members` holds the n zero-valued
      slots followed by the entries under `done`; `rest` are the addresses still to add. */
  ghost predicate SnapshotSoFar(members: seq<Member>, c: map<Address, Member>, rest: set<Address>, done: set<Address>)
  {
    && rest + done == c.Keys && rest !! done
    && |rest| + |done| == |c|
    && |members| == |c| + |done|
    && (forall i :: 0 <= i < |c| ==> members[i] == ZeroMember)
    && EnumeratesPart(members[|c|..], c, done)
  }

  lemma SnapshotStart(c: map<Address, Member>)
    ensures SnapshotSoFar(seq(|c|, _ => ZeroMember), c, c.Keys, {})
  {
    assert |c.Keys| == |c|;
  }

  lemma SnapshotStep(members: seq<Member>, c: map<Address, Member>, rest: set<Address>, done: set<Address>, a: Address)
    requires SnapshotSoFar(members, c, rest, done) && a in rest && c[a].addr == a
    ensures SnapshotSoFar(members + [c[a]], c, rest - {a}, done + {a})
  {
    var n := |c|;
    EnumeratesTailExtend(members, n, c, done, a);
    MoveOne(rest, done, a);
    ZeroSlotsKept(members, n, c[a]);
  }

  /** Moving one address from the addresses still to add to those added keeps the two
      a partition of the same set. */
  lemma MoveOne(rest: set<Address>, done: set<Address>, a: Address)
    requires rest !! done && a in rest
    ensures (rest - {a}) + (done + {a}) == rest + done && (rest - {a}) !! (done + {a})
    ensures |rest - {a}| == |rest| - 1 && |done + {a}| == |done| + 1
  {
  }

  lemma ZeroSlotsKept(members: seq<Member>, n: nat, m: Member)
    requires n <= |members| && forall i :: 0 <= i < n ==> members[i] == ZeroMember
    ensures forall i :: 0 <= i < n ==> (members + [m])[i] == ZeroMember
  {
  }

  lemma EnumeratesTailExtend(members: seq<Member>, n: nat, c: map<Address, Member>, done: set<Address>, a: Address)
    requires n <= |members| && EnumeratesPart(members[n..], c, done)
    requires a in c && a !in done && c[a].addr == a
    ensures EnumeratesPart((members + [c[a]])[n..], c, done + {a})
  {
    EnumeratesPartExtend(members[n..], c, done, a);
    assert (members + [c[a]])[n..] == members[n..] + [c[a]];
  }

  lemma SnapshotEnd(members: seq<Member>, c: map<Address, Member>, done: set<Address>)
    requires SnapshotSoFar(members, c, {}, done)
    ensures IsSnapshot(members, c)
  {
    EnumeratesPartDone(members[|c|..], c);
  }

  /** The working list `resolve` builds at batches.go:219-222: a slice made with
      length n holds n zero-valued members, and the n entries of the committee are
      appended after them, in the map's (unspecified) iteration order. */
  ghost predicate IsSnapshot(members: seq<Member>, c: map<Address, Member>)
  {
    && |members| == 2 * |c|
    && (forall i :: 0 <= i < |c| ==> members[i] == ZeroMember)
    && Enumerates(members[|c|..], c)
  }

  /** What rand.Perm(n) returns: the numbers 0 .. n-1, each once, in some order. */
  predicate IsPermutation(perm: seq<nat>, n: nat)
  {
    && |perm| == n
    && (forall i :: 0 <= i < n ==> perm[i] < n)
    && (forall k :: 0 <= k < n ==> k in perm)
  }

  lemma IdentityIsPermutation(n: nat)
    ensures IsPermutation(seq(n, i => i), n)
  {
    var id: seq<nat> := seq(n, i => i);
    forall k | 0 <= k < n ensures k in id {
      assert id[k] == k;
    }
  }

  /** The members in the order the scan visits them. */
  function Arrange(members: seq<Member>, perm: seq<nat>): (order: seq<Member>)
    requires forall i :: 0 <= i < |perm| ==> perm[i] < |members|
    ensures |order| == |perm|
    ensures forall i :: 0 <= i < |perm| ==> order[i] == members[perm[i]]
  {
    seq(|perm|, i requires 0 <= i < |perm| => members[perm[i]])
  }

  /** The position of the first member in `order` that resolves `key`, or |order|
      when none does. */
  function FirstSuccess(order: seq<Member>, key: Hash, net: Network): (i: nat)
    ensures i <= |order|
    ensures forall j :: 0 <= j < i ==> ResolveWithMember(key, order[j], net).Failure?
    ensures i < |order| ==> ResolveWithMember(key, order[i], net).Success?
  {
    if order == [] then 0
    else if ResolveWithMember(key, order[0], net).Success? then 0
    else 1 + FirstSuccess(order[1..], key, net)
  }

  /** The members the scan asks: all up to and including the first that answers. */
  function Asked(order: seq<Member>, key: Hash, net: Network): (asked: seq<Member>)
    ensures asked <= order
    ensures FirstSuccess(order, key, net) < |order| ==> |asked| == FirstSuccess(order, key, net) + 1
    ensures FirstSuccess(order, key, net) == |order| ==> asked == order
  {
    var i := FirstSuccess(order, key, net);
    if i < |order| then order[..i + 1] else order
  }

  /** The scan as a walk over `order`, one member at a time: the first member that
      answers ends it with its reply; each one that fails is evicted from `cache`
      before the next is asked. The result is the reply, what is left of the cache,
      and the queries made, in order. */
  function ScanFrom(cache: map<Address, Member>, order: seq<Member>, key: Hash, net: Network)
    : (Result<OffChainData>, map<Address, Member>, seq<Query>)
    decreases |order|
  {
    if order == [] then (Failure(NoDataForKey(key)), cache, [])
    else
      var r := ResolveWithMember(key, order[0], net);
      if r.Success? then (r, cache, [Query(order[0], key)])
      else
        var rest := ScanFrom(cache - {order[0].addr}, order[1..], key, net);
        (rest.0, rest.1, [Query(order[0], key)] + rest.2)
  }

  /** The queries made for `key` while asking `members`, in that order. */
  function QueriesFor(members: seq<Member>, key: Hash): (qs: seq<Query>)
    ensures |qs| == |members|
    ensures forall i :: 0 <= i < |qs| ==> qs[i] == Query(members[i], key)
  {
    seq(|members|, i requires 0 <= i < |members| => Query(members[i], key))
  }

  /** Whatever the replies, the walk only evicts entries of the cache and never adds
      or changes one, asks the members of `order` in order and at least the first,
      and a reply it ends with on success is a non-empty payload under `key`. */
  lemma {:induction false} ScanFromShape(cache: map<Address, Member>, order: seq<Member>, key: Hash, net: Network)
    ensures var out := ScanFrom(cache, order, key, net);
      && (out.0.Success? ==> out.0.value.key == key && |out.0.value.value| > 0)
      && out.1.Keys <= cache.Keys && (forall a :: a in out.1 ==> out.1[a] == cache[a])
      && |out.2| <= |order| && (order != [] ==> |out.2| > 0)
      && forall j :: 0 <= j < |out.2| ==> out.2[j] == Query(order[j], key)
    decreases |order|
  {
    if order != [] && ResolveWithMember(key, order[0], net).Failure? {
      var rest := order[1..];
      ScanFromShape(cache - {order[0].addr}, rest, key, net);
      var out := ScanFrom(cache, order, key, net);
      forall j | 0 <= j < |out.2| ensures out.2[j] == Query(order[j], key) {
        if j > 0 {
          assert order[j] == rest[j - 1];
        }
      }
    }
  }

  /** The walk ends with the reply of the first member that answers, or not-found
      when none does. */
  lemma {:induction false} ScanFromReply(cache: map<Address, Member>, order: seq<Member>, key: Hash, net: Network)
    ensures var i := FirstSuccess(order, key, net);
      ScanFrom(cache, order, key, net).0 ==
        if i < |order| then ResolveWithMember(key, order[i], net) else Failure(NoDataForKey(key))
    decreases |order|
  {
    if order != [] && ResolveWithMember(key, order[0], net).Failure? {
      ScanFromReply(cache - {order[0].addr}, order[1..], key, net);
    }
  }

  /** The walk evicts exactly the members asked before the one that answers. */
  lemma {:induction false} ScanFromCache(cache: map<Address, Member>, order: seq<Member>, key: Hash, net: Network)
    ensures ScanFrom(cache, order, key, net).1 == cache - AddrsOf(order[..FirstSuccess(order, key, net)])
    decreases |order|
  {
    var i := FirstSuccess(order, key, net);
    if order == [] || ResolveWithMember(key, order[0], net).Success? {
      assert AddrsOf(order[..i]) == {};
      assert cache - AddrsOf(order[..i]) == cache;
    } else {
      var m, tail := order[0], order[1..];
      var j := FirstSuccess(tail, key, net);
      ScanFromCache(cache - {m.addr}, tail, key, net);
      assert order[..i] == [m] + tail[..j];
      AddrsOfPrepend(m, tail[..j]);
      assert cache - {m.addr} - AddrsOf(tail[..j]) == cache - AddrsOf(order[..i]);
    }
  }

  /** The walk makes one query per member asked, in order. */
  lemma {:induction false} ScanFromQueries(cache: map<Address, Member>, order: seq<Member>, key: Hash, net: Network)
    ensures ScanFrom(cache, order, key, net).2 == QueriesFor(Asked(order, key, net), key)
    decreases |order|
  {
    if order != [] {
      var m, tail := order[0], order[1..];
      if ResolveWithMember(key, m, net).Success? {
        assert Asked(order, key, net) == [m];
        assert QueriesFor([m], key) == [Query(m, key)];
      } else {
        var rest := Asked(tail, key, net);
        ScanFromQueries(cache - {m.addr}, tail, key, net);
        AskedAfterFailure(order, key, net);
        QueriesForPrepend(m, rest, key);
      }
    }
  }

  /** A member that fails is asked, and then the rest of the order is. */
  lemma AskedAfterFailure(order: seq<Member>, key: Hash, net: Network)
    requires order != [] && ResolveWithMember(key, order[0], net).Failure?
    ensures Asked(order, key, net) == [order[0]] + Asked(order[1..], key, net)
  {
    var tail := order[1..];
    var j := FirstSuccess(tail, key, net);
    assert FirstSuccess(order, key, net) == j + 1;
    if j < |tail| {
      assert order[..j + 2] == [order[0]] + tail[..j + 1];
    } else {
      assert order == [order[0]] + tail;
    }
  }

  lemma QueriesForPrepend(m: Member, s: seq<Member>, key: Hash)
    ensures QueriesFor([m] + s, key) == [Query(m, key)] + QueriesFor(s, key)
  {
  }

  /** The scan visits every entry of the committee it was built from. */
  lemma {:induction false} VisitsEveryMember(c: map<Address, Member>, members: seq<Member>, perm: seq<nat>)
    requires IsSnapshot(members, c) && IsPermutation(perm, |members|)
    ensures forall a :: a in c ==> c[a] in Arrange(members, perm)
    ensures c.Keys <= AddrsOf(Arrange(members, perm))
  {
    var n := |c|;
    var order := Arrange(members, perm);
    forall a | a in c ensures c[a] in order {
      var rest := members[n..];
      assert a in AddrsOf(rest);
      var m :| m in rest && m.addr == a;
      var k :| 0 <= k < |rest| && rest[k] == m;
      assert members[n + k] == c[a];
      assert n + k in perm;
      var i :| 0 <= i < |perm| && perm[i] == n + k;
      assert order[i] == c[a];
    }
    forall a | a in c ensures a in AddrsOf(order) {
      assert c[a] in order;
    }
  }

  /** Every slot of the scan holds the zero-valued member or an entry of the committee. */
  lemma SlotsAreZeroOrMembers(c: map<Address, Member>, members: seq<Member>, perm: seq<nat>)
    requires IsSnapshot(members, c) && IsPermutation(perm, |members|)
    ensures forall i :: 0 <= i < |perm| ==>
      var slot := Arrange(members, perm)[i];
      slot == ZeroMember || (slot.addr in c && c[slot.addr] == slot)
  {
    var n := |c|;
    forall i | 0 <= i < |perm|
      ensures var slot := Arrange(members, perm)[i]; slot == ZeroMember || (slot.addr in c && c[slot.addr] == slot)
    {
      var j := perm[i];
      if j >= n {
        assert members[j] == members[n..][j - n];
      }
    }
  }

  /** A key some entry of the committee can serve is always resolved: the scan
      cannot run out of members before reaching it. */
  lemma {:induction false} ServedKeyIsResolved(c: map<Address, Member>, members: seq<Member>, perm: seq<nat>,
                                             key: Hash, net: Network, a: Address)
    requires IsSnapshot(members, c) && IsPermutation(perm, |members|)
    requires a in c && ResolveWithMember(key, c[a], net).Success?
    ensures FirstSuccess(Arrange(members, perm), key, net) < |perm|
  {
    VisitsEveryMember(c, members, perm);
    var order := Arrange(members, perm);
    var i :| 0 <= i < |order| && order[i] == c[a];
  }

  /** When no member has the key, the scan evicts every address in the committee:
      what is left of the cache is empty. */
  lemma {:induction false} ExhaustedScanEmptiesCommittee(c: map<Address, Member>, members: seq<Member>,
                                                         perm: seq<nat>, key: Hash, net: Network)
    requires IsSnapshot(members, c) && IsPermutation(perm, |members|)
    requires FirstSuccess(Arrange(members, perm), key, net) == |perm|
    ensures ScanFrom(c, Arrange(members, perm), key, net).1 == map[]
  {
    var order := Arrange(members, perm);
    VisitsEveryMember(c, members, perm);
    ScanFromCache(c, order, key, net);
    assert order[..|perm|] == order;
    EvictAll(c, AddrsOf(order));
  }

  lemma EvictAll(c: map<Address, Member>, gone: set<Address>)
    requires c.Keys <= gone
    ensures c - gone == map[]
  {
    assert (c - gone).Keys == {};
  }

  /** The member that answers is always a real entry of the committee, never one of
      the zero-valued slots. */
  lemma {:induction false} AnswerComesFromCommittee(c: map<Address, Member>, members: seq<Member>,
                                                    perm: seq<nat>, key: Hash, net: Network)
    requires IsSnapshot(members, c) && IsPermutation(perm, |members|)
    requires FirstSuccess(Arrange(members, perm), key, net) < |perm|
    ensures var answerer := Arrange(members, perm)[FirstSuccess(Arrange(members, perm), key, net)];
      answerer != ZeroMember && answerer.addr in c && c[answerer.addr] == answerer
  {
    var order := Arrange(members, perm);
    var i := FirstSuccess(order, key, net);
    SlotsAreZeroOrMembers(c, members, perm);
    ZeroMemberFails(key, net);
  }

  /** The addresses of the real (not zero-valued) members among the first i slots
      of the scan order. */
  function RealAddrsBefore(order: seq<Member>, i: nat): set<Address>
    requires i <= |order|
  {
    set j | 0 <= j < i && order[j] != ZeroMember :: order[j].addr
  }

  /** The zero-valued slots evict nothing when the zero address is not a member: the
      scan removes from the cache exactly the real members it asked before the one
      that answers, and leaves every other entry as it was. */
  lemma ZeroSlotsEvictNothing(c: map<Address, Member>, members: seq<Member>, perm: seq<nat>,
                              key: Hash, net: Network)
    requires IsSnapshot(members, c) && IsPermutation(perm, |members|)
    requires ZeroAddress !in c
    ensures var order := Arrange(members, perm);
      var gone := RealAddrsBefore(order, FirstSuccess(order, key, net));
      var after := ScanFrom(c, order, key, net).1;
      && gone <= c.Keys
      && after.Keys == c.Keys - gone
      && forall a :: a in after ==> after[a] == c[a]
  {
    var order := Arrange(members, perm);
    var i := FirstSuccess(order, key, net);
    var gone := RealAddrsBefore(order, i);
    ScanFromCache(c, order, key, net);
    SlotsAreZeroOrMembers(c, members, perm);
    RealAddrsBeforeAsked(order, i);
    assert gone <= c.Keys;
    EvictReal(c, AddrsOf(order[..i]), gone);
  }

  /** The addresses of the first i slots are those of the real members among them,
      plus at most the zero address. */
  lemma RealAddrsBeforeAsked(order: seq<Member>, i: nat)
    requires i <= |order|
    ensures RealAddrsBefore(order, i) <= AddrsOf(order[..i])
    ensures forall a :: a in AddrsOf(order[..i]) && a != ZeroAddress ==> a in RealAddrsBefore(order, i)
  {
    var prefix := order[..i];
    forall a | a in RealAddrsBefore(order, i) ensures a in AddrsOf(prefix) {
      var j :| 0 <= j < i && order[j] != ZeroMember && order[j].addr == a;
      assert prefix[j] == order[j];
    }
    forall a | a in AddrsOf(prefix) && a != ZeroAddress ensures a in RealAddrsBefore(order, i) {
      var m :| m in prefix && m.addr == a;
      var j :| 0 <= j < |prefix| && prefix[j] == m;
      assert order[j] == m;
    }
  }

  /** Evicting a set that differs from `gone` at most by the zero address, which is
      not cached, removes exactly the cached addresses `gone`. */
  lemma EvictReal(c: map<Address, Member>, evicted: set<Address>, gone: set<Address>)
    requires ZeroAddress !in c && gone <= c.Keys && gone <= evicted
    requires forall a :: a in evicted && a != ZeroAddress ==> a in gone
    ensures (c - evicted).Keys == c.Keys - gone
  {
  }
}
