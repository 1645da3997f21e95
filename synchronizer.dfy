/** The batch synchronizer: find the keys an event references that are not stored yet,
    fetch them from the data committee and store them with the block, all or nothing. */
module Synchronizer {
  import opened Types
  import opened MemberClient
  import opened Committee
  import opened Events
  import opened Storage

  /** The keys of `keys` that are not in `stored`, in their order, duplicates kept. */
  function MissingKeys(keys: seq<Hash>, stored: set<Hash>): (missing: seq<Hash>)
    ensures forall k :: multiset(missing)[k] == if k in stored then 0 else multiset(keys)[k]
    decreases |keys|
  {
    if keys == [] then []
    else
      var earlier := MissingKeys(keys[..|keys| - 1], stored);
      var last := keys[|keys| - 1];
      assert keys == keys[..|keys| - 1] + [last];
      if last in stored then earlier else earlier + [last]
  }

  /** The filter decides the last key on its own. */
  lemma MissingKeysLast(keys: seq<Hash>, stored: set<Hash>)
    requires keys != []
    ensures MissingKeys(keys, stored) ==
      MissingKeys(keys[..|keys| - 1], stored) + (if keys[|keys| - 1] in stored then [] else [keys[|keys| - 1]])
  {
  }

  /** Filtering a list piece by piece gives the filtered list: MissingKeys keeps the
      order of the keys it passes on. */
  lemma {:induction false} MissingKeysAppend(a: seq<Hash>, b: seq<Hash>, stored: set<Hash>)
    ensures MissingKeys(a + b, stored) == MissingKeys(a, stored) + MissingKeys(b, stored)
    decreases |b|
  {
    if b == [] {
      assert a + b == a;
    } else {
      var front := b[..|b| - 1];
      var last := b[|b| - 1];
      assert (a + b)[..|a + b| - 1] == a + front;
      assert (a + b)[|a + b| - 1] == last;
      MissingKeysLast(a + b, stored);
      MissingKeysLast(b, stored);
      MissingKeysAppend(a, front, stored);
    }
  }

  /** What visiting `members` in the order `perm` gives for `key`, from the cache
      `start` and the query log `log`: the reply, the cache and the queries of the
      walk ScanFrom over that order. */
  ghost predicate ScanOutcome(start: map<Address, Member>, members: seq<Member>, perm: seq<nat>,
                              key: Hash, net: Network, r: Result<OffChainData>,
                              after: map<Address, Member>, log: seq<Query>, log': seq<Query>)
  {
    && (forall j :: 0 <= j < |perm| ==> perm[j] < |members|)
    && var out := ScanFrom(start, Arrange(members, perm), key, net);
       r == out.0 && after == out.1 && log' == log + out.2
  }

  /** Part way through the walk: what is left of it, from the cache `cache` over the
      members `rest`, ends with the whole walk's reply and cache, and adds to the log
      `log` the queries the whole walk would have added to `log0`. */
  ghost predicate WalkRest(total: (Result<OffChainData>, map<Address, Member>, seq<Query>),
                           cache: map<Address, Member>, rest: seq<Member>, key: Hash, net: Network,
                           log0: seq<Query>, log: seq<Query>)
  {
    var left := ScanFrom(cache, rest, key, net);
    total.0 == left.0 && total.1 == left.1 && log0 + total.2 == log + left.2
  }

  /** Asking the next member of the walk: if it answers, the walk ends here with its
      reply; otherwise the rest of the walk goes on without its address. */
  lemma WalkStep(total: (Result<OffChainData>, map<Address, Member>, seq<Query>),
                 cache: map<Address, Member>, order: seq<Member>, i: nat, key: Hash, net: Network,
                 log0: seq<Query>, log: seq<Query>)
    requires i < |order| && WalkRest(total, cache, order[i..], key, net, log0, log)
    ensures var r := ResolveWithMember(key, order[i], net);
      var log' := log + [Query(order[i], key)];
      if r.Success? then total.0 == r && total.1 == cache && log0 + total.2 == log'
      else WalkRest(total, cache - {order[i].addr}, order[i + 1..], key, net, log0, log')
  {
    assert order[i..][0] == order[i] && order[i..][1..] == order[i + 1..];
    var r := ResolveWithMember(key, order[i], net);
    if r.Failure? {
      var left := ScanFrom(cache - {order[i].addr}, order[i + 1..], key, net);
      assert log + ([Query(order[i], key)] + left.2) == (log + [Query(order[i], key)]) + left.2;
    }
  }

  /** A scan only evicts, only appends to the query log, asks only for its own key, and
      what it returns on success is a non-empty payload under that key. */
  lemma ScanOutcomeFacts(start: map<Address, Member>, members: seq<Member>, perm: seq<nat>,
                         key: Hash, net: Network, r: Result<OffChainData>,
                         after: map<Address, Member>, log: seq<Query>, log': seq<Query>)
    requires ScanOutcome(start, members, perm, key, net, r, after, log, log')
    ensures r.Success? ==> r.value.key == key && |r.value.value| > 0
    ensures after.Keys <= start.Keys && forall a :: a in after ==> after[a] == start[a]
    ensures log <= log'
    ensures forall j :: |log| <= j < |log'| ==> log'[j].key == key
  {
    var order := Arrange(members, perm);
    ScanFromReply(start, order, key, net);
    ScanFromCache(start, order, key, net);
    ScanFromQueries(start, order, key, net);
  }

  /** What resolve does from the cache `start`: an empty cache is refreshed from
      `chain` first, and a failed refresh is returned with nothing else changed;
      otherwise the (possibly refreshed) cache is laid out as a working list
      `snapshot`, which is visited in the random order `perm`. */
  ghost predicate ResolveOutcome(start: map<Address, Member>, self: Address, chain: Result<seq<Member>>,
                                 key: Hash, net: Network, r: Result<OffChainData>,
                                 snapshot: seq<Member>, perm: seq<nat>,
                                 after: map<Address, Member>, log: seq<Query>, log': seq<Query>)
  {
    if |start| == 0 && chain.Failure? then
      r == Failure(chain.error) && after == start && log' == log
    else
      var c := if |start| > 0 then start else CommitteeOf(chain.value, self);
      && IsSnapshot(snapshot, c)
      && IsPermutation(perm, |snapshot|)
      && ScanOutcome(c, snapshot, perm, key, net, r, after, log, log')
  }

  /** The chain's answers to the committee query while one event is handled: the
      refresh inside the resolution of the i-th key (if that cache is empty) gets
      chain(i). */
  type Chain = nat -> Result<seq<Member>>

  /** What one call of resolve chose and returned: its working list, the
      permutation it visited the list in, and its result. */
  datatype Attempt = Attempt(snapshot: seq<Member>, perm: seq<nat>, result: Result<OffChainData>)

  /** `runs` are the calls of resolve for keys[0], keys[1], ... in turn: call i starts
      from the cache caches[i] and the query log logs[i], and leaves caches[i + 1]
      and logs[i + 1] behind. */
  ghost predicate ResolvedInTurn(self: Address, chain: Chain, keys: seq<Hash>, net: Network,
                                 caches: seq<map<Address, Member>>, logs: seq<seq<Query>>, runs: seq<Attempt>)
  {
    && |runs| <= |keys|
    && |caches| == |runs| + 1 && |logs| == |runs| + 1
    && forall i :: 0 <= i < |runs| ==>
         ResolveOutcome(caches[i], self, chain(i), keys[i], net, runs[i].result, runs[i].snapshot, runs[i].perm,
                        caches[i + 1], logs[i], logs[i + 1])
  }

  /** One more call of resolve, for the next key, extends the sequence of calls. */
  lemma ResolvedInTurnExtend(self: Address, chain: Chain, keys: seq<Hash>, net: Network,
                             caches: seq<map<Address, Member>>, logs: seq<seq<Query>>, runs: seq<Attempt>,
                             run: Attempt, cache': map<Address, Member>, log': seq<Query>)
    requires ResolvedInTurn(self, chain, keys, net, caches, logs, runs) && |runs| < |keys|
    requires ResolveOutcome(caches[|runs|], self, chain(|runs|), keys[|runs|], net, run.result, run.snapshot,
                            run.perm, cache', logs[|runs|], log')
    ensures ResolvedInTurn(self, chain, keys, net, caches + [cache'], logs + [log'], runs + [run])
  {
    var caches2, logs2, runs2 := caches + [cache'], logs + [log'], runs + [run];
    forall i | 0 <= i < |runs2|
      ensures ResolveOutcome(caches2[i], self, chain(i), keys[i], net, runs2[i].result, runs2[i].snapshot,
                             runs2[i].perm, caches2[i + 1], logs2[i], logs2[i + 1])
    {
      assert caches2[i] == caches[i] && logs2[i] == logs[i];
      if i < |runs| {
        assert runs2[i] == runs[i] && caches2[i + 1] == caches[i + 1] && logs2[i + 1] == logs[i + 1];
      }
    }
  }

  /** Whatever path resolve takes, a success is a non-empty payload under its key, and
      the query log is only extended, with queries for that key. */
  lemma ResolveOutcomeFacts(start: map<Address, Member>, self: Address, chain: Result<seq<Member>>,
                             key: Hash, net: Network, r: Result<OffChainData>,
                             snapshot: seq<Member>, perm: seq<nat>,
                             after: map<Address, Member>, log: seq<Query>, log': seq<Query>)
    requires ResolveOutcome(start, self, chain, key, net, r, snapshot, perm, after, log, log')
    ensures r.Success? ==> r.value.key == key && |r.value.value| > 0
    ensures log <= log'
    ensures forall j :: |log| <= j < |log'| ==> log'[j].key == key
  {
    if !(|start| == 0 && chain.Failure?) {
      var c := if |start| > 0 then start else CommitteeOf(chain.value, self);
      ScanOutcomeFacts(c, snapshot, perm, key, net, r, after, log, log');
    }
  }

  /** Every call of resolve in turn that succeeds returns a non-empty payload for its
      own key, and every call only appends queries for its own key to the log. */
  lemma ResolvedInTurnSteps(self: Address, chain: Chain, keys: seq<Hash>, net: Network,
                            caches: seq<map<Address, Member>>, logs: seq<seq<Query>>, runs: seq<Attempt>)
    requires ResolvedInTurn(self, chain, keys, net, caches, logs, runs)
    ensures forall i :: 0 <= i < |runs| && runs[i].result.Success? ==>
      runs[i].result.value.key == keys[i] && |runs[i].result.value.value| > 0
    ensures LogAppendsKeys(keys, logs)
  {
    forall i | 0 <= i < |runs|
      ensures runs[i].result.Success? ==> runs[i].result.value.key == keys[i] && |runs[i].result.value.value| > 0
      ensures AppendsFor(logs[i], logs[i + 1], keys[i])
    {
      ResolveOutcomeFacts(caches[i], self, chain(i), keys[i], net, runs[i].result, runs[i].snapshot,
                          runs[i].perm, caches[i + 1], logs[i], logs[i + 1]);
    }
  }

  /** `log'` extends `log` with queries for `key` only. */
  ghost predicate AppendsFor(log: seq<Query>, log': seq<Query>, key: Hash)
  {
    log <= log' && forall j :: |log| <= j < |log'| ==> log'[j].key == key
  }

  /** Step i of a sequence of query logs only appends queries for keys[i]. */
  ghost predicate LogAppendsKeys(keys: seq<Hash>, logs: seq<seq<Query>>)
  {
    && |logs| <= |keys| + 1
    && forall i :: 0 <= i < |logs| - 1 ==> AppendsFor(logs[i], logs[i + 1], keys[i])
  }

  /** After k steps that each append queries for their own key, the log extends the
      first one, and every query added asks for one of the first k keys. */
  lemma {:induction false} LogAppendsKeysThrough(keys: seq<Hash>, logs: seq<seq<Query>>, k: nat)
    requires LogAppendsKeys(keys, logs) && k < |logs|
    ensures logs[0] <= logs[k]
    ensures forall j :: |logs[0]| <= j < |logs[k]| ==> logs[k][j].key in keys[..k]
    decreases k
  {
    if k > 0 {
      LogAppendsKeysThrough(keys, logs, k - 1);
      assert AppendsFor(logs[k - 1], logs[k], keys[k - 1]);
      forall j | |logs[0]| <= j < |logs[k]| ensures logs[k][j].key in keys[..k] {
        if j < |logs[k - 1]| {
          assert logs[k][j] == logs[k - 1][j];
          assert keys[..k - 1] == keys[..k][..k - 1];
        } else {
          assert keys[..k][k - 1] == keys[k - 1];
        }
      }
    }
  }

  /** A key is missing exactly when it is among the keys and not stored. */
  lemma MissingKeysMembers(keys: seq<Hash>, stored: set<Hash>)
    ensures forall k :: k in MissingKeys(keys, stored) <==> k in keys && k !in stored
  {
    var missing := MissingKeys(keys, stored);
    forall k ensures k in missing <==> k in keys && k !in stored {
      assert k in missing <==> multiset(missing)[k] > 0;
      assert k in keys <==> multiset(keys)[k] > 0;
    }
  }

  /** Storing one payload per missing key leaves every key of the event stored, and
      stores nothing under a key outside the event. */
  lemma StoredCoversKeys(keys: seq<Hash>, stored: Payloads, missing: seq<Hash>, data: seq<OffChainData>)
    requires forall k :: k in missing <==> k in keys && k !in stored
    requires |data| == |missing| && forall i :: 0 <= i < |data| ==> data[i].key == missing[i]
    ensures forall k :: k in keys ==> k in InsertAll(stored, data)
    ensures forall k :: k in InsertAll(stored, data) ==> k in stored || k in keys
  {
    forall k | k in keys && k !in stored ensures k in KeysOf(data) {
      var i :| 0 <= i < |missing| && missing[i] == k;
      assert data[i] in data;
    }
    forall k | k in KeysOf(data) ensures k in keys {
      var d :| d in data && d.key == k;
      var i :| 0 <= i < |data| && data[i] == d;
      assert missing[i] in missing;
    }
  }

  /** BatchSynchronizer: the committee cache, the database and the node's own address. */
  class BatchSynchronizer {
    const self: Address
    const db: Database
    var committee: map<Address, Member>
    /** Every call of resolveWithMember made so far, in order. */
    ghost var queried: seq<Query>

    /** The cache holds each member under its own address and never the node itself;
        no transaction is left open between operations. */
    ghost predicate Valid()
      reads this, db
    {
      && self !in committee
      && (forall a :: a in committee ==> committee[a].addr == a)
      && db.tx.None?
    }

    constructor (self: Address, db: Database)
      requires db.tx.None?
      ensures this.self == self && this.db == db
      ensures committee == map[] && queried == []
      ensures Valid()
    {
      this.self := self;
      this.db := db;
      committee := map[];
      queried := [];
    }

    /** NewBatchSynchronizer: construction fails when the first committee lookup fails. */
    static method New(self: Address, db: Database, chain: Result<seq<Member>>) returns (r: Result<BatchSynchronizer>)
      requires db.tx.None?
      ensures chain.Failure? ==> r == Failure(chain.error)
      ensures chain.Success? ==> r.Success? && fresh(r.value) && r.value.Valid()
      ensures chain.Success? ==> r.value.self == self && r.value.db == db
      ensures chain.Success? ==> r.value.committee == CommitteeOf(chain.value, self)
    {
      var s := new BatchSynchronizer(self, db);
      var err := s.ResolveCommittee(chain);
      if err.Some? {
        return Failure(err.value);
      }
      r := Success(s);
    }

    /** resolveCommittee: rebuild the cache from the chain's current committee, leaving
        out the node itself. When the chain query fails the cache is left as it was. */
    method ResolveCommittee(chain: Result<seq<Member>>) returns (err: Option<Error>)
      requires Valid()
      modifies this`committee
      ensures Valid()
      ensures chain.Failure? ==> err == Some(chain.error) && committee == old(committee)
      ensures chain.Success? ==> err == None && committee == CommitteeOf(chain.value, self)
    {
      var rebuilt: map<Address, Member> := map[];
      if chain.Failure? {
        return Some(chain.error);
      }
      var current := chain.value;
      for i := 0 to |current|
        invariant rebuilt == CommitteeOf(current[..i], self)
      {
        var member := current[i];
        CommitteeOfExtend(current, i, self);
        if self != member.addr {
          rebuilt := rebuilt[member.addr := member];
        }
      }
      assert current[..|current|] == current;
      committee := rebuilt;
      err := None;
    }

    /** The working list of resolve: as many zero-valued members as the cache has
        entries, followed by the entries themselves in some order. */
    method Snapshot() returns (members: seq<Member>)
      requires Valid()
      ensures IsSnapshot(members, committee)
    {
      members := seq(|committee|, _ => ZeroMember);
      var rest := committee.Keys;
      ghost var done: set<Address> := {};
      SnapshotStart(committee);
      while rest != {}
        invariant SnapshotSoFar(members, committee, rest, done)
        decreases rest
      {
        var a :| a in rest;
        SnapshotStep(members, committee, rest, done, a);
        members := members + [committee[a]];
        rest := rest - {a};
        done := done + {a};
      }
      SnapshotEnd(members, committee, done);
    }

    /** The loop of resolve: ask the members of the working list in the order
        `shuffle` gives, evicting each that fails, until one answers. */
    method Scan(key: Hash, members: seq<Member>, shuffle: seq<nat>, net: Network) returns (r: Result<OffChainData>)
      requires forall j :: 0 <= j < |shuffle| ==> shuffle[j] < |members|
      modifies this`committee, this`queried
      ensures ScanOutcome(old(committee), members, shuffle, key, net, r, committee, old(queried), queried)
    {
      ghost var order := Arrange(members, shuffle);
      ghost var total := ScanFrom(committee, order, key, net);
      assert order[0..] == order;
      var i := 0;
      while i < |shuffle|
        invariant 0 <= i <= |shuffle|
        invariant WalkRest(total, committee, order[i..], key, net, old(queried), queried)
      {
        var member := members[shuffle[i]];
        var value := ResolveWithMember(key, member, net);
        WalkStep(total, committee, order, i, key, net, old(queried), queried);
        queried := queried + [Query(member, key)];
        if value.Success? {
          return value;
        }
        committee := committee - {member.addr};
        i := i + 1;
      }
      assert order[i..] == [];
      r := Failure(NoDataForKey(key));
    }

    /** resolve: fetch the payload for `key` from the committee. An empty cache is
        refreshed first, and a failed refresh is returned. Otherwise the working list
        is visited in a random order (Scan). */
    method Resolve(key: Hash, chain: Result<seq<Member>>, net: Network)
      returns (r: Result<OffChainData>, ghost snapshot: seq<Member>, ghost perm: seq<nat>)
      requires Valid()
      modifies this`committee, this`queried
      ensures Valid()
      ensures ResolveOutcome(old(committee), self, chain, key, net, r, snapshot, perm, committee, old(queried), queried)
      ensures r.Success? ==> r.value.key == key && |r.value.value| > 0
      ensures old(queried) <= queried
      ensures forall j :: |old(queried)| <= j < |queried| ==> queried[j].key == key
    {
      if |committee| == 0 {
        var err := ResolveCommittee(chain);
        if err.Some? {
          r, snapshot, perm := Failure(err.value), [], [];
          return;
        }
      }
      var members := Snapshot();
      IdentityIsPermutation(|members|);
      // rand.Perm(len(members)): some permutation of the working list's positions
      var shuffle: seq<nat> :| IsPermutation(shuffle, |members|);
      assert IsPermutation(shuffle, |members|);
      snapshot, perm := members, shuffle;
      ghost var start := committee;
      r := Scan(key, members, shuffle, net);
      ScanOutcomeFacts(start, members, shuffle, key, net, r, committee, old(queried), queried);
    }

    /** Exists: whether the database already holds `key`. resolve is never asked for
        such a key. The loop keeps the keys that are not stored, in their order. */
    method CollectMissing(keys: seq<Hash>) returns (missing: seq<Hash>)
      ensures missing == MissingKeys(keys, db.payloads.Keys)
    {
      missing := [];
      for i := 0 to |keys|
        invariant missing == MissingKeys(keys[..i], db.payloads.Keys)
      {
        var key := keys[i];
        assert keys[..i + 1][..i] == keys[..i];
        if !db.Exists(key) {
          missing := missing + [key];
        }
      }
      assert keys[..|keys|] == keys;
    }

    /** store: write the payloads and the block in one transaction. Either all of it
        becomes durable, or (after a rollback, or a failed commit) none of it does. */
    method Store(block: uint64, data: seq<OffChainData>, faults: Faults) returns (err: Option<Error>)
      requires Valid()
      modifies db
      ensures Valid()
      ensures err == FirstFault(faults)
      ensures err.None? ==> db.payloads == InsertAll(old(db.payloads), data) && db.lastProcessedBlock == block
      ensures err.Some? ==> db.payloads == old(db.payloads) && db.lastProcessedBlock == old(db.lastProcessedBlock)
    {
      err := db.BeginStateTransaction(faults.begin);
      if err.Some? {
        return;
      }
      err := db.StoreOffChainData(data, faults.storeData);
      if err.Some? {
        db.Rollback();
        return;
      }
      err := db.StoreLastProcessedBlock(block, faults.storeBlock);
      if err.Some? {
        db.Rollback();
        return;
      }
      err := db.Commit(faults.commit);
    }

    /** One turn of the loop of resolveAndStore: resolve the next key and record the
        call in the ghost trace of the calls made so far. */
    method ResolveNext(keys: seq<Hash>, i: nat, chain: Chain, net: Network, ghost caches: seq<map<Address, Member>>,
                       ghost logs: seq<seq<Query>>, ghost runs: seq<Attempt>)
      returns (value: Result<OffChainData>, ghost run: Attempt)
      requires Valid()
      requires ResolvedInTurn(self, chain, keys, net, caches, logs, runs) && |runs| == i < |keys|
      requires caches[i] == committee && logs[i] == queried
      modifies this`committee, this`queried
      ensures Valid()
      ensures run.result == value
      ensures ResolvedInTurn(self, chain, keys, net, caches + [committee], logs + [queried], runs + [run])
    {
      ghost var snapshot, perm;
      value, snapshot, perm := Resolve(keys[i], chain(i), net);
      run := Attempt(snapshot, perm, value);
      ResolvedInTurnExtend(self, chain, keys, net, caches, logs, runs, run, committee, queried);
    }

    /** The loop of resolveAndStore: resolve every key, in order, stopping at the
        first that cannot be resolved and returning its error. The calls of resolve
        are returned as ghost `runs`, with the caches and logs between them. */
    method ResolveAll(keys: seq<Hash>, chain: Chain, net: Network)
      returns (err: Option<Error>, resolved: seq<OffChainData>,
               ghost caches: seq<map<Address, Member>>, ghost logs: seq<seq<Query>>, ghost runs: seq<Attempt>)
      requires Valid()
      modifies this`committee, this`queried
      ensures Valid()
      ensures ResolvedInTurn(self, chain, keys, net, caches, logs, runs)
      ensures caches[0] == old(committee) && logs[0] == old(queried)
      ensures caches[|runs|] == committee && logs[|runs|] == queried
      ensures |resolved| <= |runs| && forall i :: 0 <= i < |resolved| ==> runs[i].result == Success(resolved[i])
      ensures err.None? ==> |resolved| == |runs| == |keys|
      ensures err.Some? ==> |runs| == |resolved| + 1 && runs[|resolved|].result == Failure(err.value)
      ensures err.None? <==> |resolved| == |keys|
      ensures forall i :: 0 <= i < |resolved| ==> resolved[i].key == keys[i] && |resolved[i].value| > 0
      ensures old(queried) <= queried
      ensures forall j :: |old(queried)| <= j < |queried| ==> queried[j].key in keys
    {
      resolved, caches, logs, runs := [], [committee], [queried], [];
      for i := 0 to |keys|
        invariant Valid()
        invariant |resolved| == i && |runs| == i
        invariant ResolvedInTurn(self, chain, keys, net, caches, logs, runs)
        invariant caches[0] == old(committee) && logs[0] == old(queried)
        invariant caches[i] == committee && logs[i] == queried
        invariant forall j :: 0 <= j < i ==> runs[j].result == Success(resolved[j])
      {
        var value;
        ghost var run;
        value, run := ResolveNext(keys, i, chain, net, caches, logs, runs);
        caches, logs, runs := caches + [committee], logs + [queried], runs + [run];
        if value.Failure? {
          ResolvedInTurnSteps(self, chain, keys, net, caches, logs, runs);
          LogAppendsKeysThrough(keys, logs, |runs|);
          return Some(value.error), resolved, caches, logs, runs;
        }
        resolved := resolved + [value.value];
      }
      assert keys[..|keys|] == keys;
      ResolvedInTurnSteps(self, chain, keys, net, caches, logs, runs);
      LogAppendsKeysThrough(keys, logs, |runs|);
      err := None;
    }

    /** resolveAndStore: resolve every key, then store them all with the block. A key
        that cannot be resolved ends the call with resolve's error before anything is
        stored, so the block is not marked as processed. */
    method ResolveAndStore(block: uint64, keys: seq<Hash>, chain: Chain, net: Network, faults: Faults)
      returns (err: Option<Error>, ghost data: seq<OffChainData>,
               ghost caches: seq<map<Address, Member>>, ghost logs: seq<seq<Query>>, ghost runs: seq<Attempt>)
      requires Valid()
      modifies this`committee, this`queried, db
      ensures Valid()
      ensures ResolvedInTurn(self, chain, keys, net, caches, logs, runs)
      ensures caches[0] == old(committee) && logs[0] == old(queried)
      ensures caches[|runs|] == committee && logs[|runs|] == queried
      ensures |data| <= |runs| && forall i :: 0 <= i < |data| ==> runs[i].result == Success(data[i])
      ensures |data| == |keys| <==> |runs| == |keys| && forall i :: 0 <= i < |runs| ==> runs[i].result.Success?
      ensures |data| < |keys| ==>
        |runs| == |data| + 1 && runs[|data|].result.Failure? && err == Some(runs[|data|].result.error)
      ensures |data| == |keys| ==> err == FirstFault(faults)
      ensures err.None? <==>
        |runs| == |keys| && (forall i :: 0 <= i < |runs| ==> runs[i].result.Success?) && FirstFault(faults).None?
      ensures forall i :: 0 <= i < |data| ==> data[i].key == keys[i] && |data[i].value| > 0
      ensures err.None? ==> db.payloads == InsertAll(old(db.payloads), data) && db.lastProcessedBlock == block
      ensures err.Some? ==> db.payloads == old(db.payloads) && db.lastProcessedBlock == old(db.lastProcessedBlock)
      ensures old(queried) <= queried
      ensures forall j :: |old(queried)| <= j < |queried| ==> queried[j].key in keys
    {
      var resolved;
      err, resolved, caches, logs, runs := ResolveAll(keys, chain, net);
      data := resolved;
      if err.Some? {
        return;
      }
      err := Store(block, resolved, faults);
    }

    /** handleSequenceBatches: parse the event, keep the keys not stored yet, and
        resolve and store those with the event's block. The ghost outputs are the
        missing keys, the payloads resolved for them, and the calls of resolve. */
    method HandleSequenceBatches(event: SequenceBatchesEvent, decode: Decoder, chain: Chain,
                                 net: Network, faults: Faults)
      returns (err: Option<Error>, ghost missing: seq<Hash>, ghost data: seq<OffChainData>,
               ghost caches: seq<map<Address, Member>>, ghost logs: seq<seq<Query>>, ghost runs: seq<Attempt>)
      requires Valid()
      requires |event.raw.data| >= 4
      modifies this`committee, this`queried, db
      ensures Valid()
      ensures Decode(event, decode).Failure? ==>
        && err == Some(Decode(event, decode).error)
        && committee == old(committee) && queried == old(queried)
      ensures Decode(event, decode).Success? ==>
        && missing == MissingKeys(TransactionHashes(Decode(event, decode).value), old(db.payloads).Keys)
        && ResolvedInTurn(self, chain, missing, net, caches, logs, runs)
        && caches[0] == old(committee) && logs[0] == old(queried)
        && caches[|runs|] == committee && logs[|runs|] == queried
        && |data| <= |runs| && (forall i :: 0 <= i < |data| ==> runs[i].result == Success(data[i]))
        && (|data| < |missing| ==>
              |runs| == |data| + 1 && runs[|data|].result.Failure? && err == Some(runs[|data|].result.error))
        && (|data| == |missing| ==> err == FirstFault(faults))
      ensures err.None? <==>
        && Decode(event, decode).Success?
        && |runs| == |missing| && (forall i :: 0 <= i < |runs| ==> runs[i].result.Success?)
        && FirstFault(faults).None?
      ensures err.Some? ==> db.payloads == old(db.payloads) && db.lastProcessedBlock == old(db.lastProcessedBlock)
      ensures err.None? ==>
        && db.payloads == InsertAll(old(db.payloads), data)
        && db.lastProcessedBlock == event.raw.blockNumber
        && (forall k :: k in TransactionHashes(Decode(event, decode).value) ==> k in db.payloads)
        && (forall k :: k in old(db.payloads) ==> k in db.payloads && db.payloads[k] == old(db.payloads)[k])
        && (forall k :: k in db.payloads ==> k in old(db.payloads) || k in TransactionHashes(Decode(event, decode).value))
      ensures forall j :: |old(queried)| <= j < |queried| ==>
        && Decode(event, decode).Success?
        && queried[j].key in TransactionHashes(Decode(event, decode).value)
        && queried[j].key !in old(db.payloads)
    {
      var parsed := ParseEvent(event, decode);
      if parsed.Failure? {
        return Some(parsed.error), [], [], [committee], [queried], [];
      }
      var block, keys := parsed.value.block, parsed.value.keys;
      assert keys == TransactionHashes(Decode(event, decode).value);
      var toFetch := CollectMissing(keys);
      missing := toFetch;
      MissingKeysMembers(keys, old(db.payloads).Keys);
      err, data, caches, logs, runs := ResolveAndStore(block, toFetch, chain, net, faults);
      if err.None? {
        StoredCoversKeys(keys, old(db.payloads), missing, data);
      }
    }
  }
}
