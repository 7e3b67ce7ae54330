/** CassandraConn: the process-wide list of Thrift connections, add_node and get_client. The
    transports and clients themselves are not modelled: a connection is its endpoint settings
    and a client identity, and whether a transport is open is a set of client identities. */
module ConnectionPool {
  import opened Php

  /** The transport add_node wraps the socket in: framed, or buffered with 1024-byte read and
      write buffers. */
  datatype Transport = Framed | Buffered(readBuffer: nat, writeBuffer: nat)

  /** The socket settings of one node; a timeout that is not set keeps the socket's default. */
  datatype Endpoint = Endpoint(
    host: Bytes,
    port: int,
    persist: bool,
    sendTimeout: Option<Value>,
    recvTimeout: Option<Value>,
    transport: Transport)

  /** One entry of the pool: the node's transport settings and the client built on them. */
  datatype Connection = Connection(endpoint: Endpoint, client: nat)

  datatype PoolError = NoAvailableNode

  /** The settings add_node gives the socket and the transport: a timeout is set only when it
      is true in PHP's sense. */
  function MakeEndpoint(host: Bytes, port: int, framed: bool, sendTimeout: Value, recvTimeout: Value,
                        persist: bool): Endpoint
  {
    Endpoint(host, port, persist,
      if Truthy(sendTimeout) then Some(sendTimeout) else None,
      if Truthy(recvTimeout) then Some(recvTimeout) else None,
      if framed then Framed else Buffered(1024, 1024))
  }

  /** `perm` lists every position below n exactly once. */
  ghost predicate IsPermutation(perm: seq<nat>, n: nat) {
    && |perm| == n
    && (forall i :: 0 <= i < n ==> perm[i] < n)
    && (forall i, j :: 0 <= i < j < n ==> perm[i] != perm[j])
    && (forall v :: 0 <= v < n ==> v in perm)
  }

  /** The order shuffle leaves the list in, given as the old position of each new entry. */
  function Permute<T>(s: seq<T>, perm: seq<nat>): seq<T>
    requires forall i :: 0 <= i < |perm| ==> perm[i] < |s|
  {
    seq(|perm|, i requires 0 <= i < |perm| => s[perm[i]])
  }

  /** Shuffling keeps every entry, as often as it was there. */
  lemma {:induction false} PermuteKeepsEntries<T>(s: seq<T>, perm: seq<nat>)
    requires IsPermutation(perm, |s|)
    ensures multiset(Permute(s, perm)) == multiset(s)
  {
    if s != [] {
      var n := |s| - 1;
      assert n in perm;
      var j :| 0 <= j < |perm| && perm[j] == n;
      var rest := WithoutLast(perm, j);
      PermuteKeepsEntries(s[..n], rest);
      var q := Permute(s[..n], rest);
      PermuteSplit(s, perm, j, rest);
      MultisetInsert(q, j, s[n]);
      MultisetSnoc(s);
    }
  }

  lemma MultisetInsert<T>(q: seq<T>, j: nat, x: T)
    requires j <= |q|
    ensures multiset(q[..j] + [x] + q[j..]) == multiset(q) + multiset{x}
  {
    assert q == q[..j] + q[j..];
  }

  lemma MultisetSnoc<T>(s: seq<T>)
    requires |s| > 0
    ensures multiset(s) == multiset(s[..|s| - 1]) + multiset{s[|s| - 1]}
  {
    assert s == s[..|s| - 1] + [s[|s| - 1]];
  }

  /** Dropping the position that holds the largest value leaves a permutation of the rest. */
  lemma WithoutLast(perm: seq<nat>, j: nat) returns (rest: seq<nat>)
    requires |perm| > 0 && IsPermutation(perm, |perm|) && j < |perm| && perm[j] == |perm| - 1
    ensures rest == perm[..j] + perm[j + 1..]
    ensures IsPermutation(rest, |perm| - 1)
  {
    var n := |perm| - 1;
    rest := perm[..j] + perm[j + 1..];
    assert forall i :: 0 <= i < |rest| ==> rest[i] == if i < j then perm[i] else perm[i + 1];
    forall v | 0 <= v < n ensures v in rest {
      assert v in perm;
      var i :| 0 <= i < |perm| && perm[i] == v;
      assert rest[if i < j then i else i - 1] == v;
    }
  }

  lemma PermuteSplit<T>(s: seq<T>, perm: seq<nat>, j: nat, rest: seq<nat>)
    requires |s| > 0 && IsPermutation(perm, |s|) && j < |perm| && perm[j] == |s| - 1
    requires rest == perm[..j] + perm[j + 1..] && IsPermutation(rest, |s| - 1)
    ensures Permute(s, perm) == Permute(s[..|s| - 1], rest)[..j] + [s[|s| - 1]] + Permute(s[..|s| - 1], rest)[j..]
  {
    var p, q := Permute(s, perm), Permute(s[..|s| - 1], rest);
    assert forall i :: 0 <= i < |q| ==> q[i] == s[rest[i]];
  }

  /** Every entry has its own client, and every client is below n. */
  ghost predicate DistinctClients(s: seq<Connection>, n: nat) {
    && (forall i :: 0 <= i < |s| ==> s[i].client < n)
    && (forall i, j :: 0 <= i < j < |s| ==> s[i].client != s[j].client)
  }

  /** Shuffling keeps the clients distinct. */
  lemma PermuteKeepsClientsDistinct(s: seq<Connection>, perm: seq<nat>, n: nat)
    requires IsPermutation(perm, |s|) && DistinctClients(s, n)
    ensures DistinctClients(Permute(s, perm), n)
  {
    var p := Permute(s, perm);
    forall i, j | 0 <= i < j < |p| ensures p[i].client != p[j].client {
      if perm[i] < perm[j] {
        assert s[perm[i]].client != s[perm[j]].client;
      } else {
        assert s[perm[j]].client != s[perm[i]].client;
      }
    }
  }

  /** The position, from `from` on, of the first entry whose transport is open or opens; |s|
      when there is none. `opens(i)` says whether opening the i-th entry tried succeeds. */
  function FirstUsable(s: seq<Connection>, open: set<nat>, opens: nat -> bool, from: nat): (k: nat)
    requires from <= |s|
    ensures from <= k <= |s|
    ensures forall j :: from <= j < k ==> s[j].client !in open && !opens(j)
    ensures k < |s| ==> s[k].client in open || opens(k)
    decreases |s| - from
  {
    if from == |s| then from
    else if s[from].client in open || opens(from) then from
    else FirstUsable(s, open, opens, from + 1)
  }

  /** The static state of CassandraConn. */
  class Pool {
    /** `self::$connections`, in its current order. */
    var connections: seq<Connection>
    /** The clients whose transport is open. */
    var openClients: set<nat>
    /** Whether `self::$last_error` has been set; its text is not modelled. */
    var lastErrorSet: bool
    /** How many clients have been built, which gives every new client a fresh identity. */
    var created: nat

    /** Every entry has its own client, and only built clients are open. */
    ghost predicate Valid()
      reads this
    {
      && DistinctClients(connections, created)
      && (forall x :: x in openClients ==> x < created)
    }

    constructor ()
      ensures Valid()
      ensures connections == [] && openClients == {} && !lastErrorSet
    {
      connections := [];
      openClients := {};
      lastErrorSet := false;
      created := 0;
    }

    /** add_node: build a transport and a client for the node and append them, closed; when
        building fails (`fails`, a TException), record the error and leave the list alone. */
    method AddNode(host: Bytes, port: int, framed: bool, sendTimeout: Value, recvTimeout: Value,
                   persist: bool, fails: bool) returns (ok: bool)
      requires Valid()
      modifies this
      ensures Valid()
      ensures ok == !fails
      ensures ok ==> connections == old(connections) + [Connection(MakeEndpoint(host, port, framed, sendTimeout, recvTimeout, persist), old(created))]
      ensures ok ==> connections[|connections| - 1].client !in openClients
      ensures ok ==> lastErrorSet == old(lastErrorSet)
      ensures !ok ==> connections == old(connections) && lastErrorSet
      ensures openClients == old(openClients)
    {
      if fails {
        lastErrorSet := true;
        return false;
      }
      var endpoint := MakeEndpoint(host, port, framed, sendTimeout, recvTimeout, persist);
      connections := connections + [Connection(endpoint, created)];
      created := created + 1;
      return true;
    }

    /** get_client: shuffle the list into the order `perm`, then return the client of the
        first entry that is open or opens (`opens(i)` for the i-th entry tried), opening its
        transport; every entry tried before it failed to open and set the last error. */
    method GetClient(perm: seq<nat>, opens: nat -> bool) returns (r: Result<nat, PoolError>)
      requires Valid() && IsPermutation(perm, |connections|)
      modifies this
      ensures Valid()
      ensures connections == Permute(old(connections), perm)
      ensures multiset(connections) == multiset(old(connections))
      ensures var k := FirstUsable(connections, old(openClients), opens, 0);
        && (k < |connections| ==> r == Ok(connections[k].client) && openClients == old(openClients) + {connections[k].client})
        && (k == |connections| ==> r == Err(NoAvailableNode) && openClients == old(openClients))
        && lastErrorSet == (old(lastErrorSet) || k > 0)
    {
      PermuteKeepsEntries(connections, perm);
      PermuteKeepsClientsDistinct(connections, perm, created);
      connections := Permute(connections, perm);
      ghost var k := FirstUsable(connections, openClients, opens, 0);
      var i := 0;
      while i < |connections|
        invariant connections == Permute(old(connections), perm) && created == old(created)
        invariant openClients == old(openClients) && Valid()
        invariant i <= k
        invariant lastErrorSet == (old(lastErrorSet) || i > 0)
      {
        var connection := connections[i];
        if connection.client !in openClients {
          if !opens(i) {
            lastErrorSet := true;
            i := i + 1;
            continue;
          }
          openClients := openClients + {connection.client};
        }
        assert i == k;
        return Ok(connection.client);
      }
      return Err(NoAvailableNode);
    }
  }

  /** The pool is only ever appended to or reordered: after adding nodes and getting clients,
      the entries are the old ones plus the added ones. */
  lemma ShuffleThenAppend(s: seq<Connection>, perm: seq<nat>, added: Connection)
    requires IsPermutation(perm, |s|)
    ensures multiset(Permute(s, perm) + [added]) == multiset(s) + multiset{added}
  {
    PermuteKeepsEntries(s, perm);
  }
}
