/** The shared tables of the scheduler: per-host semaphores with their users, and the claimed probes. */
module Limits {
  /** An address, as its number. */
  type Ip = nat

  datatype Target = Target(ip: Ip, port: nat)

  /** What is claimed at most once: an address, a port and the name of a probe. */
  datatype Key = Key(target: Target, probe: string)

  // ----- semaphores of hosts, kept only while a plan uses them

  /** The semaphore of a host and how many plans hold a reference to it. */
  datatype Entry<S> = Entry(semaphore: S, users: int)

  /** `HostLimits::acquire`: an absent host gets the semaphore `created` for it. */
  function Enter<S>(entries: map<Ip, Entry<S>>, ip: Ip, created: S): map<Ip, Entry<S>> {
    var entry := if ip in entries then entries[ip] else Entry(created, 0);
    entries[ip := entry.(users := entry.users + 1)]
  }

  /** `HostLimits::release`. */
  function Leave<S>(entries: map<Ip, Entry<S>>, ip: Ip): map<Ip, Entry<S>> {
    if ip !in entries then entries
    else
      var entry := entries[ip].(users := entries[ip].users - 1);
      if entry.users == 0 then entries - {ip} else entries[ip := entry]
  }

  /** Releasing undoes acquiring, whether or not the host was known. */
  lemma LeaveUndoesEnter<S>(entries: map<Ip, Entry<S>>, ip: Ip, created: S)
    requires ip in entries ==> entries[ip].users != 0
    ensures Leave(Enter(entries, ip, created), ip) == entries
  {
    var entered := Enter(entries, ip, created);
    if ip in entries {
      assert Leave(entered, ip) == entered[ip := entries[ip]] == entries;
    } else {
      assert Leave(entered, ip) == entered - {ip} == entries;
    }
  }

  class Semaphore {
    var permits: nat

    constructor (permits: nat)
      ensures this.permits == permits
    {
      this.permits := permits;
    }
  }

  class HostLimits {
    var entries: map<Ip, Entry<Semaphore>>

    constructor ()
      ensures entries == map[]
    {
      entries := map[];
    }

    method Acquire(ip: Ip, permits: nat) returns (semaphore: Semaphore)
      modifies this
      ensures ip in entries && semaphore == entries[ip].semaphore
      ensures entries == Enter(old(entries), ip, semaphore)
      ensures ip !in old(entries) ==> fresh(semaphore) && semaphore.permits == permits
      ensures ip in old(entries) ==> semaphore == old(entries)[ip].semaphore
    {
      if ip !in entries {
        var created := new Semaphore(permits);
        entries := entries[ip := Entry(created, 0)];
      }
      var entry := entries[ip];
      entries := entries[ip := entry.(users := entry.users + 1)];
      semaphore := entry.semaphore;
    }

    method Release(ip: Ip)
      modifies this
      ensures entries == Leave(old(entries), ip)
    {
      if ip in entries {
        var entry := entries[ip];
        entries := entries[ip := entry.(users := entry.users - 1)];
        if entries[ip].users == 0 {
          entries := entries - {ip};
          assert entries == old(entries) - {ip};
        }
      }
    }
  }

  // ----- claimed probes, spread over shards

  const SHARDS: nat := 64

  type Hash = Target -> nat

  function ShardOf(hash: Hash, key: Key): nat {
    hash(key.target) % SHARDS
  }

  /** Every key lies in the shard its hash selects. */
  ghost predicate Placed(hash: Hash, shards: seq<set<Key>>) {
    |shards| == SHARDS && forall j, key :: 0 <= j < SHARDS && key in shards[j] ==> ShardOf(hash, key) == j
  }

  function Insert(hash: Hash, shards: seq<set<Key>>, key: Key): seq<set<Key>>
    requires |shards| == SHARDS
  {
    shards[ShardOf(hash, key) := shards[ShardOf(hash, key)] + {key}]
  }

  /** All claimed keys. */
  function Claimed(shards: seq<set<Key>>): set<Key> {
    if shards == [] then {} else shards[0] + Claimed(shards[1..])
  }

  lemma {:induction false} InClaimed(shards: seq<set<Key>>, key: Key)
    ensures key in Claimed(shards) <==> exists j :: 0 <= j < |shards| && key in shards[j]
  {
    if shards != [] {
      InClaimed(shards[1..], key);
      assert forall j :: 0 < j < |shards| ==> shards[j] == shards[1..][j - 1];
      if key in shards[0] {
        assert 0 <= 0 < |shards|;
      } else if key in Claimed(shards[1..]) {
        var j :| 0 <= j < |shards[1..]| && key in shards[1..][j];
        assert key in shards[j + 1];
      }
    }
  }

  /** A claim that looks at one shard only agrees with insertion into one set of all keys. */
  lemma ShardedClaim(hash: Hash, shards: seq<set<Key>>, key: Key)
    requires Placed(hash, shards)
    ensures key in shards[ShardOf(hash, key)] <==> key in Claimed(shards)
    ensures Placed(hash, Insert(hash, shards, key))
    ensures Claimed(Insert(hash, shards, key)) == Claimed(shards) + {key}
  {
    var after := Insert(hash, shards, key);
    InClaimed(shards, key);
    forall k
      ensures k in Claimed(after) <==> k in Claimed(shards) || k == key
    {
      InClaimed(shards, k);
      InClaimed(after, k);
      if k in Claimed(shards) {
        var j :| 0 <= j < |shards| && k in shards[j];
        assert k in after[j];
      }
      if k == key {
        assert k in after[ShardOf(hash, key)];
      }
    }
  }

  /** Claims of different keys do not affect each other, in either order. */
  lemma ClaimsCommute(hash: Hash, shards: seq<set<Key>>, one: Key, other: Key)
    requires Placed(hash, shards) && one != other
    ensures Insert(hash, Insert(hash, shards, one), other) == Insert(hash, Insert(hash, shards, other), one)
    ensures other in Claimed(Insert(hash, shards, one)) <==> other in Claimed(shards)
  {
    ShardedClaim(hash, shards, one);
    var i, j := ShardOf(hash, one), ShardOf(hash, other);
    if i == j {
      assert shards[i] + {one} + {other} == shards[i] + {other} + {one};
    }
    assert Insert(hash, Insert(hash, shards, one), other) == Insert(hash, Insert(hash, shards, other), one);
  }

  class SeenProbes {
    var shards: seq<set<Key>>
    const hash: Hash

    ghost predicate Valid()
      reads this
    {
      Placed(hash, shards)
    }

    ghost function Contents(): set<Key>
      reads this
    {
      Claimed(shards)
    }

    constructor (hash: Hash)
      ensures Valid() && Contents() == {} && this.hash == hash
    {
      this.hash := hash;
      shards := seq(SHARDS, _ => {});
      new;
      forall key
        ensures key !in Contents()
      {
        InClaimed(shards, key);
      }
    }

    /** True the first time the key is claimed. */
    method Claim(key: Key) returns (first: bool)
      requires Valid()
      modifies this
      ensures Valid()
      ensures first == (key !in old(Contents()))
      ensures Contents() == old(Contents()) + {key}
      ensures shards == Insert(hash, old(shards), key)
    {
      ShardedClaim(hash, shards, key);
      var shard := ShardOf(hash, key);
      first := key !in shards[shard];
      shards := shards[shard := shards[shard] + {key}];
    }
  }
}
