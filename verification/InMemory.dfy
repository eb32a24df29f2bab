// internal/database/storage/engine/inmemory/inmenory.go: the sharded store behaves as one map.
module InMemory {
  import opened Wrappers
  import opened ByteCodec
  import opened WalRecord
  import opened Replay

  const DEFAULT_SHARDS := 100

  class Engine {
    const hash: Bytes -> nat       // FNV-1a in the program; any function will do
    var shards: seq<Store>

    ghost predicate Valid()
      reads this
    {
      && |shards| > 0
      && forall i, key :: 0 <= i < |shards| && key in shards[i] ==> hash(key) % |shards| == i
    }

    ghost function Keys(): (ks: set<Bytes>)
      reads this
    {
      set i, key | 0 <= i < |shards| && key in shards[i].Keys :: key
    }

    ghost function Contents(): (m: Store)
      requires Valid()
      reads this
      ensures forall key :: Lookup(m, key) == Lookup(shards[hash(key) % |shards|], key)
    {
      map key | key in Keys() :: shards[hash(key) % |shards|][key]
    }

    function Shard(key: Bytes): (i: nat)
      requires |shards| > 0
      reads this
      ensures i < |shards|
    {
      hash(key) % |shards|
    }

    constructor (hash: Bytes -> nat, count: int)
      ensures Valid() && Contents() == map[]
      ensures |shards| == if count <= 0 then 100 else count
      ensures this.hash == hash
    {
      this.hash := hash;
      shards := seq(if count <= 0 then DEFAULT_SHARDS else count, _ => map[]);
    }

    method Set(key: Bytes, value: Bytes)
      requires Valid()
      modifies this
      ensures Valid() && Contents() == old(Contents())[key := value]
    {
      var i := Shard(key);
      shards := shards[i := shards[i][key := value]];
      SameMap(Contents(), old(Contents())[key := value]);
    }

    method Get(key: Bytes) returns (value: Option<Bytes>)
      requires Valid()
      ensures value == Lookup(Contents(), key)
    {
      var i := Shard(key);
      value := if key in shards[i] then Some(shards[i][key]) else None;
    }

    method Del(key: Bytes)
      requires Valid()
      modifies this
      ensures Valid() && Contents() == old(Contents()) - {key}
    {
      var i := Shard(key);
      shards := shards[i := shards[i] - {key}];
      SameMap(Contents(), old(Contents()) - {key});
    }

    // One SET or DEL row. An unknown command is an error and a missing argument a panic; neither changes anything.
    method Exec(row: Row) returns (outcome: Outcome)
      requires Valid()
      modifies this
      ensures Valid()
      ensures outcome == Verdict(row)
      ensures Contents() == if IsWrite(row) then Apply(old(Contents()), row) else old(Contents())
      ensures row.methodId == 0 && |row.args| >= 2 ==> Contents() == old(Contents())[row.args[0] := row.args[1]]
      ensures row.methodId == 2 && |row.args| >= 1 ==> Contents() == old(Contents()) - {row.args[0]}
      ensures row.methodId != 0 && row.methodId != 2 ==> outcome == UnknownCommand && Contents() == old(Contents())
    {
      if row.methodId == SET {
        if |row.args| < 2 {
          return OutOfRange;
        }
        Set(row.args[0], row.args[1]);
        return Applied;
      } else if row.methodId == DEL {
        if |row.args| < 1 {
          return OutOfRange;
        }
        Del(row.args[0]);
        return Applied;
      }
      return UnknownCommand;
    }
  }
}
