/** The repositories as the source writes them: objects whose methods issue one Redis command
    after another, or update a map in place. */
module Stores {
  import opened Wrappers
  import opened Codec
  import opened PresetMaps
  import opened Repositories

  /** The Redis server as the client sees it; every method is one command. */
  class Client {
    var hashes: map<string, Hash>
    var sets: map<string, set<string>>

    constructor ()
      ensures State() == Redis(map[], map[])
    {
      hashes, sets := map[], map[];
    }

    function State(): Redis
      reads this
    {
      Redis(hashes, sets)
    }

    method HMSet(key: string, fields: Hash)
      modifies this
      ensures hashes == old(hashes)[key := HashAt(old(State()), key) + fields] && sets == old(sets)
    {
      hashes := hashes[key := HashAt(State(), key) + fields];
    }

    method HGetAll(key: string) returns (h: Hash)
      ensures h == HashAt(State(), key)
    {
      h := HashAt(State(), key);
    }

    method Del(key: string) returns (n: nat)
      modifies this
      ensures n == if key in old(hashes) then 1 else 0
      ensures hashes == old(hashes) - {key} && sets == old(sets)
    {
      n := if key in hashes then 1 else 0;
      hashes := hashes - {key};
    }

    method SAdd(key: string, member: string)
      modifies this
      ensures sets == old(sets)[key := Members(old(State()), key) + {member}] && hashes == old(hashes)
    {
      sets := sets[key := Members(State(), key) + {member}];
    }

    method SRem(key: string, member: string)
      modifies this
      ensures sets == old(sets)[key := Members(old(State()), key) - {member}] && hashes == old(hashes)
    {
      sets := sets[key := Members(State(), key) - {member}];
    }
  }

  class RedisRepository {
    const client: Client

    constructor (client: Client)
      ensures this.client == client
    {
      this.client := client;
    }

    method CreatePresetMap(pm: PresetMap) returns (reply: Reply)
      modifies client
      ensures (client.State(), reply) == RedisStep(old(client.State()), Create(pm))
    {
      var found := GetPresetMap(pm.name);
      if found.Found? {
        return Failed(AlreadyExists);
      }
      reply := SavePresetMap(pm);
    }

    method UpdatePresetMap(pm: PresetMap) returns (reply: Reply)
      modifies client
      ensures (client.State(), reply) == RedisStep(old(client.State()), Update(pm))
    {
      var found := GetPresetMap(pm.name);
      if found == Failed(NotFound) {
        return found;
      }
      reply := SavePresetMap(pm);
    }

    method SavePresetMap(pm: PresetMap) returns (reply: Reply)
      modifies client
      ensures (client.State(), reply) == SaveStep(old(client.State()), pm)
    {
      RecordFits(Fields(pm));
      var fields := StructToFieldList(SCHEMA, Fields(pm), []);
      if fields.Failure? {
        return Failed(Unsavable(fields.error));
      }
      client.HMSet(RecordKey(pm.name), fields.value);
      client.SAdd(INDEX, pm.name);
      reply := Done;
    }

    method DeletePresetMap(name: string) returns (reply: Reply)
      modifies client
      ensures (client.State(), reply) == RedisStep(old(client.State()), Delete(name))
    {
      var n := client.Del(RecordKey(name));
      if n == 0 {
        assert client.hashes == old(client.hashes);
        return Failed(NotFound);
      }
      client.SRem(INDEX, name);
      reply := Done;
    }

    method GetPresetMap(name: string) returns (reply: Reply)
      ensures reply == match Stored(client.State(), name) case None => Failed(NotFound) case Some(pm) => Found(pm)
    {
      var h := client.HGetAll(RecordKey(name));
      if h == map[] {
        return Failed(NotFound);
      }
      var dst := Fields(Prepared(name));
      RecordFits(dst);
      LoadsAsRecord(h, dst);
      var loaded := LoadStruct(SCHEMA, h, dst, []);
      RecordFits(loaded.value);
      reply := Found(RecordOf(loaded.value));
    }

    /** One record per indexed name; a name whose hash is gone is passed over. */
    method ListPresetMaps() returns (records: seq<PresetMap>)
      ensures ListsOnce(ReaderOf(client.State()), Members(client.State(), INDEX), records)
    {
      ghost var read := ReaderOf(client.State());
      var all := Members(client.State(), INDEX);
      records := [];
      var names := all;
      assert all - names == {};
      while names != {}
        invariant names <= all && ListsOnce(read, all - names, records)
      {
        var name :| name in names;
        ListStep(read, all, names, name, records);
        var found := GetPresetMap(name);
        if found.Found? {
          records := records + [found.record];
        }
        names := names - {name};
      }
      assert all - names == all;
    }
  }

  ghost function Hits(read: Reader, names: set<string>): set<string> {
    set n | n in names && read(n).Some?
  }

  /** Exactly the records of these names, one for every name that has one. */
  ghost predicate ListsOnce(read: Reader, names: set<string>, records: seq<PresetMap>) {
    && (forall r :: r in records <==> exists n :: n in names && read(n) == Some(r))
    && |records| == |Hits(read, names)|
  }

  lemma ListStep(read: Reader, all: set<string>, names: set<string>, name: string, records: seq<PresetMap>)
    requires name in names && names <= all && ListsOnce(read, all - names, records)
    ensures ListsOnce(read, all - (names - {name}),
                      if read(name).Some? then records + [read(name).value] else records)
  {
    var visited, visited' := all - names, all - (names - {name});
    var records' := if read(name).Some? then records + [read(name).value] else records;
    assert visited' == visited + {name};
    forall r ensures r in records' <==> exists n :: n in visited' && read(n) == Some(r) {
      if r in records {
        var n :| n in visited && read(n) == Some(r);
        assert n in visited';
      }
      assert name in visited';
    }
    if read(name).Some? {
      assert Hits(read, visited') == Hits(read, visited) + {name};
    } else {
      assert Hits(read, visited') == Hits(read, visited);
    }
  }

  /** Such a listing is what the Redis repository replies. */
  lemma ListingIsTheReply(st: Redis, records: seq<PresetMap>)
    requires ListsOnce(ReaderOf(st), Members(st, INDEX), records)
    ensures RedisStep(st, List).1 == Listed(set r | r in records)
  {
    var read, names := ReaderOf(st), Members(st, INDEX);
    var all := set n | n in names && read(n).Some? :: read(n).value;
    assert RedisStep(st, List).1 == Listed(all);
    forall r ensures r in all <==> r in records {
      if r in records {
        var n :| n in names && read(n) == Some(r);
        assert read(n).Some? && read(n).value == r;
      }
    }
    assert all == set r | r in records;
  }

  /** The in-memory repository, which replaces records where Redis merges them. */
  class MemoryRepository {
    const triggerError: bool
    var presetmaps: Memory

    constructor (triggerError: bool)
      ensures this.triggerError == triggerError && presetmaps == map[]
    {
      this.triggerError := triggerError;
      presetmaps := map[];
    }

    method CreatePresetMap(pm: PresetMap) returns (reply: Reply)
      modifies this
      ensures !triggerError ==> (presetmaps, reply) == MemoryStep(old(presetmaps), Create(pm))
      ensures triggerError ==> presetmaps == old(presetmaps) && reply == Failed(DatabaseError)
    {
      if triggerError {
        return Failed(DatabaseError);
      }
      if pm.name == "" {
        return Failed(InvalidName);
      }
      if pm.name in presetmaps {
        return Failed(AlreadyExists);
      }
      presetmaps := presetmaps[pm.name := pm];
      reply := Done;
    }

    method UpdatePresetMap(pm: PresetMap) returns (reply: Reply)
      modifies this
      ensures !triggerError ==> (presetmaps, reply) == MemoryStep(old(presetmaps), Update(pm))
      ensures triggerError ==> presetmaps == old(presetmaps) && reply == Failed(DatabaseError)
    {
      if triggerError {
        return Failed(DatabaseError);
      }
      if pm.name !in presetmaps {
        return Failed(NotFound);
      }
      presetmaps := presetmaps[pm.name := pm];
      reply := Done;
    }

    method GetPresetMap(name: string) returns (reply: Reply)
      ensures !triggerError ==> reply == MemoryStep(presetmaps, Get(name)).1
      ensures triggerError ==> reply == Failed(DatabaseError)
    {
      if triggerError {
        return Failed(DatabaseError);
      }
      reply := if name in presetmaps then Found(presetmaps[name]) else Failed(NotFound);
    }

    method DeletePresetMap(name: string) returns (reply: Reply)
      modifies this
      ensures !triggerError ==> (presetmaps, reply) == MemoryStep(old(presetmaps), Delete(name))
      ensures triggerError ==> presetmaps == old(presetmaps) && reply == Failed(DatabaseError)
    {
      if triggerError {
        return Failed(DatabaseError);
      }
      if name !in presetmaps {
        return Failed(NotFound);
      }
      presetmaps := presetmaps - {name};
      reply := Done;
    }
  }
}
