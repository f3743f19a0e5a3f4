/** The write-behind record cache of a database interface (base/database/interface_cache.go,
  base/database/interface.go): whatever is cached, delayed, evicted or flushed, the interface shows the last
  write of every key, unless a write to the storage has failed. */
module WriteCache {
  import opened Common

  datatype Key = Key(database: string, id: string)

  /** A record with the metadata that decides what is shown; `expires` 0 means never. */
  datatype Record = Record(value: string, expires: nat, deleted: bool, secret: bool, crownjewel: bool)

  datatype PutError = UnknownDatabase | ReadOnly | PutDenied | StorageFailed

  datatype GetResult = Found(record: Record) | NotFound | GetDenied | NoDatabase

  /** Meta.CheckValidity */
  predicate Live(r: Record, now: nat) {
    !r.deleted && !(r.expires > 0 && r.expires < now)
  }

  function Lookup(m: map<Key, Record>, key: Key): Option<Record> {
    if key in m then Some(m[key]) else None
  }

  /** No record, or one that is marked as deleted. */
  predicate Gone(r: Option<Record>) {
    r.None? || r.value.deleted
  }

  predicate SameState(a: Option<Record>, b: Option<Record>) {
    a == b || (Gone(a) && Gone(b))
  }

  /** The options of an interface and the databases around it; `removeRunsHandler` tells whether the cache
      library runs the eviction handler when an entry is removed by name. */
  datatype Options = Options(
    databases: set<string>,
    readOnly: set<string>,
    shadowDelete: bool,
    cacheSize: nat,
    delayCachedWrites: string,
    local: bool,
    internal: bool,
    makeSecret: bool,
    makeCrownJewel: bool,
    absoluteExpiry: nat,
    removeRunsHandler: bool)
  {
    predicate AllPermissions() { local && internal }

    /** Options.hasAccessPermission */
    predicate Permits(r: Record) {
      AllPermissions() || !((!local && r.crownjewel) || (!internal && r.secret))
    }

    /** Options.Apply, as far as it touches the fields of a record here. */
    function Apply(r: Record): (a: Record)
      ensures a.value == r.value && (r.secret ==> a.secret) && (r.crownjewel ==> a.crownjewel)
      ensures makeSecret ==> a.secret
      ensures makeCrownJewel ==> a.crownjewel
      ensures absoluteExpiry > 0 ==> a.expires == absoluteExpiry && !a.deleted
      ensures absoluteExpiry == 0 ==> a.expires == r.expires && a.deleted == r.deleted
      ensures !makeSecret ==> a.secret == r.secret
      ensures !makeCrownJewel ==> a.crownjewel == r.crownjewel
    {
      var marked := r.(secret := r.secret || makeSecret, crownjewel := r.crownjewel || makeCrownJewel);
      if absoluteExpiry > 0 then marked.(expires := absoluteExpiry, deleted := false) else marked
    }
  }

  /** What an interface may answer to Get, given the last write of the key. */
  predicate Shows(o: Options, write: Option<Record>, now: nat, cached: bool, r: GetResult) {
    if Gone(write) then r == NotFound
    else if Live(write.value, now) || cached then
      r == if o.Permits(write.value) then Found(write.value) else GetDenied
    else r == NotFound
  }

  class Interface {
    const options: Options
    var cache: map<Key, Record>
    var writeCache: map<Key, Record>
    /** The storages of all databases. */
    var storage: map<Key, Record>
    /** History: the last write of every key, and the keys whose last write a storage has not taken. */
    ghost var last: map<Key, Record>
    ghost var lost: set<Key>

    /** What is stored or will be. */
    ghost function At(key: Key): Option<Record>
      reads this
    {
      if key in writeCache then Some(writeCache[key]) else Lookup(storage, key)
    }

    ghost predicate Valid()
      reads this
    {
      && "" !in options.databases
      && (options.cacheSize == 0 ==> cache == map[] && writeCache == map[])
      && forall k :: KeyValid(k)
    }

    ghost predicate KeyValid(k: Key)
      reads this
    {
      && (k in writeCache ==>
            && k.database == options.delayCachedWrites && k.database in options.databases
            && !writeCache[k].deleted && options.Apply(writeCache[k]) == writeCache[k])
      && (k in cache ==> !cache[k].deleted)
      && (k !in lost ==>
            && SameState(At(k), Lookup(last, k))
            && (k in cache ==> Lookup(last, k) == Some(cache[k]))
            && (k in writeCache ==> k in cache))
    }

    constructor (options: Options, storage: map<Key, Record>)
      requires "" !in options.databases
      ensures Valid() && this.options == options && last == storage && lost == {}
    {
      this.options := options;
      this.storage := storage;
      cache := map[];
      writeCache := map[];
      last := storage;
      lost := {};
    }

    /** Controller.Put for a record of a known database. */
    method Store(key: Key, r: Record)
      modifies this`storage
      ensures forall k :: Lookup(storage, k) ==
                          if k != key then Lookup(old(storage), k)
                          else if r.deleted && !options.shadowDelete then None else Some(r)
    {
      if !options.shadowDelete && r.deleted {
        storage := storage - {key};
      } else {
        storage := storage[key := r];
      }
    }

    /** The cache drops an entry and runs cacheEvictHandler; `ok` tells whether the storage takes a write. */
    method Evict(key: Key, ok: bool)
      requires Valid()
      modifies this
      ensures Valid() && last == old(last)
      ensures cache == old(cache) - {key}
      ensures writeCache == if key in old(cache) then old(writeCache) - {key} else old(writeCache)
      ensures lost == if !ok && key in old(cache) && key in old(writeCache) then old(lost) + {key} else old(lost)
    {
      if key !in cache {
        return;
      }
      if key in writeCache {
        var r := writeCache[key];
        writeCache := writeCache - {key};
        if ok {
          Store(key, r);
        } else {
          lost := lost + {key};
        }
      }
      cache := cache - {key};
      assert forall k :: old(KeyValid(k)) && k != key ==> KeyValid(k);
      assert old(KeyValid(key));
    }

    /** The cache stores an entry, and evicts whatever others it likes. */
    method CacheSet(key: Key, r: Record, victims: set<Key>, failing: set<Key>)
      requires Valid() && options.cacheSize > 0 && !r.deleted && (key in lost || Lookup(last, key) == Some(r))
      modifies this
      ensures Valid() && last == old(last) && old(lost) <= lost <= old(lost) + (failing * victims)
      ensures key in cache && cache[key] == r
      ensures Lookup(writeCache, key) == Lookup(old(writeCache), key) && writeCache.Keys <= old(writeCache.Keys)
    {
      assert KeyValid(key);
      cache := cache[key := r];
      assert forall k :: old(KeyValid(k)) && k != key ==> KeyValid(k);
      var todo := victims - {key};
      while todo != {}
        invariant Valid() && last == old(last) && old(lost) <= lost <= old(lost) + (failing * victims)
        invariant key !in todo && todo <= victims && key in cache && cache[key] == r
        invariant Lookup(writeCache, key) == Lookup(old(writeCache), key) && writeCache.Keys <= old(writeCache.Keys)
      {
        var victim :| victim in todo;
        Evict(victim, victim !in failing);
        todo := todo - {victim};
      }
    }

    /** Cache.Remove: the entry goes, with or without the eviction handler. */
    method Remove(key: Key, ok: bool)
      requires Valid() && key in lost
      modifies this
      ensures Valid() && last == old(last) && lost == old(lost) && key !in cache
      ensures writeCache == if options.removeRunsHandler && key in old(cache) then old(writeCache) - {key} else old(writeCache)
    {
      if options.removeRunsHandler {
        Evict(key, ok);
      } else {
        assert KeyValid(key);
        cache := cache - {key};
        assert forall k :: old(KeyValid(k)) && k != key ==> KeyValid(k);
      }
    }

    /** The write is put off until the write cache is flushed. */
    predicate Delays(key: Key, r: Record) {
      options.cacheSize > 0 && !r.deleted && key.database == options.delayCachedWrites
    }

    /** updateCache for a write: until the storage or the write cache has it, the key counts as lost. */
    method UpdateCache(key: Key, r: Record, victims: set<Key>, failing: set<Key>) returns (written: bool)
      requires Valid() && key in lost && key.database in options.databases && options.Apply(r) == r
      modifies this
      ensures Valid() && last == old(last) && old(lost) <= lost <= old(lost) + (failing * victims)
      ensures written <==> Delays(key, r)
      ensures written ==> key in cache && cache[key] == r && Lookup(writeCache, key) == Some(r)
      ensures key in cache ==> cache[key] == r
      ensures key in cache <==> options.cacheSize > 0 && !r.deleted
      ensures !written ==> (key in writeCache <==>
                key in old(writeCache) && !(options.removeRunsHandler && key in old(cache)))
    {
      assert KeyValid(key);
      if options.cacheSize == 0 {
        return false;
      }
      if r.deleted {
        Remove(key, key !in failing);
        return false;
      }
      CacheSet(key, r, victims, failing);
      if key.database == options.delayCachedWrites {
        assert forall k :: KeyValid(k);
        label before:
        writeCache := writeCache[key := r];
        assert forall k :: old@before(KeyValid(k)) && k != key ==> KeyValid(k);
        return true;
      }
      assert KeyValid(key);
      return false;
    }

    /** The record a restricted interface finds under the key is not permitted. */
    ghost predicate Denies(key: Key, now: nat)
      reads this
    {
      && !options.AllPermissions()
      && if key in cache then !options.Permits(cache[key])
         else key in storage && Live(storage[key], now) && !options.Permits(storage[key])
    }

    /** The delete of a key whose delayed write stays behind in the write cache. */
    ghost predicate LeavesWriteBehind(key: Key, r: Record)
      reads this
    {
      options.Apply(r).deleted && key in writeCache && !(options.removeRunsHandler && key in cache)
    }

    /** The part of Put and PutNew behind the permission check. */
    method Write(key: Key, r: Record, victims: set<Key>, failing: set<Key>) returns (error: Option<PutError>)
      requires Valid() && key.database in options.databases && options.Apply(r) == r
      modifies this
      ensures Valid() && (error == None || error == Some(StorageFailed))
      ensures error.Some? <==> key in failing && !Delays(key, r)
      ensures error.Some? ==> last == old(last)
      ensures error.None? ==> last == old(last)[key := r]
      ensures error.None? ==> (key in lost <==>
                r.deleted && key in old(writeCache) && !(options.removeRunsHandler && key in old(cache)))
      ensures forall k :: k in lost && k != key ==> k in old(lost) || k in failing
      ensures key in cache <==> options.cacheSize > 0 && !r.deleted
    {
      MarkLost(key);
      var written := UpdateCache(key, r, victims, failing);
      if written {
        Settle(key, r);
        return None;
      }
      if key in failing {
        return Some(StorageFailed);
      }
      assert KeyValid(key) && (key in writeCache ==> r.deleted);
      StoreLost(key, r);
      Settle(key, r);
      return None;
    }

    ghost method MarkLost(key: Key)
      requires Valid()
      modifies this`lost
      ensures Valid() && lost == old(lost) + {key}
    {
      lost := lost + {key};
      assert forall k :: old(KeyValid(k)) ==> KeyValid(k);
    }

    method StoreLost(key: Key, r: Record)
      requires Valid() && key in lost
      modifies this`storage
      ensures Valid()
      ensures Lookup(storage, key) == if r.deleted && !options.shadowDelete then None else Some(r)
    {
      Store(key, r);
      assert forall k :: old(KeyValid(k)) ==> KeyValid(k);
    }

    /** The write has arrived where it belongs: it is the last one now. */
    ghost method Settle(key: Key, r: Record)
      requires Valid() && key in lost && (key in cache ==> cache[key] == r)
      requires key in writeCache && !r.deleted ==> key in cache && writeCache[key] == r
      requires key !in writeCache ==> SameState(Lookup(storage, key), Some(r))
      modifies this`last, this`lost
      ensures Valid() && last == old(last)[key := r]
      ensures lost == if r.deleted && key in writeCache then old(lost) else old(lost) - {key}
    {
      assert KeyValid(key);
      last := last[key := r];
      if !(r.deleted && key in writeCache) {
        lost := lost - {key};
      }
      assert forall k :: old(KeyValid(k)) && k != key ==> KeyValid(k);
    }

    /** Put: the write is the last one, wherever it went, and nothing else changes, whatever is evicted. The
        keys that are lost afterwards are those of writes a storage refused, and a deleted key whose delayed
        write the cache left behind. `failing` are the keys the storage takes no write for. */
    method Put(key: Key, record: Record, now: nat, victims: set<Key>, failing: set<Key>)
      returns (error: Option<PutError>)
      requires Valid()
      modifies this
      ensures Valid()
      ensures error == Some(UnknownDatabase) <==> key.database !in options.databases
      ensures error == Some(ReadOnly) <==> key.database in options.databases && key.database in options.readOnly
      ensures error == Some(PutDenied) <==>
                key.database in options.databases && key.database !in options.readOnly && old(Denies(key, now))
      ensures error == Some(StorageFailed) <==>
                key.database in options.databases && key.database !in options.readOnly && !old(Denies(key, now)) &&
                key in failing && !Delays(key, options.Apply(record))
      ensures last == if error.None? then old(last)[key := options.Apply(record)] else old(last)
      ensures error.None? ==> (key in lost <==> old(LeavesWriteBehind(key, record)))
      ensures forall k :: k in lost && k != key ==> k in old(lost) || k in failing
      ensures error.Some? && error != Some(StorageFailed) ==> lost == old(lost) && cache == old(cache)
      ensures error.None? ==> (key in cache <==> options.cacheSize > 0 && !options.Apply(record).deleted)
    {
      if key.database !in options.databases {
        return Some(UnknownDatabase);
      }
      if key.database in options.readOnly {
        return Some(ReadOnly);
      }
      if !options.AllPermissions() {
        if key in cache {
          if !options.Permits(cache[key]) {
            return Some(PutDenied);
          }
        } else if key in storage && Live(storage[key], now) && !options.Permits(storage[key]) {
          return Some(PutDenied);
        }
      }
      error := Write(key, options.Apply(record), victims, failing);
    }

    /** PutNew: Put with fresh timestamps, which also undoes a deletion and an expiry. */
    method PutNew(key: Key, record: Record, now: nat, victims: set<Key>, failing: set<Key>)
      returns (error: Option<PutError>)
      requires Valid()
      modifies this
      ensures Valid()
      ensures error == Some(UnknownDatabase) <==> key.database !in options.databases
      ensures error == Some(ReadOnly) <==> key.database in options.databases && key.database in options.readOnly
      ensures error == Some(PutDenied) <==>
                key.database in options.databases && key.database !in options.readOnly && old(Denies(key, now))
      ensures error == Some(StorageFailed) ==> key in failing
      ensures last == if error.None? then old(last)[key := options.Apply(record.(expires := 0, deleted := false))]
                      else old(last)
      ensures error.None? ==> key !in lost
      ensures forall k :: k in lost && k != key ==> k in old(lost) || k in failing
    {
      error := Put(key, record.(expires := 0, deleted := false), now, victims, failing);
    }

    /** Get shows the last write, unless it was lost. A record that has expired is still shown while it is
        cached. */
    method Get(key: Key, now: nat, victims: set<Key>, failing: set<Key>) returns (r: GetResult)
      requires Valid()
      modifies this
      ensures Valid() && last == old(last) && old(lost) <= lost <= old(lost) + failing
      ensures r == NoDatabase <==> key.database !in options.databases
      ensures key.database in options.databases && key !in old(lost) ==>
                Shows(options, Lookup(old(last), key), now, key in old(cache), r)
      ensures r.Found? ==> (r.record.secret ==> options.internal) && (r.record.crownjewel ==> options.local)
      ensures r.GetDenied? && key !in old(lost) ==>
                && key in last
                && ((last[key].secret && !options.internal) || (last[key].crownjewel && !options.local))
      ensures r.NotFound? && key !in old(lost) && key in last && !last[key].deleted ==>
                key !in old(cache) && 0 < last[key].expires < now
      ensures r.Found? && options.cacheSize > 0 ==> key in cache && cache[key] == r.record
      ensures r.Found? && key !in old(cache) ==> !r.record.deleted && (r.record.expires == 0 || r.record.expires >= now)
    {
      assert KeyValid(key);
      if key.database !in options.databases {
        return NoDatabase;
      }
      if key in cache {
        return if options.Permits(cache[key]) then Found(cache[key]) else GetDenied;
      }
      if key !in storage || !Live(storage[key], now) {
        return NotFound;
      }
      var found := storage[key];
      if !options.Permits(found) {
        return GetDenied;
      }
      if options.cacheSize > 0 {
        CacheSet(key, found, victims, failing);
      }
      return Found(found);
    }

    /** flushWriteCache. A write of the batch that fails is lost with the write cache; without all
        permissions, every one does. */
    method Flush(percentThreshold: nat, failing: set<Key>)
      requires Valid()
      modifies this
      ensures Valid() && last == old(last) && cache == old(cache)
      ensures if old(writeCache) == map[] || |old(writeCache)| * 100 / options.cacheSize < percentThreshold
              then writeCache == old(writeCache) && storage == old(storage) && lost == old(lost)
              else writeCache == map[] &&
                   lost == old(lost) + if options.AllPermissions() then failing * old(writeCache.Keys) else old(writeCache.Keys)
    {
      if |writeCache| == 0 {
        return;
      }
      assert options.cacheSize > 0 by {
        assert exists k :: k in writeCache;
      }
      if |writeCache| * 100 / options.cacheSize < percentThreshold {
        return;
      }
      WriteAll(if options.AllPermissions() then failing else writeCache.Keys);
    }

    /** FlushCache, which is documented to write and clear the write cache: it goes on only without delayed writes, so
        it never has anything to write, and the write cache is as it was. */
    method FlushCache(failing: set<Key>)
      requires Valid()
      modifies this
      ensures Valid() && last == old(last) && lost == old(lost)
      ensures cache == old(cache) && writeCache == old(writeCache) && storage == old(storage)
      ensures options.delayCachedWrites == "" ==> writeCache == map[]
    {
      if options.delayCachedWrites != "" {
        return;
      }
      NothingDelayed();
      Flush(0, failing);
    }

    /** Without a database for delayed writes the write cache is empty. */
    lemma NothingDelayed()
      requires Valid() && options.delayCachedWrites == ""
      ensures writeCache == map[]
    {
      forall k ensures k !in writeCache {
        assert KeyValid(k);
      }
    }

    /** The batch is written, in any order, and the write cache cleared. */
    method WriteAll(failing: set<Key>)
      requires Valid()
      modifies this
      ensures Valid() && last == old(last) && cache == old(cache) && writeCache == map[]
      ensures lost == old(lost) + (failing * old(writeCache.Keys))
    {
      ghost var stored: set<Key> := {};
      var todo := writeCache.Keys;
      while todo != {}
        invariant Valid() && last == old(last) && cache == old(cache) && writeCache == old(writeCache)
        invariant todo <= writeCache.Keys && lost == old(lost) + (failing * (writeCache.Keys - todo))
        invariant forall k :: k in writeCache && k !in todo && k !in failing ==> Lookup(storage, k) == Some(writeCache[k])
      {
        var k :| k in todo;
        if k in failing {
          MarkLost(k);
        } else {
          StorePending(k);
        }
        todo := todo - {k};
      }
      label written:
      assert forall k :: KeyValid(k);
      writeCache := map[];
      assert forall k :: old@written(KeyValid(k)) ==> KeyValid(k);
    }

    /** One write of the batch; options are applied to it once more, which changes nothing. */
    method StorePending(key: Key)
      requires Valid() && key in writeCache
      modifies this`storage
      ensures Valid() && Lookup(storage, key) == Some(writeCache[key])
      ensures forall k :: k != key ==> Lookup(storage, k) == Lookup(old(storage), k)
    {
      assert KeyValid(key);
      Store(key, options.Apply(writeCache[key]));
      assert forall k :: old(KeyValid(k)) ==> KeyValid(k);
    }
  }

  // ------------------------------------------------------------ whole runs

  /** One call on an interface, or the cache evicting an entry by itself. */
  datatype Call =
    | PutCall(key: Key, record: Record, now: nat, victims: set<Key>, failing: set<Key>)
    | GetCall(key: Key, now: nat, victims: set<Key>, failing: set<Key>)
    | EvictCall(key: Key, ok: bool)
    | FlushCall(percentThreshold: nat, failing: set<Key>)

  datatype Answer = Stored(error: Option<PutError>) | Shown(result: GetResult) | Nothing

  /** The map of last writes after a call that was answered. */
  function MapAfter(o: Options, m: map<Key, Record>, c: Call, a: Answer): map<Key, Record> {
    if c.PutCall? && a == Stored(None) then m[c.key := o.Apply(c.record)] else m
  }

  /** The keys a plain map may not be able to answer for: those of writes that failed since the last one that
      did not, a deleted key whose delayed write stayed behind, and all without the permission to flush. */
  function LostAfter(o: Options, m: map<Key, Record>, lost: set<Key>, c: Call, a: Answer): set<Key> {
    match c
    case PutCall(key, record, _, _, failing) =>
      if a != Stored(None) then lost + failing
      else if o.Apply(record).deleted && (!o.removeRunsHandler || key in lost) then lost + failing + {key}
      else lost + failing - {key}
    case GetCall(_, _, _, failing) => lost + failing
    case EvictCall(key, ok) => if ok then lost else lost + {key}
    case FlushCall(_, failing) => if o.AllPermissions() then lost + failing else lost + m.Keys
  }

  /** The answer agrees with a plain map of last writes. */
  ghost predicate Agrees(o: Options, m: map<Key, Record>, lost: set<Key>, c: Call, a: Answer) {
    match c
    case PutCall(key, record, _, _, failing) =>
      && a.Stored?
      && (a.error == Some(UnknownDatabase) <==> key.database !in o.databases)
      && (a.error == Some(ReadOnly) <==> key.database in o.databases && key.database in o.readOnly)
      && (a.error == Some(PutDenied) ==> !o.AllPermissions())
      && (a.error == Some(StorageFailed) ==> key in failing)
    case GetCall(key, now, _, _) =>
      && a.Shown?
      && (a.result == NoDatabase <==> key.database !in o.databases)
      && (key.database in o.databases && key !in lost ==>
            Shows(o, Lookup(m, key), now, true, a.result) || Shows(o, Lookup(m, key), now, false, a.result))
    case _ => a == Nothing
  }

  ghost predicate RunAgrees(o: Options, m: map<Key, Record>, lost: set<Key>, calls: seq<Call>, answers: seq<Answer>)
    decreases |calls|
  {
    if calls == [] then answers == []
    else
      && answers != [] && Agrees(o, m, lost, calls[0], answers[0])
      && RunAgrees(o, MapAfter(o, m, calls[0], answers[0]), LostAfter(o, m, lost, calls[0], answers[0]),
                   calls[1..], answers[1..])
  }

  /** In every sequential run, with failing writes and deletes, an interface answers like a plain map of last
      writes for every key that is not lost. */
  method Run(i: Interface, calls: seq<Call>, ghost lost: set<Key>) returns (answers: seq<Answer>)
    requires i.Valid() && i.lost <= lost
    modifies i
    ensures i.Valid() && RunAgrees(i.options, old(i.last), lost, calls, answers)
    decreases |calls|
  {
    if calls == [] {
      return [];
    }
    ghost var m := i.last;
    var answer := RunOne(i, calls[0], lost);
    var rest := Run(i, calls[1..], LostAfter(i.options, m, lost, calls[0], answer));
    answers := [answer] + rest;
    assert answers[1..] == rest;
  }

  method RunOne(i: Interface, c: Call, ghost lost: set<Key>) returns (a: Answer)
    requires i.Valid() && i.lost <= lost
    modifies i
    ensures i.Valid() && Agrees(i.options, old(i.last), lost, c, a)
    ensures i.last == MapAfter(i.options, old(i.last), c, a)
    ensures i.lost <= LostAfter(i.options, old(i.last), lost, c, a)
  {
    match c {
      case PutCall(key, record, now, victims, failing) =>
        assert i.KeyValid(key);
        var error := i.Put(key, record, now, victims, failing);
        return Stored(error);
      case GetCall(key, now, victims, failing) =>
        var result := i.Get(key, now, victims, failing);
        return Shown(result);
      case EvictCall(key, ok) =>
        i.Evict(key, ok);
        return Nothing;
      case FlushCall(percentThreshold, failing) =>
        PendingIsKnown(i);
        i.Flush(percentThreshold, failing);
        return Nothing;
    }
  }

  lemma PendingIsKnown(i: Interface)
    requires i.Valid()
    ensures i.writeCache.Keys <= i.last.Keys + i.lost
  {
    forall k | k in i.writeCache ensures k in i.last || k in i.lost {
      assert i.KeyValid(k);
    }
  }

  /** Without failing writes, with all permissions and a cache library that runs the handler on removal, no
      key is ever lost. */
  lemma NothingLost(o: Options, m: map<Key, Record>, c: Call, a: Answer)
    requires o.AllPermissions() && o.removeRunsHandler && (c.EvictCall? ==> c.ok)
    requires !c.EvictCall? ==> c.failing == {}
    ensures LostAfter(o, m, {}, c, a) == {}
  {
  }
}
