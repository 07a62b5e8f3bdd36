/** UT_HashTable_Pro in memory, with the log that it writes and the snapshots that it takes. */
module IndexTable {
  import opened IndexFiles
  import L = IndexLog
  import opened Options

  /** A chain has a key at most once. */
  ghost predicate ChainOk(chain: seq<Pair>)
  {
    forall i, j :: 0 <= i < j < |chain| ==> chain[i].key != chain[j].key
  }

  /** Walking a chain to the node of a key. */
  function Find(chain: seq<Pair>, key: Key): (i: nat)
    ensures i <= |chain| && (i < |chain| ==> chain[i].key == key)
    ensures forall j :: 0 <= j < i ==> chain[j].key != key
  {
    if chain == [] then 0
    else if chain[0].key == key then 0
    else 1 + Find(chain[1..], key)
  }

  function Has(chain: seq<Pair>, key: Key): bool
  {
    Find(chain, key) < |chain|
  }

  /** The bucket of a key: the remainder's absolute value. */
  function Bucket(key: Key, n: nat): (b: nat)
    requires 0 < n
    ensures b < n
  {
    (if key < 0 then -key else key) % n
  }

  /** The buckets hold exactly the map: each key in its own bucket, once, with its value. */
  ghost predicate Holds(buckets: seq<seq<Pair>>, m: map<Key, Value>)
  {
    && |buckets| > 0
    && (forall b :: 0 <= b < |buckets| ==> BucketOk(buckets, b, m))
    && (forall key {:trigger key in m} :: key in m ==> Has(buckets[Bucket(key, |buckets|)], key))
  }

  ghost predicate BucketOk(buckets: seq<seq<Pair>>, b: nat, m: map<Key, Value>)
    requires b < |buckets|
  {
    && ChainOk(buckets[b])
    && forall i :: 0 <= i < |buckets[b]| ==>
         Bucket(buckets[b][i].key, |buckets|) == b && buckets[b][i].key in m &&
           m[buckets[b][i].key] == buckets[b][i].value
  }

  lemma FindUnique(chain: seq<Pair>, i: nat)
    requires ChainOk(chain) && i < |chain|
    ensures Find(chain, chain[i].key) == i
  {
  }

  lemma HasIffIn(buckets: seq<seq<Pair>>, m: map<Key, Value>, key: Key)
    requires Holds(buckets, m)
    ensures var chain := buckets[Bucket(key, |buckets|)];
            (key in m <==> Has(chain, key)) && (key in m ==> chain[Find(chain, key)] == Pair(key, m[key]))
  {
    assert BucketOk(buckets, Bucket(key, |buckets|), m);
  }

  /** Replacing one bucket by another for the same keys, but for one. */
  lemma Rebucket(buckets: seq<seq<Pair>>, m: map<Key, Value>, key: Key, chain: seq<Pair>, m': map<Key, Value>)
    requires Holds(buckets, m)
    requires var b := Bucket(key, |buckets|);
             ChainOk(chain) && forall i :: 0 <= i < |chain| ==>
               Bucket(chain[i].key, |buckets|) == b && chain[i].key in m' && m'[chain[i].key] == chain[i].value
    requires forall k :: k != key ==> (k in m <==> k in m') && (k in m ==> m[k] == m'[k])
    requires key in m' ==> Has(chain, key)
    requires forall k :: k != key && k in m && Bucket(k, |buckets|) == Bucket(key, |buckets|) ==> Has(chain, k)
    ensures Holds(buckets[Bucket(key, |buckets|) := chain], m')
  {
    var b := Bucket(key, |buckets|);
    var buckets' := buckets[b := chain];
    forall c: nat | c < |buckets|
      ensures BucketOk(buckets', c, m')
    {
      assert BucketOk(buckets, c, m);
      if c != b {
        assert buckets'[c] == buckets[c];
      }
    }
    forall k | k in m'
      ensures Has(buckets'[Bucket(k, |buckets|)], k)
    {
      if k != key {
        assert k in m;
      }
    }
  }

  lemma ReplaceValue(buckets: seq<seq<Pair>>, m: map<Key, Value>, key: Key, value: Value)
    requires Holds(buckets, m) && key in m
    ensures var b := Bucket(key, |buckets|);
            var i := Find(buckets[b], key);
            i < |buckets[b]| && Holds(buckets[b := buckets[b][i := Pair(key, value)]], m[key := value])
  {
    var b := Bucket(key, |buckets|);
    assert BucketOk(buckets, b, m);
    HasIffIn(buckets, m, key);
    var chain := buckets[b];
    var i := Find(chain, key);
    var chain' := chain[i := Pair(key, value)];
    FindUnique(chain', i);
    forall k | k != key && k in m && Bucket(k, |buckets|) == b
      ensures Has(chain', k)
    {
      HasIffIn(buckets, m, k);
      assert chain'[Find(chain, k)].key == k;
      FindUnique(chain', Find(chain, k));
    }
    Rebucket(buckets, m, key, chain', m[key := value]);
  }

  lemma InsertPair(buckets: seq<seq<Pair>>, m: map<Key, Value>, key: Key, value: Value)
    requires Holds(buckets, m) && key !in m
    ensures var b := Bucket(key, |buckets|);
            Holds(buckets[b := [Pair(key, value)] + buckets[b]], m[key := value])
  {
    var b := Bucket(key, |buckets|);
    assert BucketOk(buckets, b, m);
    HasIffIn(buckets, m, key);
    var chain := buckets[b];
    var chain' := [Pair(key, value)] + chain;
    FindUnique(chain', 0);
    forall k | k != key && k in m && Bucket(k, |buckets|) == b
      ensures Has(chain', k)
    {
      HasIffIn(buckets, m, k);
      assert chain'[Find(chain, k) + 1].key == k;
      FindUnique(chain', Find(chain, k) + 1);
    }
    Rebucket(buckets, m, key, chain', m[key := value]);
  }

  /** A chain without its i-th node has the other keys, and only those. */
  lemma ChainWithout(chain: seq<Pair>, i: nat)
    requires ChainOk(chain) && i < |chain|
    ensures var chain' := chain[..i] + chain[i + 1..];
            && ChainOk(chain')
            && (forall j :: 0 <= j < |chain'| ==> chain'[j] in chain && chain'[j].key != chain[i].key)
            && (forall p :: p in chain && p != chain[i] ==> p in chain')
  {
    var chain' := chain[..i] + chain[i + 1..];
    forall p | p in chain && p != chain[i]
      ensures p in chain'
    {
      var j :| 0 <= j < |chain| && chain[j] == p;
      assert chain'[if j < i then j else j - 1] == p;
    }
  }

  lemma HasPair(chain: seq<Pair>, p: Pair)
    requires ChainOk(chain) && p in chain
    ensures Has(chain, p.key) && chain[Find(chain, p.key)] == p
  {
    var j :| 0 <= j < |chain| && chain[j] == p;
    FindUnique(chain, j);
  }

  lemma RemovePair(buckets: seq<seq<Pair>>, m: map<Key, Value>, key: Key)
    requires Holds(buckets, m) && key in m
    ensures var b := Bucket(key, |buckets|);
            var i := Find(buckets[b], key);
            i < |buckets[b]| && Holds(buckets[b := buckets[b][..i] + buckets[b][i + 1..]], m - {key})
  {
    var b := Bucket(key, |buckets|);
    assert BucketOk(buckets, b, m);
    HasIffIn(buckets, m, key);
    var chain := buckets[b];
    var i := Find(chain, key);
    var chain' := chain[..i] + chain[i + 1..];
    ChainWithout(chain, i);
    forall k | k != key && k in m && Bucket(k, |buckets|) == b
      ensures Has(chain', k)
    {
      HasIffIn(buckets, m, k);
      HasPair(chain', chain[Find(chain, k)]);
    }
    hide Bucket, Find;
    Rebucket(buckets, m, key, chain', m - {key});
  }

  // ----- the log

  /** What one more item in the log does to what restore yields. */
  lemma Logged(fs: Files, item: Item, maxKeys: nat)
    requires Settled(fs) && fs.inc.Some? && Clean(fs.inc.value, fs.lay)
    requires Clean(Appended(fs.inc.value, item, fs.lay), fs.lay)
    ensures Restored(fs.(inc := Some(Appended(fs.inc.value, item, fs.lay))), maxKeys) ==
      match Restored(fs, maxKeys) case None => None case Some(m) => Redo(m, item, maxKeys)
  {
    hide Found, Clean;
    var fs' := fs.(inc := Some(Appended(fs.inc.value, item, fs.lay)));
    CleanIsFound(fs.inc.value, fs.lay);
    CleanIsFound(fs'.inc.value, fs.lay);
    RestoredIs(fs, maxKeys);
    RestoredIs(fs', maxKeys);
    var start := if fs.sto.Some? then Load(fs.sto.value, maxKeys) else Some(map[]);
    if start.Some? {
      ReplaySnoc(start.value, fs.inc.value.items, item, maxKeys);
    }
  }

  // ----- restoring

  /** Loading that fails at some entry fails. */
  lemma {:induction false} LoadStops(entries: seq<Pair>, i: nat, maxKeys: nat)
    requires i <= |entries| && Load(entries[..i], maxKeys).None?
    ensures Load(entries, maxKeys).None?
    decreases |entries| - i
  {
    if i == |entries| {
      assert entries[..i] == entries;
    } else {
      assert entries[..i + 1][..i] == entries[..i];
      LoadStops(entries, i + 1, maxKeys);
    }
  }

  lemma {:induction false} ReplayStops(m: map<Key, Value>, log: seq<Item>, i: nat, maxKeys: nat)
    requires i <= |log| && Replay(m, log[..i], maxKeys).None?
    ensures Replay(m, log, maxKeys).None?
    decreases |log| - i
  {
    if i == |log| {
      assert log[..i] == log;
    } else {
      assert log[..i + 1] == log[..i] + [log[i]];
      ReplaySnoc(m, log[..i], log[i], maxKeys);
      ReplayStops(m, log, i + 1, maxKeys);
    }
  }

  // ----- snapshots

  /** Distinct entries, not too many, are loaded as the map that they list. */
  lemma {:induction false} LoadDistinct(entries: seq<Pair>, maxKeys: nat)
    requires ChainOk(entries) && |entries| <= maxKeys
    ensures Load(entries, maxKeys).Some? && Lists(entries, Load(entries, maxKeys).value)
  {
    if entries != [] {
      var k := |entries| - 1;
      LoadDistinct(entries[..k], maxKeys);
      ListsSnoc(entries[..k], entries[k], Load(entries[..k], maxKeys).value);
      assert entries[..k] + [entries[k]] == entries;
    }
  }

  /** The entries are those of the map, each once. */
  ghost predicate Lists(entries: seq<Pair>, m: map<Key, Value>)
  {
    && |m| == |entries|
    && (forall i :: 0 <= i < |entries| ==> entries[i].key in m && m[entries[i].key] == entries[i].value)
    && (forall key :: key in m ==> Pair(key, m[key]) in entries)
  }

  lemma ListsSnoc(entries: seq<Pair>, e: Pair, m: map<Key, Value>)
    requires Lists(entries, m) && ChainOk(entries + [e])
    ensures e.key !in m && Lists(entries + [e], m[e.key := e.value])
  {
    var all := entries + [e];
    forall p | p in entries
      ensures p.key != e.key
    {
      var i :| 0 <= i < |entries| && entries[i] == p;
      assert all[i] == p && all[|entries|] == e;
    }
    forall key | key in m
      ensures key != e.key
    {
      assert Pair(key, m[key]) in entries;
    }
    var m' := m[e.key := e.value];
    assert m'.Keys == m.Keys + {e.key};
    forall i | 0 <= i < |all|
      ensures all[i].key in m' && m'[all[i].key] == all[i].value
    {
      if i < |entries| {
        assert all[i] == entries[i];
      }
    }
    forall key | key in m'
      ensures Pair(key, m'[key]) in all
    {
      if key == e.key {
        assert all[|entries|] == e;
      } else {
        assert Pair(key, m[key]) in entries;
      }
    }
  }

  /** Two maps with the same list are the same. */
  lemma ListsOne(entries: seq<Pair>, m: map<Key, Value>, m': map<Key, Value>)
    requires Lists(entries, m) && Lists(entries, m')
    ensures m == m'
  {
    forall key | key in m
      ensures key in m' && m'[key] == m[key]
    {
      assert Pair(key, m[key]) in entries;
    }
    forall key | key in m'
      ensures key in m
    {
      assert Pair(key, m'[key]) in entries;
    }
  }

  class HashTable {
    const buckets: array<seq<Pair>>
    const maxKeyNum: nat
    var nowKeyNum: nat
    var fs: Files                 // the files on disk
    ghost var m: map<Key, Value>  // what the table holds

    /** init for a table without files. */
    constructor (tableSize: nat, maxKeyNum: nat, lay: L.Layout)
      requires tableSize > 0
      ensures Valid() && Durable() && m == map[] && this.maxKeyNum == maxKeyNum && fresh(buckets)
      ensures fs.inc == Some(Log([], [])) && fs.lay == lay
    {
      buckets := new seq<Pair>[if tableSize == 1 then 2 else tableSize](_ => []);
      this.maxKeyNum, nowKeyNum, m := maxKeyNum, 0, map[];
      fs := Files(None, Some(Log([], [])), false, NoDraft, None, lay);
      new;
      NothingIsClean(lay);
      RestoredIs(fs, maxKeyNum);
    }

    /** A new table for files that are there, before restore. */
    constructor ForFiles(tableSize: nat, maxKeyNum: nat, fs: Files)
      requires tableSize > 0
      ensures Shaped() && m == map[] && this.maxKeyNum == maxKeyNum && this.fs == fs && fresh(buckets)
    {
      buckets := new seq<Pair>[if tableSize == 1 then 2 else tableSize](_ => []);
      this.maxKeyNum, nowKeyNum, m, this.fs := maxKeyNum, 0, map[], fs;
    }

    /** The buckets hold what the table stands for. */
    ghost predicate Shaped()
      reads this`m, this`nowKeyNum, buckets
    {
      buckets.Length > 0 && Holds(buckets[..], m) && nowKeyNum == |m| <= maxKeyNum
    }

    ghost predicate Valid()
      reads this, buckets
    {
      Shaped() && Settled(fs) && fs.inc.Some?
    }

    /** Snapshot and log stand for what the table holds. */
    ghost predicate Durable()
      reads this
    {
      Restored(fs, maxKeyNum) == Some(m)
    }

    /** Restore would stop behind the items of the log. */
    predicate Tidy()
      reads this`fs
    {
      fs.inc.Some? && Clean(fs.inc.value, fs.lay)
    }

    /** pop_value: look up the value of a key. */
    method Query(key: Key) returns (r: Option<Value>)
      requires Valid()
      ensures r == if key in m then Some(m[key]) else None
    {
      HasIffIn(buckets[..], m, key);
      var chain := buckets[Bucket(key, buckets.Length)];
      var i := Find(chain, key);
      r := if i < |chain| then Some(chain[i].value) else None;
    }

    /** persistent: append an item to the log, over what is left behind the others. */
    method Append(item: Item)
      requires Valid()
      modifies this`fs
      ensures Valid() && fs == old(fs).(inc := Some(Appended(old(fs).inc.value, item, fs.lay)))
      ensures old(Durable() && Tidy()) && Tidy() ==> Restored(fs, maxKeyNum) == Redo(m, item, maxKeyNum)
    {
      hide Redo, Restored, Holds, Appended, Clean;
      if Tidy() && Clean(Appended(fs.inc.value, item, fs.lay), fs.lay) {
        Logged(fs, item, maxKeyNum);
      }
      fs := fs.(inc := Some(Appended(fs.inc.value, item, fs.lay)));
    }

    /** persistent, when the process stops after some bytes of the item. */
    method AppendTorn(item: Item, written: nat)
      requires Valid() && written < |Written(item, fs.lay)|
      modifies this`fs
      ensures Valid() && fs == old(fs).(inc := Some(TornBy(old(fs).inc.value, item, written, fs.lay)))
      ensures old(Durable() && Tidy()) && Tidy() ==> Durable()
    {
      hide Holds, Load, Replay, Clean;
      ghost var fs0 := fs;
      fs := fs.(inc := Some(TornBy(fs.inc.value, item, written, fs.lay)));
      RestoredIs(fs0, maxKeyNum);
      RestoredIs(fs, maxKeyNum);
      if Clean(fs0.inc.value, fs.lay) && Tidy() {
        CleanIsFound(fs0.inc.value, fs.lay);
        CleanIsFound(fs.inc.value, fs.lay);
      }
    }

    /** add: 0 for a new key, 1 for one that was there, -1 for failure.  The item is logged before
        anything else, so what the files stand for stays right exactly if the add overwrites (or
        changes nothing), or there is room for a new key; provided that restore stops behind the items. */
    method Add(key: Key, value: Value, overwrite: bool) returns (r: int)
      requires Valid()
      modifies this`fs, this`m, this`nowKeyNum, buckets
      ensures Valid()
      ensures r == if key in old(m) then 1 else if |old(m)| < maxKeyNum then 0 else -1
      ensures m == if r == 0 || (r == 1 && overwrite) then old(m)[key := value] else old(m)
      ensures fs == old(fs).(inc := Some(Appended(old(fs).inc.value, Put(key, value), fs.lay)))
      ensures old(Durable() && Tidy()) && Tidy() ==>
        (Durable() <==> if key in old(m) then overwrite || old(m)[key] == value else |old(m)| < maxKeyNum)
    {
      hide Restored, Holds, Appended, Clean;
      Append(Put(key, value));
      r := Insert(key, value, overwrite);
      assert key in old(m) ==> (old(m)[key := value] == old(m) <==> old(m)[key] == value);
    }

    /** add without the log, as restore calls it. */
    method Insert(key: Key, value: Value, overwrite: bool) returns (r: int)
      requires Shaped()
      modifies this`m, this`nowKeyNum, buckets
      ensures Shaped()
      ensures r == if key in old(m) then 1 else if |old(m)| < maxKeyNum then 0 else -1
      ensures m == if r == 0 || (r == 1 && overwrite) then old(m)[key := value] else old(m)
    {
      hide Holds, ChainOk, Find, Bucket;
      HasIffIn(buckets[..], m, key);
      ghost var m0 := m;
      var b := Bucket(key, buckets.Length);
      var chain := buckets[b];
      var i := Find(chain, key);
      if i < |chain| {
        if overwrite {
          ReplaceValue(buckets[..], m, key, value);
          m := m[key := value];
          Store(b, chain[i := Pair(key, value)]);
        }
        assert m.Keys == m0.Keys;
        return 1;
      }
      if nowKeyNum >= maxKeyNum {
        return -1;
      }
      InsertPair(buckets[..], m, key, value);
      m := m[key := value];
      assert m.Keys == m0.Keys + {key};
      Store(b, [Pair(key, value)] + chain);
      nowKeyNum := nowKeyNum + 1;
      r := 0;
    }

    method Store(b: nat, chain: seq<Pair>)
      requires b < buckets.Length
      modifies buckets
      ensures buckets[..] == old(buckets[..])[b := chain]
    {
      buckets[b] := chain;
    }

    /** del: 0 for success, 1 if there is no such key. */
    method Delete(key: Key) returns (r: int)
      requires Valid()
      modifies this`fs, this`m, this`nowKeyNum, buckets
      ensures Valid() && r == (if key in old(m) then 0 else 1) && m == old(m) - {key}
      ensures fs == if key in old(m) then old(fs).(inc := Some(Appended(old(fs).inc.value, Del(key), fs.lay)))
        else old(fs)
      ensures old(Durable() && Tidy()) && Tidy() ==> Durable()
    {
      hide Restored, Holds, Appended, Clean;
      var found := Query(key);
      if found.Some? {
        Append(Del(key));
      } else {
        assert m - {key} == m;
      }
      r := Remove(key);
    }

    /** del without the log. */
    method Remove(key: Key) returns (r: int)
      requires Shaped()
      modifies this`m, this`nowKeyNum, buckets
      ensures Shaped() && r == (if key in old(m) then 0 else 1) && m == old(m) - {key}
    {
      hide Holds, ChainOk, Find, Bucket;
      HasIffIn(buckets[..], m, key);
      ghost var m0 := m;
      var b := Bucket(key, buckets.Length);
      var chain := buckets[b];
      var i := Find(chain, key);
      if i >= |chain| {
        assert m - {key} == m;
        return 1;
      }
      RemovePair(buckets[..], m, key);
      m := m - {key};
      assert m0.Keys == m.Keys + {key};
      Store(b, chain[..i] + chain[i + 1..]);
      nowKeyNum := nowKeyNum - 1;
      r := 0;
    }

    // ----- restoring

    /** load: add all entries of a snapshot; a key that is there already, or one too many, is an error. */
    method LoadAll(entries: seq<Pair>) returns (code: int)
      requires Shaped() && m == map[]
      modifies this`m, this`nowKeyNum, buckets
      ensures Shaped() && (code == 0 <==> Load(entries, maxKeyNum).Some?)
      ensures code == 0 ==> Load(entries, maxKeyNum) == Some(m)
    {
      hide Holds;
      for i := 0 to |entries|
        invariant Shaped() && Load(entries[..i], maxKeyNum) == Some(m)
      {
        assert entries[..i + 1][..i] == entries[..i];
        var r := Insert(entries[i].key, entries[i].value, false);
        if r != 0 {
          LoadStops(entries, i + 1, maxKeyNum);
          return -9;
        }
      }
      assert entries[..|entries|] == entries;
      code := 0;
    }

    /** The loop of restore over the log. */
    method ReplayAll(log: seq<Item>) returns (code: int)
      requires Shaped()
      modifies this`m, this`nowKeyNum, buckets
      ensures Shaped() && (code == 0 <==> Replay(old(m), log, maxKeyNum).Some?)
      ensures code == 0 ==> Replay(old(m), log, maxKeyNum) == Some(m)
    {
      hide Holds;
      for i := 0 to |log|
        invariant Shaped() && Replay(old(m), log[..i], maxKeyNum) == Some(m)
      {
        assert log[..i + 1] == log[..i] + [log[i]];
        ReplaySnoc(old(m), log[..i], log[i], maxKeyNum);
        var r;
        match log[i] {
          case Put(key, value) =>
            r := Insert(key, value, true);
            r := if r < 0 then -1 else 0;
          case Del(key) =>
            r := Remove(key);
        }
        if r != 0 {
          ReplayStops(old(m), log, i + 1, maxKeyNum);
          return -1;
        }
      }
      assert log[..|log|] == log;
      code := 0;
    }

    /** restore into an empty table: it succeeds exactly if snapshot and log can be replayed, and
        then the table holds what they stand for.  The log goes on behind the items found. */
    method Restore() returns (code: int)
      requires Shaped() && m == map[]
      modifies this`fs, this`m, this`nowKeyNum, buckets
      ensures code == 0 <==> Restored(old(fs), maxKeyNum).Some?
      ensures code == 0 ==> Valid() && Durable() && Tidy() && Restored(old(fs), maxKeyNum) == Some(m)
      ensures code == 0 ==> fs == DoAll(old(fs), RestoreOps(old(fs))).(inc := Some(Reread(OpenLog(old(fs)), fs.lay)))
    {
      hide Holds, Load, Replay, DoAll, Found, Reread, Clean;
      ghost var fs0 := fs;
      RestoredIs(fs, maxKeyNum);
      ReplayNothing(maxKeyNum, fs.lay);
      NothingIsClean(fs.lay);
      Carry(SteerOps(fs));
      SteeredIs(fs0);
      if fs.sto.Some? {
        code := LoadAll(fs.sto.value);
        if code != 0 {
          return -1;
        }
      }
      if fs.inc.Some? {
        code := ReplayLog(fs.inc.value);
        if code != 0 {
          return;
        }
        assert SteerOps(fs0) + [] == SteerOps(fs0);
        RereadIs(fs.inc.value, fs.lay);
        CleanIsFound(Reread(fs.inc.value, fs.lay), fs.lay);
        fs := fs.(inc := Some(Reread(fs.inc.value, fs.lay)));
      } else {
        Create(SteerOps(fs0), fs0);
        RereadIs(fs.inc.value, fs.lay);
      }
      code := 0;
      RestoredIs(fs, maxKeyNum);
    }

    /** Read the log: the items, and what the bytes behind them are taken for. */
    method ReplayLog(log: Log) returns (code: int)
      requires Shaped()
      modifies this`m, this`nowKeyNum, buckets
      ensures Shaped() && (code == 0 <==> ReplayFound(old(m), Found(log, fs.lay), maxKeyNum).Some?)
      ensures code == 0 ==> ReplayFound(old(m), Found(log, fs.lay), maxKeyNum) == Some(m)
    {
      hide Holds, Replay;
      var s := L.ReadLog(log.left, fs.lay);
      if !s.ok {
        return -1;
      }
      code := ReplayAll(log.items + ItemsOf(s.items));
    }

    /** Start a new log. */
    method Create(ghost ops: seq<Op>, ghost fs0: Files)
      requires fs == DoAll(fs0, ops)
      modifies this`fs
      ensures fs == old(fs).(inc := Some(Log([], []))) && fs == DoAll(fs0, ops + [CreateInc])
    {
      DoSnoc(fs0, ops, CreateInc);
      fs := Do(fs, CreateInc);
    }

    /** save: travel all keys. */
    method Save() returns (entries: seq<Pair>)
      requires Valid()
      ensures Load(entries, maxKeyNum) == Some(m)
    {
      entries := [];
      var b := 0;
      while b < buckets.Length
        invariant b <= buckets.Length && Gathered(buckets[..], b, m, entries)
      {
        GatherMore(buckets[..], b, m, entries);
        entries := entries + buckets[b];
        b := b + 1;
      }
      GatheredAll(buckets[..], m, entries);
      LoadDistinct(entries, maxKeyNum);
      ListsOne(entries, m, Load(entries, maxKeyNum).value);
    }

    /** trim: save a snapshot and start a new log.  Afterwards the files stand for the table, even
        if they did not before. */
    method Trim()
      requires Valid()
      modifies this`fs
      ensures Valid() && Durable() && Tidy() && fs.inc == Some(Log([], [])) && fs.lay == old(fs).lay
    {
      hide Holds;
      NothingIsClean(fs.lay);
      var entries := Save();
      var ops := TrimOps(entries);
      TrimEnds(fs, entries, m, maxKeyNum);
      Carry(ops);
    }

    /** Carry out file operations one by one. */
    method Carry(ops: seq<Op>)
      modifies this`fs
      ensures fs == DoAll(old(fs), ops)
    {
      var i := 0;
      while i < |ops|
        invariant i <= |ops| && fs == DoAll(old(fs), ops[..i])
      {
        assert ops[..i + 1][..i] == ops[..i];
        fs := Do(fs, ops[i]);
        i := i + 1;
      }
      assert ops[..|ops|] == ops;
    }

    /** clear: forget everything. */
    method Clear()
      requires Valid()
      modifies this`fs, this`m, this`nowKeyNum, buckets
      ensures Valid() && Durable() && Tidy() && m == map[] && fs.inc == Some(Log([], [])) && fs.lay == old(fs).lay
    {
      hide Restored, DoAll;
      NothingIsClean(fs.lay);
      assert |ClearOps()| == 5;
      ClearEnds(fs, maxKeyNum);
      var i := 0;
      while i < buckets.Length
        invariant i <= buckets.Length && forall j :: 0 <= j < i ==> buckets[j] == []
        modifies buckets
      {
        buckets[i] := [];
        i := i + 1;
      }
      m, nowKeyNum := map[], 0;
      Carry(ClearOps());
    }
  }

  /** The entries are those of the first n buckets. */
  ghost predicate Gathered(buckets: seq<seq<Pair>>, n: nat, m: map<Key, Value>, entries: seq<Pair>)
  {
    && 0 < |buckets| && n <= |buckets| && ChainOk(entries)
    && (forall i :: 0 <= i < |entries| ==>
      entries[i].key in m && m[entries[i].key] == entries[i].value && Bucket(entries[i].key, |buckets|) < n)
    && (forall key :: key in m && Bucket(key, |buckets|) < n ==> Pair(key, m[key]) in entries)
  }

  lemma GatherMore(buckets: seq<seq<Pair>>, n: nat, m: map<Key, Value>, entries: seq<Pair>)
    requires Holds(buckets, m) && n < |buckets| && Gathered(buckets, n, m, entries)
    ensures Gathered(buckets, n + 1, m, entries + buckets[n])
  {
    hide Bucket;
    assert BucketOk(buckets, n, m);
    forall key | key in m && Bucket(key, |buckets|) < n + 1
      ensures Pair(key, m[key]) in entries + buckets[n]
    {
      HasIffIn(buckets, m, key);
    }
  }

  lemma GatheredAll(buckets: seq<seq<Pair>>, m: map<Key, Value>, entries: seq<Pair>)
    requires Gathered(buckets, |buckets|, m, entries)
    ensures Lists(entries, m)
  {
    assert forall key :: key in m ==> Bucket(key, |buckets|) < |buckets|;
    CountDistinct(entries, m);
  }

  lemma {:induction false} CountDistinct(entries: seq<Pair>, m: map<Key, Value>)
    requires ChainOk(entries)
    requires forall i :: 0 <= i < |entries| ==> entries[i].key in m
    requires forall key :: key in m ==> Pair(key, m[key]) in entries
    ensures |m| == |entries|
  {
    if entries == [] {
      assert m.Keys == {};
    } else {
      var k := |entries| - 1;
      var e := entries[k];
      var m' := m - {e.key};
      forall x | x in m'
        ensures Pair(x, m'[x]) in entries[..k]
      {
        assert Pair(x, m[x]) in entries;
        assert entries == entries[..k] + [e];
      }
      CountDistinct(entries[..k], m');
      assert m.Keys == m'.Keys + {e.key};
    }
  }
}
