/** Runs of the persistent index, with stops of the process at any byte of a log item and at any other
    file operation. */
module IndexRuns {
  import opened Options
  import opened FileBytes
  import opened IndexFiles
  import opened IndexTable
  import L = IndexLog

  /** What happens to an index.  SetTorn and DropTorn stop when so many bytes of their log item are
      written, a trim or a clear after so many file operations, if at all.  After a stop the index is
      opened again, and each of `opens` is a number of file operations after which restore is stopped,
      before it is run to its end. */
  datatype Step =
    | Set(key: Key, value: Value)
    | Drop(key: Key)
    | SetTorn(key: Key, value: Value, written: nat, opens: seq<nat>)
    | DropTorn(key: Key, written: nat, opens: seq<nat>)
    | Trim(stop: Option<nat>, opens: seq<nat>)
    | Clear(stop: Option<nat>, opens: seq<nat>)
    | Reopen(opens: seq<nat>)

  /** What the index holds, and the bytes behind the items of its log. */
  datatype Held = Held(m: map<Key, Value>, left: Bytes)

  /** What is left behind the items when another is written, or the beginning of one. */
  function Over(left: Bytes, item: Item, lay: L.Layout): Bytes
  {
    Appended(Log([], left), item, lay).left
  }

  function OverTorn(left: Bytes, item: Item, written: nat, lay: L.Layout): Bytes
  {
    TornBy(Log([], left), item, written, lay).left
  }

  /** A step whose log item is written to its end. */
  function Redone(m: map<Key, Value>, item: Item, written: nat, lay: L.Layout): map<Key, Value>
  {
    if written < |Written(item, lay)| then m
    else if item.Put? then m[item.key := item.value] else m - {item.key}
  }

  /** What the index holds after a step. */
  function After(h: Held, step: Step, lay: L.Layout): Held
  {
    match step
    case Set(key, value) => Held(h.m[key := value], Over(h.left, Put(key, value), lay))
    case Drop(key) => if key in h.m then Held(h.m - {key}, Over(h.left, Del(key), lay)) else h
    case SetTorn(key, value, written, _) =>
      Held(Redone(h.m, Put(key, value), written, lay), OverTorn(h.left, Put(key, value), written, lay))
    case DropTorn(key, written, _) =>
      if key in h.m then Held(Redone(h.m, Del(key), written, lay), OverTorn(h.left, Del(key), written, lay)) else h
    case Trim(stop, _) => if stop.Some? && stop.value <= 3 then h else h.(left := [])
    case Clear(stop, _) => if stop == Some(0) then h else Held(map[], [])
    case Reopen(_) => h
  }

  /** An add for which there is room, and no step leaves bytes that restore would take for an item or
      fail at. */
  ghost predicate Safe(h: Held, step: Step, maxKeys: nat, lay: L.Layout)
  {
    && (step.Set? || step.SetTorn? ==> step.key in h.m || |h.m| < maxKeys)
    && L.Stops(After(h, step, lay).left, lay)
  }

  function AfterAll(steps: seq<Step>, lay: L.Layout): Held
  {
    if steps == [] then Held(map[], []) else After(AfterAll(steps[..|steps| - 1], lay), steps[|steps| - 1], lay)
  }

  ghost predicate AllSafe(steps: seq<Step>, maxKeys: nat, lay: L.Layout)
  {
    forall k :: 0 <= k < |steps| ==> Safe(AfterAll(steps[..k], lay), steps[k], maxKeys, lay)
  }

  /** Table and files agree, and hold what is due. */
  ghost predicate Due(t: HashTable, h: Held, maxKeys: nat, lay: L.Layout)
    reads t, t.buckets
  {
    && t.Valid() && t.Durable() && t.Tidy() && t.m == h.m && t.fs.inc.value.left == h.left
    && t.maxKeyNum == maxKeys && t.fs.lay == lay
  }

  /** The operations that get done. */
  function Part(ops: seq<Op>, stop: nat): seq<Op>
  {
    if stop < |ops| then ops[..stop] else ops
  }

  lemma PartStops(ops: seq<Op>, stop: nat)
    ensures Stopped(Part(ops, stop), ops)
  {
  }

  /** Files that hold what is due, once restore has run. */
  ghost predicate Waiting(fs: Files, h: Held, maxKeys: nat, lay: L.Layout)
  {
    Restored(fs, maxKeys) == Some(h.m) && OpenLog(fs).left == h.left && fs.lay == lay && L.Stops(h.left, lay)
  }

  /** Open the index again: a new table, and restore, stopped any number of times. */
  method Open(tableSize: nat, maxKeys: nat, fs: Files, opens: seq<nat>, ghost h: Held) returns (t: HashTable)
    requires tableSize > 0 && Waiting(fs, h, maxKeys, fs.lay)
    ensures fresh(t) && fresh(t.buckets) && Due(t, h, maxKeys, fs.lay)
  {
    hide Restored, RestoreOps, DoAll, HashTable.Shaped, Settled, Reread;
    t := new HashTable.ForFiles(tableSize, maxKeys, fs);
    for k := 0 to |opens|
      invariant fresh(t) && fresh(t.buckets) && t.Shaped() && t.m == map[] && t.maxKeyNum == maxKeys
      invariant Waiting(t.fs, h, maxKeys, fs.lay)
    {
      var done := Part(RestoreOps(t.fs), opens[k]);
      PartStops(RestoreOps(t.fs), opens[k]);
      RestoreAgain(t.fs, done, maxKeys);
      t.Carry(done);
    }
    ghost var fs0 := t.fs;
    RestoredIs(fs0, maxKeys);
    CleanIsFound(OpenLog(fs0), fs.lay);
    RereadIs(OpenLog(fs0), fs.lay);
    var code := t.Restore();
  }

  /** Files of a table that agrees with them. */
  lemma DueIsWaiting(t: HashTable, h: Held, maxKeys: nat, lay: L.Layout)
    requires Due(t, h, maxKeys, lay)
    ensures Waiting(t.fs, h, maxKeys, lay)
  {
    hide Restored, HashTable.Shaped;
  }

  /** A trim that is stopped. */
  method StopTrim(t: HashTable, stop: nat, ghost h: Held)
    requires Due(t, h, t.maxKeyNum, t.fs.lay)
    modifies t`fs
    ensures Waiting(t.fs, After(h, Trim(Some(stop), []), old(t.fs.lay)), t.maxKeyNum, old(t.fs.lay))
  {
    hide Restored, DoAll, Load;
    NothingIsClean(t.fs.lay);
    var entries := t.Save();
    var done := Part(TrimOps(entries), stop);
    PartStops(TrimOps(entries), stop);
    TrimIsSafe(t.fs, entries, done, t.m, t.maxKeyNum);
    t.Carry(done);
  }

  method StopClear(t: HashTable, stop: nat, ghost h: Held)
    requires Due(t, h, t.maxKeyNum, t.fs.lay)
    modifies t`fs
    ensures Waiting(t.fs, After(h, Clear(Some(stop), []), old(t.fs.lay)), t.maxKeyNum, old(t.fs.lay))
  {
    hide Restored, DoAll;
    NothingIsClean(t.fs.lay);
    var done := Part(ClearOps(), stop);
    PartStops(ClearOps(), stop);
    ClearIsSafe(t.fs, done, t.m, t.maxKeyNum);
    t.Carry(done);
  }

  /** The process stops while an item is written to the log. */
  method StopAppend(t: HashTable, item: Item, written: nat, ghost h: Held)
    requires Due(t, h, t.maxKeyNum, t.fs.lay)
    requires if item.Put? then item.key in h.m || |h.m| < t.maxKeyNum else item.key in h.m
    requires L.Stops(OverTorn(h.left, item, written, t.fs.lay), t.fs.lay)
    modifies t`fs
    ensures var lay := old(t.fs.lay);
            Waiting(t.fs, Held(Redone(h.m, item, written, lay), OverTorn(h.left, item, written, lay)), t.maxKeyNum, lay)
  {
    hide Restored, HashTable.Shaped, Written;
    if written < |Written(item, t.fs.lay)| {
      t.AppendTorn(item, written);
    } else {
      t.Append(item);
    }
  }

  /** A step that stops the process, or opens the index again. */
  method Stop(t: HashTable, step: Step, ghost h: Held)
    requires Due(t, h, t.maxKeyNum, t.fs.lay) && Safe(h, step, t.maxKeyNum, t.fs.lay)
    requires match step
             case Set(_, _) => false
             case Drop(_) => false
             case Trim(stop, _) => stop.Some?
             case Clear(stop, _) => stop.Some?
             case _ => true
    modifies t`fs
    ensures Waiting(t.fs, After(h, step, old(t.fs.lay)), t.maxKeyNum, old(t.fs.lay))
  {
    hide Restored, HashTable.Shaped, Written, Due, Waiting, OverTorn, Over, Redone, L.Stops;
    DueIsWaiting(t, h, t.maxKeyNum, t.fs.lay);
    match step {
      case SetTorn(key, value, written, _) =>
        StopAppend(t, Put(key, value), written, h);
      case DropTorn(key, written, _) =>
        var found := Look(t, key, h);
        if found.Some? {
          StopAppend(t, Del(key), written, h);
        }
      case Trim(stop, _) =>
        StopTrim(t, stop.value, h);
      case Clear(stop, _) =>
        StopClear(t, stop.value, h);
      case Reopen(_) =>
    }
  }

  method Look(t: HashTable, key: Key, ghost h: Held) returns (r: Option<Value>)
    requires Due(t, h, t.maxKeyNum, t.fs.lay)
    ensures r.Some? <==> key in h.m
  {
    r := t.Query(key);
  }

  /** A step that goes on. */
  method Go(t: HashTable, step: Step, ghost h: Held)
    requires Due(t, h, t.maxKeyNum, t.fs.lay) && Safe(h, step, t.maxKeyNum, t.fs.lay)
    requires step.Set? || step.Drop? || (step.Trim? && step.stop.None?) || (step.Clear? && step.stop.None?)
    modifies t, t.buckets
    ensures Due(t, After(h, step, old(t.fs.lay)), t.maxKeyNum, old(t.fs.lay))
  {
    hide Restored, HashTable.Shaped, Settled, Written;
    match step {
      case Set(key, value) =>
        var r := t.Add(key, value, true);
      case Drop(key) =>
        var r := t.Delete(key);
      case Trim(_, _) =>
        t.Trim();
      case Clear(_, _) =>
        t.Clear();
    }
  }

  method Perform(t0: HashTable, tableSize: nat, step: Step, ghost h: Held) returns (t: HashTable)
    requires tableSize > 0 && Due(t0, h, t0.maxKeyNum, t0.fs.lay) && Safe(h, step, t0.maxKeyNum, t0.fs.lay)
    modifies t0, t0.buckets
    ensures Due(t, After(h, step, old(t0.fs.lay)), t0.maxKeyNum, old(t0.fs.lay))
    ensures t == t0 || (fresh(t) && fresh(t.buckets))
  {
    hide Due, Waiting, Safe, After;
    t := t0;
    ghost var h', lay := After(h, step, t.fs.lay), t.fs.lay;
    if step.Set? || step.Drop? || (step.Trim? && step.stop.None?) || (step.Clear? && step.stop.None?) {
      Go(t, step, h);
    } else {
      Stop(t, step, h);
      LayIs(t.fs, h', t.maxKeyNum, lay);
      t := Open(tableSize, t.maxKeyNum, t.fs, step.opens, h');
    }
  }

  lemma LayIs(fs: Files, h: Held, maxKeys: nat, lay: L.Layout)
    requires Waiting(fs, h, maxKeys, lay)
    ensures fs.lay == lay
  {
  }

  /** Any run, stops included: in the end table and files hold what the adds and deletes say, if no
      add was refused and what torn items left behind is never taken for an item. */
  method Run(tableSize: nat, maxKeys: nat, lay: L.Layout, steps: seq<Step>) returns (t: HashTable)
    requires tableSize > 0 && AllSafe(steps, maxKeys, lay)
    ensures Due(t, AfterAll(steps, lay), maxKeys, lay)
  {
    hide Due, Safe, After;
    t := New(tableSize, maxKeys, lay);
    for k := 0 to |steps|
      invariant Due(t, AfterAll(steps[..k], lay), maxKeys, lay)
      invariant fresh(t) && fresh(t.buckets)
    {
      assert steps[..k + 1][..k] == steps[..k];
      DueIs(t, AfterAll(steps[..k], lay), maxKeys, lay);
      t := Perform(t, tableSize, steps[k], AfterAll(steps[..k], lay));
    }
    assert steps[..|steps|] == steps;
  }

  method New(tableSize: nat, maxKeys: nat, lay: L.Layout) returns (t: HashTable)
    requires tableSize > 0
    ensures fresh(t) && fresh(t.buckets) && Due(t, Held(map[], []), maxKeys, lay)
  {
    NothingIsClean(lay);
    t := new HashTable(tableSize, maxKeys, lay);
  }

  lemma DueIs(t: HashTable, h: Held, maxKeys: nat, lay: L.Layout)
    requires Due(t, h, maxKeys, lay)
    ensures t.maxKeyNum == maxKeys && t.fs.lay == lay
  {
  }
}
