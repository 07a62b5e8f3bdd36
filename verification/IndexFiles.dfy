/** UT_HashTable_Pro on disk: a snapshot, a log of changes since, and two files that steer recovery.

    Every file operation is atomic, except that writing the snapshot or an item of the log may stop
    half-way. */
module IndexFiles {
  import opened Options
  import opened FileBytes
  import L = IndexLog

  type Key = int
  type Value = int

  datatype Pair = Pair(key: Key, value: Value)
  datatype Item = Put(key: Key, value: Value) | Del(key: Key)

  /** A log: the items written, and the bytes behind them, which are what is left of an item that was
      not written to its end. */
  datatype Log = Log(items: seq<Item>, left: Bytes)

  /** A file that is being written to: not there, incomplete, or complete. */
  datatype Draft = NoDraft | Torn | Whole(entries: seq<Pair>)

  /** The files: snapshot, log, whether the mark of a clear exists, the snapshot being written
      (.tmp), the snapshot about to replace the old one (.new), and the lengths of keys and values. */
  datatype Files = Files(sto: Option<seq<Pair>>, inc: Option<Log>, flg: bool, tmp: Draft, new_: Option<seq<Pair>>,
    lay: L.Layout)

  datatype Op = TearTmp | FinishTmp(entries: seq<Pair>) | RenameTmpNew | RemoveNew | RemoveSto
    | RemoveInc | RemoveFlg | RenameNewSto | CreateInc | CreateFlg

  function Do(fs: Files, op: Op): Files
  {
    match op
    case TearTmp => fs.(tmp := Torn)
    case FinishTmp(entries) => fs.(tmp := Whole(entries))
    case RenameTmpNew => if fs.tmp.Whole? then fs.(new_ := Some(fs.tmp.entries), tmp := NoDraft) else fs
    case RemoveNew => fs.(new_ := None)
    case RemoveSto => fs.(sto := None)
    case RemoveInc => fs.(inc := None)
    case RemoveFlg => fs.(flg := false)
    case RenameNewSto => if fs.new_.Some? then fs.(sto := fs.new_, new_ := None) else fs
    case CreateInc => fs.(inc := Some(Log([], [])))
    case CreateFlg => fs.(flg := true)
  }

  function DoAll(fs: Files, ops: seq<Op>): Files
  {
    if ops == [] then fs else Do(DoAll(fs, ops[..|ops| - 1]), ops[|ops| - 1])
  }

  // ----- the bytes of the log

  /** The value of n bytes, and the bytes of a value. */
  function Number(b: Bytes): int
  {
    if b == [] then 0 else b[0] + 256 * Number(b[1..])
  }

  function BytesOf(x: int, n: nat): (b: Bytes)
    ensures |b| == n
    decreases n
  {
    if n == 0 then [] else [x % 256] + BytesOf(x / 256, n - 1)
  }

  function ItemOf(raw: L.Item): Item
  {
    match raw
    case Put(key, value) => Put(Number(key), Number(value))
    case Del(key) => Del(Number(key))
  }

  function ItemsOf(raws: seq<L.Item>): (items: seq<Item>)
    ensures |items| == |raws|
  {
    if raws == [] then [] else [ItemOf(raws[0])] + ItemsOf(raws[1..])
  }

  function RawOf(item: Item, lay: L.Layout): (raw: L.Item)
    ensures L.Fits(raw, lay)
  {
    match item
    case Put(key, value) => L.Put(BytesOf(key, lay.key), BytesOf(value, lay.value))
    case Del(key) => L.Del(BytesOf(key, lay.key))
  }

  /** What `persistent` writes for an item. */
  function Written(item: Item, lay: L.Layout): (b: Bytes)
    ensures |b| == L.Head(lay) + if item.Put? then lay.value else 0
  {
    L.Encode(RawOf(item, lay))
  }

  /** The numbers of n bytes. */
  function Limit(n: nat): nat
  {
    if n == 0 then 1 else 256 * Limit(n - 1)
  }

  predicate InRange(item: Item, lay: L.Layout)
  {
    0 <= item.key < Limit(lay.key) && (item.Put? ==> 0 <= item.value < Limit(lay.value))
  }

  lemma {:induction false} NumberBack(x: nat, n: nat)
    requires x < Limit(n)
    ensures Number(BytesOf(x, n)) == x
  {
    if n > 0 {
      NumberBack(x / 256, n - 1);
      assert BytesOf(x, n)[1..] == BytesOf(x / 256, n - 1);
    }
  }

  lemma ItemBack(item: Item, lay: L.Layout)
    requires InRange(item, lay)
    ensures ItemOf(RawOf(item, lay)) == item
  {
    NumberBack(item.key, lay.key);
    if item.Put? {
      NumberBack(item.value, lay.value);
    }
  }

  /** The log after an item, or after the first bytes of one, went over what was left. */
  function Appended(log: Log, item: Item, lay: L.Layout): Log
  {
    Log(log.items + [item], L.Behind(log.left, |Written(item, lay)|))
  }

  function TornBy(log: Log, item: Item, written: nat, lay: L.Layout): Log
  {
    if |Written(item, lay)| <= written then Appended(log, item, lay)
    else Log(log.items, Written(item, lay)[..written] + L.Behind(log.left, written))
  }

  /** The items that restore finds, if it does not fail: more than were written if the bytes behind
      them look like one. */
  function Found(log: Log, lay: L.Layout): Option<seq<Item>>
  {
    var s := L.Scan(log.left, lay);
    if s.ok then Some(log.items + ItemsOf(s.items)) else None
  }

  /** Restore stops at what is behind the items. */
  predicate Clean(log: Log, lay: L.Layout)
  {
    L.Stops(log.left, lay)
  }

  /** The file of a log. */
  ghost predicate IsFile(log: Log, file: Bytes, raws: seq<L.Item>, lay: L.Layout)
  {
    L.AllFit(raws, lay) && log.items == ItemsOf(raws) && file == L.EncodeAll(raws) + log.left
  }

  /** The loop of restore finds in the file of a log what is said to be found. */
  lemma FileReads(log: Log, file: Bytes, raws: seq<L.Item>, lay: L.Layout)
    requires IsFile(log, file, raws, lay)
    ensures var s := L.Scan(file, lay);
            Found(log, lay) == if s.ok then Some(ItemsOf(s.items)) else None
  {
    L.ItemsBack(raws, log.left, lay);
    ItemsOfBoth(raws, L.Scan(log.left, lay).items);
  }

  /** Writing an item where the items end makes the file of the log with the item, whatever is left
      behind it. */
  lemma AppendedFile(log: Log, file: Bytes, raws: seq<L.Item>, item: Item, lay: L.Layout)
    requires IsFile(log, file, raws, lay) && InRange(item, lay)
    ensures IsFile(Appended(log, item, lay), L.Overwrite(file, |L.EncodeAll(raws)|, Written(item, lay)),
              raws + [RawOf(item, lay)], lay)
  {
    hide L.Encode, L.Overwrite, L.Behind, ItemsOf;
    var raw := RawOf(item, lay);
    ItemBack(item, lay);
    L.OverwriteEnd(L.EncodeAll(raws), log.left, L.Encode(raw));
    L.EncodeMore(raws, [raw]);
    L.EncodeOne(raw);
    ItemsOfBoth(raws, [raw]);
    ItemsOfOne(raw);
  }

  lemma ItemsOfOne(raw: L.Item)
    ensures ItemsOf([raw]) == [ItemOf(raw)]
  {
  }

  /** The same for an item that is not written to its end. */
  lemma TornFile(log: Log, file: Bytes, raws: seq<L.Item>, item: Item, written: nat, lay: L.Layout)
    requires IsFile(log, file, raws, lay) && written < |Written(item, lay)|
    ensures IsFile(TornBy(log, item, written, lay),
              L.Overwrite(file, |L.EncodeAll(raws)|, Written(item, lay)[..written]), raws, lay)
  {
    hide L.Overwrite, L.Behind, ItemsOf, Written;
    L.OverwriteEnd(L.EncodeAll(raws), log.left, Written(item, lay)[..written]);
  }

  lemma {:induction false} ItemsOfBoth(a: seq<L.Item>, b: seq<L.Item>)
    ensures ItemsOf(a + b) == ItemsOf(a) + ItemsOf(b)
  {
    if a == [] {
      assert a + b == b;
    } else {
      ItemsOfBoth(a[1..], b);
      assert (a + b)[1..] == a[1..] + b;
    }
  }

  lemma CleanIsFound(log: Log, lay: L.Layout)
    requires Clean(log, lay)
    ensures Found(log, lay) == Some(log.items)
  {
    assert log.items + [] == log.items;
  }

  lemma NothingIsClean(lay: L.Layout)
    ensures Clean(Log([], []), lay) && Found(Log([], []), lay) == Some([])
  {
    CleanIsFound(Log([], []), lay);
  }

  /** The log as restore leaves it open: it goes on behind the items found. */
  function Reread(log: Log, lay: L.Layout): Log
  {
    var s := L.Scan(log.left, lay);
    if s.ok && s.length <= |log.left| then Log(log.items + ItemsOf(s.items), log.left[s.length..]) else log
  }

  lemma {:induction false} ScanEnds(left: Bytes, lay: L.Layout)
    ensures var s := L.Scan(left, lay); s.length <= |left| && (s.ok ==> L.Stops(left[s.length..], lay))
    decreases |left|
  {
    var turn := L.Next(left, lay);
    if turn.One? {
      ScanEnds(left[turn.length..], lay);
      var s := L.Scan(left[turn.length..], lay);
      assert left[turn.length..][s.length..] == left[turn.length + s.length..];
    } else {
      assert left[0..] == left;
    }
  }

  lemma RereadIs(log: Log, lay: L.Layout)
    requires Found(log, lay).Some?
    ensures Clean(Reread(log, lay), lay) && Found(log, lay) == Some(Reread(log, lay).items)
    ensures Clean(log, lay) ==> Reread(log, lay) == log
  {
    ScanEnds(log.left, lay);
    if Clean(log, lay) {
      assert log.items + [] == log.items && log.left[0..] == log.left;
    }
  }

  // ----- what the files stand for

  /** load: add every entry; one that is there already, or one too many, is an error. */
  function Load(entries: seq<Pair>, maxKeys: nat): Option<map<Key, Value>>
  {
    if entries == [] then Some(map[])
    else
      var e := entries[|entries| - 1];
      match Load(entries[..|entries| - 1], maxKeys)
      case None => None
      case Some(m) => if e.key in m || |m| >= maxKeys then None else Some(m[e.key := e.value])
  }

  /** Replay one item of the log; adds overwrite, and deleting what is not there is an error. */
  function Redo(m: map<Key, Value>, item: Item, maxKeys: nat): Option<map<Key, Value>>
  {
    match item
    case Put(key, value) => if key in m || |m| < maxKeys then Some(m[key := value]) else None
    case Del(key) => if key in m then Some(m - {key}) else None
  }

  function Replay(m: map<Key, Value>, log: seq<Item>, maxKeys: nat): Option<map<Key, Value>>
  {
    if log == [] then Some(m)
    else
      match Replay(m, log[..|log| - 1], maxKeys)
      case None => None
      case Some(m') => Redo(m', log[|log| - 1], maxKeys)
  }

  lemma ReplayNothing(maxKeys: nat, lay: L.Layout)
    ensures forall m :: Replay(m, [], maxKeys) == Some(m)
    ensures Found(Log([], []), lay) == Some([])
  {
    NothingIsClean(lay);
  }

  lemma ReplaySnoc(m: map<Key, Value>, log: seq<Item>, item: Item, maxKeys: nat)
    ensures Replay(m, log + [item], maxKeys) ==
      match Replay(m, log, maxKeys) case None => None case Some(m') => Redo(m', item, maxKeys)
  {
    assert (log + [item])[..|log|] == log;
  }

  /** The file operations of restore before it loads anything. */
  function SteerOps(fs: Files): seq<Op>
  {
    (if fs.flg then [RemoveSto, RemoveInc, RemoveFlg] else [])
    + (if fs.new_.Some? then [RemoveSto, RemoveInc, RenameNewSto] else [])
  }

  /** All the file operations of restore. */
  function RestoreOps(fs: Files): seq<Op>
  {
    SteerOps(fs) + (if fs.flg || fs.new_.Some? || fs.inc.None? then [CreateInc] else [])
  }

  /** What restore finds in snapshot and log in the end. */
  function Contents(fs: Files, maxKeys: nat): Option<map<Key, Value>>
  {
    match (if fs.sto.Some? then Load(fs.sto.value, maxKeys) else Some(map[]))
    case None => None
    case Some(m) => if fs.inc.Some? then ReplayFound(m, Found(fs.inc.value, fs.lay), maxKeys) else Some(m)
  }

  function ReplayFound(m: map<Key, Value>, found: Option<seq<Item>>, maxKeys: nat): Option<map<Key, Value>>
  {
    match found
    case None => None
    case Some(items) => Replay(m, items, maxKeys)
  }

  function Restored(fs: Files, maxKeys: nat): Option<map<Key, Value>>
  {
    Contents(DoAll(fs, RestoreOps(fs)), maxKeys)
  }

  /** What the steering files make of the others. */
  lemma SteeredIs(fs: Files)
    ensures var fs' := DoAll(fs, SteerOps(fs));
            && !fs'.flg && fs'.new_.None? && fs'.lay == fs.lay &&
              fs'.sto == (if fs.new_.Some? then fs.new_ else if fs.flg then None else fs.sto)
            && fs'.inc == if fs.flg || fs.new_.Some? then None else fs.inc
  {
    var fs1 := if fs.flg then Do(Do(Do(fs, RemoveSto), RemoveInc), RemoveFlg) else fs;
    var a := if fs.flg then [RemoveSto, RemoveInc, RemoveFlg] else [];
    var b := if fs.new_.Some? then [RemoveSto, RemoveInc, RenameNewSto] else [];
    if fs.flg {
      DoThree(fs, RemoveSto, RemoveInc, RemoveFlg);
    }
    assert DoAll(fs, a) == fs1;
    DoTwice(fs, a, b);
    if fs.new_.Some? {
      DoThree(fs1, RemoveSto, RemoveInc, RenameNewSto);
    }
    assert SteerOps(fs) == a + b;
  }

  /** The log that restore reads, or starts. */
  function OpenLog(fs: Files): Log
  {
    if fs.new_.Some? || fs.flg || fs.inc.None? then Log([], []) else fs.inc.value
  }

  /** What restore finds, by cases. */
  lemma RestoredIs(fs: Files, maxKeys: nat)
    ensures Restored(fs, maxKeys) ==
      if fs.new_.Some? then Load(fs.new_.value, maxKeys)
      else if fs.flg then Some(map[])
      else Contents(fs, maxKeys)
    ensures var fs' := DoAll(fs, RestoreOps(fs));
            !fs'.flg && fs'.new_.None? && fs'.inc == Some(OpenLog(fs)) && fs'.lay == fs.lay
  {
    hide SteerOps, Load;
    SteeredIs(fs);
    if fs.flg || fs.new_.Some? || fs.inc.None? {
      DoSnoc(fs, SteerOps(fs), CreateInc);
    } else {
      assert SteerOps(fs) + [] == SteerOps(fs);
    }
  }

  lemma DoSnoc(fs: Files, ops: seq<Op>, op: Op)
    ensures DoAll(fs, ops + [op]) == Do(DoAll(fs, ops), op)
  {
    assert (ops + [op])[..|ops|] == ops;
  }

  lemma {:induction false} DoTwice(fs: Files, a: seq<Op>, b: seq<Op>)
    ensures DoAll(fs, a + b) == DoAll(DoAll(fs, a), b)
  {
    if b == [] {
      assert a + b == a;
    } else {
      DoTwice(fs, a, b[..|b| - 1]);
      assert (a + b)[..|a + b| - 1] == a + b[..|b| - 1];
    }
  }

  lemma DoThree(fs: Files, x: Op, y: Op, z: Op)
    ensures DoAll(fs, [x, y, z]) == Do(Do(Do(fs, x), y), z)
  {
    DoSnoc(fs, [x, y], z);
    DoSnoc(fs, [x], y);
    DoSnoc(fs, [], x);
    assert [x, y, z] == [x, y] + [z] && [x, y] == [x] + [y] && [x] == [] + [x];
  }

  // ----- stopping half-way

  /** The part of a sequence of operations that was carried out before a stop. */
  ghost predicate Stopped(done: seq<Op>, ops: seq<Op>)
  {
    done <= ops
  }

  /** Stopping restore after any operation and running it again gives the same. */
  lemma {:induction false} RestoreAgain(fs: Files, done: seq<Op>, maxKeys: nat)
    requires Stopped(done, RestoreOps(fs))
    ensures Restored(DoAll(fs, done), maxKeys) == Restored(fs, maxKeys)
    ensures OpenLog(DoAll(fs, done)) == OpenLog(fs) && DoAll(fs, done).lay == fs.lay
  {
    ReplayNothing(maxKeys, fs.lay);
    hide Found, DoAll, Restored, RestoreOps, Load, Replay;
    RestoredIs(fs, maxKeys);
    RestorePoints(fs, done);
    RestoredIs(DoAll(fs, done), maxKeys);
  }

  /** Where a stop after so many operations leaves the files. */
  lemma {:induction false} RestorePoints(fs: Files, done: seq<Op>)
    requires Stopped(done, RestoreOps(fs))
    ensures var fs', k := DoAll(fs, done), |done|;
            var p := if fs.flg then 3 else 0;
            var q := if fs.new_.Some? then p + 3 else p;
            && fs'.lay == fs.lay && fs'.flg == (fs.flg && k < 3)
            && fs'.new_ == (if k < q then fs.new_ else None)
            && (k == 0 ==> fs' == fs)
            && (1 <= k < q && k != p ==> fs'.sto.None?) && (k == p == 3 ==> fs'.sto.None?)
            && ((k == 2 && p == 3) || (k == 3 == p) || k == p + 2 < q ==> fs'.inc.None?)
            && (q <= k && 0 < q ==> fs'.sto == fs.new_ && fs'.inc == if k == q then None else Some(Log([], [])))
            && (q == 0 ==> fs'.sto == fs.sto && fs'.inc == if k == 0 then fs.inc else Some(Log([], [])))
            && (q == 0 && k > 0 ==> fs.inc.None?)
    decreases |done|
  {
    if done != [] {
      var k := |done| - 1;
      RestorePoints(fs, done[..k]);
      assert done[k] == RestoreOps(fs)[k];
    }
  }

  /** The file operations of trim, the live map being saved as `entries`. */
  function TrimOps(entries: seq<Pair>): seq<Op>
  {
    [TearTmp, FinishTmp(entries), RemoveNew, RenameTmpNew, RemoveSto, RemoveInc, RenameNewSto, CreateInc]
  }

  function ClearOps(): seq<Op>
  {
    [CreateFlg, RemoveSto, RemoveInc, RemoveFlg, CreateInc]
  }

  /** Files as they are between calls. */
  ghost predicate Settled(fs: Files)
  {
    !fs.flg && fs.new_.None?
  }

  /** Stopping trim after any operation, restore yields the same map. */
  lemma {:induction false} TrimIsSafe(fs: Files, entries: seq<Pair>, done: seq<Op>, m: map<Key, Value>, maxKeys: nat)
    requires Settled(fs) && Restored(fs, maxKeys) == Some(m) && Load(entries, maxKeys) == Some(m)
    requires Stopped(done, TrimOps(entries))
    ensures Restored(DoAll(fs, done), maxKeys) == Some(m) && DoAll(fs, done).lay == fs.lay
    ensures OpenLog(DoAll(fs, done)) == if |done| <= 3 then OpenLog(fs) else Log([], [])
    ensures done == TrimOps(entries) ==> Settled(DoAll(fs, done)) && DoAll(fs, done).inc == Some(Log([], []))
  {
    ReplayNothing(maxKeys, fs.lay);
    hide Found, DoAll, Restored, RestoreOps, Load, Replay;
    RestoredIs(fs, maxKeys);
    TrimPoints(fs, entries, done);
    RestoredIs(DoAll(fs, done), maxKeys);
  }

  lemma {:induction false} TrimPoints(fs: Files, entries: seq<Pair>, done: seq<Op>)
    requires Settled(fs) && Stopped(done, TrimOps(entries))
    ensures var fs' := DoAll(fs, done);
            fs'.lay == fs.lay && !fs'.flg &&
            if |done| <= 3 then fs'.sto == fs.sto && fs'.inc == fs.inc && fs'.new_.None? &&
              (|done| >= 2 ==> fs'.tmp == Whole(entries))
            else if |done| <= 6 then fs'.new_ == Some(entries)
            else
              fs'.new_.None? && fs'.sto == Some(entries) && fs'.inc == if |done| == 7 then None else Some(Log([], []))
    ensures |done| == 6 ==> DoAll(fs, done).inc.None?
    decreases |done|
  {
    if done != [] {
      var k := |done| - 1;
      TrimPoints(fs, entries, done[..k]);
      assert done[k] == TrimOps(entries)[k];
    }
  }

  /** A whole trim: the files stand for the snapshot, whatever they stood for. */
  lemma TrimEnds(fs: Files, entries: seq<Pair>, m: map<Key, Value>, maxKeys: nat)
    requires Settled(fs) && Load(entries, maxKeys) == Some(m)
    ensures Restored(DoAll(fs, TrimOps(entries)), maxKeys) == Some(m)
    ensures Settled(DoAll(fs, TrimOps(entries))) && DoAll(fs, TrimOps(entries)).inc == Some(Log([], []))
    ensures DoAll(fs, TrimOps(entries)).lay == fs.lay
  {
    ReplayNothing(maxKeys, fs.lay);
    hide Found, DoAll, Restored, RestoreOps, Load, Replay;
    TrimPoints(fs, entries, TrimOps(entries));
    RestoredIs(DoAll(fs, TrimOps(entries)), maxKeys);
  }

  /** A whole clear: the files stand for nothing. */
  lemma ClearEnds(fs: Files, maxKeys: nat)
    requires Settled(fs)
    ensures Restored(DoAll(fs, ClearOps()), maxKeys) == Some(map[])
    ensures Settled(DoAll(fs, ClearOps())) && DoAll(fs, ClearOps()).inc == Some(Log([], []))
    ensures DoAll(fs, ClearOps()).lay == fs.lay
  {
    ReplayNothing(maxKeys, fs.lay);
    hide Found, DoAll, Restored, RestoreOps, Replay;
    ClearPoints(fs, ClearOps());
    RestoredIs(DoAll(fs, ClearOps()), maxKeys);
  }

  /** Stopping clear before its first operation leaves the old map, after it the empty one. */
  lemma {:induction false} ClearIsSafe(fs: Files, done: seq<Op>, m: map<Key, Value>, maxKeys: nat)
    requires Settled(fs) && Restored(fs, maxKeys) == Some(m) && Stopped(done, ClearOps())
    ensures Restored(DoAll(fs, done), maxKeys) == Some(if done == [] then m else map[])
    ensures OpenLog(DoAll(fs, done)) == if done == [] then OpenLog(fs) else Log([], [])
    ensures DoAll(fs, done).lay == fs.lay
    ensures done == ClearOps() ==> Settled(DoAll(fs, done))
  {
    ReplayNothing(maxKeys, fs.lay);
    hide Found, DoAll, Restored, RestoreOps, Replay;
    ClearPoints(fs, done);
    RestoredIs(DoAll(fs, done), maxKeys);
  }

  lemma {:induction false} ClearPoints(fs: Files, done: seq<Op>)
    requires Settled(fs) && Stopped(done, ClearOps())
    ensures var fs' := DoAll(fs, done);
            && fs'.lay == fs.lay && fs'.new_.None? && (fs'.flg <==> 1 <= |done| <= 3)
            && (|done| == 0 ==> fs' == fs)
            && (|done| >= 2 ==> fs'.sto.None?)
            && (|done| >= 3 ==> fs'.inc == if |done| <= 4 then None else Some(Log([], [])))
    decreases |done|
  {
    if done != [] {
      var k := |done| - 1;
      ClearPoints(fs, done[..k]);
      assert done[k] == ClearOps()[k];
    }
  }
}
