/** The log of UT_HashTable_Pro byte by byte: items as `persistent` writes them, the loop of `restore`
    over them, and what an item that was not written to its end does to later ones. */
module IndexLog {
  import opened Zlib
  import opened FileBytes

  /** The lengths of a key and of a value, both fixed for a table. */
  datatype Layout = Layout(key: nat, value: nat)

  datatype Item = Put(key: Bytes, value: Bytes) | Del(key: Bytes)

  const MARK_LEN := 8
  const PUT_MARK: Bytes := [171, 171, 171, 171, 171, 171, 171, 171]
  const DEL_MARK: Bytes := [205, 205, 205, 205, 205, 205, 205, 205]

  /** The bytes of mark and key. */
  function Head(lay: Layout): nat
  {
    MARK_LEN + lay.key
  }

  predicate Fits(item: Item, lay: Layout)
  {
    |item.key| == lay.key && (item.Put? ==> |item.value| == lay.value)
  }

  predicate AllFit(items: seq<Item>, lay: Layout)
  {
    forall k :: 0 <= k < |items| ==> Fits(items[k], lay)
  }

  /** What `persistent` writes. */
  function Encode(item: Item): Bytes
  {
    match item
    case Put(key, value) => PUT_MARK + key + value
    case Del(key) => DEL_MARK + key
  }

  function EncodeAll(items: seq<Item>): Bytes
  {
    if items == [] then [] else Encode(items[0]) + EncodeAll(items[1..])
  }

  lemma {:induction false} EncodeMore(a: seq<Item>, b: seq<Item>)
    ensures EncodeAll(a + b) == EncodeAll(a) + EncodeAll(b)
  {
    hide Encode;
    if a == [] {
      assert a + b == b;
    } else {
      EncodeMore(a[1..], b);
      assert (a + b)[0] == a[0] && (a + b)[1..] == a[1..] + b;
      var x, y, z := Encode(a[0]), EncodeAll(a[1..]), EncodeAll(b);
      assert EncodeAll(a + b) == x + (y + z);
      assert x + (y + z) == (x + y) + z;
    }
  }

  lemma EncodeOne(item: Item)
    ensures EncodeAll([item]) == Encode(item)
  {
    assert EncodeAll([item]) == Encode(item) + EncodeAll([]);
  }

  // ----- reading

  /** One turn of the loop on the bytes that are left. */
  datatype Turn = One(item: Item, length: nat) | Stop | Bad

  function Next(rest: Bytes, lay: Layout): Turn
  {
    if |rest| < Head(lay) then Stop
    else
      var key := rest[MARK_LEN..Head(lay)];
      if rest[..MARK_LEN] == PUT_MARK then
        if |rest| < Head(lay) + lay.value then Stop
        else One(Put(key, rest[Head(lay)..Head(lay) + lay.value]), Head(lay) + lay.value)
      else if rest[..MARK_LEN] == DEL_MARK then One(Del(key), Head(lay))
      else Bad
  }

  /** The items found, the bytes they take, and whether the loop ended without an error. */
  datatype Scanned = Scanned(items: seq<Item>, length: nat, ok: bool)

  function Scan(rest: Bytes, lay: Layout): Scanned
  {
    match Next(rest, lay)
    case Stop => Scanned([], 0, true)
    case Bad => Scanned([], 0, false)
    case One(item, n) =>
      var s := Scan(rest[n..], lay);
      Scanned([item] + s.items, n + s.length, s.ok)
  }

  lemma ScanIs(rest: Bytes, lay: Layout)
    ensures var turn := Next(rest, lay);
            && (!turn.One? ==> Scan(rest, lay) == Scanned([], 0, turn.Stop?))
            && (turn.One? ==>
              && 0 < turn.length <= |rest|
              && var s := Scan(rest[turn.length..], lay);
                Scan(rest, lay) == Scanned([turn.item] + s.items, turn.length + s.length, s.ok))
  {
  }

  lemma NothingLeft(lay: Layout)
    ensures Next([], lay) == Stop
  {
  }

  /** The loop of restore. */
  method ReadLog(file: Bytes, lay: Layout) returns (s: Scanned)
    ensures s == Scan(file, lay)
  {
    hide Next, Scan;
    var items, cur := [], 0;
    assert file[0..] == file;
    while cur < |file|
      invariant cur <= |file|
      invariant var s := Scan(file[cur..], lay);
        Scan(file, lay) == Scanned(items + s.items, cur + s.length, s.ok)
    {
      ScanIs(file[cur..], lay);
      match Next(file[cur..], lay) {
        case Stop =>
          break;
        case Bad =>
          return Scanned(items, cur, false);
        case One(item, n) =>
          assert file[cur..][n..] == file[cur + n..];
          items := items + [item];
          cur := cur + n;
      }
    }
    NothingLeft(lay);
    ScanIs(file[cur..], lay);
    s := Scanned(items, cur, true);
  }

  lemma OneBack(item: Item, lay: Layout, rest: Bytes)
    requires Fits(item, lay)
    ensures Next(Encode(item) + rest, lay) == One(item, |Encode(item)|)
    ensures (Encode(item) + rest)[|Encode(item)|..] == rest
  {
    var all := Encode(item) + rest;
    assert all[MARK_LEN..Head(lay)] == item.key;
    if item.Put? {
      assert all[..MARK_LEN] == PUT_MARK;
      assert all[Head(lay)..Head(lay) + lay.value] == item.value;
    } else {
      assert all[..MARK_LEN] == DEL_MARK;
      assert DEL_MARK[0] != PUT_MARK[0];
    }
  }

  /** Whole items are read back, and the loop goes on behind them. */
  lemma {:induction false} ItemsBack(items: seq<Item>, rest: Bytes, lay: Layout)
    requires AllFit(items, lay)
    ensures var s := Scan(rest, lay);
            Scan(EncodeAll(items) + rest, lay) == Scanned(items + s.items, |EncodeAll(items)| + s.length, s.ok)
  {
    hide Next, Encode, Scan;
    if items == [] {
      assert EncodeAll(items) + rest == rest;
    } else {
      ItemsBack(items[1..], rest, lay);
      var more := EncodeAll(items[1..]) + rest;
      OneBack(items[0], lay, more);
      assert EncodeAll(items) + rest == Encode(items[0]) + more;
      ScanIs(EncodeAll(items) + rest, lay);
      assert items == [items[0]] + items[1..];
    }
  }

  // ----- a log that does not end with an item

  /** The loop stops at these bytes: too few for mark and key, or too few for the value of an add. */
  predicate Stops(rest: Bytes, lay: Layout)
  {
    |rest| < Head(lay) || (rest[..MARK_LEN] == PUT_MARK && |rest| < Head(lay) + lay.value)
  }

  /** Restore finds exactly the items if and only if it stops at what is behind them. */
  lemma TailIsRight(items: seq<Item>, tail: Bytes, lay: Layout)
    requires AllFit(items, lay)
    ensures Scan(EncodeAll(items) + tail, lay) == Scanned(items, |EncodeAll(items)|, true) <==> Stops(tail, lay)
  {
    ItemsBack(items, tail, lay);
    assert items + [] == items;
  }

  /** The bytes of an item that was not written to its end. */
  ghost predicate Torn(t: Bytes, item: Item, lay: Layout)
  {
    Fits(item, lay) && t < Encode(item)
  }

  lemma TornStops(t: Bytes, item: Item, lay: Layout)
    requires Torn(t, item, lay)
    ensures Stops(t, lay) && |t| < Head(lay) + lay.value
  {
    if |t| >= Head(lay) {
      assert t[..MARK_LEN] == Encode(item)[..MARK_LEN];
    }
  }

  /** A torn item is dropped, and no other with it. */
  lemma TornIsDropped(items: seq<Item>, t: Bytes, item: Item, lay: Layout)
    requires AllFit(items, lay) && Torn(t, item, lay)
    ensures Scan(EncodeAll(items) + t, lay) == Scanned(items, |EncodeAll(items)|, true)
  {
    TornStops(t, item, lay);
    TailIsRight(items, t, lay);
  }

  /** Writing at a position of a file overwrites what is there. */
  function Overwrite(file: Bytes, pos: nat, data: Bytes): Bytes
    requires pos <= |file|
  {
    file[..pos] + data + Behind(file[pos..], |data|)
  }

  /** What is left of t when n bytes are written over its beginning. */
  function Behind(t: Bytes, n: nat): Bytes
  {
    if n < |t| then t[n..] else []
  }

  lemma OverwriteEnd(a: Bytes, t: Bytes, b: Bytes)
    ensures Overwrite(a + t, |a|, b) == a + b + Behind(t, |b|)
  {
    assert (a + t)[..|a|] == a && (a + t)[|a|..] == t;
  }

  /** The file is not cut: items written after restore go over the torn one, of which an end may stay.
      The next restore finds all items if and only if that end is shorter than mark and key, or happens
      to begin with the mark of an add. */
  lemma WrittenOver(items: seq<Item>, t: Bytes, item: Item, more: seq<Item>, lay: Layout)
    requires AllFit(items, lay) && AllFit(more, lay) && Torn(t, item, lay)
    ensures var file := Overwrite(EncodeAll(items) + t, |EncodeAll(items)|, EncodeAll(more));
            var left := Behind(t, |EncodeAll(more)|);
            var right := Scan(file, lay) == Scanned(items + more, |EncodeAll(items + more)|, true);
            right <==> |left| < Head(lay) || left[..MARK_LEN] == PUT_MARK
  {
    hide Scan, Encode;
    var a, b := EncodeAll(items), EncodeAll(more);
    var left := Behind(t, |b|);
    hide Overwrite, Behind;
    OverwriteEnd(a, t, b);
    EncodeMore(items, more);
    TornStops(t, item, lay);
    TailIsRight(items + more, left, lay);
  }

  /** Nothing can go wrong if a value is no longer than mark and key. */
  lemma ShortValuesAreSafe(items: seq<Item>, t: Bytes, item: Item, more: seq<Item>, lay: Layout)
    requires AllFit(items, lay) && AllFit(more, lay) && Torn(t, item, lay) && lay.value <= Head(lay)
    ensures var file := Overwrite(EncodeAll(items) + t, |EncodeAll(items)|, EncodeAll(more));
            Scan(file, lay) == Scanned(items + more, |EncodeAll(items + more)|, true)
  {
    hide Scan;
    WrittenOver(items, t, item, more, lay);
    TornStops(t, item, lay);
    if more == [] {
      assert Behind(t, 0) == t;
    } else {
      assert |Encode(more[0])| >= Head(lay);
    }
  }

  lemma ZerosAreBad(left: Bytes, lay: Layout)
    requires |left| >= Head(lay) && left[0] == 0
    ensures !Scan(left, lay).ok
  {
    assert left[..MARK_LEN][0] != PUT_MARK[0] && left[..MARK_LEN][0] != DEL_MARK[0];
  }

  lemma LeftOfPut(key: Bytes, value: Bytes)
    requires value != []
    ensures var whole := Encode(Put(key, value));
            whole != [] && Behind(whole[..|whole| - 1], |EncodeAll([Del(key)])|) == value[..|value| - 1]
  {
    var whole := Encode(Put(key, value));
    EncodeOne(Del(key));
    assert whole[..|whole| - 1][MARK_LEN + |key|..] == value[..|value| - 1];
  }

  /** A delete written over an add that lacks its last byte: the next restore fails. */
  lemma LongValueFails(items: seq<Item>, lay: Layout, key: Bytes, zeros: Bytes)
    requires AllFit(items, lay) && |key| == lay.key && |zeros| == lay.value && lay.value > Head(lay)
    requires forall k :: 0 <= k < |zeros| ==> zeros[k] == 0
    ensures var whole := Encode(Put(key, zeros));
            var file := Overwrite(EncodeAll(items) + whole[..|whole| - 1], |EncodeAll(items)|, EncodeAll([Del(key)]));
            !Scan(file, lay).ok
  {
    hide Scan, Encode, EncodeAll, Overwrite, Behind;
    var whole := Encode(Put(key, zeros));
    LeftOfPut(key, zeros);
    OverwriteEnd(EncodeAll(items), whole[..|whole| - 1], EncodeAll([Del(key)]));
    EncodeMore(items, [Del(key)]);
    ZerosAreBad(zeros[..|zeros| - 1], lay);
    ItemsBack(items + [Del(key)], zeros[..|zeros| - 1], lay);
  }
}
