/** UC_Persistent_Storage.h: a library of records, the records saved since, and trimming both into a
    new library.

    The process may stop after any file operation: `fuse` is the number of operations that are
    still carried out, and all later ones do nothing. */
module PersistentStorage {
  import opened FileBytes
  import opened Options
  import opened RecordLog

  datatype Disk = Disk(lib: Option<Bytes>, inc: Option<Bytes>, tmp: Option<Bytes>, new_: Option<Bytes>)

  datatype Op =
    | RemoveLib | RemoveInc | RenameTmpNew | RenameNewLib | CreateInc | CreateTmp
    | RemoveTmp | WriteTmp(data: Bytes) | CutLib(length: nat) | CutInc(length: nat) | AppendInc(data: Bytes)

  function Cut(f: Option<Bytes>, n: nat): Option<Bytes>
  {
    if f.Some? && n <= |f.value| then Some(f.value[..n]) else f
  }

  function Append(f: Option<Bytes>, data: Bytes): Option<Bytes>
  {
    if f.Some? then Some(f.value + data) else f
  }

  function Do(d: Disk, op: Op): Disk
  {
    match op
    case RemoveLib => d.(lib := None)
    case RemoveInc => d.(inc := None)
    case RenameTmpNew => if d.tmp.Some? then d.(new_ := d.tmp, tmp := None) else d
    case RenameNewLib => if d.new_.Some? then d.(lib := d.new_, new_ := None) else d
    case CreateInc => d.(inc := Some([]))
    case CreateTmp => d.(tmp := Some([]))
    case RemoveTmp => d.(tmp := None)
    case WriteTmp(data) => d.(tmp := Append(d.tmp, data))
    case CutLib(n) => d.(lib := Cut(d.lib, n))
    case CutInc(n) => d.(inc := Cut(d.inc, n))
    case AppendInc(data) => d.(inc := Append(d.inc, data))
  }

  /** The file holds the records rs; no file stands for none. */
  ghost predicate Has(f: Option<Bytes>, rs: seq<Bytes>)
  {
    Savable(rs) && if f.Some? then f.value == File(rs) else rs == []
  }

  /** The same, but an unfinished record may follow. */
  ghost predicate HasTorn(f: Option<Bytes>, rs: seq<Bytes>, t: Bytes)
  {
    Savable(rs) && if f.Some? then f.value == File(rs) + t else rs == [] && t == []
  }

  /** What the files stand for: the new library, or the library followed by the records since. */
  datatype Stand = Stand(lib: seq<Bytes>, inc: seq<Bytes>, new_: seq<Bytes>, torn: Bytes)

  ghost predicate Stands(d: Disk, s: Stand)
  {
    && Has(d.new_, s.new_)
    && (d.new_.None? ==> Has(d.lib, s.lib) && HasTorn(d.inc, s.inc, s.torn))
  }

  /** What `init` cuts off is exactly the unfinished record, if there is anything to cut. */
  ghost predicate Repairable(d: Disk, s: Stand)
    requires Stands(d, s)
  {
    d.new_.Some? || d.inc.None? || Cuttable(s.inc, s.torn)
  }

  lemma NothingTorn(d: Disk, s: Stand)
    requires Stands(d, s) && s.torn == []
    ensures Repairable(d, s)
  {
    if d.new_.None? {
      FreeBehind(File(s.inc), []);
    }
  }

  /** The records held, by the file that they are read from. */
  datatype Held = Held(lib: seq<Bytes>, inc: seq<Bytes>)

  function HeldBy(d: Disk, s: Stand): Held
  {
    if d.new_.Some? then Held(s.new_, []) else Held(s.lib, s.inc)
  }

  lemma CutWhole(f: Option<Bytes>, rs: seq<Bytes>, n: nat)
    requires f.Some? && Has(f, rs) && FixedLength(f.value, n)
    ensures Cut(f, n) == f
  {
    NothingIsHarmless();
    assert File(rs) + [] == File(rs);
    HarmlessCut(rs, [], n);
  }

  lemma CutTorn(f: Option<Bytes>, rs: seq<Bytes>, t: Bytes, n: nat)
    requires f.Some? && HasTorn(f, rs, t) && FixedLength(f.value, n)
    ensures Cuttable(rs, t) ==> HasTorn(Cut(f, n), rs, []) && Has(Cut(f, n), rs)
    ensures !Cuttable(rs, t) ==> !Has(Cut(f, n), rs)
  {
    hide Cuttable, FixedLength, File;
    CutIsRight(rs, t, n);
    FixedInside(f.value, n);
    assert File(rs) + [] == File(rs);
    assert (File(rs) + t)[..|File(rs)|] == File(rs);
  }

  lemma FixedInside(file: Bytes, n: nat)
    requires FixedLength(file, n)
    ensures n <= |file|
  {
  }


  lemma NoTail(f: Option<Bytes>, rs: seq<Bytes>)
    requires Has(f, rs)
    ensures HasTorn(f, rs, [])
  {
    if f.Some? {
      assert File(rs) + [] == File(rs);
    }
  }

  lemma NoRecords(f: Option<Bytes>)
    requires f.Some? ==> f.value == []
    ensures Has(f, []) && HasTorn(f, [], [])
  {
    EmptyFile();
  }

  lemma OneMore(f: Option<Bytes>, rs: seq<Bytes>, r: Bytes)
    requires f.Some? && Has(f, rs) && Savable([r])
    ensures Has(Append(f, Encode(r)), rs + [r])
  {
    assert r in [r];
    assert (rs + [r])[..|rs|] == rs;
    assert forall x :: x in rs + [r] ==> x in rs || x == r;
    FileSnoc(rs + [r]);
  }

  /** The file operations left after one more. */
  function Less(fuse: nat): nat
  {
    if fuse == 0 then 0 else fuse - 1
  }

  class Storage {
    var disk: Disk
    var fuse: nat
    var travelFlg: int
    var travelPos: nat
    ghost var stand: Stand
    ghost var trimmed: seq<Bytes>
    ghost var travelled: nat

    /** Nothing unfinished: what `init` establishes and every other call keeps. */
    ghost predicate Ready()
      reads this`disk, this`stand
    {
      Stands(disk, stand) && disk.new_.None? && disk.inc.Some? && stand.torn == []
    }

    ghost function Now(): Held
      reads this`disk, this`stand
    {
      HeldBy(disk, stand)
    }

    ghost function Records(): seq<Bytes>
      reads this`disk, this`stand
    {
      Now().lib + Now().inc
    }

    /** Files left by a first start: none. */
    constructor ()
      ensures Stands(disk, stand) && Repairable(disk, stand) && Now() == Held([], [])
    {
      disk := Disk(None, None, None, None);
      fuse, travelFlg, travelPos := 0, 0, 0;
      stand := Stand([], [], [], []);
      trimmed, travelled := [], 0;
      new;
      NoRecords(None);
    }

    method Perform(op: Op)
      modifies this`disk, this`fuse
      ensures disk == if old(fuse) == 0 then old(disk) else Do(old(disk), op)
      ensures fuse == Less(old(fuse))
    {
      if fuse > 0 {
        disk := Do(disk, op);
        fuse := fuse - 1;
      }
    }

    /** init, stopped after `steps` file operations or finished: the records are the same, if and only
        if the cut takes nothing but an unfinished record.  Six operations are always enough. */
    method Init(steps: nat)
      requires Stands(disk, stand)
      modifies this
      ensures old(Repairable(disk, stand)) ==>
        Stands(disk, stand) && Repairable(disk, stand) && Now() == old(Now()) && Records() == old(Records())
      ensures old(Repairable(disk, stand)) && fuse > 0 ==> Ready() && travelFlg == 0
      ensures fuse + 6 >= steps
      ensures !old(Repairable(disk, stand)) && fuse > 0 ==> !Has(disk.inc, old(stand).inc)
    {
      hide Has, HasTorn, Cuttable;
      fuse := steps;
      if disk.new_.Some? {
        FinishTrim();
      }
      if disk.lib.Some? {
        FixLib();
      }
      if disk.inc.Some? {
        FixInc();
      } else {
        MakeInc();
      }
      travelFlg := 0;
    }

    /** The library has no unfinished record. */
    method FixLib()
      requires Stands(disk, stand) && disk.lib.Some?
      modifies this`disk, this`fuse
      ensures Stands(disk, stand) && Now() == old(Now()) && disk.new_ == old(disk.new_)
      ensures disk.inc == old(disk.inc) && fuse <= old(fuse) <= fuse + 1
    {
      var n := FixFile(disk.lib.value);
      if disk.new_.None? {
        CutWhole(disk.lib, stand.lib, n);
      }
      Perform(CutLib(n));
    }

    method MakeInc()
      requires Stands(disk, stand) && disk.inc.None?
      modifies this`disk, this`fuse, this`stand
      ensures Stands(disk, stand) && Repairable(disk, stand) && Now() == old(Now()) && disk.new_ == old(disk.new_)
      ensures fuse <= old(fuse) <= fuse + 1
      ensures fuse > 0 ==> disk.inc.Some? && (disk.new_.None? ==> stand.torn == [])
    {
      NoRecords(Some([]));
      Perform(CreateInc);
      if disk.new_.None? {
        stand := stand.(torn := []);
        NothingTorn(disk, stand);
      }
    }

    /** Put the new library in place; without it, or after a stop, there is nothing to do. */
    method FinishTrim()
      requires Stands(disk, stand) && disk.new_.Some?
      modifies this`disk, this`fuse, this`stand
      ensures Stands(disk, stand) && Now() == old(Now()) && fuse <= old(fuse) <= fuse + 4
      ensures Repairable(disk, stand) && (fuse > 0 ==> disk.new_.None? && disk.inc.None?)
    {
      if disk.inc.Some? {
        Perform(RemoveInc);
      }
      if disk.lib.Some? {
        Perform(RemoveLib);
      }
      if disk.lib.Some? {
        Perform(RemoveLib);
      }
      NoRecords(None);
      if fuse > 0 {
        stand := Stand(stand.new_, [], [], []);
        NoTail(disk.inc, []);
        Perform(RenameNewLib);
      }
    }

    /** Cut off an unfinished record. */
    method FixInc()
      requires Stands(disk, stand) && disk.inc.Some?
      modifies this`disk, this`fuse, this`stand
      ensures disk.new_ == old(disk.new_) && disk.inc.Some? && fuse <= old(fuse) <= fuse + 1
      ensures old(Repairable(disk, stand)) ==>
        && Stands(disk, stand) && Repairable(disk, stand) && Now() == old(Now())
        && (fuse > 0 && disk.new_.None? ==> stand.torn == [])
      ensures !old(Repairable(disk, stand)) && fuse > 0 ==> !Has(disk.inc, old(stand).inc)
    {
      hide Cuttable;
      var n := FixFile(disk.inc.value);
      if disk.new_.None? {
        CutTorn(disk.inc, stand.inc, stand.torn, n);
        if fuse > 0 {
          stand := stand.(torn := []);
        }
      }
      Perform(CutInc(n));
      if Stands(disk, stand) && stand.torn == [] {
        NothingTorn(disk, stand);
      }
    }

    /** save; the process may stop after `written` bytes of the record. */
    method Save(r: Bytes, written: nat) returns (code: int)
      requires Ready() && fuse > 0 && |r| + FLAG_LEN < 0x8000_0000
      modifies this`disk, this`fuse, this`stand
      ensures r == [] ==> Ready() && Now() == old(Now()) && fuse == old(fuse) && code == 0
      ensures r != [] && |Encode(r)| <= written ==>
        Ready() && Now() == old(Now()).(inc := old(Now()).inc + [r]) && fuse == old(fuse) && code == 0
      ensures Ready() ==> Repairable(disk, stand)
      ensures r != [] && written < |Encode(r)| ==>
        && fuse == 0 && Stands(disk, stand) && Now() == old(Now()) && disk.new_.None? && disk.inc.Some?
        && stand.inc == old(stand).inc && stand.torn == Encode(r)[..written]
    {
      hide Encode, File;
      if |r| == 0 {
        return 0;
      }
      assert Savable([r]);
      var data := Encode(r);
      if |data| <= written {
        OneMore(disk.inc, stand.inc, r);
        NoTail(Append(disk.inc, data), stand.inc + [r]);
        fuse := fuse + 1;
        Perform(AppendInc(data));
        stand := stand.(inc := stand.inc + [r]);
      } else {
        assert File(stand.inc) + [] + data[..written] == File(stand.inc) + data[..written];
        fuse := 1;
        Perform(AppendInc(data[..written]));
        stand := stand.(torn := data[..written]);
      }
      if stand.torn == [] {
        NothingTorn(disk, stand);
      }
      return 0;
    }

    // ----- trimming

    /** trim_prepare */
    method TrimPrepare()
      requires Ready()
      modifies this`disk, this`fuse, this`trimmed
      ensures Ready() && Now() == old(Now()) && trimmed == [] && fuse == Less(old(fuse))
      ensures fuse > 0 ==> disk.tmp.Some? && Has(disk.tmp, trimmed)
    {
      NoRecords(Some([]));
      Perform(CreateTmp);
      trimmed := [];
    }

    /** trim_data: one record that is to stay. */
    method TrimData(r: Bytes)
      requires Ready() && (fuse > 0 ==> disk.tmp.Some? && Has(disk.tmp, trimmed)) && |r| + FLAG_LEN < 0x8000_0000
      modifies this`disk, this`fuse, this`trimmed
      ensures Ready() && Now() == old(Now())
      ensures if r == [] then trimmed == old(trimmed) && fuse == old(fuse)
        else trimmed == old(trimmed) + [r] && fuse == Less(old(fuse))
      ensures fuse > 0 ==> disk.tmp.Some? && Has(disk.tmp, trimmed)
    {
      if |r| != 0 {
        assert Savable([r]);
        if fuse > 0 {
          OneMore(disk.tmp, trimmed, r);
        }
        Perform(WriteTmp(Encode(r)));
        trimmed := trimmed + [r];
      }
    }

    /** trim_success: stopped before its first file operation the records are the old ones, after
        it the trimmed ones. */
    method TrimSuccess()
      requires Ready() && (fuse > 0 ==> disk.tmp.Some? && Has(disk.tmp, trimmed))
      modifies this`disk, this`fuse, this`stand
      ensures Stands(disk, stand) && Repairable(disk, stand)
      ensures Now() == if old(fuse) == 0 then old(Now()) else Held(trimmed, [])
      ensures fuse > 0 ==> Ready()
    {
      NothingTorn(disk, stand);
      if fuse > 0 {
        stand := stand.(new_ := trimmed);
      }
      Perform(RenameTmpNew);
      if disk.new_.Some? {
        FinishTrim();
      }
      NoRecords(Some([]));
      if fuse > 0 {
        stand := stand.(inc := [], torn := []);
      }
      Perform(CreateInc);
    }

    /** trim_failure */
    method TrimFailure()
      requires Ready()
      modifies this`disk, this`fuse
      ensures Ready() && Now() == old(Now()) && fuse == Less(old(fuse))
    {
      Perform(RemoveTmp);
    }

    // ----- travelling

    /** Where the reader stands: after the first `travelled` records. */
    ghost predicate Travelling()
      reads this
    {
      && Ready() && travelled <= |Records()|
      && match travelFlg
         case 0 => travelled == 0
         case 1 => disk.lib.Some? && travelled <= |stand.lib| && travelPos == |File(stand.lib[..travelled])|
         case 2 => |stand.lib| <= travelled && travelPos == |File(stand.inc[..travelled - |stand.lib|])|
         case _ => false
    }

    method TravelPrepare()
      requires Ready()
      modifies this`travelFlg, this`travelled
      ensures Travelling() && travelled == 0
    {
      travelFlg, travelled := 0, 0;
    }

    /** A read from the file that is open; code 1 at its end. */
    method TravelFile(capacity: nat) returns (code: int, r: Bytes)
      requires Travelling() && travelFlg != 0
      modifies this`travelPos, this`travelled
      ensures code == 1 <==> old(travelled) == if travelFlg == 1 then |stand.lib| else |Records()|
      ensures code == 0 <==> code != 1 && |Records()[old(travelled)]| <= capacity
      ensures code == 0 ==> Travelling() && r == Records()[old(travelled)] && travelled == old(travelled) + 1
      ensures code == 1 ==> Travelling() && travelled == old(travelled)
      ensures code == -1 || code == 0 || code == 1
    {
      hide Encode, File, Harmless, ReadRecord;
      var rs, i: nat := stand.lib, travelled;
      var file := if travelFlg == 1 then disk.lib.value else disk.inc.value;
      if travelFlg == 2 {
        rs, i := stand.inc, travelled - |stand.lib|;
        assert File(stand.inc) + [] == File(stand.inc);
      }
      ReadAt(rs, i, capacity);
      match ReadRecord(file, travelPos, capacity)
      case Record(record, next) =>
        travelPos, travelled := next, travelled + 1;
        return 0, record;
      case Failed =>
        return -1, [];
      case AtEnd =>
        return 1, [];
    }

    /** travel_data: the records of the library, then those since, one a call. */
    method TravelData(capacity: nat) returns (code: int, r: Bytes, source: int)
      requires Travelling()
      modifies this`travelFlg, this`travelPos, this`travelled
      ensures code == 1 <==> old(travelled) == |Records()|
      ensures code == 0 <==> old(travelled) < |Records()| && |Records()[old(travelled)]| <= capacity
      ensures code == 0 ==> Travelling() && r == Records()[old(travelled)] && travelled == old(travelled) + 1
      ensures code == 0 ==> source == if old(travelled) < |stand.lib| then 1 else 2
      ensures code == -1 || code == 0 || code == 1
    {
      hide Encode, File, Harmless;
      EmptyFile();
      if travelFlg == 0 {
        travelPos := 0;
        travelFlg := if disk.lib.Some? then 1 else 2;
        assert stand.lib[..0] == [] && stand.inc[..0] == [];
      }
      source := travelFlg;
      code, r := TravelFile(capacity);
      if code == 1 && travelFlg == 1 {
        travelFlg, travelPos := 2, 0;
        assert stand.inc[..0] == [];
        source := travelFlg;
        code, r := TravelFile(capacity);
      }
    }
  }
}
