/** Runs of the record store, stopped at any file operation of a save, a trim or an init. */
module StorageRuns {
  import opened FileBytes
  import opened RecordLog
  import opened PersistentStorage

  /** What happens to a store.  `written` is how many bytes of the record get written, `stop` how many
      file operations of a trim get done; a trim ends with trim_success or with trim_failure.  After
      a stop the store is opened again, and each of `inits` is a number of file operations after
      which init is stopped, before it is run to its end. */
  datatype Step =
    | SaveOne(record: Bytes, written: nat, inits: seq<nat>)
    | TrimAll(records: seq<Bytes>, success: bool, stop: nat, inits: seq<nat>)
    | Reopen(inits: seq<nat>)

  predicate Short(r: Bytes)
  {
    |r| + FLAG_LEN < 0x8000_0000
  }

  /** Lengths are of type int. */
  predicate Possible(step: Step)
  {
    match step
    case SaveOne(r, _, _) => Short(r)
    case TrimAll(rs, _, _, _) => forall k :: 0 <= k < |rs| ==> Short(rs[k])
    case Reopen(_) => true
  }

  /** The records that are written at all. */
  function Nonempty(rs: seq<Bytes>): seq<Bytes>
  {
    if rs == [] then [] else Nonempty(rs[..|rs| - 1]) + if rs[|rs| - 1] == [] then [] else [rs[|rs| - 1]]
  }

  /** A save that is stopped half-way. */
  predicate TornSave(step: Step)
    requires Possible(step)
  {
    step.SaveOne? && step.record != [] && step.written < |Encode(step.record)|
  }

  /** If the step leaves a torn record, init can tell it from the records before it. */
  ghost predicate Cut(h: Held, step: Step)
    requires Possible(step)
  {
    TornSave(step) ==> TailOk(h.inc == [], Encode(step.record)[..step.written])
  }

  /** What the store holds after a step: a save or a trim is done as a whole or not at all. */
  function After(h: Held, step: Step): Held
    requires Possible(step)
  {
    match step
    case SaveOne(r, _, _) => if r == [] || TornSave(step) then h else h.(inc := h.inc + [r])
    case TrimAll(rs, success, stop, _) =>
      if success && stop > 1 + |Nonempty(rs)| then Held(Nonempty(rs), []) else h
    case Reopen(_) => h
  }

  predicate AllPossible(steps: seq<Step>)
  {
    forall k :: 0 <= k < |steps| ==> Possible(steps[k])
  }

  function AfterAll(steps: seq<Step>): Held
    requires AllPossible(steps)
  {
    if steps == [] then Held([], []) else After(AfterAll(steps[..|steps| - 1]), steps[|steps| - 1])
  }

  ghost predicate AllCut(steps: seq<Step>)
    requires AllPossible(steps)
  {
    forall k :: 0 <= k < |steps| ==> Cut(AfterAll(steps[..k]), steps[k])
  }

  /** Open a store: init, stopped any number of times, and then run to its end. */
  method Open(s: Storage, inits: seq<nat>)
    requires Stands(s.disk, s.stand) && Repairable(s.disk, s.stand)
    modifies s
    ensures s.Ready() && s.Now() == old(s.Now())
  {
    hide Stands, Repairable, HeldBy;
    for k := 0 to |inits|
      invariant Stands(s.disk, s.stand) && Repairable(s.disk, s.stand) && s.Now() == old(s.Now())
    {
      s.Init(inits[k]);
    }
    s.Init(7);
  }

  lemma TornIsRepairable(d: Disk, s: Stand)
    requires Stands(d, s) && d.new_.None? && d.inc.Some?
    ensures Repairable(d, s) <==> TailOk(s.inc == [], s.torn)
  {
    CuttableIs(s.inc, s.torn);
  }

  /** save; if it is torn, the store is opened again. */
  method SaveStep(s: Storage, step: Step)
    requires s.Ready() && Possible(step) && step.SaveOne? && Cut(s.Now(), step)
    modifies s
    ensures s.Ready() && s.Now() == After(old(s.Now()), step)
  {
    hide Stands, Repairable, TailOk, Encode;
    s.fuse := 1;
    var code := s.Save(step.record, step.written);
    if s.fuse == 0 {
      TornIsRepairable(s.disk, s.stand);
      Open(s, step.inits);
    }
  }

  lemma ReadyIsRepairable(s: Storage)
    requires s.Ready()
    ensures Stands(s.disk, s.stand) && Repairable(s.disk, s.stand)
  {
    NothingTorn(s.disk, s.stand);
  }

  /** trim_prepare, trim_data for each record that is to stay, and trim_success or trim_failure. */
  method TrimStep(s: Storage, step: Step)
    requires s.Ready() && Possible(step) && step.TrimAll?
    modifies s
    ensures s.Ready() && s.Now() == After(old(s.Now()), step)
  {
    hide Stands, Repairable, HeldBy, Has;
    var TrimAll(rs, success, stop, inits) := step;
    s.fuse := stop;
    s.TrimPrepare();
    for k := 0 to |rs|
      invariant s.Ready() && s.Now() == old(s.Now()) && s.trimmed == Nonempty(rs[..k])
      invariant s.fuse == if stop > 1 + |Nonempty(rs[..k])| then stop - 1 - |Nonempty(rs[..k])| else 0
      invariant s.fuse > 0 ==> s.disk.tmp.Some? && Has(s.disk.tmp, s.trimmed)
    {
      assert rs[..k + 1][..k] == rs[..k];
      s.TrimData(rs[k]);
    }
    assert rs[..|rs|] == rs;
    if success {
      s.TrimSuccess();
    } else {
      s.TrimFailure();
      ReadyIsRepairable(s);
    }
    if s.fuse == 0 {
      Open(s, inits);
    }
  }

  method Perform(s: Storage, step: Step)
    requires s.Ready() && Possible(step) && Cut(s.Now(), step)
    modifies s
    ensures s.Ready() && s.Now() == After(old(s.Now()), step)
  {
    hide Stands, Repairable, HeldBy, Cut, Nonempty;
    match step
    case SaveOne(_, _, _) =>
      SaveStep(s, step);
    case TrimAll(_, _, _, _) =>
      TrimStep(s, step);
    case Reopen(inits) =>
      ReadyIsRepairable(s);
      Open(s, inits);
  }

  /** Any run of saves and trims, stopped and opened again at any file operation: the store holds the
      records that are due, and reading yields them, library first. */
  method Run(steps: seq<Step>, capacity: nat) returns (s: Storage, code: int, records: seq<Bytes>)
    requires AllPossible(steps) && AllCut(steps)
    ensures fresh(s) && s.Ready() && s.Now() == AfterAll(steps)
    ensures var due := AfterAll(steps).lib + AfterAll(steps).inc;
            && records <= due
            && (code == 1 <==> records == due)
            && (code == 1 <==> forall r :: r in due ==> |r| <= capacity)
  {
    hide Stands, Repairable, HeldBy, Cut, After;
    s := new Storage();
    Open(s, []);
    for k := 0 to |steps|
      invariant s.Ready() && s.Now() == AfterAll(steps[..k])
    {
      assert steps[..k + 1][..k] == steps[..k];
      Perform(s, steps[k]);
    }
    assert steps[..|steps|] == steps;
    code, records := ReadAll(s, capacity);
  }

  /** travel_prepare and travel_data until it does not yield a record. */
  method ReadAll(s: Storage, capacity: nat) returns (code: int, records: seq<Bytes>)
    requires s.Ready()
    modifies s
    ensures s.Ready() && s.Now() == old(s.Now()) && records <= s.Records()
    ensures code == 1 <==> records == s.Records()
    ensures code == 1 <==> forall r :: r in s.Records() ==> |r| <= capacity
  {
    hide Stands, Repairable, HeldBy, Storage.Travelling;
    s.TravelPrepare();
    records, code := [], 0;
    ghost var all := s.Records();
    while code == 0
      invariant s.Ready() && s.Now() == old(s.Now())
      invariant |records| <= |all| && records == all[..|records|] && forall r :: r in records ==> |r| <= capacity
      invariant code == 0 ==> s.Travelling() && s.travelled == |records|
      invariant code != 0 ==> if code == 1 then |records| == |all|
        else |records| < |all| && capacity < |all[|records|]|
      decreases code == 0, |all| - |records|
    {
      var r, source;
      code, r, source := s.TravelData(capacity);
      if code == 0 {
        records := records + [r];
      }
    }
  }
}
