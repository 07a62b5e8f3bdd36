/** Runs of the allocator: any interleaving of writers and the trimmer. */
module QuotaRuns {
  import opened DiskQuota

  /** A writer begins or ends a write, or the trimmer takes a file off-line or puts it back. */
  datatype Op = Start(number: nat) | Finish(file: nat, size: nat) | StartTrim(file: nat) | FinishTrim

  datatype Event = Wrote(file: nat, offset: nat, size: nat) | Emptied(file: nat)

  /** The size of file f after these events. */
  function SizeAfter(sizes: seq<nat>, log: seq<Event>, f: nat): nat
    requires f < |sizes|
  {
    if log == [] then sizes[f]
    else
      With(SizeAfter(sizes, log[..|log| - 1], f), log[|log| - 1], f)
  }

  /** The size of file f after one event. */
  function With(was: nat, e: Event, f: nat): nat
  {
    match e
    case Wrote(g, _, size) => if g == f then was + size else was
    case Emptied(g) => if g == f then 0 else was
  }

  /** Every record was written where the file ended. */
  ghost predicate EndToEnd(sizes: seq<nat>, log: seq<Event>)
  {
    forall k :: 0 <= k < |log| && log[k].Wrote? ==>
      log[k].file < |sizes| && log[k].offset == SizeAfter(sizes, log[..k], log[k].file)
  }

  lemma EndToEndMore(sizes: seq<nat>, log: seq<Event>, e: Event)
    requires EndToEnd(sizes, log)
    requires e.Wrote? ==> e.file < |sizes| && e.offset == SizeAfter(sizes, log, e.file)
    ensures EndToEnd(sizes, log + [e])
  {
    forall k | 0 <= k <= |log|
      ensures (log + [e])[..k] == log[..k]
    {
    }
    assert log[..|log|] == log;
  }

  lemma SizeMore(sizes: seq<nat>, log: seq<Event>, e: Event, f: nat)
    requires f < |sizes|
    ensures SizeAfter(sizes, log + [e], f) == With(SizeAfter(sizes, log, f), e, f)
  {
    assert (log + [e])[..|log|] == log;
  }

  /** Two records written to a file without its being emptied in between do not overlap. */
  lemma {:induction false} RecordsApart(sizes: seq<nat>, log: seq<Event>, i: nat, j: nat)
    requires EndToEnd(sizes, log) && i < j < |log| && log[i].Wrote? && log[j].Wrote? && log[i].file == log[j].file
    requires forall k :: i < k < j ==> log[k] != Emptied(log[i].file)
    ensures log[i].offset + log[i].size <= log[j].offset
  {
    Grows(sizes, log, log[i].file, i + 1, j);
    assert log[..i + 1] == log[..i] + [log[i]];
    SizeMore(sizes, log[..i], log[i], log[i].file);
  }

  lemma {:induction false} Grows(sizes: seq<nat>, log: seq<Event>, f: nat, i: nat, j: nat)
    requires f < |sizes| && i <= j <= |log| && forall k :: i <= k < j ==> log[k] != Emptied(f)
    ensures SizeAfter(sizes, log[..i], f) <= SizeAfter(sizes, log[..j], f)
    decreases j
  {
    if i < j {
      Grows(sizes, log, f, i, j - 1);
      assert log[..j] == log[..j - 1] + [log[j - 1]];
      SizeMore(sizes, log[..j - 1], log[j - 1], f);
    }
  }

  /** What writers and trimmer know: the records written and files emptied so far, the places granted
      to writers that are not done, and the file being trimmed with its place in the list. */
  datatype Work = Work(log: seq<Event>, granted: map<nat, nat>, trimmed: int, pos: nat)

  ghost predicate InStep(q: Quota, sizes: seq<nat>, w: Work)
    reads q, q.curSize, q.indexNo, q.useFlag
  {
    && q.Valid() && q.allCount == |sizes| && EndToEnd(sizes, w.log)
    && (forall f: nat :: f < q.allCount ==> q.curSize[f] == SizeAfter(sizes, w.log, f))
    && (forall f: nat :: f in w.granted <==> f < q.allCount && q.useFlag[f])
    && (forall f :: f in w.granted ==> w.granted[f] == q.curSize[f])
    && w.trimmed == q.trimming && (q.trimming != -1 ==> w.pos == q.place[q.trimming])
  }

  /** Carry out the operations that are possible when their turn comes: an end of a write only for
      a file being written to, one trim at a time.  Records lie end to end, a file in use has room
      and is not being trimmed, and no file passes its limit unless some record is too large. */
  method Run(q: Quota, ops: seq<Op>) returns (w: Work)
    requires q.Valid() && q.trimming == -1 && forall f :: 0 <= f < q.allCount ==> !q.useFlag[f]
    modifies q, q.curSize, q.indexNo, q.useFlag
    ensures InStep(q, old(q.curSize[..]), w)
    ensures forall f :: f in w.granted ==> q.HasRoom(f) && f != w.trimmed
    ensures old(q.Limited()) && (forall k :: 0 <= k < |ops| && ops[k].Finish? ==> ops[k].size <= q.maxWriteSize) ==>
      q.Limited()
  {
    hide Permutation;
    ghost var sizes := q.curSize[..];
    w := Work([], map[], -1, 0);
    for k := 0 to |ops|
      invariant InStep(q, sizes, w)
      invariant old(q.Limited()) && (forall j :: 0 <= j < k && ops[j].Finish? ==> ops[j].size <= q.maxWriteSize) ==>
        q.Limited()
    {
      w := Perform(q, ops[k], sizes, w);
    }
    forall f | f in w.granted
      ensures q.HasRoom(f) && f != w.trimmed
    {
      InUse(q, f);
    }
  }

  /** A file in use is on-line and has room. */
  lemma InUse(q: Quota, f: nat)
    requires q.Valid() && f < q.allCount && q.useFlag[f]
    ensures q.HasRoom(f) && f != q.trimming
  {
    assert q.HasRoom(q.indexNo[q.place[f]]);
  }

  method Perform(q: Quota, op: Op, ghost sizes: seq<nat>, w: Work) returns (w': Work)
    requires InStep(q, sizes, w)
    modifies q, q.curSize, q.indexNo, q.useFlag
    ensures InStep(q, sizes, w')
    ensures old(q.Limited()) && (op.Finish? ==> op.size <= q.maxWriteSize) ==> q.Limited()
  {
    hide Permutation, EndToEnd, SizeAfter;
    w' := w;
    match op {
      case Start(number) =>
        var r := q.BeginWrite(number);
        if r.Granted? {
          w' := w.(granted := w.granted[r.file := r.offset]);
        }
      case Finish(file, size) =>
        if file in w.granted {
          w' := EndOne(q, file, size, sizes, w);
        }
      case StartTrim(file) =>
        if file < q.allCount && w.trimmed == -1 {
          var ok, pos := q.BeginTrim(file);
          if ok {
            w' := w.(trimmed := file, pos := pos);
          }
        }
      case FinishTrim =>
        if w.trimmed != -1 {
          w' := EmptyOne(q, sizes, w);
        }
    }
  }

  method EndOne(q: Quota, file: nat, size: nat, ghost sizes: seq<nat>, w: Work) returns (w': Work)
    requires InStep(q, sizes, w) && file in w.granted
    modifies q, q.curSize, q.indexNo, q.useFlag
    ensures InStep(q, sizes, w') && w'.granted == w.granted - {file} && w'.trimmed == w.trimmed
    ensures w'.log == w.log + [Wrote(file, w.granted[file], size)]
    ensures old(q.Limited()) && size <= q.maxWriteSize ==> q.Limited()
  {
    hide Permutation, EndToEnd, SizeAfter;
    var e := Wrote(file, w.granted[file], size);
    EndToEndMore(sizes, w.log, e);
    SizesMore(sizes, w.log, e);
    q.EndWrite(file, size);
    w' := w.(log := w.log + [e], granted := w.granted - {file});
  }

  method EmptyOne(q: Quota, ghost sizes: seq<nat>, w: Work) returns (w': Work)
    requires InStep(q, sizes, w) && w.trimmed != -1
    modifies q, q.curSize, q.indexNo, q.useFlag
    ensures InStep(q, sizes, w')
    ensures old(q.Limited()) ==> q.Limited()
  {
    hide Permutation, EndToEnd, SizeAfter;
    var e := Emptied(w.trimmed);
    EndToEndMore(sizes, w.log, e);
    SizesMore(sizes, w.log, e);
    q.EndTrim(w.trimmed, w.pos);
    w' := w.(log := w.log + [e], trimmed := -1);
  }

  /** The writers that are in the middle of a write finish, each with the size of its record. */
  method FinishOthers(q: Quota, w: Work, records: nat -> nat, ghost sizes: seq<nat>) returns (w': Work)
    requires InStep(q, sizes, w)
    modifies q, q.curSize, q.indexNo, q.useFlag
    ensures InStep(q, sizes, w') && w'.granted == map[] && w'.trimmed == w.trimmed && w.log <= w'.log
    ensures forall f :: 0 <= f < q.allCount ==> !q.useFlag[f]
  {
    hide Permutation, EndToEnd, SizeAfter;
    w' := w;
    while w'.granted != map[]
      invariant InStep(q, sizes, w') && w'.trimmed == w.trimmed && w.log <= w'.log
      decreases |w'.granted|
    {
      var f :| f in w'.granted;
      var n := |w'.granted|;
      w' := EndOne(q, f, records(f), sizes, w');
    }
  }

  /** A writer, whatever it was told before, is granted a file once the writers before it have finished,
      if any file takes records, and then writes its record behind what the file holds. */
  method WriteAfter(q: Quota, number: nat, size: nat, w: Work, records: nat -> nat, ghost sizes: seq<nat>)
    returns (ok: bool, w': Work)
    requires InStep(q, sizes, w)
    modifies q, q.curSize, q.indexNo, q.useFlag
    ensures InStep(q, sizes, w') && w'.granted == map[] && w.log <= w'.log
    ensures if ok then |w.log| < |w'.log| && w'.log[|w'.log| - 1].Wrote? && w'.log[|w'.log| - 1].size == size
      else q.curCount == 0
  {
    hide Permutation, EndToEnd, SizeAfter;
    w' := FinishOthers(q, w, records, sizes);
    ghost var others := w';
    var r := q.BeginWrite(number);
    if r == Full {
      return false, w';
    }
    w' := w'.(granted := w'.granted[r.file := r.offset]);
    w' := EndOne(q, r.file, size, sizes, w');
    ok := true;
  }

  lemma SizesMore(sizes: seq<nat>, log: seq<Event>, e: Event)
    ensures forall f: nat :: f < |sizes| ==> SizeAfter(sizes, log + [e], f) == With(SizeAfter(sizes, log, f), e, f)
  {
    forall f: nat | f < |sizes|
      ensures SizeAfter(sizes, log + [e], f) == With(SizeAfter(sizes, log, f), e, f)
    {
      SizeMore(sizes, log, e, f);
    }
  }
}
