/** The store gets things done: every add, del and query can be brought to its end, and the collector can
    empty any file while the store stands for the same. */
module StoreProgress {
  import opened StoreGc

  lemma RunsNothing(s: State)
    ensures Runs(s, [], s)
  {
  }

  lemma RunsMore(s0: State, steps: seq<Step>, s: State, step: Step)
    requires Runs(s0, steps, s) && Enabled(s, step)
    ensures Runs(s0, steps + [step], Next(s, step))
  {
    assert (steps + [step])[..|steps|] == steps;
  }

  /** A step that is possible, and the state after it. */
  lemma Goes(s0: State, steps: seq<Step>, s: State, step: Step) returns (steps': seq<Step>, s': State)
    requires Runs(s0, steps, s) && Enabled(s, step) && Inv(s)
    ensures Runs(s0, steps', s') && steps' == steps + [step] && s' == Next(s, step) && Inv(s')
  {
    hide Inv, Enabled, Next;
    RunsMore(s0, steps, s, step);
    StepKeeps(s, step);
    steps', s' := steps + [step], Next(s, step);
  }

  /** An add, if the lock is free, a file takes records, and no query holds the key's node. */
  lemma AddCompletes(s: State, key: Key, value: Value, f: nat, id: nat) returns (steps: seq<Step>, s': State)
    requires Inv(s) && LockFree(s) && Online(s, f) && id !in s.nodes
    requires key in s.index ==> HasNode(s, key) && Unused(s, key)
    ensures Runs(s, steps, s') && steps == [AddBegin(key, value), AddWrite(f), AddIndex(id)]
    ensures LockFree(s') && s'.store == s.store[key := value] && s'.queries == s.queries
  {
    hide Inv;
    RunsNothing(s);
    steps, s' := Goes(s, [], s, AddBegin(key, value));
    steps, s' := Goes(s, steps, s', AddWrite(f));
    steps, s' := Goes(s, steps, s', AddIndex(id));
  }

  /** A del of a key that is there, if no query holds its node. */
  lemma DelCompletes(s: State, key: Key) returns (steps: seq<Step>, s': State)
    requires Inv(s) && LockFree(s) && HasNode(s, key) && Unused(s, key)
    ensures Runs(s, steps, s') && steps == [DelBegin(key), DelUnlink, DelFree]
    ensures LockFree(s') && s'.store == s.store - {key} && s'.queries == s.queries
  {
    hide Inv;
    RunsNothing(s);
    steps, s' := Goes(s, [], s, DelBegin(key));
    steps, s' := Goes(s, steps, s', DelUnlink);
    steps, s' := Goes(s, steps, s', DelFree);
  }

  /** A query begins whenever its key is there, and may end at once: it holds up nobody for good. */
  lemma QueryCompletes(s: State, q: QueryId, key: Key) returns (steps: seq<Step>, s': State)
    requires Inv(s) && q !in s.queries && key in s.store
    ensures Runs(s, steps, s') && steps == [QueryPop(q, key), QueryPush(q)]
    ensures s'.store == s.store && s'.queries == s.queries && s'.client == s.client && s'.collector == s.collector
  {
    KeyHasNode(s, key);
    hide Inv;
    RunsNothing(s);
    steps, s' := Goes(s, [], s, QueryPop(q, key));
    steps, s' := Goes(s, steps, s', QueryPush(q));
    assert s'.queries == s.queries;
  }

  lemma KeyHasNode(s: State, key: Key)
    requires Inv(s) && key in s.store
    ensures HasNode(s, key)
  {
    assert KeyOk(s, key);
  }

  /** Nobody else is at work. */
  predicate Alone(s: State)
  {
    s.client == NoClient && s.queries == map[]
  }

  lemma NobodyHolds(s: State, key: Key)
    requires Inv(s) && Alone(s) && HasNode(s, key)
    ensures Unused(s, key)
  {
    assert RefsOk(s, s.index[key]);
  }

  /** The collector goes through a file to its end. */
  lemma {:induction false} ScanCompletes(s0: State, steps0: seq<Step>, s: State, g: nat)
    returns (steps: seq<Step>, s': State)
    requires Runs(s0, steps0, s) && Inv(s) && Alone(s) && s.collector.Scan? && g < |s.files| && g != s.collector.file
    ensures Runs(s0, steps, s') && Alone(s') && s'.collector == Resting && s'.store == s.store
    ensures s.collector.file < |s'.files| == |s.files| && s'.files[s.collector.file] == []
    decreases var Scan(f, i) := s.collector; if f < |s.files| then |s.files[f]| - i else 0
  {
    var Scan(f, i) := s.collector;
    ScanInside(s);
    hide Inv;
    if i == |s.files[f]| {
      steps, s' := Goes(s0, steps0, s, Truncate);
    } else {
      steps, s' := Goes(s0, steps0, s, Judge);
      if s'.collector.Live? {
        steps, s' := MoveCompletes(s0, steps, s', g);
      }
      steps, s' := ScanCompletes(s0, steps, s', g);
    }
  }

  lemma ScanInside(s: State)
    requires Inv(s) && s.collector.Scan?
    ensures s.collector.file < |s.files| && s.collector.at <= |s.files[s.collector.file]|
  {
  }

  /** A record in use is copied to another file, and its key is told the new place. */
  lemma MoveCompletes(s0: State, steps0: seq<Step>, s: State, g: nat) returns (steps: seq<Step>, s': State)
    requires Runs(s0, steps0, s) && Inv(s) && Alone(s) && s.collector.Live? && g < |s.files| && g != s.collector.file
    ensures Runs(s0, steps, s') && Inv(s') && Alone(s') && s'.store == s.store && |s'.files| == |s.files|
    ensures s.collector.file < |s.files| && s'.collector == Scan(s.collector.file, s.collector.at + 1)
    ensures s'.files[s.collector.file] == s.files[s.collector.file]
  {
    hide Inv;
    steps, s' := CopyCompletes(s0, steps0, s, g);
    CopiedThere(s');
    steps, s' := Goes(s0, steps, s', Update);
  }

  lemma CopyCompletes(s0: State, steps0: seq<Step>, s: State, g: nat) returns (steps: seq<Step>, s': State)
    requires Runs(s0, steps0, s) && Inv(s) && Alone(s) && s.collector.Live? && g < |s.files| && g != s.collector.file
    ensures Runs(s0, steps, s') && Inv(s') && s' == Next(s, Copy(g)) && Alone(s') && s'.store == s.store
    ensures s.collector.file < |s.files| == |s'.files| && s'.files[s.collector.file] == s.files[s.collector.file]
    ensures s'.collector.Copied? && s'.collector.file == s.collector.file && s'.collector.at == s.collector.at
  {
    LiveThere(s);
    hide Inv;
    steps, s' := Goes(s0, steps0, s, Copy(g));
  }

  lemma LiveThere(s: State)
    requires Inv(s) && s.collector.Live?
    ensures Exists(s.files, Place(s.collector.file, s.collector.at))
  {
  }

  lemma CopiedThere(s: State)
    requires Inv(s) && Alone(s) && s.collector.Copied?
    ensures Enabled(s, Update)
  {
    var key := Get(s.files, Place(s.collector.file, s.collector.at)).key;
    NobodyHolds(s, key);
  }

  /** Any file can be emptied, with another one to move records to: what is in use is kept. */
  lemma CollectCompletes(s: State, f: nat, g: nat) returns (steps: seq<Step>, s': State)
    requires Inv(s) && Alone(s) && s.collector == Resting && f < |s.files| && g < |s.files| && f != g
    ensures Runs(s, steps, s') && Alone(s') && s'.collector == Resting && s'.store == s.store
    ensures |s'.files| == |s.files| && s'.files[f] == []
  {
    hide Inv;
    RunsNothing(s);
    steps, s' := Goes(s, [], s, CollectFile(f));
    steps, s' := ScanCompletes(s, steps, s', g);
  }
}
