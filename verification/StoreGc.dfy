/** The key/value store of UT_Persistent_KeyValue while its collector runs: every interleaving of
    clients that add, delete and query with the collector's steps.

    The index maps keys to nodes, a node holds the place of a record in the append-only files and
    counts the queries that use it.  Adding, deleting and the collector's judge/copy/update exclude
    each other through one lock; queries take no lock but hold a reference to a node. */
module StoreGc {
  type Key = int
  type Value = seq<int>
  type QueryId = nat

  datatype Record = Record(key: Key, value: Value)

  /** Where a record is: file number, and which record of the file it is.  The code names it by its
      offset, which tells the same (StoreRecords.OffsetsDiffer). */
  datatype Place = Place(file: nat, at: nat)

  /** refs stands for the reference count: the queries that are counted. */
  datatype Node = Node(key: Key, place: Place, refs: set<QueryId>)

  /** The client that holds the lock. */
  datatype Client =
    | NoClient
    | Adding(key: Key, value: Value)                      // add, before the record is written
    | Written(key: Key, value: Value, place: Place)       // the record is written, not indexed
    | Deleting(key: Key)
    | Unlinked(node: nat)                                 // waits for the references to the node

  /** The collector; in Live and Copied it holds the lock. */
  datatype Collector =
    | Resting
    | Scan(file: nat, at: nat)                            // next record to judge
    | Live(file: nat, at: nat)                            // judged to be in use
    | Copied(file: nat, at: nat, place: Place)            // and copied

  /** A query between pop_value and push_value; value is what the key had when it began. */
  datatype Query = Query(node: nat, key: Key, value: Value)

  datatype State = State(
    files: seq<seq<Record>>,
    nodes: map<nat, Node>,
    index: map<Key, nat>,
    client: Client,
    collector: Collector,
    queries: map<QueryId, Query>,
    store: map<Key, Value>)       // what the store stands for: the last value added for each key

  datatype Step =
    | AddBegin(key: Key, value: Value)
    | AddWrite(file: nat)
    | AddIndex(id: nat)
    | DelBegin(key: Key)
    | DelUnlink
    | DelFree
    | GiveUp                      // add or del returns an error
    | QueryPop(q: QueryId, key: Key)
    | QueryPush(q: QueryId)
    | CollectFile(file: nat)
    | Judge
    | Copy(file: nat)
    | Update
    | Truncate
    | Reopen                      // the process stops, at whatever point, and the store is opened again

  predicate Exists(files: seq<seq<Record>>, p: Place)
  {
    p.file < |files| && p.at < |files[p.file]|
  }

  function Get(files: seq<seq<Record>>, p: Place): Record
    requires Exists(files, p)
  {
    files[p.file][p.at]
  }

  function Append(files: seq<seq<Record>>, f: nat, r: Record): seq<seq<Record>>
    requires f < |files|
  {
    files[f := files[f] + [r]]
  }

  /** The file that is being collected takes no new records. */
  predicate Online(s: State, f: nat)
  {
    f < |s.files| && (s.collector != Resting ==> s.collector.file != f)
  }

  predicate LockFree(s: State)
  {
    s.client == NoClient && !s.collector.Live? && !s.collector.Copied?
  }

  predicate HasNode(s: State, key: Key)
  {
    key in s.index && s.index[key] in s.nodes
  }

  /** Nobody uses the node of the key; an overwriting add waits for this. */
  predicate Unused(s: State, key: Key)
    requires HasNode(s, key)
  {
    s.nodes[s.index[key]].refs == {}
  }

  predicate Enabled(s: State, step: Step)
  {
    match step
    case AddBegin(_, _) => LockFree(s)
    case AddWrite(f) => s.client.Adding? && Online(s, f)
    case AddIndex(id) =>
      s.client.Written? && (if s.client.key in s.index then HasNode(s, s.client.key) && Unused(s, s.client.key)
        else id !in s.nodes)
    case DelBegin(_) => LockFree(s)
    case DelUnlink => s.client.Deleting? && s.client.key in s.index
    case DelFree => s.client.Unlinked? && s.client.node in s.nodes && s.nodes[s.client.node].refs == {}
    case GiveUp => s.client.Adding? || s.client.Written? || s.client.Deleting?
    case QueryPop(q, key) => q !in s.queries && HasNode(s, key)
    case QueryPush(q) => q in s.queries && s.queries[q].node in s.nodes
    case CollectFile(f) => s.collector.Resting? && f < |s.files|
    case Judge => s.collector.Scan? && LockFree(s) && Exists(s.files, Place(s.collector.file, s.collector.at))
    case Copy(f) => s.collector.Live? && Online(s, f) && Exists(s.files, Place(s.collector.file, s.collector.at))
    case Update =>
      s.collector.Copied? && Exists(s.files, Place(s.collector.file, s.collector.at))
      && var key := Get(s.files, Place(s.collector.file, s.collector.at)).key; HasNode(s, key) && Unused(s, key)
    case Truncate => s.collector.Scan? && s.collector.file < |s.files| && s.collector.at == |s.files[s.collector.file]|
    case Reopen => true
  }

  function MoveNode(nodes: map<nat, Node>, n: nat, p: Place): map<nat, Node>
    requires n in nodes
  {
    nodes[n := nodes[n].(place := p)]
  }

  function AddRef(nodes: map<nat, Node>, n: nat, q: QueryId): map<nat, Node>
    requires n in nodes
  {
    nodes[n := nodes[n].(refs := nodes[n].refs + {q})]
  }

  function DropRef(nodes: map<nat, Node>, n: nat, q: QueryId): map<nat, Node>
    requires n in nodes
  {
    nodes[n := nodes[n].(refs := nodes[n].refs - {q})]
  }

  /** fun_judge: the record is in use if the index has its key at this very place. */
  predicate InUse(s: State, p: Place)
    requires Exists(s.files, p)
  {
    var key := Get(s.files, p).key;
    HasNode(s, key) && s.nodes[s.index[key]].place == p
  }

  /** A node that the index names. */
  predicate Indexed(s: State, n: nat)
  {
    n in s.nodes && s.nodes[n].key in s.index && s.index[s.nodes[n].key] == n
  }

  /** What is left of a state on disk: the files, and the index with the place of every key. */
  function Reopened(s: State): State
  {
    State(s.files, map n | n in s.nodes && Indexed(s, n) :: s.nodes[n].(refs := {}), s.index, NoClient, Resting,
      map[], s.store)
  }

  ghost function Next(s: State, step: Step): State
    requires Enabled(s, step)
  {
    match step
    case AddBegin(key, value) => s.(client := Adding(key, value))
    case AddWrite(f) =>
      s.(files := Append(s.files, f, Record(s.client.key, s.client.value)),
         client := Written(s.client.key, s.client.value, Place(f, |s.files[f]|)))
    case AddIndex(id) =>
      var Written(key, value, p) := s.client;
      if key in s.index then
        s.(nodes := MoveNode(s.nodes, s.index[key], p), store := s.store[key := value], client := NoClient)
      else
        s.(nodes := s.nodes[id := Node(key, p, {})], index := s.index[key := id], store := s.store[key := value],
          client := NoClient)
    case DelBegin(key) => s.(client := Deleting(key))
    case DelUnlink =>
      s.(index := s.index - {s.client.key}, store := s.store - {s.client.key},
        client := Unlinked(s.index[s.client.key]))
    case DelFree => s.(nodes := s.nodes - {s.client.node}, client := NoClient)
    case GiveUp => s.(client := NoClient)
    case QueryPop(q, key) =>
      var n := s.index[key];
      s.(nodes := AddRef(s.nodes, n, q),
        queries := s.queries[q := Query(n, key, if key in s.store then s.store[key] else [])])
    case QueryPush(q) =>
      s.(nodes := DropRef(s.nodes, s.queries[q].node, q), queries := s.queries - {q})
    case CollectFile(f) => s.(collector := Scan(f, 0))
    case Judge =>
      var Scan(f, i) := s.collector;
      s.(collector := if InUse(s, Place(f, i)) then Live(f, i) else Scan(f, i + 1))
    case Copy(f) =>
      var r := Get(s.files, Place(s.collector.file, s.collector.at));
      s.(files := Append(s.files, f, r), collector := Copied(s.collector.file, s.collector.at, Place(f, |s.files[f]|)))
    case Update =>
      var Copied(f, i, p) := s.collector;
      s.(nodes := MoveNode(s.nodes, s.index[Get(s.files, Place(f, i)).key], p), collector := Scan(f, i + 1))
    case Truncate => s.(files := s.files[s.collector.file := []], collector := Resting)
    case Reopen => Reopened(s)
  }

  // ----- what every state keeps

  /** A node's place has a record of its key. */
  ghost predicate NodeOk(s: State, n: nat)
    requires n in s.nodes
  {
    Exists(s.files, s.nodes[n].place) && Get(s.files, s.nodes[n].place).key == s.nodes[n].key
  }

  /** The node of a key has the last value added for the key. */
  ghost predicate KeyOk(s: State, key: Key)
    requires key in s.index
  {
    && key in s.store && s.index[key] in s.nodes
    && s.nodes[s.index[key]].key == key && Exists(s.files, s.nodes[s.index[key]].place)
    && Get(s.files, s.nodes[s.index[key]].place) == Record(key, s.store[key])
  }

  /** A query that holds a node finds at the node's place what its key had when it began. */
  ghost predicate QueryOk(s: State, q: QueryId)
    requires q in s.queries
  {
    var Query(n, key, value) := s.queries[q];
    n in s.nodes && q in s.nodes[n].refs && Exists(s.files, s.nodes[n].place) &&
      Get(s.files, s.nodes[n].place) == Record(key, value)
  }

  /** The collector has not passed place p. */
  ghost predicate Ahead(s: State, p: Place)
  {
    s.collector != Resting ==> p.file != s.collector.file || s.collector.at <= p.at
  }

  ghost predicate CollectorOk(s: State)
  {
    match s.collector
    case Resting => true
    case Scan(f, i) => f < |s.files| && i <= |s.files[f]|
    case Live(f, i) => s.client == NoClient && Exists(s.files, Place(f, i)) && InUse(s, Place(f, i))
    case Copied(f, i, p) =>
      && s.client == NoClient && Exists(s.files, Place(f, i)) && InUse(s, Place(f, i))
      && p.file != f && Exists(s.files, p) && Get(s.files, p) == Get(s.files, Place(f, i))
  }

  ghost predicate ClientOk(s: State)
  {
    match s.client
    case Written(key, value, p) => Exists(s.files, p) && Get(s.files, p) == Record(key, value) && Ahead(s, p)
    case Unlinked(n) => n in s.nodes && s.nodes[n].key !in s.index
    case _ => true
  }

  /** A node that is not indexed waits to be freed. */
  ghost predicate Reachable(s: State, n: nat)
    requires n in s.nodes
  {
    (s.nodes[n].key in s.index && s.index[s.nodes[n].key] == n) || s.client == Unlinked(n)
  }

  /** Every reference counted is that of a query. */
  ghost predicate RefsOk(s: State, n: nat)
    requires n in s.nodes
  {
    forall q :: q in s.nodes[n].refs ==> q in s.queries && s.queries[q].node == n
  }

  ghost predicate Inv(s: State)
  {
    && s.index.Keys == s.store.Keys
    && (forall key {:trigger KeyOk(s, key)} :: key in s.index ==> KeyOk(s, key))
    && (forall n {:trigger NodeOk(s, n)} :: n in s.nodes ==> NodeOk(s, n))
    && (forall n {:trigger Ahead(s, s.nodes[n].place)} :: n in s.nodes ==> Ahead(s, s.nodes[n].place))
    && (forall n {:trigger Reachable(s, n)} :: n in s.nodes ==> Reachable(s, n))
    && (forall n {:trigger RefsOk(s, n)} :: n in s.nodes ==> RefsOk(s, n))
    && (forall q {:trigger QueryOk(s, q)} :: q in s.queries ==> QueryOk(s, q))
    && CollectorOk(s) && ClientOk(s)
  }

  /** Inv from its parts. */
  lemma MakeInv(s: State)
    requires s.index.Keys == s.store.Keys && CollectorOk(s) && ClientOk(s)
    requires forall key :: key in s.index ==> KeyOk(s, key)
    requires forall n :: n in s.nodes ==> NodeOk(s, n) && Ahead(s, s.nodes[n].place) && Reachable(s, n) && RefsOk(s, n)
    requires forall q :: q in s.queries ==> QueryOk(s, q)
    ensures Inv(s)
  {
  }

  /** A record that exists keeps its place when another is appended. */
  lemma AppendKeeps(files: seq<seq<Record>>, f: nat, r: Record)
    requires f < |files|
    ensures forall p :: Exists(files, p) ==>
      Exists(Append(files, f, r), p) && Get(Append(files, f, r), p) == Get(files, p)
    ensures Exists(Append(files, f, r), Place(f, |files[f]|)) && Get(Append(files, f, r), Place(f, |files[f]|)) == r
  {
  }

  /** The steps that change neither files nor nodes. */
  predicate IsQuiet(step: Step)
  {
    step.AddBegin? || step.DelBegin? || step.GiveUp? || step.CollectFile?
  }

  lemma QuietKeeps(s: State, step: Step)
    requires Inv(s) && Enabled(s, step) && IsQuiet(step)
    ensures Inv(Next(s, step))
  {
    var s' := Next(s, step);
    forall key | key in s'.index
      ensures KeyOk(s', key)
    {
      assert KeyOk(s, key);
    }
    forall n | n in s'.nodes
      ensures NodeOk(s', n) && Ahead(s', s'.nodes[n].place) && Reachable(s', n) && RefsOk(s', n)
    {
      assert NodeOk(s, n) && Ahead(s, s.nodes[n].place) && Reachable(s, n) && RefsOk(s, n);
    }
    forall q | q in s'.queries
      ensures QueryOk(s', q)
    {
      assert QueryOk(s, q);
    }
    MakeInv(s');
  }

  lemma AppendingKeeps(s: State, step: Step)
    requires Inv(s) && Enabled(s, step) && (step.AddWrite? || step.Copy?)
    ensures Inv(Next(s, step))
  {
    var s' := Next(s, step);
    var r := if step.AddWrite? then Record(s.client.key, s.client.value)
      else Get(s.files, Place(s.collector.file, s.collector.at));
    AppendKeeps(s.files, step.file, r);
    hide Append;
    forall key | key in s'.index
      ensures KeyOk(s', key)
    {
      assert KeyOk(s, key);
    }
    forall n | n in s'.nodes
      ensures NodeOk(s', n) && Ahead(s', s'.nodes[n].place) && Reachable(s', n) && RefsOk(s', n)
    {
      assert NodeOk(s, n) && Ahead(s, s.nodes[n].place) && Reachable(s, n) && RefsOk(s, n);
    }
    forall q | q in s'.queries
      ensures QueryOk(s', q)
    {
      assert QueryOk(s, q);
    }
    MakeInv(s');
  }

  lemma OverwriteKeeps(s: State, step: Step)
    requires Inv(s) && Enabled(s, step) && step.AddIndex? && s.client.key in s.index
    ensures Inv(Next(s, step))
  {
    var s' := Next(s, step);
    var Written(k, value, p) := s.client;
    assert KeyOk(s, k);
    forall key | key in s'.index
      ensures KeyOk(s', key)
    {
      assert KeyOk(s, key);
    }
    forall n | n in s'.nodes
      ensures NodeOk(s', n) && Ahead(s', s'.nodes[n].place) && Reachable(s', n) && RefsOk(s', n)
    {
      assert NodeOk(s, n) && Ahead(s, s.nodes[n].place) && Reachable(s, n) && RefsOk(s, n);
    }
    forall q | q in s'.queries
      ensures QueryOk(s', q)
    {
      assert QueryOk(s, q);
    }
    MakeInv(s');
  }

  lemma InsertKeeps(s: State, step: Step)
    requires Inv(s) && Enabled(s, step) && step.AddIndex? && s.client.key !in s.index
    ensures Inv(Next(s, step))
  {
    var s' := Next(s, step);
    var Written(k, value, p) := s.client;
    forall key | key in s'.index
      ensures KeyOk(s', key)
    {
      if key in s.index {
        assert KeyOk(s, key);
      }
    }
    forall n | n in s'.nodes
      ensures NodeOk(s', n) && Ahead(s', s'.nodes[n].place) && Reachable(s', n) && RefsOk(s', n)
    {
      if n in s.nodes {
        assert NodeOk(s, n) && Ahead(s, s.nodes[n].place) && Reachable(s, n) && RefsOk(s, n);
      }
    }
    forall q | q in s'.queries
      ensures QueryOk(s', q)
    {
      assert QueryOk(s, q);
    }
    MakeInv(s');
  }

  lemma DelUnlinkKeeps(s: State, step: Step)
    requires Inv(s) && Enabled(s, step) && step.DelUnlink?
    ensures Inv(Next(s, step))
  {
    var s' := Next(s, step);
    var k := s.client.key;
    assert KeyOk(s, k);
    forall key | key in s'.index
      ensures KeyOk(s', key)
    {
      assert KeyOk(s, key);
    }
    forall n | n in s'.nodes
      ensures NodeOk(s', n) && Ahead(s', s'.nodes[n].place) && Reachable(s', n) && RefsOk(s', n)
    {
      assert NodeOk(s, n) && Ahead(s, s.nodes[n].place) && Reachable(s, n) && RefsOk(s, n);
    }
    forall q | q in s'.queries
      ensures QueryOk(s', q)
    {
      assert QueryOk(s, q);
    }
    MakeInv(s');
  }

  lemma DelFreeKeeps(s: State, step: Step)
    requires Inv(s) && Enabled(s, step) && step.DelFree?
    ensures Inv(Next(s, step))
  {
    var s' := Next(s, step);
    forall key | key in s'.index
      ensures KeyOk(s', key)
    {
      assert KeyOk(s, key);
    }
    forall n | n in s'.nodes
      ensures NodeOk(s', n) && Ahead(s', s'.nodes[n].place) && Reachable(s', n) && RefsOk(s', n)
    {
      assert NodeOk(s, n) && Ahead(s, s.nodes[n].place) && Reachable(s, n) && RefsOk(s, n);
    }
    forall q | q in s'.queries
      ensures QueryOk(s', q)
    {
      assert QueryOk(s, q);
    }
    MakeInv(s');
  }

  lemma QueryPopKeeps(s: State, step: Step)
    requires Inv(s) && Enabled(s, step) && step.QueryPop?
    ensures Inv(Next(s, step))
  {
    var s' := Next(s, step);
    assert KeyOk(s, step.key);
    forall key | key in s'.index
      ensures KeyOk(s', key)
    {
      assert KeyOk(s, key);
    }
    forall n | n in s'.nodes
      ensures NodeOk(s', n) && Ahead(s', s'.nodes[n].place) && Reachable(s', n) && RefsOk(s', n)
    {
      assert NodeOk(s, n) && Ahead(s, s.nodes[n].place) && Reachable(s, n) && RefsOk(s, n);
    }
    forall q | q in s'.queries
      ensures QueryOk(s', q)
    {
      if q in s.queries {
        assert QueryOk(s, q);
      }
    }
    MakeInv(s');
  }

  lemma QueryPushKeeps(s: State, step: Step)
    requires Inv(s) && Enabled(s, step) && step.QueryPush?
    ensures Inv(Next(s, step))
  {
    var s' := Next(s, step);
    assert QueryOk(s, step.q);
    forall key | key in s'.index
      ensures KeyOk(s', key)
    {
      assert KeyOk(s, key);
    }
    forall n | n in s'.nodes
      ensures NodeOk(s', n) && Ahead(s', s'.nodes[n].place) && Reachable(s', n) && RefsOk(s', n)
    {
      assert NodeOk(s, n) && Ahead(s, s.nodes[n].place) && Reachable(s, n) && RefsOk(s, n);
    }
    forall q | q in s'.queries
      ensures QueryOk(s', q)
    {
      if q in s.queries {
        assert QueryOk(s, q);
      }
    }
    MakeInv(s');
  }

  /** A record that is judged not to be in use is no node's, so the collector may pass it. */
  lemma JudgeKeeps(s: State, step: Step)
    requires Inv(s) && Enabled(s, step) && step.Judge?
    ensures Inv(Next(s, step))
  {
    var s' := Next(s, step);
    var p := Place(s.collector.file, s.collector.at);
    forall key | key in s'.index
      ensures KeyOk(s', key)
    {
      assert KeyOk(s, key);
    }
    forall n | n in s'.nodes
      ensures NodeOk(s', n) && Ahead(s', s'.nodes[n].place) && Reachable(s', n) && RefsOk(s', n)
    {
      assert NodeOk(s, n) && Ahead(s, s.nodes[n].place) && Reachable(s, n) && RefsOk(s, n);
      if s.nodes[n].place == p {
        assert InUse(s, p);
      }
    }
    forall q | q in s'.queries
      ensures QueryOk(s', q)
    {
      assert QueryOk(s, q);
    }
    MakeInv(s');
  }

  lemma UpdateKeeps(s: State, step: Step)
    requires Inv(s) && Enabled(s, step) && step.Update?
    ensures Inv(Next(s, step))
  {
    var s' := Next(s, step);
    var Copied(f, i, p) := s.collector;
    var k := Get(s.files, Place(f, i)).key;
    assert KeyOk(s, k);
    forall key | key in s'.index
      ensures KeyOk(s', key)
    {
      assert KeyOk(s, key);
    }
    forall n | n in s'.nodes
      ensures NodeOk(s', n) && Ahead(s', s'.nodes[n].place) && Reachable(s', n) && RefsOk(s', n)
    {
      assert NodeOk(s, n) && Ahead(s, s.nodes[n].place) && Reachable(s, n) && RefsOk(s, n);
    }
    forall q | q in s'.queries
      ensures QueryOk(s', q)
    {
      assert QueryOk(s, q);
    }
    MakeInv(s');
  }

  /** When all of a file has been passed no node, query or client needs it any more. */
  lemma TruncateKeeps(s: State, step: Step)
    requires Inv(s) && Enabled(s, step) && step.Truncate?
    ensures Inv(Next(s, step))
  {
    var s' := Next(s, step);
    forall n | n in s.nodes
      ensures s.nodes[n].place.file != s.collector.file
    {
      assert NodeOk(s, n) && Ahead(s, s.nodes[n].place);
    }
    forall key | key in s'.index
      ensures KeyOk(s', key)
    {
      assert KeyOk(s, key);
    }
    forall n | n in s'.nodes
      ensures NodeOk(s', n) && Ahead(s', s'.nodes[n].place) && Reachable(s', n) && RefsOk(s', n)
    {
      assert NodeOk(s, n) && Ahead(s, s.nodes[n].place) && Reachable(s, n) && RefsOk(s, n);
    }
    forall q | q in s'.queries
      ensures QueryOk(s', q)
    {
      assert QueryOk(s, q);
    }
    MakeInv(s');
  }

  lemma AddIndexKeeps(s: State, step: Step)
    requires Inv(s) && Enabled(s, step) && step.AddIndex?
    ensures Inv(Next(s, step))
  {
    hide Inv, Next;
    if s.client.key in s.index {
      OverwriteKeeps(s, step);
    } else {
      InsertKeeps(s, step);
    }
  }

  lemma StepKeeps(s: State, step: Step)
    requires Inv(s) && Enabled(s, step)
    ensures Inv(Next(s, step))
  {
    hide Inv, Next, Enabled;
    match step
    case AddBegin(_, _) => QuietKeeps(s, step);
    case AddWrite(_) => AppendingKeeps(s, step);
    case AddIndex(_) => AddIndexKeeps(s, step);
    case DelBegin(_) => QuietKeeps(s, step);
    case DelUnlink => DelUnlinkKeeps(s, step);
    case DelFree => DelFreeKeeps(s, step);
    case GiveUp => QuietKeeps(s, step);
    case QueryPop(_, _) => QueryPopKeeps(s, step);
    case QueryPush(_) => QueryPushKeeps(s, step);
    case CollectFile(_) => QuietKeeps(s, step);
    case Judge => JudgeKeeps(s, step);
    case Copy(_) => AppendingKeeps(s, step);
    case Update => UpdateKeeps(s, step);
    case Truncate => TruncateKeeps(s, step);
    case Reopen => ReopenKeeps(s);
  }

  // ----- whole runs

  /** A store as it is opened: any files, with records that no key names among them, and an index in
      which every key has the place of a record of its own. */
  ghost predicate Opened(s: State)
  {
    && s.client == NoClient && s.collector == Resting && s.queries == map[] && s.index.Keys == s.store.Keys
    && (forall key {:trigger KeyOk(s, key)} :: key in s.index ==> KeyOk(s, key))
    && (forall n {:trigger Indexed(s, n)} :: n in s.nodes ==> Indexed(s, n) && s.nodes[n].refs == {})
  }

  lemma OpenedOk(s: State)
    requires Opened(s)
    ensures Inv(s)
  {
    forall n | n in s.nodes
      ensures NodeOk(s, n) && Ahead(s, s.nodes[n].place) && Reachable(s, n) && RefsOk(s, n)
    {
      assert Indexed(s, n) && KeyOk(s, s.nodes[n].key);
    }
    MakeInv(s);
  }

  /** A store that is stopped, between any two steps, can be opened again and stands for the same. */
  lemma ReopenIsOpen(s: State)
    requires Inv(s)
    ensures Opened(Reopened(s)) && Reopened(s).store == s.store
  {
    var s' := Reopened(s);
    forall key | key in s'.index
      ensures KeyOk(s', key)
    {
      assert KeyOk(s, key) && Indexed(s, s.index[key]);
    }
    forall n | n in s'.nodes
      ensures Indexed(s', n) && s'.nodes[n].refs == {}
    {
      assert Indexed(s, n);
    }
  }

  lemma ReopenKeeps(s: State)
    requires Inv(s)
    ensures Inv(Next(s, Reopen))
  {
    ReopenIsOpen(s);
    OpenedOk(Reopened(s));
  }

  /** An empty store of n files can be opened. */
  lemma EmptyIsOpen(n: nat)
    ensures Opened(State(seq(n, _ => []), map[], map[], NoClient, Resting, map[], map[]))
  {
  }

  /** The state after the steps, if each of them was possible when its turn came. */
  ghost predicate Runs(s0: State, steps: seq<Step>, s: State)
    decreases |steps|
  {
    if steps == [] then s == s0
    else
      var last := |steps| - 1;
      exists before :: Runs(s0, steps[..last], before) && Enabled(before, steps[last]) && Next(before, steps[last]) == s
  }

  lemma {:induction false} RunKeeps(s0: State, steps: seq<Step>, s: State)
    requires Opened(s0) && Runs(s0, steps, s)
    ensures Inv(s)
    decreases |steps|
  {
    hide Inv, Next, Enabled;
    if steps == [] {
      OpenedOk(s0);
    } else {
      var last := |steps| - 1;
      var before :| Runs(s0, steps[..last], before) && Enabled(before, steps[last]) && Next(before, steps[last]) == s;
      RunKeeps(s0, steps[..last], before);
      StepKeeps(before, steps[last]);
    }
  }

  // ----- what the steps say the store holds, whatever the state does with them

  /** The calls that hold the lock, as the steps begin and end them. */
  datatype Call = NoCall | AddOf(key: Key, value: Value) | DelOf(key: Key)

  function CallAfter(call: Call, step: Step): Call
  {
    match step
    case AddBegin(key, value) => AddOf(key, value)
    case DelBegin(key) => DelOf(key)
    case AddIndex(_) => NoCall
    case DelUnlink => NoCall
    case GiveUp => NoCall
    case Reopen => NoCall
    case _ => call
  }

  /** The call in the middle of which the steps end. */
  function CallOf(steps: seq<Step>): Call
  {
    if steps == [] then NoCall else CallAfter(CallOf(steps[..|steps| - 1]), steps[|steps| - 1])
  }

  /** The last value added for every key and not deleted since, beginning with m. */
  function StoreOf(m: map<Key, Value>, steps: seq<Step>): map<Key, Value>
  {
    if steps == [] then m
    else
      var before, call := StoreOf(m, steps[..|steps| - 1]), CallOf(steps[..|steps| - 1]);
      match steps[|steps| - 1]
      case AddIndex(_) => if call.AddOf? then before[call.key := call.value] else before
      case DelUnlink => if call.DelOf? then before - {call.key} else before
      case _ => before
  }

  /** The client that holds the lock carries out the call that the steps began. */
  ghost predicate Carries(client: Client, call: Call)
  {
    match client
    case NoClient => call.NoCall?
    case Adding(key, value) => call == AddOf(key, value)
    case Written(key, value, _) => call == AddOf(key, value)
    case Deleting(key) => call == DelOf(key)
    case Unlinked(_) => call.NoCall?
  }

  lemma CarriesOn(s: State, step: Step, call: Call)
    requires Enabled(s, step) && Carries(s.client, call)
    ensures Carries(Next(s, step).client, CallAfter(call, step))
  {
  }

  /** The state's store and client are those that the steps alone say. */
  lemma {:induction false} StoreIs(s0: State, steps: seq<Step>, s: State)
    requires Opened(s0) && Runs(s0, steps, s)
    ensures s.store == StoreOf(s0.store, steps) && Carries(s.client, CallOf(steps))
    decreases |steps|
  {
    hide Enabled, Opened;
    if steps == [] {
      OpenedIdle(s0);
    } else {
      var last := |steps| - 1;
      var before :| Runs(s0, steps[..last], before) && Enabled(before, steps[last]) && Next(before, steps[last]) == s;
      StoreIs(s0, steps[..last], before);
      CarriesOn(before, steps[last], CallOf(steps[..last]));
      StoreStep(before, steps[last], CallOf(steps[..last]));
    }
  }

  lemma OpenedIdle(s: State)
    requires Opened(s)
    ensures s.client == NoClient
  {
  }

  lemma StoreStep(s: State, step: Step, call: Call)
    requires Enabled(s, step) && Carries(s.client, call)
    ensures Next(s, step).store ==
      match step
      case AddIndex(_) => if call.AddOf? then s.store[call.key := call.value] else s.store
      case DelUnlink => if call.DelOf? then s.store - {call.key} else s.store
      case _ => s.store
  {
  }

  /** At any time of any run, a key that is looked up has the last value added for it, and a key
      that is not found has none. */
  lemma LookUp(s0: State, steps: seq<Step>, s: State, key: Key)
    requires Opened(s0) && Runs(s0, steps, s)
    ensures var store := StoreOf(s0.store, steps);
            && (key in store <==> HasNode(s, key))
            && (key in store ==>
                  && Exists(s.files, s.nodes[s.index[key]].place)
                  && Get(s.files, s.nodes[s.index[key]].place) == Record(key, store[key]))
  {
    RunKeeps(s0, steps, s);
    StoreIs(s0, steps, s);
    if key in s.index {
      assert KeyOk(s, key);
    }
  }

  /** Query q began with step i, in state `before`, and has not ended since. */
  ghost predicate BeganAt(s0: State, steps: seq<Step>, q: QueryId, query: Query, i: nat, before: State)
  {
    && i < |steps| && Runs(s0, steps[..i], before) && steps[i] == QueryPop(q, query.key)
    && (forall k :: i < k < |steps| ==> steps[k] != QueryPush(q) && steps[k] != Reopen)
    && query.key in StoreOf(s0.store, steps[..i]) && StoreOf(s0.store, steps[..i])[query.key] == query.value
  }

  lemma StillBegan(s0: State, steps: seq<Step>, q: QueryId, query: Query, i: nat, before: State)
    requires steps != [] && BeganAt(s0, steps[..|steps| - 1], q, query, i, before)
    requires steps[|steps| - 1] != QueryPush(q) && steps[|steps| - 1] != Reopen
    ensures BeganAt(s0, steps, q, query, i, before)
  {
    assert steps[..|steps| - 1][..i] == steps[..i];
  }

  lemma {:induction false} Began(s0: State, steps: seq<Step>, s: State, q: QueryId)
    requires Opened(s0) && Runs(s0, steps, s) && q in s.queries
    ensures exists i: nat, before :: BeganAt(s0, steps, q, s.queries[q], i, before)
    decreases |steps|
  {
    hide Inv, Next, Enabled;
    if steps != [] {
      var last := |steps| - 1;
      var s1 :| Runs(s0, steps[..last], s1) && Enabled(s1, steps[last]) && Next(s1, steps[last]) == s;
      RunKeeps(s0, steps[..last], s1);
      QueriesNext(s1, steps[last], q);
      if q in s1.queries {
        Began(s0, steps[..last], s1, q);
        var i: nat, before :| BeganAt(s0, steps[..last], q, s1.queries[q], i, before);
        StillBegan(s0, steps, q, s1.queries[q], i, before);
      } else {
        StoreIs(s0, steps[..last], s1);
        assert BeganAt(s0, steps, q, s.queries[q], last, s1);
      }
    }
  }

  /** A query that is there after a step was there before and did not end, or began with it. */
  lemma QueriesNext(s: State, step: Step, q: QueryId)
    requires Inv(s) && Enabled(s, step) && q in Next(s, step).queries
    ensures var query := Next(s, step).queries[q];
            if q in s.queries then query == s.queries[q] && step != QueryPush(q) && step != Reopen
            else step == QueryPop(q, query.key) && query.key in s.store && s.store[query.key] == query.value
  {
    if q !in s.queries {
      assert KeyOk(s, step.key);
    }
  }

  /** A query reads a place that has not been truncated, and finds there what the store had for the
      key when the query began, whatever happened since. */
  lemma QueryReads(s0: State, steps: seq<Step>, s: State, q: QueryId)
    requires Opened(s0) && Runs(s0, steps, s) && q in s.queries
    ensures var Query(node, key, _) := s.queries[q];
            && node in s.nodes && Exists(s.files, s.nodes[node].place)
            && exists i: nat, before :: BeganAt(s0, steps, q, s.queries[q], i, before)
                 && Get(s.files, s.nodes[node].place) == Record(key, StoreOf(s0.store, steps[..i])[key])
  {
    RunKeeps(s0, steps, s);
    assert QueryOk(s, q);
    Began(s0, steps, s, q);
    var i: nat, before :| BeganAt(s0, steps, q, s.queries[q], i, before);
  }
}
