/** UC_CenterMessage.h: messages are split into sub-tasks for a pool of workers; the worker that
    finishes the last one combines the results.

    Any number of threads interleave; a step is one access to a queue or to a node (the section
    under the node's lock is one step).  Nodes are recycled: the allocator may hand out any that is
    not in use. */
module CenterMessage {
  type Id = nat

  /** The observable calls, with the message they are for. */
  datatype Event = Process(msg: nat, index: nat) | Combine(msg: nat) | Extract(msg: nat)

  /** Who is to combine and publish a node's result. */
  datatype Stage = Open | Finishing(w: nat) | Joined(w: nat) | Published

  /** What happened to a message's pushes 0, 1, ...: how many there were, which worker holds which,
      which were counted as finished, and which got sub-task 0, 1, ... */
  datatype History = History(pushed: nat, holder: map<nat, nat>, counted: set<nat>, takers: seq<nat>, stage: Stage)

  /** STREAM_NODE; the handle stands for the message.  The history is not part of it. */
  datatype Node = Node(all: nat, cur: nat, fin: nat, handle: nat, refer: bool, referFin: bool, hist: History)

  /** A worker's place in thread_process, with its node, the push it popped, and its sub-task. */
  datatype Worker =
    | Idle
    | Popped(node: Id, push: nat)
    | Working(node: Id, push: nat, task: nat)
    | Done(node: Id, push: nat, task: nat)
    | Last(node: Id)
    | Combined(node: Id)

  /** A node in the waiting queue; the number of the push is not part of it. */
  datatype Slot = Slot(node: Id, push: nat)

  /** A caller inside the loop of put_message. */
  datatype Putter = Putter(node: Id, next: nat, all: nat)

  datatype State = State(
    nodes: map<Id, Node>,
    waiting: seq<Slot>,
    finished: seq<Id>,
    workers: seq<Worker>,
    putters: map<nat, Putter>,
    held: set<Id>,
    sizes: seq<nat>,
    log: seq<Event>)

  datatype Move =
    | Put(x: Id, all: nat, refer: bool, left: bool)  // left: what a recycled node has in referFin
    | Push(m: nat)
    | Pop(w: nat)
    | Take(w: nat)
    | Work(w: nat)
    | Count(w: nat)
    | Join(w: nat)
    | Publish(w: nat)
    | Fetch
    | PutBack(x: Id)
    | Recycle(x: Id)
    | RecycleReferred(x: Id)

  function Start(workers: nat): State
  {
    State(map[], [], [], seq(workers, _ => Idle), map[], {}, [], [])
  }

  /** What a worker reads through its pointer: the node, or whatever is where none is in use. */
  function At(s: State, x: Id): Node
  {
    if x in s.nodes then s.nodes[x] else Node(0, 0, 0, 0, false, false, History(0, map[], {}, [], Open))
  }

  function SetNode(s: State, x: Id, n: Node): State
  {
    s.(nodes := s.nodes[x := n])
  }

  function SetWorker(s: State, w: nat, state: Worker): State
    requires w < |s.workers|
  {
    s.(workers := s.workers[w := state])
  }

  /** Whether the move is possible, by where the threads stand and what the queues hold. */
  predicate Can(s: State, mv: Move)
  {
    match mv
    case Put(x, all, _, _) => x !in s.nodes && all > 0
    case Push(m) => m in s.putters
    case Pop(w) => w < |s.workers| && s.workers[w].Idle? && s.waiting != []
    case Take(w) => w < |s.workers| && s.workers[w].Popped?
    case Work(w) => w < |s.workers| && s.workers[w].Working?
    case Count(w) => w < |s.workers| && s.workers[w].Done?
    case Join(w) => w < |s.workers| && s.workers[w].Last?
    case Publish(w) => w < |s.workers| && s.workers[w].Combined?
    case Fetch => s.finished != []
    case PutBack(x) => x in s.held
    case Recycle(x) => x in s.held
    case RecycleReferred(x) => x in s.nodes && s.nodes[x].refer && s.nodes[x].referFin
  }

  function Next(s: State, mv: Move): State
    requires Can(s, mv)
  {
    match mv
    case Put(x, all, refer, left) =>
      var m := |s.sizes|;
      var n := Node(all, 0, 0, m, refer, !refer && left, History(0, map[], {}, [], Open));
      SetNode(s, x, n).(putters := s.putters[m := Putter(x, 0, all)], sizes := s.sizes + [all])
    case Push(m) =>
      var p := s.putters[m];
      var n := At(s, p.node);
      var s1 := SetNode(s, p.node, n.(hist := n.hist.(pushed := p.next + 1))).(waiting := s.waiting
        + [Slot(p.node, p.next)]);
      s1.(putters := if p.next + 1 < p.all then s.putters[m := p.(next := p.next + 1)] else s.putters - {m})
    case Pop(w) =>
      var t := s.waiting[0];
      var n := At(s, t.node);
      SetWorker(SetNode(s, t.node, n.(hist := n.hist.(holder := n.hist.holder[t.push := w]))), w,
        Popped(t.node, t.push))
        .(waiting := s.waiting[1..])
    case Take(w) =>
      var a := s.workers[w];
      var n := At(s, a.node);
      SetWorker(SetNode(s, a.node, n.(cur := n.cur + 1, hist := n.hist.(takers := n.hist.takers + [a.push]))), w,
        Working(a.node, a.push, n.cur))
    case Work(w) =>
      var a := s.workers[w];
      SetWorker(s, w, Done(a.node, a.push, a.task)).(log := s.log + [Process(At(s, a.node).handle, a.task)])
    case Count(w) =>
      var a := s.workers[w];
      var n := At(s, a.node);
      var fin := n.fin + 1;
      var h := n.hist.(counted := n.hist.counted + {a.push}, holder := n.hist.holder - {a.push});
      if fin == n.all then
        SetWorker(SetNode(s, a.node, n.(fin := fin, hist := h.(stage := Finishing(w)))), w, Last(a.node))
      else
        SetWorker(SetNode(s, a.node, n.(fin := fin, hist := h)), w, Idle)
    case Join(w) =>
      var x := s.workers[w].node;
      var n := At(s, x);
      SetWorker(SetNode(s, x, n.(hist := n.hist.(stage := Joined(w)))), w,
        Combined(x)).(log := s.log + [Combine(n.handle)])
    case Publish(w) =>
      var x := s.workers[w].node;
      var n := At(s, x);
      var n1 := n.(referFin := n.refer || n.referFin, hist := n.hist.(stage := Published));
      SetWorker(SetNode(s, x, n1), w, Idle).(finished := if n.refer then s.finished else s.finished + [x])
    case Fetch =>
      s.(finished := s.finished[1..], held := s.held + {s.finished[0]})
    case PutBack(x) =>
      s.(finished := s.finished + [x], held := s.held - {x})
    case Recycle(x) =>
      s.(nodes := s.nodes - {x}, held := s.held - {x}, log := s.log + [Extract(At(s, x).handle)])
    case RecycleReferred(x) =>
      s.(nodes := s.nodes - {x}, log := s.log + [Extract(s.nodes[x].handle)])
  }

  ghost predicate Run(ss: seq<State>, mvs: seq<Move>)
  {
    && |ss| == |mvs| + 1 && (exists k: nat :: ss[0] == Start(k))
    && forall i :: 0 <= i < |mvs| ==> Can(ss[i], mvs[i]) && ss[i + 1] == Next(ss[i], mvs[i])
  }

  // ----- what holds in every state

  /** The worker is between popping this push and counting it. */
  predicate Holds(a: Worker, x: Id, push: nat)
  {
    (a.Popped? || a.Working? || a.Done?) && a.node == x && a.push == push
  }

  /** Every push of a node is in the queue, held by a worker, or counted. */
  ghost predicate PushesOk(s: State, x: Id)
    requires x in s.nodes
  {
    var n, h := s.nodes[x], s.nodes[x].hist;
    && n.fin == |h.counted| && h.pushed <= n.all
    && (forall i :: i in h.counted ==> i < h.pushed)
    && (forall i :: i in h.holder ==>
          i < h.pushed && i !in h.counted && h.holder[i] < |s.workers| && Holds(s.workers[h.holder[i]], x, i))
    && (forall i: nat :: i < h.pushed ==> i in h.counted || i in h.holder || Slot(x, i) in s.waiting)
  }

  /** Sub-tasks are given out in order, each to another push. */
  ghost predicate TasksOk(s: State, x: Id)
    requires x in s.nodes
  {
    var n, h := s.nodes[x], s.nodes[x].hist;
    && n.cur == |h.takers|
    && (forall k :: 0 <= k < |h.takers| ==> h.takers[k] in h.counted || h.takers[k] in h.holder)
    && (forall j, k :: 0 <= j < k < |h.takers| ==> h.takers[j] != h.takers[k])
    && (forall i :: i in h.counted ==> i in h.takers)
  }

  /** The push that took this sub-task has called process_task. */
  ghost predicate Past(s: State, x: Id, task: nat)
    requires x in s.nodes
  {
    var h := s.nodes[x].hist;
    && task < |h.takers|
    && (h.takers[task] in h.counted
        || (h.takers[task] in h.holder && h.holder[h.takers[task]] < |s.workers| &&
          s.workers[h.holder[h.takers[task]]].Done?))
  }

  ghost predicate StageOk(s: State, x: Id)
    requires x in s.nodes
  {
    var n, g := s.nodes[x], s.nodes[x].hist.stage;
    && (g.Open? <==> n.fin < n.all)
    && (g.Finishing? ==> g.w < |s.workers| && s.workers[g.w] == Last(x))
    && (g.Joined? ==> g.w < |s.workers| && s.workers[g.w] == Combined(x))
    && (n.refer ==> (n.referFin <==> g.Published?))
    && (g.Published? && !n.refer ==> x in s.finished || x in s.held)
  }

  ghost predicate LoggedOk(s: State, x: Id)
    requires x in s.nodes
  {
    var n, g := s.nodes[x], s.nodes[x].hist.stage;
    && n.handle < |s.sizes| && s.sizes[n.handle] == n.all > 0
    && Extract(n.handle) !in s.log
    && (Combine(n.handle) in s.log <==> g.Joined? || g.Published?)
    && (forall i: nat {:trigger Process(n.handle, i)} :: Process(n.handle, i) in s.log <==> Past(s, x, i))
  }

  /** The putters are in the middle of their loops, and nobody else. */
  ghost predicate PutterOk(s: State, x: Id)
    requires x in s.nodes
  {
    var n := s.nodes[x];
    n.hist.pushed < n.all ==> n.handle in s.putters && s.putters[n.handle] == Putter(x, n.hist.pushed, n.all)
  }

  ghost predicate NodeOk(s: State, x: Id)
  {
    x in s.nodes ==> PushesOk(s, x) && TasksOk(s, x) && StageOk(s, x) && LoggedOk(s, x) && PutterOk(s, x)
  }

  /** A worker's node is in use, for the message that it popped. */
  ghost predicate WorkerOk(s: State, a: Worker, w: nat)
  {
    a.Idle? ||
    (a.node in s.nodes &&
     var h := s.nodes[a.node].hist;
     match a
     case Popped(_, i) => i in h.holder && h.holder[i] == w && i !in h.takers
     case Working(_, i, k) => i in h.holder && h.holder[i] == w && k < |h.takers| && h.takers[k] == i
     case Done(_, i, k) => i in h.holder && h.holder[i] == w && k < |h.takers| && h.takers[k] == i
     case Last(_) => h.stage == Finishing(w)
     case Combined(_) => h.stage == Joined(w))
  }

  ghost predicate SlotOk(s: State, t: Slot)
  {
    && t.node in s.nodes
    && var h := s.nodes[t.node].hist;
    t.push < h.pushed && t.push !in h.holder && t.push !in h.counted && t.push !in h.takers
  }

  ghost predicate Distinct<T>(q: seq<T>)
  {
    forall i, j :: 0 <= i < j < |q| ==> q[i] != q[j]
  }

  ghost predicate PublishedOk(s: State, x: Id)
  {
    x in s.nodes && s.nodes[x].hist.stage.Published? && !s.nodes[x].refer
  }

  ghost predicate WaitingOk(s: State)
  {
    Distinct(s.waiting) && forall t :: t in s.waiting ==> SlotOk(s, t)
  }

  ghost predicate FinishedOk(s: State)
  {
    && Distinct(s.finished) && (forall x :: x in s.finished ==> PublishedOk(s, x) && x !in s.held)
    && (forall x :: x in s.held ==> PublishedOk(s, x))
  }

  ghost predicate PuttersOk(s: State)
  {
    forall m :: m in s.putters ==>
      var p := s.putters[m];
      p.node in s.nodes && s.nodes[p.node].handle == m &&
        p.next == s.nodes[p.node].hist.pushed < p.all == s.nodes[p.node].all
  }

  /** No call is made twice, combine_task only after process_task for every sub-task, and a result
      is extracted only after that. */
  ghost predicate EventOk(log: seq<Event>, sizes: seq<nat>, k: nat)
    requires k < |log|
  {
    && log[k] !in log[..k] && log[k].msg < |sizes|
    && match log[k]
       case Process(m, i) => i < sizes[m]
       case Combine(m) => forall i: nat {:trigger Process(m, i)} :: i < sizes[m] ==> Process(m, i) in log[..k]
       case Extract(m) => Combine(m) in log[..k]
  }

  ghost predicate LogOk(log: seq<Event>, sizes: seq<nat>)
  {
    forall k: nat :: k < |log| ==> EventOk(log, sizes, k)
  }

  predicate IsFor(s: State, x: Id, m: nat)
  {
    x in s.nodes && s.nodes[x].handle == m
  }

  /** A message has its own node until its result is extracted. */
  ghost predicate MessagesOk(s: State)
  {
    && (forall x, y :: x in s.nodes && y in s.nodes && s.nodes[x].handle == s.nodes[y].handle ==> x == y)
    && (forall m: nat {:trigger Extract(m)} :: m < |s.sizes| ==> Extract(m) in s.log || exists x :: IsFor(s, x, m))
  }

  ghost predicate NodesOk(s: State)
  {
    forall x {:trigger NodeOk(s, x)} :: NodeOk(s, x)
  }

  ghost predicate WorkersOk(s: State)
  {
    forall w: nat :: w < |s.workers| ==> WorkerOk(s, s.workers[w], w)
  }

  ghost predicate Inv(s: State)
  {
    NodesOk(s) && WorkersOk(s) && WaitingOk(s) && FinishedOk(s) && PuttersOk(s) && LogOk(s.log, s.sizes) &&
      MessagesOk(s)
  }

  // ----- every move keeps it

  /** Nothing that concerns node x differs. */
  ghost predicate SameFor(s: State, s': State, x: Id)
    requires x in s.nodes
  {
    var m := s.nodes[x].handle;
    && x in s'.nodes && s'.nodes[x] == s.nodes[x] && |s'.workers| == |s.workers|
    && (forall v :: 0 <= v < |s.workers| && !s.workers[v].Idle? && s.workers[v].node == x ==>
      s'.workers[v] == s.workers[v])
    && (forall i :: Slot(x, i) in s.waiting ==> Slot(x, i) in s'.waiting)
    && (x in s.finished || x in s.held ==> x in s'.finished || x in s'.held)
    && (m < |s.sizes| ==> m < |s'.sizes| && s'.sizes[m] == s.sizes[m])
    && (forall e: Event :: e.msg == m ==> (e in s'.log <==> e in s.log))
    && (m in s.putters ==> m in s'.putters && s'.putters[m] == s.putters[m])
  }

  lemma Frame(s: State, s': State, x: Id)
    requires x in s.nodes && NodeOk(s, x) && SameFor(s, s', x)
    ensures NodeOk(s', x)
  {
    FramePushes(s, s', x);
    FrameLogged(s, s', x);
  }

  lemma FramePushes(s: State, s': State, x: Id)
    requires x in s.nodes && PushesOk(s, x) && SameFor(s, s', x)
    ensures PushesOk(s', x)
  {
  }

  lemma FrameLogged(s: State, s': State, x: Id)
    requires x in s.nodes && PushesOk(s, x) && TasksOk(s, x) && LoggedOk(s, x) && SameFor(s, s', x)
    ensures LoggedOk(s', x)
  {
    forall i: nat ensures Past(s', x, i) <==> Past(s, x, i) {
    }
  }

  /** A move that changes no handle and no size. */
  lemma MessagesSame(s: State, s': State)
    requires MessagesOk(s) && s.log <= s'.log && s'.sizes == s.sizes
    requires forall x, m :: IsFor(s', x, m) <==> IsFor(s, x, m)
    ensures MessagesOk(s')
  {
    forall x, y | x in s'.nodes && y in s'.nodes && s'.nodes[x].handle == s'.nodes[y].handle ensures x == y {
      assert IsFor(s', x, s'.nodes[x].handle) && IsFor(s', y, s'.nodes[x].handle);
    }
    forall m: nat | m < |s'.sizes| && Extract(m) !in s'.log ensures exists x :: IsFor(s', x, m) {
      var x :| IsFor(s, x, m);
      assert IsFor(s', x, m);
    }
  }

  lemma MessagesPut(s: State, x: Id, all: nat, refer: bool, left: bool)
    requires Inv(s) && Can(s, Put(x, all, refer, left))
    ensures MessagesOk(Next(s, Put(x, all, refer, left)))
  {
    var s' := Next(s, Put(x, all, refer, left));
    forall m: nat | m < |s'.sizes| && Extract(m) !in s'.log ensures exists y :: IsFor(s', y, m) {
      if m == |s.sizes| {
        assert IsFor(s', x, m);
      } else {
        var y :| IsFor(s, y, m);
        assert IsFor(s', y, m);
      }
    }
    forall y | y in s.nodes ensures s.nodes[y].handle < |s.sizes| {
      assert NodeOk(s, y);
    }
  }

  lemma MessagesGone(s: State, s': State, x: Id)
    requires MessagesOk(s) && x in s.nodes && s'.nodes == s.nodes - {x} && s'.sizes == s.sizes
    requires s'.log == s.log + [Extract(s.nodes[x].handle)]
    ensures MessagesOk(s')
  {
    forall m: nat | m < |s'.sizes| && Extract(m) !in s'.log ensures exists y :: IsFor(s', y, m) {
      assert Extract(m) !in s.log;
      var y :| IsFor(s, y, m);
      assert s'.log[|s.log|] == Extract(s.nodes[x].handle);
      assert IsFor(s', y, m);
    }
  }

  /** The log grows by one event. */
  lemma LogSnoc(s: State, s': State, e: Event)
    requires LogOk(s.log, s.sizes) && s'.sizes == s.sizes && s'.log == s.log + [e] && EventOk(s'.log, s'.sizes, |s.log|)
    ensures LogOk(s'.log, s'.sizes)
  {
    forall k: nat | k < |s'.log| ensures EventOk(s'.log, s'.sizes, k) {
      if k < |s.log| {
        assert EventOk(s.log, s.sizes, k) && s'.log[..k] == s.log[..k];
      }
    }
  }

  lemma DistinctSnoc<T>(q: seq<T>, e: T)
    requires Distinct(q) && e !in q
    ensures Distinct(q + [e]) && forall x :: x in q + [e] <==> x in q || x == e
  {
  }

  lemma DistinctTail<T>(q: seq<T>)
    requires Distinct(q) && q != []
    ensures Distinct(q[1..]) && forall x :: x in q[1..] <==> x in q && x != q[0]
  {
    forall x | x in q && x != q[0] ensures x in q[1..] {
      var i :| 0 <= i < |q| && q[i] == x;
      assert q[1..][i - 1] == x;
    }
  }

  /** Nothing is logged yet for the next message. */
  lemma FreshMessage(s: State)
    requires LogOk(s.log, s.sizes)
    ensures forall e :: e in s.log ==> e.msg < |s.sizes|
  {
    forall e | e in s.log ensures e.msg < |s.sizes| {
      var k: nat :| k < |s.log| && s.log[k] == e;
      assert EventOk(s.log, s.sizes, k);
    }
  }

  /** n different numbers below n are all of them. */
  lemma {:induction false} AllOfThem(c: set<nat>, n: nat)
    requires (forall i :: i in c ==> i < n) && |c| == n
    ensures forall i: nat :: i < n ==> i in c
  {
    if n > 0 {
      Fewer(c - {n - 1}, n - 1);
      AllOfThem(c - {n - 1}, n - 1);
    }
  }

  lemma {:induction false} Fewer(c: set<nat>, n: nat)
    requires forall i :: i in c ==> i < n
    ensures |c| <= n
  {
    if n > 0 {
      Fewer(c - {n - 1}, n - 1);
    } else {
      assert c == {};
    }
  }

  /** When the last sub-task is counted, nobody else has to do with the node any more. */
  lemma NodeDone(s: State, x: Id)
    requires x in s.nodes && PushesOk(s, x) && TasksOk(s, x) && s.nodes[x].fin >= s.nodes[x].all
    ensures var n, h := s.nodes[x], s.nodes[x].hist;
            && n.fin == n.all == h.pushed && h.holder == map[] && (forall i: nat :: i < n.all <==> i in h.counted)
            && |h.takers| == n.all && forall k: nat :: Past(s, x, k) <==> k < n.all
  {
    var n, h := s.nodes[x], s.nodes[x].hist;
    Fewer(h.counted, n.all);
    Fewer(h.counted, h.pushed);
    AllOfThem(h.counted, n.all);
    assert forall i :: i in h.holder ==> i in h.counted;
    assert h.holder.Keys == {};
    SeqSet(h.takers);
    assert Elems(h.takers) == h.counted;
  }

  lemma {:induction false} SeqSet(q: seq<nat>)
    requires forall j, k :: 0 <= j < k < |q| ==> q[j] != q[k]
    ensures |Elems(q)| == |q|
  {
    if q == [] {
      assert Elems(q) == {};
    } else {
      var k := |q| - 1;
      SeqSet(q[..k]);
      assert q == q[..k] + [q[k]] && q[k] !in q[..k];
      assert Elems(q) == Elems(q[..k]) + {q[k]};
    }
  }

  function Elems(q: seq<nat>): set<nat>
  {
    set i | i in q
  }

  /** Not more sub-tasks are given out than there are. */
  lemma TasksFit(s: State, x: Id)
    requires x in s.nodes && PushesOk(s, x) && TasksOk(s, x)
    ensures s.nodes[x].cur <= s.nodes[x].all
  {
    var h := s.nodes[x].hist;
    SeqSet(h.takers);
    Fewer(Elems(h.takers), h.pushed);
  }

  lemma SizesSnoc(s: State, s': State, all: nat)
    requires LogOk(s.log, s.sizes) && s'.log == s.log && s'.sizes == s.sizes + [all]
    ensures LogOk(s'.log, s'.sizes)
  {
    forall k: nat | k < |s'.log| ensures EventOk(s'.log, s'.sizes, k) {
      assert EventOk(s.log, s.sizes, k);
    }
  }

  lemma PutKeeps(s: State, x: Id, all: nat, refer: bool, left: bool)
    requires Inv(s) && Can(s, Put(x, all, refer, left))
    ensures Inv(Next(s, Put(x, all, refer, left)))
  {
    var s' := Next(s, Put(x, all, refer, left));
    FreshMessage(s);
    forall y ensures NodeOk(s', y) {
      assert NodeOk(s, y);
    }
    forall v: nat | v < |s'.workers| ensures WorkerOk(s', s'.workers[v], v) {
      assert WorkerOk(s, s.workers[v], v);
    }
    assert WaitingOk(s');
    assert FinishedOk(s');
    assert PuttersOk(s');
    SizesSnoc(s, s', all);
    MessagesPut(s, x, all, refer, left);
  }

  lemma PushOther(s: State, m: nat, x: Id)
    requires Inv(s) && Can(s, Push(m)) && x != s.putters[m].node
    ensures NodeOk(Next(s, Push(m)), x)
  {
    if x in s.nodes {
      assert NodeOk(s, x);
      PushApart(s, m, x);
      Frame(s, Next(s, Push(m)), x);
    }
  }

  lemma PushApart(s: State, m: nat, x: Id)
    requires Inv(s) && Can(s, Push(m)) && x != s.putters[m].node && x in s.nodes
    ensures SameFor(s, Next(s, Push(m)), x)
  {
    hide LogOk, FinishedOk, PushesOk, TasksOk, StageOk, LoggedOk, PutterOk;
    assert NodeOk(s, s.putters[m].node);
    assert Slot(s.putters[m].node, s.putters[m].next) !in s.waiting;
    assert NodeOk(s, x);
  }

  lemma PushSelf(s: State, m: nat)
    requires Inv(s) && Can(s, Push(m))
    ensures NodeOk(Next(s, Push(m)), s.putters[m].node)
  {
    hide LogOk, FinishedOk;
    assert NodeOk(s, s.putters[m].node);
    var p := s.putters[m];
    assert Slot(p.node, p.next) !in s.waiting;
    DistinctSnoc(s.waiting, Slot(p.node, p.next));
  }

  lemma PushNode(s: State, m: nat, x: Id)
    requires Inv(s) && Can(s, Push(m))
    ensures NodeOk(Next(s, Push(m)), x)
  {
    hide Inv, NodeOk, Next;
    if x == s.putters[m].node {
      PushSelf(s, m);
    } else {
      PushOther(s, m, x);
    }
  }

  lemma PushWorkers(s: State, m: nat)
    requires Inv(s) && Can(s, Push(m))
    ensures WorkersOk(Next(s, Push(m)))
  {
    var s' := Next(s, Push(m));
    assert NodeOk(s, s.putters[m].node);
    var p := s.putters[m];
    assert Slot(p.node, p.next) !in s.waiting;
    DistinctSnoc(s.waiting, Slot(p.node, p.next));
    forall v: nat | v < |s'.workers| ensures WorkerOk(s', s'.workers[v], v) {
      assert WorkerOk(s, s.workers[v], v);
    }
  }

  lemma PushKeeps(s: State, m: nat)
    requires Inv(s) && Can(s, Push(m))
    ensures Inv(Next(s, Push(m)))
  {
    hide LogOk;
    var s' := Next(s, Push(m));
    assert NodeOk(s, s.putters[m].node);
    var p := s.putters[m];
    assert Slot(p.node, p.next) !in s.waiting;
    DistinctSnoc(s.waiting, Slot(p.node, p.next));
    forall x ensures NodeOk(s', x) {
      PushNode(s, m, x);
    }
    PushWorkers(s, m);
    assert WaitingOk(s');
    assert FinishedOk(s');
    assert PuttersOk(s');
    MessagesSame(s, s');
  }

  lemma PopOther(s: State, w: nat, x: Id)
    requires Inv(s) && Can(s, Pop(w)) && x != s.waiting[0].node
    ensures NodeOk(Next(s, Pop(w)), x)
  {
    if x in s.nodes {
      assert NodeOk(s, x);
      PopApart(s, w, x);
      Frame(s, Next(s, Pop(w)), x);
    }
  }

  lemma PopApart(s: State, w: nat, x: Id)
    requires Inv(s) && Can(s, Pop(w)) && x != s.waiting[0].node && x in s.nodes
    ensures SameFor(s, Next(s, Pop(w)), x)
  {
    hide LogOk, FinishedOk, PushesOk, TasksOk, StageOk, LoggedOk, PutterOk;
    assert SlotOk(s, s.waiting[0]);
    DistinctTail(s.waiting);
    assert NodeOk(s, x);
  }

  lemma PopSelf(s: State, w: nat)
    requires Inv(s) && Can(s, Pop(w))
    ensures NodeOk(Next(s, Pop(w)), s.waiting[0].node)
  {
    hide LogOk, FinishedOk;
    assert SlotOk(s, s.waiting[0]);
    assert NodeOk(s, s.waiting[0].node);
    DistinctTail(s.waiting);
  }

  lemma PopNode(s: State, w: nat, x: Id)
    requires Inv(s) && Can(s, Pop(w))
    ensures NodeOk(Next(s, Pop(w)), x)
  {
    hide Inv, NodeOk, Next;
    if x == s.waiting[0].node {
      PopSelf(s, w);
    } else {
      PopOther(s, w, x);
    }
  }

  lemma PopWorkers(s: State, w: nat)
    requires Inv(s) && Can(s, Pop(w))
    ensures WorkersOk(Next(s, Pop(w)))
  {
    var s' := Next(s, Pop(w));
    assert SlotOk(s, s.waiting[0]);
    assert NodeOk(s, s.waiting[0].node);
    DistinctTail(s.waiting);
    forall v: nat | v < |s'.workers| ensures WorkerOk(s', s'.workers[v], v) {
      assert WorkerOk(s, s.workers[v], v);
    }
  }

  lemma PopKeeps(s: State, w: nat)
    requires Inv(s) && Can(s, Pop(w))
    ensures Inv(Next(s, Pop(w)))
  {
    hide LogOk;
    var s' := Next(s, Pop(w));
    assert SlotOk(s, s.waiting[0]);
    assert NodeOk(s, s.waiting[0].node);
    DistinctTail(s.waiting);
    forall x ensures NodeOk(s', x) {
      PopNode(s, w, x);
    }
    PopWorkers(s, w);
    assert WaitingOk(s');
    assert FinishedOk(s');
    assert PuttersOk(s');
    MessagesSame(s, s');
  }

  lemma TakeOther(s: State, w: nat, x: Id)
    requires Inv(s) && Can(s, Take(w)) && x != s.workers[w].node
    ensures NodeOk(Next(s, Take(w)), x)
  {
    if x in s.nodes {
      assert NodeOk(s, x);
      TakeApart(s, w, x);
      Frame(s, Next(s, Take(w)), x);
    }
  }

  lemma TakeApart(s: State, w: nat, x: Id)
    requires Inv(s) && Can(s, Take(w)) && x != s.workers[w].node && x in s.nodes
    ensures SameFor(s, Next(s, Take(w)), x)
  {
    hide LogOk, FinishedOk, PushesOk, TasksOk, StageOk, LoggedOk, PutterOk;
    assert WorkerOk(s, s.workers[w], w);
    assert NodeOk(s, x);
  }

  lemma TakeTasks(s: State, w: nat)
    requires Inv(s) && Can(s, Take(w))
    ensures var s', x := Next(s, Take(w)), s.workers[w].node;
      x in s'.nodes && TasksOk(s', x) && StageOk(s', x) && PutterOk(s', x)
  {
    assert WorkerOk(s, s.workers[w], w);
    assert NodeOk(s, s.workers[w].node);
  }

  lemma TakeLogged(s: State, w: nat)
    requires Inv(s) && Can(s, Take(w))
    ensures var s', x := Next(s, Take(w)), s.workers[w].node; x in s'.nodes && LoggedOk(s', x)
  {
    assert WorkerOk(s, s.workers[w], w);
    assert NodeOk(s, s.workers[w].node);
  }

  lemma TakePushes(s: State, w: nat)
    requires Inv(s) && Can(s, Take(w))
    ensures var s', x := Next(s, Take(w)), s.workers[w].node; x in s'.nodes && PushesOk(s', x)
  {
    assert WorkerOk(s, s.workers[w], w);
    assert NodeOk(s, s.workers[w].node);
  }

  lemma TakeNode(s: State, w: nat, x: Id)
    requires Inv(s) && Can(s, Take(w))
    ensures NodeOk(Next(s, Take(w)), x)
  {
    hide PushesOk, TasksOk, StageOk, LoggedOk, PutterOk, WorkersOk, NodesOk, MessagesOk, LogOk, WaitingOk,
         FinishedOk, PuttersOk;
    if x == s.workers[w].node {
      TakeTasks(s, w);
      TakeLogged(s, w);
      TakePushes(s, w);
    } else {
      TakeOther(s, w, x);
    }
  }

  lemma TakeWorkers(s: State, w: nat)
    requires Inv(s) && Can(s, Take(w))
    ensures WorkersOk(Next(s, Take(w)))
  {
    var s' := Next(s, Take(w));
    assert WorkerOk(s, s.workers[w], w);
    assert NodeOk(s, s.workers[w].node);
    forall v: nat | v < |s'.workers| ensures WorkerOk(s', s'.workers[v], v) {
      assert WorkerOk(s, s.workers[v], v);
    }
  }

  lemma TakeKeeps(s: State, w: nat)
    requires Inv(s) && Can(s, Take(w))
    ensures Inv(Next(s, Take(w)))
  {
    hide LogOk;
    var s' := Next(s, Take(w));
    assert WorkerOk(s, s.workers[w], w);
    assert NodeOk(s, s.workers[w].node);
    forall x ensures NodeOk(s', x) {
      TakeNode(s, w, x);
    }
    TakeWorkers(s, w);
    assert WaitingOk(s');
    assert FinishedOk(s');
    assert PuttersOk(s');
    MessagesSame(s, s');
  }

  lemma WorkOther(s: State, w: nat, x: Id)
    requires Inv(s) && Can(s, Work(w)) && x != s.workers[w].node
    ensures NodeOk(Next(s, Work(w)), x)
  {
    if x in s.nodes {
      assert NodeOk(s, x);
      WorkApart(s, w, x);
      Frame(s, Next(s, Work(w)), x);
    }
  }

  lemma WorkApart(s: State, w: nat, x: Id)
    requires Inv(s) && Can(s, Work(w)) && x != s.workers[w].node && x in s.nodes
    ensures SameFor(s, Next(s, Work(w)), x)
  {
    hide LogOk, FinishedOk, PushesOk, TasksOk, StageOk, LoggedOk, PutterOk;
    assert WorkerOk(s, s.workers[w], w);
    assert NodeOk(s, x);
  }

  lemma WorkSelf(s: State, w: nat)
    requires Inv(s) && Can(s, Work(w))
    ensures NodeOk(Next(s, Work(w)), s.workers[w].node)
  {
    hide LogOk, FinishedOk;
    assert WorkerOk(s, s.workers[w], w);
    assert NodeOk(s, s.workers[w].node);
  }

  lemma WorkNode(s: State, w: nat, x: Id)
    requires Inv(s) && Can(s, Work(w))
    ensures NodeOk(Next(s, Work(w)), x)
  {
    hide Inv, NodeOk, Next;
    if x == s.workers[w].node {
      WorkSelf(s, w);
    } else {
      WorkOther(s, w, x);
    }
  }

  lemma WorkWorkers(s: State, w: nat)
    requires Inv(s) && Can(s, Work(w))
    ensures WorkersOk(Next(s, Work(w)))
  {
    var s' := Next(s, Work(w));
    assert WorkerOk(s, s.workers[w], w);
    assert NodeOk(s, s.workers[w].node);
    forall v: nat | v < |s'.workers| ensures WorkerOk(s', s'.workers[v], v) {
      assert WorkerOk(s, s.workers[v], v);
    }
  }

  lemma WorkKeeps(s: State, w: nat)
    requires Inv(s) && Can(s, Work(w))
    ensures Inv(Next(s, Work(w)))
  {
    var s' := Next(s, Work(w));
    assert WorkerOk(s, s.workers[w], w);
    assert NodeOk(s, s.workers[w].node);
    forall x ensures NodeOk(s', x) {
      WorkNode(s, w, x);
    }
    WorkWorkers(s, w);
    assert WaitingOk(s');
    assert FinishedOk(s');
    assert PuttersOk(s');
    var a := s.workers[w];
    TasksFit(s, a.node);
    assert !Past(s, a.node, a.task);
    LogSnoc(s, s', Process(s.nodes[a.node].handle, a.task));
    MessagesSame(s, s');
  }

  lemma CountOther(s: State, w: nat, x: Id)
    requires Inv(s) && Can(s, Count(w)) && x != s.workers[w].node
    ensures NodeOk(Next(s, Count(w)), x)
  {
    if x in s.nodes {
      assert NodeOk(s, x);
      CountApart(s, w, x);
      Frame(s, Next(s, Count(w)), x);
    }
  }

  lemma CountApart(s: State, w: nat, x: Id)
    requires Inv(s) && Can(s, Count(w)) && x != s.workers[w].node && x in s.nodes
    ensures SameFor(s, Next(s, Count(w)), x)
  {
    hide LogOk, FinishedOk, PushesOk, TasksOk, StageOk, LoggedOk, PutterOk;
    assert WorkerOk(s, s.workers[w], w);
    assert NodeOk(s, x);
  }

  lemma CountTasks(s: State, w: nat)
    requires Inv(s) && Can(s, Count(w))
    ensures var s', x := Next(s, Count(w)), s.workers[w].node; x in s'.nodes && TasksOk(s', x)
  {
    hide LogOk, MessagesOk, FinishedOk, PuttersOk, WaitingOk, PutterOk, LoggedOk, StageOk;
    assert WorkerOk(s, s.workers[w], w);
    assert NodeOk(s, s.workers[w].node);
  }

  lemma CountStage(s: State, w: nat)
    requires Inv(s) && Can(s, Count(w))
    ensures var s', x := Next(s, Count(w)), s.workers[w].node;
      x in s'.nodes && StageOk(s', x) && PutterOk(s', x)
  {
    hide LogOk, MessagesOk, FinishedOk, LoggedOk, TasksOk, WaitingOk;
    assert WorkerOk(s, s.workers[w], w);
    assert NodeOk(s, s.workers[w].node);
  }

  lemma CountLogged(s: State, w: nat)
    requires Inv(s) && Can(s, Count(w))
    ensures var s', x := Next(s, Count(w)), s.workers[w].node; x in s'.nodes && LoggedOk(s', x)
  {
    hide LogOk, MessagesOk, FinishedOk, PuttersOk, WaitingOk, PutterOk, TasksOk;
    var s', x := Next(s, Count(w)), s.workers[w].node;
    assert WorkerOk(s, s.workers[w], w);
    assert NodeOk(s, x);
    forall i: nat ensures Past(s', x, i) <==> Past(s, x, i) {
    }
    assert s'.nodes[x].handle == s.nodes[x].handle && s'.log == s.log;
  }

  lemma CountPushes(s: State, w: nat)
    requires Inv(s) && Can(s, Count(w))
    ensures var s', x := Next(s, Count(w)), s.workers[w].node; x in s'.nodes && PushesOk(s', x)
  {
    hide LogOk, MessagesOk, FinishedOk, PuttersOk;
    assert WorkerOk(s, s.workers[w], w);
    assert NodeOk(s, s.workers[w].node);
  }

  lemma CountNode(s: State, w: nat, x: Id)
    requires Inv(s) && Can(s, Count(w))
    ensures NodeOk(Next(s, Count(w)), x)
  {
    hide PushesOk, TasksOk, StageOk, LoggedOk, PutterOk, WorkersOk, NodesOk, MessagesOk, LogOk, WaitingOk,
         FinishedOk, PuttersOk;
    if x == s.workers[w].node {
      CountTasks(s, w);
      CountStage(s, w);
      CountLogged(s, w);
      CountPushes(s, w);
    } else {
      CountOther(s, w, x);
    }
  }

  lemma CountWorkers(s: State, w: nat)
    requires Inv(s) && Can(s, Count(w))
    ensures WorkersOk(Next(s, Count(w)))
  {
    hide LogOk, MessagesOk, FinishedOk, PuttersOk, WaitingOk, PutterOk, LoggedOk, TasksOk, StageOk;
    var s' := Next(s, Count(w));
    forall v: nat | v < |s'.workers| ensures WorkerOk(s', s'.workers[v], v) {
      CountWorker(s, w, v);
    }
  }

  lemma CountWorker(s: State, w: nat, v: nat)
    requires Inv(s) && Can(s, Count(w)) && v < |s.workers|
    ensures var s' := Next(s, Count(w)); v < |s'.workers| && WorkerOk(s', s'.workers[v], v)
  {
    hide LogOk, MessagesOk, FinishedOk, PuttersOk, WaitingOk, PutterOk, LoggedOk, TasksOk;
    assert WorkerOk(s, s.workers[w], w) && WorkerOk(s, s.workers[v], v);
    assert NodeOk(s, s.workers[w].node);
  }

  lemma CountQueues(s: State, w: nat)
    requires Inv(s) && Can(s, Count(w))
    ensures var s' := Next(s, Count(w)); WaitingOk(s') && FinishedOk(s') && PuttersOk(s')
  {
    hide LogOk, TasksOk, LoggedOk, PutterOk, MessagesOk;
    assert WorkerOk(s, s.workers[w], w);
    assert NodeOk(s, s.workers[w].node);
  }

  lemma CountKeeps(s: State, w: nat)
    requires Inv(s) && Can(s, Count(w))
    ensures Inv(Next(s, Count(w)))
  {
    hide LogOk, PushesOk, TasksOk, StageOk, LoggedOk, PutterOk, MessagesOk, WaitingOk, FinishedOk, PuttersOk, NodeOk;
    var s' := Next(s, Count(w));
    assert WorkerOk(s, s.workers[w], w);
    assert NodeOk(s, s.workers[w].node);
    forall x ensures NodeOk(s', x) {
      CountNode(s, w, x);
    }
    CountWorkers(s, w);
    CountQueues(s, w);
    CountMessages(s, w);
  }

  lemma CountMessages(s: State, w: nat)
    requires Inv(s) && Can(s, Count(w))
    ensures var s' := Next(s, Count(w)); MessagesOk(s') && LogOk(s'.log, s'.sizes)
  {
    hide LogOk, PushesOk, TasksOk, StageOk, LoggedOk, PutterOk, MessagesOk, WaitingOk, FinishedOk, PuttersOk;
    assert WorkerOk(s, s.workers[w], w);
    MessagesSame(s, Next(s, Count(w)));
  }

  lemma JoinOther(s: State, w: nat, x: Id)
    requires Inv(s) && Can(s, Join(w)) && x != s.workers[w].node
    ensures NodeOk(Next(s, Join(w)), x)
  {
    if x in s.nodes {
      assert NodeOk(s, x);
      JoinApart(s, w, x);
      Frame(s, Next(s, Join(w)), x);
    }
  }

  lemma JoinApart(s: State, w: nat, x: Id)
    requires Inv(s) && Can(s, Join(w)) && x != s.workers[w].node && x in s.nodes
    ensures SameFor(s, Next(s, Join(w)), x)
  {
    hide LogOk, FinishedOk, PushesOk, TasksOk, StageOk, LoggedOk, PutterOk;
    assert WorkerOk(s, s.workers[w], w);
    assert NodeOk(s, x);
  }

  lemma JoinSelf(s: State, w: nat)
    requires Inv(s) && Can(s, Join(w))
    ensures NodeOk(Next(s, Join(w)), s.workers[w].node)
  {
    hide LogOk, FinishedOk;
    assert WorkerOk(s, s.workers[w], w);
    assert NodeOk(s, s.workers[w].node);
    NodeDone(s, s.workers[w].node);
  }

  lemma JoinNode(s: State, w: nat, x: Id)
    requires Inv(s) && Can(s, Join(w))
    ensures NodeOk(Next(s, Join(w)), x)
  {
    hide Inv, NodeOk, Next;
    if x == s.workers[w].node {
      JoinSelf(s, w);
    } else {
      JoinOther(s, w, x);
    }
  }

  lemma JoinWorkers(s: State, w: nat)
    requires Inv(s) && Can(s, Join(w))
    ensures WorkersOk(Next(s, Join(w)))
  {
    var s' := Next(s, Join(w));
    assert WorkerOk(s, s.workers[w], w);
    assert NodeOk(s, s.workers[w].node);
    NodeDone(s, s.workers[w].node);
    forall v: nat | v < |s'.workers| ensures WorkerOk(s', s'.workers[v], v) {
      assert WorkerOk(s, s.workers[v], v);
    }
  }

  lemma JoinKeeps(s: State, w: nat)
    requires Inv(s) && Can(s, Join(w))
    ensures Inv(Next(s, Join(w)))
  {
    var s' := Next(s, Join(w));
    assert WorkerOk(s, s.workers[w], w);
    assert NodeOk(s, s.workers[w].node);
    NodeDone(s, s.workers[w].node);
    forall x ensures NodeOk(s', x) {
      JoinNode(s, w, x);
    }
    JoinWorkers(s, w);
    assert WaitingOk(s');
    assert FinishedOk(s');
    assert PuttersOk(s');
    LogSnoc(s, s', Combine(s.nodes[s.workers[w].node].handle));
    MessagesSame(s, s');
  }

  lemma PublishOther(s: State, w: nat, x: Id)
    requires Inv(s) && Can(s, Publish(w)) && x != s.workers[w].node
    ensures NodeOk(Next(s, Publish(w)), x)
  {
    if x in s.nodes {
      assert NodeOk(s, x);
      PublishApart(s, w, x);
      Frame(s, Next(s, Publish(w)), x);
    }
  }

  lemma PublishApart(s: State, w: nat, x: Id)
    requires Inv(s) && Can(s, Publish(w)) && x != s.workers[w].node && x in s.nodes
    ensures SameFor(s, Next(s, Publish(w)), x)
  {
    hide LogOk, FinishedOk, PushesOk, TasksOk, StageOk, LoggedOk, PutterOk;
    assert WorkerOk(s, s.workers[w], w);
    assert NodeOk(s, x);
  }

  lemma PublishSelf(s: State, w: nat)
    requires Inv(s) && Can(s, Publish(w))
    ensures NodeOk(Next(s, Publish(w)), s.workers[w].node)
  {
    hide LogOk, MessagesOk;
    assert WorkerOk(s, s.workers[w], w);
    assert NodeOk(s, s.workers[w].node);
    assert s.workers[w].node !in s.finished;
    DistinctSnoc(s.finished, s.workers[w].node);
  }

  lemma PublishNode(s: State, w: nat, x: Id)
    requires Inv(s) && Can(s, Publish(w))
    ensures NodeOk(Next(s, Publish(w)), x)
  {
    hide Inv, NodeOk, Next;
    if x == s.workers[w].node {
      PublishSelf(s, w);
    } else {
      PublishOther(s, w, x);
    }
  }

  lemma PublishWorkers(s: State, w: nat)
    requires Inv(s) && Can(s, Publish(w))
    ensures WorkersOk(Next(s, Publish(w)))
  {
    var s' := Next(s, Publish(w));
    assert WorkerOk(s, s.workers[w], w);
    assert NodeOk(s, s.workers[w].node);
    assert s.workers[w].node !in s.finished;
    DistinctSnoc(s.finished, s.workers[w].node);
    forall v: nat | v < |s'.workers| ensures WorkerOk(s', s'.workers[v], v) {
      assert WorkerOk(s, s.workers[v], v);
    }
  }

  lemma PublishKeeps(s: State, w: nat)
    requires Inv(s) && Can(s, Publish(w))
    ensures Inv(Next(s, Publish(w)))
  {
    hide LogOk;
    var s' := Next(s, Publish(w));
    assert WorkerOk(s, s.workers[w], w);
    assert NodeOk(s, s.workers[w].node);
    assert s.workers[w].node !in s.finished;
    DistinctSnoc(s.finished, s.workers[w].node);
    forall x ensures NodeOk(s', x) {
      PublishNode(s, w, x);
    }
    PublishWorkers(s, w);
    assert WaitingOk(s');
    assert FinishedOk(s');
    assert PuttersOk(s');
    MessagesSame(s, s');
  }

  lemma FetchKeeps(s: State)
    requires Inv(s) && Can(s, Fetch)
    ensures Inv(Next(s, Fetch))
  {
    hide LogOk;
    var s' := Next(s, Fetch);
    DistinctTail(s.finished);
    forall x ensures NodeOk(s', x) {
      assert NodeOk(s, x);
    }
    forall v: nat | v < |s'.workers| ensures WorkerOk(s', s'.workers[v], v) {
      assert WorkerOk(s, s.workers[v], v);
    }
    assert WaitingOk(s');
    assert FinishedOk(s');
    assert PuttersOk(s');
    MessagesSame(s, s');
  }

  lemma PutBackKeeps(s: State, x: Id)
    requires Inv(s) && Can(s, PutBack(x))
    ensures Inv(Next(s, PutBack(x)))
  {
    hide LogOk;
    var s' := Next(s, PutBack(x));
    DistinctSnoc(s.finished, x);
    forall y ensures NodeOk(s', y) {
      assert NodeOk(s, y);
    }
    forall v: nat | v < |s'.workers| ensures WorkerOk(s', s'.workers[v], v) {
      assert WorkerOk(s, s.workers[v], v);
    }
    assert WaitingOk(s');
    assert FinishedOk(s');
    assert PuttersOk(s');
    MessagesSame(s, s');
  }

  /** The node of a message whose result is extracted goes. */
  ghost predicate Gone(s: State, s': State, x: Id)
    requires x in s.nodes
  {
    && s'.nodes == s.nodes - {x} && s'.log == s.log + [Extract(s.nodes[x].handle)] && s'.held == s.held - {x}
    && s'.waiting == s.waiting && s'.finished == s.finished && s'.workers == s.workers && s'.putters == s.putters &&
      s'.sizes == s.sizes
  }

  lemma GoneOther(s: State, s': State, x: Id, y: Id)
    requires Inv(s) && x in s.nodes && Gone(s, s', x) && y in s'.nodes
    ensures NodeOk(s', y)
  {
    assert NodeOk(s, y);
    GoneApart(s, s', x, y);
    Frame(s, s', y);
  }

  lemma GoneApart(s: State, s': State, x: Id, y: Id)
    requires MessagesOk(s) && x in s.nodes && Gone(s, s', x) && y in s.nodes && y != x
    ensures SameFor(s, s', y)
  {
  }

  lemma GoneKeeps(s: State, s': State, x: Id)
    requires Inv(s) && x in s.nodes && s.nodes[x].hist.stage.Published? && x !in s.finished && Gone(s, s', x)
    ensures Inv(s')
  {
    hide LogOk, MessagesOk, SameFor;
    assert NodeOk(s, x);
    NodeDone(s, x);
    forall y ensures NodeOk(s', y) {
      if y in s'.nodes {
        GoneOther(s, s', x, y);
      }
    }
    forall v: nat | v < |s'.workers| ensures WorkerOk(s', s'.workers[v], v) {
      assert WorkerOk(s, s.workers[v], v);
    }
    assert WaitingOk(s');
    assert FinishedOk(s');
    assert PuttersOk(s');
    ExtractLogged(s, s', x);
    MessagesGone(s, s', x);
  }

  lemma ExtractLogged(s: State, s': State, x: Id)
    requires LogOk(s.log, s.sizes) && x in s.nodes && LoggedOk(s, x) && s.nodes[x].hist.stage.Published?
    requires Gone(s, s', x)
    ensures LogOk(s'.log, s'.sizes)
  {
    LogSnoc(s, s', Extract(s.nodes[x].handle));
  }

  lemma RecycleKeeps(s: State, x: Id)
    requires Inv(s) && Can(s, Recycle(x))
    ensures Inv(Next(s, Recycle(x)))
  {
    hide NodesOk, WorkersOk, WaitingOk, PuttersOk, LogOk, MessagesOk;
    GoneKeeps(s, Next(s, Recycle(x)), x);
  }

  lemma RecycleReferredKeeps(s: State, x: Id)
    requires Inv(s) && Can(s, RecycleReferred(x))
    ensures Inv(Next(s, RecycleReferred(x)))
  {
    assert NodeOk(s, x);
    var s' := Next(s, RecycleReferred(x));
    assert s.held - {x} == s.held;
    GoneKeeps(s, s', x);
  }

  lemma Keeps(s: State, mv: Move)
    requires Inv(s) && Can(s, mv)
    ensures Inv(Next(s, mv))
  {
    hide Inv, Can, Next;
    match mv
    case Put(x, all, refer, left) => PutKeeps(s, x, all, refer, left);
    case Push(m) => PushKeeps(s, m);
    case Pop(w) => PopKeeps(s, w);
    case Take(w) => TakeKeeps(s, w);
    case Work(w) => WorkKeeps(s, w);
    case Count(w) => CountKeeps(s, w);
    case Join(w) => JoinKeeps(s, w);
    case Publish(w) => PublishKeeps(s, w);
    case Fetch => FetchKeeps(s);
    case PutBack(x) => PutBackKeeps(s, x);
    case Recycle(x) => RecycleKeeps(s, x);
    case RecycleReferred(x) => RecycleReferredKeeps(s, x);
  }

  // ----- whole runs

  lemma {:induction false} RunKeeps(ss: seq<State>, mvs: seq<Move>, i: nat)
    requires Run(ss, mvs) && i <= |mvs|
    ensures Inv(ss[i])
  {
    hide Inv, Can, Next;
    if i == 0 {
      var k: nat :| ss[0] == Start(k);
      StartOk(k);
    } else {
      RunKeeps(ss, mvs, i - 1);
      assert Can(ss[i - 1], mvs[i - 1]) && ss[i - 1 + 1] == Next(ss[i - 1], mvs[i - 1]);
      Keeps(ss[i - 1], mvs[i - 1]);
    }
  }

  lemma StartOk(k: nat)
    ensures Inv(Start(k))
  {
  }

  // ----- what the moves say, whatever the state does with them

  /** The numbers of sub-tasks of the messages put. */
  function SizesOf(mvs: seq<Move>): seq<nat>
  {
    if mvs == [] then []
    else
      var mv := mvs[|mvs| - 1];
      SizesOf(mvs[..|mvs| - 1]) + if mv.Put? then [mv.all] else []
  }

  /** The calls that a move makes. */
  datatype Kind = Processing | Combining | Extracting

  function KindOf(mv: Move): seq<Kind>
  {
    match mv
    case Work(_) => [Processing]
    case Join(_) => [Combining]
    case Recycle(_) => [Extracting]
    case RecycleReferred(_) => [Extracting]
    case _ => []
  }

  function KindsOf(mvs: seq<Move>): seq<Kind>
  {
    if mvs == [] then [] else KindsOf(mvs[..|mvs| - 1]) + KindOf(mvs[|mvs| - 1])
  }

  function EventKind(e: Event): Kind
  {
    match e
    case Process(_, _) => Processing
    case Combine(_) => Combining
    case Extract(_) => Extracting
  }

  function LogKinds(log: seq<Event>): seq<Kind>
  {
    if log == [] then [] else LogKinds(log[..|log| - 1]) + [EventKind(log[|log| - 1])]
  }

  lemma KindsSnoc(log: seq<Event>, e: Event)
    ensures LogKinds(log + [e]) == LogKinds(log) + [EventKind(e)]
  {
    assert (log + [e])[..|log|] == log;
  }

  /** Sizes and calls are those that the moves made, one by one. */
  lemma {:induction false} MovesTell(ss: seq<State>, mvs: seq<Move>, i: nat)
    requires Run(ss, mvs) && i <= |mvs|
    ensures ss[i].sizes == SizesOf(mvs[..i]) && LogKinds(ss[i].log) == KindsOf(mvs[..i])
  {
    hide Can;
    if i > 0 {
      MovesTell(ss, mvs, i - 1);
      assert mvs[..i][..i - 1] == mvs[..i - 1];
      assert Can(ss[i - 1], mvs[i - 1]) && ss[i - 1 + 1] == Next(ss[i - 1], mvs[i - 1]);
      MoveTells(ss[i - 1], mvs[i - 1]);
    }
  }

  lemma MoveTells(s: State, mv: Move)
    requires Can(s, mv)
    ensures Next(s, mv).sizes == s.sizes + if mv.Put? then [mv.all] else []
    ensures LogKinds(Next(s, mv).log) == LogKinds(s.log) + KindOf(mv)
  {
    hide LogKinds;
    match mv
    case Work(w) =>
      var a := s.workers[w];
      KindsSnoc(s.log, Process(At(s, a.node).handle, a.task));
    case Join(w) =>
      KindsSnoc(s.log, Combine(At(s, s.workers[w].node).handle));
    case Recycle(x) =>
      KindsSnoc(s.log, Extract(At(s, x).handle));
    case RecycleReferred(x) =>
      KindsSnoc(s.log, Extract(s.nodes[x].handle));
    case _ =>
  }

  /** A move of a putter or of a worker. */
  predicate Internal(mv: Move)
  {
    mv.Push? || mv.Pop? || mv.Take? || mv.Work? || mv.Count? || mv.Join? || mv.Publish?
  }

  /** As long as there is something left to do, somebody can do it. */
  lemma NeverStuck(ss: seq<State>, mvs: seq<Move>, i: nat)
    requires Run(ss, mvs) && i <= |mvs| && |ss[i].workers| > 0 && !Quiet(ss[i])
    ensures exists mv :: Internal(mv) && Can(ss[i], mv)
  {
    var s := ss[i];
    if s.putters != map[] {
      var m :| m in s.putters;
      assert Can(s, Push(m));
    } else if w: nat :| w < |s.workers| && !s.workers[w].Idle? {
      var mv := match s.workers[w]
        case Popped(_, _) => Take(w)
        case Working(_, _, _) => Work(w)
        case Done(_, _, _) => Count(w)
        case Last(_) => Join(w)
        case _ => Publish(w);
      assert Internal(mv) && Can(s, mv);
    } else {
      assert s.workers[0].Idle? && Can(s, Pop(0));
    }
  }

  /** How far a worker is from being idle. */
  function Steps(a: Worker): nat
  {
    match a
    case Idle => 0
    case Popped(_, _) => 5
    case Working(_, _, _) => 4
    case Done(_, _, _) => 3
    case Last(_) => 2
    case Combined(_) => 1
  }

  function AllSteps(workers: seq<Worker>): nat
  {
    if workers == [] then 0 else AllSteps(workers[..|workers| - 1]) + Steps(workers[|workers| - 1])
  }

  function PushesLeft(p: Putter): nat
  {
    if p.next < p.all then p.all - p.next else 0
  }

  /** The pushes that the putters of the first k messages still have to make. */
  function ToPush(putters: map<nat, Putter>, k: nat): nat
  {
    if k == 0 then 0 else ToPush(putters, k - 1) + (if k - 1 in putters then PushesLeft(putters[k - 1]) else 0)
  }

  /** The steps left until all is quiet, if no message is put any more. */
  function Left(s: State): nat
  {
    7 * ToPush(s.putters, |s.sizes|) + 6 * |s.waiting| + AllSteps(s.workers)
  }

  lemma {:induction false} StepsChange(workers: seq<Worker>, w: nat, a: Worker)
    requires w < |workers|
    ensures AllSteps(workers[w := a]) + Steps(workers[w]) == AllSteps(workers) + Steps(a)
    decreases |workers|
  {
    var k := |workers| - 1;
    if w == k {
      assert workers[w := a][..k] == workers[..k];
    } else {
      StepsChange(workers[..k], w, a);
      assert workers[w := a][..k] == workers[..k][w := a];
    }
  }

  lemma {:induction false} PushChange(putters: map<nat, Putter>, putters': map<nat, Putter>, m: nat, k: nat)
    requires m in putters && putters[m].next < putters[m].all
    requires forall x :: x != m ==> (x in putters <==> x in putters') && (x in putters ==> putters'[x] == putters[x])
    requires if putters[m].next + 1 < putters[m].all
      then m in putters' && putters'[m] == putters[m].(next := putters[m].next + 1) else m !in putters'
    ensures ToPush(putters', k) == ToPush(putters, k) - if m < k then 1 else 0
  {
    if k > 0 {
      PushChange(putters, putters', m, k - 1);
    }
  }

  /** Every move of a putter or a worker brings the end nearer. */
  lemma Nearer(s: State, mv: Move)
    requires Inv(s) && Can(s, mv) && Internal(mv)
    ensures Left(Next(s, mv)) < Left(s)
  {
    if mv.Push? {
      PutterBound(s, mv.m);
      PushChange(s.putters, Next(s, mv).putters, mv.m, |s.sizes|);
    } else {
      StepsChange(s.workers, mv.w, Next(s, mv).workers[mv.w]);
    }
  }

  lemma PutterBound(s: State, m: nat)
    requires Inv(s) && m in s.putters
    ensures m < |s.sizes| && s.putters[m].next < s.putters[m].all
  {
    assert NodeOk(s, s.putters[m].node);
  }

  // ----- every run

  /** In every run: process_task at most once for each sub-task, combine_task at most once and after
      all of them, and nothing extracted before. */
  lemma NothingTwice(ss: seq<State>, mvs: seq<Move>, i: nat, j: nat, k: nat)
    requires Run(ss, mvs) && i <= |mvs| && j < |ss[i].log| && k < |ss[i].log|
    ensures j != k ==> ss[i].log[j] != ss[i].log[k]
    ensures EventOk(ss[i].log, SizesOf(mvs[..i]), k)
  {
    RunKeeps(ss, mvs, i);
    MovesTell(ss, mvs, i);
    assert EventOk(ss[i].log, ss[i].sizes, j) && EventOk(ss[i].log, ss[i].sizes, k);
    assert j < k ==> ss[i].log[j] in ss[i].log[..k];
    assert k < j ==> ss[i].log[k] in ss[i].log[..j];
  }

  /** A node that get_message is about to recycle is no longer anybody else's: no worker will touch
      it, it is in no queue, and no caller is still putting it there. */
  lemma RecycledUntouched(ss: seq<State>, mvs: seq<Move>, i: nat, x: Id)
    requires Run(ss, mvs) && i <= |mvs| && (Can(ss[i], Recycle(x)) || Can(ss[i], RecycleReferred(x)))
    ensures forall w :: 0 <= w < |ss[i].workers| && !ss[i].workers[w].Idle? ==> ss[i].workers[w].node != x
    ensures forall t :: t in ss[i].waiting ==> t.node != x
    ensures x !in ss[i].finished
    ensures forall m :: m in ss[i].putters ==> ss[i].putters[m].node != x
  {
    var s := ss[i];
    RunKeeps(ss, mvs, i);
    assert NodeOk(s, x);
    NodeDone(s, x);
    forall w | 0 <= w < |s.workers| && !s.workers[w].Idle? ensures s.workers[w].node != x {
      assert WorkerOk(s, s.workers[w], w);
    }
    forall t | t in s.waiting ensures t.node != x {
      assert SlotOk(s, t);
    }
  }

  /** No worker ever reads a node that is not in use. */
  lemma WorkersNodeInUse(ss: seq<State>, mvs: seq<Move>, i: nat, w: nat)
    requires Run(ss, mvs) && i <= |mvs| && w < |ss[i].workers| && !ss[i].workers[w].Idle?
    ensures ss[i].workers[w].node in ss[i].nodes
  {
    RunKeeps(ss, mvs, i);
    assert WorkerOk(ss[i], ss[i].workers[w], w);
  }

  /** Nobody is in the middle of anything and the waiting queue is empty. */
  predicate Quiet(s: State)
  {
    s.waiting == [] && s.putters == map[] && forall w :: 0 <= w < |s.workers| ==> s.workers[w].Idle?
  }

  /** Then every message's sub-tasks are all processed and combined. */
  lemma QuietIsDone(ss: seq<State>, mvs: seq<Move>, i: nat, m: nat)
    requires Run(ss, mvs) && i <= |mvs| && Quiet(ss[i]) && m < |SizesOf(mvs[..i])|
    ensures Combine(m) in ss[i].log
    ensures forall k: nat {:trigger Process(m, k)} :: k < SizesOf(mvs[..i])[m] ==> Process(m, k) in ss[i].log
  {
    var s := ss[i];
    RunKeeps(ss, mvs, i);
    MovesTell(ss, mvs, i);
    if Extract(m) in s.log {
      var k: nat :| k < |s.log| && s.log[k] == Extract(m);
      assert EventOk(s.log, s.sizes, k);
    } else {
      var x :| IsFor(s, x, m);
      assert NodeOk(s, x);
      QuietNode(s, x);
    }
    var k: nat :| k < |s.log| && s.log[k] == Combine(m);
    assert EventOk(s.log, s.sizes, k);
  }

  lemma QuietNode(s: State, x: Id)
    requires x in s.nodes && NodeOk(s, x) && Quiet(s)
    ensures s.nodes[x].hist.stage.Published?
  {
    var n, h := s.nodes[x], s.nodes[x].hist;
    assert h.pushed == n.all;
    forall j: nat | j < n.all ensures j in h.counted {
    }
    AtLeast(h.counted, n.all);
  }

  lemma {:induction false} AtLeast(c: set<nat>, n: nat)
    requires forall i: nat :: i < n ==> i in c
    ensures |c| >= n
  {
    if n > 0 {
      AtLeast(c - {n - 1}, n - 1);
    }
  }
}
