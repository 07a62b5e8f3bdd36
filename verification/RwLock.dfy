/** CP_MutexLock_RW of UH_Define.h: readers and a writer kept apart by one 32-bit word. */
module RwLock {
  type Thread = nat
  type Word = x: nat | x < 0x1_0000_0000

  // The word: the highest bit for a writer inside, the next to stop readers, 30 bits of readers.
  const USING: nat := 0x8000_0000
  const STOP: nat := 0x4000_0000

  predicate Used(x: Word) { USING <= x }

  predicate Stopped(x: Word) { STOP <= x % USING }

  function Count(x: Word): nat { x % STOP }

  /** The word with the mask's bits set: sign_mask has the stop bit if writers win. */
  function Marked(x: Word, used: bool, stop: bool): Word
  {
    Count(x) + (if used || Used(x) then USING else 0) + (if stop || Stopped(x) then STOP else 0)
  }

  /** One round of lock_r: whether the reader is in, and the word after it. */
  function ReadAttempt(x: Word, wins: bool): (bool, Word)
  {
    if Used(x) || (wins && Stopped(x)) then (false, x) else (true, (x + 1) % 0x1_0000_0000)
  }

  /** One round of lock_w, which does not look at the stop bit. */
  function WriteAttempt(x: Word, wins: bool): (bool, Word)
  {
    if !Used(x) && Count(x) == 0 then (true, Marked(x, true, wins)) else (false, Marked(x, false, wins))
  }

  /** unlock, for readers and writers alike. */
  function Release(x: Word, wins: bool): Word
  {
    if Used(x) && (Stopped(x) <==> wins) then 0 else (x - 1) % 0x1_0000_0000
  }

  class Lock {
    const wins: bool
    var signLock: Word

    constructor (wins: bool)
      ensures this.wins == wins && signLock == 0
    {
      this.wins := wins;
      signLock := 0;
    }

    method TryRead() returns (ok: bool)
      modifies this
      ensures (ok, signLock) == ReadAttempt(old(signLock), wins)
    {
      ok := false;
      if !Used(signLock) && !(wins && Stopped(signLock)) {
        signLock := (signLock + 1) % 0x1_0000_0000;
        ok := true;
      }
    }

    method TryWrite() returns (ok: bool)
      modifies this
      ensures (ok, signLock) == WriteAttempt(old(signLock), wins)
    {
      ok := false;
      if !Used(signLock) && Count(signLock) == 0 {
        signLock := Marked(signLock, true, wins);
        ok := true;
      } else {
        signLock := Marked(signLock, false, wins);
      }
    }

    method Unlock()
      modifies this
      ensures signLock == Release(old(signLock), wins)
    {
      signLock := if Used(signLock) && Stopped(signLock) == wins then 0 else (signLock - 1) % 0x1_0000_0000;
    }
  }

  // ----- any number of threads

  /** The word, and which threads are inside. */
  datatype State = State(word: Word, readers: set<Thread>, writers: set<Thread>)

  /** A round of lock_r or lock_w, or an unlock, by a thread; the inner mutex makes each one step. */
  datatype Step = Read(t: Thread) | Write(t: Thread) | Unlock(t: Thread)

  predicate Can(s: State, step: Step)
  {
    if step.Unlock? then step.t in s.readers + s.writers else step.t !in s.readers + s.writers
  }

  function Next(s: State, wins: bool, step: Step): State
  {
    match step
    case Read(t) =>
      var (ok, word) := ReadAttempt(s.word, wins);
      State(word, if ok then s.readers + {t} else s.readers, s.writers)
    case Write(t) =>
      var (ok, word) := WriteAttempt(s.word, wins);
      State(word, s.readers, if ok then s.writers + {t} else s.writers)
    case Unlock(t) =>
      State(Release(s.word, wins), s.readers - {t}, s.writers - {t})
  }

  ghost predicate Run(ss: seq<State>, steps: seq<Step>, wins: bool)
  {
    && |ss| == |steps| + 1 && ss[0] == State(0, {}, {})
    && forall i :: 0 <= i < |steps| ==> Can(ss[i], steps[i]) && ss[i + 1] == Next(ss[i], wins, steps[i])
  }

  /** One writer and no reader, or no writer. */
  ghost predicate Exclusive(s: State)
  {
    s.writers == {} || (|s.writers| == 1 && s.readers == {})
  }

  /** The word, put together. */
  function Make(used: bool, stop: bool, n: nat): Word
    requires n < STOP
  {
    n + (if used then USING else 0) + (if stop then STOP else 0)
  }

  lemma Parts(used: bool, stop: bool, n: nat)
    requires n < STOP
    ensures Used(Make(used, stop, n)) == used && Stopped(Make(used, stop, n)) == stop
    ensures Count(Make(used, stop, n)) == n
  {
  }

  lemma ReadParts(used: bool, stop: bool, n: nat, wins: bool)
    requires n < STOP
    ensures ReadAttempt(Make(used, stop, n), wins).0 <==> !used && !(wins && stop)
    ensures !used && !(wins && stop) && n + 1 < STOP ==>
      ReadAttempt(Make(used, stop, n), wins).1 == Make(used, stop, n + 1)
    ensures used || (wins && stop) ==> ReadAttempt(Make(used, stop, n), wins).1 == Make(used, stop, n)
  {
    Parts(used, stop, n);
  }

  lemma WriteParts(used: bool, stop: bool, n: nat, wins: bool)
    requires n < STOP
    ensures WriteAttempt(Make(used, stop, n), wins) ==
      (!used && n == 0, Make(used || n == 0, stop || wins, n))
  {
    Parts(used, stop, n);
  }

  lemma ReleaseParts(stop: bool, n: nat, wins: bool)
    requires n < STOP
    ensures Release(Make(true, wins, n), wins) == Make(false, false, 0)
    ensures 0 < n ==> Release(Make(false, stop, n), wins) == Make(false, stop, n - 1)
  {
    Parts(true, wins, n);
    Parts(false, stop, n);
  }

  /** What the word says of the threads inside, as long as the readers fit into their bits. */
  ghost predicate Inv(s: State, wins: bool)
  {
    if s.writers == {} then
      |s.readers| < STOP && (Stopped(s.word) ==> wins) && s.word == Make(false, Stopped(s.word), |s.readers|)
    else
      Exclusive(s) && s.word == Make(true, wins, 0)
  }

  lemma Keeps(s: State, wins: bool, step: Step)
    requires Inv(s, wins) && Can(s, step) && |Next(s, wins, step).readers| < STOP
    ensures Inv(Next(s, wins, step), wins)
  {
    hide Make, Used, Stopped, Count, ReadAttempt, WriteAttempt, Release;
    var t, stop, n := step.t, s.writers == {} && Stopped(s.word), |s.readers|;
    if s.writers != {} {
      Parts(true, wins, 0);
    }
    Parts(false, false, 0);
    match step {
      case Read(_) =>
        ReadParts(s.writers != {}, Stopped(s.word), n, wins);
        MoreReaders(s.readers, t, stop);
      case Write(_) =>
        WriteParts(s.writers != {}, Stopped(s.word), n, wins);
        assert |{t}| == 1 && {} + {t} == {t};
        Parts(false, stop || wins, n);
      case Unlock(_) =>
        if s.writers != {} {
          Single(s.writers, t);
          ReleaseParts(false, 0, wins);
        } else {
          ReleaseParts(stop, n, wins);
          assert |s.readers - {t}| == n - 1;
          Parts(false, stop, n - 1);
        }
    }
  }

  lemma MoreReaders(readers: set<Thread>, t: Thread, stop: bool)
    requires t !in readers
    ensures |readers + {t}| == |readers| + 1
    ensures |readers| + 1 < STOP ==> Stopped(Make(false, stop, |readers| + 1)) == stop
  {
    if |readers| + 1 < STOP {
      Parts(false, stop, |readers| + 1);
    }
  }

  lemma Single(ts: set<Thread>, t: Thread)
    requires |ts| == 1 && t in ts
    ensures ts == {t}
  {
    assert |ts - {t}| == 0;
  }

  ghost predicate Few(ss: seq<State>, limit: nat)
  {
    forall i :: 0 <= i < |ss| ==> |ss[i].readers| <= limit
  }

  lemma {:induction false} RunKeeps(ss: seq<State>, steps: seq<Step>, wins: bool, i: nat)
    requires Run(ss, steps, wins) && Few(ss, STOP - 1) && i < |ss|
    ensures Inv(ss[i], wins)
  {
    hide Inv, Can, Next;
    if i == 0 {
      EmptyInv(wins);
    } else {
      RunKeeps(ss, steps, wins, i - 1);
      assert ss[i - 1 + 1] == ss[i] && |ss[i].readers| < STOP;
      Keeps(ss[i - 1], wins, steps[i - 1]);
    }
  }

  lemma EmptyInv(wins: bool)
    ensures Inv(State(0, {}, {}), wins)
  {
  }

  lemma InvExcludes(s: State, wins: bool)
    requires Inv(s, wins)
    ensures Exclusive(s)
  {
  }

  // ----- when the lock excludes

  ghost predicate Excludes(wins: bool, limit: nat)
  {
    forall ss, steps, i {:trigger Run(ss, steps, wins), Exclusive(ss[i])} ::
      Run(ss, steps, wins) && Few(ss, limit) && 0 <= i < |ss| ==> Exclusive(ss[i])
  }

  /** The lock keeps a writer and everybody else apart in every run if and only if no more than
      2^30 - 1 readers come in: one more makes the count look like the stop bit. */
  lemma ExcludesExactly(wins: bool, limit: nat)
    ensures Excludes(wins, limit) <==> limit < STOP
  {
    if limit < STOP {
      forall ss, steps, i | Run(ss, steps, wins) && Few(ss, limit) && 0 <= i < |ss|
        ensures Exclusive(ss[i])
      {
        RunKeeps(ss, steps, wins, i);
        InvExcludes(ss[i], wins);
      }
    } else {
      LetsIn(wins, limit);
    }
  }

  lemma LetsIn(wins: bool, limit: nat)
    requires STOP <= limit
    ensures !Excludes(wins, limit)
  {
    hide Run, Few, Exclusive, Can, Next, Upto;
    var ss, steps := Crowd(STOP, wins);
    TooMany(wins);
    FewMore(ss, STOP, limit);
    var s := Next(ss[STOP], wins, Write(STOP));
    RunOn(ss, steps, wins, Write(STOP), limit);
    Sizes(ss, steps, wins);
    assert (ss + [s])[STOP + 1] == s;
    Broken(ss + [s], steps + [Write(STOP)], wins, limit, STOP + 1);
  }

  lemma Broken(ss: seq<State>, steps: seq<Step>, wins: bool, limit: nat, i: nat)
    requires Run(ss, steps, wins) && Few(ss, limit) && i < |ss| && !Exclusive(ss[i])
    ensures !Excludes(wins, limit)
  {
  }

  lemma FewMore(ss: seq<State>, n: nat, limit: nat)
    requires Few(ss, n) && n <= limit
    ensures Few(ss, limit)
  {
  }

  lemma Sizes(ss: seq<State>, steps: seq<Step>, wins: bool)
    requires Run(ss, steps, wins)
    ensures |ss| == |steps| + 1
  {
  }

  lemma RunOn(ss: seq<State>, steps: seq<Step>, wins: bool, step: Step, limit: nat)
    requires Run(ss, steps, wins) && Few(ss, limit) && Can(ss[|steps|], step)
    requires |Next(ss[|steps|], wins, step).readers| <= limit
    ensures Run(ss + [Next(ss[|steps|], wins, step)], steps + [step], wins)
    ensures Few(ss + [Next(ss[|steps|], wins, step)], limit)
  {
    hide Can, Next;
  }

  /** With 2^30 readers inside, a writer is let in. */
  lemma TooMany(wins: bool)
    ensures var s := State(STOP, Upto(STOP), {});
            Can(s, Write(STOP)) && Next(s, wins, Write(STOP)).readers == Upto(STOP)
            && !Exclusive(Next(s, wins, Write(STOP)))
  {
    hide Upto;
    assert Upto(STOP) != {} by {
      assert 0 in Upto(STOP);
    }
    var s := State(STOP, Upto(STOP), {});
    assert WriteAttempt(STOP, wins).0;
    assert STOP in Next(s, wins, Write(STOP)).writers;
  }

  function Upto(n: nat): (ts: set<Thread>)
    ensures |ts| == n && forall t: Thread :: t in ts <==> t < n
  {
    if n == 0 then {} else Upto(n - 1) + {n - 1}
  }

  /** n readers come in. */
  lemma {:induction false} Crowd(n: nat, wins: bool) returns (ss: seq<State>, steps: seq<Step>)
    requires n <= STOP
    ensures Run(ss, steps, wins) && Few(ss, n) && |steps| == n && ss[n] == State(n, Upto(n), {})
  {
    if n == 0 {
      ss, steps := [State(0, {}, {})], [];
    } else {
      ss, steps := Crowd(n - 1, wins);
      OneMore(n - 1, wins);
      RunOn(ss, steps, wins, Read(n - 1), n) by {
        assert Few(ss, n);
      }
      ss, steps := ss + [Next(ss[n - 1], wins, Read(n - 1))], steps + [Read(n - 1)];
    }
  }

  lemma OneMore(n: nat, wins: bool)
    requires n < STOP
    ensures Can(State(n, Upto(n), {}), Read(n))
    ensures Next(State(n, Upto(n), {}), wins, Read(n)) == State(n + 1, Upto(n + 1), {})
  {
    assert ReadAttempt(n, wins) == (true, n + 1);
  }

  // ----- writers win

  /** A writer that asks is let in, or stops readers. */
  lemma AskingStops(s: State, t: Thread)
    requires Inv(s, true) && Can(s, Write(t))
    ensures t in Next(s, true, Write(t)).writers || Stopped(Next(s, true, Write(t)).word)
  {
    hide Make, Used, Stopped, Count, WriteAttempt;
    var used, n := s.writers != {}, |s.readers|;
    Parts(true, true, 0);
    WriteParts(used, Stopped(s.word), n, true);
    Parts(used || n == 0, true, n);
  }

  /** While readers are stopped none comes in until a writer has been inside. */
  lemma {:induction false} NoneComesIn(ss: seq<State>, steps: seq<Step>, i: nat, j: nat)
    requires Run(ss, steps, true) && Few(ss, STOP - 1) && i <= j < |ss|
    requires Stopped(ss[i].word) && forall k :: i <= k <= j ==> ss[k].writers == {}
    ensures ss[j].readers <= ss[i].readers && Stopped(ss[j].word)
    decreases j
  {
    if i < j {
      NoneComesIn(ss, steps, i, j - 1);
      RunKeeps(ss, steps, true, j - 1);
      StaysStopped(ss[j - 1], steps[j - 1]);
    }
  }

  /** After a writer has asked in vain, at step i, no reader comes in until some writer has been
      inside. */
  lemma NoReaderOvertakes(ss: seq<State>, steps: seq<Step>, i: nat, t: Thread, j: nat)
    requires Run(ss, steps, true) && Few(ss, STOP - 1) && i < j < |ss|
    requires steps[i] == Write(t) && t !in ss[i + 1].writers
    requires forall k :: i < k <= j ==> ss[k].writers == {}
    ensures ss[j].readers <= ss[i].readers
  {
    RunKeeps(ss, steps, true, i);
    AskingStops(ss[i], t);
    NoneComesIn(ss, steps, i + 1, j);
  }

  lemma StaysStopped(s: State, step: Step)
    requires Inv(s, true) && Can(s, step) && s.writers == {} && Stopped(s.word)
    ensures var s' := Next(s, true, step); s'.writers == {} ==> s'.readers <= s.readers && Stopped(s'.word)
  {
    hide Make, Used, Stopped, Count, ReadAttempt, WriteAttempt, Release;
    var n := |s.readers|;
    Parts(false, true, n);
    match step {
      case Read(_) =>
        ReadParts(false, true, n, true);
      case Write(_) =>
        WriteParts(false, true, n, true);
      case Unlock(t) =>
        assert |s.readers - {t}| == n - 1;
        ReleaseParts(true, n, true);
        Parts(false, true, n - 1);
    }
  }

  /** Before step i a writer has asked, and none has left since. */
  ghost predicate Asked(ss: seq<State>, steps: seq<Step>, i: nat)
    requires i <= |steps| < |ss|
  {
    exists j :: 0 <= j < i && steps[j].Write? && NoneLeft(ss, steps, j, i)
  }

  ghost predicate NoneLeft(ss: seq<State>, steps: seq<Step>, j: nat, i: nat)
    requires i <= |steps| < |ss|
  {
    forall k :: j < k < i ==> !(steps[k].Unlock? && steps[k].t in ss[k].writers)
  }

  lemma StopNext(s: State, wins: bool, step: Step)
    requires Inv(s, wins) && Can(s, step) && |Next(s, wins, step).readers| < STOP
    ensures Stopped(Next(s, wins, step).word) <==>
      if step.Write? then Stopped(s.word) || wins else Stopped(s.word) && !(step.Unlock? && step.t in s.writers)
  {
    hide Make, Used, Stopped, Count, ReadAttempt, WriteAttempt, Release;
    var stop, n := s.writers == {} && Stopped(s.word), |s.readers|;
    if s.writers != {} {
      Parts(true, wins, 0);
    }
    Parts(false, false, 0);
    match step {
      case Read(t) =>
        ReadParts(s.writers != {}, Stopped(s.word), n, wins);
        MoreReaders(s.readers, t, stop);
      case Write(_) =>
        WriteParts(s.writers != {}, Stopped(s.word), n, wins);
        Parts(s.writers != {} || n == 0, Stopped(s.word) || wins, n);
      case Unlock(t) =>
        if s.writers != {} {
          Single(s.writers, t);
          ReleaseParts(false, 0, wins);
        } else {
          ReleaseParts(stop, n, wins);
          assert |s.readers - {t}| == n - 1;
          Parts(false, stop, n - 1);
        }
    }
  }

  /** What the stop bit says: writers win, and one has asked since the last one left. */
  lemma {:induction false} StoppedIs(ss: seq<State>, steps: seq<Step>, wins: bool, i: nat)
    requires Run(ss, steps, wins) && Few(ss, STOP - 1) && i < |ss|
    ensures Stopped(ss[i].word) <==> wins && Asked(ss, steps, i)
  {
    hide Inv, Can, Next, Stopped;
    if i == 0 {
      NotStopped();
    } else {
      var k := i - 1;
      StoppedIs(ss, steps, wins, k);
      RunKeeps(ss, steps, wins, k);
      assert ss[k + 1] == Next(ss[k], wins, steps[k]) && |ss[i].readers| < STOP;
      StopNext(ss[k], wins, steps[k]);
      AskedNext(ss, steps, k);
    }
  }

  lemma NotStopped()
    ensures !Stopped(0)
  {
  }

  lemma AskedNext(ss: seq<State>, steps: seq<Step>, k: nat)
    requires k < |steps| < |ss|
    ensures Asked(ss, steps, k + 1) <==>
      steps[k].Write? || (Asked(ss, steps, k) && !(steps[k].Unlock? && steps[k].t in ss[k].writers))
  {
    if steps[k].Write? {
      assert NoneLeft(ss, steps, k, k + 1);
    } else {
      forall j | 0 <= j < k && steps[j].Write?
        ensures NoneLeft(ss, steps, j, k + 1) <==>
          NoneLeft(ss, steps, j, k) && !(steps[k].Unlock? && steps[k].t in ss[k].writers)
      {
      }
    }
  }

  /** A reader comes in exactly if no writer is inside and, where writers win, none has asked since the
      last one left. */
  lemma ReaderComesIn(ss: seq<State>, steps: seq<Step>, wins: bool, i: nat, t: Thread)
    requires Run(ss, steps, wins) && Few(ss, STOP - 1) && i < |ss| && Can(ss[i], Read(t))
    ensures t in Next(ss[i], wins, Read(t)).readers <==> ss[i].writers == {} && !(wins && Asked(ss, steps, i))
  {
    hide Make, Used, Stopped, Count, ReadAttempt, Run, Asked;
    RunKeeps(ss, steps, wins, i);
    StoppedIs(ss, steps, wins, i);
    var s := ss[i];
    Parts(true, wins, 0);
    ReadParts(s.writers != {}, Stopped(s.word), |s.readers|, wins);
  }

  /** A writer comes in exactly if nobody is inside. */
  lemma WriterComesIn(ss: seq<State>, steps: seq<Step>, wins: bool, i: nat, t: Thread)
    requires Run(ss, steps, wins) && Few(ss, STOP - 1) && i < |ss| && Can(ss[i], Write(t))
    ensures t in Next(ss[i], wins, Write(t)).writers <==> ss[i].readers == {} && ss[i].writers == {}
  {
    hide Make, Used, Stopped, Count, WriteAttempt, Run;
    RunKeeps(ss, steps, wins, i);
    var s := ss[i];
    WriteParts(s.writers != {}, Stopped(s.word), |s.readers|, wins);
    Parts(true, wins, 0);
    assert |s.readers| == 0 ==> s.readers == {};
  }
}
