/** infcodes.c: decoding literals and length/distance pairs resumably. */
module InflateCodes {
  import opened Bits
  import opened Canonical
  import opened HuftTable
  import opened InfTrees
  import opened InflateTrees
  import opened Zlib
  import opened BitInput
  import opened InflateWindow
  import opened InflateSpec
  import opened CodeSteps
  import InflateFast

  datatype CodesPhase = START | LEN | LENEXT | DIST | DISTEXT | COPY | LIT | WASH | END | BADCODE

  /** The code passed in, possibly after progress, or a verdict. */
  predicate CodeFrom(r: Status, r': Status)
  {
    r' == r || r' == OK || r' == STREAM_END || r' == DATA_ERROR
  }

  /** In which order the phases follow each other while no input is used. */
  function Rank(mode: CodesPhase): nat
  {
    match mode
    case LENEXT => 9
    case DIST => 8
    case DISTEXT => 7
    case COPY => 6
    case LIT => 5
    case START => 4
    case LEN => 3
    case WASH => 2
    case END => 1
    case BADCODE => 0
  }

  /** inflate_codes_state with the input and output it works on. */
  class CodesState {
    const inp: Input
    const win: Window
    const hp: seq<Huft>  // the tables
    const lbits: nat     // width of the first of them
    const dbits: nat
    const ltree: nat
    const dtree: nat
    var mode: CodesPhase
    var len: nat
    var tree: nat        // where the walk is in them
    var need: nat        // how many bits its next entry takes
    var lit: nat
    var get: nat         // how many extra bits come next
    var dist: nat        // how far back the string is
    ghost const lens: seq<nat>   // the code lengths that the tables are made for
    ghost const dists: seq<nat>
    ghost const last: bool
    ghost const start: nat
    ghost var n: nat             // steps of the run taken
    ghost var dropped: nat       // bits of a code used before the current table
    ghost var fuel: nat

    /** inflate_codes_new */
    constructor (bl: nat, bd: nat, tl: nat, td: nat, hp: seq<Huft>, inp: Input, win: Window,
                 ghost lens: seq<nat>, ghost dists: seq<nat>, ghost last: bool, ghost start: nat, ghost n: nat)
      requires inp.Valid() && win.Valid() && inp.k <= 15 && TablesOk(hp, tl, bl, td, bd, lens, dists)
      requires Reached(inp, win, start, n, Mode.Codes(lens, dists, Start), last, 0)
      ensures Valid() && this.inp == inp && this.win == win && this.lens == lens && this.dists == dists
      ensures this.last == last && this.start == start && this.n == n && mode == START
    {
      mode := START;
      lbits, dbits, ltree, dtree := bl, bd, tl, td;
      len, tree, need, lit, get, dist := 0, 0, 0, 0, 0, 0;
      this.hp, this.inp, this.win, this.lens, this.dists, this.last, this.start := hp, inp, win, lens, dists, last,
        start;
      this.n, dropped, fuel := n, 0, 0;
    }

    /** The step of the decoding process that the state stands for. */
    ghost function Sub(): Mode
      reads this
    {
      match mode
      case START => Mode.Codes(lens, dists, Start)
      case LEN => Mode.Codes(lens, dists, Start)
      case LENEXT => Mode.Codes(lens, dists, LenExt(len, get))
      case DIST => Mode.Codes(lens, dists, Dist(len))
      case DISTEXT => Mode.Codes(lens, dists, DistExt(len, dist, get))
      case COPY => Mode.Codes(lens, dists, Copy(len, dist))
      case LIT => Mode.Codes(lens, dists, Lit(lit))
      case WASH => Mode.Codes(lens, dists, EndOfBlock)
      case END => Mode.Codes(lens, dists, EndOfBlock)
      case BADCODE => Bad
    }

    ghost function Job(): Job
    {
      JobOf(inp, win, start)
    }

    /** Where the run stands. */
    ghost function Now(): State
      reads this, inp, win
    {
      StateOf(inp, win, Sub(), last, dropped)
    }

    /** Where the code being decoded starts. */
    ghost function CodeAt(): nat
      reads this, inp
    {
      if dropped <= inp.Pos() then inp.Pos() - dropped else 0
    }

    ghost predicate PhaseOk()
      reads this, inp
    {
      match mode
      case LEN => OnTree(hp, ltree, lbits, tree, need, From(inp.I, CodeAt()), dropped, fuel)
      case LENEXT => dropped == 0 && dbits > 0 && get <= 5
      case DIST => dbits > 0 && OnTree(hp, dtree, dbits, tree, need, From(inp.I, CodeAt()), dropped, fuel)
      case DISTEXT => dropped == 0 && get <= 13 && 1 <= dist
      case COPY => dropped == 0 && 1 <= dist
      case LIT => dropped == 0 && lit < 256
      case WASH => dropped == 0
      case END => dropped == 0 && inp.k <= 7
      case START => dropped == 0
      case BADCODE => true
    }

    ghost predicate Valid()
      reads this, inp, win, win.window
    {
      && inp.Valid() && win.Valid() && inp.k <= 15 && dropped <= inp.Pos()
      && TablesOk(hp, ltree, lbits, dtree, dbits, lens, dists)
      && After(Job(), n, Now()) && PhaseOk()
    }

    /** START: use the fast loop if possible, and set up for LEN. */
    method DoStart()
      requires Valid() && mode == START
      modifies this, inp`p, inp`b, inp`k, inp`stale, win`write, win`produced, win.window
      ensures Valid() && inp.p >= old(inp.p) && n >= old(n)
      ensures mode == LEN || mode == WASH || mode == BADCODE
      ensures inp.Pos() >= old(inp.Pos())
    {
      hide After, TablesOk, OnTree, From, PhaseOk, Valid, Window.Valid, Input.Valid;
      InRange();
      if win.Avail() >= 258 && inp.AvailIn() >= 10 {
        var over := Fast();
        if over {
          return;
        }
      }
      ValidIs();
      PhaseIs();
      need, tree, mode := lbits, ltree, LEN;
      dropped, fuel := 0, BMAX;
      RootReady(hp, ltree, lbits, dtree, dbits, lens, dists, From(inp.I, inp.Pos()));
      PhaseIs();
      ValidIs();
    }

    /** The fast loop; it may reach the end of the block or an invalid code. */
    method Fast() returns (over: bool)
      requires Valid() && mode == START && win.Avail() >= 258 && inp.AvailIn() >= 10
      modifies this`mode, this`dropped, this`n, inp`p, inp`b, inp`k, inp`stale, win`write, win`produced, win.window
      ensures Valid() && inp.p >= old(inp.p) && n >= old(n) && inp.Pos() >= old(inp.Pos())
      ensures if over then mode == WASH || mode == BADCODE else mode == START
    {
      hide After, TablesOk, OnTree, From, Valid, PhaseOk, Window.Valid, Input.Valid;
      ValidIs();
      PhaseIs();
      var r, n', mode', back := InflateFast.InflateFast(lbits, dbits, ltree, dtree, hp, inp, win, start, n, Sub(),
        last);
      n, over := n', r != OK;
      if over {
        mode, dropped := if r == STREAM_END then WASH else BADCODE, back;
      }
      PhaseIs();
      ValidIs();
    }

    lemma InRange()
      requires Valid()
      ensures inp.p <= |inp.input| && win.read <= win.window.Length && win.write <= win.window.Length
    {
      hide After, TablesOk, PhaseOk;
    }

    lemma ValidIs()
      ensures Valid() <==> Sound() && dropped <= inp.Pos() && After(Job(), n, Now()) && PhaseOk()
    {
      hide After, TablesOk, PhaseOk, Window.Valid, Input.Valid;
    }

    lemma PhaseIs()
      ensures mode == LEN && OnTree(hp, ltree, lbits, tree, need, From(inp.I, CodeAt()), dropped, fuel) ==> PhaseOk()
      ensures mode == START ==> (PhaseOk() <==> dropped == 0)
      ensures mode == WASH ==> (PhaseOk() <==> dropped == 0)
      ensures mode == BADCODE ==> PhaseOk()
    {
      hide OnTree, From;
    }

    /** What all phases keep. */
    ghost predicate Sound()
      reads inp, win, win.window
    {
      inp.Valid() && win.Valid() && inp.k <= 15 && TablesOk(hp, ltree, lbits, dtree, dbits, lens, dists)
    }

    /** Look up the next entry of the table that the walk is at, and drop its bits. */
    method Fetch(root: nat, bits: nat, ghost B: nat, r: Status) returns (ok: bool, r': Status, i: nat)
      requires inp.Valid() && inp.k <= 15 && bits <= 9 && OnTree(hp, root, bits, tree, need, B, dropped, fuel)
      requires inp.Rest() == Shr(B, dropped)
      modifies inp`p, inp`b, inp`k, inp`stale
      ensures inp.Valid() && inp.p >= old(inp.p) && inp.k <= 15
      ensures !ok ==> inp.Pos() == old(inp.Pos()) && inp.Lacks(9)
      ensures ok ==> i == tree + Low(Shr(B,
        dropped), need) < |hp| && inp.Pos() == old(inp.Pos()) + hp[i].bits && 1 <= hp[i].bits
      ensures r' == if inp.p > old(inp.p) then OK else r
    {
      hide OnTree, From, Low, Shr;
      i := 0;
      Lookup(hp, root, bits, tree, need, B, dropped, fuel);
      ok, r' := inp.NeedBits(need, r);
      if ok {
        i := tree + inp.Peek(need);
        inp.DumpBits(hp[i].bits);
      }
    }

    /** Act on the entry found for a literal/length code. */
    method EnterLit(i: nat, ghost a: State) returns (bad: bool)
      requires Sound() && mode == LEN && i < |hp| && 1 <= hp[i].bits
      requires a == State(a.pos, Mode.Codes(lens, dists, Start), last, win.produced)
      requires a.pos + dropped + hp[i].bits == inp.Pos()
      requires After(Job(), n, a)
      requires if IsLink(hp[i]) then fuel > 0 &&
        OnTree(hp, ltree, lbits, i + hp[i].base, hp[i].exop, From(inp.I, a.pos), dropped + hp[i].bits, fuel - 1)
               else LitNext(Job(), n, a, Found(dropped + hp[i].bits, hp[i]))
      modifies this
      ensures Valid() && n >= old(n) && (bad ==> mode == BADCODE) && mode != END
    {
      hide After, OnTree, From, Low, StreamOf, Valid, Window.Valid, Input.Valid;
      var t := hp[i];
      var e := t.exop;
      dropped := dropped + t.bits;
      bad := false;
      if e == 0 {  // literal
        lit, mode, n, dropped := t.base, LIT, n + 1, 0;
      } else if Has16(e) {  // length
        get, len, mode, n, dropped := e % 16, t.base, LENEXT, n + 1, 0;
      } else {
        bad := EnterOther(i, a);
      }
      ValidIs();
    }

    /** Neither literal nor length: the next table, the end of the block, or an invalid code. */
    method EnterOther(i: nat, ghost a: State) returns (bad: bool)
      requires Sound() && mode == LEN && i < |hp| && hp[i].exop != 0 && !Has16(hp[i].exop)
      requires a == State(a.pos, Mode.Codes(lens, dists, Start), last, win.produced)
      requires a.pos + dropped == inp.Pos()
      requires After(Job(), n, a)
      requires if IsLink(hp[i]) then fuel > 0 &&
        OnTree(hp, ltree, lbits, i + hp[i].base, hp[i].exop, From(inp.I, a.pos), dropped, fuel - 1)
               else LitNext(Job(), n, a, Found(dropped, hp[i]))
      modifies this
      ensures Valid() && n >= old(n) && (bad ==> mode == BADCODE) && mode != END
    {
      hide After, OnTree, From, Low, StreamOf, Valid, Window.Valid, Input.Valid;
      var t := hp[i];
      var e := t.exop;
      bad := false;
      if !Has64(e) {  // next table
        need, tree, fuel := e, i + t.base, fuel - 1;
      } else if Has32(e) {  // end of block
        mode, n, dropped := WASH, n + 1, 0;
      } else {  // invalid code
        mode, n, bad := BADCODE, n + 1, true;
      }
      ValidIs();
    }

    /** LEN: look at the next entry for a literal, length or end of block. */
    method DoLen(r: Status) returns (leave: bool, r': Status)
      requires Valid() && mode == LEN
      modifies this, inp`p, inp`b, inp`k, inp`stale
      ensures Valid() && inp.p >= old(inp.p) && n >= old(n)
      ensures inp.Pos() >= old(inp.Pos()) && mode != END
      ensures leave ==> if mode == BADCODE then r' == DATA_ERROR
        else mode == LEN && inp.Lacks(9) && (r' == r || r' == OK)
      ensures !leave ==> inp.Pos() > old(inp.Pos()) && (r' == r || r' == OK)
    {
      hide After, OnTree, Last, Rotated, Between, CheckOf, From, Low, LitNext, Shr, Decodes, IsLink;
      var ok, i;
      ghost var a := Now();
      FromFrom(inp.I, a.pos, dropped);
      ok, r', i := Fetch(ltree, lbits, From(inp.I, a.pos), r);
      if !ok {
        return true, r';
      }
      LitLookup(Job(), n, a, hp, ltree, lbits, tree, need, dropped, fuel);
      leave := EnterLit(i, a);
      if leave {
        r' := DATA_ERROR;
      }
    }

    /** LENEXT: get the extra bits of a length, and set up for DIST. */
    method DoLenExt(r: Status) returns (leave: bool, r': Status)
      requires Valid() && mode == LENEXT
      modifies this, inp`p, inp`b, inp`k, inp`stale
      ensures Valid() && inp.p >= old(inp.p) && n >= old(n) && inp.Pos() >= old(inp.Pos()) && (r' == r || r' == OK)
      ensures if leave then mode == LENEXT && inp.Lacks(8) else mode == DIST
    {
      hide After, OnTree, From, Low, Shr, Decodes, TablesOk, Window.Valid, Valid;
      ValidIs();
      var ok;
      ok, r' := inp.NeedBits(get, r);
      if !ok {
        ValidIs();
        return true, r';
      }
      LenExtStep(Job(), n, Now());
      len := len + inp.Peek(get);
      inp.DumpBits(get);
      n := n + 1;
      SetUpDist();
      ValidIs();
      leave := false;
    }

    method SetUpDist()
      requires Sound() && dropped == 0 && dbits > 0
      requires After(Job(), n, StateOf(inp, win, Mode.Codes(lens, dists, Dist(len)), last, 0))
      modifies this`need, this`tree, this`mode, this`fuel
      ensures Valid() && mode == DIST
    {
      hide After, OnTree, Last, Rotated, Between, CheckOf, From, Decodes;
      need, tree, mode := dbits, dtree, DIST;
      fuel := BMAX;
      RootReady(hp, ltree, lbits, dtree, dbits, lens, dists, From(inp.I, inp.Pos()));
    }

    /** Act on the entry found for a distance code. */
    method EnterDist(i: nat, ghost a: State) returns (bad: bool)
      requires Sound() && mode == DIST && i < |hp| && 1 <= hp[i].bits && dbits > 0
      requires a == State(a.pos, Mode.Codes(lens, dists, Dist(len)), last, win.produced)
      requires a.pos + dropped + hp[i].bits == inp.Pos()
      requires After(Job(), n, a)
      requires if IsLink(hp[i]) then fuel > 0 &&
        OnTree(hp, dtree, dbits, i + hp[i].base, hp[i].exop, From(inp.I, a.pos), dropped + hp[i].bits, fuel - 1)
               else DistNext(Job(), n, a, Found(dropped + hp[i].bits, hp[i]))
      modifies this
      ensures Valid() && n >= old(n) && (bad ==> mode == BADCODE) && mode != END
    {
      hide After, OnTree, Last, Rotated, Between, CheckOf, From, Low, StreamOf;
      var t := hp[i];
      var e := t.exop;
      dropped := dropped + t.bits;
      bad := false;
      if Has16(e) {  // distance
        get, dist, mode, n, dropped := e % 16, t.base, DISTEXT, n + 1, 0;
      } else if !Has64(e) {  // next table
        need, tree, fuel := e, i + t.base, fuel - 1;
      } else {  // invalid code
        mode, n, bad := BADCODE, n + 1, true;
      }
    }

    /** DIST: look at the next entry for a distance. */
    method DoDist(r: Status) returns (leave: bool, r': Status)
      requires Valid() && mode == DIST
      modifies this, inp`p, inp`b, inp`k, inp`stale
      ensures Valid() && inp.p >= old(inp.p) && n >= old(n)
      ensures inp.Pos() >= old(inp.Pos()) && mode != END
      ensures leave ==> if mode == BADCODE then r' == DATA_ERROR
        else mode == DIST && inp.Lacks(9) && (r' == r || r' == OK)
      ensures !leave ==> inp.Pos() > old(inp.Pos()) && (r' == r || r' == OK)
    {
      hide After, OnTree, Last, Rotated, Between, CheckOf, From, Low, DistNext, Shr, Decodes, IsLink;
      var ok, i;
      ghost var a := Now();
      FromFrom(inp.I, a.pos, dropped);
      ok, r', i := Fetch(dtree, dbits, From(inp.I, a.pos), r);
      if !ok {
        return true, r';
      }
      DistLookup(Job(), n, a, hp, dtree, dbits, tree, need, dropped, fuel);
      leave := EnterDist(i, a);
      if leave {
        r' := DATA_ERROR;
      }
    }

    /** DISTEXT: get the extra bits of a distance. */
    method DoDistExt(r: Status) returns (leave: bool, r': Status)
      requires Valid() && mode == DISTEXT
      modifies this, inp`p, inp`b, inp`k, inp`stale
      ensures Valid() && inp.p >= old(inp.p) && n >= old(n) && inp.Pos() >= old(inp.Pos()) && (r' == r || r' == OK)
      ensures if leave then mode == DISTEXT && inp.Lacks(get) else mode == COPY
    {
      hide After, OnTree, From, Low, Shr, Decodes, TablesOk, Window.Valid, Valid;
      ValidIs();
      var ok;
      ok, r' := inp.NeedBits(get, r);
      if !ok {
        ValidIs();
        return true, r';
      }
      DistExtStep(Job(), n, Now());
      dist := dist + inp.Peek(get);
      inp.DumpBits(get);
      mode, n := COPY, n + 1;
      ValidIs();
      leave := false;
    }

    /** Copy one byte from window index f if there is room. */
    method CopyOne(f: nat, r: Status) returns (ok: bool, r': Status)
      requires Valid() && mode == COPY && len > 0 && f == Source(win.window.Length, win.write, dist)
      modifies this`len, this`n, win`read, win`write, win`availOut, win`out, win`check, win`produced, win.window
      ensures Valid() && n >= old(n) && old(win.out) <= win.out && (r' == r || r' == OK)
      ensures if ok then len == old(len) - 1 else len == old(len) && win.availOut == 0
      ensures ok ==> (if f + 1 == win.window.Length then 0 else f + 1) == Source(win.window.Length, win.write, dist)
    {
      hide After, OnTree, Last, Rotated, Between, CheckOf, From, Low, Shr, TablesOk, Source;
      SourceMoves(win.window.Length, win.write, dist);
      ok, r' := win.NeedOut(r);
      if ok {
        SourceMoves(win.window.Length, win.write, dist);
        ghost var mode' := CopyByte(inp, win, f, start, n, Sub(), last);
        len, n := len - 1, n + 1;
      }
    }

    /** COPY: repeat len bytes as far as there is room. */
    method DoCopy(r: Status) returns (leave: bool, r': Status)
      requires Valid() && mode == COPY
      modifies this`len, this`n, this`mode, win`read, win`write, win`availOut, win`out, win`check, win`produced,
               win.window
      ensures Valid() && n >= old(n) && old(win.out) <= win.out && (r' == r || r' == OK)
      ensures if leave then mode == COPY && win.availOut == 0 else mode == START
    {
      hide After, OnTree, Last, Rotated, Between, CheckOf, From, Low, Shr, TablesOk, Source;
      r' := r;
      var f := FindSource(win.window.Length, win.write, dist);
      while len > 0
        invariant Valid() && mode == COPY && n >= old(n) && old(win.out) <= win.out && (r' == r || r' == OK)
        invariant f == Source(win.window.Length, win.write, dist)
        decreases len
      {
        var ok;
        ok, r' := CopyOne(f, r');
        if !ok {
          return true, r';
        }
        f := f + 1;
        if f == win.window.Length {
          f := 0;
        }
      }
      CopyStep(Job(), n, Now());
      mode, n := START, n + 1;
      leave := false;
    }

    /** LIT: write a literal. */
    method DoLit(r: Status) returns (leave: bool, r': Status)
      requires Valid() && mode == LIT
      modifies this, win`read, win`write, win`availOut, win`out, win`check, win`produced, win.window
      ensures Valid() && n >= old(n) && old(win.out) <= win.out && (r' == r || r' == OK)
      ensures if leave then mode == LIT && win.availOut == 0 else mode == START
    {
      hide After, OnTree, Last, Rotated, Between, CheckOf, From, Low, Shr, TablesOk;
      var ok;
      ok, r' := win.NeedOut(r);
      if !ok {
        return true, r';
      }
      LiteralStep(Job(), n, Now());
      win.OutByte(lit);
      mode, n := START, n + 1;
      leave := false;
    }

    /** WASH: return an unused byte, deliver all output. */
    method DoWash(r: Status) returns (leave: bool, r': Status)
      requires Valid() && mode == WASH
      modifies this, inp`p, inp`k, inp`stale, win`read, win`write, win`availOut, win`out, win`check
      ensures Valid() && n >= old(n) && old(win.out) <= win.out && (r' == r || r' == OK)
      ensures inp.Pos() == old(inp.Pos()) && inp.k <= 7
      ensures if leave then mode == WASH && win.availOut == 0 else mode == END && win.out == win.produced
    {
      hide After, OnTree, Last, Rotated, CheckOf, From, Low, Shr, TablesOk;
      if inp.k > 7 {
        inp.Return(1);
      }
      r' := win.Flush(r);
      if win.read != win.write {
        return true, r';
      }
      mode := END;
      leave := false;
    }

    /** Input is used up: what is held is short of one table lookup, or of the extra bits wanted. */
    ghost predicate Needy()
      reads this`mode, this`get, inp
    {
      match mode
      case LEN => inp.Lacks(9)
      case DIST => inp.Lacks(9)
      case DISTEXT => inp.Lacks(get)
      case _ => inp.Lacks(8)
    }

    /** Nothing more can be done without more input or more room for output. */
    ghost predicate Stuck()
      reads this`mode, this`get, inp, win
    {
      Needy() || win.availOut == 0
    }

    /** The return code tells how far the block is decoded. */
    ghost predicate Reports(r: Status)
      reads this, inp, win
    {
      match r
      case STREAM_END => mode == END && win.out == win.produced
      case DATA_ERROR => mode == BADCODE
      case _ => mode != END && mode != BADCODE && Stuck()
    }

    /** One round of the loop of inflate_codes, up to LEAVE. */
    method Turn(r: Status) returns (leave: bool, r': Status)
      requires Valid() && r != STREAM_END && r != DATA_ERROR && (mode == END ==> win.out == win.produced)
      modifies this, inp`p, inp`b, inp`k, inp`stale, win`read, win`write, win`availOut, win`out, win`check,
               win`produced, win.window
      ensures Valid() && n >= old(n) && old(win.out) <= win.out && inp.Pos() >= old(inp.Pos())
      ensures leave ==> Reports(r') && CodeFrom(r, r')
      ensures !leave ==> (mode == END ==> win.out == win.produced) && (r' == r || r' == OK)
      ensures !leave ==> inp.Pos() > old(inp.Pos()) || Rank(mode) < Rank(old(mode))
    {
      hide After, OnTree, Last, Rotated, Between, CheckOf, From, Low, Shr, TablesOk, PhaseOk;
      leave, r' := false, r;
      match mode
      case START => DoStart();
      case LEN => leave, r' := DoLen(r);
      case LENEXT => leave, r' := DoLenExt(r);
      case DIST => leave, r' := DoDist(r);
      case DISTEXT => leave, r' := DoDistExt(r);
      case COPY => leave, r' := DoCopy(r);
      case LIT => leave, r' := DoLit(r);
      case WASH => leave, r' := DoWash(r);
      case END => leave, r' := true, STREAM_END;
      case BADCODE => leave, r' := true, DATA_ERROR;
    }

    /** LEAVE: what can be delivered is delivered. */
    method Leave(r: Status) returns (r': Status)
      requires Valid() && Reports(r)
      modifies win`read, win`write, win`availOut, win`out, win`check
      ensures Valid() && old(win.out) <= win.out && Reports(r') && (r' == r || r' == OK)
    {
      hide After, OnTree, Last, Rotated, CheckOf, From, TablesOk, Between;
      r' := win.Flush(r);
    }

    /** inflate_codes: go on as far as input and room for output allow. */
    method Process(r: Status) returns (r': Status)
      requires Valid() && r != STREAM_END && r != DATA_ERROR && (mode == END ==> win.out == win.produced)
      modifies this, inp`p, inp`b, inp`k, inp`stale, win`read, win`write, win`availOut, win`out, win`check,
               win`produced, win.window
      ensures Valid() && n >= old(n) && old(win.out) <= win.out && inp.Pos() >= old(inp.Pos())
      ensures Reports(r') && CodeFrom(r, r')
    {
      hide After, OnTree, Last, Rotated, CheckOf, From, TablesOk, PhaseOk, Rank, Between;
      r' := r;
      var leave := false;
      while !leave
        invariant Valid() && n >= old(n) && old(win.out) <= win.out && inp.Pos() >= old(inp.Pos())
        invariant CodeFrom(r, r')
        invariant if leave then Reports(r')
          else r' != STREAM_END && r' != DATA_ERROR && (mode == END ==> win.out == win.produced)
        decreases !leave, 8 * |inp.input| - inp.Pos(), Rank(mode)
      {
        leave, r' := Turn(r');
      }
      r' := Leave(r');
    }
  }

  lemma RootReady(hp: seq<Huft>, tl: nat, bl: nat, td: nat, bd: nat, lit: seq<nat>, dst: seq<nat>, B: nat)
    requires TablesOk(hp, tl, bl, td, bd, lit, dst)
    ensures OnTree(hp, tl, bl, tl, bl, B, 0, BMAX) && (bd > 0 ==> OnTree(hp, td, bd, td, bd, B, 0, BMAX))
  {
    CanStart(hp, tl, bl, lit, 257, CPLENS, CPLEXT, B);
    if bd > 0 {
      CanStart(hp, td, bd, dst, 0, CPDIST, CPDEXT, B);
    }
  }
}
