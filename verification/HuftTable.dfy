/** Multi-level decoding tables of inftrees.c: how a table is walked, and what the entries of
    a table under construction mean. */
module HuftTable {
  import opened Bits
  import opened Canonical
  import opened Options

  /** inflate_huft_s: `exop` is the number of extra bits or the operation, `bits` the number
      of bits to drop, `base` a value or the distance to the next table. */
  datatype Huft = Huft(exop: nat, bits: nat, base: nat)

  /** Neither literal, length, distance, end of block nor invalid: the entry leads on to a
      table of `exop` bits. */
  predicate IsLink(x: Huft)
  {
    x.exop != 0 && x.exop / 16 % 2 == 0 && x.exop / 64 % 2 == 0
  }

  const INVALID := 128 + 64

  /** An entry with operation 64 neither leads on nor is what decoding a code yields. */
  const STALE := Huft(64, 1, 0)

  /** What a walk delivers: the bits dropped on the way and the entry it ends in. */
  datatype Found = Found(used: nat, entry: Huft)

  /** Walk the table of 2^nb entries at t on stream B, as the LEN and DIST states do. */
  function Walk(hp: seq<Huft>, t: nat, nb: nat, B: nat, fuel: nat): Option<Found>
    decreases fuel
  {
    var i := t + Low(B, nb);
    if |hp| <= i then None
    else if !IsLink(hp[i]) then Some(Found(hp[i].bits, hp[i]))
    else if fuel == 0 then None
    else
      match Walk(hp, i + hp[i].base, hp[i].exop, Shr(B, hp[i].bits), fuel - 1)
      case None => None
      case Some(f) => Some(f.(used := f.used + hp[i].bits))
  }

  /** On the walk every entry drops at least one bit and at most those looked at, which are at
      most `cap` at a time, and bits are looked at only within the next `room`. */
  ghost predicate StepsOk(hp: seq<Huft>, t: nat, nb: nat, B: nat, cap: nat, room: nat, fuel: nat)
    decreases fuel
  {
    var i := t + Low(B, nb);
    && i < |hp| && nb <= cap && nb <= room && 1 <= hp[i].bits <= nb
    && (IsLink(hp[i]) ==>
         fuel > 0 && StepsOk(hp, i + hp[i].base, hp[i].exop, Shr(B, hp[i].bits), cap, room - hp[i].bits, fuel - 1))
  }

  /** The result of decoding symbol sym: operation and value of the entry. */
  function LeafExop(sym: nat, s: nat, e: seq<nat>): nat
  {
    if sym < s then if sym < 256 then 0 else 32 + 64
    else if sym - s < |e| then e[sym - s] + 16 + 64
    else 0
  }

  function LeafBase(sym: nat, s: nat, d: seq<nat>): nat
  {
    if sym < s then sym else if sym - s < |d| then d[sym - s] else 0
  }

  // ----- the code being tabulated

  /** Code counts c up to length g (dummy codes included), l bits per table, and the symbols v
      in code order with the value lists for symbols from s on. */
  datatype Code = Code(c: seq<nat>, g: nat, l: nat, v: seq<nat>, s: nat, d: seq<nat>, e: seq<nat>)

  ghost predicate ListsOk(s: nat, d: seq<nat>, e: seq<nat>)
  {
    |d| == |e| && forall i :: 0 <= i < |e| ==> e[i] < 16 || e[i] == 112
  }

  ghost predicate CodeOk(cd: Code)
  {
    && Complete(cd.c, cd.g)
    && 1 <= cd.l <= cd.g
    && 0 < End(cd.c, cd.l)
    && ListsOk(cd.s, cd.d, cd.e)
    && forall p :: 0 <= p < |cd.v| ==> cd.v[p] < cd.s + |cd.d|
  }

  /** Entry x decodes the p-th code, of which `bits` bits lie in this table.  The base of an
      invalid entry is left over; after a single code of one bit it is that code's value. */
  ghost predicate IsLeaf(cd: Code, x: Huft, p: nat, bits: nat)
  {
    && x.bits == bits
    && if p < |cd.v| then x.exop == LeafExop(cd.v[p], cd.s, cd.e) && x.base == LeafBase(cd.v[p], cd.s, cd.d)
       else x.exop == INVALID && (cd.g == 1 && cd.v != [] ==> x.base == LeafBase(cd.v[|cd.v| - 1], cd.s, cd.d))
  }

  lemma LeafIsNoLink(cd: Code, x: Huft, p: nat, bits: nat)
    requires CodeOk(cd) && IsLeaf(cd, x, p, bits)
    ensures !IsLink(x)
  {
  }

  // ----- tables

  predicate MultipleOf(l: nat, w: nat)
  {
    w == 0 || (0 < l <= w && MultipleOf(l, w - l))
  }

  /** A table of 2^jb entries at off, reached after the w bits whose value is pre. */
  datatype Tab = Tab(off: nat, w: nat, pre: nat, jb: nat)

  ghost predicate Covers(T: Tab, B: nat)
  {
    Msb(B, T.w) == T.pre
  }

  /** The table was opened by a code of at most w + l bits, so it can be filled. */
  ghost predicate Fillable(cd: Code, T: Tab)
  {
    T.jb <= cd.l
  }

  ghost predicate TabShape(cd: Code, T: Tab)
    requires CodeOk(cd)
  {
    && MultipleOf(cd.l, T.w)
    && 1 <= T.jb && T.w + T.jb <= cd.g
    && T.pre < Pow2(T.w)
    // the opening code has at most w + jb bits
    && Shl(T.pre, T.jb) < End(cd.c, T.w + T.jb)
    // a table narrower than l bits holds all codes with its prefix
    && (T.jb < cd.l ==> Shl(T.pre + 1, T.jb) <= End(cd.c, T.w + T.jb))
    // a table wider than l bits holds no code of w + l bits
    && (cd.l < T.jb ==> End(cd.c, T.w + cd.l) <= Shl(T.pre, cd.l))
  }

  ghost predicate Apart(T: Tab, T': Tab)
  {
    T.off + Pow2(T.jb) <= T'.off || T'.off + Pow2(T'.jb) <= T.off
  }

  /** All tables lie in hp from lo to hi, no two of them share an entry. */
  ghost predicate TabsOk(cd: Code, tabs: set<Tab>, lo: nat, hi: nat)
    requires CodeOk(cd)
  {
    && (forall T :: T in tabs ==> TabShape(cd, T) && lo <= T.off && T.off + Pow2(T.jb) <= hi)
    && (forall T, T' :: T in tabs && T' in tabs && T != T' ==> Apart(T, T'))
  }

  /** The entry of T that leads to T', which takes over after l more bits. */
  function LinkAt(cd: Code, T: Tab, T': Tab): nat
  {
    T.off + Msb(T'.pre, cd.l)
  }

  ghost predicate Linked(cd: Code, hp: seq<Huft>, T: Tab, T': Tab)
  {
    var i := LinkAt(cd, T, T');
    T'.w == T.w + cd.l && i < |hp| && i <= T'.off && hp[i] == Huft(T'.jb, cd.l, T'.off - i)
  }

  function IndexOf(T: Tab, B: nat): nat
  {
    T.off + Low(Shr(B, T.w), T.jb)
  }

  /** The entry of T for stream B is final: it decodes the code of B when that ends in T, and
      otherwise leads to the table for the next l bits. */
  ghost predicate EntryOk(cd: Code, hp: seq<Huft>, tabs: set<Tab>, T: Tab, B: nat)
    requires CodeOk(cd)
  {
    var len := CodeLen(cd.c, cd.g, B, 1);
    var i := IndexOf(T, B);
    i < |hp| &&
    if len <= T.w + T.jb
    then T.w < len && Owns(cd.c, len, B) &&
      IsLeaf(cd, hp[i], Off(cd.c, len) + (Msb(B, len) - First(cd.c, len)), len - T.w)
    else exists T' :: T' in tabs && Covers(T', B) && Linked(cd, hp, T, T') && LinkAt(cd, T, T') == i
  }

  /** Progress (k, C): the codes of fewer than k bits and those of k bits below C are done. */
  ghost predicate TabDone(cd: Code, hp: seq<Huft>, tabs: set<Tab>, T: Tab, k: nat, C: nat)
    requires CodeOk(cd)
  {
    forall B: nat :: Covers(T, B) && Msb(B, k) < C && Fillable(cd, T) ==> EntryOk(cd, hp, tabs, T, B)
  }

  /** In a table that cannot be filled only the first 2^l entries are ever written. */
  ghost predicate Untouched(cd: Code, hp: seq<Huft>, hp0: seq<Huft>, T: Tab)
  {
    T.off + Pow2(T.jb) <= |hp| == |hp0| &&
    (Fillable(cd, T) || forall i :: T.off + Pow2(cd.l) <= i < T.off + Pow2(T.jb) ==> hp[i] == hp0[i])
  }

  /** Bits before a table at level h, every table above it having l bits. */
  function LevelBits(l: nat, h: nat): nat
  {
    if h == 0 then 0 else LevelBits(l, h - 1) + l
  }

  /** Open table h of the stack lies on the path to code C of k bits. */
  ghost predicate OpenAt(cd: Code, tabs: set<Tab>, stk: seq<Tab>, h: nat, k: nat, C: nat)
    requires h < |stk|
  {
    stk[h] in tabs && stk[h].w == LevelBits(cd.l, h) && stk[h].w < k && stk[h].pre == Shr(C, k - stk[h].w)
  }

  /** Open table h leads to the next one. */
  ghost predicate LeadsAt(cd: Code, hp: seq<Huft>, stk: seq<Tab>, h: nat)
    requires h + 1 < |stk|
  {
    Linked(cd, hp, stk[h], stk[h + 1]) && cd.l <= stk[h].jb
  }

  /** A table lies behind code C, or C is in it and it is still open. */
  ghost predicate Behind(T: Tab, stk: seq<Tab>, k: nat, C: nat)
  {
    T.w < k && T.pre <= Shr(C, k - T.w) && (T.pre == Shr(C, k - T.w) ==> T in stk)
  }

  /** The open tables, outermost first, are those on the path to code C of k bits. */
  ghost predicate StackOk(cd: Code, hp: seq<Huft>, tabs: set<Tab>, stk: seq<Tab>, k: nat, C: nat)
  {
    && (forall h: nat :: h < |stk| ==> OpenAt(cd, tabs, stk, h, k, C))
    && (forall h: nat :: h < |stk| - 1 ==> LeadsAt(cd, hp, stk, h))
    && (forall T :: T in tabs ==> Behind(T, stk, k, C))
  }
}
