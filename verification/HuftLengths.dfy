/** The first half of huft_build: counting, checking and sorting code lengths. */
module HuftLengths {
  import opened Bits
  import opened Canonical
  import opened HuftTable
  import opened InfTrees

  /** c[k] becomes the number of codes of k bits. */
  method CountLengths(b: seq<nat>) returns (c: array<nat>)
    requires LengthsOk(b)
    ensures fresh(c) && c.Length == BMAX + 1
    ensures forall k :: 0 <= k <= BMAX ==> c[k] == Count(b, k)
  {
    c := new nat[BMAX + 1](_ => 0);
    var i := 0;
    while i < |b|
      invariant i <= |b|
      invariant forall k :: 0 <= k <= BMAX ==> c[k] == Count(b[..i], k)
    {
      assert b[..i + 1] == b[..i] + [b[i]];
      forall k | 0 <= k <= BMAX
        ensures Count(b[..i + 1], k) == Count(b[..i], k) + if b[i] == k then 1 else 0
      {
        CountSnoc(b[..i], b[i], k);
      }
      c[b[i]] := c[b[i]] + 1;
      i := i + 1;
    }
    assert b[..i] == b;
  }

  lemma {:induction false} CountAll(lens: seq<nat>, k: nat)
    ensures Count(lens, k) <= |lens|
    ensures Count(lens, k) == |lens| <==> forall i :: 0 <= i < |lens| ==> lens[i] == k
  {
    if lens != [] {
      CountAll(lens[..|lens| - 1], k);
      assert forall i :: 0 <= i < |lens| - 1 ==> lens[..|lens| - 1][i] == lens[i];
    }
  }

  /** The shortest and the longest length of a code that has a symbol. */
  method Bounds(b: seq<nat>, c: array<nat>) returns (k: nat, g: nat)
    requires LengthsOk(b) && !AllZero(b) && c.Length == BMAX + 1
    requires forall j :: 0 <= j <= BMAX ==> c[j] == Count(b, j)
    ensures 1 <= k <= g <= BMAX && c[k] > 0 && (forall j :: 1 <= j < k ==> c[j] == 0)
    ensures IsLongest(b, g)
  {
    ghost var i :| 0 <= i < |b| && b[i] != 0;
    CountAbsent(b, b[i]);
    k := 1;
    while c[k] == 0
      invariant 1 <= k <= b[i] && forall j :: 1 <= j < k ==> c[j] == 0
      decreases b[i] - k
    {
      k := k + 1;
    }
    g := BMAX;
    while c[g] == 0
      invariant k <= g <= BMAX && forall j :: g < j <= BMAX ==> c[j] == 0
      decreases g
    {
      g := g - 1;
    }
  }

  lemma {:induction false} LeftBelow(lens: seq<nat>, k: nat)
    requires forall j :: 1 <= j <= k ==> Count(lens, j) == 0
    ensures Left(lens, k) == Pow2(k)
  {
    if k > 0 {
      LeftBelow(lens, k - 1);
    }
  }

  /** The patterns of g bits left over by the codes; negative when the set is over-subscribed. */
  method Balance(b: seq<nat>, c: array<nat>, k: nat, g: nat) returns (y: int)
    requires c.Length == BMAX + 1 && 1 <= k <= g <= BMAX
    requires forall j :: 0 <= j <= BMAX ==> c[j] == Count(b, j)
    requires forall j :: 1 <= j < k ==> c[j] == 0
    ensures if Left(b, g) < 0 then y < 0 else y == Left(b, g)
  {
    LeftBelow(b, k - 1);
    var j := k;
    y := Pow2(j);
    while j < g
      invariant k <= j <= g && y == 2 * Left(b, j - 1) && y >= 0
    {
      y := y - c[j];
      if y < 0 {
        LeftStaysNegative(b, j, g);
        return;
      }
      y := 2 * y;
      j := j + 1;
    }
    y := y - c[g];
  }

  /** x[k] becomes the place at which the values of the k-bit codes begin. */
  method Offsets(c: array<nat>, g: nat) returns (x: array<nat>)
    requires c.Length == BMAX + 1 && 1 <= g <= BMAX
    ensures fresh(x) && x.Length == BMAX + 1
    ensures forall k :: 1 <= k <= g ==> x[k] == Off(c[..], k)
  {
    x := new nat[BMAX + 1];
    var j, i := 0, 1;
    x[1] := 0;
    while i < g
      invariant 1 <= i <= g && j == Off(c[..], i)
      invariant forall k :: 1 <= k <= i ==> x[k] == Off(c[..], k)
    {
      j := j + c[i];
      x[i + 1] := j;
      i := i + 1;
    }
  }

  /** The values written so far are in place: those of the first i symbols. */
  ghost predicate Sorted(c: seq<nat>, g: nat, b: seq<nat>, i: nat, x: seq<nat>, v: seq<nat>)
    requires i <= |b| && |c| == |x| == BMAX + 1 && g <= BMAX
  {
    && (forall k :: 1 <= k <= g ==> x[k] == Off(c, k) + Count(b[..i], k))
    && forall sym :: 0 <= sym < i && b[sym] > 0 ==> ValueInPlace(c, v, b, sym)
  }

  /** The place of the next value is inside the table, and no earlier value is there. */
  lemma NextPlace(c: seq<nat>, g: nat, b: seq<nat>, i: nat, x: seq<nat>, v: seq<nat>)
    requires |c| == |x| == BMAX + 1 && 1 <= g <= BMAX && i < |b| && 0 < b[i] <= g
    requires forall k :: 1 <= k <= g ==> Count(b, k) <= c[k]
    requires forall sym :: 0 <= sym < |b| ==> b[sym] <= g
    requires Sorted(c, g, b, i, x, v) && Off(c, g) + Count(b, g) <= |v|
    ensures x[b[i]] < Off(c, g) + Count(b, g)
    ensures forall sym :: 0 <= sym < i && b[sym] > 0 ==>
      ValueInPlace(c, v, b, sym) && Off(c, b[sym]) + Count(b[..sym], b[sym]) != x[b[i]]
  {
    var k := b[i];
    CountMono(b, i, k);
    if k < g {
      OffMono(c, k, g);
    }
    forall sym | 0 <= sym < i && b[sym] > 0
      ensures ValueInPlace(c, v, b, sym) && Off(c, b[sym]) + Count(b[..sym], b[sym]) != x[k]
    {
      var j := b[sym];
      CountMono(b, sym, j);
      CountMono(b[..i], sym, j);
      assert b[..i][..sym] == b[..sym];
      if j < k {
        OffMono(c, j, k);
      } else if k < j {
        OffMono(c, k, j);
      }
    }
  }

  lemma AfterValue(c: seq<nat>, g: nat, b: seq<nat>, i: nat, x: seq<nat>, v: seq<nat>)
    requires |c| == |x| == BMAX + 1 && 1 <= g <= BMAX && i < |b| && b[i] <= g
    requires forall k :: 1 <= k <= g ==> Count(b, k) <= c[k]
    requires forall sym :: 0 <= sym < |b| ==> b[sym] <= g
    requires Sorted(c, g, b, i, x, v) && Off(c, g) + Count(b, g) <= |v|
    ensures b[i] == 0 ==> Sorted(c, g, b, i + 1, x, v)
    ensures b[i] > 0 ==> x[b[i]] < |v| && Sorted(c, g, b, i + 1, x[b[i] := x[b[i]] + 1], v[x[b[i]] := i])
  {
    StepCounts(b, i);
    if b[i] > 0 {
      NextPlace(c, g, b, i, x, v);
      StepValues(c, b, i, x[b[i]], v);
    }
  }

  lemma StepCounts(b: seq<nat>, i: nat)
    requires i < |b|
    ensures forall k :: Count(b[..i + 1], k) == Count(b[..i], k) + if b[i] == k then 1 else 0
  {
    assert b[..i + 1] == b[..i] + [b[i]];
    forall k
      ensures Count(b[..i + 1], k) == Count(b[..i], k) + if b[i] == k then 1 else 0
    {
      CountSnoc(b[..i], b[i], k);
    }
  }

  lemma StepValues(c: seq<nat>, b: seq<nat>, i: nat, p: nat, v: seq<nat>)
    requires i < |b| && 1 <= b[i] < |c| && p == Off(c, b[i]) + Count(b[..i], b[i]) < |v|
    requires forall sym :: 0 <= sym < i && b[sym] > 0 ==>
      ValueInPlace(c, v, b, sym) && Off(c, b[sym]) + Count(b[..sym], b[sym]) != p
    ensures forall sym :: 0 <= sym < i + 1 && b[sym] > 0 ==> ValueInPlace(c, v[p := i], b, sym)
  {
    forall sym | 0 <= sym < i + 1 && b[sym] > 0
      ensures ValueInPlace(c, v[p := i], b, sym)
    {
      if sym < i {
        assert ValueInPlace(c, v, b, sym);
      }
    }
  }

  /** Sort the symbols that have a code by its length, keeping their order within a length. */
  method SortValues(b: seq<nat>, c: seq<nat>, g: nat, x: array<nat>) returns (v: array<nat>)
    requires |c| == x.Length == BMAX + 1 && 1 <= g <= BMAX
    requires forall k :: 1 <= k <= g ==> Count(b, k) <= c[k] && x[k] == Off(c, k)
    requires forall sym :: 0 <= sym < |b| ==> b[sym] <= g
    requires Off(c, g) + Count(b, g) <= |b|
    modifies x
    ensures v.Length == |b| && x[g] == Off(c, g) + Count(b, g)
    ensures forall sym :: 0 <= sym < |b| && b[sym] > 0 ==> ValueInPlace(c, v[..], b, sym)
  {
    hide Sorted, ValueInPlace, Off, Count;
    v := new nat[|b|];
    NoneSorted(c, g, b, x[..], v[..]);
    var i: nat := 0;
    while i < |b|
      invariant i <= |b| && Sorted(c, g, b, i, x[..], v[..])
    {
      ghost var xs, vs := x[..], v[..];
      AfterValue(c, g, b, i, xs, vs);
      var j := b[i];
      if j != 0 {
        v[x[j]] := i;
        x[j] := x[j] + 1;
        assert x[..] == xs[j := xs[j] + 1] && v[..] == vs[xs[j] := i];
      }
      i := i + 1;
    }
    AllInPlace(c, g, b, x[..], v[..]);
  }

  lemma NoneSorted(c: seq<nat>, g: nat, b: seq<nat>, x: seq<nat>, v: seq<nat>)
    requires |c| == |x| == BMAX + 1 && 1 <= g <= BMAX && forall k :: 1 <= k <= g ==> x[k] == Off(c, k)
    ensures Sorted(c, g, b, 0, x, v)
  {
  }

  lemma AllInPlace(c: seq<nat>, g: nat, b: seq<nat>, x: seq<nat>, v: seq<nat>)
    requires |c| == |x| == BMAX + 1 && 1 <= g <= BMAX && Sorted(c, g, b, |b|, x, v)
    ensures x[g] == Off(c, g) + Count(b, g)
    ensures forall sym :: 0 <= sym < |b| && b[sym] > 0 ==> ValueInPlace(c, v, b, sym)
  {
    assert b[..|b|] == b;
  }
}
