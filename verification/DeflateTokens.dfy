/** Literals and length/distance pairs, and what they stand for. */
module DeflateTokens {
  import opened Zlib
  import opened InflateSpec
  import CodeSteps

  const MAX_MATCH := 258

  datatype Token = Literal(c: byte) | Pair(dist: nat, len: nat)

  /** Append len bytes, each a copy of the byte `dist` before it. */
  function CopyBack(out: seq<byte>, dist: nat, len: nat): seq<byte>
    decreases len
  {
    if len == 0 then out
    else CopyBack(out + [if 1 <= dist <= |out| then out[|out| - dist] else 0], dist, len - 1)
  }

  function Apply(out: seq<byte>, t: Token): seq<byte>
  {
    match t
    case Literal(c) => out + [c]
    case Pair(dist, len) => CopyBack(out, dist, len)
  }

  /** What a decoder writes for the tokens. */
  function Expand(tokens: seq<Token>): seq<byte>
  {
    if tokens == [] then [] else Apply(Expand(tokens[..|tokens| - 1]), tokens[|tokens| - 1])
  }

  lemma ExpandSnoc(tokens: seq<Token>, t: Token)
    ensures Expand(tokens + [t]) == Apply(Expand(tokens), t)
  {
    assert (tokens + [t])[..|tokens|] == tokens;
  }

  /** At position n the len bytes of data repeat those `dist` before. */
  ghost predicate Matches(data: seq<byte>, n: nat, dist: nat, len: nat)
  {
    1 <= dist <= n && n + len <= |data| && forall i :: n <= i < n + len ==> data[i] == data[i - dist]
  }

  /** A true match expands to the data it was found in. */
  lemma {:induction false} MatchExpands(data: seq<byte>, n: nat, dist: nat, len: nat)
    requires Matches(data, n, dist, len)
    ensures CopyBack(data[..n], dist, len) == data[..n + len]
    decreases len
  {
    if len > 0 {
      assert data[..n] + [data[n]] == data[..n + 1];
      MatchExpands(data, n + 1, dist, len - 1);
    }
  }

  /** A pair of the lengths and distances allowed: W is the greatest distance. */
  predicate InFormat(t: Token, W: int)
  {
    t.Pair? ==> 3 <= t.len <= MAX_MATCH && 1 <= t.dist <= W
  }

  lemma AfterSize(job: Job, n: nat, a: State)
    requires After(job, n, a)
    ensures 0 < job.W <= |job.w0|
  {
  }

  lemma NearBack(H: seq<byte>, out: seq<byte>, W: nat, dist: nat)
    requires 1 <= dist <= |out| <= |H| && H[|H| - |out|..] == out && dist <= W <= |H|
    ensures Back(H, W, dist) == out[|out| - dist]
  {
    assert H[|H| - dist] == H[|H| - |out|..][|out| - dist];
  }

  /** A decoder that is at a string of len bytes has written what CopyBack says when it is done. */
  lemma {:induction false} DecoderCopies(job: Job, n: nat, a: State, len: nat, dist: nat)
    requires After(job, n, a) && a.mode.Codes? && a.mode.sub == Copy(len, dist) && 1 <= dist <= |a.out| && dist <= job.W
    ensures After(job, n + len + 1, a.(out := CopyBack(a.out, dist, len), mode := a.mode.(sub := Start)))
    decreases len
  {
    hide After, Back;
    DecoderCopiesOne(job, n, a, len, dist);
    if len > 0 {
      var b := a.(out := a.out + [a.out[|a.out| - dist]], mode := a.mode.(sub := Copy(len - 1, dist)));
      DecoderCopies(job, n + 1, b, len - 1, dist);
      assert b.(out := CopyBack(b.out, dist, len - 1), mode := b.mode.(sub := Start)) ==
        a.(out := CopyBack(a.out, dist, len), mode := a.mode.(sub := Start));
      assert n + 1 + (len - 1) + 1 == n + len + 1;
    }
  }

  lemma DecoderCopiesOne(job: Job, n: nat, a: State, len: nat, dist: nat)
    requires After(job, n, a) && a.mode.Codes? && a.mode.sub == Copy(len, dist) && 1 <= dist <= |a.out| && dist <= job.W
    ensures After(job, n + 1,
      if len == 0 then a.(mode := a.mode.(sub := Start))
      else a.(out := a.out + [a.out[|a.out| - dist]], mode := a.mode.(sub := Copy(len - 1, dist))))
  {
    AfterSize(job, n, a);
    CodeSteps.CopyStep(job, n, a);
    NearBack(job.w0 + a.out, a.out, job.W, dist);
    hide After, Back;
  }
}
