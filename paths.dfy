/** Dotted keys. `has`, `get` and `set` cut a key into segments with PHP's
    `explode('.', $key)`: every dot separates two segments, empty segments are
    kept ("a..b" has three segments, "." has two) and the empty key is one empty
    segment. */
module Paths {

  const Dot: char := '.'

  /** Glues segments back together with dots, as PHP's `implode('.', ...)`. */
  function Join(segs: seq<string>): string
    requires |segs| >= 1
  {
    if |segs| == 1 then segs[0] else segs[0] + [Dot] + Join(segs[1..])
  }

  /** `explode('.', s)`: the pieces of `s` between its dots, in order. */
  function Split(s: string): (r: seq<string>)
    ensures |r| >= 1
    decreases |s|
  {
    if |s| == 0 then [""]
    else if s[0] == Dot then [""] + Split(s[1..])
    else
      var rest := Split(s[1..]);
      [[s[0]] + rest[0]] + rest[1..]
  }

  /** Exploding loses nothing: the segments hold no dot and glue back to the key. */
  lemma {:induction false} JoinSplit(s: string)
    ensures forall i :: 0 <= i < |Split(s)| ==> Dot !in Split(s)[i]
    ensures Join(Split(s)) == s
    decreases |s|
  {
    if |s| > 0 {
      var rest := Split(s[1..]);
      JoinSplit(s[1..]);
      if s[0] == Dot {
        assert s == [Dot] + s[1..];
      } else {
        assert s == [s[0]] + s[1..];
        assert |rest| > 1 ==> Join(rest) == rest[0] + [Dot] + Join(rest[1..]);
      }
    }
  }

  /** Splitting a piece with no dot in front of the rest of a key puts that
      piece in front of the first segment of the rest. */
  lemma {:induction false} SplitPrefix(w: string, t: string)
    requires Dot !in w
    ensures Split(w + t) == [w + Split(t)[0]] + Split(t)[1..]
    decreases |w|
  {
    var sp := Split(t);
    if w == [] {
      assert w + t == t && w + sp[0] == sp[0];
    } else {
      assert (w + t)[0] == w[0] && (w + t)[1..] == w[1..] + t;
      SplitPrefix(w[1..], t);
      var rest := Split(w[1..] + t);
      assert rest[0] == w[1..] + sp[0] && rest[1..] == sp[1..];
      assert [w[0]] + (w[1..] + sp[0]) == w + sp[0];
    }
  }

  /** A key without a dot is a single segment: the key itself. */
  lemma {:induction false} SplitNoDot(k: string)
    requires Dot !in k
    ensures Split(k) == [k]
  {
    SplitPrefix(k, "");
    assert k + "" == k;
  }

  /** A key holding a dot has at least two segments, none of them the key. */
  lemma SplitDotted(k: string)
    requires Dot in k
    ensures |Split(k)| >= 2
    ensures forall i :: 0 <= i < |Split(k)| ==> Split(k)[i] != k
  {
    JoinSplit(k);
  }

  /** Splitting undoes joining, for segments that hold no dot. */
  lemma {:induction false} SplitJoin(segs: seq<string>)
    requires |segs| >= 1
    requires forall i :: 0 <= i < |segs| ==> Dot !in segs[i]
    ensures Split(Join(segs)) == segs
    decreases |segs|
  {
    if |segs| == 1 {
      SplitNoDot(segs[0]);
    } else {
      var t := Join(segs[1..]);
      SplitJoin(segs[1..]);
      assert segs[0] + [Dot] + t == segs[0] + ([Dot] + t);
      SplitPrefix(segs[0], [Dot] + t);
      assert ([Dot] + t)[0] == Dot && ([Dot] + t)[1..] == t;
      assert Split([Dot] + t) == [""] + Split(t);
      assert segs[0] + "" == segs[0];
      assert segs == [segs[0]] + segs[1..];
    }
  }
}
