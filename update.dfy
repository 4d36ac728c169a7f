/** The write side of the dotted-path accessor: what `set` does to the tree
    (src/Document.php:191-209). Unlike `has` and `get`, `set` never treats a
    dotted key as one literal key: it always walks the segments. */
module Update {
  import opened Values
  import opened Paths
  import opened Access

  /** The array `set` descends into under `key`. PHP's `isset` is false for a
      missing key and for a stored `null`, and `is_array` is false for any
      scalar: in all of those cases the slot is first replaced by `[]`. */
  function Container(m: map<string, Value>, key: string): map<string, Value> {
    if Exists(m, key) && m[key].Node? then m[key].entries else map[]
  }

  /** The root after `set` walks `segs` from `m` and assigns `v` in the last
      slot; every intermediate slot holds an array once the walk has passed. */
  function SetPath(m: map<string, Value>, segs: seq<string>, v: Value): (r: map<string, Value>)
    requires |segs| >= 1
    ensures r.Keys == m.Keys + {segs[0]}
    ensures forall k :: k in m && k != segs[0] ==> r[k] == m[k]
    decreases |segs|
  {
    if |segs| == 1 then m[segs[0] := v]
    else m[segs[0] := Node(SetPath(Container(m, segs[0]), segs[1..], v))]
  }

  /** The map form of `set`: each key/value pair in turn, so a later pair
      overrides an earlier one. */
  function SetAll(m: map<string, Value>, pairs: seq<(string, Value)>): map<string, Value>
    decreases |pairs|
  {
    if pairs == [] then m
    else
      var last := pairs[|pairs| - 1];
      SetPath(SetAll(m, pairs[..|pairs| - 1]), Split(last.0), last.1)
  }

  /** The array found at `p` below the root, or the empty array when the walk
      fails or ends on a scalar: what `set` builds on at that depth. */
  function ContainerAt(m: map<string, Value>, p: seq<string>): map<string, Value> {
    match Walk(Node(m), p)
    case Some(Node(c)) => c
    case _ => map[]
  }

  /** After `set`, walking the same segments from the root reaches the value. */
  lemma {:induction false} SetPathReaches(m: map<string, Value>, segs: seq<string>, v: Value)
    requires |segs| >= 1
    ensures Walk(Node(SetPath(m, segs, v)), segs) == Some(v)
    decreases |segs|
  {
    if |segs| > 1 {
      SetPathReaches(Container(m, segs[0]), segs[1..], v);
    }
  }

  /** At every depth `j` along the walked path `set` leaves an array that is
      the array that was there before (or a fresh empty one, when there was a
      missing key, a `null` or a scalar) with only the next segment rewritten:
      every other entry at that depth is kept as it was. */
  lemma {:induction false} SetPathLevel(m: map<string, Value>, segs: seq<string>, v: Value, j: nat)
    requires j < |segs|
    ensures Walk(Node(SetPath(m, segs, v)), segs[..j]) == Some(Node(SetPath(ContainerAt(m, segs[..j]), segs[j..], v)))
    decreases j
  {
    if j > 0 {
      var c := Container(m, segs[0]);
      SetPathLevel(c, segs[1..], v, j - 1);
      assert segs[..j][0] == segs[0] && segs[..j][1..] == segs[1..][..j - 1];
      assert segs[j..] == segs[1..][j - 1..];
      ContainerStep(m, segs[0], segs[1..][..j - 1]);
    } else {
      assert segs[..0] == [] && segs[0..] == segs;
    }
  }

  /** `set` keeps every entry beside its path: at each depth `j` an entry
      other than the next segment, in an array that was already there, walks
      to the same value as before. */
  lemma SetKeepsSiblings(m: map<string, Value>, segs: seq<string>, v: Value, j: nat, k: string)
    requires j < |segs| && k != segs[j]
    requires k in ContainerAt(m, segs[..j])
    ensures Walk(Node(SetPath(m, segs, v)), segs[..j] + [k]) == Walk(Node(m), segs[..j] + [k])
  {
    var c := ContainerAt(m, segs[..j]);
    SetPathLevel(m, segs, v, j);
    WalkAppend(Node(SetPath(m, segs, v)), segs[..j], [k]);
    WalkAppend(Node(m), segs[..j], [k]);
    var r := SetPath(c, segs[j..], v);
    assert Walk(Node(r), [k]) == Walk(r[k], []);
    assert Walk(Node(c), [k]) == Walk(c[k], []);
  }

  /** Where the walk of `set` meets a missing key, a `null` or a scalar below
      the root, it leaves an array that holds only the next segment. */
  lemma SetReplacesNonArrays(m: map<string, Value>, segs: seq<string>, v: Value, j: nat)
    requires 0 < j < |segs|
    requires var w := Walk(Node(m), segs[..j]); !(w.Some? && w.value.Node?)
    ensures var w := Walk(Node(SetPath(m, segs, v)), segs[..j]);
            w.Some? && w.value.Node? && w.value.entries.Keys == {segs[j]}
  {
    SetPathLevel(m, segs, v, j);
  }

  /** A key without a dot is assigned at the root, overwriting any entry there. */
  lemma SetUndotted(m: map<string, Value>, key: string, v: Value)
    requires Dot !in key
    ensures SetPath(m, Split(key), v) == m[key := v]
  {
    SplitNoDot(key);
  }

  /** Going one level down then along `rest` finds the same array as going
      along the whole path, with missing and scalar slots read as empty. */
  lemma ContainerStep(m: map<string, Value>, k: string, rest: seq<string>)
    ensures ContainerAt(Container(m, k), rest) == ContainerAt(m, [k] + rest)
  {
    assert ([k] + rest)[0] == k && ([k] + rest)[1..] == rest;
    if k in m {
      assert Walk(Node(m), [k] + rest) == Walk(m[k], rest);
    }
    if rest == [] {
      assert k in m ==> Walk(m[k], rest) == Some(m[k]);
    } else if !(k in m && m[k].Node?) {
      assert Walk(Node(map[]), rest) == None;
      assert Walk(Node(m), [k] + rest) == None;
    }
  }

  /** Setting the same key twice: the second value replaces the first and
      nothing else of the first call remains. */
  lemma {:induction false} SetPathTwice(m: map<string, Value>, segs: seq<string>, v: Value, w: Value)
    requires |segs| >= 1
    ensures SetPath(SetPath(m, segs, v), segs, w) == SetPath(m, segs, w)
    decreases |segs|
  {
    if |segs| > 1 {
      SetPathTwice(Container(m, segs[0]), segs[1..], v, w);
    }
  }

  /** `set` with a string key `k` makes `get(k)` return the value, unless `k`
      holds a dot and was already a literal top-level key: `set` did not touch
      that entry and `get` still prefers it. */
  lemma SetThenLookup(m: map<string, Value>, key: string, v: Value)
    ensures Lookup(SetPath(m, Split(key), v), key)
         == if Dot in key && Exists(m, key) then Some(m[key]) else Some(v)
  {
    var segs := Split(key);
    if Dot in key {
      SplitDotted(key);
      if !Exists(m, key) {
        SetPathReaches(m, segs, v);
      }
    } else {
      SplitNoDot(key);
    }
  }

  /** The `isset` asymmetry: a stored `null` is found by `has` and `get`, yet
      `set` through it replaces it by an array. The key holds no dot, so
      `[key] + rest` is what `set` walks for `key` followed by `rest`. */
  lemma NullIsPresentButReplaced(m: map<string, Value>, key: string, rest: seq<string>, v: Value)
    requires Dot !in key
    requires Exists(m, key) && m[key] == NullValue
    requires |rest| >= 1
    ensures Lookup(m, key) == Some(NullValue)
    ensures SetPath(m, [key] + rest, v)[key] == Node(SetPath(map[], rest, v))
  {
  }

  /** After the map form of `set`, the last pair's key walks to its value. */
  lemma SetAllLastWins(m: map<string, Value>, pairs: seq<(string, Value)>)
    requires pairs != []
    ensures Walk(Node(SetAll(m, pairs)), Split(pairs[|pairs| - 1].0)) == Some(pairs[|pairs| - 1].1)
  {
    var last := pairs[|pairs| - 1];
    SetPathReaches(SetAll(m, pairs[..|pairs| - 1]), Split(last.0), last.1);
  }

  /** Applying pairs in two batches is applying them all in order. */
  lemma {:induction false} SetAllAppend(m: map<string, Value>, ps: seq<(string, Value)>, qs: seq<(string, Value)>)
    ensures SetAll(m, ps + qs) == SetAll(SetAll(m, ps), qs)
    decreases |qs|
  {
    if qs == [] {
      assert ps + qs == ps;
    } else {
      var n := |qs| - 1;
      assert (ps + qs)[..|ps + qs| - 1] == ps + qs[..n];
      assert (ps + qs)[|ps + qs| - 1] == qs[n];
      SetAllAppend(m, ps, qs[..n]);
    }
  }
}
