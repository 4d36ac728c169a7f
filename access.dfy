/** The read side of the dotted-path accessor: how `has` and `get` find the
    value a key names (src/Document.php:144-184). */
module Access {
  import opened Values
  import opened Paths

  /** `exists`: `array_key_exists`, so a key holding `null` is present. */
  predicate Exists(m: map<string, Value>, key: string) {
    key in m
  }

  /** Descends from `v` one segment at a time. Each step needs the current
      value to be an array that holds the segment; any other value, or a
      missing segment, ends the walk with nothing. */
  function Walk(v: Value, segs: seq<string>): Option<Value>
    decreases |segs|
  {
    if segs == [] then Some(v)
    else match v
      case Leaf(_) => None
      case Node(m) => if Exists(m, segs[0]) then Walk(m[segs[0]], segs[1..]) else None
  }

  /** What a walk finds is stored inside the value it started from. */
  lemma {:induction false} WalkStored(v: Value, segs: seq<string>)
    ensures Walk(v, segs).Some? ==> Within(Walk(v, segs).value, v)
    decreases |segs|
  {
    if segs != [] && v.Node? && Exists(v.entries, segs[0]) {
      WalkStored(v.entries[segs[0]], segs[1..]);
    }
  }

  /** Walking a path in two legs: the second leg starts where the first ended. */
  lemma {:induction false} WalkAppend(v: Value, p: seq<string>, q: seq<string>)
    ensures Walk(v, p + q) == match Walk(v, p) case Some(w) => Walk(w, q) case None => None
    decreases |p|
  {
    if p != [] {
      assert (p + q)[0] == p[0] && (p + q)[1..] == p[1..] + q;
      if v.Node? && Exists(v.entries, p[0]) {
        WalkAppend(v.entries[p[0]], p[1..], q);
      }
    } else {
      assert p + q == q;
    }
  }

  /** The lookup `has` and `get` share: a literal top-level key wins (dots
      and all); otherwise the key is walked segment by segment from the root. */
  function Lookup(items: map<string, Value>, key: string): Option<Value> {
    if Exists(items, key) then Some(items[key])
    else Walk(Node(items), Split(key))
  }

  /** The literal check changes the answer only for a dotted key: whenever
      the lookup and the walk of the segments differ, the key holds a dot and
      is stored literally at the root. For an undotted key the walk of its
      one segment already finds the literal entry. */
  lemma PathOnlyWithoutLiteral(items: map<string, Value>, key: string)
    ensures Lookup(items, key) != Walk(Node(items), Split(key)) ==> Exists(items, key) && Dot in key
  {
    if Dot !in key {
      SplitNoDot(key);
      assert [key][1..] == [];
      if Exists(items, key) {
        assert Walk(Node(items), [key]) == Walk(items[key], []);
      }
    }
  }

  /** Whatever a lookup finds is stored in the document. */
  lemma LookupStored(items: map<string, Value>, key: string)
    ensures Lookup(items, key).Some? ==> Within(Lookup(items, key).value, Node(items))
  {
    if Exists(items, key) {
      assert Within(items[key], items[key]);
    } else {
      WalkStored(Node(items), Split(key));
    }
  }

  /** What `has` answers for a list of keys: false for an empty document or an
      empty list, otherwise true exactly when every key can be looked up. */
  predicate Present(items: map<string, Value>, keys: seq<string>) {
    items != map[] && keys != [] && forall k :: k in keys ==> Lookup(items, k).Some?
  }

  /** A key with no dot that is not a top-level key cannot be found: this is
      why `get` may return its default without walking such a key. */
  lemma UndottedMiss(items: map<string, Value>, key: string)
    requires Dot !in key && !Exists(items, key)
    ensures Lookup(items, key) == None
  {
    SplitNoDot(key);
  }

  /** In an empty document no key can be found, so the emptiness test of `has`
      only changes the answer for an empty list of keys. */
  lemma EmptyFindsNothing(key: string)
    ensures Lookup(map[], key) == None
  {
  }

  /** For one key, `has` is true exactly when the key can be looked up. */
  lemma PresentOne(items: map<string, Value>, key: string)
    ensures Present(items, [key]) <==> Lookup(items, key).Some?
  {
  }

  /** `has` of a list of keys is the conjunction of `has` of each part. */
  lemma PresentConcat(items: map<string, Value>, ks: seq<string>, ls: seq<string>)
    requires ks != [] && ls != []
    ensures Present(items, ks + ls) <==> Present(items, ks) && Present(items, ls)
  {
  }

  /** `get` falls back to its default when a segment is missing: the walk
      reaches an array at depth `j` that does not hold the next segment. */
  lemma MissingSegment(items: map<string, Value>, key: string, j: nat, c: map<string, Value>)
    requires !Exists(items, key)
    requires j < |Split(key)|
    requires Walk(Node(items), Split(key)[..j]) == Some(Node(c))
    requires !Exists(c, Split(key)[j])
    ensures Lookup(items, key) == None
  {
    var segs := Split(key);
    assert segs == segs[..j] + segs[j..];
    WalkAppend(Node(items), segs[..j], segs[j..]);
  }

  /** `get` falls back to its default when the walk meets something that is
      not an array before the last segment. */
  lemma ScalarIntermediate(items: map<string, Value>, key: string, j: nat, s: Scalar)
    requires !Exists(items, key)
    requires j < |Split(key)|
    requires Walk(Node(items), Split(key)[..j]) == Some(Leaf(s))
    ensures Lookup(items, key) == None
  {
    var segs := Split(key);
    assert segs == segs[..j] + segs[j..];
    WalkAppend(Node(items), segs[..j], segs[j..]);
  }

  /** With a sentinel default stored nowhere in the document, `has(k)` is
      true exactly when `get(k, sentinel)` does not return the sentinel. */
  lemma SentinelDecides(items: map<string, Value>, key: string, sentinel: Value)
    requires !Within(sentinel, Node(items))
    ensures Lookup(items, key).Some? <==> Lookup(items, key).GetOr(sentinel) != sentinel
  {
    LookupStored(items, key);
  }
}
