/** `Jason\Document` (src/Document.php): a JSON document held as a tree of
    arrays, read and written through dotted keys. */
module Jason {
  import opened Values
  import opened Paths
  import opened Access
  import opened Update

  /** PHP's truthiness of a string: only "" and "0" are false. */
  predicate Truthy(s: string) {
    s != "" && s != "0"
  }

  /** The walk `has` and `get` both run over the segments of a key: a cursor
      that starts at `v` and moves into the entry named by each segment, and
      gives up on a scalar or a missing entry. */
  method Descend(v: Value, segs: seq<string>) returns (r: Option<Value>)
    ensures r == Walk(v, segs)
  {
    var cursor := v;
    var i := 0;
    while i < |segs|
      invariant 0 <= i <= |segs|
      invariant Walk(v, segs) == Walk(cursor, segs[i..])
    {
      assert segs[i..][0] == segs[i] && segs[i..][1..] == segs[i + 1..];
      if !cursor.Node? || !Exists(cursor.entries, segs[i]) {
        return None;
      }
      cursor := cursor.entries[segs[i]];
      i := i + 1;
    }
    return Some(cursor);
  }

  class Document {
    /** The root array of the document. */
    var items: map<string, Value>

    /** `new Document($array)` and `fromArray`: the array is the document. */
    constructor FromArray(contents: map<string, Value>)
      ensures items == contents
    {
      items := contents;
    }

    /** `new Document($string)` and `fromString`: a falsy string ("" or "0",
        and the default "") gives an empty document without decoding; any
        other string is handed to the JSON decoder. */
    constructor FromString(contents: string, decode: string -> map<string, Value>)
      ensures items == if Truthy(contents) then decode(contents) else map[]
    {
      if Truthy(contents) {
        items := decode(contents);
      } else {
        items := map[];
      }
    }

    /** `has`: false for an empty document or an empty list of keys;
        otherwise true exactly when every key is a literal top-level key or
        walks, segment by segment, to a stored value. */
    method Has(keys: seq<string>) returns (r: bool)
      ensures r == Present(items, keys)
    {
      if items == map[] || keys == [] {
        return false;
      }
      var n := 0;
      while n < |keys|
        invariant 0 <= n <= |keys|
        invariant forall k :: k in keys[..n] ==> Lookup(items, k).Some?
      {
        var key := keys[n];
        if !Exists(items, key) {
          var found := Descend(Node(items), Split(key));
          if found.None? {
            assert key in keys && Lookup(items, key).None?;
            return false;
          }
        }
        assert keys[..n + 1] == keys[..n] + [key];
        n := n + 1;
      }
      assert keys[..n] == keys;
      return true;
    }

    /** `has` of one key: the key is a literal top-level key or walks to a
        stored value; the emptiness test changes nothing here. */
    method HasKey(key: string) returns (r: bool)
      ensures r <==> Lookup(items, key).Some?
    {
      r := Has([key]);
      PresentOne(items, key);
    }

    /** `get`: the entry under a literal top-level key if there is one;
        otherwise the value the key's segments walk to; otherwise `fallback`,
        which is `null` when the caller gives none. */
    method Get(key: string, fallback: Value := NullValue) returns (r: Value)
      ensures r == Lookup(items, key).GetOr(fallback)
    {
      if Exists(items, key) {
        return items[key];
      }
      if Dot !in key {
        UndottedMiss(items, key);
        return fallback;
      }
      var found := Descend(Node(items), Split(key));
      if found.None? {
        return fallback;
      }
      return found.value;
    }

    /** `set` of one key: walks the segments from the root, turning every
        slot on the way that is not an array into an empty one, and puts
        `value` in the last slot (`null` when the caller gives none).
        Returns the document for chaining.
        PHP does this through a reference that moves down the tree; here the
        arrays met on the way down are recorded and then rebuilt bottom-up. */
    method Set(key: string, value: Value := NullValue) returns (self: Document)
      modifies this
      ensures items == SetPath(old(items), Split(key), value)
      ensures self == this
    {
      var segs := Split(key);
      var n := |segs|;
      // Down: level i holds the array the walk is in before segment i.
      var levels := [items];
      var i := 0;
      while i < n - 1
        invariant 0 <= i <= n - 1
        invariant |levels| == i + 1 && levels[0] == items
        invariant forall j :: 0 <= j < i ==> levels[j + 1] == Container(levels[j], segs[j])
      {
        levels := levels + [Container(levels[i], segs[i])];
        i := i + 1;
      }
      // Up: assign the value in the last slot, then store each rebuilt array
      // back into the slot of the level above it.
      var acc := levels[n - 1][segs[n - 1] := value];
      assert segs[n - 1..] == [segs[n - 1]];
      while i > 0
        invariant 0 <= i <= n - 1
        invariant acc == SetPath(levels[i], segs[i..], value)
      {
        i := i - 1;
        assert segs[i..][0] == segs[i] && segs[i..][1..] == segs[i + 1..];
        acc := levels[i][segs[i] := Node(acc)];
      }
      assert segs[0..] == segs;
      items := acc;
      self := this;
    }

    /** `set` of a map of keys to values: `set` of each pair in order, so a
        later pair overrides an earlier one. Returns the document. */
    method SetMany(pairs: seq<(string, Value)>) returns (self: Document)
      modifies this
      ensures items == SetAll(old(items), pairs)
      ensures self == this
    {
      var i := 0;
      while i < |pairs|
        invariant 0 <= i <= |pairs|
        invariant items == SetAll(old(items), pairs[..i])
      {
        assert pairs[..i + 1][..i] == pairs[..i];
        self := Set(pairs[i].0, pairs[i].1);
        i := i + 1;
      }
      assert pairs[..i] == pairs;
      self := this;
    }
  }
}
