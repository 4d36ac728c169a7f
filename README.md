# Jason document: the dotted-path accessor

A model of `Jason\Document` from jason-php. It holds a JSON document as a tree of PHP arrays in its one field, `$items`. The model covers the accessor engine over that tree:

- `has` answers whether one key, or every key of a list, is present.
- `get` returns the value under a key, or a default.
- `set` writes a value under one key, or under each key of a map in turn.

A key is either a literal top-level key or a dotted path such as `order.items.1.sku`.

## Representation

- **Tree.** A PHP array is a `Values.Value.Node` over a `map<string, Value>`. A scalar is a `Leaf`: null, a boolean, an integer or a string.
- **Keys.** PHP stores a canonical decimal string key such as `"1"` as the integer `1`. So a list is a node whose keys are `"0"`, `"1"`, and so on. That is why `order.items.1.sku` reaches the second line of an order.
- **Segments.** `Paths.Split` is `explode('.', $key)`. It keeps empty segments, and it gives `[""]` for the empty key. `Paths.Join` is its inverse.
- **Presence.** `Access.Exists` is `exists`, that is `array_key_exists`. A key that holds `null` counts as present.
- **Lookup.** `Access.Walk` descends one segment at a time. `Access.Lookup` is the lookup shared by `has` and `get`: a literal top-level key first, then a walk of the segments.
- **Writing.** `Update.Container` is the array `set` descends into. The slot becomes `[]` when `isset` or `is_array` fails: a missing key, a `null` or a scalar. `Update.SetPath` is the root after one `set`, and `Update.SetAll` is the root after the map form.
- **The class.** `Jason.Document` keeps `items` and has the operations as methods:
  - `Has` and `Get` only read, and are loops proved against `Lookup`.
  - `Set` and `SetMany` change `items`, and are proved against `SetPath` and `SetAll`.
  - `Descend` is the segment loop that `has` and `get` both contain.
- **The manipulator scenario.** Module `Scenario` restates `testManipulators` from tests/DocumentTest.php step by step, as lemmas and methods that the verifier proves.

The asymmetries between reading and writing are stated and proved:

- `has` and `get` prefer a literal dotted key; `set` always walks the segments (`Update.SetThenLookup`, `Scenario.LiteralKeyWins`).
- A stored `null` is present for `has` and `get`, yet `set` walks through it by replacing it (`Update.NullIsPresentButReplaced`).

Two facts of the code that the model keeps:

- The constructor does not decode the string `"0"`. PHP treats `"0"` as false, so the document is empty (src/Document.php:33).
- A numeric segment is read the same way in a list and in a map. PHP normalises the key itself, so both are the same string key here.

## Model

| member | source | states |
|---|---|---|
| `Paths.Split` | src/Document.php:154 | `explode` always yields at least one segment, even for the empty key |
| `Paths.JoinSplit` | src/Document.php:154 | exploding a key loses nothing: no segment holds a dot, and joining the segments with dots gives the key back |
| `Paths.SplitJoin` | src/Document.php:200 | exploding dot-joined, dot-free segments gives the same segments back |
| `Paths.SplitNoDot` | src/Document.php:173-174 | a key without a dot is exactly one segment, the key itself |
| `Paths.SplitDotted` | src/Document.php:177 | a key with a dot has at least two segments, and none of them equals the key |
| `Access.WalkStored` | src/Document.php:177-183 | what a walk of segments finds is stored inside the value the walk started from |
| `Access.WalkAppend` | src/Document.php:177-182 | walking `p + q` is walking `p` and then walking `q` from where `p` ended; a failed first leg fails the whole walk |
| `Access.PathOnlyWithoutLiteral` | src/Document.php:150-154 | the literal check of `has` and `get` changes the answer only for a key that contains a dot and is stored literally at the root |
| `Access.LookupStored` | src/Document.php:150-159 | whatever `has` or `get` finds is a value stored in the document |
| `Access.UndottedMiss` | src/Document.php:173-175 | a key with no dot that is not a top-level key cannot be found, so `get` may return the default without walking it |
| `Access.EmptyFindsNothing` | src/Document.php:146-148 | no key can be found in an empty document |
| `Access.PresentOne` | src/Document.php:145-148 | for a single key, `has` is true exactly when the key can be looked up; the empty-document test changes nothing there |
| `Access.PresentConcat` | src/Document.php:149-161 | `has` of the keys of two non-empty lists together is true iff `has` of each list is true |
| `Access.MissingSegment` | src/Document.php:177-180 | `get` finds nothing when the walk reaches an array that does not hold the next segment |
| `Access.ScalarIntermediate` | src/Document.php:177-180 | `get` finds nothing when the walk meets a non-array before the last segment |
| `Access.SentinelDecides` | src/Document.php:150-183 | with a default stored nowhere in the document, `has(k)` is true iff `get(k, default)` does not return the default |
| `Update.SetPath` | src/Document.php:198-207 | after `set` the root holds its old keys plus the first segment, and every other root entry is unchanged |
| `Update.SetPathReaches` | src/Document.php:198-207 | after `set`, walking the key's segments from the root reaches the value set |
| `Update.SetPathLevel` | src/Document.php:199-204 | at each depth of the path, the array left behind is the array that was there (or `[]`) with only the next segment rewritten |
| `Update.SetKeepsSiblings` | src/Document.php:199-204 | every entry beside the path, in an array that was already there, walks to the same value as before |
| `Update.SetReplacesNonArrays` | src/Document.php:201-202 | a missing, `null` or scalar intermediate becomes an array holding only the next segment |
| `Update.SetUndotted` | src/Document.php:198-207 | `set` of a key without a dot assigns it at the root and overwrites any entry there |
| `Update.SetPathTwice` | src/Document.php:198-207 | setting the same key twice leaves the tree the second call alone would leave |
| `Update.SetThenLookup` | src/Document.php:170-207 | after `set(k, v)`, `get(k)` returns `v`, unless `k` has a dot and was already a literal top-level key, whose old value `get` still returns |
| `Update.NullIsPresentButReplaced` | src/Document.php:201-202 | a stored `null` under an undotted key is found by `has` and `get`, yet `set` of a deeper path through it replaces it by an array |
| `Update.SetAllLastWins` | src/Document.php:192-195 | after the map form of `set`, the last pair's key walks to its value |
| `Update.SetAllAppend` | src/Document.php:192-195 | applying pairs in two batches is the same as applying them all in order |
| `Jason.Descend` | src/Document.php:154-159 | the cursor loop over segments returns exactly what `Walk` finds |
| `Jason.Document.FromArray` | src/Document.php:29-31 | an array given to the constructor becomes the document as it is |
| `Jason.Document.FromString` | src/Document.php:32-34 | the falsy strings `""` and `"0"` give an empty document; any other string gives what the decoder returns |
| `Jason.Document.Has` | src/Document.php:144-162 | false for an empty document or an empty key list; otherwise true iff every key is a literal top-level key or walks to a stored value |
| `Jason.Document.HasKey` | src/Document.php:145 | `has` of a single key is true iff that key can be looked up |
| `Jason.Document.Get` | src/Document.php:169-184 | returns the literal top-level entry, else the walked value, else the default (null when omitted) |
| `Jason.Document.Set` | src/Document.php:191-208 | the new root is `SetPath` of the old root and the key's segments (the value defaults to `null`), and the call returns the document itself |
| `Jason.Document.SetMany` | src/Document.php:192-196 | the new root is `set` of each pair in order over the old root, and the call returns the document itself |
| `Scenario.LiteralKeyWins` | src/Document.php:170-172 | with both `"a.b"` at the root and a nested `a` → `b`, the lookup of `a.b` returns the literal entry |
| `Scenario.BuildsOrder` | tests/DocumentTest.php:170-171 | the two dotted `set` calls on an empty document build the expected order tree |
| `Scenario.FindsOrderId` | tests/DocumentTest.php:173 | `order.id` resolves in that tree |
| `Scenario.MissesOrderNotes` | tests/DocumentTest.php:174 | `order.notes` does not resolve |
| `Scenario.FindsOrderItems` | tests/DocumentTest.php:176 | `order.items` resolves to the list of order lines |
| `Scenario.FindsSecondSku` | tests/DocumentTest.php:177 | `order.items.1.sku` reaches the second line's sku through the list index `1` |
| `Scenario.MissesSecondNotes` | tests/DocumentTest.php:178 | `order.items.1.notes` does not resolve, so `get` returns null |
| `Scenario.StoresCustomer` | tests/DocumentTest.php:181 | the map form of `set` with one undotted key stores it at the root |
| `Scenario.FindsCustomerName` | tests/DocumentTest.php:182 | `customer.name` then resolves to the stored name |

## Left out

- `fromFile`, `fromStream`, `toFile` and `toStream` are not modelled. They do filesystem and stream I/O. The inverted existence test of `toFile` (src/Document.php:114) belongs to that I/O.
- `decode`, `encode` and `toString` are not modelled. They are PHP's JSON codec. `FromString` takes the decoder as a function parameter, so a decoding failure and a JSON text that decodes to a non-array are not modelled.
- `toArray` is not modelled as its own member. It returns `$items`, which the model reads directly as `Document.items`.
- Integer keys are not modelled. This covers `has`, `get` and `set` called with an `int`. It also covers the map form of `set` given a key that PHP turns into an integer: there the segment loop is skipped and line 207 assigns the value to the whole root. The model takes every key as a string.
- Key order within an array is not modelled, because maps are unordered. PHP keeps insertion order, and `set` appends a new key last. Only the JSON text and iteration order depend on this, and no path operation does.
- Floating-point scalars are not modelled; scalars are null, booleans, integers and strings.
- Jason.Document.Set: does not write through a reference that moves down the tree as PHP does. It records the arrays met on the way down and rebuilds them bottom-up. The resulting root is the same, and no other reference to the tree exists.
