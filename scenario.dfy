/** The manipulator scenario of tests/DocumentTest.php:166-183 and the
    literal-key precedence example, replayed against the model. */
module Scenario {
  import opened Values
  import opened Paths
  import opened Access
  import opened Update
  import opened Jason

  /* The segments of each dotted key the scenario uses, one lemma per key so
     that the solver meets one literal string at a time. */
  lemma OrderId() ensures Split("order.id") == ["order", "id"] {
    SplitJoin(["order", "id"]);
    assert Join(["order", "id"]) == "order.id";
  }
  lemma OrderItems() ensures Split("order.items") == ["order", "items"] {
    SplitJoin(["order", "items"]);
    assert Join(["order", "items"]) == "order.items";
  }
  lemma OrderNotes() ensures Split("order.notes") == ["order", "notes"] {
    SplitJoin(["order", "notes"]);
    assert Join(["order", "notes"]) == "order.notes";
  }
  lemma SecondSku() ensures Split("order.items.1.sku") == ["order", "items", "1", "sku"] {
    SplitJoin(["order", "items", "1", "sku"]);
    assert Join(["order", "items", "1", "sku"]) == "order.items.1.sku";
  }
  lemma SecondNotes() ensures Split("order.items.1.notes") == ["order", "items", "1", "notes"] {
    SplitJoin(["order", "items", "1", "notes"]);
    assert Join(["order", "items", "1", "notes"]) == "order.items.1.notes";
  }
  lemma CustomerName() ensures Split("customer.name") == ["customer", "name"] {
    SplitJoin(["customer", "name"]);
    assert Join(["customer", "name"]) == "customer.name";
  }

  /** A top-level key stored literally as "a.b" wins over the nested a -> b. */
  lemma LiteralKeyWins()
    ensures var items := map["a.b" := Leaf(Int(1)), "a" := Node(map["b" := Leaf(Int(2))])];
            Lookup(items, "a.b") == Some(Leaf(Int(1))) && Walk(Node(items), Split("a.b")) == Some(Leaf(Int(2)))
  {
    SplitJoin(["a", "b"]);
    assert Join(["a", "b"]) == "a.b";
  }

  const Id: Value := Leaf(Str("1234567890"))
  const First: Value := Node(map["sku" := Leaf(Str("12345")), "quantity" := Leaf(Int(3))])
  const Second: Value := Node(map["sku" := Leaf(Str("67890")), "quantity" := Leaf(Int(1))])
  const Lines: Value := Node(map["0" := First, "1" := Second])
  const Order: map<string, Value> := map["order" := Node(map["id" := Id, "items" := Lines])]
  const Customer: Value := Node(map["name" := Leaf(Str("Adeel Solangi"))])

  lemma BuildsOrder()
    ensures SetPath(map[], Split("order.id"), Id) == map["order" := Node(map["id" := Id])]
    ensures SetPath(map["order" := Node(map["id" := Id])], Split("order.items"), Lines) == Order
  {
    OrderId();
    OrderItems();
    assert ["order", "id"][1..] == ["id"];
    assert ["order", "items"][1..] == ["items"];
  }

  lemma FindsOrderId()
    ensures Lookup(Order, "order.id") == Some(Id)
  {
    OrderId();
    var o := Order["order"];
    assert ["order", "id"][1..] == ["id"];
    assert Walk(o, ["id"]) == Some(Id);
    assert Walk(Node(Order), ["order", "id"]) == Walk(o, ["id"]);
  }

  lemma MissesOrderNotes()
    ensures Lookup(Order, "order.notes") == None
  {
    OrderNotes();
    var o := Order["order"];
    assert ["order", "notes"][1..] == ["notes"];
    assert Walk(o, ["notes"]) == None;
    assert Walk(Node(Order), ["order", "notes"]) == Walk(o, ["notes"]);
  }

  lemma FindsOrderItems()
    ensures Lookup(Order, "order.items") == Some(Lines)
  {
    OrderItems();
    var o := Order["order"];
    assert "order.items" !in Order;
    assert ["order", "items"][1..] == ["items"];
    assert o.entries["items"] == Lines;
    assert Walk(o, ["items"]) == Walk(Lines, []);
    assert Walk(Node(Order), ["order", "items"]) == Walk(o, ["items"]);
  }

  /** One step of a walk into an array that holds the segment. */
  lemma WalkInto(m: map<string, Value>, seg: string, rest: seq<string>)
    requires seg in m
    ensures Walk(Node(m), [seg] + rest) == Walk(m[seg], rest)
  {
    assert ([seg] + rest)[0] == seg && ([seg] + rest)[1..] == rest;
  }

  /** The walk from the root through the second order line. */
  lemma IntoSecond(leaf: string)
    ensures Walk(Node(Order), ["order", "items", "1", leaf]) == Walk(Second, [leaf])
  {
    WalkInto(Lines.entries, "1", [leaf]);
    assert ["1"] + [leaf] == ["1", leaf];
    WalkInto(Order["order"].entries, "items", ["1", leaf]);
    assert ["items"] + ["1", leaf] == ["items", "1", leaf];
    WalkInto(Order, "order", ["items", "1", leaf]);
    assert ["order"] + ["items", "1", leaf] == ["order", "items", "1", leaf];
  }

  lemma FindsSecondSku()
    ensures Lookup(Order, "order.items.1.sku") == Some(Leaf(Str("67890")))
  {
    SecondSku();
    IntoSecond("sku");
    WalkInto(Second.entries, "sku", []);
    assert ["sku"] + [] == ["sku"];
  }

  lemma MissesSecondNotes()
    ensures Lookup(Order, "order.items.1.notes") == None
  {
    SecondNotes();
    IntoSecond("notes");
  }

  lemma StoresCustomer()
    ensures SetAll(Order, [("customer", Customer)]) == Order["customer" := Customer]
  {
    SplitNoDot("customer");
    assert [("customer", Customer)][..0] == [];
  }

  lemma FindsCustomerName()
    ensures Lookup(Order["customer" := Customer], "customer.name") == Some(Leaf(Str("Adeel Solangi")))
  {
    CustomerName();
    var m := Order["customer" := Customer];
    assert "customer.name" !in m;
    assert ["customer", "name"][1..] == ["name"];
    assert Walk(Customer, ["name"]) == Some(Leaf(Str("Adeel Solangi")));
    assert Walk(Node(m), ["customer", "name"]) == Walk(Customer, ["name"]);
  }

  /** tests/DocumentTest.php:166-183, in four steps that share one document. */
  method Manipulators() {
    var doc := new Document.FromString("", _ => map[]);
    BuildOrder(doc);
    CheckPresence(doc);
    CheckArrays(doc);
    CheckSku(doc);
    CheckMissingEntry(doc);
    CheckDefault(doc);
    AddCustomer(doc);
  }

  /** An empty document has no "order"; two dotted `set` calls create it. */
  method BuildOrder(doc: Document)
    requires doc.items == map[]
    modifies doc
    ensures doc.items == Order
  {
    EmptyFindsNothing("order");
    var present := doc.HasKey("order");
    assert !present;
    BuildsOrder();
    var _ := doc.Set("order.id", Id);
    var _ := doc.Set("order.items", Lines);
  }

  /** `has` of a plain key, of a dotted key that resolves and of one that does not. */
  method CheckPresence(doc: Document)
    requires doc.items == Order
  {
    var present := doc.HasKey("order");
    assert present;
    FindsOrderId();
    present := doc.HasKey("order.id");
    assert present;
    MissesOrderNotes();
    present := doc.HasKey("order.notes");
    assert !present;
  }

  /** `get` of an array under a plain key and under a dotted key. */
  method CheckArrays(doc: Document)
    requires doc.items == Order
  {
    var v := doc.Get("order");
    assert v.Node?;
    FindsOrderItems();
    v := doc.Get("order.items");
    assert v.Node?;
  }

  /** `get` of a list entry by its index. */
  method CheckSku(doc: Document)
    requires doc.items == Order
  {
    FindsSecondSku();
    var v := doc.Get("order.items.1.sku");
    assert v == Leaf(Str("67890"));
  }

  /** `get` of a missing entry gives `null`. */
  method CheckMissingEntry(doc: Document)
    requires doc.items == Order
  {
    MissesSecondNotes();
    var v := doc.Get("order.items.1.notes");
    assert v == NullValue;
  }

  /** `get` of a missing key gives the default passed in. */
  method CheckDefault(doc: Document)
    requires doc.items == Order
  {
    UndottedMiss(Order, "status");
    var v := doc.Get("status", Leaf(Str("pending")));
    assert v == Leaf(Str("pending"));
  }

  /** The map form of `set`, then a dotted `get` into what it stored. */
  method AddCustomer(doc: Document)
    requires doc.items == Order
    modifies doc
  {
    StoresCustomer();
    FindsCustomerName();
    var _ := doc.SetMany([("customer", Customer)]);
    var v := doc.Get("customer.name");
    assert v == Leaf(Str("Adeel Solangi"));
  }
}
