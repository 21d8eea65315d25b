/** The selection logic of frontend/src/components/orders/OrderList.tsx: the
    search filter, which of its four views the list shows, and the product
    label. */
module OrderList {
  import opened Text
  import opened Types

  /** The callback of `orders.filter`: the decimal id includes the lowered
      term, or the lowered description does. */
  predicate Matches(order: OrderWithProducts, searchTerm: string)
  {
    var searchLower := ToLower(searchTerm);
    Includes(IntToString(order.id), searchLower) || Includes(ToLower(order.orderDescription), searchLower)
  }

  /** `a` is `b` with some elements left out and the rest in their order. */
  predicate Subsequence<T(==)>(a: seq<T>, b: seq<T>)
    decreases |b|
  {
    if a == [] then true
    else if b == [] then false
    else (a[0] == b[0] && Subsequence(a[1..], b[1..])) || Subsequence(a, b[1..])
  }

  /** `filteredOrders`: an order is kept iff it matches the search term. */
  function FilterOrders(orders: seq<OrderWithProducts>, searchTerm: string): (r: seq<OrderWithProducts>)
    ensures |r| <= |orders|
    ensures forall o :: o in r <==> o in orders && Matches(o, searchTerm)
  {
    if orders == [] then []
    else (if Matches(orders[0], searchTerm) then [orders[0]] else []) + FilterOrders(orders[1..], searchTerm)
  }

  /** The filter keeps the orders in their given order. */
  lemma {:induction false} FilterSubsequence(orders: seq<OrderWithProducts>, searchTerm: string)
    ensures Subsequence(FilterOrders(orders, searchTerm), orders)
  {
    if orders != [] {
      FilterSubsequence(orders[1..], searchTerm);
      var rest := FilterOrders(orders[1..], searchTerm);
      if Matches(orders[0], searchTerm) {
        var r := [orders[0]] + rest;
        assert r[0] == orders[0] && r[1..] == rest;
      } else {
        assert FilterOrders(orders, searchTerm) == rest;
      }
    }
  }

  /** An empty search keeps every order. */
  lemma {:induction false} EmptyTermKeepsAll(orders: seq<OrderWithProducts>)
    ensures FilterOrders(orders, "") == orders
  {
    if orders != [] {
      assert ToLower("") == "";
      IncludesEmpty(IntToString(orders[0].id));
      assert Matches(orders[0], "");
      EmptyTermKeepsAll(orders[1..]);
    }
  }

  /** Only the lowered term counts: terms that differ in the case of their
      letters select the same orders. */
  lemma {:induction false} FilterIgnoresCase(orders: seq<OrderWithProducts>, a: string, b: string)
    requires ToLower(a) == ToLower(b)
    ensures FilterOrders(orders, a) == FilterOrders(orders, b)
  {
    if orders != [] {
      assert Matches(orders[0], a) == Matches(orders[0], b);
      FilterIgnoresCase(orders[1..], a, b);
    }
  }

  /** What the list renders. */
  datatype View = Spinner | NoOrders | NoMatches | Table(rows: seq<OrderWithProducts>)

  /** The early returns of the component, in order: the spinner while
      loading, then 'No orders found' for an empty list, then 'No matching
      orders found' when the search keeps nothing, then the table. */
  function Display(orders: seq<OrderWithProducts>, isLoading: bool, searchTerm: string): (v: View)
    ensures v.Spinner? <==> isLoading
    ensures v.NoOrders? <==> !isLoading && |orders| == 0
    ensures v.NoMatches? <==> !isLoading && |orders| > 0 && |FilterOrders(orders, searchTerm)| == 0
    ensures v.Table? ==> v.rows == FilterOrders(orders, searchTerm) && |v.rows| > 0
  {
    var filtered := FilterOrders(orders, searchTerm);
    if isLoading then Spinner
    else if |orders| == 0 then NoOrders
    else if |filtered| == 0 then NoMatches
    else Table(filtered)
  }

  /** Without a search term a loaded, non-empty list shows every order, in
      the given order. */
  lemma EmptySearchShowsAll(orders: seq<OrderWithProducts>)
    requires |orders| > 0
    ensures Display(orders, false, "") == Table(orders)
  {
    EmptyTermKeepsAll(orders);
  }

  /** `order.product_count === 1 ? 'product' : 'products'`. */
  function ProductLabel(count: int): (r: string)
    ensures r == "product" <==> count == 1
    ensures r == "products" <==> count != 1
  {
    if count == 1 then "product" else "products"
  }

  /** The badge text `{count} {label}`. */
  function Badge(count: nat): string
  {
    NatToString(count) + " " + ProductLabel(count)
  }

  // The orders of frontend/src/components/orders/OrderList.test.tsx.
  const OfficeOrder := OrderWithProducts(1, "Office Supplies Order", 0, [])
  const ElectronicsOrder := OrderWithProducts(2, "Electronics Order", 1, [])
  const MockOrders := [OfficeOrder, ElectronicsOrder]

  lemma LoweredOffice()
    ensures ToLower(OfficeOrder.orderDescription) == "office supplies order"
    ensures IntToString(OfficeOrder.id) == "1"
  {
    assert ToLower("Office Supplies Order") == "office supplies order";
  }

  lemma LoweredElectronics()
    ensures ToLower(ElectronicsOrder.orderDescription) == "electronics order"
    ensures IntToString(ElectronicsOrder.id) == "2"
  {
    assert ToLower("Electronics Order") == "electronics order";
  }

  /** The badges of the two mock orders. */
  lemma BadgeExamples()
    ensures Badge(1) == "1 product" && Badge(3) == "3 products"
  {
    assert NatToString(1) == "1" && NatToString(3) == "3";
  }

  /** The filter over two orders. */
  lemma FilterPair(a: OrderWithProducts, b: OrderWithProducts, searchTerm: string)
    ensures FilterOrders([a, b], searchTerm)
         == (if Matches(a, searchTerm) then [a] else []) + (if Matches(b, searchTerm) then [b] else [])
  {
    assert [a, b][1..] == [b];
    assert [b][1..] == [];
  }

  lemma OfficeMatchesOne()
    ensures Matches(OfficeOrder, "1")
  {
    assert IntToString(OfficeOrder.id) == "1";
    assert ToLower("1") == "1";
    assert Includes("1", "1");
  }

  /** An order does not match a term whose lowered form holds a character
      missing from the order's id text, and one missing from its lowered
      description. */
  lemma NoMatchWithout(order: OrderWithProducts, searchTerm: string, c: char, d: char)
    requires c in ToLower(searchTerm) && c !in IntToString(order.id)
    requires d in ToLower(searchTerm) && d !in ToLower(order.orderDescription)
    ensures !Matches(order, searchTerm)
  {
    MissingChar(IntToString(order.id), ToLower(searchTerm), c);
    MissingChar(ToLower(order.orderDescription), ToLower(searchTerm), d);
  }

  /** The first mock order misses a lowered term holding a character absent
      from `1` and one absent from `office supplies order`. */
  lemma OfficeMisses(searchTerm: string, c: char, d: char)
    requires ToLower(searchTerm) == searchTerm
    requires c in searchTerm && c !in "1" && d in searchTerm && d !in "office supplies order"
    ensures !Matches(OfficeOrder, searchTerm)
  {
    LoweredOffice();
    NoMatchWithout(OfficeOrder, searchTerm, c, d);
  }

  /** The second mock order misses a lowered term holding a character absent
      from `2` and one absent from `electronics order`. */
  lemma ElectronicsMisses(searchTerm: string, c: char, d: char)
    requires ToLower(searchTerm) == searchTerm
    requires c in searchTerm && c !in "2" && d in searchTerm && d !in "electronics order"
    ensures !Matches(ElectronicsOrder, searchTerm)
  {
    LoweredElectronics();
    NoMatchWithout(ElectronicsOrder, searchTerm, c, d);
  }

  lemma ElectronicsMatches()
    ensures Matches(ElectronicsOrder, "electronics")
  {
    LoweredElectronics();
    assert ToLower("electronics") == "electronics";
    assert "electronics" <= "electronics order";
  }

  lemma OfficeNotNonexistent()
    ensures !Matches(OfficeOrder, "nonexistent")
  {
    assert ToLower("nonexistent") == "nonexistent";
    OfficeMisses("nonexistent", 'x', 'x');
  }

  lemma ElectronicsNotNonexistent()
    ensures !Matches(ElectronicsOrder, "nonexistent")
  {
    assert ToLower("nonexistent") == "nonexistent";
    ElectronicsMisses("nonexistent", 'x', 'x');
  }

  /** Searching "1" keeps the first order only. */
  lemma SearchById()
    ensures FilterOrders(MockOrders, "1") == [OfficeOrder]
  {
    OfficeMatchesOne();
    assert ToLower("1") == "1";
    ElectronicsMisses("1", '1', '1');
    FilterPair(OfficeOrder, ElectronicsOrder, "1");
  }

  /** Searching "electronics" keeps the second order only. */
  lemma SearchByDescription()
    ensures FilterOrders(MockOrders, "electronics") == [ElectronicsOrder]
  {
    assert ToLower("electronics") == "electronics";
    OfficeMisses("electronics", 'e', 't');
    ElectronicsMatches();
    FilterPair(OfficeOrder, ElectronicsOrder, "electronics");
  }

  /** Searching "nonexistent" shows 'No matching orders found'. */
  lemma SearchWithoutResults()
    ensures Display(MockOrders, false, "nonexistent") == NoMatches
  {
    OfficeNotNonexistent();
    ElectronicsNotNonexistent();
    FilterPair(OfficeOrder, ElectronicsOrder, "nonexistent");
  }

  /** Searching "OFFICE" finds 'Office Supplies Order'. */
  lemma SearchIgnoresCase()
    ensures OfficeOrder in FilterOrders(MockOrders, "OFFICE")
  {
    LoweredOffice();
    assert ToLower("OFFICE") == "office";
    assert "office" <= "office supplies order";
  }
}
