/** The read-only product queries (backend/src/repositories/productRepository.ts),
    as functions of the `products` table. */
module ProductRepository {
  import opened Types
  import opened Schema

  predicate IsLeast(m: int, s: set<int>)
  {
    m in s && forall y | y in s :: m <= y
  }

  lemma LeastOfAdd(x: int, rest: set<int>, r: int)
    requires IsLeast(r, rest)
    ensures IsLeast(if x < r then x else r, rest + {x})
  {
  }

  lemma Element(s: set<int>) returns (x: int)
    requires |s| > 0
    ensures x in s
  {
    if forall y :: y !in s {
      assert false;
    }
    x :| x in s;
  }

  /** Every finite non-empty set of integers has a least element. */
  lemma {:induction false} LeastExists(s: set<int>)
    requires |s| > 0
    ensures exists m :: IsLeast(m, s)
    decreases |s|
  {
    var x := Element(s);
    var rest := s - {x};
    assert s == rest + {x};
    if |rest| == 0 {
      assert rest == {};
      assert IsLeast(x, s);
    } else {
      LeastExists(rest);
      var r :| IsLeast(r, rest);
      LeastOfAdd(x, rest, r);
    }
  }

  function Least(s: set<int>): (m: int)
    requires |s| > 0
    ensures IsLeast(m, s)
  {
    LeastExists(s);
    var m :| IsLeast(m, s);
    m
  }

  /** `r` lists the elements of `s` once each, in ascending order. */
  predicate ListsAscending(r: seq<int>, s: set<int>)
  {
    && |r| == |s|
    && (forall k | 0 <= k < |r| :: r[k] in s)
    && (forall x | x in s :: x in r)
    && (forall i, j | 0 <= i < j < |r| :: r[i] < r[j])
  }

  /** The least element followed by the rest in ascending order lists the
      whole set in ascending order. */
  lemma LeastThenRest(m: int, s: set<int>, rest: seq<int>)
    requires IsLeast(m, s) && ListsAscending(rest, s - {m})
    ensures ListsAscending([m] + rest, s)
  {
    var r := [m] + rest;
    assert |s - {m}| == |s| - 1;
    assert forall k | 0 < k < |r| :: r[k] == rest[k - 1];
    assert forall x | x in s :: x == m || x in rest;
  }

  /** The elements of a finite set of integers in ascending order. */
  function Ascending(s: set<int>): (r: seq<int>)
    ensures |r| == |s|
    ensures forall k | 0 <= k < |r| :: r[k] in s
    ensures forall x | x in s :: x in r
    ensures forall i, j | 0 <= i < j < |r| :: r[i] < r[j]
    decreases |s|
  {
    if |s| == 0 then []
    else
      var m := Least(s);
      var rest := Ascending(s - {m});
      LeastThenRest(m, s, rest);
      [m] + rest
  }

  function AsProduct(products: map<ProductId, ProductRecord>, id: ProductId): (p: Product)
    requires id in products
  {
    Product(id, products[id].name, products[id].description)
  }

  /** `SELECT id, product_name, product_description FROM products ORDER BY id`:
      every product exactly once, ids strictly ascending, columns as stored. */
  function FindAll(products: map<ProductId, ProductRecord>): (r: seq<Product>)
    ensures |r| == |products|
    ensures forall i, j | 0 <= i < j < |r| :: r[i].id < r[j].id
    ensures forall k | 0 <= k < |r| :: r[k].id in products && r[k] == AsProduct(products, r[k].id)
    ensures forall id | id in products :: id in ProductIdsOf(r)
  {
    var ids := Ascending(products.Keys);
    var r := seq(|ids|, k requires 0 <= k < |ids| => AsProduct(products, ids[k]));
    assert ProductIdsOf(r) == ids;
    r
  }

  /** The distinct values of an id list. */
  function Distinct(ids: seq<ProductId>): set<ProductId>
  {
    set p | p in ids
  }

  predicate NoDuplicates(ids: seq<ProductId>)
  {
    forall i, j | 0 <= i < j < |ids| :: ids[i] != ids[j]
  }

  /** `SELECT COUNT(*) FROM products WHERE id = ANY($1)`: `id` is the primary
      key, so each product row is counted once however often the list names it. */
  function CountByIds(products: map<ProductId, ProductRecord>, ids: seq<ProductId>): nat
  {
    |set p | p in ids && p in products|
  }

  /** `existsAll`: the count equals the length of the list. */
  function ExistsAll(products: map<ProductId, ProductRecord>, ids: seq<ProductId>): bool
  {
    CountByIds(products, ids) == |ids|
  }

  /** A list has at most as many distinct values as elements, and exactly as
      many iff it has no duplicates. */
  lemma {:induction false} DistinctCount(ids: seq<ProductId>)
    ensures |Distinct(ids)| <= |ids|
    ensures |Distinct(ids)| == |ids| <==> NoDuplicates(ids)
  {
    if ids != [] {
      var rest := ids[1..];
      DistinctCount(rest);
      assert Distinct(ids) == {ids[0]} + Distinct(rest) by {
        assert forall p | p in ids :: p == ids[0] || p in rest;
      }
      if ids[0] in Distinct(rest) {
        var j :| 0 <= j < |rest| && rest[j] == ids[0];
        assert ids[0] == ids[j + 1];
        assert !NoDuplicates(ids);
        assert Distinct(ids) == Distinct(rest);
      } else {
        assert |Distinct(ids)| == 1 + |Distinct(rest)|;
        assert NoDuplicates(ids) <==> NoDuplicates(rest) by {
          if NoDuplicates(rest) {
            forall i, j | 0 <= i < j < |ids| ensures ids[i] != ids[j] {
              if i == 0 {
                assert ids[j] == rest[j - 1];
              } else {
                assert ids[i] == rest[i - 1] && ids[j] == rest[j - 1];
              }
            }
          }
          if NoDuplicates(ids) {
            forall i, j | 0 <= i < j < |rest| ensures rest[i] != rest[j] {
              assert rest[i] == ids[i + 1] && rest[j] == ids[j + 1];
            }
          }
        }
      }
    }
  }

  /** The count never exceeds the number of distinct ids, which never exceeds
      the length of the list. */
  lemma CountBounds(products: map<ProductId, ProductRecord>, ids: seq<ProductId>)
    ensures CountByIds(products, ids) <= |Distinct(ids)| <= |ids|
    ensures CountByIds(products, ids) == |Distinct(ids) * products.Keys|
  {
    var hit := Distinct(ids) * products.Keys;
    assert (set p | p in ids && p in products) == hit;
    assert |Distinct(ids)| == |hit| + |Distinct(ids) - hit|;
    DistinctCount(ids);
  }

  /** `existsAll` passes iff every listed id is a product and no id is listed
      twice: a duplicate makes the count fall short of the length. */
  lemma ExistsAllIff(products: map<ProductId, ProductRecord>, ids: seq<ProductId>)
    ensures ExistsAll(products, ids) <==> (forall k | 0 <= k < |ids| :: ids[k] in products) && NoDuplicates(ids)
  {
    var d := Distinct(ids);
    var hit := d * products.Keys;
    CountBounds(products, ids);
    DistinctCount(ids);
    if ExistsAll(products, ids) {
      assert |hit| == |d|;
      assert d - hit == {} by {
        assert |d| == |hit| + |d - hit|;
      }
      forall k | 0 <= k < |ids| ensures ids[k] in products {
        assert ids[k] in d;
      }
    }
    if (forall k | 0 <= k < |ids| :: ids[k] in products) && NoDuplicates(ids) {
      assert hit == d;
    }
  }

  /** A list with a repeated id never passes `existsAll`. */
  lemma DuplicateFails(products: map<ProductId, ProductRecord>, ids: seq<ProductId>, i: nat, j: nat)
    requires i < j < |ids| && ids[i] == ids[j]
    ensures !ExistsAll(products, ids)
  {
    ExistsAllIff(products, ids);
  }
}
