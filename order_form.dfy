/** The selection and validation logic of
    frontend/src/components/orders/OrderForm.tsx; the React form state that
    holds its values is not modelled. */
module OrderForm {
  import opened Wrappers
  import opened Text
  import opened Types
  import opened Schema
  import opened OrderRepository
  import opened OrderService
  import opened OrderValidators
  import ProductRepository

  /** `OrderFormData`. */
  datatype FormData = FormData(orderDescription: string, productIds: seq<ProductId>)

  /** `currentSelected.filter((id) => id !== productId)`: every occurrence of
      the id goes, the other entries stay in their order. */
  function Without(selected: seq<ProductId>, productId: ProductId): (r: seq<ProductId>)
    ensures productId !in r
    ensures forall x | x != productId :: x in r <==> x in selected
    ensures productId in selected ==> |r| < |selected|
    ensures productId !in selected ==> r == selected
  {
    if selected == [] then []
    else
      var rest := Without(selected[1..], productId);
      assert selected == [selected[0]] + selected[1..];
      (if selected[0] == productId then [] else [selected[0]]) + rest
  }

  /** `handleProductToggle`: a selected id is deselected, an unselected one
      is appended to the selection. */
  function Toggle(selected: seq<ProductId>, productId: ProductId): (r: seq<ProductId>)
    ensures productId in r <==> productId !in selected
    ensures forall x | x != productId :: x in r <==> x in selected
    ensures productId in selected ==> |r| < |selected|
    ensures productId !in selected ==> r == selected + [productId]
  {
    if productId in selected then Without(selected, productId) else selected + [productId]
  }

  /** The other entries stay in their order: removing an id from two runs of
      the selection is removing it from each run and joining the results. */
  lemma {:induction false} WithoutConcat(a: seq<ProductId>, b: seq<ProductId>, productId: ProductId)
    ensures Without(a + b, productId) == Without(a, productId) + Without(b, productId)
  {
    if a == [] {
      assert a + b == b;
    } else {
      assert (a + b)[0] == a[0];
      assert (a + b)[1..] == a[1..] + b;
      WithoutConcat(a[1..], b, productId);
    }
  }

  lemma {:induction false} WithoutAppended(selected: seq<ProductId>, productId: ProductId)
    requires productId !in selected
    ensures Without(selected + [productId], productId) == selected
  {
    if selected == [] {
      assert [productId][1..] == [];
    } else {
      assert (selected + [productId])[1..] == selected[1..] + [productId];
      WithoutAppended(selected[1..], productId);
    }
  }

  /** Toggling an unselected id twice gives back the selection. */
  lemma ToggleTwice(selected: seq<ProductId>, productId: ProductId)
    requires productId !in selected
    ensures Toggle(Toggle(selected, productId), productId) == selected
  {
    WithoutAppended(selected, productId);
  }

  lemma {:induction false} WithoutDistinct(selected: seq<ProductId>, productId: ProductId)
    requires ProductRepository.NoDuplicates(selected)
    ensures ProductRepository.NoDuplicates(Without(selected, productId))
  {
    if selected != [] {
      var tail := selected[1..];
      assert ProductRepository.NoDuplicates(tail) by {
        forall i, j | 0 <= i < j < |tail| ensures tail[i] != tail[j] {
          assert tail[i] == selected[i + 1] && tail[j] == selected[j + 1];
        }
      }
      WithoutDistinct(tail, productId);
      var w := Without(tail, productId);
      if selected[0] != productId {
        assert selected[0] !in tail by {
          forall k | 0 <= k < |tail| ensures tail[k] != selected[0] {
            assert tail[k] == selected[k + 1];
          }
        }
        var r := [selected[0]] + w;
        forall i, j | 0 <= i < j < |r| ensures r[i] != r[j] {
          if i == 0 {
            assert r[j] == w[j - 1];
          } else {
            assert r[i] == w[i - 1] && r[j] == w[j - 1];
          }
        }
      }
    }
  }

  /** Toggling keeps a selection free of duplicates. */
  lemma ToggleDistinct(selected: seq<ProductId>, productId: ProductId)
    requires ProductRepository.NoDuplicates(selected)
    ensures ProductRepository.NoDuplicates(Toggle(selected, productId))
  {
    if productId in selected {
      WithoutDistinct(selected, productId);
    } else {
      var r := selected + [productId];
      forall i, j | 0 <= i < j < |r| ensures r[i] != r[j] {
        if j == |selected| {
          assert r[i] == selected[i];
        } else {
          assert r[i] == selected[i] && r[j] == selected[j];
        }
      }
    }
  }

  /** `defaultValues`, then in edit mode the `useEffect` that copies the
      initial order's description and product ids, in order. */
  function InitialValues(initialData: Option<OrderWithProducts>): (d: FormData)
    ensures initialData.None? ==> d == FormData("", [])
    ensures initialData.Some? ==> d.orderDescription == initialData.value.orderDescription
    ensures initialData.Some? ==> |d.productIds| == |initialData.value.products|
    ensures initialData.Some? ==> forall k | 0 <= k < |d.productIds| :: d.productIds[k] == initialData.value.products[k].id
  {
    if initialData.Some? then FormData(initialData.value.orderDescription, ProductIdsOf(initialData.value.products))
    else FormData("", [])
  }

  /** Editing an order fetched from `GET /api/orders/:id` starts from its
      stored description and its linked products in map-row order. */
  lemma EditStartsFromOrder(t: Tables, id: OrderId)
    requires Consistent(t) && id in t.orders
    ensures InitialValues(Some(MapRowToOrder(Row(t, id)))) == FormData(t.orders[id].description, LinkedIds(t.links, id))
  {
    MappedOrder(t, id);
  }

  const DescriptionRequired := "Order description is required"
  const DescriptionTooLong := "Order description must not exceed 100 characters"
  const SelectProduct := "Please select at least one product"

  /** The messages react-hook-form reports: `required` and `maxLength: 100`
      on the untrimmed description, and the `validate` rule on the ids. */
  function FormErrors(d: FormData): (r: seq<string>)
    ensures r == [] <==> 0 < |d.orderDescription| <= DescriptionLimit && |d.productIds| > 0
    ensures (DescriptionRequired in r) <==> |d.orderDescription| == 0
    ensures (DescriptionTooLong in r) <==> |d.orderDescription| > DescriptionLimit
    ensures (SelectProduct in r) <==> |d.productIds| == 0
  {
    (if |d.orderDescription| == 0 then [DescriptionRequired]
     else if |d.orderDescription| > DescriptionLimit then [DescriptionTooLong]
     else [])
    + (if |d.productIds| == 0 then [SelectProduct] else [])
  }

  /** The JSON body a submitted form becomes. */
  function SubmittedBody(d: FormData): Body
  {
    Body(Some(d.orderDescription), Array(seq(|d.productIds|, k requires 0 <= k < |d.productIds| => Int(d.productIds[k]))))
  }

  /** The submitted ids are an array of positive integers when the selection
      is non-empty and its ids are positive. */
  lemma SubmittedIdsValid(d: FormData)
    requires |d.productIds| > 0
    requires forall k | 0 <= k < |d.productIds| :: d.productIds[k] >= 1
    ensures ValidIds(SubmittedBody(d).productIds)
  {
    var items := SubmittedBody(d).productIds.items;
    forall k | 0 <= k < |items| ensures PositiveInt(items[k]) {
      assert items[k] == Int(d.productIds[k]);
    }
  }

  /** A description the form accepts and that has no blanks at either end
      meets the server's rule. */
  lemma UnpaddedDescriptionValid(s: string)
    requires 0 < |s| <= DescriptionLimit && Unpadded(s)
    ensures ValidDescription(s)
  {
    TrimUnpadded(s);
  }

  /** A form the browser accepts passes the server's create validation when
      its description has no blanks at either end and its ids are positive. */
  lemma FormAcceptedByServer(d: FormData)
    requires FormErrors(d) == []
    requires Unpadded(d.orderDescription)
    requires forall k | 0 <= k < |d.productIds| :: d.productIds[k] >= 1
    ensures ValidCreate(SubmittedBody(d))
  {
    UnpaddedDescriptionValid(d.orderDescription);
    SubmittedIdsValid(d);
    assert SubmittedBody(d).orderDescription == Some(d.orderDescription);
  }

  /** The browser checks the untrimmed text, the server the trimmed one: a
      description of blanks passes the form and is refused by the server. */
  lemma BlankDescription()
    ensures FormErrors(FormData(" ", [1])) == []
    ensures !ValidCreate(SubmittedBody(FormData(" ", [1])))
  {
    assert TrimStart(" ") == "";
  }
}
