/** The in-memory `FakeShoppingRepository` the view-model tests run against. */
module Repository {
  import opened Wrappers
  import opened Util
  import opened Data

  /** `MutableList.remove(x)`: drop the first element equal to `x`, if there is one. */
  function RemoveFirst<T(==)>(s: seq<T>, x: T): (r: seq<T>)
    ensures x !in s ==> r == s
    ensures x in s ==> |r| == |s| - 1
    ensures multiset(r) == multiset(s) - multiset{x}
  {
    if s == [] then []
    else
      assert s == [s[0]] + s[1..];
      if s[0] == x then s[1..] else [s[0]] + RemoveFirst(s[1..], x)
  }

  /** The element removed is the first occurrence; the others keep their order. */
  lemma {:induction false} RemoveFirstAt<T>(s: seq<T>, x: T, i: nat)
    requires i < |s| && s[i] == x && x !in s[..i]
    ensures RemoveFirst(s, x) == s[..i] + s[i + 1..]
  {
    if i > 0 {
      assert s[1..][..i - 1] == s[..i][1..];
      RemoveFirstAt(s[1..], x, i - 1);
    }
  }

  /** Deleting an item just appended, that was not there before, restores the list. */
  lemma AppendThenRemove<T>(s: seq<T>, x: T)
    requires x !in s
    ensures RemoveFirst(s + [x], x) == s
  {
    assert (s + [x])[..|s|] == s;
    RemoveFirstAt(s + [x], x, |s|);
  }

  const NETWORK_ERROR_MESSAGE := "test error occured"

  class FakeShoppingRepository {
    /** The list standing in for the database table. */
    var shoppingItems: seq<ShoppingItem>
    /** The value last posted to the observable item list. */
    var observableShoppingItems: seq<ShoppingItem>
    var shouldReturnNetworkError: bool

    /** The observable list shows the backing list. */
    ghost predicate Valid()
      reads this
    {
      observableShoppingItems == shoppingItems
    }

    constructor ()
      ensures Valid() && shoppingItems == [] && !shouldReturnNetworkError
    {
      shoppingItems := [];
      observableShoppingItems := [];
      shouldReturnNetworkError := false;
    }

    method InsertShoppingItem(item: ShoppingItem)
      modifies this
      ensures Valid()
      ensures shoppingItems == old(shoppingItems) + [item]
      ensures shouldReturnNetworkError == old(shouldReturnNetworkError)
    {
      shoppingItems := shoppingItems + [item];
      RefreshLiveData();
    }

    method DeleteShoppingItem(item: ShoppingItem)
      modifies this
      ensures Valid()
      ensures shoppingItems == RemoveFirst(old(shoppingItems), item)
      ensures shouldReturnNetworkError == old(shouldReturnNetworkError)
    {
      shoppingItems := RemoveFirst(shoppingItems, item);
      RefreshLiveData();
    }

    /** The current value of `observeAllShoppingItems()`. */
    function ObserveAllShoppingItems(): (items: seq<ShoppingItem>)
      reads this
      requires Valid()
      ensures items == shoppingItems
    {
      observableShoppingItems
    }

    method SearchForImage(imageQuery: string) returns (r: Resource<ImageResponse>)
      ensures r.status == ERROR <==> shouldReturnNetworkError
      ensures shouldReturnNetworkError ==> r == Error(NETWORK_ERROR_MESSAGE, None)
      ensures !shouldReturnNetworkError ==> r == Success(ImageResponse([], 0, 0))
    {
      if shouldReturnNetworkError {
        r := Error(NETWORK_ERROR_MESSAGE, None);
      } else {
        r := Success(ImageResponse([], 0, 0));
      }
    }

    method SetShouldReturnNetworkError(value: bool)
      modifies this`shouldReturnNetworkError
      ensures shouldReturnNetworkError == value
    {
      shouldReturnNetworkError := value;
    }

    method RefreshLiveData()
      modifies this`observableShoppingItems
      ensures Valid()
    {
      observableShoppingItems := shoppingItems;
    }
  }
}
