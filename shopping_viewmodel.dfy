/** `ShoppingViewModel`: validation of the add-item form and the image search trigger. */
module ShoppingUi {
  import opened Wrappers
  import opened KotlinText
  import opened Util
  import opened Data
  import opened Repository

  /** Why a submission of the add-item form is refused, in the order the checks run. */
  datatype Rejection = EmptyField | NameTooLong | PriceTooLong | InvalidAmount

  /** The outcome of the checks: a refusal, or the parsed amount. */
  datatype Validation = Rejected(reason: Rejection) | Accepted(amount: int)

  /** The message posted with each refusal. */
  function Message(reason: Rejection): (m: string)
    ensures reason == EmptyField ==> m == "the fields should not be empty"
    ensures reason == NameTooLong ==> m == "the name of the itmemust not exceed 20 characters"
    ensures reason == PriceTooLong ==> m == "the price of the itmemust not exceed 10 characters"
    ensures reason == InvalidAmount ==> m == "please enter a valid amount"
  {
    assert ShowNat(MAX_NAME_LENGTH) == "20" && ShowNat(MAX_PRICE_LENGTH) == "10" by {
      assert DigitChar(2) == '2' && DigitChar(1) == '1' && DigitChar(0) == '0';
    }
    match reason
    case EmptyField => "the fields should not be empty"
    case NameTooLong => "the name of the itme" + "must not exceed " + ShowNat(MAX_NAME_LENGTH) + " characters"
    case PriceTooLong => "the price of the itme" + "must not exceed " + ShowNat(MAX_PRICE_LENGTH) + " characters"
    case InvalidAmount => "please enter a valid amount"
  }

  /** The form's checks, as a function of the three text fields. */
  function ValidateShoppingItem(name: string, amountText: string, priceText: string): (v: Validation)
    ensures v.Accepted? ==> 0 < |name| <= MAX_NAME_LENGTH && 0 < |priceText| <= MAX_PRICE_LENGTH
    ensures v.Accepted? ==> ParseInt(amountText) == Some(v.amount)
    ensures v == Rejected(InvalidAmount) ==> ParseInt(amountText) == None
  {
    if name == [] || amountText == [] || priceText == [] then Rejected(EmptyField)
    else if |name| > MAX_NAME_LENGTH then Rejected(NameTooLong)
    else if |priceText| > MAX_PRICE_LENGTH then Rejected(PriceTooLong)
    else match ParseInt(amountText)
      case None => Rejected(InvalidAmount)
      case Some(amount) => Accepted(amount)
  }

  /** Each rule on its own, ignoring the others. */
  predicate Violates(reason: Rejection, name: string, amountText: string, priceText: string) {
    match reason
    case EmptyField => name == [] || amountText == [] || priceText == []
    case NameTooLong => |name| > MAX_NAME_LENGTH
    case PriceTooLong => |priceText| > MAX_PRICE_LENGTH
    case InvalidAmount => ParseInt(amountText).None?
  }

  /** The position of a rule in the chain. */
  function Rank(reason: Rejection): nat {
    match reason
    case EmptyField => 0
    case NameTooLong => 1
    case PriceTooLong => 2
    case InvalidAmount => 3
  }

  /** The refusal reported is the first rule in the chain that the input breaks. */
  lemma ValidateReportsFirstViolation(name: string, amountText: string, priceText: string, reason: Rejection)
    ensures ValidateShoppingItem(name, amountText, priceText) == Rejected(reason) <==>
      Violates(reason, name, amountText, priceText) &&
      forall earlier :: Rank(earlier) < Rank(reason) ==> !Violates(earlier, name, amountText, priceText)
  {
    if ValidateShoppingItem(name, amountText, priceText) == Rejected(reason) {
      forall earlier | Rank(earlier) < Rank(reason)
        ensures !Violates(earlier, name, amountText, priceText)
      {
      }
    } else if Violates(reason, name, amountText, priceText) {
      var earlier :| Rank(earlier) < Rank(reason) && Violates(earlier, name, amountText, priceText) by {
        var r := ValidateShoppingItem(name, amountText, priceText).reason;
        assert Rank(r) < Rank(reason) && Violates(r, name, amountText, priceText);
      }
    }
  }

  /** A submission is accepted exactly when no rule is broken, and then carries the parsed amount. */
  lemma ValidateAcceptsExactly(name: string, amountText: string, priceText: string)
    ensures ValidateShoppingItem(name, amountText, priceText).Accepted? <==>
      forall reason :: !Violates(reason, name, amountText, priceText)
    ensures ValidateShoppingItem(name, amountText, priceText).Accepted? ==>
      ParseInt(amountText) == Some(ValidateShoppingItem(name, amountText, priceText).amount)
  {
    if ValidateShoppingItem(name, amountText, priceText).Accepted? {
      forall reason ensures !Violates(reason, name, amountText, priceText) {
      }
    } else {
      var reason := ValidateShoppingItem(name, amountText, priceText).reason;
      assert Violates(reason, name, amountText, priceText);
    }
  }

  /** A name of exactly the maximum length passes the length rule. */
  lemma NameAtLimitAccepted(name: string, amountText: string, priceText: string)
    requires |name| == MAX_NAME_LENGTH && amountText != [] && priceText != []
    ensures ValidateShoppingItem(name, amountText, priceText) != Rejected(EmptyField)
    ensures ValidateShoppingItem(name, amountText, priceText) != Rejected(NameTooLong)
  {
  }

  /** `n` copies of the character '1', as the tests build over-long fields. */
  function Ones(n: nat): (s: string)
    ensures |s| == n
  {
    if n == 0 then [] else Ones(n - 1) + "1"
  }

  /** The inputs of the view-model unit tests and the outcomes they expect. */
  lemma ValidationExamples()
    ensures ValidateShoppingItem("name", "", "3.0") == Rejected(EmptyField)
    ensures ValidateShoppingItem(Ones(MAX_NAME_LENGTH + 1), "5", "3.0") == Rejected(NameTooLong)
    ensures ValidateShoppingItem("name", "5", Ones(MAX_PRICE_LENGTH + 1)) == Rejected(PriceTooLong)
    ensures ValidateShoppingItem("name", "9999999999999999999", "3.0") == Rejected(InvalidAmount)
    ensures ValidateShoppingItem("name", "5", "3.0") == Accepted(5)
  {
    ParseExamples();
  }

  class ShoppingViewModel {
    const repository: FakeShoppingRepository
    /** The latest event posted to `images`; null before any search. */
    var images: Event?<Resource<ImageResponse>>
    /** The value of `currentImageUrl`; None before any image is chosen. */
    var currentImageUrl: Option<string>
    /** The latest event posted to `insertShoppingItemStatus`; null before any submission. */
    var insertShoppingItemStatus: Event?<Resource<ShoppingItem>>

    ghost predicate Valid()
      reads this, repository
    {
      repository.Valid()
    }

    constructor (repository: FakeShoppingRepository)
      requires repository.Valid()
      ensures Valid() && this.repository == repository
      ensures images == null && currentImageUrl == None && insertShoppingItemStatus == null
    {
      this.repository := repository;
      images := null;
      currentImageUrl := None;
      insertShoppingItemStatus := null;
    }

    /** The current value of `shoppingItems`, the repository's observable list. */
    function ShoppingItems(): (items: seq<ShoppingItem>)
      reads this, repository
      requires Valid()
      ensures items == repository.shoppingItems
    {
      repository.ObserveAllShoppingItems()
    }

    method SetCurrentImageUrl(url: string)
      modifies this`currentImageUrl
      ensures currentImageUrl == Some(url)
    {
      currentImageUrl := Some(url);
    }

    method DeleteShoppingItem(item: ShoppingItem)
      modifies repository
      ensures Valid()
      ensures repository.shoppingItems == RemoveFirst(old(repository.shoppingItems), item)
      ensures repository.shouldReturnNetworkError == old(repository.shouldReturnNetworkError)
    {
      repository.DeleteShoppingItem(item);
    }

    method InsertShoppingItemIntoDb(item: ShoppingItem)
      modifies repository
      ensures Valid()
      ensures repository.shoppingItems == old(repository.shoppingItems) + [item]
      ensures repository.shouldReturnNetworkError == old(repository.shouldReturnNetworkError)
    {
      repository.InsertShoppingItem(item);
    }

    /**
     * Validate the form; on success store the item, built from the parsed
     * amount and the chosen image URL, and clear the URL. Either way post a
     * fresh status event. A refusal changes nothing else.
     */
    method InsertShoppingItem(name: string, amountText: string, priceText: string)
      requires Valid()
      modifies this, repository
      ensures Valid()
      ensures fresh(insertShoppingItemStatus) && !insertShoppingItemStatus.hasBeenHandled
      ensures images == old(images)
      ensures repository.shouldReturnNetworkError == old(repository.shouldReturnNetworkError)
      ensures match ValidateShoppingItem(name, amountText, priceText)
        case Rejected(reason) =>
          insertShoppingItemStatus.content == Error(Message(reason), None) &&
          currentImageUrl == old(currentImageUrl) &&
          repository.shoppingItems == old(repository.shoppingItems)
        case Accepted(amount) =>
          var item := ShoppingItem(name, amount, priceText, old(currentImageUrl).GetOr(""));
          insertShoppingItemStatus.content == Success(item) &&
          currentImageUrl == Some("") &&
          repository.shoppingItems == old(repository.shoppingItems) + [item]
    {
      if name == [] || amountText == [] || priceText == [] {
        insertShoppingItemStatus := new Event(Error(Message(EmptyField), None));
        return;
      }
      if |name| > MAX_NAME_LENGTH {
        insertShoppingItemStatus := new Event(Error(Message(NameTooLong), None));
        return;
      }
      if |priceText| > MAX_PRICE_LENGTH {
        insertShoppingItemStatus := new Event(Error(Message(PriceTooLong), None));
        return;
      }
      var parsed := ParseInt(amountText);
      if parsed.None? {
        insertShoppingItemStatus := new Event(Error(Message(InvalidAmount), None));
        return;
      }
      var item := ShoppingItem(name, parsed.value, priceText, currentImageUrl.GetOr(""));
      InsertShoppingItemIntoDb(item);
      SetCurrentImageUrl("");
      insertShoppingItemStatus := new Event(Success(item));
    }

    /** An empty query does nothing; otherwise `images` first shows a loading event. */
    method SearchForImage(imageQuery: string)
      modifies this`images
      ensures imageQuery == [] ==> images == old(images)
      ensures imageQuery != [] ==>
        fresh(images) && images.content == Loading(None) && !images.hasBeenHandled
    {
      if imageQuery == [] {
        return;
      }
      images := new Event(Loading(None));
    }

    /** The search's completion: `images` shows the repository's answer. */
    method CompleteImageSearch(imageQuery: string)
      requires imageQuery != []
      modifies this`images
      ensures fresh(images) && !images.hasBeenHandled
      ensures images.content == if repository.shouldReturnNetworkError
        then Error(NETWORK_ERROR_MESSAGE, None) else Success(ImageResponse([], 0, 0))
    {
      var response := repository.SearchForImage(imageQuery);
      images := new Event(response);
    }
  }

  /**
   * The view-model tests' scenario: a fresh view model over a fresh fake
   * repository, one submission, then the status read once and the image URL.
   */
  method SubmitToFreshViewModel(name: string, amountText: string, priceText: string)
    returns (status: Option<Status>, imageUrl: Option<string>, items: seq<ShoppingItem>)
    ensures status == Some(if ValidateShoppingItem(name, amountText, priceText).Accepted? then SUCCESS else ERROR)
    ensures imageUrl == if ValidateShoppingItem(name, amountText, priceText).Accepted? then Some("") else None
    ensures items == match ValidateShoppingItem(name, amountText, priceText)
      case Rejected(_) => []
      case Accepted(amount) => [ShoppingItem(name, amount, priceText, "")]
  {
    var repository := new FakeShoppingRepository();
    var viewModel := new ShoppingViewModel(repository);
    viewModel.InsertShoppingItem(name, amountText, priceText);
    var content := viewModel.insertShoppingItemStatus.GetContentIfNotHandled();
    status := if content.Some? then Some(content.value.status) else None;
    imageUrl := viewModel.currentImageUrl;
    items := viewModel.ShoppingItems();
  }
}
