# Shopping-list app: validation, fake repository, one-shot events

This project models the logic of a teaching Android shopping-list app and
proves properties of that model in Dafny:

- the sign-up validator `RegistrationUtil.validateRegistrationInput`
  (module `RegistrationUtil`);
- the add-item form of `ShoppingViewModel`: its validation chain, the
  insertion of an accepted item, the image URL reset and the guard in
  `searchForImage` (module `ShoppingUi`, with the pure chain
  `ValidateShoppingItem` as its specification);
- `String.toInt()` as the JVM's `Integer.parseInt`, plus the decimal
  rendering used in messages (module `KotlinText`);
- the in-memory `FakeShoppingRepository` the view-model tests run against
  (module `Repository`);
- the one-shot `Event` wrapper, with the minimal `Resource`/`Status` types
  and the two form limits (module `Util`), and the records `ShoppingItem`
  and `ImageResponse` (module `Data`);
- the `Homework` exercises `fib` and `checkBraces`, as reference definitions
  pinned by their tests, each with a loop proved equal to the definition
  (module `Homework`).

State that the source updates in place is modelled as classes:
`FakeShoppingRepository` (item list, its observable mirror, the error flag),
`ShoppingViewModel` (insert status, current image URL, images) and `Event`
(the handled flag). LiveData `postValue` and coroutine launches are modelled
as immediate, sequential updates. The status and image LiveData hold `Event`
objects; each post allocates a fresh, unhandled `Event`.

## Model

| member | source | states |
|---|---|---|
| `RegistrationUtil.ValidateRegistrationInput` | app/src/main/java/com/practice/testing_practice/RegistrationUtil.kt:15-37 | an accepted input has a non-empty name that is not an existing user, a confirmation equal to the password and at least two digits in it |
| `RegistrationUtil.DigitCount` | app/src/main/java/com/practice/testing_practice/RegistrationUtil.kt:32 | the number of digit characters is at most the length, and positive exactly when some position holds a digit |
| `RegistrationUtil.ValidateAcceptsExactly` | app/src/main/java/com/practice/testing_practice/RegistrationUtil.kt:15-37 | the validator returns true exactly when both fields are non-empty, the name is neither "Peter" nor "Carl", the confirmation equals the password and the password has digits at two distinct positions |
| `RegistrationUtil.EmptyFieldRejected` | app/src/main/java/com/practice/testing_practice/RegistrationUtil.kt:20-22 | an empty user name or an empty password is refused, whatever the other inputs |
| `RegistrationUtil.ExistingUserRejected` | app/src/main/java/com/practice/testing_practice/RegistrationUtil.kt:24-26 | a name equal to one of the existing users "Peter" or "Carl" is refused |
| `RegistrationUtil.MismatchedConfirmationRejected` | app/src/main/java/com/practice/testing_practice/RegistrationUtil.kt:28-30 | a confirmation different from the password is refused |
| `RegistrationUtil.FewDigitsRejected` | app/src/main/java/com/practice/testing_practice/RegistrationUtil.kt:32-34 | a password with fewer than two digit characters is refused |
| `RegistrationUtil.DigitCountAtLeastTwo` | app/src/main/java/com/practice/testing_practice/RegistrationUtil.kt:32 | counting digits reaches 2 exactly when two different positions hold digits |
| `RegistrationUtil.RegistrationExamples` | app/src/test/java/com/practice/testing_practice/RegistrationUtilTest.kt:10-73 | the six test inputs get the verdicts the tests expect, ("kmkim", "123", "123") being the one accepted |
| `KotlinText.ShowNat` | app/src/main/java/com/practice/testing_practice/ui/ShoppingViewModel.kt:65 | the rendering of a limit in a message is a non-empty run of digits without a leading zero (except for 0 itself) |
| `KotlinText.ShowInt` | app/src/main/java/com/practice/testing_practice/ui/ShoppingViewModel.kt:65 | an `Int` renders as a non-empty text that starts with '-' exactly when the value is negative, digits after it |
| `KotlinText.ParseInt` | app/src/main/java/com/practice/testing_practice/ui/ShoppingViewModel.kt:75-80 | a parsed amount always lies in the JVM `Int` range |
| `KotlinText.ParseShowRoundTrip` | app/src/main/java/com/practice/testing_practice/ui/ShoppingViewModel.kt:75-76 | every `Int`, negative ones included, written in decimal parses back to itself |
| `KotlinText.ParseRejectsNonDigits` | app/src/main/java/com/practice/testing_practice/ui/ShoppingViewModel.kt:75-80 | any character after the optional sign that is not a digit makes the amount invalid |
| `KotlinText.ParseRejectsLongNumbers` | app/src/main/java/com/practice/testing_practice/ui/ShoppingViewModel.kt:75-80 | after an optional '+' or '-', more than ten significant digits overflow `Int` and make the amount invalid instead of crashing |
| `KotlinText.ParseExamples` | app/src/test/java/com/practice/testing_practice/ui/ShoppingViewModelTest.kt:86-93 | "5", "+5" and "-5" parse; "", a lone sign, "9999999999999999999" and "-12345678901" do not |
| `ShoppingUi.ValidateShoppingItem` | app/src/main/java/com/practice/testing_practice/ui/ShoppingViewModel.kt:58-80 | an accepted submission has a name of 1 to MAX_NAME_LENGTH characters, a price text of 1 to MAX_PRICE_LENGTH characters and an amount text that parses to the amount carried; an invalid-amount refusal means the amount text does not parse |
| `ShoppingUi.Message` | app/src/main/java/com/practice/testing_practice/ui/ShoppingViewModel.kt:59-78 | each refusal's message as the app posts it, the string templates rendered with the limits: "the fields should not be empty", "the name of the itmemust not exceed 20 characters", "the price of the itmemust not exceed 10 characters", "please enter a valid amount" |
| `ShoppingUi.ValidateReportsFirstViolation` | app/src/main/java/com/practice/testing_practice/ui/ShoppingViewModel.kt:58-80 | the refusal reported is the rule the input breaks that comes first in the order empty fields, name length, price length, amount |
| `ShoppingUi.ValidateAcceptsExactly` | app/src/main/java/com/practice/testing_practice/ui/ShoppingViewModel.kt:58-84 | a submission is accepted exactly when it breaks no rule, and then carries the parsed amount |
| `ShoppingUi.NameAtLimitAccepted` | app/src/main/java/com/practice/testing_practice/ui/ShoppingViewModel.kt:63-67 | a name exactly MAX_NAME_LENGTH long passes the length rule |
| `ShoppingUi.ValidationExamples` | app/src/test/java/com/practice/testing_practice/ui/ShoppingViewModelTest.kt:29-103 | the test inputs: empty amount, name and price one character too long, and the huge amount are refused for those reasons; ("name", "5", "3.0") is accepted with amount 5 |
| `ShoppingUi.ShoppingViewModel.constructor` | app/src/main/java/com/practice/testing_practice/ui/ShoppingViewModel.kt:18-42 | a new view model has no status, no image event and no image URL, over the given repository |
| `ShoppingUi.ShoppingViewModel.ShoppingItems` | app/src/main/java/com/practice/testing_practice/ui/ShoppingViewModel.kt:22 | the observed item list is the repository's current list |
| `ShoppingUi.ShoppingViewModel.SetCurrentImageUrl` | app/src/main/java/com/practice/testing_practice/ui/ShoppingViewModel.kt:44-46 | the current image URL becomes the given URL; nothing else changes |
| `ShoppingUi.ShoppingViewModel.DeleteShoppingItem` | app/src/main/java/com/practice/testing_practice/ui/ShoppingViewModel.kt:48-50 | the repository drops the first element equal to the item |
| `ShoppingUi.ShoppingViewModel.InsertShoppingItemIntoDb` | app/src/main/java/com/practice/testing_practice/ui/ShoppingViewModel.kt:52-54 | the repository appends the item |
| `ShoppingUi.ShoppingViewModel.InsertShoppingItem` | app/src/main/java/com/practice/testing_practice/ui/ShoppingViewModel.kt:57-94 | a fresh unhandled status event is posted; on a refusal it holds an Error with that rule's message and the URL and items are unchanged; on acceptance the item (name, parsed amount, price text, chosen URL or "") is appended, the URL becomes "" and the event holds Success(item) |
| `ShoppingUi.ShoppingViewModel.SearchForImage` | app/src/main/java/com/practice/testing_practice/ui/ShoppingViewModel.kt:96-100 | an empty query leaves `images` unchanged; any other posts a fresh Loading event |
| `ShoppingUi.ShoppingViewModel.CompleteImageSearch` | app/src/main/java/com/practice/testing_practice/ui/ShoppingViewModel.kt:102-105 | `images` then holds a fresh event with the repository's answer: an Error when the network-error flag is set, otherwise an empty Success |
| `ShoppingUi.SubmitToFreshViewModel` | app/src/test/java/com/practice/testing_practice/ui/ShoppingViewModelTest.kt:24-113 | in the tests' setting, the status read once is SUCCESS exactly for accepted input and ERROR otherwise; the URL is "" after a success; the list holds just the new item after a success and stays empty after a refusal |
| `Repository.RemoveFirst` | app/src/test/java/com/practice/testing_practice/repository/FakeShoppingRepository.kt:30 | removing an absent item changes nothing; removing a present one shortens the list by one and takes exactly one copy out of its multiset |
| `Repository.RemoveFirstAt` | app/src/test/java/com/practice/testing_practice/repository/FakeShoppingRepository.kt:30 | the copy removed is the first one; the elements before and after it keep their order |
| `Repository.AppendThenRemove` | app/src/test/java/com/practice/testing_practice/repository/FakeShoppingRepository.kt:22-32 | inserting an item not yet present and deleting it restores the list exactly |
| `Repository.FakeShoppingRepository.constructor` | app/src/test/java/com/practice/testing_practice/repository/FakeShoppingRepository.kt:13-20 | a new repository is empty, its observable list mirrors it and the error flag is off |
| `Repository.FakeShoppingRepository.InsertShoppingItem` | app/src/test/java/com/practice/testing_practice/repository/FakeShoppingRepository.kt:22-27 | the item is appended after the unchanged earlier elements, the observable list mirrors the new list, the flag is unchanged |
| `Repository.FakeShoppingRepository.DeleteShoppingItem` | app/src/test/java/com/practice/testing_practice/repository/FakeShoppingRepository.kt:29-32 | the first equal element is removed, the observable list mirrors the new list, the flag is unchanged |
| `Repository.FakeShoppingRepository.ObserveAllShoppingItems` | app/src/test/java/com/practice/testing_practice/repository/FakeShoppingRepository.kt:34-36 | the observable list equals the backing list |
| `Repository.FakeShoppingRepository.SearchForImage` | app/src/test/java/com/practice/testing_practice/repository/FakeShoppingRepository.kt:42-52 | the answer is Error("test error occured") exactly when the flag is set, otherwise Success with no hits and zero counts |
| `Repository.FakeShoppingRepository.SetShouldReturnNetworkError` | app/src/test/java/com/practice/testing_practice/repository/FakeShoppingRepository.kt:56-58 | only the flag changes, to the given value |
| `Repository.FakeShoppingRepository.RefreshLiveData` | app/src/test/java/com/practice/testing_practice/repository/FakeShoppingRepository.kt:60-64 | the observable list is set to the backing list |
| `Util.Event.constructor` | app/src/main/java/com/practice/testing_practice/util/Event.kt:3-10 | the content is fixed at construction and the event starts unhandled |
| `Util.Event.GetContentIfNotHandled` | app/src/main/java/com/practice/testing_practice/util/Event.kt:12-19 | the first call yields the content, every later one null; afterwards the event is handled |
| `Util.Event.PeekContent` | app/src/main/java/com/practice/testing_practice/util/Event.kt:22 | yields the content, handled or not, and changes nothing |
| `Util.HandleEventTwice` | app/src/main/java/com/practice/testing_practice/util/Event.kt:3-22 | a fresh event gives its content to the first consumer, null to the second, and can still be peeked |
| `Homework.Fib` | app/src/test/java/com/practice/testing_practice/HomeworkTest.kt:9-40 | the reference Fibonacci function is at least 1 from index 1 on and at least n - 1 at index n |
| `Homework.RecurrenceDeterminesFib` | app/src/test/java/com/practice/testing_practice/HomeworkTest.kt:9-34 | any function that starts 0, 1 and adds the two values before from index 2 on is `Fib` |
| `Homework.FibValues` | app/src/test/java/com/practice/testing_practice/HomeworkTest.kt:9-40 | `Fib` gives 0, 1, 1, 2 at indices 0 to 3, 34 at index 9 and 55 at index 10 |
| `Homework.FibTestsAsWrittenUnsatisfiable` | app/src/test/java/com/practice/testing_practice/HomeworkTest.kt:36-40 | no function obeying the recurrence meets all five Fibonacci expectations as written |
| `Homework.FibIterative` | app/src/test/java/com/practice/testing_practice/HomeworkTest.kt:9-40 | the loop over the recurrence returns `Fib(n)` |
| `Homework.MatchedIff` | app/src/test/java/com/practice/testing_practice/HomeworkTest.kt:42-77 | the left-to-right scan with a counter succeeds exactly when no prefix closes more than it opened and the whole string closes all it opened |
| `Homework.Matched` | app/src/test/java/com/practice/testing_practice/HomeworkTest.kt:42-77 | a successful scan started with `open` unmatched parentheses ends with opens and closes balancing them |
| `Homework.CheckBraces` | app/src/test/java/com/practice/testing_practice/HomeworkTest.kt:42-77 | `CheckBraces` holds exactly for balanced, properly nested strings (the reference definition `Balanced`) |
| `Homework.MatchedIgnoresOtherCharacters` | app/src/test/java/com/practice/testing_practice/HomeworkTest.kt:67-77 | deleting every character other than a parenthesis does not change the verdict |
| `Homework.NestingPreservesBalance` | app/src/test/java/com/practice/testing_practice/HomeworkTest.kt:73-77 | wrapping an accepted string in a pair of parentheses gives an accepted string |
| `Homework.CheckBracesExamples` | app/src/test/java/com/practice/testing_practice/HomeworkTest.kt:42-77 | "(abc", "abc)", ")kmkim(" and "(kmkim))" are refused; "(kmkim)" and "(k(mk)im)" are accepted |
| `Homework.CheckBracesWithCounter` | app/src/test/java/com/practice/testing_practice/HomeworkTest.kt:42-77 | the counter loop returns `CheckBraces(s)`, that is, true exactly for balanced strings |

## Left out

- Prices are carried as the text typed, not as the float `priceAsString.toFloat()` yields (ShoppingViewModel.kt:85). Floating point is not modelled. So two items whose price texts differ but parse to the same float ("3" and "3.0") are equal in the app and different here.
- ShoppingUi.ShoppingViewModel.InsertShoppingItem: accepts any non-empty price text within MAX_PRICE_LENGTH. In the app, text that is not a number makes `toFloat()` throw an exception nothing catches. The model has no crash there.
- The total price (`observeTotalPrice`, `observableShoppingPrice`, `getTotalPrice`) is a float sum and is not modelled.
- Asynchrony is not modelled. `postValue` and `viewModelScope.launch` are immediate, sequential updates. The coroutine inside `searchForImage` becomes `CompleteImageSearch`, a separate step the caller runs after `SearchForImage`. It requires a non-empty query because only that path launches it.
- `ShoppingRepository` is an interface. The view model holds a `FakeShoppingRepository` directly because that is the only implementation modelled. `DefaultShoppingRepository` forwards to the Room DAO and the Pixabay client, and those, dependency injection, the fragments, resource comparison and the build configuration are not part of this model.
- `Constants`, `Resource`, `ShoppingItem` and `ImageResponse` are not part of this model. They are declared minimally. MAX_NAME_LENGTH is taken as 20 and MAX_PRICE_LENGTH as 10; the message texts in `Message` and the examples in `ValidationExamples` depend on them: over-long fields are built relative to the limits, but the accepted case ("name", "5", "3.0") and the invalid-amount case need MAX_NAME_LENGTH >= 4 and MAX_PRICE_LENGTH >= 3. The Room item id and the fields of an image hit other than its URL are omitted.
- Digits are the ASCII digits '0'..'9'. Kotlin's `Char.isDigit()` and `Integer.parseInt` also accept other Unicode decimal digits. String length is sequence length, not UTF-16 code units.
- Util.Event.GetContentIfNotHandled: Kotlin's private setter makes `hasBeenHandled` writable only inside `Event`. Dafny has no private fields. The model's monotonicity rests on the only writer, `GetContentIfNotHandled`, leaving the flag true.
- `Homework.kt` is not part of this model. `Fib` and `CheckBraces` are reference definitions: standard 0-indexed Fibonacci, and parentheses balanced and properly nested with all other characters ignored. The loops `FibIterative` and `CheckBracesWithCounter` are proved equal to them.

## Findings

| source | as written | input that shows it | evidently intended | confidence | as-written member | corrected member |
|---|---|---|---|---|---|---|
| app/src/test/java/com/practice/testing_practice/HomeworkTest.kt:36-40 | the test expects `fib(10) == 34`, while lines 9-34 expect 0, 1, 1, 2 at indices 0 to 3; those values and the name `fib` fix the standard 0-indexed Fibonacci numbers (the comment at line 29 only marks index 2 as the first computed value) | n = 10: the recurrence gives fib(10) = 55, and 34 is fib(9) | expect 55 for input 10, or pass 9 | high; not executed | `Homework.FibTestsAsWrittenUnsatisfiable` | `Homework.FibValues` |
