# Payment app core, modelled in Dafny

This project models the logic at the centre of a small full-stack shop. A
customer buys a product, pays by credit card, and the purchase is tracked
until it completes or fails. It has three parts.

- **Card validation and formatting** (`card_validations.dfy`, module
  `CardValidations`). These are the browser-side checks run before a payment
  is sent:
  - the Luhn check digit;
  - issuer detection (Visa or Mastercard);
  - the expiry, CVV and card-holder checks;
  - the aggregate validator that builds a map of error messages;
  - the two input formatters.

  JavaScript's own behaviour is written out where the code relies on it:
  - the `\s` and `trim()` whitespace class;
  - `parseInt` with its sign, `0x` prefix and NaN;
  - NaN comparisons, which are always false;
  - `%`, which truncates towards zero;
  - the left-to-right scan of a global regular-expression replace.
- **Inventory and purchases on the server** (`products.dfy`, `transactions.dfy`).
  - The `product` and `transaction` tables are classes holding a map from
    primary key to row, plus the next serial key.
  - `ProductsService` and `TransactionsService` are classes over those
    repositories. Their methods change the tables in place.
  - Each state-changing service method either is tied to a pure
    specification or states its new rows outright (`CreateTransaction`):
    - `Products.Decrement` and `Products.Purchase` give the stock rule;
    - `Transactions.StatusUpdate` describes a status change over both tables.

    The lemmas about these functions carry the properties.
- **Frontend state** (`transaction_slice.dfy`, `product_slice.dfy`). These are
  the Redux reducers for the purchase being followed and for the product list,
  written as functions from the old state to the new one. Lemmas give an
  invariant of every reachable state and the stock arithmetic.

`common.dfy` holds what the parts share:
- `Option` and `Result`;
- the whitespace and digit classes;
- decimal rendering with its round trip;
- the loop that reads a whole table.

Money is held in whole cents. The current date, `Date.now()` and
`Math.random()` are parameters of the operations that read them.

## Model

| member | source | states |
|---|---|---|
| `CardValidations.RemoveWhitespace` | frontend/src/utils/cardValidations.ts:13 | `replace(/\s+/g, '')` leaves no whitespace character and never lengthens the input |
| `CardValidations.RemoveWhitespaceConcat` | frontend/src/utils/cardValidations.ts:13 | stripping whitespace distributes over concatenation |
| `CardValidations.RemoveWhitespaceIdempotent` | frontend/src/utils/cardValidations.ts:13 | stripping twice is stripping once |
| `CardValidations.Trim` | frontend/src/utils/cardValidations.ts:72 | `trim()`'s result neither starts nor ends with whitespace |
| `CardValidations.TrimShape` | frontend/src/utils/cardValidations.ts:72 | `trim()` keeps one contiguous block of the input, with only whitespace before and after it |
| `CardValidations.TrimKeepsNonWhitespace` | frontend/src/utils/cardValidations.ts:72 | trimming removes only whitespace characters |
| `CardValidations.ParseInt` | frontend/src/utils/cardValidations.ts:55-56 | a blank string gives NaN; a string whose first non-blank character is a decimal digit (and not a `0x` prefix) gives a non-negative number; any number read needs a digit in the input |
| `CardValidations.ParseIntDecimal` | frontend/src/utils/cardValidations.ts:55-56 | `parseInt` of a non-empty decimal digit string is its decimal value |
| `CardValidations.ParseIntSingleDigit` | frontend/src/utils/cardValidations.ts:33 | `parseInt` of one digit character is that digit's value |
| `CardValidations.ParseIntNaNExamples` | frontend/src/utils/cardValidations.ts:55-56 | the empty string, letters and a lone sign all give NaN |
| `CardValidations.ParseIntIgnoresTail` | frontend/src/utils/cardValidations.ts:55-56 | leading whitespace is skipped and the parse stops at the first non-digit: " 12ab" gives 12 |
| `CardValidations.ParseIntSign` | frontend/src/utils/cardValidations.ts:55-56 | "-3" gives -3 |
| `CardValidations.ParseIntHex` | frontend/src/utils/cardValidations.ts:55-56 | "0x0C" is read in base 16 as 12 |
| `CardValidations.DigitRunMeans` | frontend/src/utils/cardValidations.ts:5-6 | the regular-expression piece `[0-9]{min,max}` matches a whole string exactly when it has between min and max characters, all digits |
| `CardValidations.VisaPatternMeans` | frontend/src/utils/cardValidations.ts:5 | `^4[0-9]{12}(?:[0-9]{3})?$` matches exactly a '4' followed by 12 or 15 more digits |
| `CardValidations.MastercardPatternMeans` | frontend/src/utils/cardValidations.ts:6 | `^5[1-5][0-9]{14}$` matches exactly a '5', one of '1'..'5', then 14 digits |
| `CardValidations.GetCardType` | frontend/src/utils/cardValidations.ts:4-22 | the type is Visa iff the cleaned number is '4' and then 12 or 15 more digits. It is Mastercard iff it is '5', one of '1'..'5', then 14 digits. Otherwise it is unknown |
| `CardValidations.CardTypeIgnoresWhitespace` | frontend/src/utils/cardValidations.ts:12-13 | the detected type is the same with whitespace removed first |
| `CardValidations.LuhnTerm` | frontend/src/utils/cardValidations.ts:35-40 | a digit, doubled or not and reduced by 9 when over 9, stays a single digit |
| `CardValidations.LuhnSum` | frontend/src/utils/cardValidations.ts:29-44 | the sum of n Luhn terms is at most 9n |
| `CardValidations.IsValidCardNumber` | frontend/src/utils/cardValidations.ts:25-47 | a number is valid iff, with whitespace removed, it is a non-empty run of digits whose last digit is the check digit of the digits before it |
| `CardValidations.ValidateCardNumber` | frontend/src/utils/cardValidations.ts:25-47 | the right-to-left loop returns true exactly when the cleaned number is non-empty, all digits, and its Luhn sum is a multiple of 10 |
| `CardValidations.RejectsNonDigits` | frontend/src/utils/cardValidations.ts:26-27 | an empty cleaned number, or one with a non-digit, is rejected |
| `CardValidations.CardNumberIgnoresWhitespace` | frontend/src/utils/cardValidations.ts:26 | the card-number check gives the same answer with whitespace removed |
| `CardValidations.LuhnAcceptsVisaTestPattern` | frontend/src/utils/cardValidations.ts:29-46 | every string that is a 4 followed by fifteen 1s passes the card-number check |
| `CardValidations.LuhnExampleVisa` | frontend/src/utils/cardValidations.ts:29-46 | "4111111111111111" is accepted |
| `CardValidations.LuhnExampleRejected` | frontend/src/utils/cardValidations.ts:29-46 | "1234" is rejected (its Luhn sum is 14) |
| `CardValidations.LuhnSumPrefix` | frontend/src/utils/cardValidations.ts:32-44 | the sum over the first n positions (read from position n-1 leftwards) depends only on those positions |
| `CardValidations.CheckDigit` | frontend/src/utils/cardValidations.ts:29-46 | the check digit of a digit string is a digit |
| `CardValidations.CheckDigitUnique` | frontend/src/utils/cardValidations.ts:29-46 | exactly one final digit makes a digit string pass the Luhn test |
| `CardValidations.LuhnSumOneDifference` | frontend/src/utils/cardValidations.ts:32-44 | changing one digit changes the sum by exactly the difference of that position's terms |
| `CardValidations.LuhnTermInjective` | frontend/src/utils/cardValidations.ts:35-40 | two different digits in the same position contribute terms that differ modulo 10 |
| `CardValidations.SingleDigitErrorDetected` | frontend/src/utils/cardValidations.ts:29-46 | mistyping any single digit of a passing number makes it fail |
| `CardValidations.JsRemainder` | frontend/src/utils/cardValidations.ts:52 | JavaScript `%` has the sign of the dividend and a magnitude below the divisor, and is what is left of the dividend after the quotient rounded towards zero; these fix the value |
| `CardValidations.ValidateExpiry` | frontend/src/utils/cardValidations.ts:50-63 | the expiry is accepted iff the month is NaN or 1..12, the year is NaN or not before the current two-digit year, and, in the current year, a numeric month is not before the current one |
| `CardValidations.ExpiryOfNumericInput` | frontend/src/utils/cardValidations.ts:50-63 | for a digit-string month and year, and a real current month, the expiry is accepted iff the month is 1..12 and (year, month) is not before the current (year mod 100, month) |
| `CardValidations.NonNumericYearAccepted` | frontend/src/utils/cardValidations.ts:55-60 | a year that parses to NaN (an empty year does) passes both year checks, so only the month range decides |
| `CardValidations.ExpiryExamplesEmptyYear` | frontend/src/utils/cardValidations.ts:55-62 | an empty year is accepted with month "05" and rejected with month "13" |
| `CardValidations.NonNumericMonthAccepted` | frontend/src/utils/cardValidations.ts:55-60 | a month that parses to NaN passes every month check, so only a past year rejects it |
| `CardValidations.ExpiryExamplesPast` | frontend/src/utils/cardValidations.ts:58-59 | a past year and, within the current year, a past month are rejected |
| `CardValidations.ExpiryExamplesCurrentAndBadMonth` | frontend/src/utils/cardValidations.ts:59-60 | the current month is accepted and month 13 is rejected |
| `CardValidations.ExpiryExampleEmptyMonth` | frontend/src/utils/cardValidations.ts:55-62 | an empty month string with a future year is accepted |
| `CardValidations.ValidateCVV` | frontend/src/utils/cardValidations.ts:66-68 | the CVV is accepted iff it is exactly 3 or 4 ASCII digits |
| `CardValidations.ValidateCardHolder` | frontend/src/utils/cardValidations.ts:71-73 | an accepted name is at least three characters long and holds at least one letter, so a blank name never passes |
| `CardValidations.CardHolderMeans` | frontend/src/utils/cardValidations.ts:71-73 | the holder name is accepted iff every character is an ASCII letter or whitespace and the trimmed name spans at least three characters |
| `CardValidations.CardHolderIgnoresPadding` | frontend/src/utils/cardValidations.ts:71-73 | surrounding whitespace never changes the holder check |
| `CardValidations.CardHolderExamples` | frontend/src/utils/cardValidations.ts:71-73 | "JOHN DOE" passes, while "Jo", blanks only, and a name with a digit fail |
| `CardValidations.ValidateCardData` | frontend/src/utils/cardValidations.ts:76-111 | the error map has only the keys number, expiry, cvv and cardHolder. Each key is present iff its check fails, and it carries the source's message. A Luhn-valid number of unknown type gets "Solo se aceptan tarjetas Visa o Mastercard". isValid holds iff the map is empty |
| `CardValidations.GroupFours` | frontend/src/utils/cardValidations.ts:116 | the replace adds at most one character per four of the input and removes none |
| `CardValidations.GroupFoursShortDigits` | frontend/src/utils/cardValidations.ts:116 | fewer than four digits are left as they are |
| `CardValidations.GroupFoursOfDigits` | frontend/src/utils/cardValidations.ts:113-116 | on a digit string the output has one extra character per complete group of four. Output position i is a space when i mod 5 is 4, and the input digit i − i/5 otherwise: a space after every four digits |
| `CardValidations.GroupFoursAt` | frontend/src/utils/cardValidations.ts:116 | position j of output group q is the space closing the group when j is 4, and input digit 4q + j otherwise |
| `CardValidations.GroupFoursEdges` | frontend/src/utils/cardValidations.ts:116 | the grouped digits start with the first digit and end with the last one, or with a space right after it when the last group is complete |
| `CardValidations.GroupFoursAddsOnlySpaces` | frontend/src/utils/cardValidations.ts:116 | the `(\d{4})` to `'$1 '` replace only inserts spaces |
| `CardValidations.FormatCardNumber` | frontend/src/utils/cardValidations.ts:114-117 | the formatted number neither starts nor ends with whitespace |
| `CardValidations.FormatCardNumberOfDigits` | frontend/src/utils/cardValidations.ts:113-117 | for a number typed as digits, the result is the grouping into fours, minus the trailing space that `trim()` removes after a last complete group |
| `CardValidations.FormatCardNumberOfClean` | frontend/src/utils/cardValidations.ts:114-117 | a number without whitespace is formatted by grouping and trimming alone |
| `CardValidations.GroupFoursTrimmed` | frontend/src/utils/cardValidations.ts:116 | trimming the grouping of a non-empty digit string drops exactly the trailing space after a last complete group |
| `CardValidations.TrimNoEdges` | frontend/src/utils/cardValidations.ts:116 | `trim()` leaves a string with no whitespace at either end unchanged |
| `CardValidations.TrimDropsTrailingSpace` | frontend/src/utils/cardValidations.ts:116 | `trim()` of such a string followed by one space gives the string back |
| `CardValidations.FormatCardNumberSixteen` | frontend/src/utils/cardValidations.ts:113-117 | a sixteen-digit number comes out as four groups of four separated by single spaces |
| `CardValidations.FormatCardNumberVisaTestPattern` | frontend/src/utils/cardValidations.ts:113-117 | a 4 followed by fifteen 1s comes out as "4111 1111 1111 1111" |
| `CardValidations.FormatCardNumberExample` | frontend/src/utils/cardValidations.ts:113-117 | "4111111111111111" is formatted as "4111 1111 1111 1111" |
| `CardValidations.FormatCardNumberKeepsCharacters` | frontend/src/utils/cardValidations.ts:114-117 | removing the whitespace of the formatted number gives the cleaned input back |
| `CardValidations.FormatCardNumberIdempotent` | frontend/src/utils/cardValidations.ts:114-117 | formatting an already formatted number changes nothing |
| `CardValidations.KeepDigits` | frontend/src/utils/cardValidations.ts:121 | `replace(/\D+/g, '')` leaves only digits and never lengthens the input |
| `CardValidations.KeepDigitsNoop` | frontend/src/utils/cardValidations.ts:121 | a string of digits is left as it is |
| `CardValidations.KeepDigitsAllNonDigits` | frontend/src/utils/cardValidations.ts:121 | a string without a digit disappears |
| `CardValidations.KeepDigitsConcat` | frontend/src/utils/cardValidations.ts:121 | removing non-digits distributes over concatenation, so with the two rows above every digit is kept in order and every other character dropped |
| `CardValidations.FormatExpiry` | frontend/src/utils/cardValidations.ts:120-126 | with fewer than two digits the result is those digits, every other character removed (so "a1" gives "1"); otherwise the result is two digits, '/', and at most two more digits |
| `CardValidations.FormatExpiryKeepsDigits` | frontend/src/utils/cardValidations.ts:120-126 | the digits of the formatted expiry are the first four digits typed |
| `CardValidations.FormatExpiryIdempotent` | frontend/src/utils/cardValidations.ts:120-126 | formatting an already formatted expiry changes nothing |
| `Common.DecimalRoundTrip` | backend/src/modules/transactions/application/services/transactions.service.ts:64-66 | the decimal rendering of a number inside a transaction number reads back as that number |
| `Common.TableValues` | backend/src/modules/products/infrastructure/persistence/product.repository.ts:18-20 | reading a whole table yields one entry per key, each the row stored under that key |
| `Products.Decrement` | backend/src/modules/products/application/services/products.service.ts:31-37 | a purchase of q units succeeds iff q does not exceed the stock; the result is then the same product with stock lowered by q and never negative; otherwise the error is "No hay suficiente stock disponible" |
| `Products.Purchase` | backend/src/modules/products/application/services/products.service.ts:27-39 | a missing product is "Producto no encontrado" before any stock check. On success the table keeps its keys, only the target row changes, and it changes as `Decrement` says |
| `Products.PurchaseKeepsWellKeyed` | backend/src/modules/products/application/services/products.service.ts:36-38 | a purchase keeps every row under its own id |
| `Products.PurchaseKeepsStockNatural` | backend/src/modules/products/application/services/products.service.ts:32-37 | when all stocks are non-negative, a purchase keeps them non-negative |
| `Products.PurchaseAllStock` | backend/src/modules/products/application/services/products.service.ts:32-37 | buying exactly the stock is allowed and leaves 0 |
| `Products.PurchaseCompose` | backend/src/modules/products/application/services/products.service.ts:27-39 | for non-negative a and b, buying a then b succeeds iff buying a + b does, with the same table |
| `Products.PurchaseExample` | backend/src/modules/products/application/services/products.service.ts:36-38 | 50 in stock, 5 bought, 45 left |
| `Products.ProductRepository.constructor` | backend/src/modules/products/infrastructure/persistence/product.repository.ts:11-15 | starts with an empty, well-formed table |
| `Products.ProductRepository.FindAll` | backend/src/modules/products/infrastructure/persistence/product.repository.ts:18-20 | returns every stored product exactly once |
| `Products.ProductRepository.FindById` | backend/src/modules/products/infrastructure/persistence/product.repository.ts:23-25 | returns the product stored under the id, or none when there is none |
| `Products.ProductRepository.Save` | backend/src/modules/products/infrastructure/persistence/product.repository.ts:28-31 | inserts the product under a fresh key and returns it, so a later lookup of that key yields it; no other row changes |
| `Products.ProductRepository.UpdateStock` | backend/src/modules/products/infrastructure/persistence/product.repository.ts:34-37 | overwrites only the stock of the one row, with any value (negative included), and returns the re-read row. An unknown id changes nothing and returns none |
| `Products.ProductsService.constructor` | backend/src/modules/products/application/services/products.service.ts:10 | holds the repository it is given |
| `Products.ProductsService.GetAllProducts` | backend/src/modules/products/application/services/products.service.ts:13-15 | returns the repository's contents, each row exactly once |
| `Products.ProductsService.GetProductById` | backend/src/modules/products/application/services/products.service.ts:18-24 | returns the stored product, or fails with "Producto no encontrado" |
| `Products.ProductsService.UpdateProductStock` | backend/src/modules/products/application/services/products.service.ts:27-39 | the table becomes what `Purchase` gives. On either error nothing is written and the error is returned |
| `Transactions.RandomSuffix` | backend/src/modules/transactions/application/services/transactions.service.ts:65 | `Math.floor(random * 1000)` is the integer part and lies in 0..999 |
| `Transactions.GenerateTransactionNumber` | backend/src/modules/transactions/application/services/transactions.service.ts:64-66 | a generated number starts with "TRX-" and after that holds only digits and dashes |
| `Transactions.TransactionNumberRoundTrip` | backend/src/modules/transactions/application/services/transactions.service.ts:64-66 | a generated number `TRX-<ms>-<r>` parses back to its clock reading and its suffix |
| `Transactions.TransactionNumberCollision` | backend/src/modules/transactions/application/services/transactions.service.ts:64-66 | two generated numbers are equal iff they share the millisecond and the suffix |
| `Transactions.IndexOfDashAfterDigits` | backend/src/modules/transactions/application/services/transactions.service.ts:65 | in `<digits>-<rest>`, the first '-' is right after the digits |
| `Transactions.KeyOfNumber` | backend/src/modules/transactions/infrastructure/persistence/transaction.repository.ts:28-33 | names a row that carries the given transaction number |
| `Transactions.StatusUpdate` | backend/src/modules/transactions/application/services/transactions.service.ts:33-45 | on any error neither table changes, and an unknown number is "Transacción no encontrada". On success the one row carrying the number gets the new status and nothing else. The stock changes only for COMPLETED, and both key sets are kept |
| `Transactions.StatusUpdateUnknown` | backend/src/modules/transactions/application/services/transactions.service.ts:34-37 | an unknown transaction number fails with "Transacción no encontrada" and changes neither table |
| `Transactions.StatusUpdateOther` | backend/src/modules/transactions/application/services/transactions.service.ts:40-44 | a status other than COMPLETED leaves the stock alone and changes only that transaction's status |
| `Transactions.StatusUpdateCompleted` | backend/src/modules/transactions/application/services/transactions.service.ts:40-44 | COMPLETED takes exactly one unit of the linked product, whatever quantity was bought, and then writes the status. If the decrement fails, neither table changes and its error is returned |
| `Transactions.StatusUpdateNoGuard` | backend/src/modules/transactions/application/services/transactions.service.ts:40-44 | a transaction already COMPLETED or FAILED can be completed again, and stock is taken again |
| `Transactions.StatusUpdateKeepsInvariants` | backend/src/modules/transactions/application/services/transactions.service.ts:33-45 | a status update keeps rows under their own keys, transaction numbers unique, every referenced product present, and both key sets unchanged |
| `Transactions.TransactionRepository.constructor` | backend/src/modules/transactions/infrastructure/persistence/transaction.repository.ts:10-13 | starts with an empty, well-formed table |
| `Transactions.TransactionRepository.Create` | backend/src/modules/transactions/infrastructure/persistence/transaction.repository.ts:16-19 | stores the transaction under a fresh key and returns the stored record. A number already in use is refused and nothing is stored |
| `Transactions.TransactionRepository.UpdateStatus` | backend/src/modules/transactions/infrastructure/persistence/transaction.repository.ts:22-25 | overwrites only the status of the one record and returns the re-read record. An unknown id changes nothing |
| `Transactions.TransactionRepository.FindByTransactionNumber` | backend/src/modules/transactions/infrastructure/persistence/transaction.repository.ts:28-33 | returns the one record with that number, or none when no record has it |
| `Transactions.TransactionsService.constructor` | backend/src/modules/transactions/application/services/transactions.service.ts:10-13 | holds the two collaborators it is given |
| `Transactions.TransactionsService.CreateTransaction` | backend/src/modules/transactions/application/services/transactions.service.ts:16-30 | stores a PENDING, CREDIT_CARD transaction for the product, with amount = price × quantity and the generated number, under the next serial key, which then moves on by one. A missing product or a duplicate number creates nothing and leaves the next key as it was. The stock is never changed |
| `Transactions.TransactionsService.UpdateTransactionStatus` | backend/src/modules/transactions/application/services/transactions.service.ts:33-45 | both tables and the result become what `StatusUpdate` gives, and neither table's next serial key changes |
| `Transactions.TransactionsService.GetAllTransactions` | backend/src/modules/transactions/application/services/transactions.service.ts:48-51 | returns every stored transaction exactly once |
| `Transactions.TransactionsService.GetTransactionById` | backend/src/modules/transactions/application/services/transactions.service.ts:54-61 | returns the stored transaction, or fails with "Transaction not found" |
| `TransactionSlice.InitialState` | frontend/src/store/slices/transactionSlice.ts:14-18 | nothing is followed, nothing is loading, and there is no error |
| `TransactionSlice.SetTransactionPending` | frontend/src/store/slices/transactionSlice.ts:24-30 | the payload becomes the current transaction with status PENDING, and loading is set. The error is kept |
| `TransactionSlice.WithStatus` | frontend/src/store/slices/transactionSlice.ts:32-33 | only the status of a present transaction changes; an absent one stays absent |
| `TransactionSlice.SetTransactionComplete` | frontend/src/store/slices/transactionSlice.ts:31-36 | a present transaction becomes COMPLETED and loading is cleared. The error is kept and no payload is read |
| `TransactionSlice.SetTransactionFailed` | frontend/src/store/slices/transactionSlice.ts:37-43 | a present transaction becomes FAILED, loading is cleared and the error becomes the payload |
| `TransactionSlice.Reduce` | frontend/src/store/slices/transactionSlice.ts:23-44 | the page waits exactly after a purchase is started; only a failure changes the error; a purchase comes into view only when one is started |
| `TransactionSlice.Run` | frontend/src/store/slices/transactionSlice.ts:23-44 | after a sequence of actions the page waits exactly when the last one started a purchase; without a failure among them the error is the one before |
| `TransactionSlice.ReduceKeepsWaitingMeansPending` | frontend/src/store/slices/transactionSlice.ts:24-43 | every reducer keeps "loading implies a PENDING current transaction" |
| `TransactionSlice.RunKeeps` | frontend/src/store/slices/transactionSlice.ts:24-43 | over any sequence of actions the invariant holds. Once a transaction is followed, one always is |
| `TransactionSlice.RunFromInitial` | frontend/src/store/slices/transactionSlice.ts:14-43 | every state reachable from the initial state satisfies the invariant |
| `TransactionSlice.OutcomeKeepsPurchase` | frontend/src/store/slices/transactionSlice.ts:32-33 | completing or failing changes only the status; id, amount and reference are kept |
| `TransactionSlice.StaleErrorSurvives` | frontend/src/store/slices/transactionSlice.ts:24-36 | an error from a failed purchase is still shown after a new purchase starts and completes |
| `TransactionSlice.NoStatusGuard` | frontend/src/store/slices/transactionSlice.ts:31-43 | a FAILED transaction can be marked COMPLETED, and back |
| `TransactionSlice.OutcomeWithoutPurchase` | frontend/src/store/slices/transactionSlice.ts:31-43 | with no current transaction, an outcome only clears loading (and, on failure, sets the error) |
| `ProductSlice.InitialState` | frontend/src/store/slices/productSlice.ts:12-16 | an empty list, not loading, no error |
| `ProductSlice.FirstIndexOf` | frontend/src/store/slices/productSlice.ts:26 | `find` stops at the first item with the id, and no earlier item has it |
| `ProductSlice.DecrementFirst` | frontend/src/store/slices/productSlice.ts:25-30 | the list keeps its length |
| `ProductSlice.DecrementFirstAt` | frontend/src/store/slices/productSlice.ts:25-30 | only the first item with the id changes, and only its stock, which drops by the quantity with no lower bound |
| `ProductSlice.DecrementFirstNoMatch` | frontend/src/store/slices/productSlice.ts:26-29 | with no item of that id the list is unchanged |
| `ProductSlice.DecrementFirstKeepsIds` | frontend/src/store/slices/productSlice.ts:25-30 | the ids, and so the order of the list, are kept |
| `ProductSlice.DecrementFirstCompose` | frontend/src/store/slices/productSlice.ts:25-30 | two decrements of the same product equal one decrement by their sum |
| `ProductSlice.DecrementFirstTotal` | frontend/src/store/slices/productSlice.ts:25-30 | total stock on the page drops by exactly the quantity when the product is listed, and not at all otherwise |
| `ProductSlice.DecrementFirstBelowZero` | frontend/src/store/slices/productSlice.ts:28 | 1 unit left and 3 bought leaves -2 |
| `ProductSlice.SetProducts` | frontend/src/store/slices/productSlice.ts:22-24 | the list is replaced; loading and error are kept |
| `ProductSlice.UpdateStock` | frontend/src/store/slices/productSlice.ts:25-30 | only the list changes, keeping its length |
| `ProductSlice.UpdateStockUnlisted` | frontend/src/store/slices/productSlice.ts:26-29 | for an id not in the list the whole state is unchanged |
| `ProductSlice.SetLoading` | frontend/src/store/slices/productSlice.ts:31-33 | only the loading flag changes |
| `ProductSlice.SetError` | frontend/src/store/slices/productSlice.ts:34-36 | only the error changes |

## Left out

- **Clock and randomness.** `new Date()`, `Date.now()` and `Math.random()` are
  not modelled. Each becomes a parameter: the full year and zero-based month
  index, the millisecond reading, and a real in [0, 1).
- **Floating point.** `price` and `amount` are `decimal(10,2)` columns, which
  JavaScript handles as floating-point numbers. They are whole cents here, so
  `price * quantity` is exact. The column's `precision: 10` limit is not
  enforced.
- **Strings.** Strings are sequences of Unicode code points, not UTF-16 code
  units. Nothing here depends on characters outside the Basic Multilingual
  Plane.
- **Async and concurrency.** Each `await` is one sequential step. Two requests
  running at once, which could each read the same stock before either
  writes, are not modelled.
- **Object-relational mapping details.**
  - `Products.ProductRepository.Save` covers only inserting a product without
    an id. The update-when-the-id-exists behaviour of `save(Partial<Product>)`
    is not modelled.
  - Partial records, `paymentDetails`, `createdAt` and `updatedAt` are not
    modelled.
  - The loaded `product` relation of a transaction is kept as the product's
    key.
  - A refused insert does not use up a serial key here, as a database
    sequence would.
  - The refusal of a duplicate transaction number is one fixed message. The
    database error object is not modelled.
- **Failing storage.** The repositories here always succeed. A database that
  refuses a read, save or update is not modelled. So a failure between the
  two writes of `updateTransactionStatus` is never visible here: the stock
  could be taken and then the status write fail
  (transactions.service.ts:41-44 are two separate writes with no
  transaction around them). `UpdateTransactionStatus` states only the runs
  in which every write succeeds.
- **Missing repository methods.** `getAllTransactions` and
  `getTransactionById` call `findAll` and `findById` on the transaction
  repository, but that repository does not define them. Here they read the
  table directly.
- **Behaviour the code does not have.** The model follows the code:
  - there is no guard against changing a COMPLETED or FAILED transaction;
  - stock is not released when a transaction fails;
  - stock is not reserved when a transaction is created.
- **Redux plumbing.** Action creators, immer drafts and the store wiring are not
  modelled. `setTransactionPending` copies every field of an arbitrary payload;
  here the payload is only the id, amount and reference the state declares.
  `setTransactionFailed` stores whatever it is given; here that is a string or
  nothing.
- **The error record.** `validateCardData` builds a plain object. It is a map
  here, so the order of `Object.keys` is not modelled.
- **Radixes other than 16 and 10.** `parseInt` is modelled for calls without a
  radix argument, which is how the code calls it: base 16 after `0x`, base 10
  otherwise.
- **The spaced example "4111 1111 1111 1111".** It is covered by
  `CardNumberIgnoresWhitespace` and `LuhnExampleVisa` together, not by a
  literal lemma of its own.
