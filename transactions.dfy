/** Purchases on the backend: the `transaction` table behind
    `TransactionRepository`, and `TransactionsService`, which opens a pending
    transaction for a product and later records its outcome, taking one unit of
    stock when the outcome is `COMPLETED`. Amounts are whole cents. */
module Transactions {
  import opened Common
  import opened Products

  /** A row of the `transaction` table. The `product` relation is held as the
      key of the product row; `paymentDetails` and the timestamps are left out. */
  datatype Transaction = Transaction(
    id: int,
    transactionNumber: string,
    productId: int,
    amount: int,
    status: string,
    paymentMethod: string)

  type TransactionTable = map<int, Transaction>

  const Pending := "PENDING"
  const Completed := "COMPLETED"
  const CreditCard := "CREDIT_CARD"

  const TransactionNotFoundMessage := "Transacción no encontrada"
  const TransactionByIdNotFoundMessage := "Transaction not found"
  /** The database's refusal of a second row with a number already in use. */
  const DuplicateNumberMessage := "duplicate key value violates unique constraint"

  /** Every row is stored under its own primary key. */
  predicate WellKeyedTransactions(rows: TransactionTable)
  {
    forall id | id in rows :: rows[id].id == id
  }

  /** The `unique: true` constraint on `transactionNumber`. */
  predicate NumbersUnique(rows: TransactionTable)
  {
    forall a, b | a in rows && b in rows && rows[a].transactionNumber == rows[b].transactionNumber :: a == b
  }

  predicate HasNumber(rows: TransactionTable, number: string)
  {
    exists k | k in rows :: rows[k].transactionNumber == number
  }

  /** Each transaction's product is a row of the product table (the foreign key
      of the `product` relation). */
  predicate ReferencesExist(rows: TransactionTable, products: ProductTable)
  {
    forall k | k in rows :: rows[k].productId in products
  }

  /** `list` is a reading of the whole table: each row exactly once, in some order. */
  predicate ListsTransactions(list: seq<Transaction>, rows: TransactionTable)
  {
    && |list| == |rows|
    && (forall i | 0 <= i < |list| :: list[i].id in rows && rows[list[i].id] == list[i])
    && (forall id | id in rows :: rows[id] in list)
    && (forall i, j | 0 <= i < j < |list| :: list[i].id != list[j].id)
  }

  /** The key of the one row carrying `number`. */
  ghost function KeyOfNumber(rows: TransactionTable, number: string): (k: int)
    requires HasNumber(rows, number)
    ensures k in rows && rows[k].transactionNumber == number
  {
    var k :| k in rows && rows[k].transactionNumber == number; k
  }

  // ---------------------------------------------------------------------------
  // Transaction numbers
  // ---------------------------------------------------------------------------

  /** `Math.floor(random * 1000)` for a `random` in [0, 1). */
  function RandomSuffix(random: real): (n: nat)
    requires 0.0 <= random < 1.0
    ensures n <= 999
    ensures n as real <= random * 1000.0 < n as real + 1.0
  {
    (random * 1000.0).Floor
  }

  /** `TRX-<milliseconds>-<suffix>`; the clock reading and the random number are
      the caller's. */
  function GenerateTransactionNumber(nowMs: nat, random: real): (number: string)
    requires 0.0 <= random < 1.0
    ensures |number| >= 7 && number[..4] == "TRX-"
    ensures forall i | 4 <= i < |number| :: IsDigit(number[i]) || number[i] == '-'
  {
    "TRX-" + DecimalString(nowMs) + "-" + DecimalString(RandomSuffix(random))
  }

  /** The position of the first '-' in `s`, or `|s|` if there is none. */
  function IndexOfDash(s: string): (k: nat)
    ensures k <= |s|
  {
    if s == [] || s[0] == '-' then 0 else 1 + IndexOfDash(s[1..])
  }

  /** Reads a transaction number back into its clock reading and suffix. */
  function ParseTransactionNumber(s: string): Option<(nat, nat)>
  {
    if |s| < 4 || s[..4] != "TRX-" then None
    else
      var rest := s[4..];
      var k := IndexOfDash(rest);
      if k == |rest| then None
      else
        var ms, suffix := rest[..k], rest[k + 1..];
        if AllDigits(ms) && AllDigits(suffix) then Some((DecimalValue(ms), DecimalValue(suffix)))
        else None
  }

  lemma {:induction false} IndexOfDashAfterDigits(digits: string, tail: string)
    requires AllDigits(digits)
    ensures IndexOfDash(digits + "-" + tail) == |digits|
    decreases |digits|
  {
    if digits != [] {
      assert (digits + "-" + tail)[1..] == digits[1..] + "-" + tail;
      IndexOfDashAfterDigits(digits[1..], tail);
    }
  }

  /** A generated number carries its clock reading and suffix recoverably. */
  lemma TransactionNumberRoundTrip(nowMs: nat, random: real)
    requires 0.0 <= random < 1.0
    ensures ParseTransactionNumber(GenerateTransactionNumber(nowMs, random)) == Some((nowMs, RandomSuffix(random)))
  {
    var ms, suffix := DecimalString(nowMs), DecimalString(RandomSuffix(random));
    var s := GenerateTransactionNumber(nowMs, random);
    assert s == "TRX-" + (ms + "-" + suffix);
    assert s[..4] == "TRX-";
    var rest := s[4..];
    assert rest == ms + "-" + suffix;
    IndexOfDashAfterDigits(ms, suffix);
    assert rest[..|ms|] == ms;
    assert rest[|ms| + 1..] == suffix;
    DecimalRoundTrip(nowMs);
    DecimalRoundTrip(RandomSuffix(random));
  }

  /** Two numbers are equal exactly when they were made in the same millisecond
      with the same suffix: distinct clock readings never collide, and two
      purchases within one millisecond collide one time in a thousand. */
  lemma TransactionNumberCollision(ms1: nat, r1: real, ms2: nat, r2: real)
    requires 0.0 <= r1 < 1.0 && 0.0 <= r2 < 1.0
    ensures GenerateTransactionNumber(ms1, r1) == GenerateTransactionNumber(ms2, r2)
        <==> ms1 == ms2 && RandomSuffix(r1) == RandomSuffix(r2)
  {
    if GenerateTransactionNumber(ms1, r1) == GenerateTransactionNumber(ms2, r2) {
      TransactionNumberRoundTrip(ms1, r1);
      TransactionNumberRoundTrip(ms2, r2);
    }
  }

  // ---------------------------------------------------------------------------
  // Status updates, as a function of both tables
  // ---------------------------------------------------------------------------

  /** What `updateTransactionStatus(number, status)` does to the product and
      transaction tables: an unknown number is an error; `COMPLETED` first takes
      one unit of the transaction's product and stops on failure; then the
      status is overwritten, whatever it was. */
  ghost function StatusUpdate(products: ProductTable, txs: TransactionTable, number: string, status: string)
    : (out: (Result<Transaction>, ProductTable, TransactionTable))
    requires WellKeyedTransactions(txs)
    ensures out.0.Err? ==> out.1 == products && out.2 == txs
    ensures !HasNumber(txs, number) ==> out.0 == Err(TransactionNotFoundMessage)
    ensures out.0.Ok? ==> var t := out.0.value;
      && t.id in txs && txs[t.id].transactionNumber == number
      && t == txs[t.id].(status := status)
      && out.2 == txs[t.id := t]
    ensures status != Completed ==> out.1 == products
    ensures out.1.Keys == products.Keys && out.2.Keys == txs.Keys
  {
    if !HasNumber(txs, number) then (Err(TransactionNotFoundMessage), products, txs)
    else
      var t := txs[KeyOfNumber(txs, number)];
      var stock := if status == Completed then Purchase(products, t.productId, 1) else Ok(products);
      if stock.Err? then (Err(stock.message), products, txs)
      else
        var t' := t.(status := status);
        (Ok(t'), stock.value, txs[t.id := t'])
  }

  /** An unknown number changes neither table. */
  lemma StatusUpdateUnknown(products: ProductTable, txs: TransactionTable, number: string, status: string)
    requires WellKeyedTransactions(txs) && !HasNumber(txs, number)
    ensures StatusUpdate(products, txs, number, status) == (Err(TransactionNotFoundMessage), products, txs)
  {
  }

  /** Any status other than `COMPLETED` leaves the stock alone and changes only
      the status of the one transaction. */
  lemma StatusUpdateOther(products: ProductTable, txs: TransactionTable, number: string, status: string, k: int)
    requires WellKeyedTransactions(txs) && NumbersUnique(txs)
    requires k in txs && txs[k].transactionNumber == number && status != Completed
    ensures StatusUpdate(products, txs, number, status) ==
      (Ok(txs[k].(status := status)), products, txs[k := txs[k].(status := status)])
  {
    assert KeyOfNumber(txs, number) == k;
  }

  /** `COMPLETED` takes exactly one unit of the transaction's product, whatever
      quantity was bought, when one is left; the status is written only then. */
  lemma StatusUpdateCompleted(products: ProductTable, txs: TransactionTable, number: string, k: int)
    requires WellKeyedTransactions(txs) && NumbersUnique(txs)
    requires k in txs && txs[k].transactionNumber == number
    ensures var p := txs[k].productId;
      var out := StatusUpdate(products, txs, number, Completed);
      && (p in products && products[p].stock >= 1 ==>
            && out.0 == Ok(txs[k].(status := Completed))
            && out.2 == txs[k := txs[k].(status := Completed)]
            && out.1 == products[p := products[p].(stock := products[p].stock - 1)])
      && (p !in products ==> out == (Err(ProductNotFoundMessage), products, txs))
      && (p in products && products[p].stock < 1 ==> out == (Err(InsufficientStockMessage), products, txs))
  {
    assert KeyOfNumber(txs, number) == k;
    var p := txs[k].productId;
    if p in products && products[p].stock >= 1 {
      assert Purchase(products, p, 1).value == products[p := products[p].(stock := products[p].stock - 1)];
    }
  }

  /** No terminal-state guard: completing an already completed transaction
      takes stock again, and a failed transaction can still be completed. */
  lemma StatusUpdateNoGuard(products: ProductTable, txs: TransactionTable, number: string, k: int)
    requires WellKeyedTransactions(txs) && NumbersUnique(txs)
    requires k in txs && txs[k].transactionNumber == number
    requires txs[k].status == Completed || txs[k].status == "FAILED"
    requires txs[k].productId in products && products[txs[k].productId].stock >= 1
    ensures StatusUpdate(products, txs, number, Completed).0.Ok?
    ensures var p := txs[k].productId;
      StatusUpdate(products, txs, number, Completed).1[p].stock == products[p].stock - 1
  {
    StatusUpdateCompleted(products, txs, number, k);
  }

  /** A status update keeps every invariant of the two tables. */
  lemma StatusUpdateKeepsInvariants(products: ProductTable, txs: TransactionTable, number: string, status: string)
    requires WellKeyed(products) && WellKeyedTransactions(txs) && NumbersUnique(txs)
    requires ReferencesExist(txs, products)
    ensures var out := StatusUpdate(products, txs, number, status);
      && WellKeyed(out.1) && WellKeyedTransactions(out.2) && NumbersUnique(out.2)
      && ReferencesExist(out.2, out.1)
      && out.1.Keys == products.Keys && out.2.Keys == txs.Keys
  {
    var out := StatusUpdate(products, txs, number, status);
    if HasNumber(txs, number) && status == Completed {
      var t := txs[KeyOfNumber(txs, number)];
      PurchaseKeepsWellKeyed(products, t.productId, 1);
    }
    if HasNumber(txs, number) && out.0.Ok? {
      var k := KeyOfNumber(txs, number);
      forall a, b | a in out.2 && b in out.2 && out.2[a].transactionNumber == out.2[b].transactionNumber
        ensures a == b
      {
        assert out.2[a].transactionNumber == txs[a].transactionNumber;
        assert out.2[b].transactionNumber == txs[b].transactionNumber;
      }
    }
  }

  // ---------------------------------------------------------------------------
  // The repository and the service
  // ---------------------------------------------------------------------------

  /** The `transaction` table. `nextId` is the next value of the serial key. */
  class TransactionRepository {
    var rows: TransactionTable
    var nextId: int

    ghost predicate Valid()
      reads this
    {
      && WellKeyedTransactions(rows) && NumbersUnique(rows)
      && 1 <= nextId && (forall id | id in rows :: 1 <= id < nextId)
    }

    constructor ()
      ensures Valid() && rows == map[] && nextId == 1
    {
      rows := map[];
      nextId := 1;
    }

    /** `save(create(transaction))`: inserts a new row under the next key, unless
        its number is already taken, which the unique column refuses. */
    method Create(transactionNumber: string, productId: int, amount: int, status: string, paymentMethod: string)
      returns (r: Result<Transaction>)
      requires Valid()
      modifies this
      ensures Valid()
      ensures HasNumber(old(rows), transactionNumber) ==>
        r == Err(DuplicateNumberMessage) && rows == old(rows) && nextId == old(nextId)
      ensures !HasNumber(old(rows), transactionNumber) ==>
        && r == Ok(Transaction(old(nextId), transactionNumber, productId, amount, status, paymentMethod))
        && old(nextId) !in old(rows)
        && rows == old(rows)[old(nextId) := r.value]
        && nextId == old(nextId) + 1
    {
      if exists k | k in rows :: rows[k].transactionNumber == transactionNumber {
        return Err(DuplicateNumberMessage);
      }
      var t := Transaction(nextId, transactionNumber, productId, amount, status, paymentMethod);
      rows := rows[nextId := t];
      nextId := nextId + 1;
      r := Ok(t);
    }

    /** `update(id, { status })` then `findOne`: overwrites the status of one
        row, nothing else, and re-reads it. An unknown id changes nothing. */
    method UpdateStatus(id: int, status: string) returns (r: Option<Transaction>)
      requires Valid()
      modifies this
      ensures Valid() && nextId == old(nextId)
      ensures id in old(rows) ==> rows == old(rows)[id := old(rows)[id].(status := status)]
      ensures id !in old(rows) ==> rows == old(rows)
      ensures r.Some? <==> id in old(rows)
      ensures r.Some? ==> r.value == rows[id] && r.value.status == status
    {
      if id in rows {
        rows := rows[id := rows[id].(status := status)];
        assert forall k | k in rows :: rows[k].transactionNumber == old(rows)[k].transactionNumber;
      }
      if id in rows {
        r := Some(rows[id]);
      } else {
        r := None;
      }
    }

    /** `findOne({ where: { transactionNumber } })`: the one row with that
        number, or none. */
    method FindByTransactionNumber(number: string) returns (r: Option<Transaction>)
      requires Valid()
      ensures r.Some? <==> HasNumber(rows, number)
      ensures forall k | k in rows && rows[k].transactionNumber == number :: r == Some(rows[k])
    {
      if exists k | k in rows :: rows[k].transactionNumber == number {
        var k :| k in rows && rows[k].transactionNumber == number;
        r := Some(rows[k]);
      } else {
        r := None;
      }
    }
  }

  class TransactionsService {
    const transactionRepository: TransactionRepository
    const productsService: ProductsService

    ghost predicate Valid()
      reads transactionRepository, productsService.repository
    {
      && transactionRepository.Valid() && productsService.repository.Valid()
      && ReferencesExist(transactionRepository.rows, productsService.repository.rows)
    }

    constructor (transactionRepository: TransactionRepository, productsService: ProductsService)
      requires transactionRepository.Valid() && productsService.repository.Valid()
      requires ReferencesExist(transactionRepository.rows, productsService.repository.rows)
      ensures this.transactionRepository == transactionRepository
      ensures this.productsService == productsService
      ensures Valid()
    {
      this.transactionRepository := transactionRepository;
      this.productsService := productsService;
    }

    /** Opens a `PENDING` credit-card transaction for `quantity` units of a
        product, priced at the product's price times the quantity. The stock is
        not touched; a missing product creates nothing. */
    method CreateTransaction(productId: int, quantity: int, nowMs: nat, random: real) returns (r: Result<Transaction>)
      requires 0.0 <= random < 1.0
      requires Valid()
      modifies transactionRepository
      ensures Valid()
      ensures unchanged(productsService.repository)
      ensures productId !in productsService.repository.rows ==>
        r == Err(ProductNotFoundMessage) && unchanged(transactionRepository)
      ensures productId in productsService.repository.rows ==>
        var number := GenerateTransactionNumber(nowMs, random);
        var price := productsService.repository.rows[productId].price;
        && (HasNumber(old(transactionRepository.rows), number) ==>
              r == Err(DuplicateNumberMessage) && transactionRepository.rows == old(transactionRepository.rows))
        && (!HasNumber(old(transactionRepository.rows), number) ==>
              && r == Ok(Transaction(old(transactionRepository.nextId), number, productId,
                                     price * quantity, Pending, CreditCard))
              && transactionRepository.rows == old(transactionRepository.rows)[r.value.id := r.value])
      ensures transactionRepository.nextId == old(transactionRepository.nextId) + (if r.Ok? then 1 else 0)
    {
      var product := productsService.GetProductById(productId);
      if product.Err? {
        return Err(product.message);
      }
      var amount := product.value.price * quantity;
      var number := GenerateTransactionNumber(nowMs, random);
      r := transactionRepository.Create(number, productId, amount, Pending, CreditCard);
    }

    /** Records the outcome of a transaction: both tables become what
        `StatusUpdate` says. */
    method UpdateTransactionStatus(number: string, status: string) returns (r: Result<Transaction>)
      requires Valid()
      modifies transactionRepository, productsService.repository
      ensures Valid()
      ensures (r, productsService.repository.rows, transactionRepository.rows) ==
        StatusUpdate(old(productsService.repository.rows), old(transactionRepository.rows), number, status)
      ensures transactionRepository.nextId == old(transactionRepository.nextId)
      ensures productsService.repository.nextId == old(productsService.repository.nextId)
    {
      ghost var products, txs := productsService.repository.rows, transactionRepository.rows;
      StatusUpdateKeepsInvariants(products, txs, number, status);
      var transaction := transactionRepository.FindByTransactionNumber(number);
      if transaction.None? {
        return Err(TransactionNotFoundMessage);
      }
      var t := transaction.value;
      assert KeyOfNumber(txs, number) == t.id;
      if status == Completed {
        var stock := productsService.UpdateProductStock(t.productId, 1);
        if stock.Err? {
          return Err(stock.message);
        }
      }
      var updated := transactionRepository.UpdateStatus(t.id, status);
      r := Ok(updated.value);
    }

    /** `findAll()` on the transaction table. */
    method GetAllTransactions() returns (list: seq<Transaction>)
      requires transactionRepository.Valid()
      ensures ListsTransactions(list, transactionRepository.rows)
    {
      ghost var keys;
      list, keys := TableValues(transactionRepository.rows);
      forall i | 0 <= i < |list|
        ensures list[i].id == keys[i]
      {
      }
    }

    /** `findById(id)` on the transaction table, with its own error message. */
    method GetTransactionById(id: int) returns (r: Result<Transaction>)
      ensures r.Ok? <==> id in transactionRepository.rows
      ensures r.Ok? ==> r.value == transactionRepository.rows[id]
      ensures r.Err? ==> r.message == TransactionByIdNotFoundMessage
    {
      if id !in transactionRepository.rows {
        return Err(TransactionByIdNotFoundMessage);
      }
      r := Ok(transactionRepository.rows[id]);
    }
  }
}
