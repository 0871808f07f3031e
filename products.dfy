/** The product catalogue of the backend: the `product` table behind
    `ProductRepository`, and `ProductsService`, which looks products up and
    takes stock away when something is bought. Prices are whole cents. */
module Products {
  import opened Common

  /** A row of the `product` table. `price` is a `decimal(10,2)` column, held
      here in cents. */
  datatype Product = Product(id: int, name: string, price: int, description: string, stock: int)

  type ProductTable = map<int, Product>

  const ProductNotFoundMessage := "Producto no encontrado"
  const InsufficientStockMessage := "No hay suficiente stock disponible"

  /** Every row is stored under its own primary key. */
  predicate WellKeyed(rows: ProductTable)
  {
    forall id | id in rows :: rows[id].id == id
  }

  /** `list` is a reading of the whole table: each row exactly once, in some order. */
  predicate ListsTable(list: seq<Product>, rows: ProductTable)
  {
    && |list| == |rows|
    && (forall i | 0 <= i < |list| :: list[i].id in rows && rows[list[i].id] == list[i])
    && (forall id | id in rows :: rows[id] in list)
    && (forall i, j | 0 <= i < j < |list| :: list[i].id != list[j].id)
  }

  /** The purchase rule on one product: the stock may drop to zero but not
      below it, since only `stock < quantity` is refused. */
  function Decrement(p: Product, quantity: int): (r: Result<Product>)
    ensures r.Ok? <==> quantity <= p.stock
    ensures r.Ok? ==> r.value.stock >= 0 && r.value.stock + quantity == p.stock
    ensures r.Ok? ==> r.value.(stock := p.stock) == p
    ensures r.Err? ==> r.message == InsufficientStockMessage
  {
    if p.stock < quantity then Err(InsufficientStockMessage)
    else Ok(p.(stock := p.stock - quantity))
  }

  /** What `updateProductStock(id, quantity)` does to the table: a missing
      product is reported before the stock is looked at; on success only the
      one row changes. */
  function Purchase(rows: ProductTable, id: int, quantity: int): (r: Result<ProductTable>)
    ensures id !in rows ==> r == Err(ProductNotFoundMessage)
    ensures id in rows ==> (r.Ok? <==> quantity <= rows[id].stock)
    ensures r.Ok? ==> r.value.Keys == rows.Keys
    ensures r.Ok? ==> forall k | k in rows && k != id :: r.value[k] == rows[k]
    ensures r.Ok? ==> Decrement(rows[id], quantity) == Ok(r.value[id])
  {
    if id !in rows then Err(ProductNotFoundMessage)
    else match Decrement(rows[id], quantity)
      case Err(m) => Err(m)
      case Ok(p) => Ok(rows[id := p])
  }

  /** A purchase keeps every row under its own key. */
  lemma PurchaseKeepsWellKeyed(rows: ProductTable, id: int, quantity: int)
    requires WellKeyed(rows)
    ensures Purchase(rows, id, quantity).Ok? ==> WellKeyed(Purchase(rows, id, quantity).value)
  {
    var r := Purchase(rows, id, quantity);
    if r.Ok? {
      forall k | k in r.value
        ensures r.value[k].id == k
      {
        if k == id {
          assert r.value[id].(stock := rows[id].stock) == rows[id];
        }
      }
    }
  }

  /** No purchase can take a non-negative stock below zero. */
  lemma PurchaseKeepsStockNatural(rows: ProductTable, id: int, quantity: int)
    requires forall k | k in rows :: rows[k].stock >= 0
    ensures Purchase(rows, id, quantity).Ok? ==>
      forall k | k in rows :: Purchase(rows, id, quantity).value[k].stock >= 0
  {
  }

  /** Buying the whole stock is allowed and leaves exactly zero. */
  lemma PurchaseAllStock(rows: ProductTable, id: int)
    requires id in rows
    ensures Purchase(rows, id, rows[id].stock).Ok?
    ensures Purchase(rows, id, rows[id].stock).value[id].stock == 0
  {
  }

  /** Two purchases of a and b units succeed exactly when one purchase of a + b
      units does, and leave the same table. */
  lemma PurchaseCompose(rows: ProductTable, id: int, a: int, b: int)
    requires a >= 0 && b >= 0
    ensures var first := Purchase(rows, id, a);
      && (Purchase(rows, id, a + b).Ok? <==> first.Ok? && Purchase(first.value, id, b).Ok?)
      && (Purchase(rows, id, a + b).Ok? ==> Purchase(rows, id, a + b) == Purchase(first.value, id, b))
  {
    var first := Purchase(rows, id, a);
    if Purchase(rows, id, a + b).Ok? {
      assert first.Ok?;
      var p := rows[id];
      var q := first.value[id];
      assert q == p.(stock := p.stock - a);
      assert Purchase(first.value, id, b).Ok?;
      assert first.value[id := q.(stock := q.stock - b)] == rows[id := p.(stock := p.stock - a - b)];
    }
  }

  /** A product with 50 units of which 5 are bought keeps 45. */
  lemma PurchaseExample()
    ensures var rows := map[1 := Product(1, "Laptop", 99999, "Laptop gamer", 50)];
      Purchase(rows, 1, 5) == Ok(rows[1 := Product(1, "Laptop", 99999, "Laptop gamer", 45)])
  {
  }

  /** The `product` table. `nextId` is the next value of the serial primary key. */
  class ProductRepository {
    var rows: ProductTable
    var nextId: int

    ghost predicate Valid()
      reads this
    {
      WellKeyed(rows) && 1 <= nextId && forall id | id in rows :: 1 <= id < nextId
    }

    constructor ()
      ensures Valid() && rows == map[] && nextId == 1
    {
      rows := map[];
      nextId := 1;
    }

    /** `find()`: all rows. */
    method FindAll() returns (list: seq<Product>)
      requires Valid()
      ensures ListsTable(list, rows)
    {
      ghost var keys;
      list, keys := TableValues(rows);
      forall i | 0 <= i < |list|
        ensures list[i].id == keys[i]
      {
      }
    }

    /** `findOne({ where: { id } })`: the row, or none. */
    method FindById(id: int) returns (r: Option<Product>)
      ensures r.Some? <==> id in rows
      ensures r.Some? ==> r.value == rows[id]
    {
      if id in rows {
        r := Some(rows[id]);
      } else {
        r := None;
      }
    }

    /** `save(create(product))` for a product without an id: inserts a new row
        under the next key and returns it. */
    method Save(name: string, price: int, description: string, stock: int) returns (p: Product)
      requires Valid()
      modifies this
      ensures Valid()
      ensures p == Product(old(nextId), name, price, description, stock)
      ensures p.id !in old(rows) && rows == old(rows)[p.id := p]
      ensures nextId == old(nextId) + 1
    {
      p := Product(nextId, name, price, description, stock);
      rows := rows[nextId := p];
      nextId := nextId + 1;
    }

    /** `update(id, { stock })` then `findOne`: overwrites one row's stock with
        whatever value it is given, negative included, and re-reads the row.
        An unknown id writes nothing and reads nothing back. */
    method UpdateStock(id: int, newStock: int) returns (r: Option<Product>)
      requires Valid()
      modifies this
      ensures Valid() && nextId == old(nextId)
      ensures id in old(rows) ==> rows == old(rows)[id := old(rows)[id].(stock := newStock)]
      ensures id !in old(rows) ==> rows == old(rows)
      ensures r.Some? <==> id in old(rows)
      ensures r.Some? ==> r.value == rows[id] && r.value.stock == newStock
    {
      if id in rows {
        rows := rows[id := rows[id].(stock := newStock)];
      }
      r := FindById(id);
    }
  }

  class ProductsService {
    const repository: ProductRepository

    constructor (repository: ProductRepository)
      ensures this.repository == repository
    {
      this.repository := repository;
    }

    method GetAllProducts() returns (list: seq<Product>)
      requires repository.Valid()
      ensures ListsTable(list, repository.rows)
    {
      list := repository.FindAll();
    }

    method GetProductById(id: int) returns (r: Result<Product>)
      ensures r.Ok? <==> id in repository.rows
      ensures r.Ok? ==> r.value == repository.rows[id]
      ensures r.Err? ==> r.message == ProductNotFoundMessage
    {
      var found := repository.FindById(id);
      if found.None? {
        return Err(ProductNotFoundMessage);
      }
      r := Ok(found.value);
    }

    /** Takes `quantity` units of product `id`: the table becomes what
        `Purchase` says, and nothing is written on either error. */
    method UpdateProductStock(id: int, quantity: int) returns (r: Result<Product>)
      requires repository.Valid()
      modifies repository
      ensures repository.Valid() && repository.nextId == old(repository.nextId)
      ensures Purchase(old(repository.rows), id, quantity).Err? ==>
        && repository.rows == old(repository.rows)
        && r == Err(Purchase(old(repository.rows), id, quantity).message)
      ensures Purchase(old(repository.rows), id, quantity).Ok? ==>
        && repository.rows == Purchase(old(repository.rows), id, quantity).value
        && r == Ok(repository.rows[id])
    {
      var product := GetProductById(id);
      if product.Err? {
        return Err(product.message);
      }
      if product.value.stock < quantity {
        return Err(InsufficientStockMessage);
      }
      var newStock := product.value.stock - quantity;
      var updated := repository.UpdateStock(id, newStock);
      r := Ok(updated.value);
    }
  }
}
