/** The product endpoints over an in-memory table: listings with owner
    restriction, search, category, sorting and paging; the category list; the
    low-stock list; and the create, update, stock and delete handlers with their
    404/403/400 checks and the one activity-log row each success appends.
    The caller is the `TokenData` of a verified token (it always carries a user
    id), and the current instant is given as `now`. */
module Products {
  import opened Common
  import opened Records
  import opened Schemas
  import Sorting
  import Paging

  /** One row of the products table. `category` is only ever read here: no
      request body sets it. */
  datatype Product = Product(
    id: int,
    name: string,
    description: Option<string>,
    quantity: int,
    category: Option<string>,
    createdAt: int,
    updatedAt: int,
    ownerId: int)

  /** A handler's reply: a value, an `HTTPException`, or a rejected body. */
  datatype Outcome<T> = Ok(value: T) | HttpError(status: int, detail: string) | Unprocessable(violations: seq<Violation>)

  const ProductNotFound: string := "Product not found"
  const NoProductsFound: string := "No products found"
  const NotAuthorizedUpdate: string := "Not authorized to update this product"
  const NotAuthorizedDelete: string := "Not authorized to delete this product"
  const InsufficientStock: string := "Insufficient stock to decrease"

  /** Query parameter defaults: `threshold` of the low-stock listing, and
      `page` and `page_size` of the paged listing. */
  const DefaultLowStockThreshold: int := 5
  const DefaultPage: int := 1
  const DefaultPageSize: int := 10

  // ---------------------------------------------------------------------------
  // Who sees and changes what
  // ---------------------------------------------------------------------------

  /** `current_user.role == "user"`: only this exact role is restricted; a
      missing role is not. */
  predicate IsPlainUser(caller: TokenData)
  {
    caller.role == Some("user")
  }

  predicate Owns(caller: TokenData, p: Product)
  {
    caller.userId == Some(p.ownerId)
  }

  /** Plain users see their own products; every other caller sees all. */
  predicate SeesProduct(caller: TokenData, p: Product)
  {
    !IsPlainUser(caller) || Owns(caller, p)
  }

  /** The owner or an admin may change a product. */
  predicate MayChange(caller: TokenData, p: Product)
  {
    Owns(caller, p) || caller.role == Some("admin")
  }

  /** `if search:` and `if category:` -- an absent or empty value is inactive. */
  predicate Active(s: Option<string>)
  {
    s.Some? && s.value != ""
  }

  /** A product the listings return: visible to the caller, its name containing
      an active search, its category equal to an active category. */
  predicate Listed(caller: TokenData, search: Option<string>, category: Option<string>, p: Product)
  {
    SeesProduct(caller, p) &&
    (!Active(search) || Includes(p.name, search.value)) &&
    (!Active(category) || p.category == category)
  }

  function ListedPred(caller: TokenData, search: Option<string>, category: Option<string>): Product -> bool
  {
    p => Listed(caller, search, category, p)
  }

  /** Position of the row with id `id`. */
  function IndexOf(rows: seq<Product>, id: int): (r: Option<nat>)
    ensures r.Some? ==> r.value < |rows| && rows[r.value].id == id
    ensures r.None? ==> forall i :: 0 <= i < |rows| ==> rows[i].id != id
  {
    if rows == [] then None
    else if rows[0].id == id then Some(0)
    else
      var r := IndexOf(rows[1..], id);
      if r.Some? then Some(r.value + 1) else None
  }

  /** Ids strictly increase along the table, as an auto-increment key does. */
  predicate IdsIncreasing(rows: seq<Product>)
  {
    forall i, j :: 0 <= i < j < |rows| ==> rows[i].id < rows[j].id
  }

  /** The rows after taking out the one at `i`: those before it, then those
      after it, shifted down by one. */
  lemma {:induction false} RemoveAtIndex(rows: seq<Product>, i: nat)
    requires i < |rows|
    ensures |rows[..i] + rows[i + 1..]| == |rows| - 1
    ensures forall k :: 0 <= k < i ==> (rows[..i] + rows[i + 1..])[k] == rows[k]
    ensures forall k :: i < k < |rows| ==> (rows[..i] + rows[i + 1..])[k - 1] == rows[k]
  {
  }

  /** Taking out the row at `i` keeps the ids increasing. */
  lemma RemoveKeepsOrder(rows: seq<Product>, i: nat)
    requires IdsIncreasing(rows) && i < |rows|
    ensures IdsIncreasing(rows[..i] + rows[i + 1..])
  {
    var rest := rows[..i] + rows[i + 1..];
    RemoveAtIndex(rows, i);
    forall a, b | 0 <= a < b < |rest|
      ensures rest[a].id < rest[b].id
    {
      var a' := if a < i then a else a + 1;
      var b' := if b < i then b else b + 1;
      assert rest[a] == rows[a'];
      assert rest[b] == rows[b'];
    }
  }

  /** Taking out the row at `i` removes exactly the product with its id, since
      ids are unique. */
  lemma RemoveOnlyThat(rows: seq<Product>, i: nat)
    requires IdsIncreasing(rows) && i < |rows|
    ensures forall p :: p in rows[..i] + rows[i + 1..] <==> p in rows && p.id != rows[i].id
  {
    forall p
      ensures p in rows[..i] + rows[i + 1..] <==> p in rows && p.id != rows[i].id
    {
      if p in rows && p.id != rows[i].id {
        RemoveKeepsOther(rows, i, p);
      }
      if p in rows[..i] + rows[i + 1..] {
        RemoveTakesFromRows(rows, i, p);
      }
    }
  }

  lemma RemoveKeepsOther(rows: seq<Product>, i: nat, p: Product)
    requires i < |rows| && p in rows && p.id != rows[i].id
    ensures p in rows[..i] + rows[i + 1..]
  {
    var rest := rows[..i] + rows[i + 1..];
    RemoveAtIndex(rows, i);
    var j :| 0 <= j < |rows| && rows[j] == p;
    if j < i {
      assert rest[j] == p;
    } else {
      assert rest[j - 1] == p;
    }
  }

  lemma RemoveTakesFromRows(rows: seq<Product>, i: nat, p: Product)
    requires IdsIncreasing(rows) && i < |rows| && p in rows[..i] + rows[i + 1..]
    ensures p in rows && p.id != rows[i].id
  {
    var rest := rows[..i] + rows[i + 1..];
    var j :| 0 <= j < |rest| && rest[j] == p;
    var j' := if j < i then j else j + 1;
    if j < i {
      assert rest[j] == rows[..i][j];
    } else {
      assert rest[j] == rows[i + 1..][j - i];
    }
    assert rows[j'] == p;
    if j' < i {
      assert rows[j'].id < rows[i].id;
    } else {
      assert rows[i].id < rows[j'].id;
    }
  }

  /** The table invariant: ids increasing, positive and below the next id, and
      every stock quantity non-negative. */
  predicate TableOk(rows: seq<Product>, nextId: int)
  {
    IdsIncreasing(rows) &&
    forall i :: 0 <= i < |rows| ==> 1 <= rows[i].id < nextId && rows[i].quantity >= 0
  }

  /** Log ids are positive and below the next log id. */
  predicate LogOk(logs: seq<LogEntry>, nextId: int)
  {
    forall k :: 0 <= k < |logs| ==> 1 <= logs[k].id < nextId
  }

  /** A new row with the next id and a non-negative quantity keeps the invariant. */
  lemma TableOkAppend(rows: seq<Product>, nextId: int, p: Product)
    requires TableOk(rows, nextId) && p.id == nextId && nextId >= 1 && p.quantity >= 0
    ensures TableOk(rows + [p], nextId + 1)
  {
  }

  /** Changing a row but not its id, to a non-negative quantity, keeps it. */
  lemma TableOkReplace(rows: seq<Product>, nextId: int, i: nat, p: Product)
    requires TableOk(rows, nextId) && i < |rows| && p.id == rows[i].id && p.quantity >= 0
    ensures TableOk(rows[i := p], nextId)
  {
  }

  /** Taking a row out keeps it. */
  lemma TableOkRemove(rows: seq<Product>, nextId: int, i: nat)
    requires TableOk(rows, nextId) && i < |rows|
    ensures TableOk(rows[..i] + rows[i + 1..], nextId)
  {
    RemoveAtIndex(rows, i);
    RemoveKeepsOrder(rows, i);
    var rest := rows[..i] + rows[i + 1..];
    forall k | 0 <= k < |rest|
      ensures 1 <= rest[k].id < nextId && rest[k].quantity >= 0
    {
      if k < i {
        assert rest[k] == rows[k];
      } else {
        assert rest[k] == rows[k + 1];
      }
    }
  }

  lemma LogOkAppend(logs: seq<LogEntry>, nextId: int, l: LogEntry)
    requires LogOk(logs, nextId) && l.id == nextId && nextId >= 1
    ensures LogOk(logs + [l], nextId + 1)
  {
  }

  // ---------------------------------------------------------------------------
  // Sorting for the paged listing
  // ---------------------------------------------------------------------------

  datatype Column = IdColumn | NameColumn | QuantityColumn | CategoryColumn | CreatedColumn | UpdatedColumn

  /** `sort_map.get(sort_by, created_at)`: the six known names, and creation
      time for anything else (or nothing). */
  function SortColumn(sortBy: Option<string>): (c: Column)
    ensures sortBy == Some("id") ==> c == IdColumn
    ensures sortBy == Some("name") ==> c == NameColumn
    ensures sortBy == Some("quantity") ==> c == QuantityColumn
    ensures sortBy == Some("category") ==> c == CategoryColumn
    ensures sortBy == Some("created_at") ==> c == CreatedColumn
    ensures sortBy == Some("updated_at") ==> c == UpdatedColumn
    ensures sortBy.None? ==> c == CreatedColumn
    ensures sortBy.Some? && sortBy.value !in {"id", "name", "quantity", "category", "created_at", "updated_at"} ==>
      c == CreatedColumn
  {
    if sortBy == Some("id") then IdColumn
    else if sortBy == Some("name") then NameColumn
    else if sortBy == Some("quantity") then QuantityColumn
    else if sortBy == Some("category") then CategoryColumn
    else if sortBy == Some("updated_at") then UpdatedColumn
    else CreatedColumn
  }

  /** `(sort_dir or "").lower() == "asc"`. */
  function Ascending(sortDir: Option<string>): bool
  {
    Lower(if sortDir.Some? then sortDir.value else "") == "asc"
  }

  /** Exactly the capitalisations of "asc" sort ascending; a missing direction,
      the default "desc" and anything else sort descending. */
  lemma AscendingCases()
    ensures forall d :: Ascending(Some(d)) <==> |d| == 3 && d[0] in "aA" && d[1] in "sS" && d[2] in "cC"
    ensures !Ascending(None)
  {
    forall d
      ensures Ascending(Some(d)) <==> |d| == 3 && d[0] in "aA" && d[1] in "sS" && d[2] in "cC"
    {
      AscendingOne(d);
    }
    assert Lower("") == "";
  }

  lemma AscendingOne(d: string)
    ensures Ascending(Some(d)) <==> |d| == 3 && d[0] in "aA" && d[1] in "sS" && d[2] in "cC"
  {
    var l := Lower(d);
    if |d| == 3 {
      assert l == [LowerChar(d[0]), LowerChar(d[1]), LowerChar(d[2])];
    }
  }

  /** Ascending order on one column; a null category sorts before any other. */
  function KeyLe(col: Column, a: Product, b: Product): bool
  {
    match col
    case IdColumn => a.id <= b.id
    case NameColumn => Sorting.StrLe(a.name, b.name)
    case QuantityColumn => a.quantity <= b.quantity
    case CategoryColumn =>
      a.category.None? || (b.category.Some? && Sorting.StrLe(a.category.value, b.category.value))
    case CreatedColumn => a.createdAt <= b.createdAt
    case UpdatedColumn => a.updatedAt <= b.updatedAt
  }

  /** The comparison the `ORDER BY` uses: the column ascending, or reversed. */
  function OrderLe(col: Column, asc: bool): (Product, Product) -> bool
  {
    if asc then (a: Product, b: Product) => KeyLe(col, a, b)
    else (a: Product, b: Product) => KeyLe(col, b, a)
  }

  lemma KeyLeTotal(col: Column, a: Product, b: Product)
    ensures KeyLe(col, a, b) || KeyLe(col, b, a)
  {
    Sorting.StrLeTotal(a.name, b.name);
    if a.category.Some? && b.category.Some? {
      Sorting.StrLeTotal(a.category.value, b.category.value);
    }
  }

  lemma KeyLeTransitive(col: Column, a: Product, b: Product, c: Product)
    requires KeyLe(col, a, b) && KeyLe(col, b, c)
    ensures KeyLe(col, a, c)
  {
    if col == NameColumn {
      Sorting.StrLeTransitive(a.name, b.name, c.name);
    } else if col == CategoryColumn && a.category.Some? {
      Sorting.StrLeTransitive(a.category.value, b.category.value, c.category.value);
    }
  }

  /** Both directions of every column are total preorders, so sorting by them
      yields an ordered list. */
  lemma OrderLeIsPreorder(col: Column, asc: bool)
    ensures Sorting.Total(OrderLe(col, asc)) && Sorting.Transitive(OrderLe(col, asc))
  {
    var le := OrderLe(col, asc);
    forall a, b
      ensures le(a, b) || le(b, a)
    {
      KeyLeTotal(col, a, b);
    }
    forall a, b, c | le(a, b) && le(b, c)
      ensures le(a, c)
    {
      if asc {
        KeyLeTransitive(col, a, b, c);
      } else {
        KeyLeTransitive(col, c, b, a);
      }
    }
  }

  /** The matching products in the requested order: a permutation of them,
      ordered by the column in the requested direction. */
  function Ordered(matching: seq<Product>, col: Column, asc: bool): (r: seq<Product>)
    ensures multiset(r) == multiset(matching)
    ensures Sorting.SortedBy(r, OrderLe(col, asc))
  {
    OrderLeIsPreorder(col, asc);
    Sorting.SortBySorted(matching, OrderLe(col, asc));
    Sorting.SortBy(matching, OrderLe(col, asc))
  }

  /** The paging parameters as the handler normalises them. */
  function NormalPage(page: int): (r: int)
    ensures r >= 1
    ensures page >= 1 ==> r == page
    ensures page < 1 ==> r == 1
  {
    if page < 1 then 1 else page
  }

  function NormalPageSize(pageSize: int): (r: int)
    ensures 1 <= r <= 100
    ensures 1 <= pageSize <= 100 ==> r == pageSize
    ensures (pageSize < 1 || pageSize > 100) ==> r == 10
  {
    if pageSize < 1 || pageSize > 100 then 10 else pageSize
  }

  /** The paged listing's reply. */
  datatype PagedProducts = PagedProducts(items: seq<Product>, total: int, page: int, pageSize: int)

  /** The query of the listings, narrowed one filter at a time: to the
      caller's own products for a plain user, then by an active search, then
      by an active category. The stages together keep exactly the listed
      products, in table order. */
  method NarrowQuery(rows: seq<Product>, caller: TokenData, search: Option<string>, category: Option<string>)
    returns (query: seq<Product>)
    ensures query == Filter(rows, ListedPred(caller, search, category))
  {
    ghost var p1: Product -> bool := p => SeesProduct(caller, p);
    ghost var p2: Product -> bool := p => SeesProduct(caller, p) && (!Active(search) || Includes(p.name, search.value));
    query := rows;
    if IsPlainUser(caller) {
      query := Filter(query, (p: Product) => caller.userId == Some(p.ownerId));
      FilterExt(rows, (p: Product) => caller.userId == Some(p.ownerId), p1);
    } else {
      FilterKeepsAll(rows, p1);
    }
    assert query == Filter(rows, p1);
    if search.Some? && search.value != "" {
      var s := search.value;
      query := Filter(query, (p: Product) => Includes(p.name, s));
      FilterTwice(rows, p1, (p: Product) => Includes(p.name, s), p2);
    } else {
      FilterExt(rows, p1, p2);
    }
    assert query == Filter(rows, p2);
    if category.Some? && category.value != "" {
      var c := category.value;
      query := Filter(query, (p: Product) => p.category == Some(c));
      FilterTwice(rows, p2, (p: Product) => p.category == Some(c), ListedPred(caller, search, category));
    } else {
      FilterExt(rows, p2, ListedPred(caller, search, category));
    }
    assert query == Filter(rows, ListedPred(caller, search, category));
  }

  // ---------------------------------------------------------------------------
  // Category list
  // ---------------------------------------------------------------------------

  /** The non-null categories of `rows`, each once. */
  function DistinctCategories(rows: seq<Product>): (r: seq<string>)
    ensures forall c :: c in r <==> exists p :: p in rows && p.category == Some(c)
    ensures forall c :: multiset(r)[c] <= 1
  {
    if rows == [] then []
    else
      var rest := DistinctCategories(rows[1..]);
      assert forall p :: p in rows <==> p == rows[0] || p in rows[1..];
      if rows[0].category.None? || rows[0].category.value in rest then rest
      else [rows[0].category.value] + rest
  }

  lemma StrLeIsPreorder()
    ensures Sorting.Total(Sorting.StrLe) && Sorting.Transitive(Sorting.StrLe)
  {
    forall a, b
      ensures Sorting.StrLe(a, b) || Sorting.StrLe(b, a)
    {
      Sorting.StrLeTotal(a, b);
    }
    forall a, b, c | Sorting.StrLe(a, b) && Sorting.StrLe(b, c)
      ensures Sorting.StrLe(a, c)
    {
      Sorting.StrLeTransitive(a, b, c);
    }
  }

  /** `sorted([r[0] for r in rows if r[0]])` over the distinct non-null
      categories: the non-empty ones, each once, in code-point order. */
  function SortedCategories(rows: seq<Product>): (r: seq<string>)
    ensures forall c :: c in r <==> c != "" && exists p :: p in rows && p.category == Some(c)
    ensures forall c :: multiset(r)[c] <= 1
    ensures Sorting.SortedBy(r, Sorting.StrLe)
  {
    var distinct := DistinctCategories(rows);
    var kept := Filter(distinct, (c: string) => c != "");
    StrLeIsPreorder();
    Sorting.SortBySorted(kept, Sorting.StrLe);
    var r := Sorting.SortBy(kept, Sorting.StrLe);
    forall c
      ensures c in r <==> c in kept
      ensures multiset(r)[c] <= 1
    {
      assert c in r <==> c in multiset(r);
      assert c in kept <==> c in multiset(kept);
      assert multiset(kept)[c] <= multiset(distinct)[c];
    }
    r
  }

  /** A value at two positions is counted at least twice. */
  lemma OccursTwice<T>(r: seq<T>, i: int, j: int)
    requires 0 <= i < j < |r| && r[i] == r[j]
    ensures multiset(r)[r[i]] >= 2
  {
    assert r == r[..j] + r[j..];
    assert r[i] in r[..j];
    assert r[j] in r[j..];
  }

  /** Sorted and each at most once means strictly increasing. */
  lemma {:induction false} CategoriesStrictlyIncrease(r: seq<string>, i: int, j: int)
    requires forall c :: multiset(r)[c] <= 1
    requires Sorting.SortedBy(r, Sorting.StrLe)
    requires 0 <= i < j < |r|
    ensures r[i] != r[j]
    ensures Sorting.StrLe(r[i], r[j]) && !Sorting.StrLe(r[j], r[i])
  {
    if r[i] == r[j] {
      OccursTwice(r, i, j);
    } else if Sorting.StrLe(r[j], r[i]) {
      Sorting.StrLeAntisymmetric(r[i], r[j]);
    }
  }

  // ---------------------------------------------------------------------------
  // Updates through `model_dump(exclude_unset=True)` and `setattr`
  // ---------------------------------------------------------------------------

  /** One `setattr(product, k, v)` of the update loop. */
  datatype Assignment = AssignName(name: string) | AssignDescription(description: Option<string>) | AssignQuantity(quantity: int)

  /** The fields of a parsed body that were sent, in declaration order: the
      name and quantity always (they are required), the description only if it
      was sent. */
  function DumpedFields(b: ProductRequest): (fs: seq<Assignment>)
    ensures |fs| == (if b.description.Set? then 3 else 2)
    ensures fs[0] == AssignName(b.name) && fs[|fs| - 1] == AssignQuantity(b.quantity)
    ensures b.description.Set? ==> fs[1] == AssignDescription(b.description.value)
  {
    [AssignName(b.name)] + (if b.description.Set? then [AssignDescription(b.description.value)] else []) +
    [AssignQuantity(b.quantity)]
  }

  function SetAttr(p: Product, a: Assignment): Product
  {
    match a
    case AssignName(n) => p.(name := n)
    case AssignDescription(d) => p.(description := d)
    case AssignQuantity(q) => p.(quantity := q)
  }

  /** The assignments applied in order. */
  function ApplyAll(p: Product, fs: seq<Assignment>): Product
  {
    if fs == [] then p else SetAttr(ApplyAll(p, fs[..|fs| - 1]), fs[|fs| - 1])
  }

  /** What an accepted update body does to a row: name and quantity replaced,
      the description replaced only when it was sent (and cleared when it was
      sent as null); the key, owner, category and timestamps untouched. */
  lemma UpdatedFields(p: Product, b: ProductRequest)
    ensures ApplyAll(p, DumpedFields(b)) ==
      p.(name := b.name, quantity := b.quantity,
         description := if b.description.Set? then b.description.value else p.description)
  {
    var fs := DumpedFields(b);
    assert fs[..1][..0] == [];
    var named := ApplyAll(p, fs[..1]);
    assert fs[..1][0] == AssignName(b.name);
    assert ApplyAll(p, fs[..1][..0]) == p;
    assert named == p.(name := b.name);
    if b.description.Set? {
      assert fs[..2][..1] == fs[..1];
      assert ApplyAll(p, fs[..2]) == named.(description := b.description.value);
      assert fs[..3][..2] == fs[..2] && fs[..3] == fs;
    } else {
      assert fs[..2][..1] == fs[..1] && fs[..2] == fs;
    }
  }

  /** The product a create request makes: the body's fields, no category, the
      caller as owner, both timestamps `now`. */
  function NewProduct(id: int, b: ProductRequest, owner: int, now: int): Product
  {
    Product(id, b.name, if b.description.Set? then b.description.value else None,
      b.quantity, None, now, now, owner)
  }

  /** The activity-log row for a successful change of product `productId`. */
  function LogRow(id: int, userId: int, action: string, productId: int, now: int): (l: LogEntry)
    ensures l.entity == "product" && l.entityId == Some(productId)
    ensures l.userId == userId && l.action == action
  {
    LogEntry(id, userId, action, "product", Some(productId), now)
  }

  // ---------------------------------------------------------------------------
  // The table
  // ---------------------------------------------------------------------------

  /** The products table and the activity log, with the next keys each will
      hand out. */
  class Inventory {
    var rows: seq<Product>
    var logs: seq<LogEntry>
    var nextProductId: int
    var nextLogId: int

    /** Keys are positive, below the next key and increasing; every stock
        quantity is non-negative. */
    predicate Valid()
      reads this
    {
      nextProductId >= 1 && nextLogId >= 1 && TableOk(rows, nextProductId) && LogOk(logs, nextLogId)
    }

    constructor ()
      ensures Valid() && rows == [] && logs == []
    {
      rows, logs := [], [];
      nextProductId, nextLogId := 1, 1;
    }

    /** Every product the caller could list with these filters, in table order. */
    function Listing(caller: TokenData, search: Option<string>, category: Option<string>): (r: seq<Product>)
      reads this
      ensures forall p :: p in r <==> p in rows && Listed(caller, search, category, p)
      ensures |r| <= |rows|
    {
      Filter(rows, ListedPred(caller, search, category))
    }

    /** `get_products`: the listing, or 404 when it is empty. */
    function GetProducts(caller: TokenData, search: Option<string>, category: Option<string>): (r: Outcome<seq<Product>>)
      reads this
      ensures r.Ok? ==> r.value == Listing(caller, search, category) && r.value != []
      ensures !r.Ok? <==> Listing(caller, search, category) == []
      ensures !r.Ok? ==> r == HttpError(404, NoProductsFound)
    {
      var products := Listing(caller, search, category);
      if products == [] then HttpError(404, NoProductsFound) else Ok(products)
    }

    /** `get_low_stock_products`: visible products with quantity at most the
        threshold, in table order. */
    function GetLowStock(caller: TokenData, threshold: int): (r: seq<Product>)
      reads this
      ensures forall p :: p in r <==> p in rows && p.quantity <= threshold && SeesProduct(caller, p)
      ensures multiset(r) <= multiset(rows)
    {
      Filter(rows, (p: Product) => p.quantity <= threshold && SeesProduct(caller, p))
    }

    /** `get_categories`: the distinct non-empty categories of the products the
        caller sees, sorted. */
    function GetCategories(caller: TokenData): (r: seq<string>)
      reads this
      ensures forall c :: c in r <==> c != "" && exists p :: p in rows && SeesProduct(caller, p) && p.category == Some(c)
      ensures forall c :: multiset(r)[c] <= 1
      ensures Sorting.SortedBy(r, Sorting.StrLe)
    {
      var visible := Filter(rows, (p: Product) => SeesProduct(caller, p));
      SortedCategories(visible)
    }

    /** `get_product_by_id`: any caller may read any product; a missing id is 404. */
    function GetProductById(id: int): (r: Outcome<Product>)
      reads this
      ensures r.Ok? <==> exists i :: 0 <= i < |rows| && rows[i].id == id
      ensures r.Ok? ==> r.value in rows && r.value.id == id
      ensures !r.Ok? ==> r == HttpError(404, ProductNotFound)
    {
      var i := IndexOf(rows, id);
      if i.Some? then Ok(rows[i.value]) else HttpError(404, ProductNotFound)
    }

    /** `get_products_paged`: page and page size normalised, the query narrowed
        step by step, the matches counted before paging, ordered, and one page
        of them returned. */
    method GetProductsPaged(caller: TokenData, search: Option<string>, category: Option<string>,
                            page: int, pageSize: int, sortBy: Option<string>, sortDir: Option<string>)
      returns (res: PagedProducts)
      requires Valid()
      ensures res.page == NormalPage(page) && res.pageSize == NormalPageSize(pageSize)
      ensures res.total == |Listing(caller, search, category)|
      ensures res.items == Paging.PageItems(
        Ordered(Listing(caller, search, category), SortColumn(sortBy), Ascending(sortDir)), res.page, res.pageSize)
    {
      var pg := page;
      var size := pageSize;
      if pg < 1 {
        pg := 1;
      }
      if size < 1 || size > 100 {
        size := 10;
      }
      var query := NarrowQuery(rows, caller, search, category);
      var total := |query|;
      var col := SortColumn(sortBy);
      var ordered := Ordered(query, col, Ascending(sortDir));
      var items := Paging.PageItems(ordered, pg, size);
      res := PagedProducts(items, total, pg, size);
    }

    /** `create_product`: a valid body becomes a new row owned by the caller,
        with the next id, and one "create_product" log row; an invalid body
        changes nothing. */
    method CreateProduct(caller: TokenData, raw: RawProduct, now: int) returns (r: Outcome<Product>)
      requires Valid() && caller.userId.Some?
      modifies this
      ensures Valid()
      ensures ParseProduct(raw).Rejected? ==>
        r == Unprocessable(ParseProduct(raw).violations) &&
        rows == old(rows) && logs == old(logs) &&
        nextProductId == old(nextProductId) && nextLogId == old(nextLogId)
      ensures ParseProduct(raw).Accepted? ==>
        r == Ok(NewProduct(old(nextProductId), ParseProduct(raw).value, caller.userId.value, now)) &&
        rows == old(rows) + [r.value] &&
        logs == old(logs) + [LogRow(old(nextLogId), caller.userId.value, "create_product", r.value.id, now)] &&
        nextProductId == old(nextProductId) + 1 && nextLogId == old(nextLogId) + 1
    {
      var parsed := ParseProduct(raw);
      if parsed.Rejected? {
        return Unprocessable(parsed.violations);
      }
      var p := NewProduct(nextProductId, parsed.value, caller.userId.value, now);
      TableOkAppend(rows, nextProductId, p);
      LogOkAppend(logs, nextLogId, LogRow(nextLogId, caller.userId.value, "create_product", p.id, now));
      rows := rows + [p];
      nextProductId := nextProductId + 1;
      logs := logs + [LogRow(nextLogId, caller.userId.value, "create_product", p.id, now)];
      nextLogId := nextLogId + 1;
      r := Ok(p);
    }

    /** `update_product`: after body validation, a missing id is 404, a caller
        who is neither owner nor admin gets 403, and otherwise the sent fields
        are assigned one by one, the row is stamped `now` and one
        "update_product" log row is appended. Errors change nothing. */
    method UpdateProduct(id: int, caller: TokenData, raw: RawProduct, now: int) returns (r: Outcome<Product>)
      requires Valid() && caller.userId.Some?
      modifies this
      ensures Valid()
      ensures !r.Ok? ==>
        rows == old(rows) && logs == old(logs) &&
        nextProductId == old(nextProductId) && nextLogId == old(nextLogId)
      ensures ParseProduct(raw).Rejected? ==> r == Unprocessable(ParseProduct(raw).violations)
      ensures ParseProduct(raw).Accepted? && IndexOf(old(rows), id).None? ==> r == HttpError(404, ProductNotFound)
      ensures (ParseProduct(raw).Accepted? && IndexOf(old(rows), id).Some? &&
        !MayChange(caller, old(rows)[IndexOf(old(rows), id).value])) ==> r == HttpError(403, NotAuthorizedUpdate)
      ensures (ParseProduct(raw).Accepted? && IndexOf(old(rows), id).Some? &&
        MayChange(caller, old(rows)[IndexOf(old(rows), id).value])) ==>
        var i := IndexOf(old(rows), id).value;
        r == Ok(ApplyAll(old(rows)[i], DumpedFields(ParseProduct(raw).value)).(updatedAt := now)) &&
        rows == old(rows)[i := r.value] &&
        logs == old(logs) + [LogRow(old(nextLogId), caller.userId.value, "update_product", id, now)] &&
        nextProductId == old(nextProductId) && nextLogId == old(nextLogId) + 1
    {
      var parsed := ParseProduct(raw);
      if parsed.Rejected? {
        return Unprocessable(parsed.violations);
      }
      var found := IndexOf(rows, id);
      if found.None? {
        return HttpError(404, ProductNotFound);
      }
      var i := found.value;
      if !MayChange(caller, rows[i]) {
        return HttpError(403, NotAuthorizedUpdate);
      }
      var fields := DumpedFields(parsed.value);
      var p := rows[i];
      for k := 0 to |fields|
        invariant p == ApplyAll(rows[i], fields[..k])
      {
        assert fields[..k + 1][..k] == fields[..k];
        p := SetAttr(p, fields[k]);
      }
      assert fields[..|fields|] == fields;
      UpdatedFields(rows[i], parsed.value);
      p := p.(updatedAt := now);
      TableOkReplace(rows, nextProductId, i, p);
      LogOkAppend(logs, nextLogId, LogRow(nextLogId, caller.userId.value, "update_product", id, now));
      rows := rows[i := p];
      logs := logs + [LogRow(nextLogId, caller.userId.value, "update_product", id, now)];
      nextLogId := nextLogId + 1;
      r := Ok(p);
    }

    /** `increase_stock`: after body validation, 404 and 403 as for updates;
        otherwise the quantity grows by exactly `amount`. */
    method IncreaseStock(id: int, caller: TokenData, amount: Option<int>, now: int) returns (r: Outcome<Product>)
      requires Valid() && caller.userId.Some?
      modifies this
      ensures Valid()
      ensures !r.Ok? ==>
        rows == old(rows) && logs == old(logs) &&
        nextProductId == old(nextProductId) && nextLogId == old(nextLogId)
      ensures ParseStockChange(amount).Rejected? ==> r == Unprocessable(ParseStockChange(amount).violations)
      ensures ParseStockChange(amount).Accepted? && IndexOf(old(rows), id).None? ==> r == HttpError(404, ProductNotFound)
      ensures (ParseStockChange(amount).Accepted? && IndexOf(old(rows), id).Some? &&
        !MayChange(caller, old(rows)[IndexOf(old(rows), id).value])) ==> r == HttpError(403, NotAuthorizedUpdate)
      ensures (ParseStockChange(amount).Accepted? && IndexOf(old(rows), id).Some? &&
        MayChange(caller, old(rows)[IndexOf(old(rows), id).value])) ==>
        var i := IndexOf(old(rows), id).value;
        r.Ok? && r.value.quantity == old(rows)[i].quantity + amount.value &&
        r == Ok(old(rows)[i].(quantity := old(rows)[i].quantity + amount.value, updatedAt := now)) &&
        rows == old(rows)[i := r.value] &&
        logs == old(logs) + [LogRow(old(nextLogId), caller.userId.value, "increase_stock", id, now)] &&
        nextProductId == old(nextProductId) && nextLogId == old(nextLogId) + 1
    {
      var parsed := ParseStockChange(amount);
      if parsed.Rejected? {
        return Unprocessable(parsed.violations);
      }
      var found := IndexOf(rows, id);
      if found.None? {
        return HttpError(404, ProductNotFound);
      }
      var i := found.value;
      if !MayChange(caller, rows[i]) {
        return HttpError(403, NotAuthorizedUpdate);
      }
      var p := rows[i].(quantity := rows[i].quantity + parsed.value.amount, updatedAt := now);
      TableOkReplace(rows, nextProductId, i, p);
      LogOkAppend(logs, nextLogId, LogRow(nextLogId, caller.userId.value, "increase_stock", id, now));
      rows := rows[i := p];
      logs := logs + [LogRow(nextLogId, caller.userId.value, "increase_stock", id, now)];
      nextLogId := nextLogId + 1;
      r := Ok(p);
    }

    /** `decrease_stock`: after body validation, 404 and 403 as for updates, then
        400 when the stock is smaller than `amount`; otherwise the quantity
        shrinks by exactly `amount` and stays non-negative. */
    method DecreaseStock(id: int, caller: TokenData, amount: Option<int>, now: int) returns (r: Outcome<Product>)
      requires Valid() && caller.userId.Some?
      modifies this
      ensures Valid()
      ensures !r.Ok? ==>
        rows == old(rows) && logs == old(logs) &&
        nextProductId == old(nextProductId) && nextLogId == old(nextLogId)
      ensures ParseStockChange(amount).Rejected? ==> r == Unprocessable(ParseStockChange(amount).violations)
      ensures ParseStockChange(amount).Accepted? && IndexOf(old(rows), id).None? ==> r == HttpError(404, ProductNotFound)
      ensures (ParseStockChange(amount).Accepted? && IndexOf(old(rows), id).Some? &&
        !MayChange(caller, old(rows)[IndexOf(old(rows), id).value])) ==> r == HttpError(403, NotAuthorizedUpdate)
      ensures (ParseStockChange(amount).Accepted? && IndexOf(old(rows), id).Some? &&
        MayChange(caller, old(rows)[IndexOf(old(rows), id).value]) &&
        old(rows)[IndexOf(old(rows), id).value].quantity < amount.value) ==> r == HttpError(400, InsufficientStock)
      ensures (ParseStockChange(amount).Accepted? && IndexOf(old(rows), id).Some? &&
        MayChange(caller, old(rows)[IndexOf(old(rows), id).value]) &&
        old(rows)[IndexOf(old(rows), id).value].quantity >= amount.value) ==>
        var i := IndexOf(old(rows), id).value;
        r.Ok? && r.value.quantity == old(rows)[i].quantity - amount.value >= 0 &&
        r == Ok(old(rows)[i].(quantity := old(rows)[i].quantity - amount.value, updatedAt := now)) &&
        rows == old(rows)[i := r.value] &&
        logs == old(logs) + [LogRow(old(nextLogId), caller.userId.value, "decrease_stock", id, now)] &&
        nextProductId == old(nextProductId) && nextLogId == old(nextLogId) + 1
    {
      var parsed := ParseStockChange(amount);
      if parsed.Rejected? {
        return Unprocessable(parsed.violations);
      }
      var found := IndexOf(rows, id);
      if found.None? {
        return HttpError(404, ProductNotFound);
      }
      var i := found.value;
      if !MayChange(caller, rows[i]) {
        return HttpError(403, NotAuthorizedUpdate);
      }
      if rows[i].quantity < parsed.value.amount {
        return HttpError(400, InsufficientStock);
      }
      var p := rows[i].(quantity := rows[i].quantity - parsed.value.amount, updatedAt := now);
      TableOkReplace(rows, nextProductId, i, p);
      LogOkAppend(logs, nextLogId, LogRow(nextLogId, caller.userId.value, "decrease_stock", id, now));
      rows := rows[i := p];
      logs := logs + [LogRow(nextLogId, caller.userId.value, "decrease_stock", id, now)];
      nextLogId := nextLogId + 1;
      r := Ok(p);
    }

    /** `delete_product`: 404 and 403 as for updates (with the delete message);
        otherwise exactly that row leaves the table and one "delete_product" log
        row is appended. */
    method DeleteProduct(id: int, caller: TokenData, now: int) returns (r: Outcome<()>)
      requires Valid() && caller.userId.Some?
      modifies this
      ensures Valid()
      ensures !r.Ok? ==>
        rows == old(rows) && logs == old(logs) &&
        nextProductId == old(nextProductId) && nextLogId == old(nextLogId)
      ensures IndexOf(old(rows), id).None? ==> r == HttpError(404, ProductNotFound)
      ensures IndexOf(old(rows), id).Some? && !MayChange(caller, old(rows)[IndexOf(old(rows), id).value]) ==>
        r == HttpError(403, NotAuthorizedDelete)
      ensures IndexOf(old(rows), id).Some? && MayChange(caller, old(rows)[IndexOf(old(rows), id).value]) ==>
        var i := IndexOf(old(rows), id).value;
        r == Ok(()) &&
        rows == old(rows)[..i] + old(rows)[i + 1..] &&
        (forall p :: p in rows <==> p in old(rows) && p.id != id) &&
        logs == old(logs) + [LogRow(old(nextLogId), caller.userId.value, "delete_product", id, now)] &&
        nextProductId == old(nextProductId) && nextLogId == old(nextLogId) + 1
    {
      var found := IndexOf(rows, id);
      if found.None? {
        return HttpError(404, ProductNotFound);
      }
      var i := found.value;
      if !MayChange(caller, rows[i]) {
        return HttpError(403, NotAuthorizedDelete);
      }
      TableOkRemove(rows, nextProductId, i);
      RemoveOnlyThat(rows, i);
      LogOkAppend(logs, nextLogId, LogRow(nextLogId, caller.userId.value, "delete_product", id, now));
      rows := rows[..i] + rows[i + 1..];
      logs := logs + [LogRow(nextLogId, caller.userId.value, "delete_product", id, now)];
      nextLogId := nextLogId + 1;
      r := Ok(());
    }
  }

  // ---------------------------------------------------------------------------
  // Properties of the listings
  // ---------------------------------------------------------------------------

  /** Reading every page of the paged listing, in any order and at any page
      size, gives the products of the unpaged listing; so the unpaged listing
      fails with 404 exactly when the paged pages hold nothing. */
  lemma UnpagedAgreesWithPages(inv: Inventory, caller: TokenData, search: Option<string>, category: Option<string>,
                               sortBy: Option<string>, sortDir: Option<string>, pageSize: int)
    ensures var size := NormalPageSize(pageSize);
      var ordered := Ordered(inv.Listing(caller, search, category), SortColumn(sortBy), Ascending(sortDir));
      var pages := Paging.Pages(ordered, size, Paging.TotalPages(|ordered|, size));
      (inv.GetProducts(caller, search, category).Ok? <==> pages != []) &&
      (inv.GetProducts(caller, search, category).Ok? ==>
        multiset(pages) == multiset(inv.GetProducts(caller, search, category).value))
  {
    var ordered := Ordered(inv.Listing(caller, search, category), SortColumn(sortBy), Ascending(sortDir));
    Paging.PagesCoverList(ordered, NormalPageSize(pageSize));
    assert |ordered| == |inv.Listing(caller, search, category)| by {
      assert |multiset(ordered)| == |multiset(inv.Listing(caller, search, category))|;
    }
  }

  /** In every reachable state no product's stock is negative: creation and
      update bodies carry a quantity of at least 0, stock changes an amount of
      at least 0, and a decrease larger than the stock is refused. */
  lemma StockNeverNegative(inv: Inventory)
    requires inv.Valid()
    ensures forall p :: p in inv.rows ==> p.quantity >= 0
  {
    forall p | p in inv.rows
      ensures p.quantity >= 0
    {
      var i :| 0 <= i < |inv.rows| && inv.rows[i] == p;
    }
  }

  /** A plain user's listing holds only products they own; any other caller
      (no role, or a role other than "user") with no active search or category
      lists the whole table. */
  lemma RoleRestriction(inv: Inventory, caller: TokenData, search: Option<string>, category: Option<string>)
    ensures IsPlainUser(caller) ==> forall p :: p in inv.Listing(caller, search, category) ==> Owns(caller, p)
    ensures !IsPlainUser(caller) && !Active(search) && !Active(category) ==>
      inv.Listing(caller, search, category) == inv.rows
  {
    if !IsPlainUser(caller) && !Active(search) && !Active(category) {
      FilterKeepsAll(inv.rows, ListedPred(caller, search, category));
    }
  }

  /** One page never holds more than the page size (at most 100), and reading
      pages 1 to the page count in order gives every match exactly once. */
  lemma PagesCoverMatches(matching: seq<Product>, col: Column, asc: bool, page: int, pageSize: int)
    ensures |Paging.PageItems(Ordered(matching, col, asc), NormalPage(page), NormalPageSize(pageSize))| <= 100
    ensures var size := NormalPageSize(pageSize);
      var ordered := Ordered(matching, col, asc);
      Paging.Pages(ordered, size, Paging.TotalPages(|matching|, size)) == ordered &&
      multiset(ordered) == multiset(matching)
  {
    var size := NormalPageSize(pageSize);
    Paging.PagesCoverList(Ordered(matching, col, asc), size);
  }
}
