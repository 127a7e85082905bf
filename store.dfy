/**
 * The local SQLite database of the storefront and the session slot, as one
 * object: four tables kept in rowid (= id) order, the AUTOINCREMENT counter of
 * `orders`, and the logged-in user. The queries and writes are those of
 * src/database/dbHelpers.ts, one typed method per table where the helpers take
 * a table name and a field list.
 */
module Store {
  import opened Objects

  // ---------------------------------------------------------------------------
  // Keys and the per-table invariants the schema enforces.

  function ProductKey(p: Product): int { p.id }
  function CategoryKey(c: Category): int { c.id }
  function UserKey(u: User): int { u.id }
  function OrderKey(o: Order): int { o.id }

  predicate ProductBefore(a: Product, b: Product) { a.id < b.id }
  predicate CategoryBefore(a: Category, b: Category) { a.id < b.id }
  /** `id INTEGER PRIMARY KEY` and `username TEXT UNIQUE`. */
  predicate UserBefore(a: User, b: User) { a.id < b.id && a.username != b.username }
  predicate OrderBefore(a: Order, b: Order) { a.id < b.id }

  /** Two rows are not both the cart row of the same product for the same user. */
  predicate CartRowsDistinct(a: Order, b: Order) {
    !(a.status == Cart && b.status == Cart && a.productId == b.productId && a.userId == b.userId)
  }

  /** What the screens maintain for orders: qty >= 1, one cart row per (product, user). */
  ghost predicate OrderRules(orders: seq<Order>) {
    && (forall i :: 0 <= i < |orders| ==> orders[i].qty >= 1)
    && Pairwise(orders, CartRowsDistinct)
  }

  // ---------------------------------------------------------------------------
  // Sorted insertion: a row given an explicit id lands at its rowid position.

  function InsertSorted<T>(rows: seq<T>, x: T, key: T -> int): (r: seq<T>)
    ensures |r| == |rows| + 1
    ensures multiset(r) == multiset(rows) + multiset{x}
    decreases |rows|
  {
    if rows == [] then [x]
    else if key(x) < key(rows[0]) then [x] + rows
    else
      assert rows == [rows[0]] + rows[1..];
      [rows[0]] + InsertSorted(rows[1..], x, key)
  }

  /** A row whose key exceeds every key goes last. */
  lemma {:induction false} InsertSortedAtEnd<T>(rows: seq<T>, x: T, key: T -> int)
    requires forall i :: 0 <= i < |rows| ==> key(rows[i]) < key(x)
    ensures InsertSorted(rows, x, key) == rows + [x]
    decreases |rows|
  {
    if rows != [] {
      InsertSortedAtEnd(rows[1..], x, key);
      assert rows == [rows[0]] + rows[1..];
    }
  }

  /**
   * Inserting a row with an unused key into a table ordered by key keeps every
   * pairwise invariant that holds between the row and the rows around it.
   */
  lemma {:induction false} InsertSortedPairwise<T>(rows: seq<T>, x: T, key: T -> int, R: (T, T) -> bool)
    requires Pairwise(rows, R)
    requires forall i, j :: 0 <= i < j < |rows| ==> key(rows[i]) < key(rows[j])
    requires forall i :: 0 <= i < |rows| ==> key(rows[i]) != key(x)
    requires forall i :: 0 <= i < |rows| && key(rows[i]) < key(x) ==> R(rows[i], x)
    requires forall i :: 0 <= i < |rows| && key(x) < key(rows[i]) ==> R(x, rows[i])
    ensures Pairwise(InsertSorted(rows, x, key), R)
    decreases |rows|
  {
    if rows == [] {
    } else if key(x) < key(rows[0]) {
      forall i | 0 <= i < |rows| ensures R(x, rows[i]) {
        if i > 0 {
          assert key(rows[0]) < key(rows[i]);
        }
      }
      PairwiseCons(x, rows, R);
    } else {
      var rest := rows[1..];
      InsertSortedPairwise(rest, x, key, R);
      var t := InsertSorted(rest, x, key);
      forall i | 0 <= i < |t| ensures R(rows[0], t[i]) {
        assert t[i] in multiset(t);
        if t[i] == x {
        } else {
          assert t[i] in multiset(rest);
          var k :| 0 <= k < |rest| && rest[k] == t[i];
          assert rows[k + 1] == t[i];
        }
      }
      PairwiseCons(rows[0], t, R);
    }
  }

  lemma PairwiseCons<T>(x: T, s: seq<T>, R: (T, T) -> bool)
    requires Pairwise(s, R)
    requires forall i :: 0 <= i < |s| ==> R(x, s[i])
    ensures Pairwise([x] + s, R)
  {
    var t := [x] + s;
    forall i, j | 0 <= i < j < |t| ensures R(t[i], t[j]) {
      if i > 0 {
        assert t[i] == s[i - 1] && t[j] == s[j - 1];
      }
    }
  }

  // ---------------------------------------------------------------------------
  // Row rewrites: one per UPDATE the screens issue, and DELETE ... WHERE id=?.

  function SetQty(orders: seq<Order>, id: int, qty: int): seq<Order> {
    MapWhere(orders, (o: Order) => o.id == id, (o: Order) => o.(qty := qty))
  }

  function SetStatus(orders: seq<Order>, id: int, status: string): seq<Order> {
    MapWhere(orders, (o: Order) => o.id == id, (o: Order) => o.(status := status))
  }

  function SetCheckout(orders: seq<Order>, id: int, total: Option<int>): seq<Order> {
    MapWhere(orders, (o: Order) => o.id == id, (o: Order) => o.(status := Pending, totalPrice := total))
  }

  function SetProductFields(products: seq<Product>, id: int, name: string, price: int, categoryId: int, image: string): seq<Product> {
    MapWhere(products, (p: Product) => p.id == id,
      (p: Product) => p.(name := name, price := price, categoryId := categoryId, image := image))
  }

  function SetCategoryName(categories: seq<Category>, id: int, name: string): seq<Category> {
    MapWhere(categories, (c: Category) => c.id == id, (c: Category) => c.(name := name))
  }

  function SetRole(users: seq<User>, id: int, role: string): seq<User> {
    MapWhere(users, (u: User) => u.id == id, (u: User) => u.(role := role))
  }

  function SetPassword(users: seq<User>, id: int, password: string): seq<User> {
    MapWhere(users, (u: User) => u.id == id, (u: User) => u.(password := password))
  }

  /** DELETE FROM t WHERE id=?: every row with that id goes, the rest keep their order. */
  function DeleteId<T(!new)>(rows: seq<T>, id: int, key: T -> int): (r: seq<T>)
    ensures forall x :: x in r <==> x in rows && key(x) != id
  {
    Filter(rows, (x: T) => key(x) != id)
  }

  lemma DeleteIdPairwise<T(!new)>(rows: seq<T>, id: int, key: T -> int, R: (T, T) -> bool)
    requires Pairwise(rows, R)
    ensures Pairwise(DeleteId(rows, id, key), R)
  {
    FilterPairwise(rows, (x: T) => key(x) != id, R);
  }

  /** With unique ids, deleting an id removes exactly that row and keeps the others in order. */
  lemma DeleteIdRemovesOne<T(!new)>(before: seq<T>, x: T, after: seq<T>, key: T -> int)
    requires forall i :: 0 <= i < |before| ==> key(before[i]) != key(x)
    requires forall i :: 0 <= i < |after| ==> key(after[i]) != key(x)
    ensures DeleteId(before + [x] + after, key(x), key) == before + after
  {
    var id := key(x);
    FilterDropsOne(before, x, after, (y: T) => key(y) != id);
  }

  /** A table ordered by strictly increasing id has at most one row per id. */
  lemma UniqueId<T>(rows: seq<T>, key: T -> int, R: (T, T) -> bool, i: int, j: int)
    requires Pairwise(rows, R)
    requires forall a, b :: R(a, b) ==> key(a) < key(b)
    requires 0 <= i < |rows| && 0 <= j < |rows| && key(rows[i]) == key(rows[j])
    ensures i == j
  {
  }

  /** getAllData: the rows of a table copied one by one into a fresh list. */
  method CopyRows<T>(rows: seq<T>) returns (data: seq<T>)
    ensures data == rows
  {
    data := [];
    var i := 0;
    while i < |rows|
      invariant 0 <= i <= |rows|
      invariant data == rows[..i]
    {
      data := data + [rows[i]];
      i := i + 1;
    }
  }

  // ---------------------------------------------------------------------------
  // The WHERE clauses of the order and user queries.

  /** selectOrder(status, userId): SELECT * FROM orders WHERE userId = ? AND status = ? */
  function OrdersWithStatus(orders: seq<Order>, status: string, userId: int): (r: seq<Order>)
    ensures forall o :: o in r <==> o in orders && o.userId == userId && o.status == status
  {
    Filter(orders, (o: Order) => o.userId == userId && o.status == status)
  }

  /** selectOrderHostry(userId): SELECT * FROM orders WHERE userId = ? AND status != 'cart' */
  function OrderHistory(orders: seq<Order>, userId: int): (r: seq<Order>)
    ensures forall o :: o in r <==> o in orders && o.userId == userId && o.status != Cart
  {
    Filter(orders, (o: Order) => o.userId == userId && o.status != Cart)
  }

  /** checkProductInOrder: COUNT(*) of the cart rows of (productId, userId) is positive. */
  function ProductInCart(orders: seq<Order>, productId: int, userId: int): (b: bool)
    ensures b <==> exists o :: o in orders && o.productId == productId && o.userId == userId && o.status == Cart
  {
    var rows := Filter(orders, (o: Order) => o.productId == productId && o.userId == userId && o.status == Cart);
    assert |rows| > 0 ==> rows[0] in rows;
    |rows| > 0
  }

  /** checkUserExists: COUNT(*) of the users with that name is positive. */
  function UserExists(users: seq<User>, username: string): (b: bool)
    ensures b <==> exists u :: u in users && u.username == username
  {
    var rows := Filter(users, (u: User) => u.username == username);
    assert |rows| > 0 ==> rows[0] in rows;
    |rows| > 0
  }

  /** getUserByCredentials: the first row matching both columns (rows.item(0)), if any. */
  function UserByCredentials(users: seq<User>, username: string, password: string): (r: Option<User>)
    ensures r.None? <==> forall u :: u in users ==> !(u.username == username && u.password == password)
    ensures r.Some? ==> r.value.username == username && r.value.password == password
    ensures r.Some? ==>
      exists i :: 0 <= i < |users| && users[i] == r.value && (forall j :: 0 <= j < i ==> !(users[j].username == username && users[j].password == password))
  {
    var matches := (u: User) => u.username == username && u.password == password;
    var rows := Filter(users, matches);
    if |rows| > 0 then
      FilterFirst(users, matches);
      assert users[FindIndex(users, matches)] == rows[0];
      Some(rows[0])
    else
      None
  }

  /** getUserById: the first row with that id, if any. */
  function UserById(users: seq<User>, id: int): (r: Option<User>)
    ensures r.None? <==> forall u :: u in users ==> u.id != id
    ensures r.Some? ==> r.value in users && r.value.id == id
  {
    var rows := Filter(users, (u: User) => u.id == id);
    if |rows| > 0 then assert rows[0] in rows; Some(rows[0]) else None
  }

  /** Usernames are unique, so at most one row matches a pair of credentials. */
  lemma CredentialsMatchAtMostOne(users: seq<User>, username: string, password: string, i: int, j: int)
    requires Pairwise(users, UserBefore)
    requires 0 <= i < |users| && 0 <= j < |users|
    requires users[i].username == username && users[i].password == password
    requires users[j].username == username && users[j].password == password
    ensures i == j
  {
    assert i < j ==> UserBefore(users[i], users[j]);
    assert j < i ==> UserBefore(users[j], users[i]);
  }

  // ---------------------------------------------------------------------------
  // searchProductsByNameOrCategory: products JOIN categories, name LIKE or category name LIKE.

  /** The argument bound to both `LIKE ?` placeholders: the keyword between two `%`. */
  function SearchPattern(keyword: string): string {
    "%" + keyword + "%"
  }

  predicate SearchHit(p: Product, categories: seq<Category>, keyword: string) {
    exists c :: c in categories && c.id == p.categoryId &&
      (Like(p.name, SearchPattern(keyword)) || Like(c.name, SearchPattern(keyword)))
  }

  function SearchRows(products: seq<Product>, categories: seq<Category>, keyword: string): seq<Product> {
    Filter(products, (p: Product) => SearchHit(p, categories, keyword))
  }

  /** An empty keyword finds every product whose category still exists (the inner join drops the rest). */
  lemma SearchEmptyKeyword(products: seq<Product>, categories: seq<Category>)
    ensures forall p :: p in SearchRows(products, categories, "") <==>
      p in products && exists c :: c in categories && c.id == p.categoryId
  {
    forall p | p in products ensures SearchHit(p, categories, "") <==> exists c :: c in categories && c.id == p.categoryId {
      assert SearchPattern("") == "%%";
      assert "%%"[1..] == "%";
      LikePercent(p.name);
    }
  }

  /**
   * The keyword is not escaped, so "_" is a wildcard: it finds every product
   * whose category exists and whose name or category name is not empty.
   */
  lemma SearchUnderscore(products: seq<Product>, categories: seq<Category>)
    ensures forall p :: p in SearchRows(products, categories, "_") <==>
      p in products && exists c :: c in categories && c.id == p.categoryId && (p.name != [] || c.name != [])
  {
    assert SearchPattern("_") == "%_%";
    forall p | p in products
      ensures SearchHit(p, categories, "_") <==>
        exists c :: c in categories && c.id == p.categoryId && (p.name != [] || c.name != [])
    {
      LikeUnderscore(p.name);
      forall c | c in categories ensures Like(c.name, "%_%") <==> c.name != [] {
        LikeUnderscore(c.name);
      }
    }
  }

  // ---------------------------------------------------------------------------
  // Preservation of the order rules by each kind of write.

  lemma SetQtyKeepsRules(orders: seq<Order>, id: int, qty: int)
    requires Pairwise(orders, OrderBefore) && OrderRules(orders)
    requires qty >= 1
    ensures Pairwise(SetQty(orders, id, qty), OrderBefore) && OrderRules(SetQty(orders, id, qty))
  {
    var m, f := (o: Order) => o.id == id, (o: Order) => o.(qty := qty);
    MapWherePairwise(orders, m, f, OrderBefore);
    MapWherePairwise(orders, m, f, CartRowsDistinct);
  }

  lemma SetStatusKeepsRules(orders: seq<Order>, id: int, status: string)
    requires Pairwise(orders, OrderBefore) && OrderRules(orders)
    requires status != Cart
    ensures Pairwise(SetStatus(orders, id, status), OrderBefore) && OrderRules(SetStatus(orders, id, status))
  {
    var m, f := (o: Order) => o.id == id, (o: Order) => o.(status := status);
    MapWherePairwise(orders, m, f, OrderBefore);
    MapWherePairwise(orders, m, f, CartRowsDistinct);
  }

  lemma SetCheckoutKeepsRules(orders: seq<Order>, id: int, total: Option<int>)
    requires Pairwise(orders, OrderBefore) && OrderRules(orders)
    ensures Pairwise(SetCheckout(orders, id, total), OrderBefore) && OrderRules(SetCheckout(orders, id, total))
  {
    var m, f := (o: Order) => o.id == id, (o: Order) => o.(status := Pending, totalPrice := total);
    MapWherePairwise(orders, m, f, OrderBefore);
    MapWherePairwise(orders, m, f, CartRowsDistinct);
  }

  lemma DeleteKeepsRules(orders: seq<Order>, id: int)
    requires Pairwise(orders, OrderBefore) && OrderRules(orders)
    ensures Pairwise(DeleteId(orders, id, OrderKey), OrderBefore) && OrderRules(DeleteId(orders, id, OrderKey))
  {
    DeleteIdPairwise(orders, id, OrderKey, OrderBefore);
    DeleteIdPairwise(orders, id, OrderKey, CartRowsDistinct);
    var r := DeleteId(orders, id, OrderKey);
    forall i | 0 <= i < |r| ensures r[i].qty >= 1 {
      assert r[i] in orders;
    }
  }

  /** A new row keeps the rules when its qty is positive and, if it is a cart row, no cart row of that pair exists. */
  lemma AppendKeepsRules(orders: seq<Order>, o: Order)
    requires OrderRules(orders)
    requires o.qty >= 1
    requires o.status == Cart ==> !ProductInCart(orders, o.productId, o.userId)
    ensures OrderRules(orders + [o])
  {
    forall i | 0 <= i < |orders| ensures CartRowsDistinct(orders[i], o) {
      assert orders[i] in orders;
    }
    PairwiseSnoc(orders, o, CartRowsDistinct);
  }

  // ---------------------------------------------------------------------------

  /** The image path every seeded product carries. */
  const SeedImage: string := "file:///data/user/0/com.learning/cache/rn_image_picker_lib_temp_1882660d-a707-4141-9106-a7a29b485615.jpg"

  /** The category and product rows database.ts inserts on first start. */
  const SeedCategories: seq<Category> := [Category(1, "Áo"), Category(2, "Quần"), Category(3, "Giày"), Category(4, "Túi")]
  const SeedProducts: seq<Product> := [
    Product(1, "Áo ngắn tay", 100000, 1, SeedImage),
    Product(2, "Quần tây đen", 200000, 2, SeedImage),
    Product(3, "Giày vải", 150000, 3, SeedImage),
    Product(4, "Túi da cá sấu", 500000, 4, SeedImage)]

  class Database {
    var products: seq<Product>
    var categories: seq<Category>
    var users: seq<User>
    var orders: seq<Order>
    /** The largest order id ever handed out (sqlite_sequence for the AUTOINCREMENT column). */
    var orderSeq: int
    /** The user stored under 'loggedInUser', if any. */
    var session: Option<User>

    ghost predicate Valid()
      reads this
    {
      && Pairwise(products, ProductBefore)
      && Pairwise(categories, CategoryBefore)
      && Pairwise(users, UserBefore)
      && Pairwise(orders, OrderBefore)
      && (forall i :: 0 <= i < |orders| ==> orders[i].id <= orderSeq)
    }

    /** The tables as src/database/database.ts seeds them, nobody logged in. */
    constructor Seeded()
      ensures Valid() && OrderRules(orders) && session == None
      ensures |products| == 4 && |categories| == 4 && |users| == 2 && |orders| == 3
    {
      categories := SeedCategories;
      products := SeedProducts;
      users := [User(1, "admin", "123456", AdminRole), User(2, "testUser", "123456", UserRole)];
      orders := [
        Order(1, Cart, 1, None, 1, 2),
        Order(2, Cart, 1, None, 2, 2),
        Order(3, Pending, 1, None, 1, 2)];
      orderSeq := 3;
      session := None;
    }

    // -------------------------------------------------------------------------
    // Queries that copy the result rows with an index loop.

    method SelectOrder(status: string, userId: int) returns (data: seq<Order>)
      ensures data == OrdersWithStatus(orders, status, userId)
    {
      data := [];
      var i := 0;
      while i < |orders|
        invariant 0 <= i <= |orders|
        invariant data == OrdersWithStatus(orders[..i], status, userId)
      {
        assert orders[..i + 1][..i] == orders[..i];
        if orders[i].userId == userId && orders[i].status == status {
          data := data + [orders[i]];
        }
        i := i + 1;
      }
      assert orders[..i] == orders;
    }

    method SelectOrderHistory(userId: int) returns (data: seq<Order>)
      ensures data == OrderHistory(orders, userId)
    {
      data := [];
      var i := 0;
      while i < |orders|
        invariant 0 <= i <= |orders|
        invariant data == OrderHistory(orders[..i], userId)
      {
        assert orders[..i + 1][..i] == orders[..i];
        if orders[i].userId == userId && orders[i].status != Cart {
          data := data + [orders[i]];
        }
        i := i + 1;
      }
      assert orders[..i] == orders;
    }

    method SearchProducts(keyword: string) returns (found: seq<Product>)
      ensures found == SearchRows(products, categories, keyword)
    {
      found := [];
      var i := 0;
      while i < |products|
        invariant 0 <= i <= |products|
        invariant found == SearchRows(products[..i], categories, keyword)
      {
        assert products[..i + 1][..i] == products[..i];
        if SearchHit(products[i], categories, keyword) {
          found := found + [products[i]];
        }
        i := i + 1;
      }
      assert products[..i] == products;
    }

    // -------------------------------------------------------------------------
    // Writes to the orders table.

    method UpdateOrderQty(id: int, qty: int)
      requires Valid()
      modifies this`orders
      ensures Valid()
      ensures orders == SetQty(old(orders), id, qty)
    {
      orders := SetQty(orders, id, qty);
      MapWherePairwise(old(orders), (o: Order) => o.id == id, (o: Order) => o.(qty := qty), OrderBefore);
    }

    method UpdateOrderStatus(id: int, status: string)
      requires Valid()
      modifies this`orders
      ensures Valid()
      ensures orders == SetStatus(old(orders), id, status)
    {
      orders := SetStatus(orders, id, status);
      MapWherePairwise(old(orders), (o: Order) => o.id == id, (o: Order) => o.(status := status), OrderBefore);
    }

    method UpdateOrderCheckout(id: int, total: Option<int>)
      requires Valid()
      modifies this`orders
      ensures Valid()
      ensures orders == SetCheckout(old(orders), id, total)
    {
      orders := SetCheckout(orders, id, total);
      MapWherePairwise(old(orders), (o: Order) => o.id == id,
        (o: Order) => o.(status := Pending, totalPrice := total), OrderBefore);
    }

    method DeleteOrder(id: int)
      requires Valid()
      modifies this`orders
      ensures Valid()
      ensures orders == DeleteId(old(orders), id, OrderKey)
    {
      orders := DeleteId(orders, id, OrderKey);
      DeleteIdPairwise(old(orders), id, OrderKey, OrderBefore);
      forall i | 0 <= i < |orders| ensures orders[i].id <= orderSeq {
        assert orders[i] in old(orders);
      }
    }

    /** INSERT without an id: AUTOINCREMENT hands out one more than the largest id ever used. */
    method InsertOrder(productId: int, qty: int, status: string, userId: int) returns (id: int)
      requires Valid()
      modifies this`orders, this`orderSeq
      ensures Valid()
      ensures id == old(orderSeq) + 1 && orderSeq == id
      ensures forall i :: 0 <= i < |old(orders)| ==> old(orders)[i].id < id
      ensures orders == old(orders) + [Order(id, status, qty, None, productId, userId)]
    {
      id := orderSeq + 1;
      var row := Order(id, status, qty, None, productId, userId);
      PairwiseSnoc(orders, row, OrderBefore);
      orders := orders + [row];
      orderSeq := id;
    }

    // -------------------------------------------------------------------------
    // Writes to the products table.

    /** INSERT with an explicit id fails on the PRIMARY KEY when the id is taken. */
    method InsertProduct(p: Product) returns (ok: bool)
      requires Valid()
      modifies this`products
      ensures Valid()
      ensures ok <==> forall q :: q in old(products) ==> q.id != p.id
      ensures products == if ok then InsertSorted(old(products), p, ProductKey) else old(products)
    {
      ok := forall q :: q in products ==> q.id != p.id;
      if ok {
        forall i | 0 <= i < |products| ensures ProductKey(products[i]) != ProductKey(p) {
          assert products[i] in products;
        }
        InsertSortedPairwise(products, p, ProductKey, ProductBefore);
        products := InsertSorted(products, p, ProductKey);
      }
    }

    method UpdateProduct(id: int, name: string, price: int, categoryId: int, image: string)
      requires Valid()
      modifies this`products
      ensures Valid()
      ensures products == SetProductFields(old(products), id, name, price, categoryId, image)
    {
      products := SetProductFields(products, id, name, price, categoryId, image);
      MapWherePairwise(old(products), (p: Product) => p.id == id,
        (p: Product) => p.(name := name, price := price, categoryId := categoryId, image := image), ProductBefore);
    }

    method DeleteProduct(id: int)
      requires Valid()
      modifies this`products
      ensures Valid()
      ensures products == DeleteId(old(products), id, ProductKey)
    {
      products := DeleteId(products, id, ProductKey);
      DeleteIdPairwise(old(products), id, ProductKey, ProductBefore);
    }

    // -------------------------------------------------------------------------
    // Writes to the categories table.

    /** INSERT of the name only: the INTEGER PRIMARY KEY becomes the largest id plus one. */
    method InsertCategory(name: string) returns (id: int)
      requires Valid()
      modifies this`categories
      ensures Valid()
      ensures id == NextId(old(categories), CategoryKey)
      ensures categories == old(categories) + [Category(id, name)]
    {
      id := NextId(categories, CategoryKey);
      NextIdFresh(categories, CategoryKey);
      PairwiseSnoc(categories, Category(id, name), CategoryBefore);
      categories := categories + [Category(id, name)];
    }

    method UpdateCategory(id: int, name: string)
      requires Valid()
      modifies this`categories
      ensures Valid()
      ensures categories == SetCategoryName(old(categories), id, name)
    {
      categories := SetCategoryName(categories, id, name);
      MapWherePairwise(old(categories), (c: Category) => c.id == id, (c: Category) => c.(name := name), CategoryBefore);
    }

    method DeleteCategory(id: int)
      requires Valid()
      modifies this`categories
      ensures Valid()
      ensures categories == DeleteId(old(categories), id, CategoryKey)
    {
      categories := DeleteId(categories, id, CategoryKey);
      DeleteIdPairwise(old(categories), id, CategoryKey, CategoryBefore);
    }

    // -------------------------------------------------------------------------
    // Writes to the users table.

    /** INSERT with an explicit id fails when the id or the username is taken. */
    method InsertUser(u: User) returns (ok: bool)
      requires Valid()
      modifies this`users
      ensures Valid()
      ensures ok <==> forall x :: x in old(users) ==> x.id != u.id && x.username != u.username
      ensures users == if ok then InsertSorted(old(users), u, UserKey) else old(users)
    {
      ok := forall x :: x in users ==> x.id != u.id && x.username != u.username;
      if ok {
        forall i | 0 <= i < |users| ensures UserKey(users[i]) != UserKey(u) && users[i].username != u.username {
          assert users[i] in users;
        }
        InsertSortedPairwise(users, u, UserKey, UserBefore);
        users := InsertSorted(users, u, UserKey);
      }
    }

    method UpdateUserRole(id: int, role: string)
      requires Valid()
      modifies this`users
      ensures Valid()
      ensures users == SetRole(old(users), id, role)
    {
      users := SetRole(users, id, role);
      MapWherePairwise(old(users), (u: User) => u.id == id, (u: User) => u.(role := role), UserBefore);
    }

    method UpdateUserPassword(id: int, password: string)
      requires Valid()
      modifies this`users
      ensures Valid()
      ensures users == SetPassword(old(users), id, password)
    {
      users := SetPassword(users, id, password);
      MapWherePairwise(old(users), (u: User) => u.id == id, (u: User) => u.(password := password), UserBefore);
    }

    method DeleteUser(id: int)
      requires Valid()
      modifies this`users
      ensures Valid()
      ensures users == DeleteId(old(users), id, UserKey)
    {
      users := DeleteId(users, id, UserKey);
      DeleteIdPairwise(old(users), id, UserKey, UserBefore);
    }
  }
}
