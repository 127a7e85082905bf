/**
 * The order lifecycle as the screens drive it: a product goes into the cart
 * (ProductDetailScreen), its quantity is stepped or it is removed (CartScreen),
 * checkout turns the cart row into a `pending` order with a price snapshot
 * (CheckoutScreen), the admin overwrites the status (BookingManagementScreen),
 * and both the admin and the customer see orders by status tab with a
 * displayed total (BookingManagementScreen, HistoryScreen).
 */
module Orders {
  import opened Objects
  import opened Store

  const DeletedProductName: string := "Sản phẩm đã xóa"
  const NotLoggedInMessage: string := "Chưa đăng nhập"
  const ProductMissingMessage: string := "Sản phẩm không tồn tại"

  // ---------------------------------------------------------------------------
  // Quantities.

  /** The cart's +/- buttons: plus adds one, minus takes one off only above 1. */
  function NextQty(qty: int, kind: string): (r: int)
    ensures qty >= 1 ==> r >= 1
    ensures r == qty + 1 <==> kind == "plus"
    ensures r == qty - 1 <==> kind == "minus" && qty > 1
    ensures r == qty <==> kind != "plus" && !(kind == "minus" && qty > 1)
  {
    if kind == "plus" then qty + 1
    else if kind == "minus" && qty > 1 then qty - 1
    else qty
  }

  /** Minus undoes plus, whatever the quantity was. */
  lemma MinusUndoesPlus(qty: int)
    requires qty >= 1
    ensures NextQty(NextQty(qty, "plus"), "minus") == qty
  {
  }

  /** The detail screen's stepper: minus is max(1, qty - 1), plus is qty + 1. */
  function StepDown(qty: int): (r: int)
    ensures r >= 1
    ensures qty > 1 ==> r == qty - 1
    ensures qty <= 1 ==> r == 1
  {
    if qty - 1 >= 1 then qty - 1 else 1
  }

  function StepUp(qty: int): (r: int)
    ensures r > qty
    ensures r == qty + 1
  {
    qty + 1
  }

  /** Starting from `qty`, press + (true) or - (false) in order. */
  function Stepped(qty: int, presses: seq<bool>): int
    decreases |presses|
  {
    if presses == [] then qty
    else Stepped(if presses[0] then StepUp(qty) else StepDown(qty), presses[1..])
  }

  /** Whatever the presses, the stepper never shows less than 1 once it starts at 1. */
  lemma {:induction false} SteppedStaysPositive(qty: int, presses: seq<bool>)
    requires qty >= 1
    ensures Stepped(qty, presses) >= 1
    decreases |presses|
  {
    if presses != [] {
      SteppedStaysPositive(if presses[0] then StepUp(qty) else StepDown(qty), presses[1..]);
    }
  }

  // ---------------------------------------------------------------------------
  // Prices and what the order lists show.

  /** calcPrice: the product's price times qty, or 0 once the product is gone. */
  function CalcPrice(products: seq<Product>, productId: int, qty: int): (r: int)
    ensures (forall p :: p in products ==> p.id != productId) ==> r == 0
    ensures (exists p :: p in products && p.id == productId) ==>
      exists p :: p in products && p.id == productId && r == p.price * qty
  {
    match FindProduct(products, productId)
    case Some(p) => p.price * qty
    case None => 0
  }

  /** With one row per id, the cart line price is that row's price times qty. */
  lemma CalcPriceOfListed(products: seq<Product>, i: int, qty: int)
    requires Pairwise(products, ProductBefore)
    requires 0 <= i < |products|
    ensures CalcPrice(products, products[i].id, qty) == products[i].price * qty
  {
    var p := FindProduct(products, products[i].id).value;
    var j :| 0 <= j < |products| && products[j] == p;
    UniqueId(products, ProductKey, ProductBefore, i, j);
  }

  /**
   * confirmCheckout's totalPrice, and what the checkout screen shows as the
   * total: price times qty when the price is truthy, otherwise null.
   */
  function PricedTotal(product: Option<Product>, qty: int): (r: Option<int>)
    ensures r.Some? <==> product.Some? && product.value.price != 0
    ensures r.Some? ==> r.value == product.value.price * qty
  {
    if product.Some? && product.value.price != 0 then Some(product.value.price * qty) else None
  }

  /** The total of an order row: the stored snapshot if truthy, else (price or 0) times qty. */
  function ShownTotal(order: Order, product: Option<Product>): (r: int)
    ensures Truthy(order.totalPrice) ==> r == order.totalPrice.value
    ensures !Truthy(order.totalPrice) && product.None? ==> r == 0
    ensures !Truthy(order.totalPrice) && product.Some? ==> r == product.value.price * order.qty
  {
    if Truthy(order.totalPrice) then order.totalPrice.value
    else (if product.Some? then product.value.price else 0) * order.qty
  }

  /** The admin list's product name, with a placeholder for a deleted or unnamed product. */
  function ShownName(product: Option<Product>): (r: string)
    ensures product.Some? && product.value.name != "" ==> r == product.value.name
    ensures product.None? || product.value.name == "" ==> r == DeletedProductName
  {
    if product.Some? && product.value.name != "" then product.value.name else DeletedProductName
  }

  /** An order that never went through checkout shows the same total as its cart line. */
  lemma UnpricedShowsCartPrice(order: Order, products: seq<Product>)
    requires order.totalPrice.None?
    ensures ShownTotal(order, FindProduct(products, order.productId)) == CalcPrice(products, order.productId, order.qty)
  {
  }

  /**
   * After checkout of a priced product, the row is `pending` and shows the
   * price snapshot, whatever later happens to the product (repriced, deleted).
   */
  lemma CheckoutSnapshotShown(orders: seq<Order>, i: int, order: Order, p: Product, later: Option<Product>)
    requires 0 <= i < |orders| && orders[i].id == order.id
    requires order.qty >= 1 && p.price != 0
    ensures var row := SetCheckout(orders, order.id, PricedTotal(Some(p), order.qty))[i];
      row.status == Pending && ShownTotal(row, later) == p.price * order.qty
  {
    assert p.price * order.qty != 0 by {
      if p.price > 0 {
        assert p.price * order.qty >= order.qty;
      } else {
        assert p.price * order.qty <= -order.qty;
      }
    }
  }

  // ---------------------------------------------------------------------------
  // Status tabs.

  /** The tabs of both order lists; `cart` is never one of them. */
  const StatusTabs: seq<string> := FulfilmentStatuses
  const DefaultTab: string := Pending

  /** The rows of a list whose status equals the tab, ignoring case. */
  function TabRows(orders: seq<Order>, tab: string): (r: seq<Order>)
    ensures forall o :: o in r <==> o in orders && Lower(o.status) == Lower(tab)
  {
    Filter(orders, (o: Order) => Lower(o.status) == Lower(tab))
  }

  /** With the lower-case statuses the app writes, a tab shows exactly the rows with that status. */
  lemma TabRowsExact(orders: seq<Order>, tab: string)
    requires IsLowerCase(tab)
    requires forall i :: 0 <= i < |orders| ==> IsLowerCase(orders[i].status)
    ensures forall o :: o in TabRows(orders, tab) <==> o in orders && o.status == tab
  {
    LowerOfLowerCase(tab);
    forall o | o in orders ensures Lower(o.status) == o.status {
      var i :| 0 <= i < |orders| && orders[i] == o;
      LowerOfLowerCase(o.status);
    }
  }

  lemma StatusTabsAreLowerCase(i: int)
    requires 0 <= i < |StatusTabs|
    ensures IsLowerCase(StatusTabs[i]) && StatusTabs[i] != Cart
  {
  }

  // ---------------------------------------------------------------------------
  // HistoryScreen.

  /** The loaded history: selectOrderHostry for the session user; nothing without a session. */
  function HistoryLoad(session: Option<User>, orders: seq<Order>): (r: seq<Order>)
    ensures session.None? ==> r == []
    ensures forall o :: o in r ==> o.status != Cart
    ensures session.Some? ==> forall o :: o in r <==> o in orders && o.userId == session.value.id && o.status != Cart
  {
    if session.Some? then OrderHistory(orders, session.value.id) else []
  }

  /** A history tab shows the same rows as selectOrder for that status. */
  lemma HistoryTabIsSelectOrder(user: User, orders: seq<Order>, i: int)
    requires 0 <= i < |StatusTabs|
    requires forall k :: 0 <= k < |orders| ==> IsLowerCase(orders[k].status)
    ensures forall o :: o in TabRows(HistoryLoad(Some(user), orders), StatusTabs[i]) <==>
      o in OrdersWithStatus(orders, StatusTabs[i], user.id)
  {
    var loaded := HistoryLoad(Some(user), orders);
    forall k | 0 <= k < |loaded| ensures IsLowerCase(loaded[k].status) {
      assert loaded[k] in orders;
      var j :| 0 <= j < |orders| && orders[j] == loaded[k];
    }
    StatusTabsAreLowerCase(i);
    TabRowsExact(loaded, StatusTabs[i]);
  }

  // ---------------------------------------------------------------------------
  // CartScreen.

  /** The quantity updateQty writes: the first listed row with the id, stepped. */
  function QtyWrite(orders: seq<Order>, id: int, kind: string): (r: Option<int>)
    ensures r.None? <==> forall o :: o in orders ==> o.id != id
    ensures r.Some? ==> exists o :: o in orders && o.id == id && r.value == NextQty(o.qty, kind)
  {
    match Find(orders, (o: Order) => o.id == id)
    case Some(o) => Some(NextQty(o.qty, kind))
    case None => None
  }

  /** The row updateQty steps is the first listed row with the id. */
  lemma QtyWriteIsFirstMatch(orders: seq<Order>, id: int, kind: string, i: nat)
    requires i < |orders| && orders[i].id == id
    requires forall j :: 0 <= j < i ==> orders[j].id != id
    ensures QtyWrite(orders, id, kind) == Some(NextQty(orders[i].qty, kind))
  {
    var k := FindIndex(orders, (o: Order) => o.id == id);
    assert k == i;
  }

  class CartView {
    var orders: seq<Order>
    var products: seq<Product>

    constructor()
      ensures orders == [] && products == []
    {
      orders := [];
      products := [];
    }

    /** initScreen: all products, and the session user's cart rows; without a session the list stays. */
    method Load(db: Database)
      modifies this
      ensures products == db.products
      ensures db.session.Some? ==> orders == OrdersWithStatus(db.orders, Cart, db.session.value.id)
      ensures db.session.None? ==> orders == old(orders)
    {
      products := CopyRows(db.products);
      if db.session.Some? {
        orders := db.SelectOrder(Cart, db.session.value.id);
      }
    }

    /** updateQty: step the first row with the id, write its qty, mirror it in the list. */
    method UpdateQty(db: Database, id: int, kind: string)
      requires db.Valid()
      modifies this`orders, db`orders
      ensures db.Valid()
      ensures QtyWrite(old(orders), id, kind).None? ==> orders == old(orders) && db.orders == old(db.orders)
      ensures QtyWrite(old(orders), id, kind).Some? ==>
        var q := QtyWrite(old(orders), id, kind).value;
        orders == SetQty(old(orders), id, q) && db.orders == SetQty(old(db.orders), id, q)
      ensures (forall o :: o in old(orders) ==> o.qty >= 1) && OrderRules(old(db.orders)) ==> OrderRules(db.orders)
    {
      var i := 0;
      while i < |orders|
        invariant 0 <= i <= |orders|
        invariant orders == old(orders) && db.orders == old(db.orders)
        invariant forall j :: 0 <= j < i ==> orders[j].id != id
      {
        if orders[i].id == id {
          var q := NextQty(orders[i].qty, kind);
          QtyWriteIsFirstMatch(orders, id, kind, i);
          if (forall o :: o in old(orders) ==> o.qty >= 1) && OrderRules(db.orders) {
            assert orders[i] in old(orders);
            SetQtyKeepsRules(db.orders, id, q);
          }
          db.UpdateOrderQty(id, q);
          orders := SetQty(orders, id, q);
          return;
        }
        i := i + 1;
      }
    }

    /** deleteCart: delete the row, then drop it from the list. */
    method DeleteCart(db: Database, id: int)
      requires db.Valid()
      modifies this`orders, db`orders
      ensures db.Valid()
      ensures db.orders == DeleteId(old(db.orders), id, OrderKey)
      ensures orders == DeleteId(old(orders), id, OrderKey)
      ensures OrderRules(old(db.orders)) ==> OrderRules(db.orders)
    {
      if OrderRules(db.orders) {
        DeleteKeepsRules(db.orders, id);
      }
      db.DeleteOrder(id);
      orders := DeleteId(orders, id, OrderKey);
    }
  }

  // ---------------------------------------------------------------------------
  // ProductDetailScreen.

  datatype AddOutcome = NotLoggedIn | Forbidden | GoToCart | Added(id: int)

  class ProductDetailView {
    const product: Product
    var user: Option<User>
    var isInCart: bool
    var qty: int

    ghost predicate Valid()
      reads this
    {
      qty >= 1
    }

    /** `isInCart` says what checkProductInOrder says of these orders. */
    ghost predicate InSync(orders: seq<Order>)
      reads this
    {
      user.Some? ==> isInCart == ProductInCart(orders, product.id, user.value.id)
    }

    constructor(product: Product)
      ensures this.product == product && user == None && !isInCart && qty == 1
      ensures Valid()
    {
      this.product := product;
      user := None;
      isInCart := false;
      qty := 1;
    }

    /** initScreen: take the session user and ask whether the product is already in their cart. */
    method Init(db: Database)
      modifies this`user, this`isInCart
      ensures db.session.Some? ==> user == db.session && isInCart == ProductInCart(db.orders, product.id, db.session.value.id)
      ensures db.session.None? ==> user == old(user) && !isInCart
      ensures db.session.Some? ==> InSync(db.orders)
    {
      isInCart := false;
      if db.session.Some? {
        user := db.session;
        isInCart := ProductInCart(db.orders, product.id, db.session.value.id);
      }
    }

    method Decrement()
      requires Valid()
      modifies this`qty
      ensures Valid() && qty == StepDown(old(qty))
    {
      qty := StepDown(qty);
    }

    method Increment()
      requires Valid()
      modifies this`qty
      ensures Valid() && qty == StepUp(old(qty))
    {
      qty := StepUp(qty);
    }

    /** addToCart: no user, then an admin, then already in the cart, each stop before any write. */
    method AddToCart(db: Database) returns (outcome: AddOutcome)
      requires db.Valid()
      modifies db`orders, db`orderSeq
      ensures db.Valid()
      ensures outcome == NotLoggedIn <==> user.None?
      ensures outcome == Forbidden <==> user.Some? && user.value.role == AdminRole
      ensures outcome == GoToCart <==> user.Some? && user.value.role != AdminRole && isInCart
      ensures !outcome.Added? ==> db.orders == old(db.orders) && db.orderSeq == old(db.orderSeq)
      ensures outcome.Added? ==> outcome.id == old(db.orderSeq) + 1
      ensures outcome.Added? ==> db.orders == old(db.orders) + [Order(outcome.id, Cart, qty, None, product.id, user.value.id)]
      ensures Valid() && InSync(old(db.orders)) && OrderRules(old(db.orders)) ==> OrderRules(db.orders)
    {
      if user.None? {
        return NotLoggedIn;
      }
      if user.value.role == AdminRole {
        return Forbidden;
      }
      if isInCart {
        return GoToCart;
      }
      var row := Order(db.orderSeq + 1, Cart, qty, None, product.id, user.value.id);
      if Valid() && InSync(db.orders) && OrderRules(db.orders) {
        AppendKeepsRules(db.orders, row);
      }
      var id := db.InsertOrder(product.id, qty, Cart, user.value.id);
      outcome := Added(id);
    }
  }

  // ---------------------------------------------------------------------------
  // CheckoutScreen.

  datatype CheckoutLoad = Ready(user: User, product: Product) | Failed(message: string)

  /** initScreen: the session user, then the ordered product, each missing one an error. */
  function LoadCheckout(session: Option<User>, products: seq<Product>, order: Order): (r: CheckoutLoad)
    ensures r == Failed(NotLoggedInMessage) <==> session.None?
    ensures r == Failed(ProductMissingMessage) <==> session.Some? && forall p :: p in products ==> p.id != order.productId
    ensures r.Ready? ==> r.user == session.value && r.product in products && r.product.id == order.productId
  {
    if session.None? then Failed(NotLoggedInMessage)
    else match FindProduct(products, order.productId)
      case None => Failed(ProductMissingMessage)
      case Some(p) => Ready(session.value, p)
  }

  /** confirmCheckout: the row becomes `pending` with the price snapshot; nothing checks it was a cart row. */
  method ConfirmCheckout(db: Database, order: Order, product: Option<Product>)
    requires db.Valid()
    modifies db`orders
    ensures db.Valid()
    ensures db.orders == SetCheckout(old(db.orders), order.id, PricedTotal(product, order.qty))
    ensures OrderRules(old(db.orders)) ==> OrderRules(db.orders)
  {
    var total := PricedTotal(product, order.qty);
    if OrderRules(db.orders) {
      SetCheckoutKeepsRules(db.orders, order.id, total);
    }
    db.UpdateOrderCheckout(order.id, total);
  }

  // ---------------------------------------------------------------------------
  // BookingManagementScreen.

  class BookingView {
    var orders: seq<Order>
    var products: seq<Product>
    var currentTab: string
    var selectedOrder: Option<Order>

    constructor()
      ensures orders == [] && products == [] && currentTab == DefaultTab && selectedOrder == None
    {
      orders := [];
      products := [];
      currentTab := DefaultTab;
      selectedOrder := None;
    }

    /** initScreen: every order and every product. */
    method Load(db: Database)
      modifies this`orders, this`products
      ensures orders == db.orders && products == db.products
    {
      orders := CopyRows(db.orders);
      products := CopyRows(db.products);
    }

    method OpenUpdateModal(order: Order)
      modifies this`selectedOrder
      ensures selectedOrder == Some(order)
    {
      selectedOrder := Some(order);
    }

    /** handleUpdateStatus: overwrite the selected order's status, whatever it was, and reload. */
    method HandleUpdateStatus(db: Database, newStatus: string)
      requires db.Valid()
      modifies db`orders, this`orders, this`products
      ensures db.Valid()
      ensures selectedOrder.None? ==> db.orders == old(db.orders) && orders == old(orders) && products == old(products)
      ensures selectedOrder.Some? ==>
        db.orders == SetStatus(old(db.orders), selectedOrder.value.id, newStatus) &&
        orders == db.orders && products == db.products
      ensures newStatus in StatusTabs && OrderRules(old(db.orders)) ==> OrderRules(db.orders)
    {
      if selectedOrder.None? {
        return;
      }
      if newStatus in StatusTabs && OrderRules(db.orders) {
        SetStatusKeepsRules(db.orders, selectedOrder.value.id, newStatus);
      }
      db.UpdateOrderStatus(selectedOrder.value.id, newStatus);
      Load(db);
    }
  }
}
