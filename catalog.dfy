/**
 * The catalog side: the admin's product form (ProductManagementScreen), the
 * customer's product filter (ProductScreen) and the admin's category form
 * (CategoryManagementScreen).
 */
module Catalog {
  import opened Objects
  import opened Store

  const UnknownCategory: string := "Unknown"
  const PriceNotPositiveMessage: string := "Giá sản phẩm phải là số lớn hơn 0"
  const PriceTooLowMessage: string := "Giá sản phẩm phải từ 1.000đ trở lên"
  const MinProductPrice: int := 1000
  const MinProductNameLength: int := 5
  const MinCategoryNameLength: int := 2
  /** What SQLite reports when an INSERT reuses a primary key of `products`. */
  const InsertFailedMessage: string := "UNIQUE constraint failed: products.id"

  // ---------------------------------------------------------------------------
  // The product form.

  datatype FormCheck = MissingField | PriceNotPositive | PriceTooLow | NameTooShort | Blocked | Accepted

  /** The guard chain shared by addProduct and updateproduct, checked in this order. */
  function CheckProductForm(name: string, price: Option<int>, category: Option<int>, errorMessage: string): (r: FormCheck)
    ensures r == MissingField <==> name == "" || !Truthy(price) || !Truthy(category)
    ensures r == PriceNotPositive <==> name != "" && Truthy(price) && Truthy(category) && price.value < 0
    ensures r == PriceTooLow <==> name != "" && Truthy(category) && price.Some? && 0 < price.value < MinProductPrice
    ensures r == NameTooShort <==>
      Truthy(category) && price.Some? && price.value >= MinProductPrice && 0 < Utf16Length(name) < MinProductNameLength
    ensures r == Blocked <==>
      Truthy(category) && price.Some? && price.value >= MinProductPrice && Utf16Length(name) >= MinProductNameLength && errorMessage != ""
    ensures r == Accepted <==>
      Truthy(category) && price.Some? && price.value >= MinProductPrice && Utf16Length(name) >= MinProductNameLength && errorMessage == ""
  {
    if name == "" || !Truthy(price) || !Truthy(category) then MissingField
    else if price.value <= 0 then PriceNotPositive
    else if price.value < MinProductPrice then PriceTooLow
    else if Utf16Length(name) < MinProductNameLength then NameTooShort
    else if errorMessage != "" then Blocked
    else Accepted
  }

  /**
   * The name check counts UTF-16 units: three emoji make a name of length 6,
   * which passes the five-character minimum.
   */
  lemma SurrogatePairsCountTwice()
    ensures CheckProductForm("\U{1F600}\U{1F600}\U{1F600}", Some(MinProductPrice), Some(1), "") == Accepted
  {
    var name := "\U{1F600}\U{1F600}\U{1F600}";
    assert name[..2][..1] == [name[0]];
    assert Utf16Length(name[..1]) == 2;
    assert Utf16Length(name[..2]) == 4;
  }

  /** The price message the chain leaves: cleared first, set by the two price checks. */
  function PriceMessage(check: FormCheck): string {
    match check
    case PriceNotPositive => PriceNotPositiveMessage
    case PriceTooLow => PriceTooLowMessage
    case _ => ""
  }

  /** The id addProduct gives a new product: the last listed product's id plus one, or 1. */
  function NewProductId(listed: seq<Product>): (r: int)
    ensures listed == [] ==> r == 1
    ensures listed != [] ==> r == listed[|listed| - 1].id + 1
  {
    NextId(listed, ProductKey)
  }

  /** The corrected rule: one more than the last id of the whole table, never an id in use. */
  function FreshProductId(table: seq<Product>): (r: int)
    requires Pairwise(table, ProductBefore)
    ensures forall p :: p in table ==> p.id < r
  {
    forall i, j | 0 <= i < j < |table| ensures ProductKey(table[i]) < ProductKey(table[j]) {
      assert ProductBefore(table[i], table[j]);
    }
    NextIdFresh(table, ProductKey);
    NextId(table, ProductKey)
  }

  /** With the corrected id the INSERT always succeeds and the row goes last. */
  lemma FreshProductIdInserts(table: seq<Product>, name: string, price: int, categoryId: int, image: string)
    requires Pairwise(table, ProductBefore)
    ensures var row := Product(FreshProductId(table), name, price, categoryId, image);
      (forall q :: q in table ==> q.id != row.id) && InsertSorted(table, row, ProductKey) == table + [row]
  {
    var row := Product(FreshProductId(table), name, price, categoryId, image);
    forall i | 0 <= i < |table| ensures ProductKey(table[i]) < ProductKey(row) {
      assert table[i] in table;
    }
    InsertSortedAtEnd(table, row, ProductKey);
  }

  /** The INSERT addProduct runs, with the corrected id: the row goes last. */
  method InsertFresh(db: Database, name: string, price: int, categoryId: int, image: string)
    requires db.Valid()
    modifies db`products
    ensures db.Valid()
    ensures db.products == old(db.products) + [Product(FreshProductId(old(db.products)), name, price, categoryId, image)]
  {
    var row := Product(FreshProductId(db.products), name, price, categoryId, image);
    FreshProductIdInserts(db.products, name, price, categoryId, image);
    var ok := db.InsertProduct(row);
    assert ok;
  }

  /**
   * Whenever the listed products end at a table row whose successor in the
   * table has the next id, the id addProduct computes is that successor's, so
   * the INSERT hits the primary key. The list is narrowed this way by any
   * keyword the successor does not match (the search effect).
   */
  lemma NarrowedListCollides(table: seq<Product>, listed: seq<Product>, i: nat)
    requires i + 1 < |table|
    requires listed != [] && listed[|listed| - 1] == table[i]
    requires table[i + 1].id == table[i].id + 1
    ensures NewProductId(listed) == table[i + 1].id
    ensures exists q :: q in table && q.id == NewProductId(listed)
  {
    assert table[i + 1] in table;
  }

  /** The seed categories are matched to the seed products by position. */
  lemma SeedCategoryOfRow(k: int)
    requires 0 <= k < |SeedProducts|
    ensures forall c :: c in SeedCategories && c.id == SeedProducts[k].categoryId ==> c == SeedCategories[k]
  {
  }

  /** A seed product other than the first matches "Áo" neither by name nor by category. */
  lemma SeedRowMissesKeyword(k: int)
    requires 1 <= k < |SeedProducts|
    ensures !SearchHit(SeedProducts[k], SeedCategories, "Áo")
  {
    assert SearchPattern("Áo") == "%" + ['Á'] + "o%";
    LikeNeedsFirstChar(SeedProducts[k].name, 'Á', "o%");
    LikeNeedsFirstChar(SeedCategories[k].name, 'Á', "o%");
    SeedCategoryOfRow(k);
  }

  /**
   * On the seed tables, searching for "Áo" lists only the first product, and
   * "last listed id + 1" is the id of the second one.
   */
  lemma ListedIdCollides()
    ensures var listed := SearchRows(SeedProducts, SeedCategories, "Áo");
      listed == [SeedProducts[0]] && NewProductId(listed) == SeedProducts[1].id
  {
    var table, rest := SeedProducts, SeedProducts[1..];
    assert SearchHit(table[0], SeedCategories, "Áo") by {
      assert "Áo" <= table[0].name;
      ContainsIsLike(table[0].name, "Áo");
      assert SeedCategories[0] in SeedCategories;
    }
    forall i | 0 <= i < |rest| ensures !SearchHit(rest[i], SeedCategories, "Áo") {
      SeedRowMissesKeyword(i + 1);
    }
    FilterDropsAll(rest, (p: Product) => SearchHit(p, SeedCategories, "Áo"));
    assert table == [table[0]] + rest;
    FilterConcat([table[0]], rest, (p: Product) => SearchHit(p, SeedCategories, "Áo"));
  }

  /** getNameCategoryById: the category's name, or 'Unknown' when no category has the id. */
  function CategoryNameOf(categories: seq<Category>, id: int): (r: string)
    ensures (forall c :: c in categories ==> c.id != id) ==> r == UnknownCategory
    ensures (exists c :: c in categories && c.id == id) ==> exists c :: c in categories && c.id == id && r == c.name
  {
    match FindCategory(categories, id)
    case Some(c) => c.name
    case None => UnknownCategory
  }

  /** What `clear` and the first load select: the first category's id, or nothing. */
  function FirstCategoryId(categories: seq<Category>): (r: Option<int>)
    ensures r.None? <==> categories == []
    ensures r.Some? ==> r.value == categories[0].id
  {
    if |categories| > 0 then Some(categories[0].id) else None
  }

  class ProductAdmin {
    var products: seq<Product>
    var categories: seq<Category>
    var name: string
    var price: Option<int>
    var selectedCategory: Option<int>
    var image: string
    var idSelected: Option<int>
    var errorMessage: string
    var errorPriceMessage: string

    /** The form after `clear`. */
    ghost predicate Cleared()
      reads this
    {
      name == "" && price == None && image == "" && idSelected == None && selectedCategory == FirstCategoryId(categories)
    }

    ghost predicate FormIs(name: string, price: Option<int>, selectedCategory: Option<int>, image: string, idSelected: Option<int>)
      reads this
    {
      this.name == name && this.price == price && this.selectedCategory == selectedCategory &&
      this.image == image && this.idSelected == idSelected
    }

    constructor()
      ensures products == [] && categories == [] && errorMessage == "" && errorPriceMessage == ""
      ensures Cleared()
    {
      products, categories := [], [];
      name, price, selectedCategory, image, idSelected := "", None, None, "", None;
      errorMessage, errorPriceMessage := "", "";
    }

    /** initScreen: both tables, and the route's category or else the first one. */
    method Load(db: Database, categoryId: Option<int>)
      modifies this`categories, this`products, this`selectedCategory, this`errorMessage
      ensures categories == db.categories && products == db.products && errorMessage == ""
      ensures selectedCategory == if Truthy(categoryId) then categoryId else FirstCategoryId(db.categories)
    {
      errorMessage := "";
      categories := CopyRows(db.categories);
      products := CopyRows(db.products);
      selectedCategory := if Truthy(categoryId) then categoryId else FirstCategoryId(categories);
    }

    method Clear()
      modifies this`name, this`price, this`image, this`selectedCategory, this`idSelected
      ensures Cleared()
    {
      name, price, image, idSelected := "", None, "", None;
      selectedCategory := FirstCategoryId(categories);
    }

    /** clickEditContact: select the id and, if it is listed, copy that product into the form. */
    method EditProduct(id: int)
      modifies this`name, this`price, this`image, this`selectedCategory, this`idSelected
      ensures idSelected == Some(id)
      ensures FindProduct(products, id).None? ==>
        name == old(name) && price == old(price) && selectedCategory == old(selectedCategory) && image == old(image)
      ensures FindProduct(products, id).Some? ==>
        var p := FindProduct(products, id).value;
        name == p.name && price == Some(p.price) && selectedCategory == Some(p.categoryId) && image == p.image
    {
      idSelected := Some(id);
      match FindProduct(products, id)
      case Some(p) =>
        name, price, selectedCategory, image := p.name, Some(p.price), Some(p.categoryId), p.image;
      case None =>
    }

    /**
     * addProduct: the guard chain, then an INSERT whose id is the last listed
     * product's id plus one. A failed INSERT sets errorMessage and keeps the
     * list; the form is cleared whether or not the INSERT went through.
     */
    method AddProduct(db: Database) returns (check: FormCheck, inserted: bool)
      requires db.Valid()
      modifies this`products, this`name, this`price, this`image, this`selectedCategory, this`idSelected,
        this`errorMessage, this`errorPriceMessage, db`products
      ensures db.Valid()
      ensures categories == old(categories)
      ensures check == CheckProductForm(old(name), old(price), old(selectedCategory), old(errorMessage))
      ensures errorPriceMessage == PriceMessage(check)
      ensures inserted ==> check == Accepted
      ensures check != Accepted ==>
        db.products == old(db.products) && products == old(products) && errorMessage == old(errorMessage) &&
        FormIs(old(name), old(price), old(selectedCategory), old(image), old(idSelected))
      ensures check == Accepted ==>
        var row := Product(NewProductId(old(products)), old(name), old(price).value, old(selectedCategory).value, old(image));
        && (inserted <==> forall q :: q in old(db.products) ==> q.id != row.id)
        && (inserted ==> db.products == InsertSorted(old(db.products), row, ProductKey) && products == db.products && errorMessage == "")
        && (!inserted ==> db.products == old(db.products) && products == old(products) && errorMessage == InsertFailedMessage)
        && Cleared()
    {
      errorPriceMessage := "";
      inserted := false;
      check := CheckProductForm(name, price, selectedCategory, errorMessage);
      errorPriceMessage := PriceMessage(check);
      if check != Accepted {
        return;
      }
      inserted := SubmitNew(db);
    }

    /** The INSERT addProduct runs once the guards pass, then the reload or the error, then `clear`. */
    method SubmitNew(db: Database) returns (inserted: bool)
      requires db.Valid() && price.Some? && selectedCategory.Some?
      modifies this`products, this`name, this`price, this`image, this`selectedCategory, this`idSelected,
        this`errorMessage, db`products
      ensures db.Valid()
      ensures var row := Product(NewProductId(old(products)), old(name), old(price).value, old(selectedCategory).value, old(image));
        && (inserted <==> forall q :: q in old(db.products) ==> q.id != row.id)
        && (inserted ==> db.products == InsertSorted(old(db.products), row, ProductKey) && products == db.products && errorMessage == "")
        && (!inserted ==> db.products == old(db.products) && products == old(products) && errorMessage == InsertFailedMessage)
        && Cleared()
    {
      var row := Product(NewProductId(products), name, price.value, selectedCategory.value, image);
      errorMessage := "";
      inserted := db.InsertProduct(row);
      if inserted {
        products := CopyRows(db.products);
      } else {
        errorMessage := InsertFailedMessage;
      }
      Clear();
    }

    /** addProduct with the corrected id (one more than the table's last id): the INSERT always goes through. */
    method AddProductCorrected(db: Database) returns (check: FormCheck)
      requires db.Valid()
      modifies this`products, this`name, this`price, this`image, this`selectedCategory, this`idSelected,
        this`errorMessage, this`errorPriceMessage, db`products
      ensures db.Valid()
      ensures categories == old(categories)
      ensures check == CheckProductForm(old(name), old(price), old(selectedCategory), old(errorMessage))
      ensures errorPriceMessage == PriceMessage(check)
      ensures check != Accepted ==>
        db.products == old(db.products) && products == old(products) && errorMessage == old(errorMessage) &&
        FormIs(old(name), old(price), old(selectedCategory), old(image), old(idSelected))
      ensures check == Accepted ==>
        && db.products == old(db.products) + [Product(FreshProductId(old(db.products)), old(name), old(price).value, old(selectedCategory).value, old(image))]
        && products == db.products && errorMessage == ""
        && Cleared()
    {
      errorPriceMessage := "";
      check := CheckProductForm(name, price, selectedCategory, errorMessage);
      errorPriceMessage := PriceMessage(check);
      if check != Accepted {
        return;
      }
      SubmitFresh(db);
    }

    /** The corrected INSERT once the guards pass, then the reload and `clear`. */
    method SubmitFresh(db: Database)
      requires db.Valid() && price.Some? && selectedCategory.Some?
      modifies this`products, this`name, this`price, this`image, this`selectedCategory, this`idSelected,
        this`errorMessage, db`products
      ensures db.Valid()
      ensures db.products == old(db.products) + [Product(FreshProductId(old(db.products)), old(name), old(price).value, old(selectedCategory).value, old(image))]
      ensures products == db.products && errorMessage == "" && Cleared()
    {
      errorMessage := "";
      InsertFresh(db, name, price.value, selectedCategory.value, image);
      products := CopyRows(db.products);
      Clear();
    }

    /** updateproduct: the guard chain, then the first listed product with the id is rewritten. */
    method UpdateProduct(db: Database, id: int) returns (check: FormCheck)
      requires db.Valid()
      modifies this`products, this`name, this`price, this`image, this`selectedCategory, this`idSelected,
        this`errorMessage, this`errorPriceMessage, db`products
      ensures db.Valid()
      ensures categories == old(categories)
      ensures check == CheckProductForm(old(name), old(price), old(selectedCategory), old(errorMessage))
      ensures errorPriceMessage == PriceMessage(check)
      ensures check != Accepted || (forall p :: p in old(products) ==> p.id != id) ==>
        db.products == old(db.products) && products == old(products) && errorMessage == old(errorMessage) &&
        FormIs(old(name), old(price), old(selectedCategory), old(image), old(idSelected))
      ensures check == Accepted && (exists p :: p in old(products) && p.id == id) ==>
        && db.products == SetProductFields(old(db.products), id, old(name), old(price).value, old(selectedCategory).value, old(image))
        && products == db.products && errorMessage == ""
        && Cleared()
    {
      errorPriceMessage := "";
      check := CheckProductForm(name, price, selectedCategory, errorMessage);
      errorPriceMessage := PriceMessage(check);
      if check != Accepted {
        return;
      }
      SubmitUpdate(db, id);
    }

    /** updateproduct's loop once the guards pass: the first listed product with the id is written, then reload and `clear`. */
    method SubmitUpdate(db: Database, id: int)
      requires db.Valid() && price.Some? && selectedCategory.Some?
      modifies this`products, this`name, this`price, this`image, this`selectedCategory, this`idSelected,
        this`errorMessage, db`products
      ensures db.Valid()
      ensures (forall p :: p in old(products) ==> p.id != id) ==>
        db.products == old(db.products) && products == old(products) && errorMessage == old(errorMessage) &&
        FormIs(old(name), old(price), old(selectedCategory), old(image), old(idSelected))
      ensures (exists p :: p in old(products) && p.id == id) ==>
        && db.products == SetProductFields(old(db.products), id, old(name), old(price).value, old(selectedCategory).value, old(image))
        && products == db.products && errorMessage == ""
        && Cleared()
    {
      var i := 0;
      while i < |products|
        invariant 0 <= i <= |products|
        invariant products == old(products) && db.products == old(db.products)
        invariant FormIs(old(name), old(price), old(selectedCategory), old(image), old(idSelected))
        invariant errorMessage == old(errorMessage)
        invariant forall j :: 0 <= j < i ==> products[j].id != id
      {
        if products[i].id == id {
          errorMessage := "";
          db.UpdateProduct(id, name, price.value, selectedCategory.value, image);
          products := CopyRows(db.products);
          Clear();
          return;
        }
        i := i + 1;
      }
    }

    /** deleteProduct: clear the error, delete the row, reload the list, clear the form. */
    method DeleteProduct(db: Database, id: int)
      requires db.Valid()
      modifies this`products, this`name, this`price, this`image, this`selectedCategory, this`idSelected,
        this`errorMessage, db`products
      ensures db.Valid()
      ensures db.products == DeleteId(old(db.products), id, ProductKey)
      ensures products == db.products && errorMessage == ""
      ensures Cleared()
    {
      errorMessage := "";
      db.DeleteProduct(id);
      products := CopyRows(db.products);
      Clear();
    }

    /** The search effect: the list becomes the search result and the form is cleared. */
    method Search(db: Database, keyword: string)
      modifies this`products, this`name, this`price, this`image, this`selectedCategory, this`idSelected, this`errorMessage
      ensures products == SearchRows(db.products, db.categories, keyword) && errorMessage == ""
      ensures Cleared()
    {
      errorMessage := "";
      products := db.SearchProducts(keyword);
      Clear();
    }
  }

  /**
   * Without a search the listed products are the table, and the id addProduct
   * computes is then always free.
   */
  lemma NewProductIdFreeOnFullList(table: seq<Product>)
    requires Pairwise(table, ProductBefore)
    ensures NewProductId(table) == FreshProductId(table)
    ensures forall q :: q in table ==> q.id != NewProductId(table)
  {
  }

  // ---------------------------------------------------------------------------
  // ProductScreen's filter.

  datatype PriceRange = PriceRange(low: int, high: int)

  /** The slider's initial range, and what Reset sets it back to. */
  const DefaultPriceRange: PriceRange := PriceRange(0, 10000000)

  predicate ShowsProduct(p: Product, selectedCategoryId: Option<int>, range: PriceRange) {
    (Truthy(selectedCategoryId) ==> p.categoryId == selectedCategoryId.value) &&
    range.low <= p.price <= range.high
  }

  /** filteredProducts: the listed products in the selected category (if any) and the price range, inclusive. */
  function FilteredProducts(products: seq<Product>, selectedCategoryId: Option<int>, range: PriceRange): (r: seq<Product>)
    ensures forall p :: p in r <==>
      p in products && (Truthy(selectedCategoryId) ==> p.categoryId == selectedCategoryId.value) && range.low <= p.price <= range.high
  {
    Filter(products, (p: Product) => ShowsProduct(p, selectedCategoryId, range))
  }

  /** The filter keeps the listed order: filtering a concatenation filters each part. */
  lemma FilteredKeepsOrder(a: seq<Product>, b: seq<Product>, selectedCategoryId: Option<int>, range: PriceRange)
    ensures FilteredProducts(a + b, selectedCategoryId, range) ==
      FilteredProducts(a, selectedCategoryId, range) + FilteredProducts(b, selectedCategoryId, range)
  {
    FilterConcat(a, b, (p: Product) => ShowsProduct(p, selectedCategoryId, range));
  }

  /** With no category and the default range, every product priced from 0 to 10,000,000 is shown, in order. */
  lemma DefaultFilterShowsAll(products: seq<Product>, selectedCategoryId: Option<int>)
    requires !Truthy(selectedCategoryId)
    requires forall i :: 0 <= i < |products| ==> 0 <= products[i].price <= 10000000
    ensures FilteredProducts(products, selectedCategoryId, DefaultPriceRange) == products
  {
    FilterKeepsAll(products, (p: Product) => ShowsProduct(p, selectedCategoryId, DefaultPriceRange));
  }

  /** Widening the range never hides a product. */
  lemma WiderRangeShowsMore(products: seq<Product>, selectedCategoryId: Option<int>, narrow: PriceRange, wide: PriceRange)
    requires wide.low <= narrow.low && narrow.high <= wide.high
    ensures forall p :: p in FilteredProducts(products, selectedCategoryId, narrow) ==>
      p in FilteredProducts(products, selectedCategoryId, wide)
  {
  }

  // ---------------------------------------------------------------------------
  // The category form.

  datatype NameCheck = EmptyName | ShortName | NameOk

  /** addCategory and updateCategory: a name is required and needs 2 characters. */
  function CheckCategoryName(name: string): (r: NameCheck)
    ensures r == EmptyName <==> name == ""
    ensures r == ShortName <==> 0 < Utf16Length(name) < MinCategoryNameLength
    ensures r == NameOk <==> Utf16Length(name) >= MinCategoryNameLength
  {
    if name == "" then EmptyName
    else if Utf16Length(name) < MinCategoryNameLength then ShortName
    else NameOk
  }

  class CategoryAdmin {
    var categories: seq<Category>
    var idSelected: Option<int>
    var name: string

    constructor()
      ensures categories == [] && idSelected == None && name == ""
    {
      categories, idSelected, name := [], None, "";
    }

    method Clear()
      modifies this`name, this`idSelected
      ensures name == "" && idSelected == None
    {
      name, idSelected := "", None;
    }

    /** initScreen: the table, then a cleared form. */
    method Load(db: Database)
      modifies this
      ensures categories == db.categories && name == "" && idSelected == None
    {
      categories := CopyRows(db.categories);
      Clear();
    }

    /** addCategory: on a valid name, INSERT the name alone; the table gives the id. */
    method AddCategory(db: Database) returns (check: NameCheck)
      requires db.Valid()
      modifies this, db`categories
      ensures db.Valid()
      ensures check == CheckCategoryName(old(name))
      ensures check != NameOk ==>
        db.categories == old(db.categories) && categories == old(categories) && name == old(name) && idSelected == old(idSelected)
      ensures check == NameOk ==>
        && db.categories == old(db.categories) + [Category(NextId(old(db.categories), CategoryKey), old(name))]
        && categories == db.categories && name == "" && idSelected == None
    {
      check := CheckCategoryName(name);
      if check != NameOk {
        return;
      }
      var _ := db.InsertCategory(name);
      categories := CopyRows(db.categories);
      Clear();
    }

    /** updateCategory: on a valid name, write only `name` of that id. */
    method UpdateCategory(db: Database, id: int) returns (check: NameCheck)
      requires db.Valid()
      modifies this, db`categories
      ensures db.Valid()
      ensures check == CheckCategoryName(old(name))
      ensures check != NameOk ==>
        db.categories == old(db.categories) && categories == old(categories) && name == old(name) && idSelected == old(idSelected)
      ensures check == NameOk ==>
        && db.categories == SetCategoryName(old(db.categories), id, old(name))
        && categories == db.categories && name == "" && idSelected == None
    {
      check := CheckCategoryName(name);
      if check != NameOk {
        return;
      }
      db.UpdateCategory(id, name);
      categories := CopyRows(db.categories);
      Clear();
    }

    /** deleteCategory: the form is cleared only when the deleted id is the selected one. */
    method DeleteCategory(db: Database, id: int)
      requires db.Valid()
      modifies this, db`categories
      ensures db.Valid()
      ensures db.categories == DeleteId(old(db.categories), id, CategoryKey) && categories == db.categories
      ensures old(idSelected) == Some(id) ==> name == "" && idSelected == None
      ensures old(idSelected) != Some(id) ==> name == old(name) && idSelected == old(idSelected)
    {
      db.DeleteCategory(id);
      categories := CopyRows(db.categories);
      if idSelected == Some(id) {
        Clear();
      }
    }
  }
}
