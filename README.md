# Storefront order lifecycle and account rules, in Dafny

This project models the business core of a React Native storefront (thongnguyen003/reactnative-final-project). The rules are pulled out of the screen handlers and the database helpers and stated over one in-memory store.

**The store.** `Store.Database` holds:
- the four SQLite tables (products, categories, users, orders) as sequences in rowid order, which is also the order in which the queries return rows (none of them has an ORDER BY);
- the AUTOINCREMENT counter of `orders`;
- the logged-in user, which the app keeps under `loggedInUser` in AsyncStorage.

**What is modelled.** The modules follow the program's structure:
- `Objects`: the record shapes and the sequence vocabulary (filter, find, rewrite-where, "next id = last id + 1").
- `SqlText`: the `updateData`/`insertData`/`deleteData` statement builders.
- `Store`: the tables, the typed queries and writes of `dbHelpers.ts`, and the invariants they keep.
- `Orders`: the order lifecycle across the cart, product detail, checkout, history and booking-management screens.
- `Catalog`: the product and category forms, and the customer's product filter.
- `Accounts`: sign-up, log-in, password change, logout, and the admin's role toggle and user deletion.
- `Navigation`: which bottom tabs each role sees.

**The invariants.**
- `Database.Valid` is the schema invariant: ids increase strictly in every table, usernames are unique, and every order id is at most the AUTOINCREMENT counter. Every write preserves it.
- `Store.OrderRules` is what the screens maintain: every qty is at least 1, and no two cart rows share a (product, user) pair. Each order write states the conditions under which it keeps `OrderRules`:
  - checkout and cart deletion always keep it;
  - the cart's quantity write keeps it when the listed rows have qty of at least 1;
  - the admin's status overwrite keeps it when the new status is one of the five it offers;
  - add-to-cart keeps it when `isInCart` agrees with the table.

**Where the code and its documentation differ, the model follows the code:**
- Sign-up rejects names and passwords shorter than 5 characters, although its message asks for 6.
- The admin may set any of the five statuses with no transition guard.
- Checkout does not check that the order is still a cart row.
- Length checks use JavaScript's `.length`, which counts UTF-16 units, so an emoji counts twice.
- Product price 0 is caught by the "missing field" guard, because 0 is falsy. So the "price must be greater than 0" message is only reached for negative prices.

## Model

| member | source | states |
|---|---|---|
| Objects.Find | src/screens/user/CartScreen.tsx:109 | `find` returns the first row that matches (the one at `FindIndex`), or nothing exactly when no row matches |
| Objects.FindProduct | src/screens/user/CheckoutScreen.tsx:37 | the product found has the id asked for; none is found exactly when no product has it |
| Objects.FindCategory | src/screens/admin/ProductManagementScreen.tsx:218 | the category found has the id asked for; none exactly when no category has it |
| Objects.NextId | src/screens/user/SignUpScreen.tsx:38 | the next id is the last row's id plus one, or 1 for an empty table |
| Objects.NextIdFresh | src/screens/user/SignUpScreen.tsx:36-38 | on a table ordered by id, "last id + 1" exceeds every id in the table |
| Objects.Utf16Length | src/screens/admin/ProductManagementScreen.tsx:102 | `.length` counts UTF-16 code units: at least one per character, two for a character outside the Basic Multilingual Plane |
| Objects.Utf16LengthOfBmp | src/screens/user/SignUpScreen.tsx:24 | on text without such characters `.length` is the number of characters |
| Objects.Lower | src/screens/admin/BookingManagementScreen.tsx:84 | ASCII lower-casing, as `toLowerCase` does on the app's statuses: the length is kept and A–Z become a–z, every other character is kept |
| Objects.LowerOfLowerCase | src/screens/user/HistoryScreen.tsx:57 | lower-casing a lower-case status leaves it unchanged |
| Objects.Filter | src/screens/admin/BookingManagementScreen.tsx:84 | `filter` keeps exactly the rows that pass, never more rows than it was given |
| Objects.FilterConcat | src/screens/user/ProductScreen.tsx:76-80 | filtering keeps the rows' order: filtering a concatenation filters each part |
| Objects.FilterFirst | src/database/dbHelpers.ts:196-197 | the first row a filter keeps is the first row of the table that passes |
| Objects.FilterDropsAll | src/database/dbHelpers.ts:90-97 | a filter that no row passes keeps nothing |
| Objects.MapWhere | src/database/dbHelpers.ts:17 | `UPDATE … WHERE` rewrites exactly the matching rows and keeps the others and the length |
| Objects.MapWhereNoMatch | src/screens/user/CartScreen.tsx:69-71 | a rewrite that matches no row changes nothing |
| Objects.LikePercent | src/database/dbHelpers.ts:94-96 | the pattern `%` matches every text |
| Objects.LikePrefix | src/database/dbHelpers.ts:94-96 | a text that starts with `k` matches `k%`, whatever wildcards `k` holds |
| Objects.ContainsIsLike | src/database/dbHelpers.ts:94-96 | every literal occurrence of the keyword in a name is a `LIKE '%keyword%'` match |
| Objects.LikeFoldedPrefix | src/database/dbHelpers.ts:94-96 | a text that starts with `k` up to ASCII case matches `k%` when `k` holds no `%` |
| Objects.ContainsFoldedIsLike | src/database/dbHelpers.ts:94-96 | `LIKE '%keyword%'` folds ASCII case: an occurrence of the keyword in the name, both lower-cased, is a match |
| Objects.LikeUnderscore | src/database/dbHelpers.ts:94-96 | the unescaped `_` is a wildcard: `'%_%'` matches exactly the non-empty texts |
| Objects.LikeNeedsFirstChar | src/database/dbHelpers.ts:94-96 | a keyword whose first character is no wildcard and no ASCII letter, and does not occur in a name, does not match it |
| SqlText.Assignments | src/database/dbHelpers.ts:12 | one `field=?` per value, in order |
| SqlText.FieldNames | src/database/dbHelpers.ts:49 | one column name per value, in order |
| SqlText.QuestionMarks | src/database/dbHelpers.ts:50 | one `?` per value |
| SqlText.NewValues | src/database/dbHelpers.ts:51 | the bound values are the new values in field order |
| SqlText.UpdateParams | src/database/dbHelpers.ts:14-15 | the UPDATE parameters are the new values in field order followed by the id |
| SqlText.CommaReducePrefix | src/database/dbHelpers.ts:11-13 | after k of n items the fold holds the comma-join of those items plus one trailing comma, none once all are in |
| SqlText.CommaReduceIsJoin | src/database/dbHelpers.ts:49 | the full fold equals the comma-join of the items (no trailing comma) |
| SqlText.SetClauseShape | src/database/dbHelpers.ts:11-13 | the SET clause is each field followed by `=?`, joined by commas |
| SqlText.SplitJoin | src/database/dbHelpers.ts:49-50 | splitting a comma-join of comma-free parts gives back the parts |
| SqlText.InsertFieldsRoundTrip | src/database/dbHelpers.ts:49-53 | the INSERT column list splits back into the field names in order, as many as the parameters |
| SqlText.PlaceholdersRoundTrip | src/database/dbHelpers.ts:50-53 | the VALUES list splits into exactly one `?` per parameter |
| SqlText.CountJoinOnePerPart | src/database/dbHelpers.ts:11-13 | a join of parts with one `?` each holds as many `?` as parts |
| SqlText.UpdatePlaceholdersMatchParams | src/database/dbHelpers.ts:11-19 | an UPDATE statement has exactly as many `?` as parameters bound to it |
| SqlText.InsertFieldsHaveNoMark | src/database/dbHelpers.ts:49 | the INSERT column list holds no `?` when no field name does |
| SqlText.PlaceholdersCount | src/database/dbHelpers.ts:50 | the VALUES list holds exactly one `?` per field |
| SqlText.InsertPlaceholdersMatchParams | src/database/dbHelpers.ts:49-55 | an INSERT statement has exactly as many `?` as parameters bound to it |
| SqlText.DeletePlaceholdersMatchParams | src/database/dbHelpers.ts:33-36 | a DELETE statement has exactly one `?`, for the one parameter, the id |
| Store.InsertSorted | src/database/database.ts:44 | an insert with an explicit primary key adds exactly that row to the table |
| Store.InsertSortedAtEnd | src/database/database.ts:44 | a row whose id exceeds every id lands last |
| Store.InsertSortedPairwise | src/database/database.ts:53-58 | inserting at the rowid position keeps id order and uniqueness invariants |
| Store.DeleteId | src/database/dbHelpers.ts:33-36 | `DELETE … WHERE id=?` keeps exactly the rows with another id |
| Store.DeleteIdPairwise | src/database/dbHelpers.ts:33-36 | a delete keeps every pairwise table invariant |
| Store.DeleteIdRemovesOne | src/database/dbHelpers.ts:33-36 | with unique ids a delete removes exactly that row and keeps the others in order |
| Store.UniqueId | src/database/database.ts:44 | a table with strictly increasing ids has at most one row per id |
| Store.CopyRows | src/database/dbHelpers.ts:73-77 | the index loop copies the result rows exactly, in order |
| Store.OrdersWithStatus | src/database/dbHelpers.ts:148-151 | `selectOrder(s,u)` holds exactly u's orders with status s |
| Store.OrderHistory | src/database/dbHelpers.ts:167-170 | `selectOrderHostry(u)` holds exactly u's orders whose status is not `cart` |
| Store.ProductInCart | src/database/dbHelpers.ts:131-138 | `checkProductInOrder` is true iff a cart row of that product and user exists |
| Store.UserExists | src/database/dbHelpers.ts:114-119 | `checkUserExists` is true iff a user has that username |
| Store.UserByCredentials | src/database/dbHelpers.ts:189-200 | nothing iff no row matches both fields; otherwise the first matching row |
| Store.UserById | src/database/dbHelpers.ts:210-221 | the user with that id, or nothing iff none has it |
| Store.CredentialsMatchAtMostOne | src/database/database.ts:55 | with unique usernames at most one row matches a pair of credentials |
| Store.SearchEmptyKeyword | src/database/dbHelpers.ts:90-97 | an empty keyword finds exactly the products whose category still exists (the join drops the rest) |
| Store.SearchUnderscore | src/database/dbHelpers.ts:90-97 | the keyword "_" finds every product whose category exists and whose name or category name is non-empty |
| Store.SetQtyKeepsRules | src/screens/user/CartScreen.tsx:63-68 | writing a qty of at least 1 keeps id order, positive quantities and unique cart rows |
| Store.SetStatusKeepsRules | src/screens/admin/BookingManagementScreen.tsx:64-65 | overwriting a status with a non-cart status keeps the order rules |
| Store.SetCheckoutKeepsRules | src/screens/user/CheckoutScreen.tsx:67-70 | the checkout write keeps the order rules |
| Store.DeleteKeepsRules | src/screens/user/CartScreen.tsx:91 | deleting an order keeps the order rules |
| Store.AppendKeepsRules | src/screens/user/ProductDetailScreen.tsx:79-89 | appending a row with qty ≥ 1 keeps the rules when no cart row of that pair exists |
| Store.Database.Seeded | src/database/database.ts:6-22 | the seed tables satisfy the schema and the order rules, nobody logged in |
| Store.Database.SelectOrder | src/database/dbHelpers.ts:144-157 | the loop returns exactly `OrdersWithStatus` of the table, in table order |
| Store.Database.SelectOrderHistory | src/database/dbHelpers.ts:163-176 | the loop returns exactly `OrderHistory` of the table, in table order |
| Store.Database.SearchProducts | src/database/dbHelpers.ts:87-105 | the loop returns the products whose name or category name matches `LIKE '%keyword%'`, with `%` and `_` as wildcards and ASCII case folded, in rowid order |
| Store.Database.UpdateOrderQty | src/database/dbHelpers.ts:8-19 | only `qty` of the rows with that id changes; the schema invariant holds |
| Store.Database.UpdateOrderStatus | src/database/dbHelpers.ts:8-19 | only `status` of the rows with that id changes |
| Store.Database.UpdateOrderCheckout | src/database/dbHelpers.ts:8-19 | only `status` and `totalPrice` of that id change |
| Store.Database.DeleteOrder | src/database/dbHelpers.ts:29-36 | the order table loses exactly the rows with that id |
| Store.Database.InsertOrder | src/database/database.ts:62 | AUTOINCREMENT gives one more than the largest id ever used; the row is appended |
| Store.Database.InsertProduct | src/database/dbHelpers.ts:46-55 | the insert succeeds iff the id is unused, and then adds exactly that row |
| Store.Database.UpdateProduct | src/database/dbHelpers.ts:8-19 | name, price, categoryId and image of that id are rewritten, never the id |
| Store.Database.DeleteProduct | src/database/dbHelpers.ts:29-36 | the product table loses exactly the rows with that id |
| Store.Database.InsertCategory | src/database/database.ts:38 | an insert of the name alone gets the next id and is appended |
| Store.Database.UpdateCategory | src/database/dbHelpers.ts:8-19 | only `name` of that id is rewritten |
| Store.Database.DeleteCategory | src/database/dbHelpers.ts:29-36 | the category table loses exactly the rows with that id |
| Store.Database.InsertUser | src/database/database.ts:53-58 | the insert succeeds iff both the id and the username are unused |
| Store.Database.UpdateUserRole | src/database/dbHelpers.ts:8-19 | only `role` of that id is rewritten |
| Store.Database.UpdateUserPassword | src/database/dbHelpers.ts:8-19 | only `password` of that id is rewritten |
| Store.Database.DeleteUser | src/database/dbHelpers.ts:29-36 | the user table loses exactly the rows with that id |
| Orders.NextQty | src/screens/user/CartScreen.tsx:60-61 | plus adds exactly 1; minus subtracts 1 iff qty > 1; otherwise qty is kept; qty never drops below 1 |
| Orders.MinusUndoesPlus | src/screens/user/CartScreen.tsx:60-61 | minus after plus restores the quantity |
| Orders.StepDown | src/screens/user/ProductDetailScreen.tsx:137 | the stepper's minus is max(1, qty − 1) |
| Orders.StepUp | src/screens/user/ProductDetailScreen.tsx:145 | the stepper's plus is exactly qty + 1 |
| Orders.SteppedStaysPositive | src/screens/user/ProductDetailScreen.tsx:27 | from the initial 1, any sequence of presses leaves qty ≥ 1 |
| Orders.CalcPrice | src/screens/user/CartScreen.tsx:108-111 | a listed product's price × qty, or 0 when the product is gone |
| Orders.CalcPriceOfListed | src/screens/user/CartScreen.tsx:108-111 | with one row per id the line price is that product's price × qty |
| Orders.PricedTotal | src/screens/user/CheckoutScreen.tsx:69 | totalPrice is price × qty when the price is truthy, null otherwise |
| Orders.ShownTotal | src/screens/admin/BookingManagementScreen.tsx:133 | the stored total if truthy, else (price or 0) × qty |
| Orders.ShownName | src/screens/admin/BookingManagementScreen.tsx:130 | the product's name, or the deleted-product placeholder |
| Orders.UnpricedShowsCartPrice | src/screens/user/HistoryScreen.tsx:89 | an order with no stored total shows the cart's line price |
| Orders.CheckoutSnapshotShown | src/screens/user/CheckoutScreen.tsx:67-70 | after checkout the row is pending and shows price × qty whatever later happens to the product |
| Orders.TabRows | src/screens/user/HistoryScreen.tsx:57 | a tab shows exactly the rows whose status equals it, ignoring case |
| Orders.TabRowsExact | src/screens/admin/BookingManagementScreen.tsx:84 | with lower-case statuses a tab shows exactly the rows with that status |
| Orders.StatusTabsAreLowerCase | src/screens/admin/BookingManagementScreen.tsx:15 | every selectable status is lower-case and none is `cart` |
| Orders.HistoryLoad | src/screens/user/HistoryScreen.tsx:22-34 | the session user's non-cart orders; nothing without a session; never a cart row |
| Orders.HistoryTabIsSelectOrder | src/screens/user/HistoryScreen.tsx:30 | a history tab shows the same rows as `selectOrder` for that status |
| Orders.QtyWrite | src/screens/user/CartScreen.tsx:57-61 | the write happens iff a listed row has the id, with that row's stepped qty |
| Orders.QtyWriteIsFirstMatch | src/screens/user/CartScreen.tsx:57-60 | the loop acts on the first listed row with the id: the qty written is that row's qty stepped |
| Orders.CartView.Load | src/screens/user/CartScreen.tsx:23-33 | all products, and exactly the session user's cart rows |
| Orders.CartView.UpdateQty | src/screens/user/CartScreen.tsx:57-81 | only qty of that id changes, in the table and the list; an unknown id changes nothing; the order rules are kept |
| Orders.CartView.DeleteCart | src/screens/user/CartScreen.tsx:83-92 | the row is deleted from the table and the list, the rest keep their order |
| Orders.ProductDetailView.constructor | src/screens/user/ProductDetailScreen.tsx:23-27 | the stepper starts at 1, nobody logged in, not in the cart |
| Orders.ProductDetailView.Init | src/screens/user/ProductDetailScreen.tsx:29-42 | `isInCart` is `checkProductInOrder` for the session user, false without one |
| Orders.ProductDetailView.Decrement | src/screens/user/ProductDetailScreen.tsx:137 | qty becomes max(1, qty − 1) and stays ≥ 1 |
| Orders.ProductDetailView.Increment | src/screens/user/ProductDetailScreen.tsx:145 | qty becomes qty + 1 |
| Orders.ProductDetailView.AddToCart | src/screens/user/ProductDetailScreen.tsx:62-100 | no user, an admin, or an existing cart row each insert nothing; otherwise exactly one cart row with the chosen qty, product and user |
| Orders.LoadCheckout | src/screens/user/CheckoutScreen.tsx:27-43 | "not logged in" iff no session; "product does not exist" iff the product is gone; otherwise the user and the product |
| Orders.ConfirmCheckout | src/screens/user/CheckoutScreen.tsx:58-70 | the order becomes pending with the price snapshot; nothing else changes; the order rules are kept |
| Orders.BookingView.constructor | src/screens/admin/BookingManagementScreen.tsx:18-32 | the default tab is `pending` and nothing is selected |
| Orders.BookingView.Load | src/screens/admin/BookingManagementScreen.tsx:34-46 | all orders and all products |
| Orders.BookingView.OpenUpdateModal | src/screens/admin/BookingManagementScreen.tsx:76-79 | the order becomes the selected one |
| Orders.BookingView.HandleUpdateStatus | src/screens/admin/BookingManagementScreen.tsx:59-74 | no selection is a no-op; otherwise only that order's status is overwritten, whatever it was, and the lists reload |
| Catalog.CheckProductForm | src/screens/admin/ProductManagementScreen.tsx:87-108 | the guard chain, in order: missing or falsy field, price ≤ 0, price < 1000, name shorter than 5 UTF-16 units, pending error |
| Catalog.SurrogatePairsCountTwice | src/screens/admin/ProductManagementScreen.tsx:102 | a name of three emoji has length 6 and passes the name check |
| Catalog.NewProductId | src/screens/admin/ProductManagementScreen.tsx:110 | the new id is the last listed product's id plus one, or 1 |
| Catalog.FreshProductId | src/screens/admin/ProductManagementScreen.tsx:110 | the corrected id exceeds every id in the table |
| Catalog.FreshProductIdInserts | src/screens/admin/ProductManagementScreen.tsx:110-117 | with the corrected id the insert always succeeds and the row goes last |
| Catalog.InsertFresh | src/screens/admin/ProductManagementScreen.tsx:109-119 | the INSERT of a new product with the corrected id keeps the table valid and appends exactly that row |
| Catalog.ListedIdCollides | src/screens/admin/ProductManagementScreen.tsx:110 | on the seed tables the search "Áo" lists only the first product, and "last listed id + 1" is the second product's id |
| Catalog.NarrowedListCollides | src/screens/admin/ProductManagementScreen.tsx:110 | whenever the list ends at a row whose successor in the table has the next id, the new id is that successor's, an id in use |
| Catalog.SeedRowMissesKeyword | src/screens/admin/ProductManagementScreen.tsx:222-237 | no seed product but the first matches "Áo" by name or by category |
| Catalog.SeedCategoryOfRow | src/database/database.ts:6-12 | each seed product's category is the seed category at the same position |
| Catalog.NewProductIdFreeOnFullList | src/screens/admin/ProductManagementScreen.tsx:110 | listing the whole table, the as-written id is the corrected one and unused |
| Catalog.CategoryNameOf | src/screens/admin/ProductManagementScreen.tsx:217-220 | the category's name, or `Unknown` when no category has the id |
| Catalog.FirstCategoryId | src/screens/admin/ProductManagementScreen.tsx:84 | the first category's id, or null for no categories |
| Catalog.ProductAdmin.Load | src/screens/admin/ProductManagementScreen.tsx:42-56 | the error is cleared; both tables, and the route's category or else the first one |
| Catalog.ProductAdmin.Clear | src/screens/admin/ProductManagementScreen.tsx:80-86 | name, price, image and selection reset; category back to the first one |
| Catalog.ProductAdmin.EditProduct | src/screens/admin/ProductManagementScreen.tsx:131-140 | the id is selected and, if listed, the form holds that product |
| Catalog.ProductAdmin.AddProduct | src/screens/admin/ProductManagementScreen.tsx:87-129 | a rejected form writes nothing; an accepted one INSERTs the form with id "last listed id + 1". The insert goes through iff that id is unused, and the list is then reloaded; otherwise the table and the list are kept and the error message is set. The form is cleared either way and the categories are kept |
| Catalog.ProductAdmin.SubmitNew | src/screens/admin/ProductManagementScreen.tsx:109-127 | the INSERT with "last listed id + 1", then the reload or the error message, then `clear` |
| Catalog.ProductAdmin.AddProductCorrected | src/screens/admin/ProductManagementScreen.tsx:87-129 | with the corrected id an accepted form is always appended as the last product, the list reloaded and the form cleared |
| Catalog.ProductAdmin.SubmitFresh | src/screens/admin/ProductManagementScreen.tsx:116-127 | the corrected INSERT appends the row, the list is reloaded and the form cleared |
| Catalog.ProductAdmin.UpdateProduct | src/screens/admin/ProductManagementScreen.tsx:142-187 | an accepted form rewrites the four fields of a listed id, clears the error, reloads and clears the form; otherwise nothing changes; the categories are kept |
| Catalog.ProductAdmin.SubmitUpdate | src/screens/admin/ProductManagementScreen.tsx:164-186 | the loop writes the first listed product with the id, or nothing when none is listed |
| Catalog.ProductAdmin.DeleteProduct | src/screens/admin/ProductManagementScreen.tsx:189-215 | the error is cleared, the product is deleted, the list reloaded, the form cleared |
| Catalog.ProductAdmin.Search | src/screens/admin/ProductManagementScreen.tsx:222-237 | the error is cleared, the list becomes the search result and the form is cleared |
| Catalog.FilteredProducts | src/screens/user/ProductScreen.tsx:76-80 | exactly the products in the selected category (if truthy) with price in the range, inclusive |
| Catalog.FilteredKeepsOrder | src/screens/user/ProductScreen.tsx:76 | the filter keeps the listed order |
| Catalog.DefaultFilterShowsAll | src/screens/user/ProductScreen.tsx:32 | with no category and the default range every product priced within it is shown, in order |
| Catalog.WiderRangeShowsMore | src/screens/user/ProductScreen.tsx:78 | widening the price range never hides a product |
| Catalog.CheckCategoryName | src/screens/admin/CategoryManagementScreen.tsx:49-57 | empty name, then fewer than 2 UTF-16 units, are rejected |
| Catalog.CategoryAdmin.Clear | src/screens/admin/CategoryManagementScreen.tsx:127-130 | name becomes empty and nothing is selected |
| Catalog.CategoryAdmin.Load | src/screens/admin/CategoryManagementScreen.tsx:29-44 | the table, then a cleared form |
| Catalog.CategoryAdmin.AddCategory | src/screens/admin/CategoryManagementScreen.tsx:49-74 | a valid name is appended with the next id; a rejected one writes nothing |
| Catalog.CategoryAdmin.UpdateCategory | src/screens/admin/CategoryManagementScreen.tsx:76-100 | a valid name rewrites only `name` of that id |
| Catalog.CategoryAdmin.DeleteCategory | src/screens/admin/CategoryManagementScreen.tsx:101-125 | the row is deleted; the form clears only when the deleted id was selected |
| Accounts.CheckCredentials | src/screens/user/LogInScreen.tsx:20-27 | empty field, then a field shorter than 5 UTF-16 units, are rejected before any lookup |
| Accounts.SignUp | src/screens/user/SignUpScreen.tsx:19-44 | invalid input or a taken username insert nothing; otherwise the user is appended with the next id and role `user` |
| Accounts.SignUpKeepsNamesUnique | src/screens/user/SignUpScreen.tsx:31-44 | a successful sign-up keeps ids increasing and usernames unique, and the name is now known |
| Accounts.RouteFor | src/screens/user/LogInScreen.tsx:41-45 | admins go to the dashboard, everyone else home |
| Accounts.LogIn | src/screens/user/LogInScreen.tsx:19-51 | invalid input and no match leave the session; a match becomes the session and picks the route |
| Accounts.CheckPasswordChange | src/screens/user/ProfileScreen.tsx:58-73 | no user, wrong old password, new password shorter than 4 UTF-16 units, mismatch; checked in that order |
| Accounts.ProfileView.Load | src/screens/user/ProfileScreen.tsx:23-34 | the session user if there is one |
| Accounts.ProfileView.Logout | src/screens/user/ProfileScreen.tsx:41-55 | the session and the screen's user are gone |
| Accounts.ProfileView.ChangePassword | src/screens/user/ProfileScreen.tsx:57-94 | a rejection changes nothing; success writes only the password and sets the session to the old user with the new password; the three inputs reset and the form closes |
| Accounts.PasswordChangeOnlyPassword | src/screens/user/ProfileScreen.tsx:76-81 | after the write the row holds the new password and its other fields unchanged |
| Accounts.ToggleRole | src/screens/admin/UserManagementScreen.tsx:53 | `user` for an admin, `admin` for any other role; always a different role |
| Accounts.ToggleRoleTwice | src/screens/admin/UserManagementScreen.tsx:53 | toggling twice restores an admin or a user |
| Accounts.RoleWrite | src/screens/admin/UserManagementScreen.tsx:51-53 | a role is written iff a listed user has the id, and it is that user's toggled role |
| Accounts.UserAdmin.Load | src/screens/admin/UserManagementScreen.tsx:24-35 | the user table |
| Accounts.UserAdmin.HandleChangeRole | src/screens/admin/UserManagementScreen.tsx:45-75 | an unknown id writes nothing; otherwise only `role` of that id is written and the list reloads |
| Accounts.UserAdmin.HandleDelete | src/screens/admin/UserManagementScreen.tsx:77-107 | a listed id is deleted and the list reloads; an unknown id writes nothing |
| Navigation.RoleOf | App.tsx:26-38 | the saved user's role, or the empty string without a session |
| Navigation.VisibleTabs | src/navigation/TabButton.tsx:16-84 | exactly the tabs whose render condition holds for the role |
| Navigation.LoginExcludesProfile | src/navigation/TabButton.tsx:58-81 | Login is shown iff Profile is not, and always together with Signup |
| Navigation.AdminHasNoCart | src/navigation/TabButton.tsx:36-48 | no role sees both the admin tab and the cart |
| Navigation.RouteIsVisible | src/screens/user/LogInScreen.tsx:41-45 | after a log-in the route is the dashboard exactly when the new session shows the admin tab |
| Navigation.RegisteredUserTabs | src/navigation/TabButton.tsx:36-59 | a `user` sees Home, Cart and Profile only |

## Left out

- Rendering, styles, alerts, confirmation dialogs and navigation calls are left out. A confirmed dialog is modelled as the handler running. Navigation appears only as the outcome tags `AddOutcome.GoToCart` and `Accounts.Route`.
- AsyncStorage, JSON and the `UPDATE_AUTH` event are left out. The saved user is the field `Database.session`.
- Exceptions thrown by SQLite, and the `errorMessage`/`isLoading` state they drive, are left out, with one exception. A primary-key or unique-constraint failure is reported by the insert methods as `ok == false`. `Catalog.ProductAdmin.AddProduct` reaches that failure and sets its error message. The sign-up's checks keep `Accounts.SignUp` from reaching it.
- Catalog.ProductAdmin.AddProduct: the error text is the driver's `err.message`; the model uses SQLite's constraint message `InsertFailedMessage`.
- `price REAL` and `qty REAL` are floating point in the database, and `Number(text)`/`isNaN` parsing is platform behaviour. Money and quantities are integers, and an unparsed price is `None`.
- Objects.Lower: lower-cases A–Z only, while `toLowerCase` also lowers other letters ("Đ" to "đ") and can change the length ("İ"). So `Orders.TabRows` and `Orders.TabRowsExact` follow the source only on ASCII statuses; every status the app writes is ASCII.
- Objects.Utf16Length: Dafny strings hold Unicode scalar values, so a lone surrogate, which a JavaScript string can hold, is not representable.
- Store.Database.SearchProducts: the search query has no ORDER BY, so SQLite may return its rows in any order. The model returns them in the rowid order of `products`, the order of the plan SQLite picks for this join: it scans `products` and looks up each category by its primary key. The Findings row relies on this order. The same holds for `Catalog.ProductAdmin.Search`, which shows that result.
- Objects.Like: follows SQLite's built-in `LIKE`, which folds ASCII case only ("quần" finds "Quần tây đen", but "áo" does not find "Áo ngắn tay"). A SQLite built with the ICU extension would fold the other letters too.
- `formatCurrency` (Intl.NumberFormat) and the image picker are foreign calls and are left out.
- Async interleavings are left out: each handler runs as one sequential method.
- Orders.ProductDetailView.AddToCart: uses the `isInCart` flag computed when the screen gained focus, as the source does. The order rules are only promised while that flag agrees with the table (`InSync`); a cart row added elsewhere meanwhile is not ruled out.
- Orders.HistoryLoad: models a load without a session as the empty list. That is the screen's initial state; a later reload after logout keeps whatever list was shown before.
- Orders.BookingView.HandleUpdateStatus: keeps the order rules only for the five listed statuses. Those are the only ones the modal offers; the handler itself accepts any string.
- Foreign keys are not enforced (SQLite's default), so deleting a category leaves its products in place, and deleting a product leaves its orders in place.
- `handleSelectCategory` (ProductDetailScreen) and ProductScreen's own search effect are left out; the search itself is `Store.Database.SearchProducts`.
- Store.Database.InsertUser: the users table is AUTOINCREMENT, but every insert in the app passes an explicit id, so only explicit-id inserts are modelled.

## Findings

| source | as written | input that shows it | evidently intended | confidence | as-written member | corrected member |
|---|---|---|---|---|---|---|
| src/screens/admin/ProductManagementScreen.tsx:110 | the new product id is the last id of the *listed* products plus one. The search effect (lines 222-237) narrows that list to the products matching the typed keyword | seed tables; the admin types "Áo" into the search, so only P1 is listed, and then submits a valid form: the new id is 2, which is P2's, and the INSERT fails on the primary key. With ids [1, 2, 5] and [1, 2] listed, id 3 goes in mid-table | a new product gets an id unused in the products table | medium; not executed | Catalog.ListedIdCollides | Catalog.FreshProductIdInserts |
