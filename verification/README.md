# Trade-market receipt engine, modelled in Dafny

This project models the business core of the `marketpl` trade-market back end:

- **Receipt aggregate** (`ReceiptService`): adding a product to a receipt (merging it into an existing line or freezing a new one at the customer's discounted price), removing it, checking out, the amount to pay, the period listing, cascade delete, and the read and write operations.
- **Model validators** (`ModelsValidator`): the field rules each business model must pass, in the order the code checks them.
- **Catalogue and customer rules** (`ProductService`, `CustomerService`): the product filter, the narrower category check, the error order of product update, "customers who bought product X", validate-before-persist, and the existence checks in the delete operations.

The database is an immutable `Persistence.Store`. Customers, categories, products and receipts are finite maps keyed by id. The `ReceiptsDetails` table is a sequence of `Line`s. `Persistence.Valid` states that table's composite key (receipt id, product id) as an invariant: at most one line per product per receipt. Every operation is one atomic transition that returns `Result<Store, Error>`. An exception becomes an `Error` value naming the exception type. For `MarketException`, it also names the guard that raised it. A failed operation leaves the store as it was.

Modelling choices:

- Money is C# `decimal`, so it is modelled as `real`, where `price * (100 - discount) / 100` is exact.
- A `DateTime` is an integer count of 100 ns ticks since 0001-01-01 (`Dates.DateTime`).
- Ids and quantities are unbounded integers. The one place where 32-bit arithmetic matters is modelled separately (see Findings).
- Listing queries (`GetAllWithDetailsAsync`) take the listing as a parameter `all`, because the database returns rows in no specified order. `Persistence.ListsTable(all, table)` states that the listing holds exactly the table's records, and one lemma per query restates its answer over the table under that condition. The filters are order-preserving `Seqs.Filter`s. "Keeps the listing's order" is stated with `Seqs.IsSubsequence`.

Behaviour of the code worth noting:

- `AddProductAsync` looks the receipt up before it checks the quantity. For a missing receipt with quantity ≤ 0, the receipt guard therefore fires first, not the quantity guard. Both guards raise the same message-less `MarketException`, so only which guard fires differs, and the model's `Cause` records it. `RemoveProductAsync` checks the quantity first.
- Every exception the receipt service raises itself is a `MarketException`, including "no line for this product" on remove. Other failures come from below it: a failed save (`Error.Persistence`) in `Add` and `Update`, and the `NullReferenceException` of the next item.
- `AddProduct` dereferences the receipt's customer without a check, which the model keeps as a `NullReferenceException` (`Error.NullReference`) branch. The database's foreign keys keep every stored receipt's customer stored, and `ReceiptService.Add`/`Update` enforce that here too. In the model the branch can only be reached through a receipt whose customer was deleted afterwards, because delete cascades are not modelled (see Left out).
- For a product model, `UpdateAsync` never raises its own `ValidationException`. The validator either returns true or raises a `MarketException` itself.

## Model

| member | source | states |
|---|---|---|
| ModelsValidator.IsValidModel | Business/Validation/ModelsValidator.cs:11-33 | A null model raises. A model of one of the five known types yields `true` exactly when it satisfies its rule set, and otherwise raises a `MarketException`, never `false`. Any other type yields `false`. |
| ModelsValidator.ProductCategoryModelIsValid | Business/Validation/ModelsValidator.cs:35-47 | A category is accepted iff its id ≥ 0 and its name is non-empty. The first failed check names the cause: null, then negative id, then empty name. |
| ModelsValidator.ProductModelIsValid | Business/Validation/ModelsValidator.cs:49-64 | A product is accepted iff id ≥ 0, price ≥ 0 (so 0 is accepted) and its name is non-empty, with the causes in that order. |
| ModelsValidator.ReceiptModelIsValid | Business/Validation/ModelsValidator.cs:66-78 | A receipt is accepted iff id ≥ 0 and customer id ≥ 0. The date and the checkout flag are unconstrained. |
| ModelsValidator.CustomerModelIsValid | Business/Validation/ModelsValidator.cs:80-101 | A customer is accepted iff id ≥ 0, discount ≥ 0 (no upper bound), both names are non-empty and the birth date is in the window, with the causes in that order. |
| ModelsValidator.ReceiptDetailModelIsValid | Business/Validation/ModelsValidator.cs:103-117 | A detail is accepted iff all three ids are ≥ 0, the discounted price is ≥ 0, and both the unit price and the quantity are > 0. |
| ModelsValidator.BirthDateWindowEdges | Business/Validation/ModelsValidator.cs:94-98 | 1900-01-01T00:00:00 and 2005-01-01T23:59:59 both pass. One tick outside either edge fails, and so does a date in 2010. |
| ReceiptService.AddProduct | Business/Services/ReceiptService.cs:37-71 | Succeeds iff the receipt exists, q > 0, and either a line for the product exists or both the product and the receipt's customer exist. The errors come in source order. Only the lines change. |
| ReceiptService.AddProductNewLine | Business/Services/ReceiptService.cs:46-62 | Without a line: exactly one new line appears, with quantity q, unit price = product price and discounted price = price·(100−discount)/100. Every other (receipt, product) line is unchanged and the invariant holds. |
| ReceiptService.AddProductMerge | Business/Services/ReceiptService.cs:46-67 | With a line: its quantity becomes old + q, the frozen prices stay, no line is created, product and customer are not needed, other lines are unchanged and the key invariant holds. |
| ReceiptService.AddProductPreservesValid | Business/Services/ReceiptService.cs:37-71 | A successful add keeps the store invariant, including the composite key from Data/Data/TradeMarketDbContext.cs:24-25. |
| ReceiptService.RemoveProduct | Business/Services/ReceiptService.cs:124-144 | Succeeds iff q > 0, the receipt exists and it has a line for the product. The failure causes come in that order, and only the lines change. |
| ReceiptService.RemoveProductDeletes | Business/Services/ReceiptService.cs:134-137 | q ≥ the line's quantity: the line is gone, exactly one row fewer, other lines unchanged, invariant kept. |
| ReceiptService.RemoveProductDecrements | Business/Services/ReceiptService.cs:138-141 | q < the line's quantity: the quantity becomes old − q, which stays > 0. Other lines are unchanged and the invariant is kept. |
| ReceiptService.RemoveProductPreservesValid | Business/Services/ReceiptService.cs:124-144 | A successful remove keeps the store invariant. |
| ReceiptService.CheckOut | Business/Services/ReceiptService.cs:73-80 | Fails iff the receipt is missing. Otherwise it sets that receipt's flag and changes no other field, receipt, line or table. |
| ReceiptService.CheckOutIdempotent | Business/Services/ReceiptService.cs:73-80 | Checking out twice equals checking out once, and checkout keeps the invariant. |
| ReceiptService.LineOperationsIgnoreCheckout | Business/Services/ReceiptService.cs:37-144 | Add and remove give the same outcome and the same lines whatever the flag's value, and leave the flag as it was. |
| ReceiptService.ToPay | Business/Services/ReceiptService.cs:146-151 | Fails iff the receipt is missing. A receipt with no lines owes 0. |
| ReceiptService.ToPayNonNegative | Business/Services/ReceiptService.cs:146-151 | With non-negative discounted prices, the amount owed is ≥ 0. |
| ReceiptService.AddProductTotal | Business/Services/ReceiptService.cs:37-151 | After a successful add, the amount owed rises by q × the line's discounted price. No other receipt's amount changes. |
| ReceiptService.RemoveProductTotal | Business/Services/ReceiptService.cs:124-151 | After a successful remove, the amount owed falls by min(q, line quantity) × the line's discounted price. No other receipt's amount changes. |
| ReceiptService.SaleScenario | Business/Services/ReceiptService.cs:37-151 | With a 10% discount and price 100: adding 3 gives the line (100, 90, 3) owing 270. Adding 2 more gives quantity 5 owing 450. Removing 5 leaves no line, owing 0. |
| ReceiptService.DiscountedPriceBounds | Business/Services/ReceiptService.cs:55 | For a discount in 0..100 and a price ≥ 0, the discounted price lies between 0 and the price. |
| ReceiptService.DiscountAboveHundred | Business/Services/ReceiptService.cs:51-55 | A customer the validator accepts with a 150% discount buys one unit at 100. The stored line has discounted price −50, the receipt owes −50, and the detail rules reject that line. |
| ReceiptService.DiscountedPrice | Business/Services/ReceiptService.cs:55 | The price after a whole-percent discount: a 0% discount leaves the price unchanged and a 100% discount gives 0. |
| ReceiptService.MergedQuantityAsWritten | Business/Services/ReceiptService.cs:66 | The merge `+=` on a 32-bit `int`: the result is a 32-bit value congruent to old + q modulo 2^32, so it wraps instead of growing. |
| ReceiptService.ReceiptsByPeriod | Business/Services/ReceiptService.cs:115-122 | A receipt is returned iff it is listed and start ≤ operation date ≤ end, on full timestamps with both ends inclusive. |
| ReceiptService.ReceiptsByPeriodOverStore | Business/Services/ReceiptService.cs:115-122 | When the listing holds exactly the stored receipts, a receipt is returned iff it is stored and dated within the period. |
| ReceiptService.ReceiptsByPeriodOrder | Business/Services/ReceiptService.cs:115-122 | The answer keeps the listing's order, and start > end gives an empty answer. |
| ReceiptService.Delete | Business/Services/ReceiptService.cs:82-93 | Fails iff the receipt is missing. Otherwise it removes exactly that receipt and exactly its lines, and leaves the other tables alone. |
| ReceiptService.DeleteCascades | Business/Services/ReceiptService.cs:82-93 | After delete the receipt has no lines. Every other receipt keeps its lines, in order, and its amount owed. The invariant is kept. |
| ReceiptService.GetById | Business/Services/ReceiptService.cs:101-106 | Fails with a `MarketException` iff the receipt is missing. Otherwise it returns the stored receipt, which in a valid store carries the requested id. |
| ReceiptService.GetReceiptDetails | Business/Services/ReceiptService.cs:108-113 | Fails iff the receipt is missing. Otherwise it returns exactly the receipt's lines, with no product twice in a valid store. |
| ReceiptService.Add | Business/Services/ReceiptService.cs:26-35 | Succeeds iff the model is non-null, valid, its id is free and its customer is stored. A null or invalid model raises from the validator before anything is stored. A taken id or a missing customer (foreign key) fails the save. On success exactly that receipt is added. |
| ReceiptService.Update | Business/Services/ReceiptService.cs:153-160 | Succeeds iff the model is non-null, valid, its id is stored and its customer is stored. Validation comes first. A missing id or a missing customer (foreign key) fails the save. On success exactly that receipt is replaced. |
| ReceiptService.WriteThenRead | Business/Services/ReceiptService.cs:101-106 | A receipt read back after add or update is the model written. Other receipts and all lines are unchanged, and the invariant is kept. |
| ProductService.GetByFilter | Business/Services/ProductService.cs:73-90 | A null filter raises `ArgumentNullException`. A product is returned iff it is listed and meets every criterion that is set, with inclusive bounds. No criteria returns the listing itself. |
| ProductService.GetByFilterOverStore | Business/Services/ProductService.cs:73-90 | When the listing holds exactly the stored products, a product is returned iff it is stored and meets the filter. With no criteria, every stored product is returned. |
| ProductService.GetByFilterPreservesOrder | Business/Services/ProductService.cs:78-89 | The answer is the listing with some products deleted and the rest in listed order. |
| ProductService.GetByFilterEmptyRange | Business/Services/ProductService.cs:80-84 | A minimum price above the maximum price returns nothing. |
| ProductService.ValidateCategoryModel | Business/Services/ProductService.cs:137-144 | Fails iff the model is null or its name is null or empty, with a `MarketException`. |
| ProductService.CategoryCheckIsNarrower | Business/Services/ProductService.cs:137-144 | Whatever the validator's category rule accepts passes this check. A category with id −1 passes this check although the validator rejects it. |
| ProductService.AddCategory | Business/Services/ProductService.cs:40-49 | The service's check comes first. A taken id fails the save. On success exactly that category is added. |
| ProductService.UpdateCategory | Business/Services/ProductService.cs:126-135 | The service's check comes first. A missing id fails the save. On success exactly that category is replaced. |
| ProductService.Add | Business/Services/ProductService.cs:26-38 | Succeeds iff the product is non-null, valid, its id is free and its category is stored. A null or invalid product raises from the validator before anything is stored. A taken id or a missing category (foreign key) fails the save. On success exactly that product is added. |
| ProductService.Update | Business/Services/ProductService.cs:107-123 | An invalid model raises a `MarketException` first, and the service's own `ValidationException` is never raised. A missing id then raises `KeyNotFoundException`, and a missing category (foreign key) fails the save. Only after these is the product overwritten. |
| ProductService.WriteThenRead | Business/Services/ProductService.cs:92-95 | A product read back after add or update is the model written. Every other product and every other modelled table is unchanged (see Left out on the mapped category). |
| ProductService.GetById | Business/Services/ProductService.cs:92-95 | Null (`None`) iff the product is missing. Otherwise the stored product. |
| ProductService.Delete | Business/Services/ProductService.cs:51-59 | As written, with the dead check never firing: never raises. It removes the product if stored, and a missing id leaves the store unchanged. |
| ProductService.DeleteChecked | Business/Services/ProductService.cs:51-59 | As intended: raises iff the product is missing. Otherwise it removes it and nothing else. |
| ProductService.DeleteCheckIsDead | Business/Services/ProductService.cs:53-54 | The two agree on stored ids. On every missing id the written version succeeds silently where the intended one raises. |
| ProductService.RemoveCategory | Business/Services/ProductService.cs:97-105 | As written, with the dead check never firing: never raises. A missing id leaves the store unchanged (see Data/Repositories/ProductCategoryRepository.cs:31-39). |
| ProductService.RemoveCategoryChecked | Business/Services/ProductService.cs:97-105 | As intended: raises iff the category is missing. Otherwise it removes it. |
| ProductService.RemoveCategoryCheckIsDead | Business/Services/ProductService.cs:99-100 | The two agree on stored ids and differ on every missing one. |
| ProductService.WritesPreserveValid | Business/Services/ProductService.cs:26-135 | Adding, updating and deleting products and categories keep the state invariant: every record is stored under its own id and the lines are untouched. |
| CustomerService.Add | Business/Services/CustomerService.cs:25-35 | Validation comes before any write. A taken id fails the save. On success exactly one customer is added, and it reads back as the model. |
| CustomerService.Update | Business/Services/CustomerService.cs:68-79 | Validation comes before any write. A missing id fails the save. On success only that customer record changes (with its person embedded in it), it reads back as the model, and its person's id equals the model's id. |
| CustomerService.ModelRoundTrip | Business/AutomapperProfile.cs:29-34 | Mapping a model to a stored customer and back gives the model again, whatever the person's id. |
| CustomerService.GetById | Business/Services/CustomerService.cs:52-60 | Null (`None`) iff the customer is missing, without raising. Otherwise the stored customer mapped to its model. |
| CustomerService.WriteThenRead | Business/Services/CustomerService.cs:52-60 | A customer read back after add or update is exactly the model written. Every other customer reads back as before. |
| CustomerService.WritesPreserveValid | Business/Services/CustomerService.cs:25-79 | Adding, updating and deleting customers keep the state invariant. |
| CustomerService.Delete | Business/Services/CustomerService.cs:37-45 | As written, with the dead check never firing: never raises. A missing id leaves the store unchanged. |
| CustomerService.DeleteChecked | Business/Services/CustomerService.cs:37-45 | As intended: raises iff the customer is missing. Otherwise it removes it and nothing else. |
| CustomerService.DeleteCheckIsDead | Business/Services/CustomerService.cs:39-40 | The two agree on stored ids and differ on every missing one. |
| CustomerService.ReceiptTestMatchesLines | Business/Services/CustomerService.cs:64 | The source's receipt-by-receipt test holds iff some line for the product belongs to a receipt of the customer. |
| CustomerService.CustomersByProduct | Business/Services/CustomerService.cs:62-66 | A customer is returned iff it is listed and one of its receipts has a line for the product. |
| CustomerService.CustomersByProductMeaning | Business/Services/CustomerService.cs:62-66 | The same membership stated line by line. The answer keeps the listing's order, and it is empty when no line is for the product. |
| CustomerService.CustomersByProductOverStore | Business/Services/CustomerService.cs:62-66 | When the listing holds exactly the stored customers, a customer is returned iff it is stored and some line for the product belongs to one of its receipts. |

## Left out

- `async`/`Task`, the unit of work's `SaveAsync`, and the check-then-act races under concurrent requests: each operation is one atomic transition.
- Exception message texts: only the exception type, and for `MarketException` the guard, are kept.
- Identity generation: an added row is stored under the id its model carries. A taken id fails the save (`Error.Persistence`), and so does an update of a missing id.
- Mapping (Business/AutomapperProfile.cs) is written out field by field only for customers (`CustomerService.FromModel`/`ToModel`, lines 29-34). For the other entities the model is the row itself, except that a line has no surrogate `Id` (the `Id` of `ReceiptDetailModel`, kept only in `Domain.DetailModel`). The id lists the read models carry (`ReceiptDetailIds` and the like) and a product model's `CategoryName` are not modelled.
- Database delete cascades are not modelled. Deleting a product, a category or a customer that rows still reference removes only its own row here. The database would cascade the delete or refuse it. After such a delete, a stored receipt can reference a missing customer, and a line or product can reference a missing product or category. Foreign keys are enforced only on the writes that create references: `ReceiptService.Add`/`Update` (customer) and `ProductService.Add`/`Update` (category). A line's product is checked by `AddProduct` itself. The customer and product repositories are not part of this model; their delete-by-id is assumed to behave like the category and person repositories, which remove only a row they find.
- `GetAllAsync` and `GetAllProductCategoriesAsync` only map a listing, so they are not modelled.
- The controllers are not modelled. This includes the receipts controller's extra filtering on the date part only.
- ReceiptService.AddProduct: quantities are unbounded integers, so the merged quantity cannot wrap. The 32-bit wrap-around of the code as written is modelled separately in `MergedQuantityAsWritten` (see Findings).
- ReceiptService.DiscountedPrice: exact real arithmetic; `decimal`'s 28-digit precision and overflow are not modelled.
- ReceiptService.ToPay: the sum of quantity × discounted price is exact. The `OverflowException` that `decimal` multiplication or `Sum` raises on an out-of-range result is not modelled.
- ProductService.Delete: the as-written model assumes the unawaited lookup of the dead check has finished before the repository's own lookup runs on the same database context. With SQL Server (WebApi/Startup.cs:39-40) the two can overlap, and Entity Framework then rejects the second operation with an `InvalidOperationException`, for a stored id as well. That failure is not modelled.
- ProductService.RemoveCategory: the same assumption about the unawaited lookup overlapping the repository's lookup (Data/Repositories/ProductCategoryRepository.cs:33, 46-49) on the shared context.
- CustomerService.Delete: the same assumption about the unawaited lookup overlapping the repository's lookup on the shared context.
- CustomerService.Update: the Persons table is not modelled; a customer's person is embedded in the customer record. In the code, the save writes the Persons row whose id is the model's id. It fails when no such person exists, and it overwrites another customer's person when person ids and customer ids differ. "Only that customer changes" holds only when the ids coincide.
- ProductService.Update: the stored product is replaced by the model's scalar fields, and the product model's `CategoryName` is not modelled. In the code, the reverse map (Business/AutomapperProfile.cs:17-20) also builds or fills in the entity's `Category` from `CategoryName`. Unlike `AddAsync`, which clears it, `UpdateAsync` saves the product with that category attached. The save may therefore also insert a category or rename the loaded one. Whether a missing category id fails the save depends on that attached object. So the model's `Persistence` failure for a missing category, and "every other table is unchanged" in `ProductService.WriteThenRead`, describe the product row alone.

## Findings

| source | as written | input that shows it | evidently intended | confidence | as-written member | corrected member |
|---|---|---|---|---|---|---|
| Business/Services/ReceiptService.cs:66 | `Quantity += quantity` on 32-bit `int` in an unchecked context wraps around | a line holding 2147483647 units, add 1: the quantity becomes −2147483648 | the merged quantity is old + q, larger than old and positive | not executed; high that it wraps, given C#'s default unchecked arithmetic | ReceiptService.MergedQuantityAsWrittenGoesNegative | ReceiptService.AddProductMerge |
| Business/Services/ProductService.cs:53-54 | `GetByIdAsync(modelId) == null` compares an unawaited `Task` with null, which is never true | delete product id 42 from a store without it: the null check does not raise, and the repository finds no row to remove | a missing product raises `MarketException` | not executed; high that the check is dead, medium on the outcome (see Left out) | ProductService.DeleteCheckIsDead | ProductService.DeleteChecked |
| Business/Services/ProductService.cs:99-100 | the same dead check on categories | remove category id 42 from a store without it: the null check does not raise, and the repository finds no row to remove | a missing category raises `MarketException` | not executed; high that the check is dead, medium on the outcome (see Left out) | ProductService.RemoveCategoryCheckIsDead | ProductService.RemoveCategoryChecked |
| Business/Services/CustomerService.cs:39-40 | the same dead check on customers | delete customer id 42 from a store without it: the null check does not raise, and the repository finds no row to remove | a missing customer raises `MarketException` | not executed; high that the check is dead, medium on the outcome (see Left out) | CustomerService.DeleteCheckIsDead | CustomerService.DeleteChecked |
