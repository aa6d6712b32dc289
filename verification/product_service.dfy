/** `ProductService`: the product catalogue and its categories. */
module ProductService {
  import opened Wrappers
  import opened Domain
  import opened Seqs
  import opened Persistence
  import ModelsValidator

  /** `FilterSearchModel`: each criterion is optional (a C# nullable). */
  datatype FilterSearch = FilterSearch(categoryId: Option<Id>, minPrice: Option<Money>, maxPrice: Option<Money>)

  /** A product meets a filter when it meets every criterion the filter sets;
      both price bounds are inclusive. */
  predicate InFilter(f: FilterSearch, p: Product) {
    MeetsMax(f, p) && MeetsMin(f, p) && MeetsCategory(f, p)
  }

  predicate MeetsMax(f: FilterSearch, p: Product) {
    f.maxPrice.None? || p.price <= f.maxPrice.value
  }

  predicate MeetsMin(f: FilterSearch, p: Product) {
    f.minPrice.None? || p.price >= f.minPrice.value
  }

  predicate MeetsCategory(f: FilterSearch, p: Product) {
    f.categoryId.None? || p.productCategoryId == f.categoryId.value
  }

  /** One optional `Where` stage of the query: applied only when `active`. */
  function Stage(q: seq<Product>, active: bool, keep: Product -> bool): (r: seq<Product>)
    ensures forall x :: x in r <==> x in q && (active ==> keep(x))
  {
    if active then Filter(q, keep) else q
  }

  /** `GetByFilterAsync`: the products of the listing `all` that meet the
      filter, by three `Where` stages (maximum price, minimum price,
      category) each applied only when its criterion is set. */
  function GetByFilter(filter: Option<FilterSearch>, all: seq<Product>): (r: Result<seq<Product>, Error>)
    ensures r.Failure? <==> filter.None?
    ensures r.Failure? ==> r.error == ArgumentNull
    ensures r.Success? ==> forall p :: p in r.value <==> p in all && InFilter(filter.value, p)
    ensures filter == Some(FilterSearch(None, None, None)) ==> r == Success(all)
  {
    if filter.None? then Failure(ArgumentNull)
    else
      var f := filter.value;
      var q1 := Stage(all, f.maxPrice.Some?, (p: Product) => MeetsMax(f, p));
      var q2 := Stage(q1, f.minPrice.Some?, (p: Product) => MeetsMin(f, p));
      Success(Stage(q2, f.categoryId.Some?, (p: Product) => MeetsCategory(f, p)))
  }

  /** Over a listing of the whole products table, a product is in the answer
      exactly when it is stored and meets the filter; with no criteria set,
      every stored product is in it. */
  lemma GetByFilterOverStore(s: Store, f: FilterSearch, all: seq<Product>)
    requires ListsTable(all, s.products)
    ensures forall p :: p in GetByFilter(Some(f), all).value <==> p in s.products.Values && InFilter(f, p)
    ensures f == FilterSearch(None, None, None) ==>
      forall p :: p in GetByFilter(Some(f), all).value <==> p in s.products.Values
  {
  }

  /** Each stage keeps the order of what it keeps. */
  lemma StageIsSubsequence(q: seq<Product>, active: bool, keep: Product -> bool)
    ensures IsSubsequence(Stage(q, active, keep), q)
  {
    if active {
      FilterIsSubsequence(q, keep);
    } else {
      SubsequenceReflexive(q);
    }
  }

  /** The filter's answer is the listing with some products deleted and the
      rest in their listed order. */
  lemma GetByFilterPreservesOrder(f: FilterSearch, all: seq<Product>)
    ensures IsSubsequence(GetByFilter(Some(f), all).value, all)
  {
    var q1 := Stage(all, f.maxPrice.Some?, (p: Product) => MeetsMax(f, p));
    var q2 := Stage(q1, f.minPrice.Some?, (p: Product) => MeetsMin(f, p));
    var q3 := Stage(q2, f.categoryId.Some?, (p: Product) => MeetsCategory(f, p));
    StageIsSubsequence(all, f.maxPrice.Some?, (p: Product) => MeetsMax(f, p));
    StageIsSubsequence(q1, f.minPrice.Some?, (p: Product) => MeetsMin(f, p));
    StageIsSubsequence(q2, f.categoryId.Some?, (p: Product) => MeetsCategory(f, p));
    SubsequenceTransitive(q2, q1, all);
    SubsequenceTransitive(q3, q2, all);
  }

  /** A minimum price above the maximum price matches nothing. */
  lemma GetByFilterEmptyRange(f: FilterSearch, all: seq<Product>)
    requires f.minPrice.Some? && f.maxPrice.Some? && f.minPrice.value > f.maxPrice.value
    ensures GetByFilter(Some(f), all) == Success([])
  {
    var q1 := Stage(all, true, (p: Product) => MeetsMax(f, p));
    FilterNone(q1, (p: Product) => MeetsMin(f, p));
    var q2 := Stage(q1, true, (p: Product) => MeetsMin(f, p));
    assert q2 == [];
  }

  /** `ValidateCategoryModel`: the category check the service runs itself,
      which looks only at the model and its name. */
  function ValidateCategoryModel(model: Option<Category>): (r: Outcome<Error>)
    ensures r.Fail? <==> model.None? || IsNullOrEmpty(model.value.categoryName)
    ensures model.None? ==> r == Fail(Market(ModelIsNull))
    ensures model.Some? && r.Fail? ==> r.error == Market(EmptyName)
  {
    if model.None? then Fail(Market(ModelIsNull))
    else if IsNullOrEmpty(model.value.categoryName) then Fail(Market(EmptyName))
    else Pass
  }

  /** The service's category check is strictly narrower than the validator's
      rule: whatever the validator accepts it accepts, and a category with a
      negative id passes it though the validator rejects it. */
  lemma CategoryCheckIsNarrower(c: Category)
    ensures ModelsValidator.CategoryIsValid(c) ==> ValidateCategoryModel(Some(c)) == Pass
    ensures ValidateCategoryModel(Some(c)) == Pass && c.id < 0 ==>
      ModelsValidator.ProductCategoryModelIsValid(Some(c)) == Failure(Market(NegativeId))
    ensures var sample := Category(-1, Some("Food"));
      ValidateCategoryModel(Some(sample)) == Pass && !ModelsValidator.CategoryIsValid(sample)
  {
  }

  /** `AddCategoryAsync`: store a category that passes the service's check;
      the save fails when the id is already taken. */
  function AddCategory(s: Store, model: Option<Category>): (r: Result<Store, Error>)
    ensures r.Success? <==>
      ValidateCategoryModel(model) == Pass && model.value.id !in s.categories
    ensures ValidateCategoryModel(model).Fail? ==> r == Failure(ValidateCategoryModel(model).error)
    ensures ValidateCategoryModel(model) == Pass && model.value.id in s.categories ==> r == Failure(Persistence)
    ensures r.Success? ==> r.value == s.(categories := s.categories[model.value.id := model.value])
  {
    match ValidateCategoryModel(model)
    case Fail(e) => Failure(e)
    case Pass =>
      if model.value.id in s.categories then Failure(Persistence)
      else Success(s.(categories := s.categories[model.value.id := model.value]))
  }

  /** `UpdateCategoryAsync`: overwrite a stored category with a model that
      passes the service's check; the save fails when no row has its id. */
  function UpdateCategory(s: Store, model: Option<Category>): (r: Result<Store, Error>)
    ensures r.Success? <==>
      ValidateCategoryModel(model) == Pass && model.value.id in s.categories
    ensures ValidateCategoryModel(model).Fail? ==> r == Failure(ValidateCategoryModel(model).error)
    ensures ValidateCategoryModel(model) == Pass && model.value.id !in s.categories ==> r == Failure(Persistence)
    ensures r.Success? ==> r.value == s.(categories := s.categories[model.value.id := model.value])
  {
    match ValidateCategoryModel(model)
    case Fail(e) => Failure(e)
    case Pass =>
      if model.value.id !in s.categories then Failure(Persistence)
      else Success(s.(categories := s.categories[model.value.id := model.value]))
  }

  /** The validator's verdict on a (possibly null) product model. */
  function ProductVerdict(model: Option<Product>): Result<bool, Error> {
    ModelsValidator.IsValidModel(if model.None? then None else Some(ModelsValidator.OfProduct(model.value)))
  }

  /** `AddAsync`: store a product that passes validation. An invalid model
      makes the validator raise, so nothing is stored; the save fails when
      the id is already taken or the product's category is not stored (the
      foreign key of the `Category` navigation). */
  function Add(s: Store, model: Option<Product>): (r: Result<Store, Error>)
    ensures r.Success? <==>
      model.Some? && ModelsValidator.ProductIsValid(model.value) && model.value.id !in s.products
      && model.value.productCategoryId in s.categories
    ensures model.None? ==> r == Failure(Market(ModelIsNull))
    ensures model.Some? && !ModelsValidator.ProductIsValid(model.value) ==> r.Failure? && r.error.Market?
    ensures (model.Some? && ModelsValidator.ProductIsValid(model.value)
             && (model.value.id in s.products || model.value.productCategoryId !in s.categories)) ==>
      r == Failure(Persistence)
    ensures r.Success? ==> r.value == s.(products := s.products[model.value.id := model.value])
  {
    var verdict := ProductVerdict(model);
    if verdict.Failure? then Failure(verdict.error)
    else if !verdict.value then Success(s)
    else if model.value.id in s.products || model.value.productCategoryId !in s.categories then Failure(Persistence)
    else Success(s.(products := s.products[model.value.id := model.value]))
  }

  /** `UpdateAsync`: an invalid model makes the validator raise first (so the
      service's own `ValidationException` is never reached); then a product id
      with no stored product raises `KeyNotFoundException`; then the save
      fails when the product's category is not stored; only then is the
      stored product overwritten. */
  function Update(s: Store, model: Option<Product>): (r: Result<Store, Error>)
    ensures r.Success? <==>
      model.Some? && ModelsValidator.ProductIsValid(model.value) && model.value.id in s.products
      && model.value.productCategoryId in s.categories
    ensures model.None? ==> r == Failure(Market(ModelIsNull))
    ensures model.Some? && !ModelsValidator.ProductIsValid(model.value) ==> r.Failure? && r.error.Market?
    ensures model.Some? && ModelsValidator.ProductIsValid(model.value) && model.value.id !in s.products ==>
      r == Failure(KeyNotFound)
    ensures (model.Some? && ModelsValidator.ProductIsValid(model.value) && model.value.id in s.products
             && model.value.productCategoryId !in s.categories) ==>
      r == Failure(Persistence)
    ensures r != Failure(Validation)
    ensures r.Success? ==> r.value == s.(products := s.products[model.value.id := model.value])
  {
    var verdict := ProductVerdict(model);
    if verdict.Failure? then Failure(verdict.error)
    else if !verdict.value then Failure(Validation)
    else if model.value.id !in s.products then Failure(KeyNotFound)
    else if model.value.productCategoryId !in s.categories then Failure(Persistence)
    else Success(s.(products := s.products[model.value.id := model.value]))
  }

  /** `GetByIdAsync`: the stored product, or null when there is none. */
  function GetById(s: Store, id: Id): (r: Option<Product>)
    ensures r.Some? <==> id in s.products
    ensures r.Some? ==> r.value == s.products[id]
  {
    if id in s.products then Some(s.products[id]) else None
  }

  /** A product read back after a successful add or update is the model
      that was written, and every other product reads back as before. */
  lemma WriteThenRead(s: Store, model: Option<Product>)
    requires Add(s, model).Success? || Update(s, model).Success?
    ensures var s' := if Add(s, model).Success? then Add(s, model).value else Update(s, model).value;
      && GetById(s', model.value.id) == model
      && (forall id :: id != model.value.id ==> GetById(s', id) == GetById(s, id))
      && OnlyProductsChange(s, s')
  {
  }

  /** Only the products table differs between `s` and `s'`. */
  predicate OnlyProductsChange(s: Store, s': Store) {
    s'.customers == s.customers && s'.categories == s.categories
    && s'.receipts == s.receipts && s'.lines == s.lines
  }

  /** `DeleteAsync` as written: the existence check compares the unawaited
      lookup task with null, which never holds, so it never raises; the
      repository then removes the product only if it finds one. Deleting a
      missing id is a silent no-op. */
  function Delete(s: Store, id: Id): (r: Result<Store, Error>)
    ensures r.Success?
    ensures r.value.products == s.products - {id}
    ensures id !in s.products ==> r.value == s
  {
    Success(s.(products := s.products - {id}))
  }

  /** `DeleteAsync` as evidently intended: a missing product raises. */
  function DeleteChecked(s: Store, id: Id): (r: Result<Store, Error>)
    ensures r.Failure? <==> id !in s.products
    ensures r.Failure? ==> r.error == Market(ProductNotFound)
    ensures r.Success? ==> r.value.products == s.products - {id} && OnlyProductsChange(s, r.value)
  {
    if id !in s.products then Failure(Market(ProductNotFound))
    else Delete(s, id)
  }

  /** The as-written delete and the intended one agree on every stored id and
      differ on every missing one: there the check that should raise is dead. */
  lemma DeleteCheckIsDead(s: Store, id: Id)
    ensures id in s.products ==> Delete(s, id) == DeleteChecked(s, id)
    ensures id !in s.products ==> Delete(s, id) == Success(s) && DeleteChecked(s, id) == Failure(Market(ProductNotFound))
  {
  }

  /** `RemoveCategoryAsync` as written: like `Delete`, a missing id is a
      silent no-op because the existence check is dead. */
  function RemoveCategory(s: Store, categoryId: Id): (r: Result<Store, Error>)
    ensures r.Success?
    ensures r.value.categories == s.categories - {categoryId}
    ensures categoryId !in s.categories ==> r.value == s
  {
    Success(s.(categories := s.categories - {categoryId}))
  }

  /** `RemoveCategoryAsync` as evidently intended: a missing category raises. */
  function RemoveCategoryChecked(s: Store, categoryId: Id): (r: Result<Store, Error>)
    ensures r.Failure? <==> categoryId !in s.categories
    ensures r.Failure? ==> r.error == Market(CategoryNotFound)
    ensures r.Success? ==> r.value.categories == s.categories - {categoryId} && r.value.products == s.products
  {
    if categoryId !in s.categories then Failure(Market(CategoryNotFound))
    else RemoveCategory(s, categoryId)
  }

  /** The category check is dead in the same way as the product one. */
  lemma RemoveCategoryCheckIsDead(s: Store, categoryId: Id)
    ensures categoryId in s.categories ==> RemoveCategory(s, categoryId) == RemoveCategoryChecked(s, categoryId)
    ensures categoryId !in s.categories ==>
      RemoveCategory(s, categoryId) == Success(s) && RemoveCategoryChecked(s, categoryId) == Failure(Market(CategoryNotFound))
  {
  }

  /** Every write of the catalogue keeps the state invariant: each product
      and category is stored under its own id, and no line is touched. */
  lemma WritesPreserveValid(s: Store, product: Option<Product>, category: Option<Category>, id: Id)
    requires Valid(s)
    ensures Add(s, product).Success? ==> Valid(Add(s, product).value)
    ensures Update(s, product).Success? ==> Valid(Update(s, product).value)
    ensures Valid(Delete(s, id).value)
    ensures AddCategory(s, category).Success? ==> Valid(AddCategory(s, category).value)
    ensures UpdateCategory(s, category).Success? ==> Valid(UpdateCategory(s, category).value)
    ensures Valid(RemoveCategory(s, id).value)
  {
  }
}
