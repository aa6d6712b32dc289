/** `ModelsValidator`: the field rules every business model must satisfy
    before it is persisted. Each rule set runs its checks in a fixed order and
    raises a `MarketException` at the first one that fails; a model that passes
    them all is reported valid. */
module ModelsValidator {
  import opened Wrappers
  import opened Domain
  import Dates

  /** A `BaseModel` instance, tagged by its runtime type. */
  datatype Model =
    | OfCategory(category: Category)
    | OfProduct(product: Product)
    | OfReceipt(receipt: Receipt)
    | OfCustomer(customer: CustomerModel)
    | OfDetail(detail: DetailModel)
    | OfOtherType   // any other subclass of BaseModel

  /** 1900-01-01T00:00:00 and 2005-01-01T23:59:59: the birth-date window, both ends included. */
  const MinBirthDate: Dates.Ticks := Dates.DateTime(1900, 1, 1, 0, 0, 0)
  const MaxBirthDate: Dates.Ticks := Dates.DateTime(2005, 1, 1, 23, 59, 59)

  // Each rule set as one declarative condition.

  predicate CategoryIsValid(c: Category) {
    c.id >= 0 && !IsNullOrEmpty(c.categoryName)
  }

  predicate ProductIsValid(p: Product) {
    p.id >= 0 && p.price >= 0.0 && !IsNullOrEmpty(p.productName)
  }

  predicate ReceiptIsValid(r: Receipt) {
    r.id >= 0 && r.customerId >= 0
  }

  predicate CustomerIsValid(c: CustomerModel) {
    && c.id >= 0 && c.discountValue >= 0
    && !IsNullOrEmpty(c.name) && !IsNullOrEmpty(c.surname)
    && MinBirthDate <= c.birthDate <= MaxBirthDate
  }

  predicate DetailIsValid(d: DetailModel) {
    && d.id >= 0 && d.receiptId >= 0 && d.productId >= 0
    && d.discountUnitPrice >= 0.0 && d.unitPrice > 0.0 && d.quantity > 0
  }

  predicate IsValid(m: Model) {
    match m
    case OfCategory(c) => CategoryIsValid(c)
    case OfProduct(p) => ProductIsValid(p)
    case OfReceipt(r) => ReceiptIsValid(r)
    case OfCustomer(c) => CustomerIsValid(c)
    case OfDetail(d) => DetailIsValid(d)
    case OfOtherType => false
  }

  // The rule sets as the source runs them: checks in order, first failure raises.

  function ProductCategoryModelIsValid(model: Option<Category>): (r: Result<bool, Error>)
    ensures r != Success(false)
    ensures r.Success? <==> model.Some? && CategoryIsValid(model.value)
    ensures model.None? ==> r == Failure(Market(ModelIsNull))
    ensures model.Some? && model.value.id < 0 ==> r == Failure(Market(NegativeId))
    ensures model.Some? && model.value.id >= 0 && r.Failure? ==> r.error == Market(EmptyName)
  {
    if model.None? then Failure(Market(ModelIsNull))
    else if model.value.id < 0 then Failure(Market(NegativeId))
    else if IsNullOrEmpty(model.value.categoryName) then Failure(Market(EmptyName))
    else Success(true)
  }

  function ProductModelIsValid(model: Option<Product>): (r: Result<bool, Error>)
    ensures r != Success(false)
    ensures r.Success? <==> model.Some? && ProductIsValid(model.value)
    ensures model.None? ==> r == Failure(Market(ModelIsNull))
    ensures model.Some? && model.value.id < 0 ==> r == Failure(Market(NegativeId))
    ensures model.Some? && model.value.id >= 0 && model.value.price < 0.0 ==> r == Failure(Market(NegativePrice))
    ensures model.Some? && model.value.id >= 0 && model.value.price >= 0.0 && r.Failure? ==> r.error == Market(EmptyName)
  {
    if model.None? then Failure(Market(ModelIsNull))
    else if model.value.id < 0 then Failure(Market(NegativeId))
    else if model.value.price < 0.0 then Failure(Market(NegativePrice))
    else if IsNullOrEmpty(model.value.productName) then Failure(Market(EmptyName))
    else Success(true)
  }

  function ReceiptModelIsValid(model: Option<Receipt>): (r: Result<bool, Error>)
    ensures r != Success(false)
    ensures r.Success? <==> model.Some? && ReceiptIsValid(model.value)
    ensures model.None? ==> r == Failure(Market(ModelIsNull))
    ensures model.Some? && model.value.id < 0 ==> r == Failure(Market(NegativeId))
    ensures model.Some? && model.value.id >= 0 && r.Failure? ==> r.error == Market(NegativeCustomerId)
  {
    if model.None? then Failure(Market(ModelIsNull))
    else if model.value.id < 0 then Failure(Market(NegativeId))
    else if model.value.customerId < 0 then Failure(Market(NegativeCustomerId))
    else Success(true)
  }

  function CustomerModelIsValid(model: Option<CustomerModel>): (r: Result<bool, Error>)
    ensures r != Success(false)
    ensures r.Success? <==> model.Some? && CustomerIsValid(model.value)
    ensures model.None? ==> r == Failure(Market(ModelIsNull))
    ensures model.Some? && model.value.id < 0 ==> r == Failure(Market(NegativeId))
    ensures model.Some? && model.value.id >= 0 && model.value.discountValue < 0 ==> r == Failure(Market(NegativeDiscount))
    ensures model.Some? && model.value.id >= 0 && model.value.discountValue >= 0
            && (IsNullOrEmpty(model.value.name) || IsNullOrEmpty(model.value.surname))
            ==> r == Failure(Market(EmptyPersonName))
    ensures model.Some? && model.value.id >= 0 && model.value.discountValue >= 0
            && !IsNullOrEmpty(model.value.name) && !IsNullOrEmpty(model.value.surname) && r.Failure?
            ==> r.error == Market(BirthDateOutOfRange)
  {
    if model.None? then Failure(Market(ModelIsNull))
    else
      var c := model.value;
      if c.id < 0 then Failure(Market(NegativeId))
      else if c.discountValue < 0 then Failure(Market(NegativeDiscount))
      else if IsNullOrEmpty(c.name) || IsNullOrEmpty(c.surname) then Failure(Market(EmptyPersonName))
      else if c.birthDate < MinBirthDate || c.birthDate > MaxBirthDate then Failure(Market(BirthDateOutOfRange))
      else Success(true)
  }

  function ReceiptDetailModelIsValid(model: Option<DetailModel>): (r: Result<bool, Error>)
    ensures r != Success(false)
    ensures r.Success? <==> model.Some? && DetailIsValid(model.value)
    ensures model.None? ==> r == Failure(Market(ModelIsNull))
    ensures model.Some? && r.Failure? ==> r.error == Market(InvalidDetailFields)
  {
    if model.None? then Failure(Market(ModelIsNull))
    else
      var d := model.value;
      if d.id < 0 || d.receiptId < 0 || d.productId < 0
         || d.discountUnitPrice < 0.0 || d.unitPrice <= 0.0 || d.quantity <= 0
      then Failure(Market(InvalidDetailFields))
      else Success(true)
  }

  /** `IsValidModel`: dispatch on the model's runtime type. */
  function IsValidModel(model: Option<Model>): (r: Result<bool, Error>)
    ensures model.None? ==> r == Failure(Market(ModelIsNull))
    ensures r == Success(true) <==> model.Some? && IsValid(model.value)
    ensures r == Success(false) <==> model == Some(OfOtherType)
    ensures r.Failure? ==> r.error.Market?
  {
    if model.None? then Failure(Market(ModelIsNull))
    else
      match model.value
      case OfCategory(c) => ProductCategoryModelIsValid(Some(c))
      case OfProduct(p) => ProductModelIsValid(Some(p))
      case OfReceipt(rc) => ReceiptModelIsValid(Some(rc))
      case OfCustomer(c) => CustomerModelIsValid(Some(c))
      case OfDetail(d) => ReceiptDetailModelIsValid(Some(d))
      case OfOtherType => Success(false)
  }

  /** The birth-date window is inclusive at both ends, to the second: its two
      edges pass, and one tick outside either edge fails. */
  lemma BirthDateWindowEdges(c: CustomerModel)
    requires c.id >= 0 && c.discountValue >= 0 && !IsNullOrEmpty(c.name) && !IsNullOrEmpty(c.surname)
    ensures CustomerModelIsValid(Some(c.(birthDate := MinBirthDate))) == Success(true)
    ensures CustomerModelIsValid(Some(c.(birthDate := MaxBirthDate))) == Success(true)
    ensures CustomerModelIsValid(Some(c.(birthDate := MinBirthDate - 1))) == Failure(Market(BirthDateOutOfRange))
    ensures CustomerModelIsValid(Some(c.(birthDate := MaxBirthDate + 1))) == Failure(Market(BirthDateOutOfRange))
    ensures CustomerModelIsValid(Some(c.(birthDate := Dates.DateTime(2010, 1, 1, 0, 0, 0)))) == Failure(Market(BirthDateOutOfRange))
  {
    assert MinBirthDate == 599266080000000000;
    assert MaxBirthDate == 632402207990000000;
  }
}
