/** Entities of the trade-market database and the business models the
    services exchange with their callers. */
module Domain {
  import opened Wrappers
  import Dates

  /** Entity keys (C# `int`). */
  type Id = int

  /** Amounts of money: C# `decimal`, modelled exactly. */
  type Money = real

  /** A C# `string` reference, which may be null. */
  type NullableString = Option<string>

  /** `String.IsNullOrEmpty`. */
  predicate IsNullOrEmpty(s: NullableString) {
    s.None? || |s.value| == 0
  }

  datatype Person = Person(id: Id, name: NullableString, surname: NullableString, birthDate: Dates.Ticks)

  /** A customer and its linked person; `discountValue` is a whole percentage. */
  datatype Customer = Customer(id: Id, person: Person, discountValue: int)

  /** Stored as the `ProductCategories` row and exchanged as `ProductCategoryModel`. */
  datatype Category = Category(id: Id, categoryName: NullableString)

  /** Stored as the `Products` row and exchanged as `ProductModel`. */
  datatype Product = Product(id: Id, productCategoryId: Id, productName: NullableString, price: Money)

  /** Stored as the `Receipts` row and exchanged as `ReceiptModel`. */
  datatype Receipt = Receipt(id: Id, customerId: Id, operationDate: Dates.Ticks, isCheckedOut: bool)

  /** A `ReceiptsDetails` row, identified by the pair (receiptId, productId).
      `unitPrice` and `discountUnitPrice` are frozen when the row is created. */
  datatype Line = Line(receiptId: Id, productId: Id, unitPrice: Money, discountUnitPrice: Money, quantity: int)

  /** `CustomerModel`: the customer with its person's fields flattened in. */
  datatype CustomerModel = CustomerModel(
    id: Id, name: NullableString, surname: NullableString, birthDate: Dates.Ticks, discountValue: int)

  /** `ReceiptDetailModel`, which also carries the row's surrogate id. */
  datatype DetailModel = DetailModel(
    id: Id, receiptId: Id, productId: Id, unitPrice: Money, discountUnitPrice: Money, quantity: int)

  /** Which guard raised a `MarketException`. The receipt service raises it
      without a message, so there the cause is only a label for the guard. */
  datatype Cause =
    | ModelIsNull
    | NegativeId
    | NegativePrice
    | EmptyName
    | NegativeCustomerId
    | NegativeDiscount
    | EmptyPersonName
    | BirthDateOutOfRange
    | InvalidDetailFields
    | ReceiptNotFound
    | NonPositiveQuantity
    | ProductNotFound
    | LineNotFound
    | CategoryNotFound
    | CustomerNotFound

  /** The exception an operation raises, by type. */
  datatype Error =
    | Market(cause: Cause)   // MarketException
    | ArgumentNull           // ArgumentNullException
    | Validation             // ValidationException
    | KeyNotFound            // KeyNotFoundException
    | NullReference          // NullReferenceException from a missing navigation property
    | Persistence            // the unit of work's save fails (key already taken, or no row to update)
}
