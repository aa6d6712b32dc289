/** `CustomerService`: customers and the people they are linked to. */
module CustomerService {
  import opened Wrappers
  import opened Domain
  import opened Seqs
  import opened Persistence
  import ModelsValidator

  /** The stored customer a model maps to. The linked person's id is left at
      its default, zero; `Update` sets it to the customer's id. */
  function FromModel(m: CustomerModel): (c: Customer)
    ensures c.id == m.id && c.person.id == 0 && c.discountValue == m.discountValue
  {
    Customer(m.id, Person(0, m.name, m.surname, m.birthDate), m.discountValue)
  }

  /** The model a stored customer maps to, its person's fields flattened in. */
  function ToModel(c: Customer): (m: CustomerModel)
    ensures m.id == c.id && m.discountValue == c.discountValue
  {
    CustomerModel(c.id, c.person.name, c.person.surname, c.person.birthDate, c.discountValue)
  }

  /** Mapping a model to a customer and back gives the model again, whatever
      the linked person's id. */
  lemma ModelRoundTrip(m: CustomerModel, personId: Id)
    ensures ToModel(FromModel(m)) == m
    ensures var c := FromModel(m); ToModel(c.(person := c.person.(id := personId))) == m
  {
  }

  /** The validator's verdict on a (possibly null) customer model. */
  function CustomerVerdict(model: Option<CustomerModel>): Result<bool, Error> {
    ModelsValidator.IsValidModel(if model.None? then None else Some(ModelsValidator.OfCustomer(model.value)))
  }

  /** `AddAsync`: store a customer whose model passes validation. Validation
      comes first: an invalid model makes the validator raise before anything
      is stored; the save fails when the id is already taken. */
  function Add(s: Store, model: Option<CustomerModel>): (r: Result<Store, Error>)
    ensures r.Success? <==>
      model.Some? && ModelsValidator.CustomerIsValid(model.value) && model.value.id !in s.customers
    ensures model.None? ==> r == Failure(Market(ModelIsNull))
    ensures model.Some? && !ModelsValidator.CustomerIsValid(model.value) ==> r.Failure? && r.error.Market?
    ensures model.Some? && ModelsValidator.CustomerIsValid(model.value) && model.value.id in s.customers ==>
      r == Failure(Persistence)
    ensures r.Success? ==>
      && r.value.customers.Keys == s.customers.Keys + {model.value.id}
      && ToModel(r.value.customers[model.value.id]) == model.value
      && (forall id :: id in s.customers ==> r.value.customers[id] == s.customers[id])
      && OnlyCustomersChange(s, r.value)
  {
    var verdict := CustomerVerdict(model);
    if verdict.Failure? then Failure(verdict.error)
    else if !verdict.value then Success(s)
    else if model.value.id in s.customers then Failure(Persistence)
    else Success(s.(customers := s.customers[model.value.id := FromModel(model.value)]))
  }

  /** `UpdateAsync`: overwrite a stored customer with a model that passes
      validation, the linked person's id forced to the model's id; the save
      fails when no row has that id. */
  function Update(s: Store, model: Option<CustomerModel>): (r: Result<Store, Error>)
    ensures r.Success? <==>
      model.Some? && ModelsValidator.CustomerIsValid(model.value) && model.value.id in s.customers
    ensures model.None? ==> r == Failure(Market(ModelIsNull))
    ensures model.Some? && !ModelsValidator.CustomerIsValid(model.value) ==> r.Failure? && r.error.Market?
    ensures model.Some? && ModelsValidator.CustomerIsValid(model.value) && model.value.id !in s.customers ==>
      r == Failure(Persistence)
    ensures r.Success? ==>
      && r.value.customers.Keys == s.customers.Keys
      && ToModel(r.value.customers[model.value.id]) == model.value
      && r.value.customers[model.value.id].person.id == model.value.id
      && (forall id :: id in s.customers && id != model.value.id ==> r.value.customers[id] == s.customers[id])
      && OnlyCustomersChange(s, r.value)
  {
    var verdict := CustomerVerdict(model);
    if verdict.Failure? then Failure(verdict.error)
    else if !verdict.value then Success(s)
    else if model.value.id !in s.customers then Failure(Persistence)
    else
      var c := FromModel(model.value);
      Success(s.(customers := s.customers[model.value.id := c.(person := c.person.(id := model.value.id))]))
  }

  /** Only the customers table differs between `s` and `s'`. */
  predicate OnlyCustomersChange(s: Store, s': Store) {
    s'.products == s.products && s'.categories == s.categories
    && s'.receipts == s.receipts && s'.lines == s.lines
  }

  /** `GetByIdAsync`: the customer as a model, or null when there is none
      (the receipt service raises instead). */
  function GetById(s: Store, id: Id): (r: Option<CustomerModel>)
    ensures r.None? <==> id !in s.customers
    ensures r.Some? ==> r.value.id == s.customers[id].id && r.value.discountValue == s.customers[id].discountValue
    ensures r.Some? ==> r.value == ToModel(s.customers[id])
  {
    if id !in s.customers then None else Some(ToModel(s.customers[id]))
  }

  /** A customer read back after a successful add or update is the model
      that was written; every other customer reads back as before. */
  lemma WriteThenRead(s: Store, model: Option<CustomerModel>)
    requires Add(s, model).Success? || Update(s, model).Success?
    ensures var s' := if Add(s, model).Success? then Add(s, model).value else Update(s, model).value;
      && GetById(s', model.value.id) == model
      && (forall id :: id != model.value.id ==> GetById(s', id) == GetById(s, id))
  {
  }

  /** `DeleteAsync` as written: the existence check compares the unawaited
      lookup task with null, which never holds, so deleting a missing
      customer is a silent no-op. */
  function Delete(s: Store, id: Id): (r: Result<Store, Error>)
    ensures r.Success?
    ensures r.value.customers == s.customers - {id}
    ensures id !in s.customers ==> r.value == s
  {
    Success(s.(customers := s.customers - {id}))
  }

  /** `DeleteAsync` as evidently intended: a missing customer raises. */
  function DeleteChecked(s: Store, id: Id): (r: Result<Store, Error>)
    ensures r.Failure? <==> id !in s.customers
    ensures r.Failure? ==> r.error == Market(CustomerNotFound)
    ensures r.Success? ==> r.value.customers == s.customers - {id} && OnlyCustomersChange(s, r.value)
  {
    if id !in s.customers then Failure(Market(CustomerNotFound))
    else Delete(s, id)
  }

  /** The two deletes agree on stored ids and differ on every missing one. */
  lemma DeleteCheckIsDead(s: Store, id: Id)
    ensures id in s.customers ==> Delete(s, id) == DeleteChecked(s, id)
    ensures id !in s.customers ==> Delete(s, id) == Success(s) && DeleteChecked(s, id) == Failure(Market(CustomerNotFound))
  {
  }

  /** Some line of one of customer `c`'s receipts is for product `productId`:
      stated line by line. */
  ghost predicate Bought(s: Store, c: Customer, productId: Id) {
    exists l :: l in s.lines && l.productId == productId
      && l.receiptId in s.receipts && s.receipts[l.receiptId].customerId == c.id
  }

  /** The source's test, receipt by receipt: one of the customer's receipts
      has a line for the product. */
  predicate HasReceiptWithProduct(s: Store, c: Customer, productId: Id) {
    exists rid :: rid in s.receipts && s.receipts[rid].customerId == c.id
      && FindLine(s.lines, rid, productId).Some?
  }

  /** The receipt-by-receipt test and the line-by-line statement agree. */
  lemma ReceiptTestMatchesLines(s: Store, c: Customer, productId: Id)
    ensures HasReceiptWithProduct(s, c, productId) <==> Bought(s, c, productId)
  {
    if HasReceiptWithProduct(s, c, productId) {
      var rid :| rid in s.receipts && s.receipts[rid].customerId == c.id && FindLine(s.lines, rid, productId).Some?;
      var l := s.lines[FindLine(s.lines, rid, productId).value];
      assert l in s.lines && l.productId == productId && l.receiptId == rid;
    }
    if Bought(s, c, productId) {
      var l :| l in s.lines && l.productId == productId
        && l.receiptId in s.receipts && s.receipts[l.receiptId].customerId == c.id;
      assert HasLine(s.lines, l.receiptId, productId);
    }
  }

  /** `GetCustomersByProductIdAsync`: the customers of the listing `all` with
      a receipt holding a line for the product. */
  function CustomersByProduct(s: Store, all: seq<Customer>, productId: Id): (r: seq<Customer>)
    ensures forall c :: c in r <==> c in all && HasReceiptWithProduct(s, c, productId)
  {
    Filter(all, (c: Customer) => HasReceiptWithProduct(s, c, productId))
  }

  /** A customer is in the answer exactly when it is listed and one of its
      receipts has a line for the product; the answer keeps the listing's
      order; and it is empty when no line is for the product. */
  lemma CustomersByProductMeaning(s: Store, all: seq<Customer>, productId: Id)
    ensures forall c :: c in CustomersByProduct(s, all, productId) <==> c in all && Bought(s, c, productId)
    ensures IsSubsequence(CustomersByProduct(s, all, productId), all)
    ensures (forall l :: l in s.lines ==> l.productId != productId) ==> CustomersByProduct(s, all, productId) == []
  {
    forall c ensures HasReceiptWithProduct(s, c, productId) <==> Bought(s, c, productId) {
      ReceiptTestMatchesLines(s, c, productId);
    }
    FilterIsSubsequence(all, (c: Customer) => HasReceiptWithProduct(s, c, productId));
    if forall l :: l in s.lines ==> l.productId != productId {
      FilterNone(all, (c: Customer) => HasReceiptWithProduct(s, c, productId));
    }
  }

  /** Over a listing of the whole customers table, a customer is in the answer
      exactly when it is stored and bought the product. */
  lemma CustomersByProductOverStore(s: Store, all: seq<Customer>, productId: Id)
    requires ListsTable(all, s.customers)
    ensures forall c :: c in CustomersByProduct(s, all, productId) <==> c in s.customers.Values && Bought(s, c, productId)
  {
    CustomersByProductMeaning(s, all, productId);
  }

  /** Every write of the customers table keeps the state invariant: each
      customer is stored under its own id, and no other table is touched. */
  lemma WritesPreserveValid(s: Store, model: Option<CustomerModel>, id: Id)
    requires Valid(s)
    ensures Add(s, model).Success? ==> Valid(Add(s, model).value)
    ensures Update(s, model).Success? ==> Valid(Update(s, model).value)
    ensures Valid(Delete(s, id).value)
  {
  }
}
