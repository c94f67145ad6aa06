/** `ProductsController`: the request handler. `Post` and `Put` check their input first; every
    action calls the service inside a try block, and turns what the service returned or threw
    into a status code and an optional body. */
module Controllers {
  import opened Models
  import opened Abstractions
  import opened Services

  const ProductNotFound := "Product not found"
  const GetError := "An error occurred while retrieving the product"
  const CreateError := "An error occurred while creating the product"
  const UpdateError := "An error occurred while updating the product"
  const DeleteError := "An error occurred while deleting the product"

  /** The body of a response: none, a product, or an object whose one property is `message`. */
  datatype Body = NoBody | ProductBody(product: Product) | MessageBody(message: string)

  /** An action's result: the HTTP status code and the body. */
  datatype Response = Response(status: int, body: Body)

  /** A response together with the service calls made to produce it, in order. */
  datatype Exchange = Exchange(response: Response, calls: seq<Call>)

  const BadRequest := Response(400, NoBody)
  const NotFound := Response(404, NoBody)
  const NoContent := Response(204, NoBody)

  /** The catch clauses of `Get` and `Delete`: a KeyNotFoundException is a 404 with a fixed
      message; any other exception is a 500 with the action's generic message. */
  function CatchKeyNotFound(f: Fault, generic: string): (r: Response)
    ensures f.KeyNotFound? ==> r == Response(404, MessageBody(ProductNotFound))
    ensures !f.KeyNotFound? ==> r == Response(500, MessageBody(generic))
  {
    if f.KeyNotFound? then Response(404, MessageBody(ProductNotFound))
    else Response(500, MessageBody(generic))
  }

  /** The catch clauses of `Post` and `Put`: an ArgumentException is a 400 carrying its
      message; any other exception, a KeyNotFoundException included, is a 500 with the
      action's generic message. */
  function CatchArgument(f: Fault, generic: string): (r: Response)
    ensures f.ArgumentError? ==> r == Response(400, MessageBody(f.message))
    ensures !f.ArgumentError? ==> r == Response(500, MessageBody(generic))
  {
    if f.ArgumentError? then Response(400, MessageBody(f.message))
    else Response(500, MessageBody(generic))
  }

  /** `Get(id)`: one lookup; null is a bare 404, a record is a 200 carrying it. */
  function HandleGet(svc: Service, id: Int32): (x: Exchange)
    ensures x.calls == [GetByIdCall(id)]
    ensures x.response.status == 200 <==> svc.getById(id).Returned? && svc.getById(id).value.Some?
    ensures x.response.status == 200 ==> x.response.body == ProductBody(svc.getById(id).value.value)
    ensures x.response == NotFound <==> svc.getById(id) == Returned(None)
    ensures svc.getById(id).Threw? ==> x.response == CatchKeyNotFound(svc.getById(id).fault, GetError)
  {
    var calls := [GetByIdCall(id)];
    match svc.getById(id)
    case Threw(f) => Exchange(CatchKeyNotFound(f, GetError), calls)
    case Returned(None) => Exchange(NotFound, calls)
    case Returned(Some(p)) => Exchange(Response(200, ProductBody(p)), calls)
  }

  /** `Post(product)`: only a null product is refused up front (no SKU or price check); a
      null from `Create` is a bare 400, a record a 201 carrying it. */
  function HandlePost(svc: Service, product: Option<Product>): (x: Exchange)
    ensures product.None? ==> x == Exchange(BadRequest, [])
    ensures product.Some? ==> x.calls == [CreateCall(product.value)]
    ensures x.response.status == 201 <==>
              product.Some? && svc.create(product.value).Returned? && svc.create(product.value).value.Some?
    ensures x.response.status == 201 ==> x.response.body == ProductBody(svc.create(product.value).value.value)
    ensures product.Some? && svc.create(product.value) == Returned(None) ==> x.response == BadRequest
    ensures product.Some? && svc.create(product.value).Threw? ==>
              x.response == CatchArgument(svc.create(product.value).fault, CreateError)
  {
    match product
    case None => Exchange(BadRequest, [])
    case Some(p) =>
      var calls := [CreateCall(p)];
      match svc.create(p)
      case Threw(f) => Exchange(CatchArgument(f, CreateError), calls)
      case Returned(None) => Exchange(BadRequest, calls)
      case Returned(Some(created)) => Exchange(Response(201, ProductBody(created)), calls)
  }

  /** The guard of `Put`: a null product, id 0, a null SKU or a price that is not positive. */
  predicate PutRefuses(product: Option<Product>) {
    product.None? || product.value.id == 0 || product.value.sku.None? || product.value.price <= 0.0
  }

  /** `Put(product)`: the guard answers 400 without any call; then one lookup by the
      product's id; null is a 404 and `Update` is not called; otherwise `Update` is called once
      and success is a 204. A throw from either call goes through the same catch clauses. */
  function HandlePut(svc: Service, product: Option<Product>): (x: Exchange)
    ensures PutRefuses(product) <==> x.calls == []
    ensures PutRefuses(product) ==> x.response == BadRequest
    ensures !PutRefuses(product) ==>
              var p := product.value;
              var lookup := svc.getById(p.id);
              && (x.calls == [GetByIdCall(p.id), UpdateCall(p)] <==> lookup.Returned? && lookup.value.Some?)
              && (x.calls == [GetByIdCall(p.id)] <==> !(lookup.Returned? && lookup.value.Some?))
              && (lookup == Returned(None) ==> x.response == NotFound)
              && (lookup.Threw? ==> x.response == CatchArgument(lookup.fault, UpdateError))
              && (lookup.Returned? && lookup.value.Some? ==>
                    x.response == match svc.update(p)
                                  case Returned(_) => NoContent
                                  case Threw(f) => CatchArgument(f, UpdateError))
  {
    if PutRefuses(product) then Exchange(BadRequest, [])
    else
      var p := product.value;
      match svc.getById(p.id)
      case Threw(f) => Exchange(CatchArgument(f, UpdateError), [GetByIdCall(p.id)])
      case Returned(None) => Exchange(NotFound, [GetByIdCall(p.id)])
      case Returned(Some(_)) =>
        var calls := [GetByIdCall(p.id), UpdateCall(p)];
        match svc.update(p)
        case Threw(f) => Exchange(CatchArgument(f, UpdateError), calls)
        case Returned(_) => Exchange(NoContent, calls)
  }

  /** `Delete(id)`: one lookup; null is a 404 and the service's `Delete` is not called;
      otherwise `Delete` is called once, with the very record the lookup returned, and
      success is a 204. */
  function HandleDelete(svc: Service, id: Int32): (x: Exchange)
    ensures |x.calls| >= 1 && x.calls[0] == GetByIdCall(id)
    ensures svc.getById(id) == Returned(None) ==> x == Exchange(NotFound, [GetByIdCall(id)])
    ensures svc.getById(id).Threw? ==>
              x == Exchange(CatchKeyNotFound(svc.getById(id).fault, DeleteError), [GetByIdCall(id)])
    ensures svc.getById(id).Returned? && svc.getById(id).value.Some? ==>
              var p := svc.getById(id).value.value;
              && x.calls == [GetByIdCall(id), DeleteCall(p)]
              && x.response == match svc.delete(p)
                               case Returned(_) => NoContent
                               case Threw(f) => CatchKeyNotFound(f, DeleteError)
  {
    match svc.getById(id)
    case Threw(f) => Exchange(CatchKeyNotFound(f, DeleteError), [GetByIdCall(id)])
    case Returned(None) => Exchange(NotFound, [GetByIdCall(id)])
    case Returned(Some(p)) =>
      var calls := [GetByIdCall(id), DeleteCall(p)];
      match svc.delete(p)
      case Threw(f) => Exchange(CatchKeyNotFound(f, DeleteError), calls)
      case Returned(_) => Exchange(NoContent, calls)
  }

  /** The controller over the concrete store. Each action answers what the handler answers
      for the store's state on entry, and leaves the store as the handler's calls leave it. */
  class ProductsController {
    const productService: ProductService

    constructor (productsService: ProductService)
      ensures productService == productsService
    {
      productService := productsService;
    }

    method Get(id: Int32) returns (r: Response)
      ensures r == HandleGet(AsService(productService.Snapshot()), id).response
    {
      GetOnStore(productService.Snapshot(), id);
      var product := productService.GetById(id);
      if product.None? {
        return NotFound;
      }
      return Response(200, ProductBody(product.value));
    }

    method Post(product: Option<Product>) returns (r: Response)
      modifies productService
      ensures var x := HandlePost(AsService(old(productService.Snapshot())), product);
              r == x.response && productService.Snapshot() == Replay(old(productService.Snapshot()), x.calls)
      ensures old(productService.Snapshot().Valid()) && old(productService.nextId) < MaxInt32 ==>
                productService.Snapshot().Valid()
    {
      if product.None? {
        return BadRequest;
      }
      PostOnStore(productService.Snapshot(), product.value);
      var created := productService.Create(product.value);
      match created
      case Threw(f) =>
        r := CatchArgument(f, CreateError);
      case Returned(p) =>
        r := Response(201, ProductBody(p));
    }

    method Put(product: Option<Product>) returns (r: Response)
      modifies productService
      ensures var x := HandlePut(AsService(old(productService.Snapshot())), product);
              r == x.response && productService.Snapshot() == Replay(old(productService.Snapshot()), x.calls)
      ensures old(productService.Snapshot().Valid()) ==> productService.Snapshot().Valid()
    {
      if PutRefuses(product) {
        return BadRequest;
      }
      PutOnStore(productService.Snapshot(), product);
      var p := product.value;
      var existing := productService.GetById(p.id);
      if existing.None? {
        return NotFound;
      }
      var updated := productService.Update(p);
      match updated
      case Threw(f) =>
        r := CatchArgument(f, UpdateError);
      case Returned(_) =>
        r := NoContent;
    }

    method Delete(id: Int32) returns (r: Response)
      modifies productService
      ensures var x := HandleDelete(AsService(old(productService.Snapshot())), id);
              r == x.response && productService.Snapshot() == Replay(old(productService.Snapshot()), x.calls)
      ensures old(productService.Snapshot().Valid()) ==> productService.Snapshot().Valid()
    {
      DeleteOnStore(productService.Snapshot(), id);
      var product := productService.GetById(id);
      if product.None? {
        return NotFound;
      }
      productService.Delete(product.value);
      r := NoContent;
    }
  }

  // ---------------------------------------------------------------------------------------
  // The handler and the concrete store together

  /** `Get` on the real store: a bare 404 for an id it does not hold, else a 200 with the record. */
  lemma GetOnStore(st: Store, id: Int32)
    ensures HandleGet(AsService(st), id).response ==
              match st.GetById(id)
              case None => NotFound
              case Some(q) => Response(200, ProductBody(q))
  {
    assert AsService(st).getById(id) == Returned(st.GetById(id));
  }

  /** `Post` of a product on the real store: one `Create`, whose outcome decides the answer
      and the new state. */
  lemma PostOnStore(st: Store, p: Product)
    ensures var x := HandlePost(AsService(st), Some(p));
            && x.calls == [CreateCall(p)]
            && Replay(st, x.calls) == st.Create(p).1
            && x.response == match st.Create(p).0
                             case Returned(q) => Response(201, ProductBody(q))
                             case Threw(f) => CatchArgument(f, CreateError)
  {
    ReplayOne(st, CreateCall(p));
  }

  /** `Put` past the guard on the real store: an id it does not hold is a bare 404 that changes
      nothing; otherwise one `Update`, whose outcome decides the answer and the new state. */
  lemma PutOnStore(st: Store, product: Option<Product>)
    requires !PutRefuses(product)
    ensures var p := product.value;
            var x := HandlePut(AsService(st), product);
            match st.GetById(p.id)
            case None => x == Exchange(NotFound, [GetByIdCall(p.id)]) && Replay(st, x.calls) == st
            case Some(_) =>
              && x.calls == [GetByIdCall(p.id), UpdateCall(p)]
              && Replay(st, x.calls) == st.Update(p).1
              && x.response == match st.Update(p).0
                               case Returned(_) => NoContent
                               case Threw(f) => CatchArgument(f, UpdateError)
  {
    var p := product.value;
    assert AsService(st).getById(p.id) == Returned(st.GetById(p.id));
    match st.GetById(p.id)
    case None => ReplayOne(st, GetByIdCall(p.id));
    case Some(_) => ReplayLookupThenUpdate(st, p.id, p);
  }

  /** `Delete` on the real store: an id it does not hold is a bare 404 that changes nothing;
      otherwise the looked-up record itself is passed to the store's `Delete` and the answer is 204. */
  lemma DeleteOnStore(st: Store, id: Int32)
    ensures var x := HandleDelete(AsService(st), id);
            match st.GetById(id)
            case None => x == Exchange(NotFound, [GetByIdCall(id)]) && Replay(st, x.calls) == st
            case Some(q) => x == Exchange(NoContent, [GetByIdCall(id), DeleteCall(q)]) && Replay(st, x.calls) == st.Delete(q)
  {
    assert AsService(st).getById(id) == Returned(st.GetById(id));
    match st.GetById(id)
    case None => ReplayOne(st, GetByIdCall(id));
    case Some(q) => ReplayLookupThenDelete(st, id, q);
  }

  /** Get, Put and Delete of an id the store does not hold answer a bare 404, and change nothing. */
  lemma AbsentIdIsNotFound(st: Store, id: Int32, p: Product)
    requires st.GetById(id).None?
    ensures HandleGet(AsService(st), id).response == NotFound
    ensures HandleDelete(AsService(st), id).response == NotFound
    ensures Replay(st, HandleDelete(AsService(st), id).calls) == st
    ensures p.id == id && !PutRefuses(Some(p)) ==>
              HandlePut(AsService(st), Some(p)).response == NotFound &&
              Replay(st, HandlePut(AsService(st), Some(p)).calls) == st
  {
  }

  /** With the real store, `Post` of any product whose price is not negative is a 201
      carrying the caller's record with the counter's value as its id, and the new state is
      that of the store's `Create`. */
  lemma PostCreatesNext(st: Store, p: Product)
    requires p.price >= 0.0
    ensures var x := HandlePost(AsService(st), Some(p));
            x.response == Response(201, ProductBody(p.(id := st.nextId))) &&
            Replay(st, x.calls) == st.Create(p).1
  {
    PostOnStore(st, p);
    var r := st.Create(p).0;
    assert r.Returned? && r.value == p.(id := st.nextId);
  }

  /** With the real store, `Post` of any product whose price is not negative — zero price and
      null SKU included — is a 201 carrying the record with the next id, and a lookup of that
      id then answers 200 with it. */
  lemma PostThenGet(st: Store, p: Product)
    requires st.Valid() && st.nextId < MaxInt32 && p.price >= 0.0
    ensures HandlePost(AsService(st), Some(p)).response == Response(201, ProductBody(p.(id := st.nextId)))
    ensures var after := Replay(st, HandlePost(AsService(st), Some(p)).calls);
            after.Valid() &&
            HandleGet(AsService(after), st.nextId).response == Response(200, ProductBody(p.(id := st.nextId)))
  {
    PostCreatesNext(st, p);
    var after := st.Create(p).1;
    CreateKeepsValid(st, p);
    CreateThenGetById(st, p, st.nextId);
    GetOnStore(after, st.nextId);
  }

  /** With the real store, `Post` of a product with a negative price is a 400 carrying the
      store's message, and the store is unchanged. */
  lemma PostNegativePrice(st: Store, p: Product)
    requires p.price < 0.0
    ensures HandlePost(AsService(st), Some(p)).response == Response(400, MessageBody(PriceMessage))
    ensures Replay(st, HandlePost(AsService(st), Some(p)).calls) == st
  {
    assert HandlePost(AsService(st), Some(p)).calls == [CreateCall(p)];
  }

  /** With the real store, a `Put` that passes the guard on a stored id is a 204, and a lookup
      then answers 200 with exactly the new description, SKU and price under the same id. */
  lemma PutThenGet(st: Store, p: Product)
    requires st.Valid() && !PutRefuses(Some(p)) && st.GetById(p.id).Some?
    ensures HandlePut(AsService(st), Some(p)).response == NoContent
    ensures var after := Replay(st, HandlePut(AsService(st), Some(p)).calls);
            after.Valid() && |after.GetAll()| == |st.GetAll()| &&
            HandleGet(AsService(after), p.id).response == Response(200, ProductBody(p))
  {
    PutOnStore(st, Some(p));
    var after := st.Update(p).1;
    UpdateKeepsValid(st, p);
    GetOnStore(after, p.id);
  }

  /** With the real store, `Delete` of a stored id is a 204 that removes exactly that record;
      a lookup of the id then answers a bare 404 and every other id finds what it found before. */
  lemma DeleteThenGet(st: Store, id: Int32, other: Int32)
    requires st.Valid() && st.GetById(id).Some?
    ensures HandleDelete(AsService(st), id).response == NoContent
    ensures var after := Replay(st, HandleDelete(AsService(st), id).calls);
            && after.Valid()
            && |after.GetAll()| == |st.GetAll()| - 1
            && HandleGet(AsService(after), id).response == NotFound
            && (other != id ==> HandleGet(AsService(after), other) == HandleGet(AsService(st), other))
  {
    var q := st.GetById(id).value;
    DeleteOnStore(st, id);
    var after := st.Delete(q);
    assert q in st.products && q.id == id;
    DeleteKeepsValid(st, q);
    DeleteStoredRecord(st, q);
    GetOnStore(after, id);
    if other != id {
      DeleteKeepsOtherIds(st, q, other);
      GetOnStore(after, other);
      GetOnStore(st, other);
    }
  }

  /** Whatever the service throws, no exception text reaches the caller except the message
      of an ArgumentException, and only from `Post` and `Put`. */
  lemma NoRawExceptionText(svc: Service, id: Int32, product: Option<Product>)
    ensures var r := HandleGet(svc, id).response;
            r.body.MessageBody? ==> r.body.message in {ProductNotFound, GetError}
    ensures var r := HandleDelete(svc, id).response;
            r.body.MessageBody? ==> r.body.message in {ProductNotFound, DeleteError}
    ensures var r := HandlePost(svc, product).response;
            r.body.MessageBody? ==>
              r.body.message == CreateError ||
              (product.Some? && svc.create(product.value) == Threw(ArgumentError(r.body.message)))
    ensures var r := HandlePut(svc, product).response;
            r.body.MessageBody? ==>
              r.body.message == UpdateError ||
              (product.Some? && (svc.getById(product.value.id) == Threw(ArgumentError(r.body.message)) ||
                                 svc.update(product.value) == Threw(ArgumentError(r.body.message))))
  {
  }

  // ---------------------------------------------------------------------------------------
  // Whole scenarios on a fresh store

  /** Create, read, update, read, delete, read through the controller on a fresh store. */
  method CrudOnFreshStore() returns (responses: seq<Response>)
    ensures responses == [
      Response(201, ProductBody(Product(1, None, Some("X"), 10.0))),
      Response(200, ProductBody(Product(1, None, Some("X"), 10.0))),
      NoContent,
      Response(200, ProductBody(Product(1, None, Some("Y"), 20.0))),
      NoContent,
      NotFound]
  {
    var service := new ProductService();
    var controller := new ProductsController(service);
    ScenarioCreate();
    var created := controller.Post(Some(ScenarioFirst.(id := 0)));
    ScenarioRead(ScenarioFirst);
    var read := controller.Get(1);
    ScenarioUpdate();
    var updated := controller.Put(Some(ScenarioSecond));
    ScenarioRead(ScenarioSecond);
    var reread := controller.Get(1);
    ScenarioDelete();
    var deleted := controller.Delete(1);
    ScenarioReadNothing();
    var gone := controller.Get(1);
    responses := [created, read, updated, reread, deleted, gone];
  }

  const ScenarioFirst := Product(1, None, Some("X"), 10.0)
  const ScenarioSecond := Product(1, None, Some("Y"), 20.0)

  // The answers and states of `CrudOnFreshStore`, one request at a time.

  lemma ScenarioCreate()
    ensures var x := HandlePost(AsService(Fresh), Some(ScenarioFirst.(id := 0)));
            x.response == Response(201, ProductBody(ScenarioFirst)) && Replay(Fresh, x.calls) == Store([ScenarioFirst], 2)
  {
    PostOnStore(Fresh, ScenarioFirst.(id := 0));
  }

  lemma ScenarioRead(p: Product)
    requires p.id == 1
    ensures HandleGet(AsService(Store([p], 2)), 1).response == Response(200, ProductBody(p))
  {
    assert Store([p], 2).GetById(1) == Some(p);
    GetOnStore(Store([p], 2), 1);
  }

  lemma ScenarioUpdate()
    ensures var x := HandlePut(AsService(Store([ScenarioFirst], 2)), Some(ScenarioSecond));
            x.response == NoContent && Replay(Store([ScenarioFirst], 2), x.calls) == Store([ScenarioSecond], 2)
  {
    var x, y := ScenarioFirst, ScenarioSecond;
    assert Store([x], 2).GetById(1) == Some(x);
    PutOnStore(Store([x], 2), Some(y));
    var r := Store([x], 2).Update(y);
    assert r.0.Returned?;
    assert r.1.GetById(1) == Some(y);
    assert |r.1.products| == 1 && r.1.products[0] == y;
    assert r.1.products == [y];
  }

  lemma ScenarioDelete()
    ensures var x := HandleDelete(AsService(Store([ScenarioSecond], 2)), 1);
            x.response == NoContent && Replay(Store([ScenarioSecond], 2), x.calls) == Store([], 2)
  {
    var y := ScenarioSecond;
    assert Store([y], 2).GetById(1) == Some(y);
    DeleteOnStore(Store([y], 2), 1);
    assert Store([y], 2).Delete(y) == Store([], 2);
  }

  lemma ScenarioReadNothing()
    ensures HandleGet(AsService(Store([], 2)), 1).response == NotFound
  {
    GetOnStore(Store([], 2), 1);
  }
}
