# ProductApiBackendChallenge: a Dafny model of the product store and its request handler

The repository is a small ASP.NET Web API for a product catalogue. This project models its two
parts:

- `ProductService` is an in-memory store. It holds a list of products and an id counter that
  starts at 1, and offers `Create`, `GetById`, `GetAll`, `Update` and `Delete`.
- `ProductsController` is the request handler with actions `Get`, `Post`, `Put` and `Delete`.
  `Post` and `Put` check their input first. Every action calls the store through the
  `IProductsService` interface inside a try/catch, and turns what the store returned or threw
  into a status code and an optional body.

The project has four modules, one file each:

- `Models` (`models.dfy`):
  - the `Product` record;
  - C#'s 32-bit `int` (`Int32`) and the wrap-around of `_nextId++` (`Increment`);
  - the exceptions a call can throw: `Fault`, which is `ArgumentError`, `KeyNotFound` or
    `OtherError`;
  - `Outcome`, which says whether a call returns or throws.
- `Abstractions` (`abstractions.dfy`): the interface `IProductsService` as a value `Service`.
  It records what each method returns or throws for each argument. Any value of this type is a
  possible mock. `Call` records one call made through the interface.
- `Services` (`services.dfy`): the store, in two forms.
  - `Store` is the store's state as a value. Its member functions are the specification of
    each operation.
  - The class `ProductService` has the same two fields. Its methods update them in place. Each
    method ensures that its result and new state are exactly what the `Store` function gives
    for the old state.
  - The invariant `Store.Valid` says the counter is positive, ids lie in [1, counter) and
    strictly increase in list order, and no price is negative. The lemmas prove that every
    operation keeps it.
- `Controllers` (`controllers.dfy`): the request handler, in two forms.
  - `HandleGet`, `HandlePost`, `HandlePut` and `HandleDelete` are pure functions from a
    `Service` and the request to the response and the exact list of service calls made. This
    is the view the mock-based tests take: "called once" and "never called" are stated on that
    list.
  - The class `ProductsController` runs over a concrete `ProductService`. Each action returns
    what the handler returns for the store's state on entry, `AsService(store)`. It leaves the
    store as replaying the handler's calls leaves it (`Replay`).
  - End-to-end lemmas connect the two forms.

Three behaviours of the code are easy to miss:

- `Post` refuses only a null product (`ProductsController.cs:44-47`). It does not check the
  SKU or the price. With the real store, a `Post` with price 0 or a null SKU answers 201
  (`PostThenGet`). The tests that expect 400 for these inputs get it only because their mocked
  `Create` returns null (`ProductsController.cs:52-55`).
- `Create` refuses only a negative price (`ProductService.cs:13-16`), although its message
  says "greater than 0". So a stored price can be 0, and the invariant is `price >= 0`, not
  `price > 0`.
- In .NET, `KeyNotFoundException` is not an `ArgumentException`. So in `Post` and `Put`, a
  not-found error from the store is a 500 with the generic message, not a 400 or a 404.

## Model

| member | source | states |
|---|---|---|
| Models.Increment | HRBackendExercise.API/Services/ProductService.cs:18 | `_nextId++` gives the Int32 congruent to the old value plus one modulo 2^32; below int.MaxValue it is larger than the old value |
| Services.FirstIndex | HRBackendExercise.API/Services/ProductService.cs:25 | `FirstOrDefault`: the index found matches, and no earlier element matches; no index means no element matches |
| Services.RemoveFirst | HRBackendExercise.API/Services/ProductService.cs:58 | `List.Remove`: unchanged if the value is absent; otherwise removes the first occurrence and keeps the order of the rest, so the length drops by one and the multiset loses exactly that value |
| Services.Store.GetById | HRBackendExercise.API/Services/ProductService.cs:23-28 | null exactly when no stored record has the id; otherwise the first stored record with that id |
| Services.Store.Create | HRBackendExercise.API/Services/ProductService.cs:11-21 | throws exactly when the price is negative, with the argument error "Price must be greater than 0" and the store unchanged; otherwise returns the caller's record with the old counter as its id (the caller's id is overwritten), appends it at the end, and advances the counter |
| Services.Store.Update | HRBackendExercise.API/Services/ProductService.cs:35-51 | not-found exactly when no record has the id, checked before the price; the price error exactly when the record is found and the price is ≤ 0; a throw leaves the store unchanged; the counter, the length and every stored id are kept, so are records with other ids; on success a lookup of the id gives the new description, SKU and price |
| Services.Store.Delete | HRBackendExercise.API/Services/ProductService.cs:53-60 | a no-op when no stored id matches or the argument is not stored; otherwise exactly one copy of the argument is removed; the counter is kept |
| Services.ProductService.constructor | HRBackendExercise.API/Services/ProductService.cs:8-9 | a new store is empty and its counter is 1 |
| Services.ProductService.Create | HRBackendExercise.API/Services/ProductService.cs:11-21 | the result and the new fields are those of `Store.Create` on the old fields; the invariant is kept while the counter is below int.MaxValue |
| Services.ProductService.Update | HRBackendExercise.API/Services/ProductService.cs:35-51 | the in-place overwrite of description, SKU and price gives the result and fields of `Store.Update`; the invariant is kept |
| Services.ProductService.Delete | HRBackendExercise.API/Services/ProductService.cs:53-60 | the new fields are those of `Store.Delete`; the invariant is kept |
| Services.CreateKeepsValid | HRBackendExercise.API/Services/ProductService.cs:13-20 | `Create` keeps ids positive, increasing, below the counter, and prices non-negative, while the counter is below int.MaxValue |
| Services.UpdateKeepsValid | HRBackendExercise.API/Services/ProductService.cs:37-50 | `Update` keeps the invariant |
| Services.DeleteKeepsValid | HRBackendExercise.API/Services/ProductService.cs:55-59 | `Delete` keeps the invariant |
| Services.ApplyKeepsValid | HRBackendExercise.API/Services/ProductService.cs:11-60 | any single call keeps the invariant, and only a creation can advance the counter, by at most one |
| Services.ReplayKeepsValid | HRBackendExercise.API/Services/ProductService.cs:8-60 | any sequence of calls that cannot push the counter past int.MaxValue keeps the invariant, so stored ids stay unique, at least 1 and below the counter |
| Services.FreshIsValid | HRBackendExercise.API/Services/ProductService.cs:8-9 | a new store, empty with the counter at 1, satisfies the invariant |
| Services.ReplayFromFreshKeepsValid | HRBackendExercise.API/Services/ProductService.cs:8-60 | from a new store, any sequence of calls with fewer than int.MaxValue creations keeps stored ids unique, at least 1 and below the counter, and the counter is at most one more than the number of creations |
| Services.AsService | HRBackendExercise.API/Services/ProductService.cs:6-60 | the concrete store used as an `IProductsService`: every call is answered from the state on entry; `GetById`, `GetAll` and `Update` answer as the store's own operations; `Create` throws exactly when the store's `Create` does, with the same exception, and otherwise returns the created record, never null; `Delete` never throws |
| Services.CreateThenGetById | HRBackendExercise.API/Services/ProductService.cs:18-28 | with a non-negative price `Create` succeeds, even when the counter is at int.MaxValue; looking up the new id then finds the created record, and every other id finds what it found before |
| Services.FoundIffStored | HRBackendExercise.API/Services/ProductService.cs:25-27 | with unique ids, `GetById(id)` returns a record exactly when that record is stored with that id |
| Services.DeleteStoredRecord | HRBackendExercise.API/Services/ProductService.cs:55-58 | deleting a stored record removes exactly it, keeps the order of the others, and its id is no longer found |
| Services.DeleteKeepsOtherIds | HRBackendExercise.API/Services/ProductService.cs:55-58 | deleting a stored record does not change what any other id finds |
| Services.CreationsAreConsecutive | HRBackendExercise.API/Services/ProductService.cs:18-20 | creating several products in turn appends them in order, each with the next counter value as its id |
| Services.FreshStoreIdsCountFromOne | HRBackendExercise.API/Services/ProductService.cs:8-20 | on a new store the n-th creation gets id n, and `GetAll` lists the creations in order |
| Services.CreateThreeOnNewStore | HRBackendExercise.API.Tests/Hidden/ServiceTests.cs:9-39 | on the object, three creations get ids 1, 2 and 3 whatever ids the caller set; a refused negative price spends no id; `GetAll` lists the three in order |
| Controllers.CatchKeyNotFound | HRBackendExercise.API/Controllers/ProductsController.cs:31-38 | a not-found exception is a 404 with "Product not found"; any other exception is a 500 with the action's fixed message |
| Controllers.CatchArgument | HRBackendExercise.API/Controllers/ProductsController.cs:58-65 | an argument exception is a 400 with its message; any other exception, not-found included, is a 500 with the action's fixed message |
| Controllers.HandleGet | HRBackendExercise.API/Controllers/ProductsController.cs:20-39 | exactly one `GetById(id)` call; 200 exactly when it returns a record, with that record as the body; a bare 404 exactly on null; a throw goes through the not-found/other catch clauses |
| Controllers.HandlePost | HRBackendExercise.API/Controllers/ProductsController.cs:41-66 | a null product is a bare 400 with no call; otherwise exactly one `Create` call; 201 with the created record exactly when `Create` returns one; a bare 400 when it returns null; a throw goes through the argument/other catch clauses |
| Controllers.HandlePut | HRBackendExercise.API/Controllers/ProductsController.cs:69-96 | no call at all exactly when the product is null, its id is 0, its SKU is null or its price is ≤ 0, and then a bare 400; otherwise `GetById(product.Id)` and then `Update(product)` exactly when the lookup returned a record; null is a bare 404; a successful update is a 204; a throw from either call goes through the argument/other catch clauses |
| Controllers.HandleDelete | HRBackendExercise.API/Controllers/ProductsController.cs:98-119 | `GetById(id)` first; null is a bare 404 and the service's `Delete` is not called; otherwise exactly one `Delete` call, with the record the lookup returned, and a 204; throws go through the not-found/other catch clauses |
| Controllers.ProductsController.constructor | HRBackendExercise.API/Controllers/ProductsController.cs:14-17 | the controller keeps the service it is given |
| Controllers.ProductsController.Get | HRBackendExercise.API/Controllers/ProductsController.cs:20-39 | answers as `HandleGet` does for the store's current state, and changes nothing |
| Controllers.ProductsController.Post | HRBackendExercise.API/Controllers/ProductsController.cs:41-66 | answers as `HandlePost` does for the state on entry; the new state is the old one after the handler's calls; the invariant is kept below int.MaxValue |
| Controllers.ProductsController.Put | HRBackendExercise.API/Controllers/ProductsController.cs:69-96 | answers as `HandlePut` does for the state on entry; the new state is the old one after the handler's calls; the invariant is kept |
| Controllers.ProductsController.Delete | HRBackendExercise.API/Controllers/ProductsController.cs:98-119 | answers as `HandleDelete` does for the state on entry; the new state is the old one after the handler's calls; the invariant is kept |
| Controllers.GetOnStore | HRBackendExercise.API/Controllers/ProductsController.cs:24-29 | with the real store, `Get` is a bare 404 for an id it does not hold and a 200 with the stored record otherwise |
| Controllers.PostOnStore | HRBackendExercise.API/Controllers/ProductsController.cs:49-65 | with the real store, `Post` of a product makes one `Create`, whose outcome gives the response (201 or the caught error) and the new state |
| Controllers.PutOnStore | HRBackendExercise.API/Controllers/ProductsController.cs:77-95 | with the real store, a `Put` past the guard for an absent id is a bare 404 that changes nothing; otherwise one `Update`, whose outcome gives the response (204 or the caught error) and the new state |
| Controllers.DeleteOnStore | HRBackendExercise.API/Controllers/ProductsController.cs:101-110 | with the real store, `Delete` of an absent id is a bare 404 that changes nothing; otherwise the looked-up record is deleted and the answer is 204 |
| Controllers.AbsentIdIsNotFound | HRBackendExercise.API/Controllers/ProductsController.cs:79-83 | with the real store, `Get`, `Delete` and a guarded `Put` of an id it does not hold answer a bare 404 and leave the store unchanged |
| Controllers.PostCreatesNext | HRBackendExercise.API/Controllers/ProductsController.cs:49-56 | with the real store, `Post` of any product with a non-negative price, at any counter value, is a 201 carrying the caller's record with the counter's value as its id, and leaves the state the store's `Create` leaves |
| Controllers.PostThenGet | HRBackendExercise.API/Controllers/ProductsController.cs:44-56 | with the real store, `Post` of any product with a non-negative price (price 0 and a null SKU included) is a 201 carrying the record with the next id; a then-following `Get` of that id answers 200 with it, and the invariant holds |
| Controllers.PostNegativePrice | HRBackendExercise.API/Controllers/ProductsController.cs:58-61 | with the real store, `Post` with a negative price is a 400 carrying "Price must be greater than 0", and the store is unchanged |
| Controllers.PutThenGet | HRBackendExercise.API/Controllers/ProductsController.cs:79-86 | with the real store, a `Put` past the guard on a stored id is a 204; afterwards the invariant and the length are kept, and `Get` of the id answers 200 with exactly the `Put` record |
| Controllers.DeleteThenGet | HRBackendExercise.API/Controllers/ProductsController.cs:103-109 | with the real store, `Delete` of a stored id is a 204 that removes one record; afterwards `Get` of that id is a bare 404, every other id answers exactly as before, and the invariant holds |
| Controllers.NoRawExceptionText | HRBackendExercise.API/Controllers/ProductsController.cs:31-117 | for any service behaviour, a message body is one of the action's fixed messages, or, only in `Post` and `Put`, the message of an argument exception the service threw |
| Controllers.CrudOnFreshStore | HRBackendExercise.API/Controllers/ProductsController.cs:20-119 | on a new store, create {SKU "X", price 10} then get, update to {id 1, SKU "Y", price 20}, get, delete and get answer 201, 200, 204, 200 with the new values, 204 and 404 |

## Left out

- ASP.NET plumbing is not modelled: routes, verb attributes, `[FromBody]` binding,
  `ControllerBase` and the `IActionResult` types. A response is a status code plus an optional
  product or `message` body. The tests that check attributes and the name of the `message`
  property by reflection check the framework, not behaviour.
- Moq's setup and verification mechanics are replaced. A mock is any `Service` value, and
  "called once" or "never called" is stated on the exact list of calls the handler makes.
- Object aliasing is not modelled. Records are stored by value. So:
  - `Create` does not store the caller's object, and the caller sees the id only on the
    returned value;
  - the same object created twice does not become two aliases of one record;
  - `Update` changes the stored record, not other references to it;
  - `List.Remove` is modelled by value equality. The controller passes the record that
    `GetById` returned, so on that path value equality and reference equality agree.
- Null arguments to the store are not modelled: `Store.Create`, `Store.Update` and
  `Store.Delete` take a product, never null. In C#, `Create(null)` throws a
  NullReferenceException at `ProductService.cs:13`. On a non-empty list, `Update(null)` and
  `Delete(null)` throw one at lines 37 and 55. On an empty list, `Update(null)` throws the
  not-found exception and `Delete(null)` does nothing. The controller never passes null:
  `Post` and `Put` refuse a null product first (`ProductsController.cs:44`, `72`), and
  `Delete` passes only a record `GetById` returned (`ProductsController.cs:103-108`).
- `Store.GetAll` returns the stored list as a value. In C#, it returns the live `_products`
  list (`ProductService.cs:32`), not a copy, so a caller that keeps it sees later changes.
  No caller in this code keeps it.
- Concurrency is not modelled: the unsynchronised `List`, and two requests at once.
- `decimal` is modelled as `real`. The code only compares prices with zero.
- Dependency injection, startup, and the JSON cloning used by the tests are not modelled.
- `Services.ProductService.GetById` and `Services.ProductService.GetAll` are read-only
  accessors over the fields, and `Services.Store.GetAll` returns the list as it is. Their
  meaning is stated through `Store.GetById` and the creation and update lemmas that read
  `GetAll`.
- Services.ReplayKeepsValid: the invariant is proved only while the counter stays at or below
  int.MaxValue. Past it, `_nextId++` wraps to int.MinValue (`Increment` models the wrap), and
  ids are no longer increasing.
- Services.ProductService.Create: the invariant ensures only applies while the counter is below
  int.MaxValue, for the same reason.
- Services.Store.Update: its contract says records with other ids are unchanged. It does not
  say that, in a store with duplicate ids (which `Valid` excludes), later records with the same
  id are unchanged.
