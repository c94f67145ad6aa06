/** `ProductService`: the in-memory store. It owns the product list and the id counter. */
module Services {
  import opened Models
  import opened Abstractions

  /** The message of both ArgumentExceptions (Create's check lets a zero price through all the same). */
  const PriceMessage := "Price must be greater than 0"
  /** The message of the KeyNotFoundException `Update` throws; callers rely on its "Invalid entity." prefix. */
  const NotFoundMessage := "Invalid entity. Product not found"

  /** The position of the element `FirstOrDefault(matches)` yields: the first one that matches. */
  function FirstIndex(s: seq<Product>, matches: Product -> bool): (r: Option<nat>)
    ensures r.Some? ==> r.value < |s| && matches(s[r.value])
    ensures r.Some? ==> forall j :: 0 <= j < r.value ==> !matches(s[j])
    ensures r.None? ==> forall j :: 0 <= j < |s| ==> !matches(s[j])
  {
    if |s| == 0 then None
    else if matches(s[0]) then Some(0)
    else match FirstIndex(s[1..], matches)
      case None => None
      case Some(k) => assert s[1..][k] == s[k + 1]; Some(k + 1)
  }

  /** `List.Remove(p)`: drops the first element equal to `p`, if there is one, and keeps the
      order of the rest. */
  function RemoveFirst(s: seq<Product>, p: Product): (r: seq<Product>)
    ensures p !in s ==> r == s
    ensures p in s ==> exists i :: 0 <= i < |s| && s[i] == p && p !in s[..i] && r == s[..i] + s[i + 1..]
    ensures p in s ==> |r| == |s| - 1 && multiset(r) == multiset(s) - multiset{p}
  {
    match FirstIndex(s, (q: Product) => q == p)
    case None => s
    case Some(i) =>
      assert s == s[..i] + [s[i]] + s[i + 1..];
      s[..i] + s[i + 1..]
  }

  /** The store's state as a value: `_products` in insertion order, and `_nextId`. */
  datatype Store = Store(products: seq<Product>, nextId: Int32) {

    /** What every operation keeps while the counter has not reached int.MaxValue: the
        counter is positive, every stored id lies in [1, counter), ids strictly increase in
        list order (so they are unique), and no stored price is negative. */
    ghost predicate Valid() {
      && 1 <= nextId
      && (forall i :: 0 <= i < |products| ==> 1 <= products[i].id < nextId && products[i].price >= 0.0)
      && (forall i, j :: 0 <= i < j < |products| ==> products[i].id < products[j].id)
    }

    /** `GetById`: the first stored record whose id is `id`, or null when there is none. */
    function GetById(id: Int32): (r: Option<Product>)
      ensures r.None? <==> forall j :: 0 <= j < |products| ==> products[j].id != id
      ensures r.Some? ==> exists i :: 0 <= i < |products| && products[i] == r.value && r.value.id == id &&
                                      forall j :: 0 <= j < i ==> products[j].id != id
    {
      match FirstIndex(products, (p: Product) => p.id == id)
      case None => None
      case Some(i) => Some(products[i])
    }

    /** `GetAll`: the stored list, in insertion order. */
    function GetAll(): seq<Product> {
      products
    }

    /** `Create`: a negative price throws and changes nothing; otherwise the record is the
        caller's with the counter's value as its id, it is appended, and the counter advances. */
    function Create(p: Product): (r: (Outcome<Product>, Store))
      ensures r.0.Threw? <==> p.price < 0.0
      ensures r.0.Threw? ==> r.0.fault == ArgumentError(PriceMessage) && r.1 == this
      ensures r.0.Returned? ==> r.0.value.id == nextId && r.0.value.(id := p.id) == p
      ensures r.0.Returned? ==> r.1.GetAll() == GetAll() + [r.0.value] && r.1.nextId == Increment(nextId)
    {
      if p.price < 0.0 then
        (Threw(ArgumentError(PriceMessage)), this)
      else
        var created := p.(id := nextId);
        (Returned(created), Store(products + [created], Increment(nextId)))
    }

    /** `Update`: "not found" is checked before the price; either failure changes nothing.
        On success only the first record with the argument's id changes: it takes the
        argument's description, SKU and price and keeps its id and position. */
    function Update(p: Product): (r: (Outcome<()>, Store))
      ensures r.0 == Threw(KeyNotFound(NotFoundMessage)) <==> GetById(p.id).None?
      ensures r.0 == Threw(ArgumentError(PriceMessage)) <==> GetById(p.id).Some? && p.price <= 0.0
      ensures r.0.Returned? <==> GetById(p.id).Some? && p.price > 0.0
      ensures r.0.Threw? ==> r.1 == this
      ensures r.1.nextId == nextId && |r.1.products| == |products|
      ensures forall i :: 0 <= i < |products| ==> r.1.products[i].id == products[i].id
      ensures forall i :: 0 <= i < |products| && products[i].id != p.id ==> r.1.products[i] == products[i]
      ensures r.0.Returned? ==> r.1.GetById(p.id) == Some(p)
    {
      match FirstIndex(products, (q: Product) => q.id == p.id)
      case None => (Threw(KeyNotFound(NotFoundMessage)), this)
      case Some(i) =>
        if p.price <= 0.0 then
          (Threw(ArgumentError(PriceMessage)), this)
        else
          var updated := products[i].(description := p.description, sku := p.sku, price := p.price);
          var after := Store(products[i := updated], nextId);
          assert after.GetById(p.id) == Some(updated) by {
            assert forall j :: 0 <= j < |products| ==> after.products[j].id == products[j].id;
          }
          (Returned(()), after)
    }

    /** `Delete`: when some stored record has the argument's id, the argument itself is removed
        (`List.Remove`); otherwise nothing happens and nothing is thrown. */
    function Delete(p: Product): (r: Store)
      ensures r.nextId == nextId
      ensures GetById(p.id).None? ==> r == this
      ensures p !in products ==> r == this
      ensures p in products ==> |r.products| == |products| - 1 && multiset(r.products) == multiset(products) - multiset{p}
    {
      if GetById(p.id).Some? then Store(RemoveFirst(products, p), nextId) else this
    }
  }

  /** A fresh store: no products, and the counter at 1. */
  const Fresh: Store := Store([], 1)

  /** A new store satisfies the invariant. */
  lemma FreshIsValid()
    ensures Fresh.Valid()
  {
  }

  /** From a new store, any sequence of calls with fewer than int.MaxValue creations keeps
      stored ids unique, at least 1 and below the counter. */
  lemma ReplayFromFreshKeepsValid(calls: seq<Call>)
    requires Creations(calls) < MaxInt32
    ensures Replay(Fresh, calls).Valid()
    ensures Replay(Fresh, calls).nextId <= 1 + Creations(calls)
  {
    FreshIsValid();
    ReplayKeepsValid(Fresh, calls);
  }

  /** The concrete store, in state `st`, seen through `IProductsService`. Every call answers
      from `st`; `Delete` never throws and `Create` never returns null. */
  function AsService(st: Store): (svc: Service)
    ensures forall id: Int32 :: svc.getById(id) == Returned(st.GetById(id))
    ensures svc.getAll == Returned(st.GetAll())
    ensures forall p: Product :: svc.create(p).Threw? <==> st.Create(p).0.Threw?
    ensures forall p: Product :: svc.create(p).Threw? ==> svc.create(p).fault == st.Create(p).0.fault
    ensures forall p: Product :: svc.create(p).Returned? ==> svc.create(p).value == Some(st.Create(p).0.value)
    ensures forall p: Product :: svc.update(p) == st.Update(p).0
    ensures forall p: Product :: svc.delete(p) == Returned(())
  {
    Service(
      (id: Int32) => Returned(st.GetById(id)),
      Returned(st.GetAll()),
      p => (match st.Create(p).0
            case Returned(q) => Returned(Some(q))
            case Threw(f) => Threw(f)),
      p => st.Update(p).0,
      p => Returned(()))
  }

  /** The state after the call `c` is made on the store in state `st`. */
  function Apply(st: Store, c: Call): Store {
    match c
    case GetByIdCall(_) => st
    case GetAllCall => st
    case CreateCall(p) => st.Create(p).1
    case UpdateCall(p) => st.Update(p).1
    case DeleteCall(p) => st.Delete(p)
  }

  /** The state after `calls` are made one after another, starting in state `st`. */
  function Replay(st: Store, calls: seq<Call>): Store
    decreases |calls|
  {
    if calls == [] then st else Replay(Apply(st, calls[0]), calls[1..])
  }

  lemma ReplayOne(st: Store, c: Call)
    ensures Replay(st, [c]) == Apply(st, c)
  {
    assert [c][1..] == [];
  }

  /** A lookup followed by an update changes the store as the update alone does. */
  lemma ReplayLookupThenUpdate(st: Store, id: Int32, p: Product)
    ensures Replay(st, [GetByIdCall(id), UpdateCall(p)]) == st.Update(p).1
  {
    assert [GetByIdCall(id), UpdateCall(p)][1..] == [UpdateCall(p)];
    ReplayOne(st, UpdateCall(p));
  }

  /** A lookup followed by a deletion changes the store as the deletion alone does. */
  lemma ReplayLookupThenDelete(st: Store, id: Int32, p: Product)
    ensures Replay(st, [GetByIdCall(id), DeleteCall(p)]) == st.Delete(p)
  {
    assert [GetByIdCall(id), DeleteCall(p)][1..] == [DeleteCall(p)];
    ReplayOne(st, DeleteCall(p));
  }

  /** How many of `calls` are creations, i.e. by how much they can advance the counter. */
  function Creations(calls: seq<Call>): nat
    decreases |calls|
  {
    if calls == [] then 0 else (if calls[0].CreateCall? then 1 else 0) + Creations(calls[1..])
  }

  /** One `Create` call per element of `ps`, in order. */
  function Creates(ps: seq<Product>): (calls: seq<Call>)
    decreases |ps|
  {
    if ps == [] then [] else [CreateCall(ps[0])] + Creates(ps[1..])
  }

  /** The in-place object: the same two fields, updated by its methods. */
  class ProductService {
    var products: seq<Product>
    var nextId: Int32

    constructor ()
      ensures Snapshot() == Fresh
    {
      products := [];
      nextId := 1;
    }

    /** The object's current state as a value. */
    function Snapshot(): Store
      reads this
    {
      Store(products, nextId)
    }

    method Create(product: Product) returns (r: Outcome<Product>)
      modifies this
      ensures (r, Snapshot()) == old(Snapshot()).Create(product)
      ensures old(Snapshot().Valid()) && old(nextId) < MaxInt32 ==> Snapshot().Valid()
    {
      ghost var before := Snapshot();
      if product.price < 0.0 {
        return Threw(ArgumentError(PriceMessage));
      }
      var created := product.(id := nextId);
      nextId := Increment(nextId);
      products := products + [created];
      r := Returned(created);
      if before.Valid() && before.nextId < MaxInt32 {
        CreateKeepsValid(before, product);
      }
    }

    function GetById(id: Int32): Option<Product>
      reads this
    {
      Snapshot().GetById(id)
    }

    function GetAll(): seq<Product>
      reads this
    {
      products
    }

    method Update(product: Product) returns (r: Outcome<()>)
      modifies this
      ensures (r, Snapshot()) == old(Snapshot()).Update(product)
      ensures old(Snapshot().Valid()) ==> Snapshot().Valid()
    {
      ghost var before := Snapshot();
      var found := FirstIndex(products, (p: Product) => p.id == product.id);
      if found.None? {
        return Threw(KeyNotFound(NotFoundMessage));
      }
      if product.price <= 0.0 {
        return Threw(ArgumentError(PriceMessage));
      }
      var i := found.value;
      products := products[i := products[i].(description := product.description, sku := product.sku, price := product.price)];
      r := Returned(());
      if before.Valid() {
        UpdateKeepsValid(before, product);
      }
    }

    method Delete(product: Product)
      modifies this
      ensures Snapshot() == old(Snapshot()).Delete(product)
      ensures old(Snapshot().Valid()) ==> Snapshot().Valid()
    {
      ghost var before := Snapshot();
      var existing := GetById(product.id);
      if existing.Some? {
        products := RemoveFirst(products, product);
      }
      if before.Valid() {
        DeleteKeepsValid(before, product);
      }
    }
  }

  // ---------------------------------------------------------------------------------------
  // The invariant

  lemma CreateKeepsValid(st: Store, p: Product)
    requires st.Valid() && st.nextId < MaxInt32
    ensures st.Create(p).1.Valid()
  {
  }

  lemma UpdateKeepsValid(st: Store, p: Product)
    requires st.Valid()
    ensures st.Update(p).1.Valid()
  {
  }

  /** Removing one element keeps the ids in [1, counter), increasing, and the prices non-negative. */
  lemma RemoveAtKeepsValid(st: Store, i: nat)
    requires st.Valid() && i < |st.products|
    ensures Store(st.products[..i] + st.products[i + 1..], st.nextId).Valid()
  {
    var s := st.products;
    var r := s[..i] + s[i + 1..];
    assert forall k :: 0 <= k < |r| ==> r[k] == s[if k < i then k else k + 1];
  }

  lemma DeleteKeepsValid(st: Store, p: Product)
    requires st.Valid()
    ensures st.Delete(p).Valid()
  {
    if st.GetById(p.id).Some? {
      match FirstIndex(st.products, (q: Product) => q == p)
      case None =>
      case Some(i) => RemoveAtKeepsValid(st, i);
    }
  }

  lemma ApplyKeepsValid(st: Store, c: Call)
    requires st.Valid()
    requires c.CreateCall? ==> st.nextId < MaxInt32
    ensures Apply(st, c).Valid()
    ensures st.nextId <= Apply(st, c).nextId <= st.nextId + (if c.CreateCall? then 1 else 0)
  {
    match c
    case GetByIdCall(_) =>
    case GetAllCall =>
    case CreateCall(p) => CreateKeepsValid(st, p);
    case UpdateCall(p) => UpdateKeepsValid(st, p);
    case DeleteCall(p) => DeleteKeepsValid(st, p);
  }

  /** Any sequence of calls that cannot drive the counter past int.MaxValue keeps the
      invariant; the counter advances by at most the number of creations. */
  lemma {:induction false} ReplayKeepsValid(st: Store, calls: seq<Call>)
    requires st.Valid()
    requires st.nextId + Creations(calls) <= MaxInt32
    ensures Replay(st, calls).Valid()
    ensures st.nextId <= Replay(st, calls).nextId <= st.nextId + Creations(calls)
    decreases |calls|
  {
    if calls != [] {
      ApplyKeepsValid(st, calls[0]);
      ReplayKeepsValid(Apply(st, calls[0]), calls[1..]);
    }
  }

  // ---------------------------------------------------------------------------------------
  // What the operations promise, stated over GetById and GetAll

  /** A created record is found by its new id; every other id finds what it found before. */
  lemma CreateThenGetById(st: Store, p: Product, id: Int32)
    requires st.Valid() && p.price >= 0.0
    ensures st.Create(p).0.Returned?
    ensures st.Create(p).1.GetById(st.nextId) == Some(st.Create(p).0.value)
    ensures id != st.nextId ==> st.Create(p).1.GetById(id) == st.GetById(id)
  {
    var after := st.Create(p).1;
    var k := |st.products|;
    assert forall j :: 0 <= j < k ==> after.products[j] == st.products[j];
    assert after.products[k].id == st.nextId;
    assert forall j :: 0 <= j < k ==> after.products[j].id != st.nextId;
    if id != st.nextId {
      match st.GetById(id)
      case None =>
      case Some(q) =>
        var i :| 0 <= i < k && st.products[i] == q && q.id == id && forall j :: 0 <= j < i ==> st.products[j].id != id;
        assert after.products[i] == q;
    }
  }

  /** With ids unique, deleting a stored record removes exactly that record: the others keep
      their order and its id is no longer found. */
  lemma DeleteStoredRecord(st: Store, q: Product)
    requires st.Valid() && q in st.products
    ensures exists i :: 0 <= i < |st.products| && st.products[i] == q &&
                        st.Delete(q).products == st.products[..i] + st.products[i + 1..]
    ensures st.Delete(q).GetById(q.id).None?
  {
    var s := st.products;
    assert st.GetById(q.id).Some?;
    var i :| 0 <= i < |s| && s[i] == q && q !in s[..i] && st.Delete(q).products == s[..i] + s[i + 1..];
    RemovedAtLosesId(st, i);
  }

  /** With ids unique, removing the record at `i` leaves no record with its id. */
  lemma RemovedAtLosesId(st: Store, i: nat)
    requires st.Valid() && i < |st.products|
    ensures Store(st.products[..i] + st.products[i + 1..], st.nextId).GetById(st.products[i].id).None?
  {
    var s := st.products;
    var r := s[..i] + s[i + 1..];
    assert forall k :: 0 <= k < |r| ==> r[k] == s[if k < i then k else k + 1];
    assert forall k :: 0 <= k < |s| && k != i ==> s[k].id != s[i].id;
  }

  /** With ids unique, a lookup finds exactly the stored record that carries the id. */
  lemma FoundIffStored(st: Store, id: Int32, x: Product)
    requires st.Valid()
    ensures st.GetById(id) == Some(x) <==> x in st.products && x.id == id
  {
    if x in st.products && x.id == id {
      var k :| 0 <= k < |st.products| && st.products[k] == x;
      assert forall j :: 0 <= j < |st.products| && j != k ==> st.products[j].id != id;
    }
  }

  /** Deleting a stored record leaves what every other id finds unchanged. */
  lemma DeleteKeepsOtherIds(st: Store, q: Product, id: Int32)
    requires st.Valid() && q in st.products && id != q.id
    ensures st.Delete(q).GetById(id) == st.GetById(id)
  {
    var s := st.products;
    DeleteStoredRecord(st, q);
    var i :| 0 <= i < |s| && s[i] == q && st.Delete(q).products == s[..i] + s[i + 1..];
    RemovedAtFindsOthers(st, i, id);
  }

  lemma RemovedAtFindsOthers(st: Store, i: nat, id: Int32)
    requires st.Valid() && i < |st.products| && st.products[i].id != id
    ensures Store(st.products[..i] + st.products[i + 1..], st.nextId).GetById(id) == st.GetById(id)
  {
    var s := st.products;
    var after := Store(s[..i] + s[i + 1..], st.nextId);
    RemoveAtKeepsValid(st, i);
    assert forall k :: 0 <= k < |after.products| ==> after.products[k] == s[if k < i then k else k + 1];
    match st.GetById(id)
    case None =>
    case Some(x) =>
      FoundIffStored(st, id, x);
      var m :| 0 <= m < |s| && s[m] == x;
      assert after.products[if m < i then m else m - 1] == x;
      FoundIffStored(after, id, x);
  }

  /** Creating the products of `ps` one after another (none with a negative price) appends
      them in order, each with the next counter value as its id; the caller's ids are ignored. */
  lemma {:induction false} CreationsAreConsecutive(st: Store, ps: seq<Product>)
    requires st.nextId + |ps| <= MaxInt32
    requires forall i :: 0 <= i < |ps| ==> ps[i].price >= 0.0
    ensures Replay(st, Creates(ps)).nextId == st.nextId + |ps|
    ensures |Replay(st, Creates(ps)).GetAll()| == |st.products| + |ps|
    ensures Replay(st, Creates(ps)).GetAll()[..|st.products|] == st.products
    ensures forall i :: 0 <= i < |ps| ==>
              Replay(st, Creates(ps)).GetAll()[|st.products| + i] == ps[i].(id := st.nextId + i)
    decreases |ps|
  {
    if ps != [] {
      var calls := Creates(ps);
      assert calls[0] == CreateCall(ps[0]) && calls[1..] == Creates(ps[1..]);
      var st1 := Apply(st, calls[0]);
      assert st1.products == st.products + [ps[0].(id := st.nextId)];
      assert st1.nextId == st.nextId + 1;
      CreationsAreConsecutive(st1, ps[1..]);
      var r := Replay(st, calls).GetAll();
      assert r == Replay(st1, Creates(ps[1..])).GetAll();
      assert r[..|st1.products|] == st1.products;
      assert r[..|st.products|] == st1.products[..|st.products|];
      forall i | 0 <= i < |ps|
        ensures r[|st.products| + i] == ps[i].(id := st.nextId + i)
      {
        if i == 0 {
          assert r[|st.products|] == st1.products[|st.products|];
        } else {
          assert ps[1..][i - 1] == ps[i];
        }
      }
    }
  }

  /** On a fresh store the n-th creation gets id n and GetAll lists the creations in order. */
  lemma FreshStoreIdsCountFromOne(ps: seq<Product>)
    requires |ps| < MaxInt32
    requires forall i :: 0 <= i < |ps| ==> ps[i].price >= 0.0
    ensures Replay(Fresh, Creates(ps)).nextId == |ps| + 1
    ensures |Replay(Fresh, Creates(ps)).GetAll()| == |ps|
    ensures forall i :: 0 <= i < |ps| ==> Replay(Fresh, Creates(ps)).GetAll()[i] == ps[i].(id := i + 1)
  {
    CreationsAreConsecutive(Fresh, ps);
  }

  // ---------------------------------------------------------------------------------------
  // A scenario on the object

  /** Three creations on a new store get ids 1, 2 and 3 whatever ids the caller set (a zero
      price is accepted), a negative price is refused without using up an id, and `GetAll`
      lists the three records in creation order. */
  method CreateThreeOnNewStore() returns (ids: seq<int>, all: seq<Product>)
    ensures ids == [1, 2, 3]
    ensures all == [Product(1, None, Some("A"), 0.0), Product(2, None, Some("C"), 5.0), Product(3, None, Some("D"), 2.5)]
  {
    var service := new ProductService();
    var first := service.Create(Product(7, None, Some("A"), 0.0));
    var refused := service.Create(Product(0, None, Some("B"), -1.0));
    var second := service.Create(Product(7, None, Some("C"), 5.0));
    var third := service.Create(Product(0, None, Some("D"), 2.5));
    ids := [first.value.id, second.value.id, third.value.id];
    all := service.GetAll();
  }
}
