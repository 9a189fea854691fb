/**
 * repository/repository.go: the store decorated with an in-memory TTL cache.
 * The store is always called first; the cache changes only after the store
 * returned no error. Get reads the cache first and does not fill it on a miss;
 * GetAll never touches the cache.
 */
module Repository {
  import opened Wrappers
  import opened Models
  import opened Db

  /** The store's copy of a product: the price goes through `int32(prod.Price)`. */
  function RowOf(p: Product): Row {
    Row(p.name, ToInt32(p.price), p.description)
  }

  /** The product Get builds from a store row: the price goes through `int(res.Price)`. */
  function ProductOf(r: Row): Product {
    Product(r.name, r.price, r.description)
  }

  /** A product written to the store reads back unchanged exactly when its price fits in 32 bits. */
  lemma StoreRoundTrip(p: Product)
    ensures ProductOf(RowOf(p)) == p <==> FitsInt32(p.price)
  {
    ToInt32Identity(p.price);
  }

  /** A store error that reports a violated unique constraint. */
  predicate IsUniqueViolation(e: Error) {
    e.PgError? && e.code == UniqueErrCode
  }

  /** The store and cache actions the repository performs, in order. */
  datatype Event =
    | StoreCreate(id: string, ok: bool)
    | StoreGet(id: string)
    | StoreGetAll
    | StoreUpdate(id: string, ok: bool)
    | StoreDelete(id: string, ok: bool)
    | CacheAdd(id: string)
    | CacheDelete(id: string)
    | CacheExpire(id: string)

  /**
   * The ordering rule: every cache Add is the step right after a store Create
   * or Update of that id that returned no error, and every cache Delete the
   * step right after a store Delete of that id that returned no error.
   */
  ghost predicate WritesFollowStore(trace: seq<Event>) {
    forall i :: 0 <= i < |trace| ==> FollowsStore(trace, i)
  }

  /** Step i of the trace, if a cache write, comes right after its store write. */
  ghost predicate FollowsStore(trace: seq<Event>, i: nat)
    requires i < |trace|
  {
    && (trace[i].CacheAdd? ==>
          i > 0 && trace[i - 1] in {StoreCreate(trace[i].id, true), StoreUpdate(trace[i].id, true)})
    && (trace[i].CacheDelete? ==>
          i > 0 && trace[i - 1] == StoreDelete(trace[i].id, true))
  }

  /** Appending steps that keep the rule, and do not start with a cache step, keeps the rule. */
  lemma AppendKeepsOrder(t: seq<Event>, u: seq<Event>)
    requires WritesFollowStore(t) && WritesFollowStore(u)
    requires u != [] ==> !u[0].CacheAdd? && !u[0].CacheDelete?
    ensures WritesFollowStore(t + u)
  {
    var tu := t + u;
    forall i | 0 <= i < |tu| ensures FollowsStore(tu, i) {
      if i < |t| {
        assert FollowsStore(t, i);
        assert tu[i] == t[i];
        if i > 0 { assert tu[i - 1] == t[i - 1]; }
      } else {
        assert FollowsStore(u, i - |t|);
        assert tu[i] == u[i - |t|];
        if i > |t| { assert tu[i - 1] == u[i - 1 - |t|]; }
      }
    }
  }

  /** One call of the repository's API with the results it returned. */
  datatype Call =
    | CreateCall(id: string, prod: Product, err: Option<Error>)
    | GetCall(id: string, prod: Product, err: Option<Error>)
    | GetAllCall(digests: seq<ProductDigest>, err: Option<Error>)
    | DeleteCall(id: string, err: Option<Error>)
    | UpdateCall(id: string, prod: Product, err: Option<Error>)

  /**
   * The conversion loop of GetAll: one digest per store row, in the same
   * order, copying id, name and price.
   */
  method ToDigests(ress: seq<ListedRow>) returns (result: seq<ProductDigest>)
    ensures |result| == |ress|
    ensures forall i :: 0 <= i < |ress| ==>
      result[i] == ProductDigest(ress[i].id, ress[i].name, ress[i].price)
  {
    var a := new ProductDigest[|ress|];
    var i := 0;
    while i < |ress|
      invariant 0 <= i <= |ress|
      invariant forall k :: 0 <= k < i ==> a[k] == ProductDigest(ress[k].id, ress[k].name, ress[k].price)
    {
      a[i] := ProductDigest(ress[i].id, ress[i].name, ress[i].price);
      i := i + 1;
    }
    result := a[..];
  }

  class Repository {
    const store: Queries
    /** The TTL cache: id to the product last written through this instance. */
    var cache: map<string, Product>
    ghost var trace: seq<Event>
    ghost var calls: seq<Call>

    ghost predicate Valid()
      reads this, store
    {
      store.Valid() && WritesFollowStore(trace)
    }

    /** Every cached product is what the store holds for that id. */
    ghost predicate Coherent()
      reads this, store
    {
      forall id :: id in cache ==> id in store.rows && ProductOf(store.rows[id]) == cache[id]
    }

    constructor (store: Queries)
      requires store.Valid()
      ensures Valid() && Coherent()
      ensures this.store == store && cache == map[] && trace == [] && calls == []
    {
      this.store := store;
      cache := map[];
      trace := [];
      calls := [];
    }

    method Create(id: string, prod: Product) returns (err: Option<Error>, ghost answer: Option<Error>)
      requires Valid()
      modifies this, store
      ensures Valid() && store.outage == old(store.outage)
      ensures calls == old(calls) + [CreateCall(id, prod, err)]
      // the store's answer, and what it did
      ensures answer.Some? ==> IsStoreError(answer.value) && store.rows == old(store.rows)
      ensures old(store.outage).Some? ==> answer == old(store.outage)
      ensures old(store.outage).None? && (id in old(store.rows) || NameTaken(old(store.rows), prod.name, id)) ==>
        answer == Some(UniqueViolation)
      ensures old(store.outage).None? && id !in old(store.rows) && !NameTaken(old(store.rows), prod.name, id) ==>
        answer.None? && store.rows == old(store.rows)[id := RowOf(prod)]
      // what the repository returns and does with the cache
      ensures answer.Some? && IsUniqueViolation(answer.value) ==> err == Some(ErrAlreadyExists)
      ensures answer.Some? && !IsUniqueViolation(answer.value) ==> err == answer
      ensures answer.Some? ==> cache == old(cache) && trace == old(trace) + [StoreCreate(id, false)]
      ensures answer.None? ==> err.None? && cache == old(cache)[id := prod]
      ensures answer.None? ==> trace == old(trace) + [StoreCreate(id, true), CacheAdd(id)]
      ensures old(Coherent()) && FitsInt32(prod.price) ==> Coherent()
    {
      var res := store.Create(id, prod.name, ToInt32(prod.price), prod.description);
      answer := res;
      if res.Some? {
        AppendKeepsOrder(trace, [StoreCreate(id, false)]);
        trace := trace + [StoreCreate(id, false)];
        var e := res.value;
        if e.PgError? && e.code == UniqueErrCode {
          err := Some(ErrAlreadyExists);
        } else {
          err := res;
        }
        calls := calls + [CreateCall(id, prod, err)];
        return;
      }
      AppendKeepsOrder(trace, [StoreCreate(id, true), CacheAdd(id)]);
      trace := trace + [StoreCreate(id, true), CacheAdd(id)];
      cache := cache[id := Product(prod.name, prod.price, prod.description)];
      err := None;
      calls := calls + [CreateCall(id, prod, err)];
      StoreRoundTrip(prod);
    }

    method Get(id: string) returns (p: Product, err: Option<Error>, ghost answer: Option<Result<Row, Error>>)
      requires Valid()
      modifies this`trace, this`calls
      ensures Valid()
      ensures calls == old(calls) + [GetCall(id, p, err)]
      // a hit answers from the cache and does not call the store
      ensures id in cache ==> answer.None? && p == cache[id] && err.None? && trace == old(trace)
      // a miss asks the store and leaves the cache as it was
      ensures id !in cache ==> answer.Some? && trace == old(trace) + [StoreGet(id)]
      ensures answer.Some? && answer.value.Success? ==> p == ProductOf(answer.value.value) && err.None?
      ensures answer.Some? && answer.value == Failure(ErrNoRows) ==> p == EmptyProduct && err == Some(ErrNotFound)
      ensures answer.Some? && answer.value.Failure? && answer.value.error != ErrNoRows ==>
        p == EmptyProduct && err == Some(answer.value.error) && IsStoreError(answer.value.error)
      ensures answer.Some? ==> (store.outage.Some? ==> answer.value == Failure(store.outage.value))
      ensures answer.Some? ==> (store.outage.None? && id in store.rows ==> answer.value == Success(store.rows[id]))
      ensures answer.Some? ==> (store.outage.None? && id !in store.rows ==> answer.value == Failure(ErrNoRows))
      // with a coherent cache, Get reports what the store holds, hit or miss
      ensures Coherent() && store.outage.None? && id in store.rows ==> p == ProductOf(store.rows[id]) && err.None?
      ensures Coherent() && store.outage.None? && id !in store.rows ==> err == Some(ErrNotFound)
    {
      if id in cache {
        p, err, answer := cache[id], None, None;
        calls := calls + [GetCall(id, p, err)];
        return;
      }
      AppendKeepsOrder(trace, [StoreGet(id)]);
      trace := trace + [StoreGet(id)];
      var res := store.Get(id);
      answer := Some(res);
      if res.Failure? {
        if res.error == ErrNoRows {
          p, err := EmptyProduct, Some(ErrNotFound);
        } else {
          p, err := EmptyProduct, Some(res.error);
        }
      } else {
        p, err := Product(res.value.name, res.value.price, res.value.description), None;
      }
      calls := calls + [GetCall(id, p, err)];
    }

    method GetAll() returns (ds: seq<ProductDigest>, err: Option<Error>, ghost answer: Result<seq<ListedRow>, Error>)
      requires Valid()
      modifies this`trace, this`calls
      ensures Valid()
      ensures calls == old(calls) + [GetAllCall(ds, err)]
      ensures trace == old(trace) + [StoreGetAll]
      ensures store.outage.Some? ==> answer == Failure(store.outage.value)
      // the store's answer lists every row once, in the store's order
      ensures store.outage.None? ==> answer.Success? && |answer.value| == |store.order| == |store.rows|
      ensures store.outage.None? ==> forall i :: 0 <= i < |store.order| ==>
        answer.value[i] == ListedRow(store.order[i], store.rows[store.order[i]].name, store.rows[store.order[i]].price)
      ensures answer.Failure? ==> ds == [] && err == Some(answer.error) && IsStoreError(answer.error)
      ensures answer == Success([]) ==> ds == [] && err == Some(ErrNotFound)
      ensures answer.Success? && answer.value != [] ==> err.None? && |ds| == |answer.value|
      ensures answer.Success? && answer.value != [] ==> forall i :: 0 <= i < |ds| ==>
        ds[i] == ProductDigest(answer.value[i].id, answer.value[i].name, answer.value[i].price)
    {
      AppendKeepsOrder(trace, [StoreGetAll]);
      trace := trace + [StoreGetAll];
      var ress := store.GetAll();
      answer := ress;
      if ress.Failure? {
        ds, err := [], Some(ress.error);
      } else if |ress.value| == 0 {
        ds, err := [], Some(ErrNotFound);
      } else {
        ds := ToDigests(ress.value);
        err := None;
      }
      calls := calls + [GetAllCall(ds, err)];
    }

    method Delete(id: string) returns (err: Option<Error>)
      requires Valid()
      modifies this, store
      ensures Valid() && store.outage == old(store.outage)
      ensures calls == old(calls) + [DeleteCall(id, err)]
      ensures err.Some? ==> IsStoreError(err.value) && store.rows == old(store.rows)
      ensures old(store.outage).Some? ==> err == old(store.outage)
      ensures old(store.outage).None? && id in old(store.rows) ==> err.None? && store.rows == old(store.rows) - {id}
      ensures old(store.outage).None? && id !in old(store.rows) ==>
        store.rows == old(store.rows) && err == (if store.missingRowFails then Some(ErrNoRows) else None)
      ensures err.Some? ==> cache == old(cache) && trace == old(trace) + [StoreDelete(id, false)]
      ensures err.None? ==> cache == old(cache) - {id} && trace == old(trace) + [StoreDelete(id, true), CacheDelete(id)]
      ensures old(Coherent()) ==> Coherent()
    {
      err := store.Delete(id);
      if err.Some? {
        AppendKeepsOrder(trace, [StoreDelete(id, false)]);
        trace := trace + [StoreDelete(id, false)];
        calls := calls + [DeleteCall(id, err)];
        return;
      }
      AppendKeepsOrder(trace, [StoreDelete(id, true), CacheDelete(id)]);
      trace := trace + [StoreDelete(id, true), CacheDelete(id)];
      cache := cache - {id};
      calls := calls + [DeleteCall(id, err)];
    }

    method Update(id: string, prod: Product) returns (err: Option<Error>)
      requires Valid()
      modifies this, store
      ensures Valid() && store.outage == old(store.outage)
      ensures calls == old(calls) + [UpdateCall(id, prod, err)]
      ensures err.Some? ==> IsStoreError(err.value) && store.rows == old(store.rows)
      ensures old(store.outage).Some? ==> err == old(store.outage)
      ensures old(store.outage).None? && id !in old(store.rows) ==>
        store.rows == old(store.rows) && err == (if store.missingRowFails then Some(ErrNoRows) else None)
      ensures old(store.outage).None? && id in old(store.rows) && NameTaken(old(store.rows), prod.name, id) ==>
        err == Some(UniqueViolation)
      ensures old(store.outage).None? && id in old(store.rows) && !NameTaken(old(store.rows), prod.name, id) ==>
        err.None? && store.rows == old(store.rows)[id := RowOf(prod)]
      // a failed update leaves any cached entry in place, stale or not
      ensures err.Some? ==> cache == old(cache) && trace == old(trace) + [StoreUpdate(id, false)]
      ensures err.None? ==> cache == old(cache)[id := prod] && trace == old(trace) + [StoreUpdate(id, true), CacheAdd(id)]
      ensures old(Coherent()) && FitsInt32(prod.price) && (store.missingRowFails || id in old(store.rows)) ==> Coherent()
      // an update of an absent id that the store accepts caches an id the store lacks
      ensures err.None? && id !in old(store.rows) ==> id in cache && id !in store.rows
    {
      err := store.Update(id, prod.name, ToInt32(prod.price), prod.description);
      if err.Some? {
        AppendKeepsOrder(trace, [StoreUpdate(id, false)]);
        trace := trace + [StoreUpdate(id, false)];
        calls := calls + [UpdateCall(id, prod, err)];
        return;
      }
      AppendKeepsOrder(trace, [StoreUpdate(id, true), CacheAdd(id)]);
      trace := trace + [StoreUpdate(id, true), CacheAdd(id)];
      cache := cache[id := prod];
      calls := calls + [UpdateCall(id, prod, err)];
      StoreRoundTrip(prod);
    }

    /** The cache drops an entry whose time to live (30 seconds) has run out. */
    method Expire(id: string)
      requires Valid()
      modifies this`cache, this`trace
      ensures Valid()
      ensures cache == old(cache) - {id} && trace == old(trace) + [CacheExpire(id)]
      ensures old(Coherent()) ==> Coherent()
    {
      AppendKeepsOrder(trace, [CacheExpire(id)]);
      cache := cache - {id};
      trace := trace + [CacheExpire(id)];
    }
  }
}
