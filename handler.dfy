/**
 * handler/handler.go: the gRPC ProductService. It checks the request,
 * calls the app, and turns the app's error into a status code and message.
 * gRPC itself is not modelled: a reply is a value, an error is a Status.
 */
module Handler {
  import opened Wrappers
  import opened Log
  import opened Models
  import opened ErrorLog
  import opened Db
  import R = Repository
  import A = App

  /** The gRPC status codes the handler uses. */
  datatype Code = InvalidArgument | NotFound | AlreadyExists | Internal

  datatype Status = Status(code: Code, message: string)

  /**
   * What an RPC hands back: a response, an error status, or a panic
   * (a nil pointer dereference in the handler).
   */
  datatype Reply<T> = Ok(value: T) | Fail(status: Status) | Panic

  /** The wire format's product and digest: prices are int32. */
  datatype ProductMsg = ProductMsg(name: string, price: Int32, description: string)
  datatype DigestMsg = DigestMsg(id: string, name: string, price: Int32)

  /** An UpdateRequest; its product field may be absent (a nil pointer). */
  datatype UpdateRequest = UpdateRequest(id: string, product: Option<ProductMsg>)

  const RequiredMsg: string := "name, price and description are required, price must be greater than 0"
  const IdRequiredMsg: string := "id is required"

  /** The reply to an incomplete product in Create and Update. */
  const IncompleteProduct: Status := Status(InvalidArgument, RequiredMsg)

  /** The product check of Create and Update. */
  predicate Incomplete(name: string, price: int, description: string) {
    name == "" || price <= 0 || description == ""
  }

  /** The models.Product built from a wire product (`int(req.GetPrice())`). */
  function ProductOfMsg(m: ProductMsg): Product {
    Product(m.name, m.price, m.description)
  }

  /** Create's reply once the app has answered with (id, err). */
  function CreateReply(name: string, id: string, err: Option<Error>): (r: Reply<string>)
    ensures r.Ok? <==> err.None?
    ensures r.Ok? ==> r.value == id
    ensures r.Fail? ==> r.status.code == AlreadyExists || r.status.code == Internal
    ensures r.Fail? ==> (r.status.code == AlreadyExists <==> Is(err.value, ErrAlreadyExists))
    ensures r.Fail? && r.status.code == AlreadyExists ==>
      r.status.message == "product with the same name already exists: " + name
    ensures r.Fail? && r.status.code == Internal ==> r.status.message == err.value.Message()
  {
    match err
    case None => Ok(id)
    case Some(e) =>
      if Is(e, ErrAlreadyExists) then Fail(Status(AlreadyExists, "product with the same name already exists: " + name))
      else Fail(Status(Internal, e.Message()))
  }

  /** Get's reply once the app has answered with (p, err). */
  function GetReply(id: string, p: Product, err: Option<Error>): (r: Reply<ProductMsg>)
    ensures r.Ok? <==> err.None?
    ensures r.Ok? ==> r.value == ProductMsg(p.name, ToInt32(p.price), p.description)
    ensures r.Fail? ==> r.status.code == NotFound || r.status.code == Internal
    ensures r.Fail? ==> (r.status.code == NotFound <==> Is(err.value, ErrNotFound))
    ensures r.Fail? && r.status.code == NotFound ==> r.status.message == id + " not found"
    ensures r.Fail? && r.status.code == Internal ==> r.status.message == err.value.Message()
  {
    match err
    case None => Ok(ProductMsg(p.name, ToInt32(p.price), p.description))
    case Some(e) =>
      if Is(e, ErrNotFound) then Fail(Status(NotFound, id + " not found"))
      else Fail(Status(Internal, e.Message()))
  }

  /** The reply of Delete and Update once the app has answered with err. */
  function ChangeReply(err: Option<Error>): (r: Reply<()>)
    ensures r.Ok? <==> err.None?
    ensures r.Fail? ==> r.status.message == err.value.Message()
    ensures r.Fail? ==> (r.status.code == NotFound <==> Is(err.value, ErrNotFound))
    ensures r.Fail? ==> r.status.code == NotFound || r.status.code == Internal
  {
    match err
    case None => Ok(())
    case Some(e) =>
      if Is(e, ErrNotFound) then Fail(Status(NotFound, e.Message()))
      else Fail(Status(Internal, e.Message()))
  }

  /**
   * The conversion loop of GetAll: one wire digest per app digest, in the
   * same order, with the price cut to int32.
   */
  method DigestMessages(ress: seq<ProductDigest>) returns (prods: seq<DigestMsg>)
    ensures |prods| == |ress|
    ensures forall i :: 0 <= i < |ress| ==>
      prods[i] == DigestMsg(ress[i].id, ress[i].name, ToInt32(ress[i].price))
  {
    var a := new DigestMsg[|ress|];
    var i := 0;
    while i < |ress|
      invariant 0 <= i <= |ress|
      invariant forall k :: 0 <= k < i ==> a[k] == DigestMsg(ress[k].id, ress[k].name, ToInt32(ress[k].price))
    {
      a[i] := DigestMsg(ress[i].id, ress[i].name, ToInt32(ress[i].price));
      i := i + 1;
    }
    prods := a[..];
  }

  /**
   * A duplicate name reaches the client as Internal: the app wraps the
   * repository's ErrAlreadyExists in an ErrorLogData, which errors.Is does not
   * see through. Unwrapped, the same error would give AlreadyExists.
   */
  lemma DuplicateNameIsInternal(ctx: Context, name: string)
    ensures CreateReply(name, "", Some(WrapError(ctx, ErrAlreadyExists))) == Fail(Status(Internal, "already exists"))
    ensures CreateReply(name, "", Some(ErrAlreadyExists)) ==
      Fail(Status(AlreadyExists, "product with the same name already exists: " + name))
  {
    WrapHidesTarget(ctx, ErrAlreadyExists);
  }

  /** A wrapped error never yields AlreadyExists from Create. */
  lemma WrappedNeverAlreadyExists(name: string, ctx: Context, e: Error)
    ensures CreateReply(name, "", Some(WrapError(ctx, e))).status.code == Internal
  {
    var w := WrapError(ctx, e);
    assert w != ErrAlreadyExists;
  }

  /** A store error never yields NotFound from Delete or Update: that branch needs ErrNotFound itself. */
  lemma StoreErrorsAreInternal(e: Error)
    requires IsStoreError(e)
    ensures ChangeReply(Some(e)) == Fail(Status(Internal, e.Message()))
  {
  }

  class ProductService {
    const app: A.App

    ghost predicate Valid()
      reads this, app, app.repo, app.repo.store
    {
      app.Valid()
    }

    constructor (app: A.App)
      requires app.Valid()
      ensures Valid() && this.app == app
    {
      this.app := app;
    }

    /** `minted` stands for what the id source will produce if the app asks for an id. */
    method Create(ctx: Context, req: ProductMsg, minted: Result<string, string>)
      returns (reply: Reply<string>, ghost repoErr: Option<Error>)
      requires Valid()
      modifies app.repo, app.repo.store
      ensures Valid() && app.repo.store.outage == old(app.repo.store.outage)
      // an incomplete product is refused before the app is called
      ensures Incomplete(req.name, req.price, req.description) ==>
        reply == Fail(IncompleteProduct) && unchanged(app.repo, app.repo.store)
      ensures (reply.Fail? && reply.status.code == InvalidArgument) <==> Incomplete(req.name, req.price, req.description)
      ensures !Incomplete(req.name, req.price, req.description) && minted.Failure? ==>
        reply == Fail(Status(Internal, minted.error)) && unchanged(app.repo, app.repo.store)
      ensures !Incomplete(req.name, req.price, req.description) && minted.Success? ==>
        app.repo.calls == old(app.repo.calls) + [R.CreateCall(minted.value, ProductOfMsg(req), repoErr)]
      ensures !Incomplete(req.name, req.price, req.description) && minted.Success? && repoErr.None? ==>
        reply == Ok(minted.value)
        && app.repo.cache == old(app.repo.cache)[minted.value := ProductOfMsg(req)]
        && app.repo.store.rows == old(app.repo.store.rows)[minted.value := R.RowOf(ProductOfMsg(req))]
      ensures !Incomplete(req.name, req.price, req.description) && minted.Success? && repoErr.Some? ==>
        reply == Fail(Status(Internal, repoErr.value.Message()))
        && app.repo.cache == old(app.repo.cache) && app.repo.store.rows == old(app.repo.store.rows)
      // the store's answer decides the outcome
      ensures !Incomplete(req.name, req.price, req.description) && minted.Success? && old(app.repo.store.outage).None? ==>
        (repoErr.None? <==> minted.value !in old(app.repo.store.rows) && !NameTaken(old(app.repo.store.rows), req.name, minted.value))
      // a duplicate name comes back as Internal, never as AlreadyExists
      ensures !Incomplete(req.name, req.price, req.description) && minted.Success? && old(app.repo.store.outage).None? &&
              NameTaken(old(app.repo.store.rows), req.name, minted.value) ==>
        reply == Fail(Status(Internal, ErrAlreadyExists.Message()))
      ensures reply.Fail? ==> reply.status.code != AlreadyExists
      // an outage is answered Internal with the error's text
      ensures !Incomplete(req.name, req.price, req.description) && minted.Success? && old(app.repo.store.outage).Some? ==>
        reply == Fail(Status(Internal, if R.IsUniqueViolation(old(app.repo.store.outage).value) then ErrAlreadyExists.Message()
                                       else old(app.repo.store.outage).value.Message()))
      // prices on the wire fit in 32 bits, so the cache stays coherent
      ensures old(app.repo.Coherent()) ==> app.repo.Coherent()
    {
      repoErr := None;
      var prod := ProductOfMsg(req);
      if Incomplete(prod.name, prod.price, prod.description) {
        return Fail(IncompleteProduct), None;
      }
      var ctx' := WithProductName(ctx, prod.name);
      var id, err;
      id, err, repoErr := app.Create(ctx', prod, minted);
      if err.Some? {
        WrappedNeverAlreadyExists(prod.name, ctx', ErrAlreadyExists);
        if minted.Success? {
          WrappedNeverAlreadyExists(prod.name, ctx', repoErr.value);
        }
      }
      reply := CreateReply(prod.name, id, err);
    }

    method Get(id: string) returns (reply: Reply<ProductMsg>, ghost p: Product, ghost err: Option<Error>)
      requires Valid()
      modifies app.repo`trace, app.repo`calls
      ensures Valid()
      ensures app.repo.cache == old(app.repo.cache)
      ensures app.repo.Coherent() == old(app.repo.Coherent())
      // an empty id is refused before the app is called
      ensures id == "" ==> reply == Fail(Status(InvalidArgument, IdRequiredMsg)) && app.repo.calls == old(app.repo.calls)
      ensures id != "" ==> app.repo.calls == old(app.repo.calls) + [R.GetCall(id, p, err)] && reply == GetReply(id, p, err)
      ensures id != "" && id in app.repo.cache ==>
        reply == Ok(ProductMsg(app.repo.cache[id].name, ToInt32(app.repo.cache[id].price), app.repo.cache[id].description))
      // end to end, with a coherent cache
      ensures id != "" && app.repo.Coherent() && app.repo.store.outage.None? && id in app.repo.store.rows ==>
        reply == Ok(ProductMsg(app.repo.store.rows[id].name, app.repo.store.rows[id].price, app.repo.store.rows[id].description))
      ensures id != "" && app.repo.Coherent() && app.repo.store.outage.None? && id !in app.repo.store.rows ==>
        reply == Fail(Status(NotFound, id + " not found"))
      // a miss, whatever the cache holds for other ids
      ensures id != "" && id !in app.repo.cache && app.repo.store.outage.Some? && app.repo.store.outage.value != ErrNoRows ==>
        reply == Fail(Status(Internal, app.repo.store.outage.value.Message()))
      ensures id != "" && id !in app.repo.cache && app.repo.store.outage == Some(ErrNoRows) ==>
        reply == Fail(Status(NotFound, id + " not found"))
      ensures id != "" && id !in app.repo.cache && app.repo.store.outage.None? && id in app.repo.store.rows ==>
        reply == Ok(ProductMsg(app.repo.store.rows[id].name, app.repo.store.rows[id].price, app.repo.store.rows[id].description))
      ensures id != "" && id !in app.repo.cache && app.repo.store.outage.None? && id !in app.repo.store.rows ==>
        reply == Fail(Status(NotFound, id + " not found"))
    {
      p, err := EmptyProduct, None;
      if id == "" {
        return Fail(Status(InvalidArgument, IdRequiredMsg)), p, err;
      }
      var prod, e := app.Get(id);
      p, err := prod, e;
      reply := GetReply(id, prod, e);
    }

    method GetAll() returns (reply: Reply<Option<seq<DigestMsg>>>, ghost ds: seq<ProductDigest>, ghost err: Option<Error>)
      requires Valid()
      modifies app.repo`trace, app.repo`calls
      ensures Valid()
      ensures app.repo.cache == old(app.repo.cache)
      ensures app.repo.Coherent() == old(app.repo.Coherent())
      ensures app.repo.calls == old(app.repo.calls) + [R.GetAllCall(ds, err)]
      // an empty listing is a success with no response, not an error
      ensures err == Some(ErrNotFound) ==> reply == Ok(None)
      ensures err.Some? && err.value != ErrNotFound ==> reply == Fail(Status(Internal, err.value.Message()))
      ensures err.None? ==> reply.Ok? && reply.value.Some? && |reply.value.value| == |ds|
      ensures err.None? ==> forall i :: 0 <= i < |ds| ==>
        reply.value.value[i] == DigestMsg(ds[i].id, ds[i].name, ToInt32(ds[i].price))
      ensures app.repo.store.outage.None? && app.repo.store.rows == map[] ==> reply == Ok(None)
      ensures app.repo.store.outage.Some? ==> reply == Fail(Status(Internal, app.repo.store.outage.value.Message()))
      // end to end: the reply lists the store's products, in the store's order
      ensures app.repo.store.outage.None? && app.repo.store.rows != map[] ==>
        reply.Ok? && reply.value.Some? && |reply.value.value| == |app.repo.store.order|
      ensures app.repo.store.outage.None? && app.repo.store.rows != map[] ==> forall i :: 0 <= i < |app.repo.store.order| ==>
        reply.value.value[i] == DigestMsg(app.repo.store.order[i], app.repo.store.rows[app.repo.store.order[i]].name,
                                          app.repo.store.rows[app.repo.store.order[i]].price)
    {
      var res, e := app.GetAll();
      ds, err := res, e;
      if e.Some? {
        if Is(e.value, ErrNotFound) {
          return Ok(None), ds, err;
        }
        return Fail(Status(Internal, e.value.Message())), ds, err;
      }
      var prods := DigestMessages(res);
      reply := Ok(Some(prods));
    }

    /** Delete checks no id: an empty one goes to the app like any other. */
    method Delete(id: string) returns (reply: Reply<()>, ghost err: Option<Error>)
      requires Valid()
      modifies app.repo, app.repo.store
      ensures Valid() && app.repo.store.outage == old(app.repo.store.outage)
      ensures app.repo.calls == old(app.repo.calls) + [R.DeleteCall(id, err)]
      ensures reply == ChangeReply(err)
      // the repository returns store errors only, so NotFound never reaches the client
      ensures reply.Fail? ==> reply.status.code == Internal
      // a failed Delete leaves the store and the cache as they were
      ensures reply.Fail? ==> app.repo.cache == old(app.repo.cache) && app.repo.store.rows == old(app.repo.store.rows)
      ensures err.None? ==> app.repo.cache == old(app.repo.cache) - {id}
      ensures old(app.repo.store.outage).None? && id in old(app.repo.store.rows) ==>
        reply == Ok(()) && app.repo.store.rows == old(app.repo.store.rows) - {id}
      ensures old(app.repo.store.outage).Some? ==> reply == Fail(Status(Internal, old(app.repo.store.outage).value.Message()))
      // an absent id: the store decides whether that is an error
      ensures old(app.repo.store.outage).None? && id !in old(app.repo.store.rows) ==>
        app.repo.store.rows == old(app.repo.store.rows) &&
        reply == (if app.repo.store.missingRowFails then Fail(Status(Internal, ErrNoRows.Message())) else Ok(()))
      ensures old(app.repo.Coherent()) ==> app.repo.Coherent()
    {
      var e := app.Delete(id);
      err := e;
      if e.Some? {
        StoreErrorsAreInternal(e.value);
      }
      reply := ChangeReply(e);
    }

    method Update(req: UpdateRequest) returns (reply: Reply<()>, ghost err: Option<Error>)
      requires Valid()
      modifies app.repo, app.repo.store
      ensures Valid() && app.repo.store.outage == old(app.repo.store.outage)
      // a request without a product dereferences a nil pointer
      ensures req.product.None? ==> reply == Panic && unchanged(app.repo, app.repo.store)
      ensures req.product.Some? && Incomplete(req.product.value.name, req.product.value.price, req.product.value.description) ==>
        reply == Fail(IncompleteProduct) && unchanged(app.repo, app.repo.store)
      ensures req.product.Some? && !Incomplete(req.product.value.name, req.product.value.price, req.product.value.description) ==>
        app.repo.calls == old(app.repo.calls) + [R.UpdateCall(req.id, ProductOfMsg(req.product.value), err)]
        && reply == ChangeReply(err)
      // the repository returns store errors only, so NotFound never reaches the client
      ensures reply.Fail? && reply.status.code != InvalidArgument ==> reply.status.code == Internal
      // a failed Update leaves the store and the cache as they were
      ensures reply.Fail? ==> app.repo.cache == old(app.repo.cache) && app.repo.store.rows == old(app.repo.store.rows)
      ensures req.product.Some? && reply.Ok? ==>
        app.repo.cache == old(app.repo.cache)[req.id := ProductOfMsg(req.product.value)]
      ensures req.product.Some? && !Incomplete(req.product.value.name, req.product.value.price, req.product.value.description) &&
              old(app.repo.store.outage).None? && req.id in old(app.repo.store.rows) &&
              !NameTaken(old(app.repo.store.rows), req.product.value.name, req.id) ==>
        reply == Ok(()) && app.repo.store.rows == old(app.repo.store.rows)[req.id := R.RowOf(ProductOfMsg(req.product.value))]
      ensures req.product.Some? && !Incomplete(req.product.value.name, req.product.value.price, req.product.value.description) &&
              old(app.repo.store.outage).Some? ==>
        reply == Fail(Status(Internal, old(app.repo.store.outage).value.Message()))
      // a name another product holds: the store's unique violation, reported as Internal
      ensures req.product.Some? && !Incomplete(req.product.value.name, req.product.value.price, req.product.value.description) &&
              old(app.repo.store.outage).None? && req.id in old(app.repo.store.rows) &&
              NameTaken(old(app.repo.store.rows), req.product.value.name, req.id) ==>
        reply == Fail(Status(Internal, UniqueViolation.Message())) && app.repo.store.rows == old(app.repo.store.rows)
      // an absent id: the store decides whether that is an error
      ensures req.product.Some? && !Incomplete(req.product.value.name, req.product.value.price, req.product.value.description) &&
              old(app.repo.store.outage).None? && req.id !in old(app.repo.store.rows) ==>
        app.repo.store.rows == old(app.repo.store.rows) &&
        reply == (if app.repo.store.missingRowFails then Fail(Status(Internal, ErrNoRows.Message())) else Ok(()))
      ensures old(app.repo.Coherent()) && (app.repo.store.missingRowFails || req.id in old(app.repo.store.rows)) ==>
        app.repo.Coherent()
    {
      err := None;
      var id := req.id;
      if req.product.None? {
        return Panic, err;
      }
      var prod := req.product.value;
      if Incomplete(prod.name, prod.price, prod.description) {
        return Fail(IncompleteProduct), err;
      }
      var e := app.Update(id, ProductOfMsg(prod));
      err := e;
      if e.Some? {
        StoreErrorsAreInternal(e.value);
      }
      reply := ChangeReply(e);
    }
  }
}
