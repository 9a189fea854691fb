/**
 * app/app.go: the orchestrator between the gRPC handler and the repository.
 * Create mints the product's id and wraps a repository failure in an
 * ErrorLogData; the other four operations pass straight through. Update is a
 * full overwrite: it forwards the product without reading or merging.
 */
module App {
  import opened Wrappers
  import opened Log
  import opened Models
  import opened ErrorLog
  import opened Db
  import R = Repository

  class App {
    const repo: R.Repository

    ghost predicate Valid()
      reads this, repo, repo.store
    {
      repo.Valid()
    }

    constructor (repo: R.Repository)
      requires repo.Valid()
      ensures Valid() && this.repo == repo
    {
      this.repo := repo;
    }

    /**
     * `minted` is what uuid.NewV7 produced: the id's text, or the text of the
     * error it failed with.
     */
    method Create(ctx: Context, prod: Product, minted: Result<string, string>)
      returns (id: string, err: Option<Error>, ghost repoErr: Option<Error>)
      requires Valid()
      modifies repo, repo.store
      ensures Valid()
      // a failed id source ends Create before the repository is called
      ensures minted.Failure? ==> id == "" && err == Some(Opaque(minted.error))
      ensures minted.Failure? ==> unchanged(repo, repo.store)
      // otherwise the repository is called once, with the minted id and the product's fields
      ensures minted.Success? ==> repo.calls == old(repo.calls) + [R.CreateCall(minted.value, prod, repoErr)]
      ensures minted.Success? && repoErr.None? ==> id == minted.value && err.None?
      ensures minted.Success? && repoErr.Some? ==> id == "" && err == Some(WrapError(ctx, repoErr.value))
      ensures err.Some? ==> id == "" && err.value.Message() == (if minted.Failure? then minted.error else repoErr.value.Message())
      // the repository's outcome, as far as this layer's callers rely on it
      ensures minted.Success? && old(repo.store.outage).None? &&
              (minted.value in old(repo.store.rows) || NameTaken(old(repo.store.rows), prod.name, minted.value)) ==>
        repoErr == Some(ErrAlreadyExists)
      ensures minted.Success? && old(repo.store.outage).None? ==>
        (repoErr.None? <==> minted.value !in old(repo.store.rows) && !NameTaken(old(repo.store.rows), prod.name, minted.value))
      ensures minted.Success? && repoErr.None? ==>
        repo.cache == old(repo.cache)[minted.value := prod] && repo.store.rows == old(repo.store.rows)[minted.value := R.RowOf(prod)]
      ensures minted.Success? && repoErr.Some? ==> repo.cache == old(repo.cache) && repo.store.rows == old(repo.store.rows)
      // an outage fails the call; only a unique violation is turned into ErrAlreadyExists
      ensures minted.Success? && old(repo.store.outage).Some? ==>
        repoErr == (if R.IsUniqueViolation(old(repo.store.outage).value) then Some(ErrAlreadyExists) else old(repo.store.outage))
      ensures repo.store.outage == old(repo.store.outage)
      ensures old(repo.Coherent()) && FitsInt32(prod.price) ==> repo.Coherent()
    {
      repoErr := None;
      if minted.Failure? {
        return "", Some(Opaque(minted.error)), None;
      }
      var uuid := minted.value;
      var e;
      ghost var answer;
      e, answer := repo.Create(uuid, Product(prod.name, prod.price, prod.description));
      repoErr := e;
      if e.Some? {
        return "", Some(WrapError(ctx, e.value)), repoErr;
      }
      return uuid, None, repoErr;
    }

    method Get(id: string) returns (p: Product, err: Option<Error>)
      requires Valid()
      modifies repo`trace, repo`calls
      ensures Valid()
      ensures repo.calls == old(repo.calls) + [R.GetCall(id, p, err)]
      ensures repo.cache == old(repo.cache)
      ensures repo.Coherent() && repo.store.outage.None? && id in repo.store.rows ==>
        p == R.ProductOf(repo.store.rows[id]) && err.None?
      ensures repo.Coherent() && repo.store.outage.None? && id !in repo.store.rows ==> err == Some(ErrNotFound)
      ensures id in repo.cache ==> p == repo.cache[id] && err.None?
      // a miss reports what the store answers
      ensures id !in repo.cache && repo.store.outage.Some? ==>
        p == EmptyProduct && err == Some(if repo.store.outage.value == ErrNoRows then ErrNotFound else repo.store.outage.value)
      ensures id !in repo.cache && repo.store.outage.None? && id in repo.store.rows ==>
        p == R.ProductOf(repo.store.rows[id]) && err.None?
      ensures id !in repo.cache && repo.store.outage.None? && id !in repo.store.rows ==>
        p == EmptyProduct && err == Some(ErrNotFound)
    {
      ghost var answer;
      p, err, answer := repo.Get(id);
    }

    method GetAll() returns (ds: seq<ProductDigest>, err: Option<Error>)
      requires Valid()
      modifies repo`trace, repo`calls
      ensures Valid()
      ensures repo.calls == old(repo.calls) + [R.GetAllCall(ds, err)]
      ensures repo.cache == old(repo.cache)
      ensures repo.store.outage.None? && repo.store.rows == map[] ==> err == Some(ErrNotFound)
      ensures err.Some? ==> ds == [] && (err.value == ErrNotFound || IsStoreError(err.value))
      ensures repo.store.outage.Some? ==> ds == [] && err == Some(repo.store.outage.value)
      // a non-empty store is listed whole, one digest per row in the store's order
      ensures repo.store.outage.None? && repo.store.rows != map[] ==>
        err.None? && |ds| == |repo.store.order| == |repo.store.rows|
      ensures repo.store.outage.None? && repo.store.rows != map[] ==> forall i :: 0 <= i < |ds| ==>
        ds[i] == ProductDigest(repo.store.order[i], repo.store.rows[repo.store.order[i]].name,
                               repo.store.rows[repo.store.order[i]].price)
    {
      ghost var answer;
      ds, err, answer := repo.GetAll();
    }

    method Delete(id: string) returns (err: Option<Error>)
      requires Valid()
      modifies repo, repo.store
      ensures Valid()
      ensures repo.calls == old(repo.calls) + [R.DeleteCall(id, err)]
      ensures err.Some? ==> IsStoreError(err.value) && repo.cache == old(repo.cache)
      ensures err.Some? ==> repo.store.rows == old(repo.store.rows)
      ensures err.None? ==> repo.cache == old(repo.cache) - {id}
      ensures old(repo.store.outage).Some? ==> err == old(repo.store.outage)
      ensures old(repo.store.outage).None? && id in old(repo.store.rows) ==>
        err.None? && repo.store.rows == old(repo.store.rows) - {id}
      ensures old(repo.store.outage).None? && id !in old(repo.store.rows) ==>
        repo.store.rows == old(repo.store.rows) && err == (if repo.store.missingRowFails then Some(ErrNoRows) else None)
      ensures repo.store.outage == old(repo.store.outage)
      ensures old(repo.Coherent()) ==> repo.Coherent()
    {
      err := repo.Delete(id);
    }

    method Update(id: string, prod: Product) returns (err: Option<Error>)
      requires Valid()
      modifies repo, repo.store
      ensures Valid()
      // one repository call, with the product as given: no read, no merge
      ensures repo.calls == old(repo.calls) + [R.UpdateCall(id, prod, err)]
      ensures err.Some? ==> IsStoreError(err.value) && repo.cache == old(repo.cache)
      ensures err.Some? ==> repo.store.rows == old(repo.store.rows)
      ensures err.None? ==> repo.cache == old(repo.cache)[id := prod]
      ensures old(repo.store.outage).Some? ==> err == old(repo.store.outage)
      ensures old(repo.store.outage).None? && id in old(repo.store.rows) && NameTaken(old(repo.store.rows), prod.name, id) ==>
        err == Some(UniqueViolation)
      ensures old(repo.store.outage).None? && id in old(repo.store.rows) && !NameTaken(old(repo.store.rows), prod.name, id) ==>
        err.None? && repo.store.rows == old(repo.store.rows)[id := R.RowOf(prod)]
      ensures old(repo.store.outage).None? && id !in old(repo.store.rows) ==>
        repo.store.rows == old(repo.store.rows) && err == (if repo.store.missingRowFails then Some(ErrNoRows) else None)
      ensures repo.store.outage == old(repo.store.outage)
      ensures old(repo.Coherent()) && FitsInt32(prod.price) && (repo.store.missingRowFails || id in old(repo.store.rows)) ==>
        repo.Coherent()
    {
      err := repo.Update(id, prod);
    }
  }
}
