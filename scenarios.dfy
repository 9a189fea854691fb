/**
 * Whole-stack runs on a fresh store, the way the handler, the app, the
 * repository and the store are wired together at start-up.
 */
module Scenarios {
  import opened Wrappers
  import opened Log
  import opened Models
  import opened Db
  import R = Repository
  import A = App
  import opened Handler

  /** A service over an empty, reachable store and an empty cache. */
  method NewService(missingRowFails: bool) returns (svc: ProductService)
    ensures fresh(svc) && fresh(svc.app) && fresh(svc.app.repo) && fresh(svc.app.repo.store)
    ensures svc.Valid() && svc.app.repo.Coherent()
    ensures svc.app.repo.store.rows == map[] && svc.app.repo.store.outage == None
    ensures svc.app.repo.cache == map[] && svc.app.repo.store.missingRowFails == missingRowFails
  {
    var store := new Queries(missingRowFails);
    var repo := new R.Repository(store);
    var app := new A.App(repo);
    svc := new ProductService(app);
  }

  /**
   * Create a Donut, read it, raise its price and read it again: each read
   * sees the last write.
   */
  method DonutLifecycle()
    returns (created: Reply<string>, read1: Reply<ProductMsg>, updated: Reply<()>, read2: Reply<ProductMsg>)
    ensures created == Ok("X")
    ensures read1 == Ok(ProductMsg("Donut", 1000, "Tasty"))
    ensures updated == Ok(())
    ensures read2 == Ok(ProductMsg("Donut", 1200, "Tasty"))
  {
    var svc := NewService(false);
    ghost var e;
    ghost var p;
    created, e := svc.Create(None, ProductMsg("Donut", 1000, "Tasty"), Success("X"));
    assert svc.app.repo.store.rows == map["X" := Row("Donut", 1000, "Tasty")];
    read1, p, e := svc.Get("X");
    assert !NameTaken(svc.app.repo.store.rows, "Donut", "X");
    updated, e := svc.Update(UpdateRequest("X", Some(ProductMsg("Donut", 1200, "Tasty"))));
    read2, p, e := svc.Get("X");
  }

  /**
   * Create a Donut and delete it: a read then finds nothing, and the listing
   * of the emptied store is an empty success.
   */
  method DeleteThenRead() returns (deleted: Reply<()>, read: Reply<ProductMsg>, listed: Reply<Option<seq<DigestMsg>>>)
    ensures deleted == Ok(())
    ensures read == Fail(Status(NotFound, "X not found"))
    ensures listed == Ok(None)
  {
    var svc := NewService(false);
    ghost var e;
    ghost var p;
    ghost var ds;
    var created;
    created, e := svc.Create(None, ProductMsg("Donut", 1000, "Tasty"), Success("X"));
    assert svc.app.repo.store.rows == map["X" := Row("Donut", 1000, "Tasty")];
    assert svc.app.repo.cache == map["X" := Product("Donut", 1000, "Tasty")];
    deleted, e := svc.Delete("X");
    assert svc.app.repo.store.rows == map[] && svc.app.repo.cache == map[];
    read, p, e := svc.Get("X");
    listed, ds, e := svc.GetAll();
  }

  /**
   * Two Creates with the same name: the first succeeds with its id, the
   * second fails, but as Internal with the text "already exists", not as
   * AlreadyExists.
   */
  method DuplicateName() returns (first: Reply<string>, second: Reply<string>)
    ensures first == Ok("X")
    ensures second == Fail(Status(Internal, "already exists"))
  {
    var svc := NewService(false);
    ghost var e;
    first, e := svc.Create(None, ProductMsg("Donut", 1000, "Tasty"), Success("X"));
    assert NameTaken(svc.app.repo.store.rows, "Donut", "Y") by {
      assert "X" in svc.app.repo.store.rows && "X" != "Y";
    }
    second, e := svc.Create(None, ProductMsg("Donut", 1111, "Tasty"), Success("Y"));
  }

  /**
   * Renaming a product to a name another product holds: the store refuses,
   * the client sees Internal with the store's text, and a read still shows
   * the old product.
   */
  method RenameToTakenName() returns (renamed: Reply<()>, read: Reply<ProductMsg>)
    ensures renamed == Fail(Status(Internal, UniqueViolation.Message()))
    ensures read == Ok(ProductMsg("Cake", 700, "Sweet"))
  {
    var svc := NewService(false);
    ghost var e;
    ghost var p;
    var created;
    created, e := svc.Create(None, ProductMsg("Donut", 1000, "Tasty"), Success("X"));
    assert !NameTaken(svc.app.repo.store.rows, "Cake", "Y");
    created, e := svc.Create(None, ProductMsg("Cake", 700, "Sweet"), Success("Y"));
    assert svc.app.repo.store.rows == map["X" := Row("Donut", 1000, "Tasty"), "Y" := Row("Cake", 700, "Sweet")];
    assert NameTaken(svc.app.repo.store.rows, "Donut", "Y") by {
      assert "X" in svc.app.repo.store.rows && "X" != "Y";
    }
    renamed, e := svc.Update(UpdateRequest("Y", Some(ProductMsg("Donut", 900, "Sweet"))));
    assert svc.app.repo.store.rows["Y"] == Row("Cake", 700, "Sweet");
    read, p, e := svc.Get("Y");
  }

  /**
   * With a store whose Update of an absent id succeeds, an Update of an id
   * that was never created puts that id in the cache, and Get then answers
   * from the cache although the store has no such row.
   */
  method UpdateOfAbsentId() returns (updated: Reply<()>, read: Reply<ProductMsg>, inStore: bool)
    ensures updated == Ok(())
    ensures read == Ok(ProductMsg("Ghost", 5, "Never created"))
    ensures !inStore
  {
    var svc := NewService(false);
    ghost var e;
    ghost var p;
    updated, e := svc.Update(UpdateRequest("Z", Some(ProductMsg("Ghost", 5, "Never created"))));
    read, p, e := svc.Get("Z");
    inStore := "Z" in svc.app.repo.store.rows;
  }
}
