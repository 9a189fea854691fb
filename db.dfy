/**
 * The relational store behind the repository: a stand-in for the generated
 * db.Queries over PostgreSQL. Only the behaviour the repository depends on is
 * modelled: rows keyed by id with a unique name, the unique-violation and
 * no-rows errors, and an `outage` through which any other store error (a lost
 * connection, a cancelled context) can occur.
 */
module Db {
  import opened Wrappers
  import opened Models

  /** The row Get returns (created_at is not modelled). */
  datatype Row = Row(name: string, price: Int32, description: string)

  /** The row GetAll returns for each product. */
  datatype ListedRow = ListedRow(id: string, name: string, price: Int32)

  /** What a failed INSERT or UPDATE against the unique indexes returns. */
  const UniqueViolation: Error := PgError("ERROR", "duplicate key value violates unique constraint", UniqueErrCode)

  predicate Distinct(ids: seq<string>) {
    forall i, j :: 0 <= i < j < |ids| ==> ids[i] != ids[j]
  }

  /** `ids` without `id`. */
  function Without(ids: seq<string>, id: string): (r: seq<string>)
    ensures forall x :: x in r <==> x in ids && x != id
    ensures Distinct(ids) ==> Distinct(r)
  {
    if ids == [] then []
    else if ids[0] == id then Without(ids[1..], id)
    else
      var rest := Without(ids[1..], id);
      assert Distinct(ids) ==> ids[0] !in ids[1..];
      [ids[0]] + rest
  }

  /** Some row other than `except` already has this name. */
  predicate NameTaken(rows: map<string, Row>, name: string, except: string) {
    exists k :: k in rows && k != except && rows[k].name == name
  }

  class Queries {
    var rows: map<string, Row>
    /** The order in which GetAll lists the rows. */
    var order: seq<string>
    /** When set, every query fails with this error and changes nothing. */
    var outage: Option<Error>
    /**
     * Whether Update and Delete of an absent id report ErrNoRows (a query
     * that returns the row) or succeed without effect (a plain exec).
     */
    const missingRowFails: bool

    ghost predicate Valid()
      reads this
    {
      && (outage.Some? ==> IsStoreError(outage.value))
      && Distinct(order)
      && (forall id :: id in rows <==> id in order)
      && (forall a, b :: a in rows && b in rows && rows[a].name == rows[b].name ==> a == b)
    }

    constructor (missingRowFails: bool)
      ensures Valid()
      ensures rows == map[] && order == [] && outage == None
      ensures this.missingRowFails == missingRowFails
    {
      rows := map[];
      order := [];
      outage := None;
      this.missingRowFails := missingRowFails;
    }

    /** The environment starts or ends an outage. */
    method SetOutage(e: Option<Error>)
      requires Valid()
      requires e.Some? ==> IsStoreError(e.value)
      modifies this
      ensures Valid()
      ensures outage == e && rows == old(rows) && order == old(order)
    {
      outage := e;
    }

    method Create(id: string, name: string, price: Int32, description: string) returns (err: Option<Error>)
      requires Valid()
      modifies this
      ensures Valid() && outage == old(outage)
      ensures err.Some? ==> IsStoreError(err.value) && rows == old(rows) && order == old(order)
      ensures old(outage).Some? ==> err == old(outage)
      ensures old(outage).None? && (id in old(rows) || NameTaken(old(rows), name, id)) ==>
        err == Some(UniqueViolation)
      ensures old(outage).None? && id !in old(rows) && !NameTaken(old(rows), name, id) ==>
        err.None? && rows == old(rows)[id := Row(name, price, description)] && order == old(order) + [id]
    {
      if outage.Some? {
        return outage;
      }
      if id in rows || NameTaken(rows, name, id) {
        return Some(UniqueViolation);
      }
      rows := rows[id := Row(name, price, description)];
      order := order + [id];
      err := None;
    }

    method Get(id: string) returns (r: Result<Row, Error>)
      requires Valid()
      ensures r.Failure? ==> IsStoreError(r.error)
      ensures outage.Some? ==> r == Failure(outage.value)
      ensures outage.None? && id in rows ==> r == Success(rows[id])
      ensures outage.None? && id !in rows ==> r == Failure(ErrNoRows)
    {
      if outage.Some? {
        return Failure(outage.value);
      }
      if id in rows {
        return Success(rows[id]);
      }
      return Failure(ErrNoRows);
    }

    method GetAll() returns (r: Result<seq<ListedRow>, Error>)
      requires Valid()
      ensures r.Failure? ==> IsStoreError(r.error)
      ensures outage.Some? ==> r == Failure(outage.value)
      ensures outage.None? ==> r.Success? && |r.value| == |order| == |rows|
      ensures outage.None? ==> forall i :: 0 <= i < |order| ==>
        r.value[i] == ListedRow(order[i], rows[order[i]].name, rows[order[i]].price)
    {
      if outage.Some? {
        return Failure(outage.value);
      }
      DistinctCoversAll(order, rows.Keys);
      var o, rs := order, rows;
      var listed := seq(|o|, i requires 0 <= i < |o| && o[i] in rs => ListedRow(o[i], rs[o[i]].name, rs[o[i]].price));
      return Success(listed);
    }

    method Delete(id: string) returns (err: Option<Error>)
      requires Valid()
      modifies this
      ensures Valid() && outage == old(outage)
      ensures err.Some? ==> IsStoreError(err.value) && rows == old(rows) && order == old(order)
      ensures old(outage).Some? ==> err == old(outage)
      ensures old(outage).None? && id in old(rows) ==>
        err.None? && rows == old(rows) - {id} && order == Without(old(order), id)
      ensures old(outage).None? && id !in old(rows) ==>
        rows == old(rows) && order == old(order) && err == (if missingRowFails then Some(ErrNoRows) else None)
    {
      if outage.Some? {
        return outage;
      }
      if id !in rows {
        return if missingRowFails then Some(ErrNoRows) else None;
      }
      rows := rows - {id};
      order := Without(order, id);
      err := None;
    }

    method Update(id: string, name: string, price: Int32, description: string) returns (err: Option<Error>)
      requires Valid()
      modifies this
      ensures Valid() && outage == old(outage) && order == old(order)
      ensures err.Some? ==> IsStoreError(err.value) && rows == old(rows)
      ensures old(outage).Some? ==> err == old(outage)
      ensures old(outage).None? && id !in old(rows) ==>
        rows == old(rows) && err == (if missingRowFails then Some(ErrNoRows) else None)
      ensures old(outage).None? && id in old(rows) && NameTaken(old(rows), name, id) ==>
        err == Some(UniqueViolation)
      ensures old(outage).None? && id in old(rows) && !NameTaken(old(rows), name, id) ==>
        err.None? && rows == old(rows)[id := Row(name, price, description)]
    {
      if outage.Some? {
        return outage;
      }
      if id !in rows {
        return if missingRowFails then Some(ErrNoRows) else None;
      }
      if NameTaken(rows, name, id) {
        return Some(UniqueViolation);
      }
      rows := rows[id := Row(name, price, description)];
      err := None;
    }
  }

  /** A duplicate-free listing of a key set has as many entries as the set. */
  lemma {:induction false} DistinctCoversAll(ids: seq<string>, keys: set<string>)
    requires Distinct(ids)
    requires forall id :: id in keys <==> id in ids
    ensures |ids| == |keys|
  {
    if ids != [] {
      var rest := ids[1..];
      assert Distinct(rest) by {
        forall i, j | 0 <= i < j < |rest| ensures rest[i] != rest[j] {
          assert rest[i] == ids[i + 1] && rest[j] == ids[j + 1];
        }
      }
      assert ids[0] !in rest;
      forall id ensures id in keys - {ids[0]} <==> id in rest {
        assert id in ids <==> id == ids[0] || id in rest by { assert ids == [ids[0]] + rest; }
      }
      DistinctCoversAll(rest, keys - {ids[0]});
    }
  }
}
