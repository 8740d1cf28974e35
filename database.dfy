/** The `users` table as one request's session sees it. Adding rows is the
    flush/commit that assigns ids and where the database enforces the column
    constraints; a request's writes are committed together or not at all. */
module Database {
  import opened Wrappers
  import opened UserModel

  /** Why the database refused a flush. */
  datatype DbError = UniqueViolation(email: string) | ValueTooLong

  /** The first constraint `batch` violates against `rows`, if any. */
  function Violation(rows: seq<User>, batch: seq<NewUser>): (e: Option<DbError>)
    ensures e.None? <==> Admissible(rows, batch)
  {
    if |batch| == 0 then None
    else
      var last := batch[|batch| - 1];
      var init := batch[..|batch| - 1];
      var before := Violation(rows, init);
      if before.Some? then before
      else if EmailTaken(rows, last.email) || EmailTaken(Persist(init, 0), last.email) then
        Some(UniqueViolation(last.email))
      else if |last.passwordHash| > MaxHashLength then Some(ValueTooLong)
      else None
  }

  /** How many objects of `batch` a flush sends before it stops: all of them
      when the batch is admissible, otherwise those up to and including the
      first one refused. Each object sent has drawn a value from the id
      sequence, and the sequence does not give values back. */
  function Attempted(rows: seq<User>, batch: seq<NewUser>): (n: nat)
    ensures n <= |batch|
    ensures Admissible(rows, batch) ==> n == |batch|
    ensures !Admissible(rows, batch) ==>
      1 <= n && Admissible(rows, batch[..n - 1]) && !Admissible(rows, batch[..n])
  {
    if |batch| == 0 then 0
    else
      var init := batch[..|batch| - 1];
      if Admissible(rows, init) then
        assert batch[..|batch|] == batch;
        |batch|
      else
        var m := Attempted(rows, init);
        assert forall k :: 0 <= k < |init| ==> init[k] == batch[k];
        assert init[..m - 1] == batch[..m - 1] && init[..m] == batch[..m];
        m
  }

  class UserTable {
    var rows: seq<User>
    var nextId: int

    ghost predicate Valid()
      reads this
    {
      TableInvariant(rows, nextId)
    }

    /** An empty table whose id sequence starts at 1. */
    constructor ()
      ensures Valid() && rows == [] && nextId == 1
    {
      rows := [];
      nextId := 1;
    }

    /** Flushes `batch`: either every object gets the next id and is stored,
        or a constraint fails and nothing is stored, while the ids drawn by
        the objects sent up to the refused one stay used. */
    method Add(batch: seq<NewUser>) returns (r: Result<seq<User>, DbError>)
      requires Valid()
      modifies this
      ensures Valid()
      ensures r.Success? <==> Admissible(old(rows), batch)
      ensures r.Success? ==>
        && r.value == Persist(batch, old(nextId))
        && rows == old(rows) + r.value
        && nextId == old(nextId) + |batch|
      ensures r.Failure? ==> rows == old(rows) && nextId == old(nextId) + Attempted(old(rows), batch)
    {
      var violation := Violation(rows, batch);
      if violation.Some? {
        nextId := nextId + Attempted(rows, batch);
        return Failure(violation.value);
      }
      PersistKeepsInvariant(rows, nextId, batch);
      var stored := Persist(batch, nextId);
      rows := rows + stored;
      nextId := nextId + |batch|;
      r := Success(stored);
    }
  }
}
