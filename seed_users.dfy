/** The idempotent seeder: inserts the three default accounts whose emails are
    not in the table yet and reports how many it created and skipped. */
module Seeds {
  import opened Wrappers
  import opened UserModel
  import opened Database
  import opened Security

  datatype SeedEntry = SeedEntry(email: string, fullName: string, password: string, role: Role, isActive: bool)

  const SeedPassword := "password123"

  /** `SEED_USERS`: one active account per role. */
  const SeedList: seq<SeedEntry> := [
    SeedEntry("admin@example.com", "Super Admin", SeedPassword, SuperAdmin, true),
    SeedEntry("editor@example.com", "Editor One", SeedPassword, Editor, true),
    SeedEntry("subscriber@example.com", "Subscriber One", SeedPassword, Subscriber, true)
  ]

  /** The seeder's summary. */
  datatype SeedReport = SeedReport(created: nat, skipped: int)

  predicate DistinctEmails(entries: seq<SeedEntry>) {
    forall i, j :: 0 <= i < j < |entries| ==> entries[i].email != entries[j].email
  }

  /** The seed list has three distinct emails, one per role, all active. */
  lemma SeedListShape()
    ensures |SeedList| == 3 && DistinctEmails(SeedList)
    ensures SeedList[0].role == SuperAdmin && SeedList[1].role == Editor && SeedList[2].role == Subscriber
    ensures forall k :: 0 <= k < |SeedList| ==> SeedList[k].isActive
  {
  }

  /** The object the seeder adds for `entry`: its fields and the hash of its password. */
  function SeedObject(entry: SeedEntry, hash: Hasher): (u: NewUser)
    ensures u.email == entry.email && u.fullName == Some(entry.fullName)
    ensures u.role == entry.role && u.isActive == entry.isActive
    ensures u.passwordHash == hash(entry.password)
  {
    NewUser(entry.email, hash(entry.password), Some(entry.fullName), entry.role, entry.isActive)
  }

  /** The objects the seeder adds for `entries`, in order: one per entry whose
      email no row of `rows` carries. */
  function Missing(entries: seq<SeedEntry>, rows: seq<User>, hash: Hasher): (batch: seq<NewUser>)
    ensures |batch| <= |entries|
    ensures forall u :: u in batch ==>
      exists entry :: entry in entries && !EmailTaken(rows, entry.email) && u == SeedObject(entry, hash)
  {
    if |entries| == 0 then []
    else
      var init := entries[..|entries| - 1];
      var last := entries[|entries| - 1];
      var before := Missing(init, rows, hash);
      assert forall entry :: entry in init ==> entry in entries;
      if EmailTaken(rows, last.email) then before else before + [SeedObject(last, hash)]
  }

  /** The seed emails that no row carries. */
  ghost function AbsentEmails(entries: seq<SeedEntry>, rows: seq<User>): set<string> {
    set i | 0 <= i < |entries| && !EmailTaken(rows, entries[i].email) :: entries[i].email
  }

  /** The count the seeder reports as created is the number of seed emails not
      yet in the table. */
  lemma {:induction false} MissingCountsAbsent(entries: seq<SeedEntry>, rows: seq<User>, hash: Hasher)
    requires DistinctEmails(entries)
    ensures |Missing(entries, rows, hash)| == |AbsentEmails(entries, rows)|
  {
    if |entries| > 0 {
      var init := entries[..|entries| - 1];
      var last := entries[|entries| - 1];
      MissingCountsAbsent(init, rows, hash);
      var absent := AbsentEmails(init, rows);
      assert forall i :: 0 <= i < |init| ==> init[i] == entries[i];
      assert last.email !in absent;
      if EmailTaken(rows, last.email) {
        assert AbsentEmails(entries, rows) == absent;
      } else {
        assert AbsentEmails(entries, rows) == absent + {last.email};
      }
    }
  }

  /** With distinct seed emails and a hash that fits its column, the batch
      satisfies every constraint, so the commit cannot fail. */
  lemma {:induction false} MissingAdmissible(entries: seq<SeedEntry>, rows: seq<User>, hash: Hasher)
    requires DistinctEmails(entries)
    requires forall i :: 0 <= i < |entries| ==> |hash(entries[i].password)| <= MaxHashLength
    ensures Admissible(rows, Missing(entries, rows, hash))
  {
    if |entries| > 0 {
      var init := entries[..|entries| - 1];
      var last := entries[|entries| - 1];
      assert forall i :: 0 <= i < |init| ==> init[i] == entries[i];
      MissingAdmissible(init, rows, hash);
      var before := Missing(init, rows, hash);
      forall k | 0 <= k < |before|
        ensures before[k].email != last.email
      {
        assert before[k] in before;
        var entry :| entry in init && before[k] == SeedObject(entry, hash);
        var i :| 0 <= i < |init| && init[i] == entry;
      }
    }
  }

  /** Appending rows never removes an email. */
  lemma EmailTakenGrows(rows: seq<User>, more: seq<User>, email: string)
    requires EmailTaken(rows, email)
    ensures EmailTaken(rows + more, email)
  {
    var k :| 0 <= k < |rows| && rows[k].email == email;
    assert (rows + more)[k] == rows[k];
  }

  /** Every email of `entries` is carried by some row. */
  predicate AllPresent(entries: seq<SeedEntry>, rows: seq<User>) {
    forall i :: 0 <= i < |entries| ==> EmailTaken(rows, entries[i].email)
  }

  /** After the seeder's rows are written, every seed email is in the table. */
  lemma {:induction false} MissingCoversAll(entries: seq<SeedEntry>, rows: seq<User>, hash: Hasher, nextId: int)
    ensures AllPresent(entries, rows + Persist(Missing(entries, rows, hash), nextId))
  {
    if |entries| > 0 {
      var init := entries[..|entries| - 1];
      var last := entries[|entries| - 1];
      var batch := Missing(init, rows, hash);
      var before := rows + Persist(batch, nextId);
      MissingCoversAll(init, rows, hash, nextId);
      var more: seq<User>;
      if EmailTaken(rows, last.email) {
        assert Missing(entries, rows, hash) == batch;
        more := [];
        EmailTakenGrows(rows, Persist(batch, nextId), last.email);
      } else {
        var obj := SeedObject(last, hash);
        assert Missing(entries, rows, hash) == batch + [obj];
        more := [Stored(obj, nextId + |batch|)];
        assert Persist(batch + [obj], nextId) == Persist(batch, nextId) + more;
        assert (before + more)[|before|].email == last.email;
      }
      var after := before + more;
      assert after == rows + Persist(Missing(entries, rows, hash), nextId);
      forall i | 0 <= i < |entries| ensures EmailTaken(after, entries[i].email) {
        if i < |init| {
          assert init[i] == entries[i];
          assert EmailTaken(before, init[i].email);
          EmailTakenGrows(before, more, init[i].email);
        } else if EmailTaken(rows, last.email) {
          EmailTakenGrows(rows, Persist(batch, nextId), last.email);
          assert after == before;
        }
      }
    }
  }

  /** When every seed email is already present nothing is missing. */
  lemma {:induction false} NothingMissingWhenAllPresent(entries: seq<SeedEntry>, rows: seq<User>, hash: Hasher)
    requires AllPresent(entries, rows)
    ensures Missing(entries, rows, hash) == []
  {
    if |entries| > 0 {
      var init := entries[..|entries| - 1];
      assert forall i :: 0 <= i < |init| ==> init[i] == entries[i];
      NothingMissingWhenAllPresent(init, rows, hash);
    }
  }

  /** Running the seeder a second time finds nothing to insert: it creates 0
      and skips all 3. */
  lemma SeedSecondRunCreatesNothing(rows: seq<User>, hash: Hasher, nextId: int)
    ensures var after := rows + Persist(Missing(SeedList, rows, hash), nextId);
      Missing(SeedList, after, hash) == []
  {
    MissingCoversAll(SeedList, rows, hash, nextId);
    NothingMissingWhenAllPresent(SeedList, rows + Persist(Missing(SeedList, rows, hash), nextId), hash);
  }

  /** `seed_users`: look up which seed emails exist, add an object for each
      one that does not, counting them, and commit only when something was
      added. Existing rows are never touched. */
  method SeedUsers(table: UserTable, hash: Hasher) returns (r: Result<SeedReport, DbError>)
    requires table.Valid()
    modifies table
    ensures table.Valid()
    ensures r.Success? ==>
      && r.value.created == |Missing(SeedList, old(table.rows), hash)|
      && r.value.created + r.value.skipped == |SeedList|
      && table.rows == old(table.rows) + Persist(Missing(SeedList, old(table.rows), hash), old(table.nextId))
      && table.nextId == old(table.nextId) + r.value.created
    ensures r.Failure? ==> table.rows == old(table.rows)
    ensures table.nextId == old(table.nextId) + Attempted(old(table.rows), Missing(SeedList, old(table.rows), hash))
    ensures |hash(SeedPassword)| <= MaxHashLength ==> r.Success?
    ensures Missing(SeedList, old(table.rows), hash) == [] ==>
      r == Success(SeedReport(0, |SeedList|)) && table.rows == old(table.rows) && table.nextId == old(table.nextId)
  {
    var emails := set entry | entry in SeedList :: entry.email;
    var existing := set k | 0 <= k < |table.rows| && table.rows[k].email in emails :: table.rows[k].email;
    var created := 0;
    var pending: seq<NewUser> := [];
    for i := 0 to |SeedList|
      invariant pending == Missing(SeedList[..i], table.rows, hash)
      invariant created == |pending|
    {
      var entry := SeedList[i];
      assert SeedList[..i + 1][..i] == SeedList[..i];
      if entry.email in existing {
        continue;
      }
      pending := pending + [SeedObject(entry, hash)];
      created := created + 1;
    }
    assert SeedList[..|SeedList|] == SeedList;
    if created > 0 {
      SeedListShape();
      if |hash(SeedPassword)| <= MaxHashLength {
        MissingAdmissible(SeedList, table.rows, hash);
      }
      var committed := table.Add(pending);
      if committed.Failure? {
        return Failure(committed.error);
      }
    }
    r := Success(SeedReport(created, |SeedList| - created));
  }
}
