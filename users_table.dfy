/** The database operations the user handlers perform on `users`:
    `select ... where clerk_user_id = ?`, `insert`, and
    `update ... set ... where clerk_user_id = ?` with `returning()`. */
module UsersDb {
  import opened Js
  import opened Schema

  /** The columns an update may set (`Partial<User>` as the handlers build
      it). `Some` means the key is present. The handlers never put `id`,
      `clerkUserId`, `email` or `createdAt` into an update, so those have no
      slot here; `updatedAt` is passed separately. */
  datatype UserChanges = UserChanges(
    firstName: Option<string>,
    lastName: Option<string>,
    companyName: Option<string>,
    clerkOrgName: Option<string>)
  {
    /** `Object.keys(updateData).length === 0`. */
    predicate HasNoKeys() {
      firstName.None? && lastName.None? && companyName.None? && clerkOrgName.None?
    }
  }

  const EmptyChanges := UserChanges(None, None, None, None)

  /** The row after `set(changes)` with `updatedAt = now`: each present key
      overwrites its column, every other column keeps its value. */
  function ApplyChanges(rec: UserRecord, ch: UserChanges, now: string): (r: UserRecord)
    ensures r.id == rec.id && r.clerkUserId == rec.clerkUserId && r.email == rec.email
    ensures r.createdAt == rec.createdAt && r.updatedAt == now
    ensures r.firstName == Coalesce(ch.firstName, rec.firstName)
    ensures r.lastName == Coalesce(ch.lastName, rec.lastName)
    ensures r.companyName == Coalesce(ch.companyName, rec.companyName)
    ensures r.clerkOrgName == Coalesce(ch.clerkOrgName, rec.clerkOrgName)
  {
    rec.(firstName := if ch.firstName.Some? then ch.firstName else rec.firstName,
         lastName := if ch.lastName.Some? then ch.lastName else rec.lastName,
         companyName := if ch.companyName.Some? then ch.companyName else rec.companyName,
         clerkOrgName := if ch.clerkOrgName.Some? then ch.clerkOrgName else rec.clerkOrgName,
         updatedAt := now)
  }

  /** The `users` table of the application database. */
  class UsersTable {
    var rows: map<string, UserRecord>

    ghost predicate Valid()
      reads this
    {
      ValidTable(rows)
    }

    constructor ()
      ensures Valid() && rows == map[]
    {
      rows := map[];
    }

    /** `select().from(users).where(eq(users.clerkUserId, k)).get()`. */
    method Find(k: string) returns (rec: Option<UserRecord>)
      ensures rec.Some? <==> k in rows
      ensures rec.Some? ==> rec.value == rows[k]
    {
      rec := if k in rows then Some(rows[k]) else None;
    }

    /** `insert(users).values(rec).returning().get()`. A row that would
        repeat a Clerk id, a primary key or an email is refused (the unique
        constraint failure the handlers report as a conflict) and nothing
        changes. */
    method Insert(rec: UserRecord) returns (ok: bool)
      requires Valid()
      modifies this
      ensures Valid()
      ensures ok == CanInsert(old(rows), rec)
      ensures rows == if ok then old(rows)[rec.clerkUserId := rec] else old(rows)
    {
      ok := CanInsert(rows, rec);
      if ok {
        InsertKeepsValid(rows, rec);
        rows := rows[rec.clerkUserId := rec];
      }
    }

    /** `update(users).set(changes + updatedAt).where(eq(users.clerkUserId, k))
        .returning().get()`: the updated row, or `None` when no row has that
        Clerk id (and then nothing changes). No unique column is written, so
        the update never violates a constraint. */
    method Update(k: string, ch: UserChanges, now: string) returns (rec: Option<UserRecord>)
      requires Valid()
      modifies this
      ensures Valid()
      ensures rec.Some? <==> k in old(rows)
      ensures rec.Some? ==> rec.value == ApplyChanges(old(rows)[k], ch, now)
      ensures rows == if rec.Some? then old(rows)[k := rec.value] else old(rows)
    {
      if k in rows {
        var updated := ApplyChanges(rows[k], ch, now);
        ReplaceKeepsValid(rows, k, updated);
        rows := rows[k := updated];
        rec := Some(updated);
      } else {
        rec := None;
      }
    }
  }
}
