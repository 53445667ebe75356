/** The `users` table: the shape of one row and the constraints the
    database enforces over all rows. */
module Schema {
  import opened Js

  /** One row of `users`. `id`, `clerkUserId`, `email`, `createdAt` and
      `updatedAt` are NOT NULL; the four descriptive columns are nullable
      (`None` is SQL NULL). Timestamps are ISO-8601 strings. */
  datatype UserRecord = UserRecord(
    id: string,
    clerkUserId: string,
    email: string,
    firstName: Option<string>,
    lastName: Option<string>,
    companyName: Option<string>,
    clerkOrgName: Option<string>,
    createdAt: string,
    updatedAt: string)

  /** The table, indexed by its unique `clerk_user_id` column: every row is
      stored under its own Clerk id (so no two rows share one), and no two
      rows share a primary key `id` or an `email`. */
  ghost predicate ValidTable(rows: map<string, UserRecord>): (b: bool)
    ensures b ==> forall k1, k2 :: k1 in rows && k2 in rows && k1 != k2 ==>
      rows[k1].clerkUserId != rows[k2].clerkUserId
  {
    && (forall k :: k in rows ==> rows[k].clerkUserId == k)
    && (forall k1, k2 :: k1 in rows && k2 in rows && k1 != k2 ==>
          rows[k1].id != rows[k2].id && rows[k1].email != rows[k2].email)
  }

  /** An INSERT of `rec` violates none of the three unique constraints. */
  predicate CanInsert(rows: map<string, UserRecord>, rec: UserRecord) {
    && rec.clerkUserId !in rows
    && forall k :: k in rows ==> rows[k].id != rec.id && rows[k].email != rec.email
  }

  /** Inserting a row that passes the constraint checks keeps the table
      valid, and the new row is found under its Clerk id. */
  lemma InsertKeepsValid(rows: map<string, UserRecord>, rec: UserRecord)
    requires ValidTable(rows) && CanInsert(rows, rec)
    ensures ValidTable(rows[rec.clerkUserId := rec])
    ensures |rows[rec.clerkUserId := rec]| == |rows| + 1
  {
  }

  /** Replacing a row by one with the same Clerk id, primary key and email
      keeps the table valid. */
  lemma ReplaceKeepsValid(rows: map<string, UserRecord>, k: string, rec: UserRecord)
    requires ValidTable(rows) && k in rows
    requires rec.clerkUserId == k && rec.id == rows[k].id && rec.email == rows[k].email
    ensures ValidTable(rows[k := rec])
  {
  }
}
