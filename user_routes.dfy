/** The user endpoints: `GET /me` (Fetch), `POST /ensure` (Ensure) and
    `PATCH /me` (Patch), over the `users` table.

    What Clerk says (the signed-in user id and org id, the Clerk user
    profile, the organization lookup), the fresh row id and the current
    time are inputs. Each handler is a method over a `UsersTable`, proved to
    agree with a specification function (`EnsureSpec`, `PatchSpec`) that
    gives its result and the table afterwards; the lemmas below state the
    reconciliation rules about those functions. */
module UserRoutes {
  import opened Js
  import opened Schema
  import opened UsersDb

  /** The `error` field of a failed response. `Internal` is sent on the wire
      as `INTERNAL_ERROR`. */
  datatype ErrorKind =
    | Unauthenticated   // UNAUTHENTICATED
    | EmailRequired     // EMAIL_REQUIRED
    | UserNotFound      // USER_NOT_FOUND
    | Conflict          // CONFLICT
    | NoChanges         // NO_CHANGES
    | Internal          // INTERNAL_ERROR

  datatype Result<T> = Ok(value: T) | Err(kind: ErrorKind)

  /** What `getAuth(req)` returns. */
  datatype Auth = Auth(userId: Option<string>, orgId: Option<string>)

  /** `!userId` is false: the id is present and not the empty string. */
  predicate Authenticated(auth: Auth) {
    auth.userId.Some? && auth.userId.value != ""
  }

  /** The parts of `clerkClient.users.getUser(userId)` the handlers read:
      `primaryEmailAddress?.emailAddress`, the `emailAddress` of each entry
      of `emailAddresses`, `firstName` and `lastName`. */
  datatype ClerkUser = ClerkUser(
    primaryEmail: Option<string>,
    emailAddresses: seq<string>,
    firstName: Option<string>,
    lastName: Option<string>)

  /** `clerkClient.organizations.getOrganization(...)`: an organization
      (whose `name` may be missing) or a thrown error. */
  datatype OrgLookup = OrgFound(name: Option<string>) | OrgFailed

  /** One optional field of the JSON request body: missing or null, a
      string, or some other JSON value (on which `.trim()` throws). */
  datatype BodyField = Absent | Text(s: string) | NotText

  /** `{ firstName?, lastName?, companyName? }` of the request body. */
  datatype ProfileBody = ProfileBody(firstName: BodyField, lastName: BodyField, companyName: BodyField)

  /** Three optional name values: trimmed body values, or fallbacks. */
  datatype NameFields = NameFields(firstName: Option<string>, lastName: Option<string>, companyName: Option<string>)

  /** A handler's response together with the table after it. */
  datatype Outcome = Outcome(result: Result<UserRecord>, rows: map<string, UserRecord>)

  /** `getClerkOrgName(orgId)`: no lookup without an org id, and a failed
      lookup means "no org name", never an error. */
  function ClerkOrgName(orgId: Option<string>, org: OrgLookup): (r: Option<string>)
    ensures r.Some? ==> orgId.Some? && orgId.value != "" && org == OrgFound(r)
    ensures orgId.Some? && orgId.value != "" && org.OrgFound? ==> r == org.name
  {
    if orgId.None? || orgId.value == "" then None
    else if org.OrgFound? then org.name
    else None
  }

  /** `isEmpty(v)`: `!v || v.trim() === ''`. */
  function IsEmpty(v: Option<string>): (b: bool)
    ensures b <==> v.None? || AllWhitespace(v.value)
  {
    if v.None? then true
    else
      TrimEmptyIffAllWhitespace(v.value);
      v.value == "" || Trim(v.value) == ""
  }

  /** `clerkUser?.primaryEmailAddress?.emailAddress ??
      clerkUser?.emailAddresses?.[0]?.emailAddress`, rejected when falsy. */
  function ResolveEmail(u: ClerkUser): (r: Option<string>)
    ensures r.Some? ==> r.value != ""
    ensures u.primaryEmail.Some? && u.primaryEmail.value != "" ==> r == u.primaryEmail
    // `??` does not fall back on an empty primary address
    ensures u.primaryEmail == Some("") ==> r.None?
    ensures u.primaryEmail.None? ==>
      (r.Some? <==> |u.emailAddresses| > 0 && u.emailAddresses[0] != "")
    ensures u.primaryEmail.None? && r.Some? ==> r.value == u.emailAddresses[0]
  {
    var listed := if |u.emailAddresses| > 0 then Some(u.emailAddresses[0]) else None;
    var email := Coalesce(u.primaryEmail, listed);
    if email.None? || email.value == "" then None else email
  }

  /** `(req.body?.f as string | undefined)?.trim()` for one field;
      `None` stands for the TypeError thrown on a non-string value. */
  function TrimmedField(f: BodyField): Option<Option<string>> {
    match f
    case Absent => Some(None)
    case Text(s) => Some(Some(Trim(s)))
    case NotText => None
  }

  /** The three trimmed body fields, or `None` when one of them throws.
      A present value comes back without surrounding whitespace. */
  function ReadBody(b: ProfileBody): (r: Option<NameFields>)
    ensures r.None? <==> b.firstName.NotText? || b.lastName.NotText? || b.companyName.NotText?
    ensures r.Some? ==> (r.value.firstName.Some? <==> b.firstName.Text?)
    ensures r.Some? ==> (r.value.lastName.Some? <==> b.lastName.Text?)
    ensures r.Some? ==> (r.value.companyName.Some? <==> b.companyName.Text?)
    ensures r.Some? && b.firstName.Text? ==> r.value.firstName == Some(Trim(b.firstName.s))
    ensures r.Some? && b.lastName.Text? ==> r.value.lastName == Some(Trim(b.lastName.s))
    ensures r.Some? && b.companyName.Text? ==> r.value.companyName == Some(Trim(b.companyName.s))
  {
    var f, l, c := TrimmedField(b.firstName), TrimmedField(b.lastName), TrimmedField(b.companyName);
    if f.None? || l.None? || c.None? then None
    else Some(NameFields(f.value, l.value, c.value))
  }

  /** The fallbacks of `POST /ensure`: the trimmed body value when present,
      else the Clerk profile value; the company name has no Clerk source. */
  function ResolveFallbacks(hints: NameFields, u: ClerkUser): (r: NameFields)
    // a body value wins even when it trimmed to `""`
    ensures hints.firstName.Some? ==> r.firstName == hints.firstName
    ensures hints.lastName.Some? ==> r.lastName == hints.lastName
    ensures hints.firstName.None? ==> r.firstName == u.firstName
    ensures hints.lastName.None? ==> r.lastName == u.lastName
    ensures r.companyName == hints.companyName
  {
    NameFields(Coalesce(hints.firstName, u.firstName), Coalesce(hints.lastName, u.lastName), hints.companyName)
  }

  /** The row `POST /ensure` inserts for a Clerk user seen for the first time. */
  function NewRecord(id: string, clerkUserId: string, email: string, fb: NameFields,
                     orgName: Option<string>, now: string): (r: UserRecord)
    ensures r.id == id && r.clerkUserId == clerkUserId && r.email == email
    ensures r.firstName == fb.firstName && r.lastName == fb.lastName && r.companyName == fb.companyName
    ensures r.clerkOrgName == orgName
    ensures r.createdAt == now && r.updatedAt == now
  {
    UserRecord(id, clerkUserId, email, fb.firstName, fb.lastName, fb.companyName, orgName, now, now)
  }

  /** The update set of `POST /ensure` for an existing row: a user-editable
      field is only backfilled, when it is empty and a fallback exists; the
      org name is refreshed whenever it is known. */
  function BackfillChanges(existing: UserRecord, fb: NameFields, orgName: Option<string>): (r: UserChanges)
    ensures !IsEmpty(existing.firstName) ==> r.firstName.None?
    ensures !IsEmpty(existing.lastName) ==> r.lastName.None?
    ensures !IsEmpty(existing.companyName) ==> r.companyName.None?
    ensures IsEmpty(existing.firstName) ==> r.firstName == fb.firstName
    ensures IsEmpty(existing.lastName) ==> r.lastName == fb.lastName
    ensures IsEmpty(existing.companyName) ==> r.companyName == fb.companyName
    ensures r.clerkOrgName == orgName
  {
    UserChanges(
      if IsEmpty(existing.firstName) then fb.firstName else None,
      if IsEmpty(existing.lastName) then fb.lastName else None,
      if IsEmpty(existing.companyName) then fb.companyName else None,
      orgName)
  }

  /** The update set of `PATCH /me`: every supplied field, plus the org
      name when it is known. There is no slot for `email`. */
  function PatchChanges(fields: NameFields, orgName: Option<string>): (r: UserChanges)
    ensures r.HasNoKeys() <==>
      fields.firstName.None? && fields.lastName.None? && fields.companyName.None? && orgName.None?
  {
    UserChanges(fields.firstName, fields.lastName, fields.companyName, orgName)
  }

  /** What `POST /ensure` answers, and the table afterwards. */
  function EnsureSpec(rows: map<string, UserRecord>, auth: Auth, clerk: Option<ClerkUser>,
                      org: OrgLookup, body: ProfileBody, freshId: string, now: string): (o: Outcome)
    ensures o.result.Err? ==> o.rows == rows
    ensures !Authenticated(auth) ==> o.result == Err(Unauthenticated)
    ensures Authenticated(auth) && clerk.None? ==> o.result == Err(Internal)
    ensures Authenticated(auth) && clerk.Some? && ResolveEmail(clerk.value).None? ==>
      o.result == Err(EmailRequired)
  {
    if !Authenticated(auth) then Outcome(Err(Unauthenticated), rows)
    else if clerk.None? then Outcome(Err(Internal), rows)
    else
      var email := ResolveEmail(clerk.value);
      if email.None? then Outcome(Err(EmailRequired), rows)
      else
        var hints := ReadBody(body);
        if hints.None? then Outcome(Err(Internal), rows)
        else
          var fb := ResolveFallbacks(hints.value, clerk.value);
          var orgName := ClerkOrgName(auth.orgId, org);
          var uid := auth.userId.value;
          if uid !in rows then
            var rec := NewRecord(freshId, uid, email.value, fb, orgName, now);
            if CanInsert(rows, rec) then Outcome(Ok(rec), rows[uid := rec])
            else Outcome(Err(Conflict), rows)
          else
            var ch := BackfillChanges(rows[uid], fb, orgName);
            if ch.HasNoKeys() then Outcome(Ok(rows[uid]), rows)
            else
              var rec := ApplyChanges(rows[uid], ch, now);
              Outcome(Ok(rec), rows[uid := rec])
  }

  /** What `PATCH /me` answers, and the table afterwards. */
  function PatchSpec(rows: map<string, UserRecord>, auth: Auth, org: OrgLookup,
                     body: ProfileBody, now: string): (o: Outcome)
    ensures o.result.Err? ==> o.rows == rows
    ensures !Authenticated(auth) ==> o.result == Err(Unauthenticated)
    // every write leaves the unique columns alone, so no conflict can arise
    ensures o.result != Err(Conflict)
    ensures o.result.Ok? ==> Authenticated(auth) && auth.userId.value in rows
    ensures o.result.Ok? ==> o.rows == rows[auth.userId.value := o.result.value]
  {
    if !Authenticated(auth) then Outcome(Err(Unauthenticated), rows)
    else
      var fields := ReadBody(body);
      if fields.None? then Outcome(Err(Internal), rows)
      else
        var ch := PatchChanges(fields.value, ClerkOrgName(auth.orgId, org));
        if ch.HasNoKeys() then Outcome(Err(NoChanges), rows)
        else
          var uid := auth.userId.value;
          if uid !in rows then Outcome(Err(UserNotFound), rows)
          else
            var rec := ApplyChanges(rows[uid], ch, now);
            Outcome(Ok(rec), rows[uid := rec])
  }

  /** `GET /me`: the caller's row. Reads only. */
  method Fetch(db: UsersTable, auth: Auth) returns (r: Result<UserRecord>)
    ensures !Authenticated(auth) ==> r == Err(Unauthenticated)
    ensures Authenticated(auth) ==> (r.Ok? <==> auth.userId.value in db.rows)
    ensures r.Ok? ==> r.value == db.rows[auth.userId.value]
    ensures Authenticated(auth) && auth.userId.value !in db.rows ==> r == Err(UserNotFound)
  {
    if !Authenticated(auth) {
      return Err(Unauthenticated);
    }
    var user := db.Find(auth.userId.value);
    if user.None? {
      return Err(UserNotFound);
    }
    r := Ok(user.value);
  }

  /** `POST /ensure`: create the caller's row, or backfill it. */
  method Ensure(db: UsersTable, auth: Auth, clerk: Option<ClerkUser>, org: OrgLookup,
                body: ProfileBody, freshId: string, now: string) returns (r: Result<UserRecord>)
    requires db.Valid()
    modifies db
    ensures db.Valid()
    ensures Outcome(r, db.rows) == EnsureSpec(old(db.rows), auth, clerk, org, body, freshId, now)
  {
    if !Authenticated(auth) {
      return Err(Unauthenticated);
    }
    var userId := auth.userId.value;
    if clerk.None? {
      return Err(Internal);
    }
    var clerkUser := clerk.value;
    var email := ResolveEmail(clerkUser);
    if email.None? {
      return Err(EmailRequired);
    }

    var hints := ReadBody(body);
    if hints.None? {
      return Err(Internal);
    }
    var fallbackFirst := Coalesce(hints.value.firstName, clerkUser.firstName);
    var fallbackLast := Coalesce(hints.value.lastName, clerkUser.lastName);
    var fallbackCompany := hints.value.companyName;
    var clerkOrgName := ClerkOrgName(auth.orgId, org);

    var existing := db.Find(userId);
    if existing.None? {
      var user := UserRecord(freshId, userId, email.value, fallbackFirst, fallbackLast,
                             fallbackCompany, clerkOrgName, now, now);
      var inserted := db.Insert(user);
      if !inserted {
        return Err(Conflict);
      }
      return Ok(user);
    }

    var updateData := EmptyChanges;
    if IsEmpty(existing.value.firstName) && fallbackFirst.Some? {
      updateData := updateData.(firstName := fallbackFirst);
    }
    if IsEmpty(existing.value.lastName) && fallbackLast.Some? {
      updateData := updateData.(lastName := fallbackLast);
    }
    if IsEmpty(existing.value.companyName) && fallbackCompany.Some? {
      updateData := updateData.(companyName := fallbackCompany);
    }
    if clerkOrgName.Some? {
      updateData := updateData.(clerkOrgName := clerkOrgName);
    }
    if updateData.HasNoKeys() {
      return Ok(existing.value);
    }
    var user := db.Update(userId, updateData, now);
    r := Ok(user.value);
  }

  /** `PATCH /me`: overwrite the supplied fields of the caller's row. */
  method Patch(db: UsersTable, auth: Auth, org: OrgLookup, body: ProfileBody, now: string)
    returns (r: Result<UserRecord>)
    requires db.Valid()
    modifies db
    ensures db.Valid()
    ensures Outcome(r, db.rows) == PatchSpec(old(db.rows), auth, org, body, now)
  {
    if !Authenticated(auth) {
      return Err(Unauthenticated);
    }
    var fields := ReadBody(body);
    if fields.None? {
      return Err(Internal);
    }
    var clerkOrgName := ClerkOrgName(auth.orgId, org);

    var updateData := EmptyChanges;
    if fields.value.firstName.Some? {
      updateData := updateData.(firstName := fields.value.firstName);
    }
    if fields.value.lastName.Some? {
      updateData := updateData.(lastName := fields.value.lastName);
    }
    if fields.value.companyName.Some? {
      updateData := updateData.(companyName := fields.value.companyName);
    }
    if clerkOrgName.Some? {
      updateData := updateData.(clerkOrgName := clerkOrgName);
    }
    if updateData.HasNoKeys() {
      return Err(NoChanges);
    }

    var updated := db.Update(auth.userId.value, updateData, now);
    if updated.None? {
      return Err(UserNotFound);
    }
    r := Ok(updated.value);
  }

  // ---------------------------------------------------------------------
  // Reconciliation rules of POST /ensure

  /** The request gets past authentication, the Clerk lookup, the email
      check and the body check, and reaches the table. */
  predicate ReachesStore(auth: Auth, clerk: Option<ClerkUser>, body: ProfileBody) {
    Authenticated(auth) && clerk.Some? && ResolveEmail(clerk.value).Some? && ReadBody(body).Some?
  }

  /** The fallback name values of a request that reaches the table. */
  function Fallbacks(clerk: Option<ClerkUser>, body: ProfileBody): NameFields
    requires clerk.Some? && ReadBody(body).Some?
  {
    ResolveFallbacks(ReadBody(body).value, clerk.value)
  }

  /** POST /ensure keeps the table's unique constraints, never removes a
      row, and changes no row but the caller's. */
  lemma EnsureKeepsTable(rows: map<string, UserRecord>, auth: Auth, clerk: Option<ClerkUser>,
                         org: OrgLookup, body: ProfileBody, freshId: string, now: string)
    requires ValidTable(rows)
    ensures var o := EnsureSpec(rows, auth, clerk, org, body, freshId, now);
      && ValidTable(o.rows)
      && rows.Keys <= o.rows.Keys
      && (forall k :: k in o.rows && !(Authenticated(auth) && k == auth.userId.value) ==>
            k in rows && o.rows[k] == rows[k])
  {
    var o := EnsureSpec(rows, auth, clerk, org, body, freshId, now);
    if ReachesStore(auth, clerk, body) {
      var uid := auth.userId.value;
      var fb := Fallbacks(clerk, body);
      var orgName := ClerkOrgName(auth.orgId, org);
      if uid !in rows {
        var rec := NewRecord(freshId, uid, ResolveEmail(clerk.value).value, fb, orgName, now);
        if CanInsert(rows, rec) {
          InsertKeepsValid(rows, rec);
        }
      } else {
        var ch := BackfillChanges(rows[uid], fb, orgName);
        if !ch.HasNoKeys() {
          ReplaceKeepsValid(rows, uid, ApplyChanges(rows[uid], ch, now));
        }
      }
    }
  }

  /** POST /ensure for a Clerk user without a row inserts exactly one row:
      the caller's Clerk id and Clerk email, the fresh id, each name the
      trimmed body value if one was sent and otherwise the Clerk profile
      value (the company name has no Clerk source), the resolved org name,
      and `createdAt == updatedAt`. The insert is refused as a conflict
      exactly when the email or the fresh id is already taken. */
  lemma EnsureCreates(rows: map<string, UserRecord>, auth: Auth, clerk: Option<ClerkUser>,
                      org: OrgLookup, body: ProfileBody, freshId: string, now: string)
    requires ReachesStore(auth, clerk, body) && auth.userId.value !in rows
    ensures var o := EnsureSpec(rows, auth, clerk, org, body, freshId, now);
      var email := ResolveEmail(clerk.value).value;
      && (o.result.Ok? <==> forall k :: k in rows ==> rows[k].email != email && rows[k].id != freshId)
      && (o.result.Err? ==> o.result.kind == Conflict)
      && (o.result.Ok? ==>
            var rec := o.result.value;
            && o.rows == rows[auth.userId.value := rec]
            && |o.rows| == |rows| + 1
            && rec.id == freshId && rec.clerkUserId == auth.userId.value && rec.email == email
            && rec.firstName == (if body.firstName.Text? then Some(Trim(body.firstName.s)) else clerk.value.firstName)
            && rec.lastName == (if body.lastName.Text? then Some(Trim(body.lastName.s)) else clerk.value.lastName)
            && rec.companyName == (if body.companyName.Text? then Some(Trim(body.companyName.s)) else None)
            && rec.clerkOrgName == ClerkOrgName(auth.orgId, org)
            && rec.createdAt == rec.updatedAt == now)
  {
  }

  /** POST /ensure on an existing row never changes a name or company
      field that is non-empty after trimming, and never changes the id,
      the Clerk id, the email or `createdAt`. */
  lemma EnsureIsSticky(rows: map<string, UserRecord>, auth: Auth, clerk: Option<ClerkUser>,
                       org: OrgLookup, body: ProfileBody, freshId: string, now: string)
    requires Authenticated(auth) && auth.userId.value in rows
    ensures var o := EnsureSpec(rows, auth, clerk, org, body, freshId, now);
      var before := rows[auth.userId.value];
      && auth.userId.value in o.rows
      && var after := o.rows[auth.userId.value];
      && after.id == before.id && after.clerkUserId == before.clerkUserId
      && after.email == before.email && after.createdAt == before.createdAt
      && (!IsEmpty(before.firstName) ==> after.firstName == before.firstName)
      && (!IsEmpty(before.lastName) ==> after.lastName == before.lastName)
      && (!IsEmpty(before.companyName) ==> after.companyName == before.companyName)
  {
  }

  /** POST /ensure on an existing row fills each empty field for which a
      fallback exists and keeps every other field as stored, always refreshes the org name when one is known,
      and writes (bumping `updatedAt`) exactly when it has something to set;
      with nothing to set it returns the row as stored. */
  lemma EnsureBackfills(rows: map<string, UserRecord>, auth: Auth, clerk: Option<ClerkUser>,
                        org: OrgLookup, body: ProfileBody, freshId: string, now: string)
    requires ReachesStore(auth, clerk, body) && auth.userId.value in rows
    ensures var o := EnsureSpec(rows, auth, clerk, org, body, freshId, now);
      var uid := auth.userId.value;
      var before := rows[uid];
      var fb := Fallbacks(clerk, body);
      var orgName := ClerkOrgName(auth.orgId, org);
      var nothingToSet :=
        && (IsEmpty(before.firstName) ==> fb.firstName.None?)
        && (IsEmpty(before.lastName) ==> fb.lastName.None?)
        && (IsEmpty(before.companyName) ==> fb.companyName.None?)
        && orgName.None?;
      && o.result.Ok? && uid in o.rows && o.result.value == o.rows[uid]
      && (nothingToSet ==> o == Outcome(Ok(before), rows))
      && (!nothingToSet ==> o.rows == rows[uid := o.result.value] && o.result.value.updatedAt == now)
      && o.rows[uid].firstName == (if IsEmpty(before.firstName) && fb.firstName.Some? then fb.firstName else before.firstName)
      && o.rows[uid].lastName == (if IsEmpty(before.lastName) && fb.lastName.Some? then fb.lastName else before.lastName)
      && o.rows[uid].companyName == (if IsEmpty(before.companyName) && fb.companyName.Some? then fb.companyName else before.companyName)
      && (orgName.Some? ==> o.rows[uid].clerkOrgName == orgName)
      && (orgName.None? ==> o.rows[uid].clerkOrgName == before.clerkOrgName)
  {
  }

  /** No org name is known, and a blank fallback only ever meets a stored
      field that is not empty (so it is never written): under these
      conditions a second POST /ensure has nothing to do. */
  predicate SettlingRequest(rows: map<string, UserRecord>, auth: Auth, clerk: Option<ClerkUser>,
                            org: OrgLookup, body: ProfileBody)
  {
    && ReachesStore(auth, clerk, body)
    && ClerkOrgName(auth.orgId, org).None?
    && var fb := Fallbacks(clerk, body);
    && var uid := auth.userId.value;
    && (fb.firstName.Some? && IsEmpty(fb.firstName) ==> uid in rows && !IsEmpty(rows[uid].firstName))
    && (fb.lastName.Some? && IsEmpty(fb.lastName) ==> uid in rows && !IsEmpty(rows[uid].lastName))
    && (fb.companyName.Some? && IsEmpty(fb.companyName) ==> uid in rows && !IsEmpty(rows[uid].companyName))
  }

  /** Repeating a successful POST /ensure with the same inputs neither
      writes nor bumps `updatedAt` again, provided no blank fallback is
      written and no org name is known (see the two lemmas below for what
      happens otherwise). */
  lemma {:induction false} EnsureSettles(rows: map<string, UserRecord>, auth: Auth, clerk: Option<ClerkUser>,
                                         org: OrgLookup, body: ProfileBody, id1: string, now1: string,
                                         id2: string, now2: string)
    requires SettlingRequest(rows, auth, clerk, org, body)
    requires EnsureSpec(rows, auth, clerk, org, body, id1, now1).result.Ok?
    ensures var o1 := EnsureSpec(rows, auth, clerk, org, body, id1, now1);
      EnsureSpec(o1.rows, auth, clerk, org, body, id2, now2) == o1
  {
    var o1 := EnsureSpec(rows, auth, clerk, org, body, id1, now1);
    var uid := auth.userId.value;
    var fb := Fallbacks(clerk, body);
    var rec := o1.rows[uid];
    assert o1.result == Ok(rec) by {
      if uid in rows { EnsureBackfills(rows, auth, clerk, org, body, id1, now1); }
    }
    assert BackfillChanges(rec, fb, None).HasNoKeys() by {
      if uid in rows {
        EnsureBackfills(rows, auth, clerk, org, body, id1, now1);
      }
    }
  }

  /** With an org name known, every POST /ensure on an existing row writes
      and bumps `updatedAt`, even when nothing else is to be set. */
  lemma EnsureWithOrgAlwaysWrites(rows: map<string, UserRecord>, auth: Auth, clerk: Option<ClerkUser>,
                                  org: OrgLookup, body: ProfileBody, freshId: string, now: string)
    requires ReachesStore(auth, clerk, body) && auth.userId.value in rows
    requires ClerkOrgName(auth.orgId, org).Some?
    ensures var o := EnsureSpec(rows, auth, clerk, org, body, freshId, now);
      o.result.Ok? && o.result.value.updatedAt == now
  {
  }

  /** A whitespace-only body value trims to `""`, which still counts as a
      fallback, and `""` is still empty when read back: so each repeated
      POST /ensure writes the field again and bumps `updatedAt`. */
  lemma {:induction false} EnsureRewritesBlankFallback(rows: map<string, UserRecord>, auth: Auth,
                                                       clerk: Option<ClerkUser>, org: OrgLookup,
                                                       body: ProfileBody, id1: string, now1: string,
                                                       id2: string, now2: string)
    requires ReachesStore(auth, clerk, body) && auth.userId.value in rows
    requires IsEmpty(rows[auth.userId.value].firstName)
    requires body.firstName.Text? && AllWhitespace(body.firstName.s)
    ensures var o1 := EnsureSpec(rows, auth, clerk, org, body, id1, now1);
      var o2 := EnsureSpec(o1.rows, auth, clerk, org, body, id2, now2);
      && o1.result.Ok? && o1.result.value.firstName == Some("")
      && o2.result.Ok? && o2.result.value.firstName == Some("")
      && o2.result.value.updatedAt == now2
  {
    var uid := auth.userId.value;
    TrimEmptyIffAllWhitespace(body.firstName.s);
    assert Fallbacks(clerk, body).firstName == Some("");
    EnsureBackfills(rows, auth, clerk, org, body, id1, now1);
    var o1 := EnsureSpec(rows, auth, clerk, org, body, id1, now1);
    EnsureBackfills(o1.rows, auth, clerk, org, body, id2, now2);
  }

  /** A Clerk profile first name that is blank is not trimmed: with no
      first name in the body it is the fallback, is stored as it is, is
      still empty when read back, and so each repeated POST /ensure writes
      it again and bumps `updatedAt`. */
  lemma {:induction false} EnsureRewritesBlankClerkName(rows: map<string, UserRecord>, auth: Auth,
                                                        clerk: Option<ClerkUser>, org: OrgLookup,
                                                        body: ProfileBody, id1: string, now1: string,
                                                        id2: string, now2: string)
    requires ReachesStore(auth, clerk, body) && auth.userId.value in rows
    requires IsEmpty(rows[auth.userId.value].firstName)
    requires body.firstName.Absent? && clerk.value.firstName.Some? && AllWhitespace(clerk.value.firstName.value)
    ensures var o1 := EnsureSpec(rows, auth, clerk, org, body, id1, now1);
      var o2 := EnsureSpec(o1.rows, auth, clerk, org, body, id2, now2);
      && o1.result.Ok? && o1.result.value.firstName == clerk.value.firstName
      && o2.result.Ok? && o2.result.value.firstName == clerk.value.firstName
      && o2.result.value.updatedAt == now2
  {
    assert Fallbacks(clerk, body).firstName == clerk.value.firstName;
    EnsureBackfills(rows, auth, clerk, org, body, id1, now1);
    var o1 := EnsureSpec(rows, auth, clerk, org, body, id1, now1);
    EnsureBackfills(o1.rows, auth, clerk, org, body, id2, now2);
  }

  /** Two new Clerk users with the same email, one after the other: the
      first POST /ensure creates a row, the second is refused as a conflict
      and changes nothing. */
  lemma {:induction false} EnsureSameEmailConflicts(rows: map<string, UserRecord>,
                                                    auth1: Auth, clerk1: Option<ClerkUser>,
                                                    auth2: Auth, clerk2: Option<ClerkUser>,
                                                    org1: OrgLookup, body1: ProfileBody, id1: string, now1: string,
                                                    org2: OrgLookup, body2: ProfileBody, id2: string, now2: string)
    requires ReachesStore(auth1, clerk1, body1) && ReachesStore(auth2, clerk2, body2)
    requires ResolveEmail(clerk1.value) == ResolveEmail(clerk2.value)
    requires auth1.userId.value !in rows && auth2.userId.value !in rows
    requires auth1.userId.value != auth2.userId.value
    requires EnsureSpec(rows, auth1, clerk1, org1, body1, id1, now1).result.Ok?
    ensures var o1 := EnsureSpec(rows, auth1, clerk1, org1, body1, id1, now1);
      EnsureSpec(o1.rows, auth2, clerk2, org2, body2, id2, now2) == Outcome(Err(Conflict), o1.rows)
  {
    var o1 := EnsureSpec(rows, auth1, clerk1, org1, body1, id1, now1);
    var uid1 := auth1.userId.value;
    EnsureCreates(rows, auth1, clerk1, org1, body1, id1, now1);
    assert uid1 in o1.rows && o1.rows[uid1].email == ResolveEmail(clerk2.value).value;
    EnsureCreates(o1.rows, auth2, clerk2, org2, body2, id2, now2);
  }

  // ---------------------------------------------------------------------
  // Rules of PATCH /me

  /** PATCH /me keeps the unique constraints, changes no row but the
      caller's, and never changes any row's email, id or `createdAt`. */
  lemma PatchKeepsTable(rows: map<string, UserRecord>, auth: Auth, org: OrgLookup,
                        body: ProfileBody, now: string)
    requires ValidTable(rows)
    ensures var o := PatchSpec(rows, auth, org, body, now);
      && ValidTable(o.rows)
      && o.rows.Keys == rows.Keys
      && (forall k :: k in rows ==>
            && o.rows[k].email == rows[k].email && o.rows[k].id == rows[k].id
            && o.rows[k].createdAt == rows[k].createdAt
            && (!(Authenticated(auth) && k == auth.userId.value) ==> o.rows[k] == rows[k]))
  {
    var o := PatchSpec(rows, auth, org, body, now);
    if o.result.Ok? {
      var uid := auth.userId.value;
      ReplaceKeepsValid(rows, uid, o.result.value);
    }
  }

  /** PATCH /me reports NO_CHANGES exactly when no field was sent and no
      org name is known, whether or not the caller has a row. */
  lemma PatchNoChanges(rows: map<string, UserRecord>, auth: Auth, org: OrgLookup,
                       body: ProfileBody, now: string)
    requires Authenticated(auth)
    ensures PatchSpec(rows, auth, org, body, now).result == Err(NoChanges) <==>
      body == ProfileBody(Absent, Absent, Absent) && ClerkOrgName(auth.orgId, org).None?
  {
  }

  /** PATCH /me with something to set: USER_NOT_FOUND without a row;
      otherwise each sent field is overwritten by its trimmed value (even
      a non-empty one, and even with `""`), fields not sent are kept, the
      org name is refreshed when known, and `updatedAt` is bumped. */
  lemma PatchOverwrites(rows: map<string, UserRecord>, auth: Auth, org: OrgLookup,
                        body: ProfileBody, now: string)
    requires Authenticated(auth) && ReadBody(body).Some?
    requires body != ProfileBody(Absent, Absent, Absent) || ClerkOrgName(auth.orgId, org).Some?
    ensures var o := PatchSpec(rows, auth, org, body, now);
      var uid := auth.userId.value;
      var orgName := ClerkOrgName(auth.orgId, org);
      && (uid !in rows ==> o.result == Err(UserNotFound))
      && (uid in rows ==>
            var before := rows[uid];
            var after := o.result.value;
            && o.result.Ok? && o.rows[uid] == after && after.updatedAt == now
            && after.firstName == (if body.firstName.Text? then Some(Trim(body.firstName.s)) else before.firstName)
            && after.lastName == (if body.lastName.Text? then Some(Trim(body.lastName.s)) else before.lastName)
            && after.companyName == (if body.companyName.Text? then Some(Trim(body.companyName.s)) else before.companyName)
            && after.clerkOrgName == (if orgName.Some? then orgName else before.clerkOrgName))
  {
  }
}
