# gitcraft user reconciliation, counter store and edit-form diff, in Dafny

This project models the parts of the gitcraft demo application that carry
logic:

- **User reconciliation** (`apps/api/src/routes/user/index.ts`). There are three
  handlers over the `users` table, keyed by the Clerk user id:
  - `GET /me` (`UserRoutes.Fetch`);
  - `POST /ensure` (`UserRoutes.Ensure`) creates the caller's row or backfills it;
  - `PATCH /me` (`UserRoutes.Patch`) overwrites the fields that were sent.

  Each handler is an imperative method over a `UsersDb.UsersTable`. That class
  holds the table as a map from Clerk id to row. `Ensure` and `Patch` are proved
  equal to specification functions (`EnsureSpec`, `PatchSpec`) giving the response and
  the table afterwards. Lemmas state the reconciliation rules about those
  functions:
  - user-editable fields are backfill-only;
  - the org name is always refreshed;
  - a write is skipped when there is nothing to set;
  - email, id and `createdAt` never change;
  - the unique constraints hold.
- **The `users` schema** (`libs/drizzle/src/schema.ts`). The row is
  `Schema.UserRecord`, with the nullable columns as `Option`. `Schema.ValidTable`
  states the unique constraints on the primary key, `clerk_user_id` and `email`.
- **The counter store** (`apps/api/src/routes/test/counterStore.ts`). It is the
  class `CounterStore.Counter`, with fields `value` and `step`.
- **The edit form's change detection**
  (`apps/web/src/components/accounts/UserEditForm/UserEditForm.tsx`). It covers
  `hasChanges`, the PATCH payload, and how they connect to `PATCH /me`.

Clerk's answers are plain inputs: the signed-in user id and org id, the Clerk
user profile (or a failed lookup), and the organization lookup. The fresh row
id (`crypto.randomUUID()`) and the current time (`new Date().toISOString()`)
are plain inputs too. JavaScript's `trim` is modelled with its exact
whitespace set (`Js.IsWhitespace`). `??` falls back only on null or undefined
(`Js.Coalesce`).

Behaviour of the code worth knowing:

- `POST /ensure` never changes the email of an existing row. The email is
  taken from Clerk only when the row is created (`EnsureIsSticky`).
- `POST /ensure` is not idempotent in two cases:
  - When an org name is available, every call writes and bumps `updatedAt`
    (`EnsureWithOrgAlwaysWrites`).
  - When a fallback for an empty field is itself blank, every call rewrites
    the field. The blank fallback may come from the body: a whitespace-only
    value trims to `""`, which still counts for `??` and still reads back as
    empty (`EnsureRewritesBlankFallback`). It may also come from the Clerk
    profile, whose names are not trimmed: a Clerk `firstName` of `""` or
    `"  "` is stored as is and is still empty (`EnsureRewritesBlankClerkName`).

  When neither case applies, repeating a call has no effect
  (`EnsureSettles`). A blank fallback does no harm when the stored field is
  not empty, because it is then never written.
- `PATCH /me` maps a unique-constraint failure to `CONFLICT`. No update the
  handlers build touches a unique column, so in this model `PATCH /me` never
  answers `CONFLICT` (`PatchSpec`). `POST /ensure` answers `CONFLICT` only when
  its insert reuses an email or an id (`EnsureCreates`,
  `EnsureSameEmailConflicts`).
- An empty primary email address does not fall back to the first listed
  address, because `??` keeps `""`. It yields `EMAIL_REQUIRED`
  (`ResolveEmail`).
- The error kind `Internal` is sent as the string `INTERNAL_ERROR`.
- The user router is not mounted in `apps/api/src/routes/index.ts`. It is
  modelled anyway.

## Model

| member | source | states |
|---|---|---|
| `Js.Trim` | apps/api/src/routes/user/index.ts:71-73 | the trimmed string is an infix `s[i..j]` of the input with only ECMAScript whitespace before `i` and after `j`, and it neither starts nor ends with whitespace |
| `Js.TrimEmptyIffAllWhitespace` | apps/api/src/routes/user/index.ts:20-22 | a string trims to `''` exactly when every character of it is whitespace |
| `Js.TrimFixesExactlyTrimmed` | apps/api/src/routes/user/index.ts:162-164 | `trim` leaves a string unchanged exactly when it neither starts nor ends with whitespace |
| `Schema.ValidTable` | libs/drizzle/src/schema.ts:5-8 | the table invariant: every row is stored under its own Clerk id and no two rows share an id or an email; it implies that no two rows share a Clerk id |
| `Schema.InsertKeepsValid` | libs/drizzle/src/schema.ts:5-20 | inserting a row that breaks no unique constraint keeps the constraints on id, Clerk id and email, and adds exactly one row |
| `Schema.ReplaceKeepsValid` | libs/drizzle/src/schema.ts:5-20 | replacing a row by one with the same id, Clerk id and email keeps the unique constraints |
| `UsersDb.ApplyChanges` | apps/api/src/routes/user/index.ts:130-135 | an update overwrites only the columns present in the update set and sets `updatedAt`; id, Clerk id, email and `createdAt` are never changed |
| `UsersDb.UsersTable.Find` | apps/api/src/routes/user/index.ts:82-86 | the lookup by Clerk id returns the row stored under that id, or nothing exactly when there is none |
| `UsersDb.UsersTable.Insert` | apps/api/src/routes/user/index.ts:102-106 | the insert succeeds exactly when no unique constraint would break; it then adds the row under its Clerk id, and otherwise changes nothing; the table stays valid |
| `UsersDb.UsersTable.Update` | apps/api/src/routes/user/index.ts:130-135 | the update by Clerk id returns the updated row, or nothing exactly when no row has that id; only that row changes; the table stays valid |
| `Js.Coalesce` | apps/api/src/routes/user/index.ts:59-61 | `a ?? b` is `a` whenever `a` is present, even the empty string, and `b` only when `a` is null or undefined |
| `UserRoutes.ClerkOrgName` | apps/api/src/routes/user/index.ts:8-18 | there is an org name only when an org id is present and the lookup found an organization with a name; a failed lookup yields no name, never an error |
| `UserRoutes.IsEmpty` | apps/api/src/routes/user/index.ts:20-22 | a stored value is empty exactly when it is null or consists only of whitespace |
| `UserRoutes.ResolveEmail` | apps/api/src/routes/user/index.ts:58-68 | a non-empty primary address takes precedence; the first listed address is used only when there is no primary one; an empty result is rejected |
| `UserRoutes.ReadBody` | apps/api/src/routes/user/index.ts:71-73 | the body is rejected exactly when a field holds a non-string; a field is present exactly when a string was sent, and its value is that string trimmed |
| `UserRoutes.ResolveFallbacks` | apps/api/src/routes/user/index.ts:75-77 | a body name, once present, is the fallback even when it trimmed to `''`; without one the Clerk profile name is used; the company fallback comes only from the body |
| `UserRoutes.NewRecord` | apps/api/src/routes/user/index.ts:88-101 | the inserted row carries the fresh id, the caller's Clerk id, the resolved email, the three fallbacks and the org name, with `createdAt` and `updatedAt` both the current time |
| `UserRoutes.BackfillChanges` | apps/api/src/routes/user/index.ts:110-124 | a non-empty name or company field is never in the update set; an empty one receives the fallback; the org name is always included when known |
| `UserRoutes.PatchChanges` | apps/api/src/routes/user/index.ts:167-171 | the patch update set is empty exactly when no field was sent and no org name is known |
| `UserRoutes.EnsureSpec` | apps/api/src/routes/user/index.ts:50-151 | a failed ensure leaves the table unchanged; it fails with UNAUTHENTICATED without a user id, INTERNAL when the Clerk lookup fails, EMAIL_REQUIRED without an email |
| `UserRoutes.PatchSpec` | apps/api/src/routes/user/index.ts:155-208 | a failed patch leaves the table unchanged; it fails with UNAUTHENTICATED without a user id; it never answers CONFLICT; success replaces only the caller's row |
| `UserRoutes.Fetch` | apps/api/src/routes/user/index.ts:25-46 | UNAUTHENTICATED without a user id; otherwise the caller's row exactly when it exists, else USER_NOT_FOUND |
| `UserRoutes.Ensure` | apps/api/src/routes/user/index.ts:50-151 | the handler's response and the table afterwards are those of `EnsureSpec`, and the table stays valid |
| `UserRoutes.Patch` | apps/api/src/routes/user/index.ts:155-208 | the handler's response and the table afterwards are those of `PatchSpec`, and the table stays valid |
| `UserRoutes.EnsureKeepsTable` | apps/api/src/routes/user/index.ts:88-137 | ensure keeps the unique constraints, removes no row and changes no row but the caller's |
| `UserRoutes.EnsureCreates` | apps/api/src/routes/user/index.ts:70-107 | for a new Clerk user, ensure inserts one row with the caller's Clerk id, the Clerk email and the fresh id; each name is the trimmed body value, else the Clerk value; the company comes only from the body; the org name is the resolved one; `createdAt == updatedAt`; the insert conflicts exactly when the email or id is taken |
| `UserRoutes.EnsureIsSticky` | apps/api/src/routes/user/index.ts:110-124 | ensure on an existing row never changes a first, last or company name that is non-empty after trimming, nor the id, Clerk id, email or `createdAt` |
| `UserRoutes.EnsureBackfills` | apps/api/src/routes/user/index.ts:110-137 | ensure fills each empty field that has a fallback and keeps every other name field as stored; it refreshes a known org name and otherwise keeps the stored one; with nothing to set it returns the stored row with no write; otherwise it writes and bumps `updatedAt` |
| `UserRoutes.EnsureSettles` | apps/api/src/routes/user/index.ts:110-127 | repeating a successful ensure with the same inputs changes nothing, when no org name is known and every blank fallback meets a stored field that is not empty (so no blank value is written) |
| `UserRoutes.EnsureWithOrgAlwaysWrites` | apps/api/src/routes/user/index.ts:121-128 | with an org name known, ensure on an existing row always writes and bumps `updatedAt` |
| `UserRoutes.EnsureRewritesBlankFallback` | apps/api/src/routes/user/index.ts:71-114 | a whitespace-only body first name is stored as `''` and is written again, with a new `updatedAt`, on the next ensure |
| `UserRoutes.EnsureRewritesBlankClerkName` | apps/api/src/routes/user/index.ts:74-114 | with no first name in the body, a blank Clerk profile first name is stored untrimmed and is written again, with a new `updatedAt`, on the next ensure |
| `UserRoutes.EnsureSameEmailConflicts` | apps/api/src/routes/user/index.ts:88-146 | after one new Clerk user is created, a second new Clerk user with the same email, whatever its body, org and time, gets CONFLICT and the table is unchanged |
| `UserRoutes.PatchKeepsTable` | apps/api/src/routes/user/index.ts:153-194 | patch keeps the unique constraints and the set of rows; it never changes any row's email, id or `createdAt`; it changes no row but the caller's |
| `UserRoutes.PatchNoChanges` | apps/api/src/routes/user/index.ts:162-179 | patch answers NO_CHANGES exactly when no field was sent and no org name is known, whether or not the caller has a row |
| `UserRoutes.PatchOverwrites` | apps/api/src/routes/user/index.ts:162-194 | with something to set, patch answers USER_NOT_FOUND without a row; otherwise each sent field becomes its trimmed value, unsent fields are kept, a known org name is refreshed and `updatedAt` is bumped |
| `CounterStore.InitialSettings` | apps/api/src/routes/test/counterStore.ts:6-17 | the initial value and step are the environment numbers, or 0 and 1 when they are not finite numbers |
| `CounterStore.AfterCountsMovesBySteps` | apps/api/src/routes/test/counterStore.ts:39-47 | after n counts the value has advanced by n steps and the step is unchanged |
| `CounterStore.CountsAreDistinct` | apps/api/src/routes/test/counterStore.ts:39-47 | with a non-zero step no count is handed out twice |
| `CounterStore.Counter.constructor` | apps/api/src/routes/test/counterStore.ts:14-17 | the settings start as `InitialSettings` of the environment |
| `CounterStore.Counter.GetSettings` | apps/api/src/routes/test/counterStore.ts:19-21 | returns the current value and step as a copy |
| `CounterStore.Counter.UpdateSettings` | apps/api/src/routes/test/counterStore.ts:23-37 | value is replaced only by a finite number; step only by a finite non-zero number, so a zero step is never installed; an empty update changes nothing; the new settings are returned |
| `CounterStore.Counter.ReadAndIncrement` | apps/api/src/routes/test/counterStore.ts:42-47 | returns the old value as `current` and `current + step` as `next`, and leaves `value == next` with `step` unchanged |
| `CounterStore.CountTwice` | apps/api/src/routes/test/counterStore.ts:39-47 | of two consecutive counts, the second `current` is the first `next` |
| `UserEditForm.InitialForm` | apps/web/src/components/accounts/UserEditForm/UserEditForm.tsx:16-25 | a form freshly opened on a user shows each stored value, with null as `''`, and has no changes |
| `UserEditForm.HasChanges` | apps/web/src/components/accounts/UserEditForm/UserEditForm.tsx:22-25 | the form has changes exactly when some editable field differs from its stored value, with null read as `''` |
| `UserEditForm.SaveDisabled` | apps/web/src/components/accounts/UserEditForm/UserEditForm.tsx:70 | Save is enabled exactly when nothing is loading and the payload it would send is non-empty |
| `UserEditForm.Payload` | apps/web/src/components/accounts/UserEditForm/UserEditForm.tsx:22-38 | the payload holds only first, last and company keys, never `email` or `clerkOrgName`; it is non-empty exactly when `hasChanges` is true |
| `UserEditForm.BuildPayload` | apps/web/src/components/accounts/UserEditForm/UserEditForm.tsx:32-38 | the payload built key by key is the one that holds a key exactly for each edited field, with the edited string as its value |
| `UserEditForm.EnabledSaveIsNeverNoChanges` | apps/web/src/components/accounts/UserEditForm/UserEditForm.tsx:70 | whenever Save is enabled (not loading and `hasChanges`), PATCH /me does not answer NO_CHANGES to the payload sent |
| `UserEditForm.SaveRoundTrip` | apps/web/src/components/accounts/UserEditForm/UserEditForm.tsx:32-45 | saving a changed form whose edited inputs have no surrounding whitespace stores what the form shows (unedited inputs are not sent and may hold anything); the form re-opened on the returned row is the same form, with no changes |

## Left out

- Clerk SDK calls (`getAuth`, `requireAuth`, `users.getUser`, `organizations.getOrganization`) are not modelled. Their results are inputs.
- Express routing and HTTP status codes are not modelled. Only the error kind is kept.
- Unique-constraint detection by searching the error message for `UNIQUE` is not modelled. The table's insert refuses a row that would break a constraint instead.
- Database failures other than unique-constraint violations are not modelled, because the in-memory table never fails. So `GET /me` never answers INTERNAL in the model, and `POST /ensure` and `PATCH /me` answer INTERNAL only for a failed Clerk user lookup or a non-string body field.
- An update that finds no row after `POST /ensure` has already read it needs a concurrent delete. It is not modelled, because operations run one at a time.
- Concurrent `POST /ensure` races are not modelled. The uniqueness arbitration is modelled sequentially (`EnsureSameEmailConflicts`).
- `crypto.randomUUID()` and the clock are not modelled. They are inputs.
- Database connection and setup, the Prisma library and the deployment infrastructure have no behaviour to model here.
- React rendering, hooks, loading and error state of the edit form, and the fetch call are not modelled. Only `hasChanges`, the payload and the Save button's `disabled` condition are.
- JavaScript strings are UTF-16 code units, while Dafny's `char` is a Unicode scalar. No whitespace character is a surrogate, so `trim` is unaffected.
- The counter's numbers are JavaScript doubles, modelled as unbounded integers. Fractions, rounding, overflow to Infinity, `-0` and `Number(...)` string parsing are not modelled. An input that is not a finite number is `None`.
