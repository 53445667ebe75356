/** The change detection of the account edit form: which of the three
    editable fields differ from the stored user, and the PATCH /me payload
    built from them. */
module UserEditForm {
  import opened Js
  import opened Schema
  import UserRoutes

  /** The three text inputs of the form. */
  datatype EditForm = EditForm(firstName: string, lastName: string, companyName: string)

  /** The payload keys the form may send. */
  const EditableKeys: set<string> := {"firstName", "lastName", "companyName"}

  /** The edited string behind a payload key. */
  function Edited(f: EditForm, key: string): string
    requires key in EditableKeys
  {
    if key == "firstName" then f.firstName
    else if key == "lastName" then f.lastName
    else f.companyName
  }

  /** The stored value behind a payload key, with null read as `''`. */
  function Stored(user: UserRecord, key: string): string
    requires key in EditableKeys
  {
    if key == "firstName" then OrEmpty(user.firstName)
    else if key == "lastName" then OrEmpty(user.lastName)
    else OrEmpty(user.companyName)
  }

  /** The form state right after it opens: each input holds the stored
      value, or `''` for null. */
  function InitialForm(user: UserRecord): (f: EditForm)
    ensures !HasChanges(f, user)
    ensures forall key :: key in EditableKeys ==> Edited(f, key) == Stored(user, key)
  {
    EditForm(OrEmpty(user.firstName), OrEmpty(user.lastName), OrEmpty(user.companyName))
  }

  /** `hasChanges`: some editable field differs from its stored value. */
  predicate HasChanges(f: EditForm, user: UserRecord): (b: bool)
    ensures b <==> exists key :: key in EditableKeys && Edited(f, key) != Stored(user, key)
  {
    || f.firstName != OrEmpty(user.firstName)
    || f.lastName != OrEmpty(user.lastName)
    || f.companyName != OrEmpty(user.companyName)
  }

  /** The payload, defined key by key: an editable key is present exactly
      when its field was edited, and carries the edited string. */
  function Payload(f: EditForm, user: UserRecord): (p: map<string, string>)
    ensures p.Keys <= EditableKeys
    ensures ("firstName" in p <==> f.firstName != OrEmpty(user.firstName))
    ensures ("lastName" in p <==> f.lastName != OrEmpty(user.lastName))
    ensures ("companyName" in p <==> f.companyName != OrEmpty(user.companyName))
    ensures forall key :: key in p ==> p[key] == Edited(f, key)
    ensures "email" !in p && "clerkOrgName" !in p
    ensures p != map[] <==> HasChanges(f, user)
  {
    var p := map key | key in EditableKeys && Edited(f, key) != Stored(user, key) :: Edited(f, key);
    assert f.firstName != OrEmpty(user.firstName) ==> "firstName" in p;
    assert f.lastName != OrEmpty(user.lastName) ==> "lastName" in p;
    assert f.companyName != OrEmpty(user.companyName) ==> "companyName" in p;
    p
  }

  /** The payload as `onSubmit` builds it, one conditional key at a time. */
  method BuildPayload(f: EditForm, user: UserRecord) returns (payload: map<string, string>)
    ensures payload == Payload(f, user)
  {
    payload := map[];
    if f.firstName != OrEmpty(user.firstName) {
      payload := payload["firstName" := f.firstName];
    }
    if f.lastName != OrEmpty(user.lastName) {
      payload := payload["lastName" := f.lastName];
    }
    if f.companyName != OrEmpty(user.companyName) {
      payload := payload["companyName" := f.companyName];
    }
  }

  /** The Save button's `disabled` attribute. */
  predicate SaveDisabled(loading: bool, f: EditForm, user: UserRecord): (b: bool)
    ensures !b <==> !loading && Payload(f, user) != map[]
  {
    loading || !HasChanges(f, user)
  }

  /** The JSON body PATCH /me receives for a payload. */
  function PayloadBody(p: map<string, string>): UserRoutes.ProfileBody
  {
    UserRoutes.ProfileBody(
      if "firstName" in p then UserRoutes.Text(p["firstName"]) else UserRoutes.Absent,
      if "lastName" in p then UserRoutes.Text(p["lastName"]) else UserRoutes.Absent,
      if "companyName" in p then UserRoutes.Text(p["companyName"]) else UserRoutes.Absent)
  }

  /** Whenever Save is enabled the request it sends names at least one
      field, so PATCH /me never answers it with NO_CHANGES. */
  lemma {:induction false} EnabledSaveIsNeverNoChanges(loading: bool, f: EditForm, user: UserRecord,
                                                       rows: map<string, UserRecord>, auth: UserRoutes.Auth,
                                                       org: UserRoutes.OrgLookup, now: string)
    requires !SaveDisabled(loading, f, user)
    ensures UserRoutes.PatchSpec(rows, auth, org, PayloadBody(Payload(f, user)), now).result
              != UserRoutes.Err(UserRoutes.NoChanges)
  {
    var p := Payload(f, user);
    assert p != map[];
    assert "firstName" in p || "lastName" in p || "companyName" in p;
    if UserRoutes.Authenticated(auth) {
      UserRoutes.PatchNoChanges(rows, auth, org, PayloadBody(p), now);
    }
  }

  /** One field of a save: the field is sent exactly when it was edited,
      and the server stores the sent value trimmed or keeps the old one. An
      unsent field, or a sent one without surrounding whitespace, is then
      read back as edited. */
  lemma StoredFieldShowsEdit(edited: string, stored: Option<string>)
    requires edited != OrEmpty(stored) ==> NoSurroundingWhitespace(edited)
    ensures OrEmpty(if edited != OrEmpty(stored) then Some(Trim(edited)) else stored) == edited
  {
    if edited != OrEmpty(stored) {
      TrimFixesExactlyTrimmed(edited);
    }
  }

  /** A row whose name fields are the stored ones, with each edited field
      replaced by its trimmed value, re-opens as the form that was saved. */
  lemma SavedRowShowsForm(f: EditForm, user: UserRecord, after: UserRecord)
    requires f.firstName != OrEmpty(user.firstName) ==> NoSurroundingWhitespace(f.firstName)
    requires f.lastName != OrEmpty(user.lastName) ==> NoSurroundingWhitespace(f.lastName)
    requires f.companyName != OrEmpty(user.companyName) ==> NoSurroundingWhitespace(f.companyName)
    requires after.firstName == if f.firstName != OrEmpty(user.firstName) then Some(Trim(f.firstName)) else user.firstName
    requires after.lastName == if f.lastName != OrEmpty(user.lastName) then Some(Trim(f.lastName)) else user.lastName
    requires after.companyName == if f.companyName != OrEmpty(user.companyName) then Some(Trim(f.companyName)) else user.companyName
    ensures InitialForm(after) == f
  {
    StoredFieldShowsEdit(f.firstName, user.firstName);
    StoredFieldShowsEdit(f.lastName, user.lastName);
    StoredFieldShowsEdit(f.companyName, user.companyName);
  }

  /** Saving from a form whose edited inputs carry no surrounding
      whitespace (unedited ones are not sent, so may carry any), against
      the stored row the form was opened on, stores exactly what the form
      shows: the form re-opened on the returned row is the same form and
      has no changes. */
  lemma {:induction false} SaveRoundTrip(f: EditForm, rows: map<string, UserRecord>,
                                         auth: UserRoutes.Auth, org: UserRoutes.OrgLookup, now: string)
    requires UserRoutes.Authenticated(auth) && auth.userId.value in rows
    requires HasChanges(f, rows[auth.userId.value])
    requires var user := rows[auth.userId.value];
      && (f.firstName != OrEmpty(user.firstName) ==> NoSurroundingWhitespace(f.firstName))
      && (f.lastName != OrEmpty(user.lastName) ==> NoSurroundingWhitespace(f.lastName))
      && (f.companyName != OrEmpty(user.companyName) ==> NoSurroundingWhitespace(f.companyName))
    ensures var o := UserRoutes.PatchSpec(rows, auth, org, PayloadBody(Payload(f, rows[auth.userId.value])), now);
      o.result.Ok? && InitialForm(o.result.value) == f && !HasChanges(f, o.result.value)
  {
    var user := rows[auth.userId.value];
    var p := Payload(f, user);
    var body := PayloadBody(p);
    assert "firstName" in p ==> p["firstName"] == Edited(f, "firstName");
    assert "lastName" in p ==> p["lastName"] == Edited(f, "lastName");
    assert "companyName" in p ==> p["companyName"] == Edited(f, "companyName");
    assert body.firstName == (if f.firstName != OrEmpty(user.firstName) then UserRoutes.Text(f.firstName) else UserRoutes.Absent);
    assert body.lastName == (if f.lastName != OrEmpty(user.lastName) then UserRoutes.Text(f.lastName) else UserRoutes.Absent);
    assert body.companyName == (if f.companyName != OrEmpty(user.companyName) then UserRoutes.Text(f.companyName) else UserRoutes.Absent);
    UserRoutes.PatchOverwrites(rows, auth, org, body, now);
    var after := UserRoutes.PatchSpec(rows, auth, org, body, now).result.value;
    SavedRowShowsForm(f, user, after);
  }
}
