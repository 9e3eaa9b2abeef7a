/**
 * The profile settings form: the username and bio fields, their initial
 * values, the username check and the save handler.
 */
module ProfileSettings {

  import opened Common
  import opened JsText
  import opened Backend
  import opened Username

  const TooShortMessage := "Username too short (min 3). / Cok kisa."
  const TooLongMessage := "Username too long (max 24). / Cok uzun."
  const CharsetMessage := "Only a-z 0-9 _ - allowed."
  const TakenMessage := "Username already taken. / Kullaniliyor."
  const SaveFailedMessage := "Save failed. / Kayit olmadi."
  const DashboardRoute := "/dashboard"

  /** `/^[a-z0-9_-]+$/.test(u)` */
  predicate MatchesUsernamePattern(u: string) {
    u != [] && forall i :: 0 <= i < |u| ==> UsernameChar(u[i])
  }

  /**
   * `validateUsername(raw)`: '' when the normalised username has 3 to 24
   * characters, else the first message that applies. The character-set
   * message is never returned: normalisation has already removed every
   * other character.
   */
  function ValidateUsername(raw: string): (r: string)
    ensures r == "" <==> 3 <= |NormalizeUsername(raw)| <= 24
    ensures |NormalizeUsername(raw)| < 3 ==> r == TooShortMessage
    ensures |NormalizeUsername(raw)| > 24 ==> r == TooLongMessage
    ensures r != CharsetMessage
  {
    var u := NormalizeUsername(raw);
    if |u| < 3 then TooShortMessage
    else if |u| > 24 then TooLongMessage
    else if !MatchesUsernamePattern(u) then CharsetMessage
    else ""
  }

  /** Validating the normalised username is validating what was typed. */
  lemma ValidateNormalized(raw: string)
    ensures ValidateUsername(NormalizeUsername(raw)) == ValidateUsername(raw)
  {
    NormalizeUsernameIdempotent(raw);
  }

  /** The username field's first value: the profile's username, else the suggestion. */
  function InitialUsername(profile: Option<Profile>, user: User, now: nat): (r: string)
    ensures profile.Some? && profile.value.username.Some? && profile.value.username.value != [] ==>
      r == profile.value.username.value
    ensures !(profile.Some? && profile.value.username.Some? && profile.value.username.value != []) ==>
      r == UsernameFromEmail(user.email, now)
  {
    if profile.Some? && profile.value.username.Some? && profile.value.username.value != [] then profile.value.username.value
    else UsernameFromEmail(user.email, now)
  }

  /** The bio field's first value: the profile's bio, else empty. */
  function InitialBio(profile: Option<Profile>): string {
    if profile.Some? && profile.value.bio.Some? then profile.value.bio.value else ""
  }

  /** The suggestion derived from the email always passes validation. */
  lemma SuggestionValidates(email: Option<string>, now: nat)
    ensures ValidateUsername(UsernameFromEmail(email, now)) == ""
  {
    NormalizeKeepsUsernames(UsernameFromEmail(email, now));
  }

  /** A user with a stored username keeps it; one without starts from a suggestion that validates. */
  lemma InitialUsernameValidates(user: User, now: nat)
    ensures ValidateUsername(InitialUsername(None, user, now)) == ""
  {
    SuggestionValidates(user.email, now);
  }

  /** `bio || null` */
  function BioColumn(bio: string): (r: Option<string>)
    ensures r.None? <==> bio == ""
  {
    if bio == "" then None else Some(bio)
  }

  /** The error message shown for an update error. */
  function UpdateErrorMessage(e: DbError): (r: string)
    ensures r == TakenMessage <==> e.code == UniqueViolation
    ensures r == TakenMessage || r == SaveFailedMessage
  {
    if e.code == UniqueViolation then TakenMessage else SaveFailedMessage
  }

  /** The form's fields. */
  datatype FormState = FormState(username: string, bio: string, saving: bool, error: string, route: Option<string>)

  /** The form and the `profiles` table after a save. */
  datatype SaveStep = SaveStep(form: FormState, rows: map<string, Profile>)

  /**
   * `handleSave` on the form `s` and the table `rows`. `connected` says
   * whether a backend client can be had; when it cannot, the handler throws
   * after setting `saving`.
   */
  function Saved(s: FormState, rows: map<string, Profile>, user: Option<User>, connected: bool, fault: Option<DbError>): SaveStep {
    if user.None? then SaveStep(s, rows)
    else
      var u := NormalizeUsername(s.username);
      var validation := ValidateUsername(u);
      if validation != "" then SaveStep(s.(error := validation), rows)
      else if !connected then SaveStep(s.(error := "", saving := true), rows)
      else
        var id := user.value.id;
        var err := UpdateProfileError(rows, id, u, fault);
        if err.Some? then SaveStep(s.(error := UpdateErrorMessage(err.value), saving := false), rows)
        else
          var after := if id in rows then rows[id := rows[id].(username := Some(u), bio := BioColumn(s.bio))] else rows;
          SaveStep(s.(error := "", saving := false, route := Some(DashboardRoute)), after)
  }

  /** With no user, saving does nothing. */
  lemma SaveWithoutUser(s: FormState, rows: map<string, Profile>, connected: bool, fault: Option<DbError>)
    ensures Saved(s, rows, None, connected, fault) == SaveStep(s, rows)
  {
  }

  /** A username that fails validation is reported and nothing is written. */
  lemma SaveRejectsInvalid(s: FormState, rows: map<string, Profile>, user: User, connected: bool, fault: Option<DbError>)
    requires !(3 <= |NormalizeUsername(s.username)| <= 24)
    ensures var step := Saved(s, rows, Some(user), connected, fault);
      && step.rows == rows && step.form.saving == s.saving && step.form.route == s.route
      && step.form.error == ValidateUsername(s.username) && step.form.error != ""
  {
    ValidateNormalized(s.username);
  }

  /**
   * An update error leaves the table alone, clears `saving` and reports
   * "already taken" exactly for a unique violation, "save failed" otherwise.
   */
  lemma SaveReportsUpdateError(s: FormState, rows: map<string, Profile>, user: User, fault: Option<DbError>)
    requires 3 <= |NormalizeUsername(s.username)| <= 24
    requires UpdateProfileError(rows, user.id, NormalizeUsername(s.username), fault).Some?
    ensures var step := Saved(s, rows, Some(user), true, fault);
      var e := UpdateProfileError(rows, user.id, NormalizeUsername(s.username), fault).value;
      && step.rows == rows && !step.form.saving && step.form.route == s.route
      && (step.form.error == TakenMessage <==> e.code == UniqueViolation)
      && (e.code != UniqueViolation ==> step.form.error == SaveFailedMessage)
  {
    ValidateNormalized(s.username);
  }

  /**
   * A successful save writes the normalised username, which is a valid one,
   * and the bio (empty as null) to the user's row, then goes to the dashboard.
   */
  lemma SaveWritesNormalized(s: FormState, rows: map<string, Profile>, user: User, fault: Option<DbError>)
    requires 3 <= |NormalizeUsername(s.username)| <= 24 && user.id in rows
    requires UpdateProfileError(rows, user.id, NormalizeUsername(s.username), fault).None?
    ensures var step := Saved(s, rows, Some(user), true, fault);
      && user.id in step.rows
      && step.rows[user.id].username == Some(NormalizeUsername(s.username))
      && ValidUsername(step.rows[user.id].username.value)
      && (step.rows[user.id].bio.None? <==> s.bio == "")
      && (forall id :: id in rows && id != user.id ==> id in step.rows && step.rows[id] == rows[id])
      && step.form.error == "" && !step.form.saving && step.form.route == Some(DashboardRoute)
  {
    ValidateNormalized(s.username);
  }

  /** Saving keeps usernames unique. */
  lemma SaveKeepsWellFormed(s: FormState, rows: map<string, Profile>, user: Option<User>, connected: bool, fault: Option<DbError>)
    requires ProfilesWellFormed(rows)
    ensures ProfilesWellFormed(Saved(s, rows, user, connected, fault).rows)
  {
    if user.Some? && connected {
      var u := NormalizeUsername(s.username);
      var id := user.value.id;
      if ValidateUsername(u) == "" && UpdateProfileError(rows, id, u, fault).None? && id in rows {
        UpdateKeepsProfilesWellFormed(rows, id, u, BioColumn(s.bio));
      }
    }
  }

  class ProfileSettingsForm {
    var username: string
    var bio: string
    var saving: bool
    var error: string
    /** The route pushed by the page, if any. */
    var route: Option<string>

    function State(): FormState
      reads this
    {
      FormState(username, bio, saving, error, route)
    }

    constructor ()
      ensures State() == FormState("", "", false, "", None)
    {
      username, bio, saving, error, route := "", "", false, "", None;
    }

    /** The effect that fills the fields once a user is known. */
    method Load(user: Option<User>, profile: Option<Profile>, now: nat)
      modifies this
      ensures user.None? ==> State() == old(State())
      ensures user.Some? ==> State() == old(State()).(username := InitialUsername(profile, user.value, now), bio := InitialBio(profile))
    {
      if user.None? {
        return;
      }
      username := InitialUsername(profile, user.value, now);
      bio := InitialBio(profile);
    }

    /** `handleSave` */
    method HandleSave(user: Option<User>, db: Database, connected: bool, fault: Option<DbError>)
      requires db.Valid()
      modifies this, db
      ensures db.Valid()
      ensures SaveStep(State(), db.profiles) == Saved(old(State()), old(db.profiles), user, connected, fault)
      ensures db.posts == old(db.posts) && db.nextPostId == old(db.nextPostId)
    {
      if user.None? {
        return;
      }
      error := "";
      var u := NormalizeUsername(username);
      var validation := ValidateUsername(u);
      if validation != "" {
        error := validation;
        return;
      }
      saving := true;
      if !connected {
        return;
      }
      var err := db.UpdateProfile(user.value.id, u, BioColumn(bio), fault);
      if err.Some? {
        error := UpdateErrorMessage(err.value);
        saving := false;
        return;
      }
      saving := false;
      route := Some(DashboardRoute);
    }
  }
}
