/**
 * `ensureProfile`: make sure the signed-in user has a row in `profiles`,
 * creating one under a username suggested from the email address, and
 * retrying once with a random suffix when that username is taken.
 */
module EnsureProfile {

  import opened Common
  import opened Backend
  import opened Username

  /** What the backend reports for each of the calls `ensureProfile` may issue. */
  datatype EnsureFaults = EnsureFaults(
    lookup: Option<DbError>,
    firstInsert: Option<DbError>,
    secondInsert: Option<DbError>,
    reread: Option<DbError>)

  /** The profile returned (null as `None`) and the `profiles` table afterwards. */
  datatype Outcome = Outcome(profile: Option<Profile>, rows: map<string, Profile>)

  /** The two usernames tried: the suggestion, then the suggestion, '-' and a random suffix. */
  function Candidates(user: User, now: nat, suffix: string): (r: seq<string>)
    ensures |r| == 2 && r[1] == r[0] + "-" + suffix
    ensures ValidUsername(r[0])
  {
    var base := UsernameFromEmail(user.email, now);
    [base, base + "-" + suffix]
  }

  /**
   * The retry candidate is not checked against the 24-character limit: a
   * local part of 24 or more username characters gives a 24-character
   * suggestion, and the '-' and the suffix take the retry name past it.
   */
  lemma RetryCandidateTooLong(id: string, local: string, domain: string, now: nat, suffix: string)
    requires |local| >= 24 && forall i :: 0 <= i < |local| ==> UsernameChar(local[i])
    ensures var retry := Candidates(User(id, Some(local + "@" + domain)), now, suffix)[1];
      |retry| == 25 + |suffix| && !ValidUsername(retry)
  {
    LongLocalPartFillsLimit(local, domain, now);
  }

  /**
   * The insert loop from the candidate `cands[0]` on: the first insert that
   * succeeds ends it with the re-read row; a unique violation moves on to the
   * next candidate; any other error ends it with nothing.
   */
  function Attempt(rows: map<string, Profile>, id: string, cands: seq<string>,
                   faults: seq<Option<DbError>>, reread: Option<DbError>): Outcome
    requires |faults| == |cands|
  {
    if cands == [] then Outcome(None, rows)
    else
      var err := InsertProfileError(rows, id, cands[0], faults[0]);
      if err.None? then
        var after := rows[id := Profile(id, Some(cands[0]), None)];
        Outcome(if reread.Some? then None else Some(after[id]), after)
      else if err.value.code != UniqueViolation then Outcome(None, rows)
      else Attempt(rows, id, cands[1..], faults[1..], reread)
  }

  /** The whole of `ensureProfile(user)` on the table `rows`. */
  function Ensured(rows: map<string, Profile>, user: User, now: nat, suffix: string, f: EnsureFaults): Outcome {
    if f.lookup.Some? then Outcome(None, rows)
    else if user.id in rows then Outcome(Some(rows[user.id]), rows)
    else Attempt(rows, user.id, Candidates(user, now, suffix), [f.firstInsert, f.secondInsert], f.reread)
  }

  method EnsureProfile(db: Database, user: User, now: nat, suffix: string, f: EnsureFaults) returns (r: Option<Profile>)
    requires db.Valid()
    modifies db
    ensures db.Valid()
    ensures Outcome(r, db.profiles) == Ensured(old(db.profiles), user, now, suffix, f)
    ensures db.posts == old(db.posts) && db.nextPostId == old(db.nextPostId)
  {
    var existing := db.SelectProfile(user.id, f.lookup);
    if existing.Err? {
      return None;
    }
    if existing.value.Some? {
      return existing.value;
    }
    var candidates := Candidates(user, now, suffix);
    var faults := [f.firstInsert, f.secondInsert];
    for i := 0 to |candidates|
      invariant db.Valid() && db.profiles == old(db.profiles)
      invariant db.posts == old(db.posts) && db.nextPostId == old(db.nextPostId)
      invariant Ensured(old(db.profiles), user, now, suffix, f)
             == Attempt(db.profiles, user.id, candidates[i..], faults[i..], f.reread)
    {
      var err := db.InsertProfile(user.id, candidates[i], faults[i]);
      if err.None? {
        var created := db.SelectProfile(user.id, f.reread);
        return if created.Ok? then created.value else None;
      }
      if err.value.code != UniqueViolation {
        return None;
      }
    }
    return None;
  }

  /**
   * The loop inserts at most one row, for `id`, under one of the candidates,
   * and a profile it returns is that row.
   */
  lemma {:induction false} AttemptShape(rows: map<string, Profile>, id: string, cands: seq<string>,
                                        faults: seq<Option<DbError>>, reread: Option<DbError>)
    requires |faults| == |cands|
    ensures var o := Attempt(rows, id, cands, faults, reread);
      && (o.rows == rows || exists i :: 0 <= i < |cands| && o.rows == rows[id := Profile(id, Some(cands[i]), None)])
      && (o.profile.Some? ==> id in o.rows && o.profile.value == o.rows[id] && o.profile.value.id == id)
  {
    if cands != [] && InsertProfileError(rows, id, cands[0], faults[0]).Some?
       && InsertProfileError(rows, id, cands[0], faults[0]).value.code == UniqueViolation {
      AttemptShape(rows, id, cands[1..], faults[1..], reread);
      var o := Attempt(rows, id, cands[1..], faults[1..], reread);
      if o.rows != rows {
        var i :| 0 <= i < |cands| - 1 && o.rows == rows[id := Profile(id, Some(cands[1..][i]), None)];
        assert o.rows == rows[id := Profile(id, Some(cands[i + 1]), None)];
      }
    }
  }

  /**
   * `ensureProfile` changes the table by at most one new row, for the user,
   * under the suggestion or the suggestion with the suffix; a profile it
   * returns is the user's row.
   */
  lemma EnsuredShape(rows: map<string, Profile>, user: User, now: nat, suffix: string, f: EnsureFaults)
    requires ProfilesWellFormed(rows)
    ensures var o := Ensured(rows, user, now, suffix, f);
      var base := UsernameFromEmail(user.email, now);
      && (o.rows == rows
          || (user.id !in rows && f.lookup.None?
              && (o.rows == rows[user.id := Profile(user.id, Some(base), None)]
                  || o.rows == rows[user.id := Profile(user.id, Some(base + "-" + suffix), None)])))
      && (o.profile.Some? ==> user.id in o.rows && o.profile.value == o.rows[user.id] && o.profile.value.id == user.id)
  {
    if f.lookup.None? && user.id !in rows {
      AttemptShape(rows, user.id, Candidates(user, now, suffix), [f.firstInsert, f.secondInsert], f.reread);
    }
  }

  /** A lookup error or an existing row means no insert at all. */
  lemma EnsuredWithoutInsert(rows: map<string, Profile>, user: User, now: nat, suffix: string, f: EnsureFaults)
    requires f.lookup.Some? || user.id in rows
    ensures Ensured(rows, user, now, suffix, f).rows == rows
    ensures Ensured(rows, user, now, suffix, f).profile == if f.lookup.Some? then None else Some(rows[user.id])
  {
  }

  /** An insert error other than a unique violation ends the call: the second candidate is never tried. */
  lemma EnsuredStopsOnOtherError(rows: map<string, Profile>, user: User, now: nat, suffix: string,
                                 f: EnsureFaults, second: Option<DbError>)
    requires f.lookup.None? && user.id !in rows
    requires f.firstInsert.Some? && f.firstInsert.value.code != UniqueViolation
    ensures Ensured(rows, user, now, suffix, f) == Outcome(None, rows)
    ensures Ensured(rows, user, now, suffix, f.(secondInsert := second)) == Ensured(rows, user, now, suffix, f)
  {
  }

  /** A unique violation on the suggestion moves on to the suggestion with the suffix. */
  lemma EnsuredRetriesOnConflict(rows: map<string, Profile>, user: User, now: nat, suffix: string, f: EnsureFaults)
    requires f.lookup.None? && user.id !in rows && f.firstInsert.None?
    requires UsernameTaken(rows, UsernameFromEmail(user.email, now), user.id)
    ensures var second := UsernameFromEmail(user.email, now) + "-" + suffix;
      Ensured(rows, user, now, suffix, f) == Attempt(rows, user.id, [second], [f.secondInsert], f.reread)
  {
    var c := Candidates(user, now, suffix);
    assert c[1..] == [c[1]];
  }

  /** When both candidates are taken, the result is null and the table is unchanged. */
  lemma EnsuredBothTaken(rows: map<string, Profile>, user: User, now: nat, suffix: string, f: EnsureFaults)
    requires f.lookup.None? && user.id !in rows && f.firstInsert.None? && f.secondInsert.None?
    requires UsernameTaken(rows, UsernameFromEmail(user.email, now), user.id)
    requires UsernameTaken(rows, UsernameFromEmail(user.email, now) + "-" + suffix, user.id)
    ensures Ensured(rows, user, now, suffix, f) == Outcome(None, rows)
  {
    EnsuredRetriesOnConflict(rows, user, now, suffix, f);
  }

  /** A free suggestion is inserted and returned as the user's new profile. */
  lemma EnsuredCreates(rows: map<string, Profile>, user: User, now: nat, suffix: string, f: EnsureFaults)
    requires f.lookup.None? && user.id !in rows && f.firstInsert.None? && f.reread.None?
    requires !UsernameTaken(rows, UsernameFromEmail(user.email, now), user.id)
    ensures var p := Profile(user.id, Some(UsernameFromEmail(user.email, now)), None);
      Ensured(rows, user, now, suffix, f) == Outcome(Some(p), rows[user.id := p])
  {
  }

  /** `ensureProfile` keeps usernames unique and rows keyed by their id. */
  lemma EnsuredKeepsWellFormed(rows: map<string, Profile>, user: User, now: nat, suffix: string, f: EnsureFaults)
    requires ProfilesWellFormed(rows)
    ensures ProfilesWellFormed(Ensured(rows, user, now, suffix, f).rows)
  {
    var c := Candidates(user, now, suffix);
    if f.lookup.None? && user.id !in rows {
      var faults := [f.firstInsert, f.secondInsert];
      assert c[1..] == [c[1]] && faults[1..] == [f.secondInsert];
      var first := InsertProfileError(rows, user.id, c[0], f.firstInsert);
      var second := InsertProfileError(rows, user.id, c[1], f.secondInsert);
      if first.None? {
        InsertKeepsProfilesWellFormed(rows, user.id, c[0]);
      } else if first.value.code == UniqueViolation {
        if second.None? {
          InsertKeepsProfilesWellFormed(rows, user.id, c[1]);
          assert Attempt(rows, user.id, [c[1]], [f.secondInsert], f.reread).rows
              == rows[user.id := Profile(user.id, Some(c[1]), None)];
        } else {
          assert Attempt(rows, user.id, [c[1]], [f.secondInsert], f.reread).rows == rows;
        }
      }
    }
  }

  /**
   * Once a call has returned a profile, a later call (whose lookup succeeds)
   * inserts nothing and returns the same profile.
   */
  lemma EnsuredIdempotent(rows: map<string, Profile>, user: User, now: nat, suffix: string, f: EnsureFaults,
                          now2: nat, suffix2: string, g: EnsureFaults)
    requires ProfilesWellFormed(rows)
    requires Ensured(rows, user, now, suffix, f).profile.Some? && g.lookup.None?
    ensures var o := Ensured(rows, user, now, suffix, f);
      Ensured(o.rows, user, now2, suffix2, g) == o
  {
    EnsuredShape(rows, user, now, suffix, f);
  }
}
