/**
 * The hosted backend's `profiles` and `posts` tables, as far as the
 * application's queries reach them. Each call takes the failure, if any, that
 * the backend reports for reasons the application cannot see (network,
 * row-level security, a missing table): `fault`.
 */
module Backend {

  import opened Common
  import opened Seqs

  /** The PostgreSQL error code for a uniqueness violation. */
  const UniqueViolation := "23505"

  datatype DbError = DbError(code: string)

  /** The authenticated user: an id and, possibly, an email address. */
  datatype User = User(id: string, email: Option<string>)

  /** A row of `profiles` (its avatar and timestamp columns are not modelled). */
  datatype Profile = Profile(id: string, username: Option<string>, bio: Option<string>)

  datatype Visibility = Public | Private | Unlisted

  /** A row of `posts` (its workspace and timestamp columns are not modelled). */
  datatype Post = Post(
    id: int,
    authorId: string,
    title: string,
    content: string,
    slug: string,
    visibility: Visibility,
    isPublished: bool)

  /** The `profiles` table is keyed by id and its usernames are unique. */
  ghost predicate ProfilesWellFormed(rows: map<string, Profile>) {
    && (forall id :: id in rows ==> rows[id].id == id)
    && (forall a, b :: a in rows && b in rows && a != b && rows[a].username.Some? ==>
          rows[a].username != rows[b].username)
  }

  /** Some row other than `except` already holds `username`. */
  predicate UsernameTaken(rows: map<string, Profile>, username: string, except: string) {
    exists id :: id in rows && id != except && rows[id].username == Some(username)
  }

  /** The error, if any, of `insert({id, username})` into `profiles`. */
  function InsertProfileError(rows: map<string, Profile>, id: string, username: string, fault: Option<DbError>): (r: Option<DbError>)
    ensures fault.None? && (id in rows || UsernameTaken(rows, username, id)) ==> r == Some(DbError(UniqueViolation))
    ensures r.None? <==> fault.None? && id !in rows && !UsernameTaken(rows, username, id)
  {
    if fault.Some? then fault
    else if id in rows || UsernameTaken(rows, username, id) then Some(DbError(UniqueViolation))
    else None
  }

  /** The error, if any, of `update({username, bio}).eq('id', id)` on `profiles`. */
  function UpdateProfileError(rows: map<string, Profile>, id: string, username: string, fault: Option<DbError>): (r: Option<DbError>)
    ensures r.None? <==> fault.None? && (id !in rows || !UsernameTaken(rows, username, id))
  {
    if fault.Some? then fault
    else if id in rows && UsernameTaken(rows, username, id) then Some(DbError(UniqueViolation))
    else None
  }

  /** An insert of a fresh id with a username no row holds keeps the table well formed. */
  lemma InsertKeepsProfilesWellFormed(rows: map<string, Profile>, id: string, username: string)
    requires ProfilesWellFormed(rows) && id !in rows && !UsernameTaken(rows, username, id)
    ensures ProfilesWellFormed(rows[id := Profile(id, Some(username), None)])
  {
  }

  /** An update to a username no other row holds keeps the table well formed. */
  lemma UpdateKeepsProfilesWellFormed(rows: map<string, Profile>, id: string, username: string, bio: Option<string>)
    requires ProfilesWellFormed(rows) && id in rows && !UsernameTaken(rows, username, id)
    ensures ProfilesWellFormed(rows[id := rows[id].(username := Some(username), bio := bio)])
  {
  }

  /** `posts` after `delete().eq('id', postId)`. */
  function DeletePostRows(posts: seq<Post>, postId: int): seq<Post> {
    Filter(posts, (p: Post) => p.id != postId)
  }

  /** One row after `update({is_published: true, visibility: 'private'}).eq('author_id', a).eq('is_published', false)`. */
  function PublishIfLegacyOf(authorId: string, p: Post): Post {
    if p.authorId == authorId && !p.isPublished then p.(isPublished := true, visibility := Private) else p
  }

  class Database {
    var profiles: map<string, Profile>
    var posts: seq<Post>
    var nextPostId: int

    ghost predicate Valid()
      reads this
    {
      ProfilesWellFormed(profiles)
    }

    /** `from('profiles').select(...).eq('id', id).maybeSingle()` */
    method SelectProfile(id: string, fault: Option<DbError>) returns (r: Result<Option<Profile>, DbError>)
      ensures fault.Some? ==> r == Err(fault.value)
      ensures fault.None? ==> r == Ok(if id in profiles then Some(profiles[id]) else None)
    {
      if fault.Some? {
        return Err(fault.value);
      }
      r := Ok(if id in profiles then Some(profiles[id]) else None);
    }

    /** `from('profiles').insert({id, username})` */
    method InsertProfile(id: string, username: string, fault: Option<DbError>) returns (err: Option<DbError>)
      requires Valid()
      modifies this
      ensures Valid()
      ensures err == InsertProfileError(old(profiles), id, username, fault)
      ensures profiles == if err.None? then old(profiles)[id := Profile(id, Some(username), None)] else old(profiles)
      ensures posts == old(posts) && nextPostId == old(nextPostId)
    {
      err := InsertProfileError(profiles, id, username, fault);
      if err.None? {
        InsertKeepsProfilesWellFormed(profiles, id, username);
        profiles := profiles[id := Profile(id, Some(username), None)];
      }
    }

    /** `from('profiles').update({username, bio}).eq('id', id)` */
    method UpdateProfile(id: string, username: string, bio: Option<string>, fault: Option<DbError>) returns (err: Option<DbError>)
      requires Valid()
      modifies this
      ensures Valid()
      ensures err == UpdateProfileError(old(profiles), id, username, fault)
      ensures profiles ==
        if err.None? && id in old(profiles)
        then old(profiles)[id := old(profiles)[id].(username := Some(username), bio := bio)]
        else old(profiles)
      ensures posts == old(posts) && nextPostId == old(nextPostId)
    {
      err := UpdateProfileError(profiles, id, username, fault);
      if err.None? && id in profiles {
        UpdateKeepsProfilesWellFormed(profiles, id, username, bio);
        profiles := profiles[id := profiles[id].(username := Some(username), bio := bio)];
      }
    }

    /** `from('posts').insert({...}).select().single()`: the new row, with the next id. */
    method InsertPost(authorId: string, title: string, content: string, slug: string,
                      visibility: Visibility, isPublished: bool, fault: Option<DbError>)
      returns (r: Result<Post, DbError>)
      modifies this
      ensures fault.Some? ==> r == Err(fault.value) && posts == old(posts) && nextPostId == old(nextPostId)
      ensures fault.None? ==>
        && r == Ok(Post(old(nextPostId), authorId, title, content, slug, visibility, isPublished))
        && posts == old(posts) + [r.value] && nextPostId == old(nextPostId) + 1
      ensures profiles == old(profiles)
    {
      if fault.Some? {
        return Err(fault.value);
      }
      var post := Post(nextPostId, authorId, title, content, slug, visibility, isPublished);
      posts := posts + [post];
      nextPostId := nextPostId + 1;
      r := Ok(post);
    }

    /** `from('posts').delete().eq('id', postId)` */
    method DeletePost(postId: int, fault: Option<DbError>) returns (err: Option<DbError>)
      modifies this
      ensures err == fault
      ensures posts == if fault.None? then DeletePostRows(old(posts), postId) else old(posts)
      ensures profiles == old(profiles) && nextPostId == old(nextPostId)
    {
      err := fault;
      if fault.None? {
        posts := DeletePostRows(posts, postId);
      }
    }

    /** The legacy-draft fix: every unpublished post of `authorId` becomes published and private. */
    method PublishLegacyDrafts(authorId: string, fault: Option<DbError>) returns (err: Option<DbError>)
      modifies this
      ensures err == fault
      ensures posts == if fault.None? then Map(old(posts), (p: Post) => PublishIfLegacyOf(authorId, p)) else old(posts)
      ensures profiles == old(profiles) && nextPostId == old(nextPostId)
    {
      err := fault;
      if fault.None? {
        posts := Map(posts, (p: Post) => PublishIfLegacyOf(authorId, p));
      }
    }
  }
}
