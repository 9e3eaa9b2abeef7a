/**
 * The dashboard: the signed-in user's posts with their status labels, and
 * the handlers that create, delete, share and repair posts.
 */
module Dashboard {

  import opened Common
  import opened Seqs
  import opened JsText
  import opened Backend
  import opened EnsureProfile

  const LegacyDraftLabel := "Legacy Draft"
  const OpenLabel := "Open"
  const PrivateLabel := "Private"
  const ProfileSettingsRoute := "/settings/profile"
  const NotPublishedAlert := "Open editor and Save first. / Once duzenle ve Save."
  const NotPublicAlert := "Set to Open to share. / Paylasmak icin Open yap."
  const UntitledTitle := "Untitled"

  /** `statusLabel(p)` */
  function StatusLabel(p: Post): (r: string)
    ensures r == LegacyDraftLabel <==> !p.isPublished
    ensures r == OpenLabel <==> p.isPublished && p.visibility == Public
    ensures r == PrivateLabel <==> p.isPublished && p.visibility != Public
  {
    if !p.isPublished then LegacyDraftLabel
    else if p.visibility == Public then OpenLabel
    else PrivateLabel
  }

  predicate IsLegacyDraft(p: Post) { !p.isPublished }

  /** `posts.filter(p => !p.is_published)` */
  function LegacyDrafts(posts: seq<Post>): (r: seq<Post>)
    ensures forall i :: 0 <= i < |r| ==> !r[i].isPublished
  {
    Filter(posts, IsLegacyDraft)
  }

  /** The legacy drafts are exactly the unpublished posts of the list. */
  lemma LegacyDraftsExactly(posts: seq<Post>, p: Post)
    ensures p in LegacyDrafts(posts) <==> p in posts && !p.isPublished
  {
    FilterMembership(posts, IsLegacyDraft, p);
  }

  /** The list after a delete of `postId`: every other post, in order. */
  function WithoutPost(posts: seq<Post>, postId: int): (r: seq<Post>)
    ensures forall i :: 0 <= i < |r| ==> r[i].id != postId
  {
    Filter(posts, (p: Post) => p.id != postId)
  }

  /** A delete removes the posts with that id and keeps every other one. */
  lemma WithoutPostExactly(posts: seq<Post>, postId: int, p: Post)
    ensures p in WithoutPost(posts, postId) <==> p in posts && p.id != postId
  {
    FilterMembership(posts, (q: Post) => q.id != postId, p);
  }

  /** A delete of an id the list does not hold changes nothing. */
  lemma WithoutAbsentPost(posts: seq<Post>, postId: int)
    requires forall i :: 0 <= i < |posts| ==> posts[i].id != postId
    ensures WithoutPost(posts, postId) == posts
  {
    FilterAll(posts, (p: Post) => p.id != postId);
  }

  /** One post after the legacy fix: an unpublished post becomes published and private. */
  function MarkPublished(p: Post): (r: Post)
    ensures r.isPublished
    ensures p.isPublished ==> r == p
    ensures !p.isPublished ==> r == p.(isPublished := true, visibility := Private)
  {
    if p.isPublished then p else p.(isPublished := true, visibility := Private)
  }

  /** After the fix no legacy draft is left. */
  lemma FixLeavesNoLegacyDrafts(posts: seq<Post>)
    ensures LegacyDrafts(Map(posts, MarkPublished)) == []
  {
    FilterNone(Map(posts, MarkPublished), IsLegacyDraft);
  }

  /**
   * On a list of the user's own posts, the local fix agrees with the table
   * update restricted to that user's unpublished posts.
   */
  lemma FixMatchesTable(posts: seq<Post>, authorId: string)
    requires forall i :: 0 <= i < |posts| ==> posts[i].authorId == authorId
    ensures Map(posts, MarkPublished) == Map(posts, (p: Post) => PublishIfLegacyOf(authorId, p))
  {
  }

  /** What the share button does. */
  datatype ShareAction = GoToSettings | Alert(message: string) | OpenShareCard(post: Post)

  /** `handleShare(post)`: a username is needed, then a published post, then a public one. */
  function ShareDecision(username: Option<string>, post: Post): (r: ShareAction)
    ensures r.OpenShareCard? <==> username.Some? && username.value != [] && post.isPublished && post.visibility == Public
    ensures r.OpenShareCard? ==> r.post == post
    ensures r.GoToSettings? <==> username.None? || username.value == []
  {
    if username.None? || username.value == [] then GoToSettings
    else if !post.isPublished then Alert(NotPublishedAlert)
    else if post.visibility != Public then Alert(NotPublicAlert)
    else OpenShareCard(post)
  }

  /** Sharing an unpublished post, with a username, asks to save first whatever its visibility. */
  lemma ShareNeedsPublished(username: string, post: Post)
    requires username != [] && !post.isPublished
    ensures ShareDecision(Some(username), post) == Alert(NotPublishedAlert)
  {
  }

  /** `posts` ordered by `inserted_at` descending: the table holds them in insertion order. */
  function NewestFirst(posts: seq<Post>): (r: seq<Post>)
    ensures |r| == |posts|
    ensures forall i :: 0 <= i < |posts| ==> r[i] == posts[|posts| - 1 - i]
  {
    if posts == [] then [] else NewestFirst(posts[1..]) + [posts[0]]
  }

  /** The user's posts, newest first, as the page fetches them. */
  function UserPosts(table: seq<Post>, authorId: string): seq<Post> {
    NewestFirst(Filter(table, (p: Post) => p.authorId == authorId))
  }

  /** Reordering newest first keeps exactly the posts it was given. */
  lemma NewestFirstMembership(posts: seq<Post>, p: Post)
    ensures p in NewestFirst(posts) <==> p in posts
  {
    var r := NewestFirst(posts);
    if p in posts {
      var i :| 0 <= i < |posts| && posts[i] == p;
      assert r[|posts| - 1 - i] == p;
    }
    if p in r {
      var j :| 0 <= j < |r| && r[j] == p;
      assert posts[|posts| - 1 - j] == p;
    }
  }

  /** The fetched list holds exactly the user's posts of the table. */
  lemma UserPostsExactly(table: seq<Post>, authorId: string, p: Post)
    ensures p in UserPosts(table, authorId) <==> p in table && p.authorId == authorId
  {
    var mine := (q: Post) => q.authorId == authorId;
    FilterMembership(table, mine, p);
    NewestFirstMembership(Filter(table, mine), p);
  }

  class DashboardPage {
    var posts: seq<Post>
    var loading: bool
    var sharePost: Option<Post>
    var fixingLegacy: bool
    var alert: Option<string>
    var route: Option<string>

    constructor ()
      ensures posts == [] && loading && sharePost == None && !fixingLegacy && alert == None && route == None
    {
      posts, loading, sharePost, fixingLegacy, alert, route := [], true, None, false, None, None;
    }

    /**
     * `fetchPosts`: the user's posts, newest first; an error keeps the list.
     * Without a `connected` backend the client getter throws and the page
     * stays loading.
     */
    method FetchPosts(user: Option<User>, db: Database, connected: bool, fault: Option<DbError>)
      modifies this
      ensures user.None? || !connected ==> posts == old(posts) && loading == old(loading)
      ensures user.Some? && connected ==> !loading && posts == if fault.Some? then old(posts) else UserPosts(db.posts, user.value.id)
      ensures sharePost == old(sharePost) && fixingLegacy == old(fixingLegacy) && alert == old(alert) && route == old(route)
    {
      if user.None? || !connected {
        return;
      }
      if fault.None? {
        posts := UserPosts(db.posts, user.value.id);
      }
      loading := false;
    }

    /**
     * `handleDelete(postId)`, after the confirmation dialog answered
     * `confirmed`; without a `connected` backend the client getter throws.
     */
    method HandleDelete(postId: int, confirmed: bool, db: Database, connected: bool, fault: Option<DbError>)
      modifies this, db
      ensures !confirmed || !connected ==> posts == old(posts) && db.posts == old(db.posts)
      ensures confirmed && connected && fault.None? ==> posts == WithoutPost(old(posts), postId) && db.posts == DeletePostRows(old(db.posts), postId)
      ensures confirmed && connected && fault.Some? ==> posts == old(posts) && db.posts == old(db.posts)
      ensures db.profiles == old(db.profiles) && db.nextPostId == old(db.nextPostId)
      ensures sharePost == old(sharePost) && loading == old(loading) && fixingLegacy == old(fixingLegacy)
      ensures alert == old(alert) && route == old(route)
    {
      if !confirmed || !connected {
        return;
      }
      var err := db.DeletePost(postId, fault);
      if err.None? {
        posts := WithoutPost(posts, postId);
      }
    }

    /** `handleShare(post)`, with the profile's username. */
    method HandleShare(username: Option<string>, post: Post)
      modifies this
      ensures var d := ShareDecision(username, post);
        && route == (if d.GoToSettings? then Some(ProfileSettingsRoute) else old(route))
        && alert == (if d.Alert? then Some(d.message) else old(alert))
        && sharePost == (if d.OpenShareCard? then Some(post) else old(sharePost))
      ensures posts == old(posts) && loading == old(loading) && fixingLegacy == old(fixingLegacy)
    {
      match ShareDecision(username, post)
      case GoToSettings => route := Some(ProfileSettingsRoute);
      case Alert(message) => alert := Some(message);
      case OpenShareCard(p) => sharePost := Some(p);
    }

    /**
     * `fixAllLegacyDrafts`, after the confirmation dialog answered
     * `confirmed`. The page is marked as fixing before the client is
     * obtained, so without a `connected` backend it stays marked.
     */
    method FixAllLegacyDrafts(user: Option<User>, confirmed: bool, db: Database, connected: bool, fault: Option<DbError>)
      modifies this, db
      ensures user.None? || LegacyDrafts(old(posts)) == [] || !confirmed ==>
        posts == old(posts) && db.posts == old(db.posts) && fixingLegacy == old(fixingLegacy)
      ensures user.Some? && LegacyDrafts(old(posts)) != [] && confirmed && !connected ==>
        posts == old(posts) && db.posts == old(db.posts) && fixingLegacy
      ensures user.Some? && LegacyDrafts(old(posts)) != [] && confirmed && connected ==>
        && !fixingLegacy
        && posts == (if fault.None? then Map(old(posts), MarkPublished) else old(posts))
        && db.posts == (if fault.None? then Map(old(db.posts), (p: Post) => PublishIfLegacyOf(user.value.id, p)) else old(db.posts))
      ensures db.profiles == old(db.profiles) && db.nextPostId == old(db.nextPostId)
      ensures sharePost == old(sharePost) && loading == old(loading) && alert == old(alert) && route == old(route)
    {
      if user.None? || LegacyDrafts(posts) == [] || !confirmed {
        return;
      }
      fixingLegacy := true;
      if !connected {
        return;
      }
      var err := db.PublishLegacyDrafts(user.value.id, fault);
      if err.None? {
        posts := Map(posts, MarkPublished);
      }
      fixingLegacy := false;
    }

    /**
     * `handleNewPost`: make sure the profile exists, then insert an untitled,
     * published, private post and open it in the editor.
     */
    method HandleNewPost(user: Option<User>, db: Database, connected: bool, now: nat, suffix: string,
                         f: EnsureFaults, insertFault: Option<DbError>)
      requires db.Valid()
      modifies this, db
      ensures db.Valid()
      ensures user.None? || !connected ==>
        db.profiles == old(db.profiles) && db.posts == old(db.posts) && db.nextPostId == old(db.nextPostId) && route == old(route)
      ensures user.Some? && connected ==>
        var o := Ensured(old(db.profiles), user.value, now, suffix, f);
        && db.profiles == o.rows
        && (o.profile.None? || insertFault.Some? ==>
              db.posts == old(db.posts) && db.nextPostId == old(db.nextPostId) && route == old(route))
        && (o.profile.Some? && insertFault.None? ==>
              && db.posts == old(db.posts) + [Post(old(db.nextPostId), user.value.id, UntitledTitle, "",
                                                   "post-" + NatToString(now), Private, true)]
              && db.nextPostId == old(db.nextPostId) + 1
              && route == Some("/duzenle/" + IntToString(old(db.nextPostId))))
      ensures posts == old(posts) && sharePost == old(sharePost) && loading == old(loading)
      ensures fixingLegacy == old(fixingLegacy) && alert == old(alert)
    {
      if user.None? || !connected {
        return;
      }
      var p := EnsureProfile.EnsureProfile(db, user.value, now, suffix, f);
      if p.None? {
        return;
      }
      var inserted := db.InsertPost(user.value.id, UntitledTitle, "", "post-" + NatToString(now), Private, true, insertFault);
      if inserted.Err? {
        return;
      }
      route := Some("/duzenle/" + IntToString(inserted.value.id));
    }
  }
}
