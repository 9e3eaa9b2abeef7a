/**
 * The writing page: the slug generator, the draft kept in local storage and
 * the save handler that publishes a new post.
 */
module Editor {

  import opened Common
  import opened Seqs
  import opened JsText
  import opened Json
  import opened Storage
  import opened Backend
  import opened Text
  import Username

  const DraftKey := "franzkafka_draft"
  const ConnectRoute := "/baglan"
  const DashboardRoute := "/dashboard"
  const UntitledTitle := "Untitled"
  /** The title a post without one is slugged from. */
  const UntitledSlugSource := "basl\U{131}ks\U{131}z"

  /** The Turkish letters the slug spells in ASCII: ğ ü ş ı ö ç become g u s i o c. */
  function TurkishFold(c: char): char {
    if c == '\U{11F}' then 'g'
    else if c == '\U{FC}' then 'u'
    else if c == '\U{15F}' then 's'
    else if c == '\U{131}' then 'i'
    else if c == '\U{F6}' then 'o'
    else if c == '\U{E7}' then 'c'
    else c
  }

  /** The characters `[a-z0-9-]` of a slug. */
  predicate SlugChar(c: char) {
    IsAsciiLower(c) || IsAsciiDigit(c) || c == '-'
  }

  /** The slug text before the fallback applies: folded, hyphenated, filtered, cut to 50. */
  function SlugBody(title: string): (r: string)
    ensures |r| <= 50
    ensures forall i :: 0 <= i < |r| ==> SlugChar(r[i])
  {
    var folded := Map(Lower(title), TurkishFold);
    Take(Filter(ReplaceSpaceRuns(folded, '-'), SlugChar), 50)
  }

  /** `generateSlug(title)`, with `Date.now()` as the parameter `now`. */
  function GenerateSlug(title: string, now: nat): (r: string)
    ensures r != []
    ensures forall i :: 0 <= i < |r| ==> SlugChar(r[i])
    ensures |r| <= 50 || r == "yazi-" + NatToString(now)
  {
    var body := SlugBody(title);
    if body != [] then body
    else
      var digits := NatToString(now);
      assert forall i :: 0 <= i < |digits| ==> IsAsciiDigit(digits[i]);
      "yazi-" + digits
  }

  /** Mapping a function that fixes every element changes nothing. */
  lemma MapIdentity(s: string, f: char -> char)
    requires forall i :: 0 <= i < |s| ==> f(s[i]) == s[i]
    ensures Map(s, f) == s
  {
  }

  /** When folding gives a slug of at most 50 characters, that is the slug. */
  lemma SlugFromFolded(title: string, t: string, now: nat)
    requires Map(Lower(title), TurkishFold) == t
    requires t != [] && |t| <= 50 && forall i :: 0 <= i < |t| ==> SlugChar(t[i])
    ensures GenerateSlug(title, now) == t
  {
    ReplaceSpaceRunsIdentity(t, '-');
    FilterAll(t, SlugChar);
  }

  /** A slug of at most 50 characters is its own slug. */
  lemma SlugOfSlug(s: string, now: nat)
    requires s != [] && |s| <= 50 && forall i :: 0 <= i < |s| ==> SlugChar(s[i])
    ensures GenerateSlug(s, now) == s
  {
    LowerIdentity(s);
    MapIdentity(s, TurkishFold);
    SlugFromFolded(s, s, now);
  }

  /** Outside the fallback, slugging a slug changes nothing. */
  lemma GenerateSlugStable(title: string, now: nat, later: nat)
    requires SlugBody(title) != []
    ensures GenerateSlug(GenerateSlug(title, now), later) == GenerateSlug(title, now)
  {
    SlugOfSlug(SlugBody(title), later);
  }

  /** Slug characters are not white space. */
  lemma SlugCharsNotSpace(s: string)
    requires forall i :: 0 <= i < |s| ==> SlugChar(s[i])
    ensures forall i :: 0 <= i < |s| ==> !IsSpace(s[i])
  {
    forall i | 0 <= i < |s| ensures !IsSpace(s[i]) {
      assert SlugChar(s[i]);
    }
  }

  /** Slug characters are their own lower case and their own fold. */
  lemma SlugCharsFixed(s: string)
    requires forall i :: 0 <= i < |s| ==> SlugChar(s[i])
    ensures Map(Lower(s), TurkishFold) == s
  {
    SlugCharsLower(s);
    LowerIdentity(s);
    assert Lower(s) == s;
    SlugCharsUnfolded(s);
    MapIdentity(s, TurkishFold);
  }

  /** Folding leaves slug characters alone. */
  lemma SlugCharsUnfolded(s: string)
    requires forall i :: 0 <= i < |s| ==> SlugChar(s[i])
    ensures forall i :: 0 <= i < |s| ==> TurkishFold(s[i]) == s[i]
  {
    forall i | 0 <= i < |s| ensures TurkishFold(s[i]) == s[i] {
      assert SlugChar(s[i]);
    }
  }

  /** Each slug character lower-cases to itself. */
  lemma SlugCharsLower(s: string)
    requires forall i :: 0 <= i < |s| ==> SlugChar(s[i])
    ensures forall i :: 0 <= i < |s| ==> LowerChar(s[i]) == [s[i]]
  {
    forall i | 0 <= i < |s| ensures LowerChar(s[i]) == [s[i]] {
      assert SlugChar(s[i]);
    }
  }

  /** White space is its own lower case and its own fold. */
  lemma SpaceFixed(w: string)
    requires AllSpace(w)
    ensures Map(Lower(w), TurkishFold) == w
  {
    LowerOfSpace(w);
    assert Lower(w) == w;
    MapIdentity(w, TurkishFold);
  }

  /** Lower-casing and folding distribute over concatenation. */
  lemma FoldConcat(a: string, b: string)
    ensures Map(Lower(a + b), TurkishFold) == Map(Lower(a), TurkishFold) + Map(Lower(b), TurkishFold)
  {
    LowerConcat(a, b);
  }

  /**
   * Two slug words separated by a run of white space are joined by one '-':
   * the run is replaced before the filter, so neither word is dropped or cut.
   */
  lemma GenerateSlugJoinsWords(a: string, w: string, b: string, now: nat)
    requires forall i :: 0 <= i < |a| ==> SlugChar(a[i])
    requires forall i :: 0 <= i < |b| ==> SlugChar(b[i])
    requires w != [] && AllSpace(w)
    requires |a| + 1 + |b| <= 50
    ensures GenerateSlug(a + w + b, now) == a + ['-'] + b
  {
    SlugCharsFixed(a);
    SlugCharsFixed(b);
    SlugCharsNotSpace(a);
    SlugCharsNotSpace(b);
    SpaceFixed(w);
    FoldConcat(a + w, b);
    FoldConcat(a, w);
    assert Map(Lower(a + w + b), TurkishFold) == a + w + b;
    ReplaceSpaceRunsOneRun(a, w, b, '-');
    ReplaceSpaceRunsIdentity(b, '-');
    JoinedIsSlug(a, b);
  }

  /** Two slug words joined by '-' are slug characters throughout. */
  lemma JoinedSlugChars(a: string, b: string)
    requires forall i :: 0 <= i < |a| ==> SlugChar(a[i])
    requires forall i :: 0 <= i < |b| ==> SlugChar(b[i])
    ensures forall i :: 0 <= i < |a + ['-'] + b| ==> SlugChar((a + ['-'] + b)[i])
  {
    var joined := a + ['-'] + b;
    forall i | 0 <= i < |joined| ensures SlugChar(joined[i]) {
      if i < |a| {
        assert joined[i] == a[i];
      } else if i > |a| {
        assert joined[i] == b[i - |a| - 1];
      }
    }
  }

  /** Two slug words joined by '-' pass the filter whole. */
  lemma JoinedIsSlug(a: string, b: string)
    requires forall i :: 0 <= i < |a| ==> SlugChar(a[i])
    requires forall i :: 0 <= i < |b| ==> SlugChar(b[i])
    ensures Filter(a + ['-'] + b, SlugChar) == a + ['-'] + b
  {
    JoinedSlugChars(a, b);
    FilterAll(a + ['-'] + b, SlugChar);
  }

  /** Printable ASCII that is neither a letter, a digit, '-' nor a space. */
  predicate Punctuation(c: char) {
    ' ' < c <= '~' && !('A' <= c <= 'Z') && !IsAsciiLower(c) && !IsAsciiDigit(c) && c != '-'
  }

  /** A title of punctuation alone falls back to `yazi-` and the timestamp. */
  lemma GenerateSlugFallback(title: string, now: nat)
    requires forall i :: 0 <= i < |title| ==> Punctuation(title[i])
    ensures GenerateSlug(title, now) == "yazi-" + NatToString(now)
  {
    LowerIdentity(title);
    MapIdentity(title, TurkishFold);
    ReplaceSpaceRunsIdentity(title, '-');
    FilterNone(title, SlugChar);
  }

  lemma UntitledLower()
    ensures Lower(UntitledSlugSource) == UntitledSlugSource
  {
    var s := UntitledSlugSource;
    forall i | 0 <= i < |s| ensures LowerChar(s[i]) == [s[i]] { }
    LowerIdentity(s);
  }

  lemma UntitledFolded()
    ensures Map(UntitledSlugSource, TurkishFold) == "basliksiz"
  {
    FoldsTo(UntitledSlugSource, "basliksiz");
  }

  /** `t` is `s` folded character by character. */
  lemma FoldsTo(s: string, t: string)
    requires |s| == |t| && forall i :: 0 <= i < |s| ==> TurkishFold(s[i]) == t[i]
    ensures Map(s, TurkishFold) == t
  {
  }

  /** The title slugged for an untitled post becomes `basliksiz`. */
  lemma UntitledSlug(now: nat)
    ensures GenerateSlug(UntitledSlugSource, now) == "basliksiz"
  {
    UntitledLower();
    UntitledFolded();
    BasliksizIsSlug();
    SlugFromFolded(UntitledSlugSource, "basliksiz", now);
  }

  lemma BasliksizIsSlug()
    ensures forall i :: 0 <= i < |"basliksiz"| ==> SlugChar("basliksiz"[i])
  {
  }

  /** The page's fields. */
  datatype Page = Page(
    title: string,
    content: string,
    showAuthModal: bool,
    saving: bool,
    visibility: Visibility,
    route: Option<string>)

  /** The JSON text of the draft `{title, content, savedAt}`. */
  function DraftJson(title: string, content: string, savedAt: string): (r: string)
    ensures r != []
  {
    StringifyObject([("title", title), ("content", content), ("savedAt", savedAt)])
  }

  /** Storage after the draft effect: written only when there is a title or content. */
  function DraftWritten(items: map<string, string>, title: string, content: string, savedAt: string): map<string, string> {
    if title != "" || content != "" then items[DraftKey := DraftJson(title, content, savedAt)] else items
  }

  /**
   * The draft the page starts from: the stored text, when there is a
   * non-empty one, parsed by `parseDraft` (`None` for a parse that throws).
   */
  function DraftLoaded(items: map<string, string>, parseDraft: string -> Option<(string, string)>): Option<(string, string)> {
    if DraftKey in items && items[DraftKey] != "" then parseDraft(items[DraftKey]) else None
  }

  /** A written draft is read back, provided parsing inverts the stringify. */
  lemma DraftRoundTrip(items: map<string, string>, title: string, content: string, savedAt: string,
                       parseDraft: string -> Option<(string, string)>)
    requires title != "" || content != ""
    requires parseDraft(DraftJson(title, content, savedAt)) == Some((title, content))
    ensures DraftLoaded(DraftWritten(items, title, content, savedAt), parseDraft) == Some((title, content))
  {
  }

  /** With neither title nor content, the draft effect leaves storage alone. */
  lemma EmptyDraftNotWritten(items: map<string, string>, savedAt: string)
    ensures DraftWritten(items, "", "", savedAt) == items
  {
  }

  /** `user.email?.split('@')[0] || 'user-' + Date.now()`: the username the save handler inserts, unnormalised. */
  function SaveUsername(email: Option<string>, now: nat): (r: string)
    ensures r != []
    ensures email.Some? && '@' !in email.value && email.value != [] ==> r == email.value
  {
    var local := if email.Some? then BeforeFirst(email.value, '@') else "";
    if local != [] then local else "user-" + NatToString(now)
  }

  /**
   * The save handler writes the raw local part of the e-mail address: one
   * holding a character outside `[a-z0-9_-]` (an upper-case letter, a dot)
   * is stored as is, and is not a valid username.
   */
  lemma SaveUsernameUnchecked(local: string, domain: string, now: nat)
    requires local != [] && '@' !in local
    requires exists i :: 0 <= i < |local| && !Username.UsernameChar(local[i])
    ensures SaveUsername(Some(local + "@" + domain), now) == local
    ensures !Username.ValidUsername(SaveUsername(Some(local + "@" + domain), now))
  {
    BeforeFirstSeparator(local, domain, '@');
  }

  /** The row a successful save adds to `posts`. */
  function NewPost(id: int, page: Page, authorId: string, now: nat): Post {
    Post(id, authorId,
         if page.title != "" then page.title else UntitledTitle,
         page.content,
         GenerateSlug(if page.title != "" then page.title else UntitledSlugSource, now) + "-" + NatToString(now),
         page.visibility,
         true)
  }

  /** What the backend reports for the calls the save handler issues. */
  datatype SaveFaults = SaveFaults(lookup: Option<DbError>, profileInsert: Option<DbError>, postInsert: Option<DbError>)

  /** The page, the two tables and local storage. */
  datatype World = World(
    page: Page,
    profiles: map<string, Profile>,
    posts: seq<Post>,
    nextPostId: int,
    items: map<string, string>)

  /** `profiles` after the handler's check: a missing row is inserted; the insert's error is ignored. */
  function ProfileEnsured(rows: map<string, Profile>, user: User, now: nat, fault: Option<DbError>): map<string, Profile> {
    var username := SaveUsername(user.email, now);
    if user.id !in rows && InsertProfileError(rows, user.id, username, fault).None?
    then rows[user.id := Profile(user.id, Some(username), None)]
    else rows
  }

  /**
   * `savePost`: with no connection go to the connect page; with no user show
   * the sign-in dialog; otherwise look the profile up (an error ends the
   * save), create it if missing, insert the post and, on success, drop the
   * draft and go to the dashboard.
   */
  function PostSaved(w: World, hasConnection: bool, user: Option<User>, now: nat, f: SaveFaults): World {
    if !hasConnection then w.(page := w.page.(route := Some(ConnectRoute)))
    else if user.None? then w.(page := w.page.(showAuthModal := true))
    else if f.lookup.Some? then w.(page := w.page.(saving := false))
    else Published(w.(page := w.page.(saving := true)), user.value, now, f)
  }

  /** The rest of `savePost` once the profile lookup has answered: create the profile if missing, insert the post. */
  function Published(w: World, user: User, now: nat, f: SaveFaults): World {
    var profiles := ProfileEnsured(w.profiles, user, now, f.profileInsert);
    if f.postInsert.Some? then w.(page := w.page.(saving := false), profiles := profiles)
    else
      World(w.page.(route := Some(DashboardRoute)), profiles,
            w.posts + [NewPost(w.nextPostId, w.page, user.id, now)], w.nextPostId + 1,
            w.items - {DraftKey})
  }

  /** Without a connection, or without a user, nothing is stored and no table changes. */
  lemma SaveGuards(w: World, hasConnection: bool, user: Option<User>, now: nat, f: SaveFaults)
    requires !hasConnection || user.None?
    ensures var after := PostSaved(w, hasConnection, user, now, f);
      && after.profiles == w.profiles && after.posts == w.posts && after.items == w.items
      && after.page.title == w.page.title && after.page.content == w.page.content && after.page.saving == w.page.saving
      && (!hasConnection ==> after.page.route == Some(ConnectRoute) && after.page.showAuthModal == w.page.showAuthModal)
      && (hasConnection ==> after.page.route == w.page.route && after.page.showAuthModal)
  {
  }

  /** A failed profile lookup resets `saving` and changes nothing else. */
  lemma SaveLookupFailure(w: World, user: User, now: nat, f: SaveFaults)
    requires f.lookup.Some?
    ensures PostSaved(w, true, Some(user), now, f) == w.(page := w.page.(saving := false))
  {
  }

  /**
   * A failed post insert resets `saving` and keeps the draft and the posts;
   * at most the user's missing profile row has been added.
   */
  lemma SaveInsertFailure(w: World, user: User, now: nat, f: SaveFaults)
    requires f.lookup.None? && f.postInsert.Some?
    ensures var after := PostSaved(w, true, Some(user), now, f);
      && after.items == w.items && after.posts == w.posts && !after.page.saving && after.page.route == w.page.route
      && (after.profiles == w.profiles
          || (user.id !in w.profiles && after.profiles == w.profiles[user.id := Profile(user.id, Some(SaveUsername(user.email, now)), None)]))
  {
  }

  /**
   * A successful save appends one published post by the user, titled
   * 'Untitled' when the title is empty, whose slug is the slug of the title
   * (or of 'baslıksız') followed by '-' and the timestamp; the draft is
   * removed, other stored keys are kept, and the page goes to the dashboard.
   */
  lemma SaveSucceeds(w: World, user: User, now: nat, f: SaveFaults)
    requires f.lookup.None? && f.postInsert.None?
    ensures var after := PostSaved(w, true, Some(user), now, f);
      var p := after.posts[|w.posts|];
      && |after.posts| == |w.posts| + 1 && after.posts[..|w.posts|] == w.posts
      && p.authorId == user.id && p.isPublished && p.visibility == w.page.visibility && p.content == w.page.content
      && p.title == (if w.page.title == "" then UntitledTitle else w.page.title)
      && p.slug == GenerateSlug(if w.page.title == "" then UntitledSlugSource else w.page.title, now) + "-" + NatToString(now)
      && DraftKey !in after.items && after.page.route == Some(DashboardRoute)
      && (forall k :: k in w.items && k != DraftKey ==> k in after.items && after.items[k] == w.items[k])
  {
    var after := PostSaved(w, true, Some(user), now, f);
    assert after.posts == w.posts + [NewPost(w.nextPostId, w.page, user.id, now)];
  }

  /** An untitled post is slugged `basliksiz-` and the timestamp. */
  lemma UntitledPostSlug(id: int, page: Page, authorId: string, now: nat)
    requires page.title == ""
    ensures NewPost(id, page, authorId, now).slug == "basliksiz" + "-" + NatToString(now)
  {
    UntitledSlug(now);
  }

  /** A successful save appends exactly the new post. */
  lemma SaveAppends(w: World, user: User, now: nat, f: SaveFaults)
    requires f.lookup.None? && f.postInsert.None?
    ensures PostSaved(w, true, Some(user), now, f).posts == w.posts + [NewPost(w.nextPostId, w.page, user.id, now)]
  {
  }

  /** An untitled post's slug is `basliksiz-` and the timestamp. */
  lemma SaveUntitledSlug(w: World, user: User, now: nat, f: SaveFaults)
    requires f.lookup.None? && f.postInsert.None? && w.page.title == ""
    ensures PostSaved(w, true, Some(user), now, f).posts[|w.posts|].slug == "basliksiz" + "-" + NatToString(now)
  {
    SaveAppends(w, user, now, f);
    UntitledPostSlug(w.nextPostId, w.page, user.id, now);
  }

  /** The save handler keeps usernames unique. */
  lemma SaveKeepsWellFormed(w: World, hasConnection: bool, user: Option<User>, now: nat, f: SaveFaults)
    requires ProfilesWellFormed(w.profiles)
    ensures ProfilesWellFormed(PostSaved(w, hasConnection, user, now, f).profiles)
  {
    if hasConnection && user.Some? && f.lookup.None? {
      var u := user.value;
      var username := SaveUsername(u.email, now);
      if u.id !in w.profiles && InsertProfileError(w.profiles, u.id, username, f.profileInsert).None? {
        InsertKeepsProfilesWellFormed(w.profiles, u.id, username);
      }
    }
  }

  /** The word count and reading time shown under the editor. */
  function Metrics(content: string): (r: (nat, int))
    ensures r.0 == Runs(StripHtml(content)) && r.1 >= 1
  {
    var words := CountWords(StripHtml(content));
    CountWordsIsRuns(StripHtml(content));
    ReadingTimeClosedForm(words);
    (words, ReadingTime(words))
  }

  class WritePage {
    var title: string
    var content: string
    var showAuthModal: bool
    var saving: bool
    var visibility: Visibility
    var route: Option<string>

    function State(): Page
      reads this
    {
      Page(title, content, showAuthModal, saving, visibility, route)
    }

    constructor ()
      ensures State() == Page("", "", false, false, Private, None)
    {
      title, content, showAuthModal, saving, visibility, route := "", "", false, false, Private, None;
    }

    /** The mount effect: restore the stored draft, if one parses. */
    method LoadDraft(ls: LocalStorage, parseDraft: string -> Option<(string, string)>)
      modifies this
      ensures var d := DraftLoaded(ls.items, parseDraft);
        State() == if d.Some? then old(State()).(title := d.value.0, content := d.value.1) else old(State())
    {
      var saved := ls.GetItem(DraftKey);
      if saved.Some? && saved.value != "" {
        var draft := parseDraft(saved.value);
        if draft.Some? {
          title := draft.value.0;
          content := draft.value.1;
        }
      }
    }

    /** The change effect: store the draft, stamped `savedAt`, when there is a title or content. */
    method PersistDraft(ls: LocalStorage, savedAt: string)
      modifies ls
      ensures ls.items == DraftWritten(old(ls.items), title, content, savedAt)
    {
      if title != "" || content != "" {
        ls.SetItem(DraftKey, DraftJson(title, content, savedAt));
      }
    }

    /** `savePost`, with one timestamp `now` for every `Date.now()` it reads. */
    method SavePost(hasConnection: bool, user: Option<User>, db: Database, ls: LocalStorage, now: nat, f: SaveFaults)
      requires db.Valid()
      modifies this, db, ls
      ensures db.Valid()
      ensures World(State(), db.profiles, db.posts, db.nextPostId, ls.items)
        == PostSaved(World(old(State()), old(db.profiles), old(db.posts), old(db.nextPostId), old(ls.items)),
                     hasConnection, user, now, f)
    {
      if !hasConnection {
        route := Some(ConnectRoute);
        return;
      }
      if user.None? {
        showAuthModal := true;
        return;
      }
      var u := user.value;
      saving := true;
      var existing := db.SelectProfile(u.id, f.lookup);
      if existing.Err? {
        saving := false;
        return;
      }
      Publish(u, existing.value.Some?, db, ls, now, f);
    }

    /** The rest of `savePost`, once the lookup has said whether the profile `exists`. */
    method Publish(u: User, exists_: bool, db: Database, ls: LocalStorage, now: nat, f: SaveFaults)
      requires db.Valid() && exists_ == (u.id in db.profiles)
      modifies this, db, ls
      ensures db.Valid()
      ensures World(State(), db.profiles, db.posts, db.nextPostId, ls.items)
        == Published(World(old(State()), old(db.profiles), old(db.posts), old(db.nextPostId), old(ls.items)), u, now, f)
    {
      if !exists_ {
        var _ := db.InsertProfile(u.id, SaveUsername(u.email, now), f.profileInsert);
      }
      var post := NewPost(db.nextPostId, State(), u.id, now);
      var inserted := db.InsertPost(post.authorId, post.title, post.content, post.slug, post.visibility, post.isPublished, f.postInsert);
      if inserted.Err? {
        saving := false;
        return;
      }
      ls.RemoveItem(DraftKey);
      route := Some(DashboardRoute);
    }

    /** The Ctrl+S / Cmd+S shortcut: saves unless a save is under way. */
    method SaveShortcut(hasConnection: bool, user: Option<User>, db: Database, ls: LocalStorage, now: nat, f: SaveFaults)
      requires db.Valid()
      modifies this, db, ls
      ensures db.Valid()
      ensures World(State(), db.profiles, db.posts, db.nextPostId, ls.items)
        == var before := World(old(State()), old(db.profiles), old(db.posts), old(db.nextPostId), old(ls.items));
           if old(saving) then before else PostSaved(before, hasConnection, user, now, f)
    {
      if !saving {
        SavePost(hasConnection, user, db, ls, now, f);
      }
    }
  }
}
