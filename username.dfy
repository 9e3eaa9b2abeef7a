/**
 * Usernames: the suggestion derived from an email address and the
 * normalisation applied to what a user types.
 */
module Username {

  import opened Common
  import opened Seqs
  import opened JsText

  /** The characters `[a-z0-9_-]` a username may contain. */
  predicate UsernameChar(c: char) {
    IsAsciiLower(c) || IsAsciiDigit(c) || c == '_' || c == '-'
  }

  /** `s.replace(/[^a-z0-9_-]/g, '')` */
  function KeepUsernameChars(s: string): (r: string)
    ensures |r| <= |s|
    ensures forall i :: 0 <= i < |r| ==> UsernameChar(r[i])
  {
    Filter(s, UsernameChar)
  }

  /** A username is 3 to 24 characters of `[a-z0-9_-]`. */
  ghost predicate ValidUsername(u: string) {
    3 <= |u| <= 24 && forall i :: 0 <= i < |u| ==> UsernameChar(u[i])
  }

  /** `(email || '').split('@')[0] || 'user'` */
  function LocalPart(email: Option<string>): (r: string)
    ensures r != []
  {
    var e := if email.Some? then email.value else "";
    var before := BeforeFirst(e, '@');
    if before == [] then "user" else before
  }

  /** The local part lower-cased, stripped to `[a-z0-9_-]` and cut to 24 characters. */
  function Cleaned(raw: string): (r: string)
    ensures |r| <= 24
    ensures forall i :: 0 <= i < |r| ==> UsernameChar(r[i])
  {
    Take(KeepUsernameChars(Lower(raw)), 24)
  }

  /** `user-` and the last six digits of the timestamp. */
  function FallbackUsername(now: nat): (r: string)
    ensures 6 <= |r| <= 11
    ensures forall i :: 0 <= i < |r| ==> UsernameChar(r[i])
  {
    var digits := TakeLast(NatToString(now), 6);
    assert forall i :: 0 <= i < |digits| ==> IsAsciiDigit(digits[i]);
    "user-" + digits
  }

  /** `usernameFromEmail(email)`, with `Date.now()` as the parameter `now`. */
  function UsernameFromEmail(email: Option<string>, now: nat): (r: string)
    ensures ValidUsername(r)
  {
    var cleaned := Cleaned(LocalPart(email));
    if |cleaned| >= 3 then cleaned else FallbackUsername(now)
  }

  /**
   * A local part of at least 24 username characters gives a suggestion of
   * exactly 24 characters.
   */
  lemma LongLocalPartFillsLimit(local: string, domain: string, now: nat)
    requires |local| >= 24 && forall i :: 0 <= i < |local| ==> UsernameChar(local[i])
    ensures |UsernameFromEmail(Some(local + "@" + domain), now)| == 24
  {
    assert '@' !in local by {
      forall i | 0 <= i < |local| ensures local[i] != '@' {
        assert UsernameChar(local[i]);
      }
    }
    BeforeFirstSeparator(local, domain, '@');
    forall i | 0 <= i < |local| ensures LowerChar(local[i]) == [local[i]] {
      assert UsernameChar(local[i]);
    }
    LowerIdentity(local);
    FilterAll(local, UsernameChar);
  }

  /** An '@'-free text of username characters is its own cleaned form: lower case already, nothing filtered. */
  lemma CleanUsernameChars(local: string)
    requires forall i :: 0 <= i < |local| ==> UsernameChar(local[i])
    ensures '@' !in local
    ensures KeepUsernameChars(Lower(local)) == local
  {
    assert '@' !in local by {
      forall i | 0 <= i < |local| ensures local[i] != '@' {
        assert UsernameChar(local[i]);
      }
    }
    forall i | 0 <= i < |local| ensures LowerChar(local[i]) == [local[i]] {
      assert UsernameChar(local[i]);
    }
    LowerIdentity(local);
    assert Lower(local) == local;
    FilterAll(local, UsernameChar);
    assert Filter(local, UsernameChar) == local;
  }

  /** A local part that is already a valid username is the suggestion itself. */
  lemma UsernameKeepsValidLocalPart(local: string, domain: string, now: nat)
    requires ValidUsername(local)
    ensures UsernameFromEmail(Some(local + "@" + domain), now) == local
  {
    CleanUsernameChars(local);
    BeforeFirstSeparator(local, domain, '@');
  }

  /**
   * A local part of one or two characters leaves fewer than three after
   * cleaning, so the suggestion is `user-` and the last six digits of the
   * timestamp.
   */
  lemma UsernameShortLocalPart(local: string, domain: string, now: nat)
    requires 0 < |local| < 3 && '@' !in local
    ensures UsernameFromEmail(Some(local + "@" + domain), now) == "user-" + TakeLast(NatToString(now), 6)
  {
    BeforeFirstSeparator(local, domain, '@');
    CleanNoLonger(local);
  }

  /** `split('@')[0]` of a string without an '@' is the string itself. */
  lemma BeforeFirstAbsent(a: string, c: char)
    requires c !in a
    ensures BeforeFirst(a, c) == a
  {
  }

  /** Only the text before the first '@' matters: the domain is ignored. */
  lemma UsernameIgnoresDomain(local: string, domain: string, now: nat)
    requires '@' !in local
    ensures UsernameFromEmail(Some(local + "@" + domain), now) == UsernameFromEmail(Some(local), now)
  {
    BeforeFirstSeparator(local, domain, '@');
    BeforeFirstAbsent(local, '@');
  }

  /** No email, or an email with an empty local part, suggests `user`. */
  lemma UsernameWithoutLocalPart(email: Option<string>, now: nat)
    requires email.None? || (email.value != [] && email.value[0] == '@')
    ensures UsernameFromEmail(email, now) == "user"
  {
    assert LocalPart(email) == "user";
    assert Lower("user") == "user" by {
      LowerIdentity("user");
    }
    assert KeepUsernameChars("user") == "user" by {
      FilterAll("user", UsernameChar);
    }
  }

  /** `normalizeUsername(input)`: trimmed, lower-cased, stripped to `[a-z0-9_-]`. */
  function NormalizeUsername(input: string): (r: string)
    ensures forall i :: 0 <= i < |r| ==> UsernameChar(r[i]) && !IsSpace(r[i])
  {
    KeepUsernameChars(Lower(Trim(input)))
  }

  /** A string of username characters is left alone: normalisation does not truncate. */
  lemma NormalizeKeepsUsernames(s: string)
    requires forall i :: 0 <= i < |s| ==> UsernameChar(s[i])
    ensures NormalizeUsername(s) == s
  {
    TrimIdentity(s);
    LowerIdentity(s);
    FilterAll(s, UsernameChar);
  }

  /** `normalizeUsername` is idempotent. */
  lemma NormalizeUsernameIdempotent(s: string)
    ensures NormalizeUsername(NormalizeUsername(s)) == NormalizeUsername(s)
  {
    NormalizeKeepsUsernames(NormalizeUsername(s));
  }

  /** Cleaning distributes over concatenation. */
  lemma CleanConcat(a: string, b: string)
    ensures KeepUsernameChars(Lower(a + b)) == KeepUsernameChars(Lower(a)) + KeepUsernameChars(Lower(b))
  {
    LowerConcat(a, b);
    FilterConcat(Lower(a), Lower(b), UsernameChar);
  }

  /** Cleaning removes white space entirely. */
  lemma CleanOfSpace(s: string)
    requires AllSpace(s)
    ensures KeepUsernameChars(Lower(s)) == []
  {
    LowerOfSpace(s);
    FilterNone(s, UsernameChar);
  }

  /** The trim is subsumed by the filter: white space is never a username character. */
  lemma NormalizeIgnoresTrim(s: string)
    ensures NormalizeUsername(s) == KeepUsernameChars(Lower(s))
  {
    TrimSplits(s);
    TrimRemovesOnlySpace(s);
    var k := LeadingSpace(s);
    var t := Trim(s);
    var pre, post := s[..k], s[k + |t|..];
    CleanConcat(pre + t, post);
    CleanConcat(pre, t);
    CleanOfSpace(pre);
    CleanOfSpace(post);
  }

  /** Lower-casing then filtering never yields more characters than the input has. */
  lemma {:induction false} CleanNoLonger(s: string)
    ensures |KeepUsernameChars(Lower(s))| <= |s|
  {
    if s != [] {
      var head := LowerChar(s[0]);
      assert Lower(s) == head + Lower(s[1..]);
      FilterConcat(head, Lower(s[1..]), UsernameChar);
      CleanNoLonger(s[1..]);
      if |head| == 2 {
        assert head == ['i', '\U{307}'];
        assert Filter(head, UsernameChar) == ['i'];
      }
    }
  }

  /** `normalizeUsername` never lengthens its input. */
  lemma NormalizeNoLonger(s: string)
    ensures |NormalizeUsername(s)| <= |s|
  {
    NormalizeIgnoresTrim(s);
    CleanNoLonger(s);
  }
}
