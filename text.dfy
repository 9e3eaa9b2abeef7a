/**
 * Plain-text helpers for authored HTML: stripping markup for excerpts and
 * metrics, counting words and estimating reading time.
 */
module Text {

  import opened Common
  import opened Seqs
  import opened JsText

  /** ASCII case folding, as a case-insensitive regular expression applies it to ASCII letters. */
  function FoldAscii(c: char): char {
    if 'A' <= c <= 'Z' then (c as int + 32) as char else c
  }

  /** `s` starts with the lower-case ASCII text `pat`, ignoring ASCII case. */
  predicate StartsWithFolded(s: string, pat: string) {
    |pat| <= |s| && forall i :: 0 <= i < |pat| ==> FoldAscii(s[i]) == pat[i]
  }

  /** The first position at or after `from` where `pat` starts, ignoring ASCII case. */
  function FindFolded(s: string, from: nat, pat: string): (r: Option<nat>)
    ensures r.Some? ==> from <= r.value && r.value + |pat| <= |s| && StartsWithFolded(s[r.value..], pat)
    ensures r.Some? ==> forall j :: from <= j < r.value ==> !StartsWithFolded(s[j..], pat)
    ensures r.None? ==> forall j :: from <= j <= |s| ==> !StartsWithFolded(s[j..], pat)
    decreases |s| - from
  {
    if from + |pat| > |s| then None
    else if StartsWithFolded(s[from..], pat) then Some(from)
    else FindFolded(s, from + 1, pat)
  }

  /**
   * `s.replace(/<open[\s\S]*?close/gi, '')` for lower-case ASCII `open` and
   * `close`: scanning left to right, each `open` with a later `close` is
   * removed up to the nearest such `close`.
   */
  function RemoveBlocks(s: string, open: string, close: string): (r: string)
    requires open != []
    ensures |r| <= |s|
    decreases |s|
  {
    if s == [] then []
    else if StartsWithFolded(s, open) && FindFolded(s, |open|, close).Some? then
      RemoveBlocks(s[FindFolded(s, |open|, close).value + |close|..], open, close)
    else [s[0]] + RemoveBlocks(s[1..], open, close)
  }

  /** Text in which `open` never starts is left alone. */
  lemma {:induction false} RemoveBlocksIdentity(s: string, open: string, close: string)
    requires open != []
    requires forall i :: 0 <= i < |s| ==> !StartsWithFolded(s[i..], open)
    ensures RemoveBlocks(s, open, close) == s
  {
    if s != [] {
      assert !StartsWithFolded(s[0..], open);
      assert forall i :: 0 <= i < |s| - 1 ==> s[1..][i..] == s[i + 1..];
      RemoveBlocksIdentity(s[1..], open, close);
    }
  }

  /**
   * `s.replace(/<[^>]+>/g, ' ')`: a '<' whose next '>' comes at least two
   * characters later is replaced, with everything up to that '>', by a space.
   */
  function ReplaceTags(s: string): (r: string)
    ensures |r| <= |s|
    decreases |s|
  {
    if s == [] then []
    else if s[0] == '<' && |BeforeFirst(s[1..], '>')| < |s| - 1 && BeforeFirst(s[1..], '>') != [] then
      [' '] + ReplaceTags(s[|BeforeFirst(s[1..], '>')| + 2..])
    else [s[0]] + ReplaceTags(s[1..])
  }

  /** No text matches `<[^>]+>`: after each '<' either no '>' follows or one follows at once. */
  ghost predicate TagFree(s: string) {
    forall i :: 0 <= i < |s| && s[i] == '<' ==> '>' !in s[i + 1..] || (i + 1 < |s| && s[i + 1] == '>')
  }

  /** `ReplaceTags` introduces no '>'. */
  lemma {:induction false} ReplaceTagsNoNewGt(s: string)
    ensures '>' in ReplaceTags(s) ==> '>' in s
  {
    if s != [] {
      var b := BeforeFirst(s[1..], '>');
      if s[0] == '<' && |b| < |s| - 1 && b != [] {
        ReplaceTagsNoNewGt(s[|b| + 2..]);
        assert '>' in s[1..];
      } else {
        ReplaceTagsNoNewGt(s[1..]);
        if '>' in ReplaceTags(s[1..]) {
          assert '>' in s[1..];
        }
      }
    }
  }

  /** Putting a character other than '<' in front keeps a text tag-free. */
  lemma TagFreeCons(c: char, t: string)
    requires c != '<' && TagFree(t)
    ensures TagFree([c] + t)
  {
    var s := [c] + t;
    forall i | 0 <= i < |s| && s[i] == '<'
      ensures '>' !in s[i + 1..] || (i + 1 < |s| && s[i + 1] == '>')
    {
      assert s[i + 1..] == t[i..];
    }
  }

  /** Putting a '<' in front of a tag-free text without '>' keeps it tag-free. */
  lemma TagFreeConsOpen(t: string)
    requires TagFree(t) && (t == [] || t[0] == '>' || '>' !in t)
    ensures TagFree(['<'] + t)
  {
    var s := ['<'] + t;
    forall i | 0 <= i < |s| && s[i] == '<'
      ensures '>' !in s[i + 1..] || (i + 1 < |s| && s[i + 1] == '>')
    {
      assert s[i + 1..] == t[i..];
      if i > 0 {
        assert t[i - 1] == '<';
      }
    }
  }

  /** Every tag is replaced: the result of `ReplaceTags` matches `<[^>]+>` nowhere. */
  lemma {:induction false} ReplaceTagsTagFree(s: string)
    ensures TagFree(ReplaceTags(s))
  {
    if s != [] {
      var b := BeforeFirst(s[1..], '>');
      if s[0] == '<' && |b| < |s| - 1 && b != [] {
        ReplaceTagsTagFree(s[|b| + 2..]);
        TagFreeCons(' ', ReplaceTags(s[|b| + 2..]));
      } else {
        var rest := ReplaceTags(s[1..]);
        ReplaceTagsTagFree(s[1..]);
        if s[0] == '<' {
          if |b| == |s| - 1 {
            ReplaceTagsNoNewGt(s[1..]);
            assert '>' !in s[1..];
          } else {
            assert s[1] == '>';
            assert rest[0] == '>';
          }
          TagFreeConsOpen(rest);
        } else {
          TagFreeCons(s[0], rest);
        }
      }
    }
  }

  /** Tag-free text is left alone by `ReplaceTags`. */
  lemma {:induction false} ReplaceTagsIdentity(s: string)
    requires TagFree(s)
    ensures ReplaceTags(s) == s
  {
    if s != [] {
      var b := BeforeFirst(s[1..], '>');
      if s[0] == '<' && |b| < |s| - 1 && b != [] {
        assert false;
      }
      forall i | 0 <= i < |s| - 1 && s[1..][i] == '<'
        ensures '>' !in s[1..][i + 1..] || (i + 1 < |s[1..]| && s[1..][i + 1] == '>')
      {
        assert s[1..][i + 1..] == s[i + 2..];
      }
      ReplaceTagsIdentity(s[1..]);
    }
  }

  /**
   * Each tag is replaced by exactly one space: text free of '<' before a
   * tag `<t>` is kept as it is, and replacement resumes after the '>'.
   */
  lemma {:induction false} ReplaceTagsOneTag(a: string, t: string, b: string)
    requires '<' !in a && t != [] && '>' !in t
    ensures ReplaceTags(a + ['<'] + t + ['>'] + b) == a + [' '] + ReplaceTags(b)
  {
    var s := a + ['<'] + t + ['>'] + b;
    if a == [] {
      assert s == ['<'] + t + ['>'] + b;
      assert s[1..] == t + ['>'] + b;
      BeforeFirstSeparator(t, b, '>');
      assert s[|t| + 2..] == b;
    } else {
      assert s[0] == a[0];
      assert s[1..] == a[1..] + ['<'] + t + ['>'] + b;
      ReplaceTagsOneTag(a[1..], t, b);
      assert a == [a[0]] + a[1..];
    }
  }

  /** A contiguous part of a tag-free text is tag-free. */
  lemma TagFreeSlice(s: string, lo: nat, hi: nat)
    requires lo <= hi <= |s| && TagFree(s)
    ensures TagFree(s[lo..hi])
  {
    var u := s[lo..hi];
    forall i | 0 <= i < |u| && u[i] == '<'
      ensures '>' !in u[i + 1..] || (i + 1 < |u| && u[i + 1] == '>')
    {
      assert s[lo + i] == '<';
      if '>' in u[i + 1..] {
        var j :| i + 1 <= j < |u| && u[j] == '>';
        assert s[lo + j] == '>';
        assert '>' in s[lo + i + 1..] by {
          assert s[lo + i + 1..][j - i - 1] == '>';
        }
      }
    }
  }

  /** Collapsing white-space runs to a space keeps a text tag-free. */
  lemma {:induction false} ReplaceSpaceRunsTagFree(s: string)
    requires TagFree(s)
    ensures TagFree(ReplaceSpaceRuns(s, ' '))
    decreases |s|
  {
    if s != [] {
      TagFreeSlice(s, 1, |s|);
      if IsSpace(s[0]) {
        var t := TrimStart(s[1..]);
        TrimStartSpec(s[1..]);
        TagFreeSlice(s[1..], |s| - 1 - |t|, |s| - 1);
        ReplaceSpaceRunsTagFree(t);
        TagFreeCons(' ', ReplaceSpaceRuns(t, ' '));
      } else {
        var rest := ReplaceSpaceRuns(s[1..], ' ');
        ReplaceSpaceRunsTagFree(s[1..]);
        if s[0] == '<' {
          ReplaceSpaceRunsSpec(s[1..], ' ');
          if '>' in rest {
            var j :| 0 <= j < |rest| && rest[j] == '>';
            assert rest[j] in s[1..];
            assert s[1] == '>';
          }
          TagFreeConsOpen(rest);
        } else {
          TagFreeCons(s[0], rest);
        }
      }
    }
  }

  /** Trimming keeps a text tag-free. */
  lemma TrimTagFree(s: string)
    requires TagFree(s)
    ensures TagFree(Trim(s))
  {
    TrimSplits(s);
    TagFreeSlice(s, LeadingSpace(s), LeadingSpace(s) + |Trim(s)|);
  }

  /** No two adjacent characters are both white space. */
  ghost predicate NoDoubleSpace(s: string) {
    forall i :: 0 <= i < |s| - 1 && IsSpace(s[i]) ==> !IsSpace(s[i + 1])
  }

  /** Trimming keeps a text free of double white space. */
  lemma TrimNoDoubleSpace(s: string)
    requires NoDoubleSpace(s)
    ensures NoDoubleSpace(Trim(s))
  {
    TrimSplits(s);
    var k := LeadingSpace(s);
    var t := Trim(s);
    assert forall i :: 0 <= i < |t| ==> t[i] == s[k + i];
  }

  /**
   * `stripHtml(html)`: style and script blocks removed, tags replaced by a
   * space, white-space runs collapsed to one space, then trimmed.
   */
  function StripHtml(html: string): (r: string)
    ensures r == [] || (!IsSpace(r[0]) && !IsSpace(r[|r| - 1]))
    ensures NoDoubleSpace(r)
    ensures TagFree(r)
  {
    var noStyle := RemoveBlocks(html, "<style", "</style>");
    var noScript := RemoveBlocks(noStyle, "<script", "</script>");
    var collapsed := ReplaceSpaceRuns(ReplaceTags(noScript), ' ');
    ReplaceSpaceRunsSpec(ReplaceTags(noScript), ' ');
    TrimEdges(collapsed);
    TrimNoDoubleSpace(collapsed);
    ReplaceTagsTagFree(noScript);
    ReplaceSpaceRunsTagFree(ReplaceTags(noScript));
    TrimTagFree(collapsed);
    Trim(collapsed)
  }

  /** Trimming removes white space only: the other characters are kept in order. */
  lemma TrimKeepsText(s: string)
    ensures Filter(Trim(s), NotSpace) == Filter(s, NotSpace)
  {
    TrimSplits(s);
    TrimRemovesOnlySpace(s);
    var k := LeadingSpace(s);
    var t := Trim(s);
    var pre, post := s[..k], s[k + |t|..];
    FilterConcat(pre + t, post, NotSpace);
    FilterConcat(pre, t, NotSpace);
    FilterNone(pre, NotSpace);
    FilterNone(post, NotSpace);
  }

  /**
   * Stripping keeps the non-space text that survives block removal and tag
   * replacement, in order: only white space is collapsed or trimmed.
   */
  lemma StripHtmlKeepsText(html: string)
    ensures var noScript := RemoveBlocks(RemoveBlocks(html, "<style", "</style>"), "<script", "</script>");
      Filter(StripHtml(html), NotSpace) == Filter(ReplaceTags(noScript), NotSpace)
  {
    var noScript := RemoveBlocks(RemoveBlocks(html, "<style", "</style>"), "<script", "</script>");
    ReplaceSpaceRunsKeepsText(ReplaceTags(noScript), ' ');
    TrimKeepsText(ReplaceSpaceRuns(ReplaceTags(noScript), ' '));
  }

  /**
   * `s.split(/\s+/)`: the pieces between maximal white-space runs; a leading
   * run gives an empty first piece and the empty string gives `[""]`.
   */
  function SplitOnSpace(s: string): (r: seq<string>)
    ensures r != []
    decreases |s|
  {
    var head := TakeWhileNotSpace(s);
    if |head| == |s| then [s]
    else [head] + SplitOnSpace(TrimStart(s[|head|..]))
  }

  /** The longest prefix of `s` without white space. */
  function TakeWhileNotSpace(s: string): (r: string)
    ensures |r| <= |s| && r == s[..|r|]
    ensures forall i :: 0 <= i < |r| ==> !IsSpace(s[i])
    ensures |r| < |s| ==> IsSpace(s[|r|])
  {
    if s == [] || IsSpace(s[0]) then [] else [s[0]] + TakeWhileNotSpace(s[1..])
  }

  predicate NonEmpty(w: string) { w != [] }

  /** `countWords(text)` */
  function CountWords(text: string): nat {
    if text == [] then 0
    else |Filter(SplitOnSpace(Trim(text)), NonEmpty)|
  }

  /** The number of word starts after position 0 of `s`: a non-space character preceded by space (or by the start, when `afterSpace`). */
  function RunStarts(s: string, afterSpace: bool): nat
    decreases |s|
  {
    if s == [] then 0
    else (if afterSpace && !IsSpace(s[0]) then 1 else 0) + RunStarts(s[1..], IsSpace(s[0]))
  }

  /** The number of maximal runs of non-white-space characters in `s`. */
  function Runs(s: string): nat {
    RunStarts(s, true)
  }

  /** White space starts no run and leaves the next character at the start of a run. */
  lemma {:induction false} RunStartsAfterSpace(pre: string, t: string, afterSpace: bool)
    requires AllSpace(pre) && pre != []
    ensures RunStarts(pre + t, afterSpace) == RunStarts(t, true)
  {
    assert (pre + t)[1..] == pre[1..] + t;
    if |pre| > 1 {
      RunStartsAfterSpace(pre[1..], t, true);
    } else {
      assert pre[1..] + t == t;
    }
  }

  /** Trailing white space starts no run. */
  lemma {:induction false} RunStartsTrailingSpace(t: string, post: string, afterSpace: bool)
    requires AllSpace(post)
    ensures RunStarts(t + post, afterSpace) == RunStarts(t, afterSpace)
  {
    if t == [] {
      assert t + post == post;
      RunStartsOfSpace(post, afterSpace);
    } else {
      assert (t + post)[1..] == t[1..] + post;
      RunStartsTrailingSpace(t[1..], post, IsSpace(t[0]));
    }
  }

  lemma {:induction false} RunStartsOfSpace(s: string, afterSpace: bool)
    requires AllSpace(s)
    ensures RunStarts(s, afterSpace) == 0
  {
    if s != [] {
      RunStartsOfSpace(s[1..], true);
    }
  }

  /** A word followed by more text counts once, the rest counting as after the word. */
  lemma {:induction false} RunStartsWord(w: string, t: string, afterSpace: bool)
    requires w != [] && forall i :: 0 <= i < |w| ==> !IsSpace(w[i])
    ensures RunStarts(w + t, afterSpace) == (if afterSpace then 1 else 0) + RunStarts(t, false)
  {
    assert (w + t)[1..] == w[1..] + t;
    if |w| > 1 {
      RunStartsWord(w[1..], t, false);
    } else {
      assert w[1..] + t == t;
    }
  }

  /** On text that does not start with white space, the non-empty split pieces are its runs. */
  lemma {:induction false} SplitCountsRuns(s: string)
    requires s == [] || !IsSpace(s[0])
    ensures |Filter(SplitOnSpace(s), NonEmpty)| == Runs(s)
    decreases |s|
  {
    var head := TakeWhileNotSpace(s);
    if |head| == |s| {
      if s != [] {
        RunStartsWord(s, [], true);
        assert s + [] == s;
      }
    } else {
      var rest := s[|head|..];
      var u := TrimStart(rest);
      TrimStartSpec(rest);
      var pre := rest[..|rest| - |u|];
      assert rest == pre + u;
      assert pre != [] by {
        assert IsSpace(rest[0]);
      }
      assert s == head + rest;
      RunStartsWord(head, rest, true);
      RunStartsAfterSpace(pre, u, false);
      SplitCountsRuns(u);
      assert SplitOnSpace(s) == [head] + SplitOnSpace(u);
      FilterConcat([head], SplitOnSpace(u), NonEmpty);
    }
  }

  /** Trimming white space from both ends changes no run count. */
  lemma RunsOfTrim(text: string)
    ensures Runs(Trim(text)) == Runs(text)
  {
    TrimSplits(text);
    TrimRemovesOnlySpace(text);
    var k := LeadingSpace(text);
    var t := Trim(text);
    var pre, post := text[..k], text[k + |t|..];
    RunStartsTrailingSpace(t, post, true);
    if pre != [] {
      assert text == pre + (t + post);
      RunStartsAfterSpace(pre, t + post, true);
    } else {
      assert text == t + post;
    }
  }

  /** `countWords` is the number of maximal runs of non-white-space characters. */
  lemma CountWordsIsRuns(text: string)
    ensures CountWords(text) == Runs(text)
  {
    if text != [] {
      TrimEdges(text);
      SplitCountsRuns(Trim(text));
      RunsOfTrim(text);
    }
  }

  /** Empty or all-white-space text has no words. */
  lemma CountWordsOfSpace(text: string)
    requires AllSpace(text)
    ensures CountWords(text) == 0
  {
    CountWordsIsRuns(text);
    RunStartsOfSpace(text, true);
  }

  /**
   * `readingTimeMinutesFromWords(words)`: `Math.max(1, Math.round(words / 200))`,
   * where `Math.round(x)` is the floor of x + 0.5.
   */
  function ReadingTime(words: nat): (r: int) {
    var rounded := ((words as real) / 200.0 + 0.5).Floor;
    if rounded < 1 then 1 else rounded
  }

  /** Rounding words/200 to the nearest integer is adding 100 before dividing. */
  lemma RoundedMinutes(words: nat)
    ensures ((words as real) / 200.0 + 0.5).Floor == (words + 100) / 200
  {
    var q := (words + 100) / 200;
    var x := (words as real) / 200.0 + 0.5;
    assert x == ((words + 100) as real) / 200.0;
    assert q * 200 <= words + 100 < q * 200 + 200;
    assert (q as real) <= x < (q as real) + 1.0;
  }

  /** Reading time is at least one minute and is max(1, (words + 100) div 200). */
  lemma ReadingTimeClosedForm(words: nat)
    ensures ReadingTime(words) == if (words + 100) / 200 < 1 then 1 else (words + 100) / 200
    ensures ReadingTime(words) >= 1
  {
    RoundedMinutes(words);
  }

  /** More words never mean less reading time. */
  lemma ReadingTimeMonotone(a: nat, b: nat)
    requires a <= b
    ensures ReadingTime(a) <= ReadingTime(b)
  {
    RoundedMinutes(a);
    RoundedMinutes(b);
  }
}
