/**
 * The JavaScript string operations the application relies on: `trim`, the
 * regular-expression class `\s`, `toLowerCase`, `split(c)[0]`, `slice`,
 * number-to-string conversion and character-class filtering
 * (`replace(/[^...]/g, '')`).
 */
module JsText {

  import opened Seqs

  /**
   * The ECMAScript WhiteSpace and LineTerminator code points: exactly the
   * characters `String.prototype.trim` removes and the regex class `\s` matches.
   */
  predicate IsSpace(c: char) {
    c == '\t' || c == '\n' || c == '\U{0B}' || c == '\U{0C}' || c == '\r' || c == ' '
    || c == '\U{A0}' || c == '\U{1680}' || ('\U{2000}' <= c <= '\U{200A}')
    || c == '\U{2028}' || c == '\U{2029}' || c == '\U{202F}' || c == '\U{205F}'
    || c == '\U{3000}' || c == '\U{FEFF}'
  }

  ghost predicate AllSpace(s: string) {
    forall i :: 0 <= i < |s| ==> IsSpace(s[i])
  }

  predicate IsAsciiDigit(c: char) { '0' <= c <= '9' }

  predicate IsAsciiLower(c: char) { 'a' <= c <= 'z' }

  /** Leading white space removed. */
  function TrimStart(s: string): (r: string)
    ensures |r| <= |s|
  {
    if s != [] && IsSpace(s[0]) then TrimStart(s[1..]) else s
  }

  /** `TrimStart` drops a white-space prefix and stops at the first other character. */
  lemma {:induction false} TrimStartSpec(s: string)
    ensures TrimStart(s) == s[|s| - |TrimStart(s)|..]
    ensures AllSpace(s[..|s| - |TrimStart(s)|])
    ensures TrimStart(s) == [] || !IsSpace(TrimStart(s)[0])
  {
    if s != [] && IsSpace(s[0]) {
      TrimStartSpec(s[1..]);
      assert s[..|s| - |TrimStart(s)|] == [s[0]] + s[1..][..|s| - 1 - |TrimStart(s)|];
    }
  }

  /** Trailing white space removed. */
  function TrimEnd(s: string): (r: string)
    ensures |r| <= |s|
  {
    if s != [] && IsSpace(s[|s| - 1]) then TrimEnd(s[..|s| - 1]) else s
  }

  /** `TrimEnd` drops a white-space suffix and stops at the last other character. */
  lemma {:induction false} TrimEndSpec(s: string)
    ensures TrimEnd(s) == s[..|TrimEnd(s)|]
    ensures AllSpace(s[|TrimEnd(s)|..])
    ensures TrimEnd(s) == [] || !IsSpace(TrimEnd(s)[|TrimEnd(s)| - 1])
  {
    if s != [] && IsSpace(s[|s| - 1]) {
      var t := s[..|s| - 1];
      TrimEndSpec(t);
      assert s[|TrimEnd(s)|..] == t[|TrimEnd(t)|..] + [s[|s| - 1]];
    }
  }

  /** `s.trim()` */
  function Trim(s: string): (r: string)
    ensures |r| <= |s|
  {
    TrimEnd(TrimStart(s))
  }

  /** The number of white-space characters `trim` removes at the front. */
  function LeadingSpace(s: string): (k: nat)
    ensures k <= |s|
  {
    |s| - |TrimStart(s)|
  }

  /** Cutting a window `r` out of a suffix `t` of `s` splits `s` in three. */
  lemma WindowSplits(s: string, k: nat, t: string, r: string)
    requires k <= |s| && t == s[k..] && |r| <= |t| && r == t[..|r|]
    ensures s == s[..k] + r + s[k + |r|..]
  {
    assert s == s[..k] + t;
    assert t == r + t[|r|..];
    assert t[|r|..] == s[k + |r|..];
  }

  /** `trim` cuts a string into a prefix, the trimmed text and a suffix... */
  lemma TrimSplits(s: string)
    ensures LeadingSpace(s) + |Trim(s)| <= |s|
    ensures s == s[..LeadingSpace(s)] + Trim(s) + s[LeadingSpace(s) + |Trim(s)|..]
  {
    TrimStartSpec(s);
    TrimEndSpec(TrimStart(s));
    WindowSplits(s, LeadingSpace(s), TrimStart(s), Trim(s));
  }

  /** ... and that prefix and suffix are white space. */
  lemma TrimRemovesOnlySpace(s: string)
    ensures LeadingSpace(s) + |Trim(s)| <= |s|
    ensures AllSpace(s[..LeadingSpace(s)])
    ensures AllSpace(s[LeadingSpace(s) + |Trim(s)|..])
  {
    var t := TrimStart(s);
    var k := |s| - |t|;
    var r := TrimEnd(t);
    TrimStartSpec(s);
    TrimEndSpec(t);
    assert t[|r|..] == s[k + |r|..];
  }

  /** The trimmed text neither starts nor ends with white space. */
  lemma TrimEdges(s: string)
    ensures Trim(s) == [] || (!IsSpace(Trim(s)[0]) && !IsSpace(Trim(s)[|Trim(s)| - 1]))
  {
    var t := TrimStart(s);
    var r := TrimEnd(t);
    TrimStartSpec(s);
    TrimEndSpec(t);
    if r != [] {
      assert r[0] == t[0];
    }
  }

  /** A string that neither starts nor ends with white space is its own trim. */
  lemma TrimIdentity(s: string)
    requires s == [] || (!IsSpace(s[0]) && !IsSpace(s[|s| - 1]))
    ensures Trim(s) == s
  {
  }

  /** `trim` is idempotent. */
  lemma TrimIdempotent(s: string)
    ensures Trim(Trim(s)) == Trim(s)
  {
    TrimEdges(s);
    TrimIdentity(Trim(s));
  }

  /**
   * `toLowerCase` of one character. Modelled for ASCII, for the Turkish
   * capitals the editor cares about, for the dotted capital I (which becomes
   * 'i' followed by U+0307 COMBINING DOT ABOVE) and for the Kelvin sign
   * (which becomes 'k'); every other character is left as it is.
   */
  function LowerChar(c: char): (r: string)
    ensures 1 <= |r| <= 2
  {
    if 'A' <= c <= 'Z' then [(c as int + 32) as char]
    else if c == '\U{C7}' then ['\U{E7}']         // Ç -> ç
    else if c == '\U{D6}' then ['\U{F6}']         // Ö -> ö
    else if c == '\U{DC}' then ['\U{FC}']         // Ü -> ü
    else if c == '\U{11E}' then ['\U{11F}']       // Ğ -> ğ
    else if c == '\U{15E}' then ['\U{15F}']       // Ş -> ş
    else if c == '\U{130}' then ['i', '\U{307}']  // İ -> i̇
    else if c == '\U{212A}' then ['k']            // Kelvin sign -> k
    else [c]
  }

  /** `s.toLowerCase()` */
  function Lower(s: string): (r: string)
    ensures |s| <= |r| <= 2 * |s|
  {
    if s == [] then [] else LowerChar(s[0]) + Lower(s[1..])
  }

  lemma {:induction false} LowerConcat(a: string, b: string)
    ensures Lower(a + b) == Lower(a) + Lower(b)
  {
    if a == [] {
      assert a + b == b;
    } else {
      assert (a + b)[1..] == a[1..] + b;
      LowerConcat(a[1..], b);
    }
  }

  /** Lower-casing leaves white space alone. */
  lemma {:induction false} LowerOfSpace(s: string)
    requires AllSpace(s)
    ensures Lower(s) == s
  {
    if s != [] {
      LowerOfSpace(s[1..]);
    }
  }

  /** Lower-casing a string that has no upper-case letter changes nothing. */
  lemma {:induction false} LowerIdentity(s: string)
    requires forall i :: 0 <= i < |s| ==> LowerChar(s[i]) == [s[i]]
    ensures Lower(s) == s
  {
    if s != [] {
      LowerIdentity(s[1..]);
    }
  }

  /** `s.replace(/\s+/g, repl)`: every maximal run of white space becomes the one character `repl`. */
  function ReplaceSpaceRuns(s: string, repl: char): (r: string)
    ensures |r| <= |s|
    decreases |s|
  {
    if s == [] then []
    else if IsSpace(s[0]) then [repl] + ReplaceSpaceRuns(TrimStart(s[1..]), repl)
    else [s[0]] + ReplaceSpaceRuns(s[1..], repl)
  }

  /**
   * `ReplaceSpaceRuns` yields the empty string only for the empty input,
   * writes `repl` or a non-space character of the input at every position,
   * and leaves no white space next to white space.
   */
  lemma {:induction false} ReplaceSpaceRunsSpec(s: string, repl: char)
    ensures var r := ReplaceSpaceRuns(s, repl);
      && (r == [] <==> s == [])
      && (r != [] ==> if IsSpace(s[0]) then r[0] == repl else r[0] == s[0])
      && (forall i :: 0 <= i < |r| ==> r[i] == repl || (r[i] in s && !IsSpace(r[i])))
      && (forall i :: 0 <= i < |r| - 1 && IsSpace(r[i]) ==> !IsSpace(r[i + 1]))
    decreases |s|
  {
    if s != [] {
      var r := ReplaceSpaceRuns(s, repl);
      if IsSpace(s[0]) {
        var t := TrimStart(s[1..]);
        TrimStartSpec(s[1..]);
        ReplaceSpaceRunsSpec(t, repl);
        var rest := ReplaceSpaceRuns(t, repl);
        assert r == [repl] + rest;
        forall i | 0 <= i < |r| && r[i] != repl
          ensures r[i] in s && !IsSpace(r[i])
        {
          assert rest[i - 1] in t;
          var j :| 0 <= j < |t| && t[j] == rest[i - 1];
          assert t[j] == s[|s| - |t| + j];
        }
      } else {
        ReplaceSpaceRunsSpec(s[1..], repl);
        var rest := ReplaceSpaceRuns(s[1..], repl);
        assert r == [s[0]] + rest;
        forall i | 0 <= i < |r| && r[i] != repl
          ensures r[i] in s && !IsSpace(r[i])
        {
          if i > 0 {
            assert rest[i - 1] in s[1..];
          }
        }
      }
    }
  }

  /** A string without white space is left alone by `ReplaceSpaceRuns`. */
  lemma {:induction false} ReplaceSpaceRunsIdentity(s: string, repl: char)
    requires forall i :: 0 <= i < |s| ==> !IsSpace(s[i])
    ensures ReplaceSpaceRuns(s, repl) == s
  {
    if s != [] {
      ReplaceSpaceRunsIdentity(s[1..], repl);
    }
  }

  /** `TrimStart` of white space followed by a text that does not start with white space is that text. */
  lemma {:induction false} TrimStartAfterSpace(w: string, b: string)
    requires AllSpace(w)
    requires b == [] || !IsSpace(b[0])
    ensures TrimStart(w + b) == b
  {
    if w == [] {
      assert w + b == b;
    } else {
      assert (w + b)[1..] == w[1..] + b;
      TrimStartAfterSpace(w[1..], b);
    }
  }

  /**
   * One run of white space between a white-space-free text and a text that
   * does not start with white space becomes exactly one `repl`; the text
   * before it is kept as it is.
   */
  lemma {:induction false} ReplaceSpaceRunsOneRun(a: string, w: string, b: string, repl: char)
    requires forall i :: 0 <= i < |a| ==> !IsSpace(a[i])
    requires w != [] && AllSpace(w)
    requires b == [] || !IsSpace(b[0])
    ensures ReplaceSpaceRuns(a + w + b, repl) == a + [repl] + ReplaceSpaceRuns(b, repl)
  {
    var s := a + w + b;
    if a == [] {
      assert s == w + b && s[0] == w[0];
      assert s[1..] == w[1..] + b;
      TrimStartAfterSpace(w[1..], b);
    } else {
      assert s[0] == a[0];
      assert s[1..] == a[1..] + w + b;
      ReplaceSpaceRunsOneRun(a[1..], w, b, repl);
      assert a == [a[0]] + a[1..];
    }
  }

  predicate NotSpace(c: char) { !IsSpace(c) }

  /**
   * With a white-space replacement, the characters other than white space
   * are exactly those of the input, in the same order.
   */
  lemma {:induction false} ReplaceSpaceRunsKeepsText(s: string, repl: char)
    requires IsSpace(repl)
    ensures Filter(ReplaceSpaceRuns(s, repl), NotSpace) == Filter(s, NotSpace)
    decreases |s|
  {
    if s != [] {
      if IsSpace(s[0]) {
        var t := TrimStart(s[1..]);
        TrimStartSpec(s[1..]);
        ReplaceSpaceRunsKeepsText(t, repl);
        var pre := s[1..][..|s| - 1 - |t|];
        assert s[1..] == pre + t;
        FilterConcat(pre, t, NotSpace);
        FilterNone(pre, NotSpace);
        FilterConcat([repl], ReplaceSpaceRuns(t, repl), NotSpace);
        assert s == [s[0]] + s[1..];
        FilterConcat([s[0]], s[1..], NotSpace);
      } else {
        ReplaceSpaceRunsKeepsText(s[1..], repl);
      }
    }
  }

  /** `s.slice(0, n)` for n >= 0. */
  function Take(s: string, n: nat): (r: string)
    ensures |r| == if |s| <= n then |s| else n
    ensures r == s[..|r|]
  {
    if |s| <= n then s else s[..n]
  }

  /** `s.slice(-n)` for n > 0: the last n characters, or all of a shorter string. */
  function TakeLast(s: string, n: nat): (r: string)
    ensures |r| == if |s| <= n then |s| else n
    ensures r == s[|s| - |r|..]
  {
    if |s| <= n then s else s[|s| - n..]
  }

  /** `s.split(c)[0]`: the text before the first occurrence of `c`, or all of `s`. */
  function BeforeFirst(s: string, c: char): (r: string)
    ensures |r| <= |s| && r == s[..|r|]
    ensures c !in r
    ensures |r| < |s| ==> s[|r|] == c
  {
    if s == [] || s[0] == c then [] else [s[0]] + BeforeFirst(s[1..], c)
  }

  /** `split(c)[0]` of a `c`-free text followed by `c` is that text. */
  lemma BeforeFirstSeparator(a: string, b: string, c: char)
    requires c !in a
    ensures BeforeFirst(a + [c] + b, c) == a
  {
    assert (a + [c] + b)[|a|] == c;
    assert (a + [c] + b)[..|a|] == a;
  }

  /** Decimal digits of a natural number, as `Number.prototype.toString()` writes it. */
  function NatToString(n: nat): (r: string)
    ensures r != []
    ensures forall i :: 0 <= i < |r| ==> IsAsciiDigit(r[i])
    decreases n
  {
    var d := ['0' + (n % 10) as char];
    if n < 10 then d else NatToString(n / 10) + d
  }

  /** `String(n)` for an integer. */
  function IntToString(n: int): string {
    if n < 0 then "-" + NatToString(-n) else NatToString(n)
  }
}
