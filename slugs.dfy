/**
 * The URL slug `CategoryDataOrchestrator.addUrl` derives from a category
 * name: lower-case it, replace each run of characters outside
 * `[A-Za-z0-9-]` with one hyphen, collapse runs of hyphens and strip hyphens
 * from both ends. Lower-casing is modelled on ASCII letters only.
 */
module Slugs {

  predicate IsUpper(c: char) { 'A' <= c <= 'Z' }

  /** ASCII `str.lower()` on one character. */
  function LowerChar(c: char): (r: char)
    ensures !IsUpper(r)
    ensures IsUpper(c) ==> 'a' <= r <= 'z'
    ensures !IsUpper(c) ==> r == c
  {
    if IsUpper(c) then (c as int + 32) as char else c
  }

  /** `s.lower()`, position by position. */
  function Lower(s: string): string {
    if s == [] then [] else [LowerChar(s[0])] + Lower(s[1..])
  }

  /** Lower-casing keeps the length and lower-cases each character in place. */
  lemma {:induction false} LowerAt(s: string)
    ensures |Lower(s)| == |s|
    ensures forall i :: 0 <= i < |s| ==> Lower(s)[i] == LowerChar(s[i])
  {
    if s != [] {
      LowerAt(s[1..]);
      assert forall i :: 1 <= i < |s| ==> Lower(s)[i] == Lower(s[1..])[i - 1];
    }
  }

  /** The characters the pattern `[^A-Za-z0-9-]` does not match. */
  predicate UrlChar(c: char) { 'A' <= c <= 'Z' || 'a' <= c <= 'z' || '0' <= c <= '9' || c == '-' }

  /** The characters a slug is made of. */
  predicate SlugChar(c: char) { 'a' <= c <= 'z' || '0' <= c <= '9' || c == '-' }

  /** Letters and digits: what the slug must keep. */
  predicate Alnum(c: char) { 'A' <= c <= 'Z' || 'a' <= c <= 'z' || '0' <= c <= '9' }

  /**
   * `re.sub(r"[^A-Za-z0-9-]+", "-", s)`: each maximal run of other characters
   * becomes a single hyphen. `inRun` says the character before `s` was in
   * such a run.
   */
  function ReplaceRuns(s: string, inRun: bool): string {
    if s == [] then []
    else if UrlChar(s[0]) then [s[0]] + ReplaceRuns(s[1..], false)
    else if inRun then ReplaceRuns(s[1..], true)
    else ['-'] + ReplaceRuns(s[1..], true)
  }

  /**
   * After replacement only characters of `[A-Za-z0-9-]` remain, and none of
   * them is upper-case when the input had no upper-case letter.
   */
  lemma {:induction false} ReplaceRunsChars(s: string, inRun: bool)
    ensures forall i :: 0 <= i < |ReplaceRuns(s, inRun)| ==> UrlChar(ReplaceRuns(s, inRun)[i])
    ensures (forall i :: 0 <= i < |s| ==> !IsUpper(s[i])) ==>
              forall i :: 0 <= i < |ReplaceRuns(s, inRun)| ==> SlugChar(ReplaceRuns(s, inRun)[i])
  {
    if s != [] {
      var rest := s[1..];
      assert forall i :: 0 <= i < |rest| ==> rest[i] == s[i + 1];
      if UrlChar(s[0]) {
        ReplaceRunsChars(rest, false);
        var r := ReplaceRuns(rest, false);
        assert forall i :: 1 <= i < |r| + 1 ==> ([s[0]] + r)[i] == r[i - 1];
      } else if inRun {
        ReplaceRunsChars(rest, true);
      } else {
        ReplaceRunsChars(rest, true);
        var r := ReplaceRuns(rest, true);
        assert forall i :: 1 <= i < |r| + 1 ==> (['-'] + r)[i] == r[i - 1];
      }
    }
  }

  /** No two hyphens stand next to each other. */
  ghost predicate NoDoubleHyphen(s: string) {
    forall i :: 0 <= i < |s| - 1 ==> !(s[i] == '-' && s[i + 1] == '-')
  }

  /**
   * `re.sub("-+", "-", s)`: each run of hyphens becomes one hyphen.
   * `afterHyphen` says the character before `s` was a hyphen.
   */
  function CollapseHyphens(s: string, afterHyphen: bool): string {
    if s == [] then []
    else if s[0] != '-' then [s[0]] + CollapseHyphens(s[1..], false)
    else if afterHyphen then CollapseHyphens(s[1..], true)
    else ['-'] + CollapseHyphens(s[1..], true)
  }

  /**
   * Collapsing leaves no two adjacent hyphens, no leading hyphen after a
   * hyphen, and only characters of the slug alphabet when the input had only those.
   */
  lemma {:induction false} CollapseHyphensShape(s: string, afterHyphen: bool)
    ensures NoDoubleHyphen(CollapseHyphens(s, afterHyphen))
    ensures afterHyphen && CollapseHyphens(s, afterHyphen) != [] ==> CollapseHyphens(s, afterHyphen)[0] != '-'
    ensures (forall i :: 0 <= i < |s| ==> SlugChar(s[i])) ==>
              forall i :: 0 <= i < |CollapseHyphens(s, afterHyphen)| ==> SlugChar(CollapseHyphens(s, afterHyphen)[i])
  {
    if s != [] {
      var rest := s[1..];
      assert forall i :: 0 <= i < |rest| ==> rest[i] == s[i + 1];
      if s[0] != '-' {
        CollapseHyphensShape(rest, false);
        var r := CollapseHyphens(rest, false);
        assert forall i :: 1 <= i < |r| + 1 ==> ([s[0]] + r)[i] == r[i - 1];
      } else if afterHyphen {
        CollapseHyphensShape(rest, true);
      } else {
        CollapseHyphensShape(rest, true);
        var r := CollapseHyphens(rest, true);
        assert forall i :: 1 <= i < |r| + 1 ==> (['-'] + r)[i] == r[i - 1];
      }
    }
  }

  /** `s.lstrip("-")`: a suffix of `s` that does not start with a hyphen. */
  function TrimLeading(s: string): string {
    if s != [] && s[0] == '-' then TrimLeading(s[1..]) else s
  }

  /** `s.lstrip("-")` is a suffix of `s` without a leading hyphen, and only hyphens were removed. */
  lemma {:induction false} TrimLeadingShape(s: string)
    ensures |TrimLeading(s)| <= |s| && TrimLeading(s) == s[|s| - |TrimLeading(s)|..]
    ensures TrimLeading(s) != [] ==> TrimLeading(s)[0] != '-'
    ensures forall i :: 0 <= i < |s| - |TrimLeading(s)| ==> s[i] == '-'
  {
    if s != [] && s[0] == '-' {
      TrimLeadingShape(s[1..]);
      assert forall i :: 1 <= i < |s| ==> s[1..][i - 1] == s[i];
    }
  }

  /** `s.rstrip("-")`: a prefix of `s` that does not end with a hyphen. */
  function TrimTrailing(s: string): string {
    if s != [] && s[|s| - 1] == '-' then TrimTrailing(s[..|s| - 1]) else s
  }

  /** `s.rstrip("-")` is a prefix of `s` without a trailing hyphen, and only hyphens were removed. */
  lemma {:induction false} TrimTrailingShape(s: string)
    ensures |TrimTrailing(s)| <= |s| && TrimTrailing(s) == s[..|TrimTrailing(s)|]
    ensures TrimTrailing(s) != [] ==> TrimTrailing(s)[|TrimTrailing(s)| - 1] != '-'
    ensures forall i :: |TrimTrailing(s)| <= i < |s| ==> s[i] == '-'
  {
    if s != [] && s[|s| - 1] == '-' {
      TrimTrailingShape(s[..|s| - 1]);
      assert s[..|s| - 1][..|TrimTrailing(s)|] == s[..|TrimTrailing(s)|];
    }
  }

  /** `s.strip("-")`. */
  function Strip(s: string): string {
    TrimTrailing(TrimLeading(s))
  }

  /** The slug `addUrl` stores as a category's `url`. */
  function Slugify(category: string): string {
    Strip(CollapseHyphens(ReplaceRuns(Lower(category), false), false))
  }

  /** A well-formed slug: lower-case letters, digits and single hyphens, none at either end. */
  ghost predicate IsSlug(s: string) {
    && (forall i :: 0 <= i < |s| ==> SlugChar(s[i]))
    && NoDoubleHyphen(s)
    && (s != [] ==> s[0] != '-' && s[|s| - 1] != '-')
  }

  /** Stripping keeps a contiguous piece of the string, so it keeps its character class and single hyphens. */
  lemma StripShape(s: string)
    ensures var r := Strip(s);
      && ((forall i :: 0 <= i < |s| ==> SlugChar(s[i])) ==> forall i :: 0 <= i < |r| ==> SlugChar(r[i]))
      && (NoDoubleHyphen(s) ==> NoDoubleHyphen(r))
      && (r != [] ==> r[0] != '-' && r[|r| - 1] != '-')
  {
    var t := TrimLeading(s);
    var r := TrimTrailing(t);
    TrimLeadingShape(s);
    TrimTrailingShape(t);
    var k := |s| - |t|;
    assert forall i :: 0 <= i < |r| ==> r[i] == s[k + i];
  }

  /** Every slug `addUrl` computes is well formed. */
  lemma SlugifyIsSlug(category: string)
    ensures IsSlug(Slugify(category))
  {
    var lowered := Lower(category);
    var replaced := ReplaceRuns(lowered, false);
    var collapsed := CollapseHyphens(replaced, false);
    LowerAt(category);
    ReplaceRunsChars(lowered, false);
    CollapseHyphensShape(replaced, false);
    StripShape(collapsed);
  }

  /** Lower-casing changes nothing in a string without upper-case letters. */
  lemma {:induction false} LowerOfLower(s: string)
    requires forall i :: 0 <= i < |s| ==> !IsUpper(s[i])
    ensures Lower(s) == s
  {
    if s != [] {
      LowerOfLower(s[1..]);
    }
  }

  /** Replacement changes nothing in a string that only has allowed characters. */
  lemma {:induction false} ReplaceRunsOfUrlChars(s: string, inRun: bool)
    requires forall i :: 0 <= i < |s| ==> UrlChar(s[i])
    ensures ReplaceRuns(s, inRun) == s
  {
    if s != [] {
      ReplaceRunsOfUrlChars(s[1..], false);
    }
  }

  /** Collapsing changes nothing when no hyphen follows a hyphen. */
  lemma {:induction false} CollapseOfSingleHyphens(s: string, afterHyphen: bool)
    requires NoDoubleHyphen(s)
    requires afterHyphen && s != [] ==> s[0] != '-'
    ensures CollapseHyphens(s, afterHyphen) == s
  {
    if s != [] {
      CollapseOfSingleHyphens(s[1..], s[0] == '-');
    }
  }

  /** A well-formed slug is its own slug. */
  lemma SlugIsFixpoint(s: string)
    requires IsSlug(s)
    ensures Slugify(s) == s
  {
    LowerOfLower(s);
    ReplaceRunsOfUrlChars(s, false);
    CollapseOfSingleHyphens(s, false);
  }

  /** Slugging a slug returns it unchanged. */
  lemma SlugifyIdempotent(category: string)
    ensures Slugify(Slugify(category)) == Slugify(category)
  {
    SlugifyIsSlug(category);
    SlugIsFixpoint(Slugify(category));
  }

  // An independent description of the slug: the words of the lower-cased
  // name, joined with single hyphens.

  /** The longest prefix of `s` made of letters and digits. */
  function LeadingWord(s: string): (w: string)
    ensures |w| <= |s| && w == s[..|w|]
    ensures forall i :: 0 <= i < |w| ==> Alnum(w[i])
    ensures |w| < |s| ==> !Alnum(s[|w|])
    ensures s != [] && Alnum(s[0]) ==> |w| > 0
  {
    if s != [] && Alnum(s[0]) then [s[0]] + LeadingWord(s[1..]) else []
  }

  /** The words of `s`: its maximal runs of letters and digits, left to right. */
  function Words(s: string): (ws: seq<string>)
    ensures forall k :: 0 <= k < |ws| ==> ws[k] != []
    decreases |s|
  {
    if s == [] then []
    else if !Alnum(s[0]) then Words(s[1..])
    else
      var w := LeadingWord(s);
      [w] + Words(s[|w|..])
  }

  /** `"-".join(ws)`. */
  function JoinWords(ws: seq<string>): string {
    if ws == [] then []
    else if |ws| == 1 then ws[0]
    else ws[0] + "-" + JoinWords(ws[1..])
  }

  /**
   * Every maximal run of characters other than letters and digits replaced
   * by one hyphen, none at the start when `afterSep`: what replacing and
   * collapsing do together.
   */
  function Separate(s: string, afterSep: bool): (r: string)
    ensures afterSep && r != [] ==> r[0] != '-'
  {
    if s == [] then []
    else if Alnum(s[0]) then [s[0]] + Separate(s[1..], false)
    else if afterSep then Separate(s[1..], true)
    else ['-'] + Separate(s[1..], true)
  }

  lemma {:induction false} ReplaceThenCollapse(s: string, inRun: bool, afterHyphen: bool)
    requires inRun ==> afterHyphen
    ensures CollapseHyphens(ReplaceRuns(s, inRun), afterHyphen) == Separate(s, afterHyphen)
  {
    if s != [] {
      var rest := s[1..];
      if Alnum(s[0]) {
        ReplaceThenCollapse(rest, false, false);
        assert ([s[0]] + ReplaceRuns(rest, false))[1..] == ReplaceRuns(rest, false);
      } else if s[0] == '-' {
        ReplaceThenCollapse(rest, false, true);
        assert (['-'] + ReplaceRuns(rest, false))[1..] == ReplaceRuns(rest, false);
      } else if inRun {
        ReplaceThenCollapse(rest, true, true);
      } else {
        ReplaceThenCollapse(rest, true, true);
        assert (['-'] + ReplaceRuns(rest, true))[1..] == ReplaceRuns(rest, true);
      }
    }
  }

  lemma TrimLeadingSeparate(s: string)
    ensures TrimLeading(Separate(s, false)) == Separate(s, true)
  {
    if s != [] && !Alnum(s[0]) {
      assert (['-'] + Separate(s[1..], true))[1..] == Separate(s[1..], true);
    }
  }

  /** Separating a string whose first `n` characters are letters or digits emits them first. */
  lemma {:induction false} SeparateAlnumPrefix(s: string, afterSep: bool, n: int)
    requires 0 < n <= |s| && forall i :: 0 <= i < n ==> Alnum(s[i])
    ensures Separate(s, afterSep) == s[..n] + Separate(s[n..], false)
    decreases n
  {
    var rest := s[1..];
    assert Separate(s, afterSep) == [s[0]] + Separate(rest, false);
    if n == 1 {
      assert s[..1] == [s[0]] && s[1..] == rest;
    } else {
      assert forall i :: 0 <= i < n - 1 ==> rest[i] == s[i + 1];
      SeparateAlnumPrefix(rest, false, n - 1);
      assert [s[0]] + rest[..n - 1] == s[..n];
      assert rest[n - 1..] == s[n..];
    }
  }

  /** Separating a string that starts with a word emits that word first. */
  lemma SeparateWord(s: string, afterSep: bool)
    requires s != [] && Alnum(s[0])
    ensures Separate(s, afterSep) == LeadingWord(s) + Separate(s[|LeadingWord(s)|..], false)
  {
    var w := LeadingWord(s);
    SeparateAlnumPrefix(s, afterSep, |w|);
  }

  /** Hyphens at the end are all trimmed. */
  lemma {:induction false} TrimTrailingHyphens(a: string, h: string)
    requires forall i :: 0 <= i < |h| ==> h[i] == '-'
    ensures TrimTrailing(a + h) == TrimTrailing(a)
    decreases |h|
  {
    if h != [] {
      assert (a + h)[..|a + h| - 1] == a + h[..|h| - 1];
      TrimTrailingHyphens(a, h[..|h| - 1]);
    } else {
      assert a + h == a;
    }
  }

  /** Once `x` keeps something, trimming `a + x` only trims inside `x`. */
  lemma TrimTrailingAfter(a: string, x: string)
    requires TrimTrailing(x) != []
    ensures TrimTrailing(a + x) == a + TrimTrailing(x)
  {
    var r := TrimTrailing(x);
    TrimTrailingShape(x);
    var h := x[|r|..];
    assert x == r + h;
    assert a + x == (a + r) + h;
    TrimTrailingHyphens(a + r, h);
  }

  lemma {:induction false} TrimTrailingSeparate(s: string)
    ensures TrimTrailing(Separate(s, true)) == JoinWords(Words(s))
    decreases |s|
  {
    if s == [] {
    } else if !Alnum(s[0]) {
      TrimTrailingSeparate(s[1..]);
    } else {
      var w := LeadingWord(s);
      var u := s[|w|..];
      SeparateWord(s, true);
      if u == [] {
        assert Separate(s, true) == w + [];
        assert w + [] == w;
        assert Words(s) == [w];
      } else {
        var x := Separate(u[1..], true);
        TrimTrailingSeparate(u[1..]);
        assert Separate(s, true) == w + "-" + x;
        assert Words(s) == [w] + Words(u[1..]);
        if Words(u[1..]) == [] {
          TrimTrailingShape(x);
          TrimTrailingHyphens(w, "-" + x);
          assert w + "-" + x == w + ("-" + x);
          assert TrimTrailing(w) == w;
        } else {
          TrimTrailingAfter(w + "-", x);
          assert ([w] + Words(u[1..]))[1..] == Words(u[1..]);
        }
      }
    }
  }

  /** The slug of a category is its words, lower-cased, joined by single hyphens. */
  lemma SlugifyJoinsWords(category: string)
    ensures Slugify(category) == JoinWords(Words(Lower(category)))
  {
    var lowered := Lower(category);
    ReplaceThenCollapse(lowered, false, false);
    TrimLeadingSeparate(lowered);
    TrimTrailingSeparate(lowered);
  }
}
