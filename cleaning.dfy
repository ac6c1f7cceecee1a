/** The text clean-up of `format_event_message`: the regular-expression
    passes over the title and the description, each written as the
    left-to-right scan that `re.sub` performs. `\s` is `Text.IsSpace`;
    `\w` is `_` or a character the given `alnum` (Python's
    `str.isalnum`) accepts. */
module Cleaning {
  import opened Text

  /** What the model needs of `str.isalnum`: on ASCII it accepts exactly the
      letters and digits, and it never accepts whitespace. */
  predicate AlnumSound(alnum: char -> bool)
  {
    forall c :: alnum(c) ==> !IsSpace(c) && (c < '\U{80}' ==> 'a' <= c <= 'z' || 'A' <= c <= 'Z' || '0' <= c <= '9')
  }

  /** `\w`. */
  predicate IsWord(alnum: char -> bool, c: char)
  {
    c == '_' || alnum(c)
  }

  /** The first index at or after `i` holding `c`, or `|s|`. */
  function FindFrom(s: string, i: nat, c: char): (r: nat)
    requires i <= |s|
    ensures i <= r <= |s|
    ensures forall m :: i <= m < r ==> s[m] != c
    ensures r < |s| ==> s[r] == c
    decreases |s| - i
  {
    if i == |s| || s[i] == c then i else FindFrom(s, i + 1, c)
  }

  // ---------------------------------------------------------------------
  // `re.sub(r'\[([^\]]+)\]\([^)]+\)', r'\1', s)`

  /** A match of `\[([^\]]+)\]\([^)]+\)` at the start of `s`: the index
      `j` of the closing `]` and `k` of the closing `)`. `[^\]]+` runs to
      the first `]` (and may contain `[`), `[^)]+` to the first `)`; both
      must be non-empty. */
  function LinkMatch(s: string): (m: LinkSpan)
    ensures m.Link? ==> 1 < m.j && m.j + 2 < m.k < |s| && s[0] == '[' && s[m.j] == ']' && s[m.j + 1] == '(' && s[m.k] == ')'
  {
    if s == [] || s[0] != '[' then NoLink
    else
      var j := FindFrom(s, 1, ']');
      if j <= 1 || j + 1 >= |s| || s[j + 1] != '(' then NoLink
      else
        var k := FindFrom(s, j + 2, ')');
        if k <= j + 2 || k >= |s| then NoLink else Link(j, k)
  }

  /** `s` starts with a Markdown link whose label closes at `j`, the first
      `]`, and whose target closes at `k`, the first `)` after the `(` at
      `j + 1`; label and target are non-empty. */
  predicate LinkAt(s: string, j: int, k: int)
  {
    && 1 < j && j + 2 < k < |s|
    && s[0] == '[' && s[j] == ']' && s[j + 1] == '(' && s[k] == ')'
    && ']' !in s[1..j] && ')' !in s[j + 2..k]
  }

  /** The first `c` at or after `i` is what `FindFrom` finds. */
  lemma FindFromFirst(s: string, i: nat, c: char, j: int)
    requires i <= j < |s| && s[j] == c
    requires forall m :: i <= m < j ==> s[m] != c
    ensures FindFrom(s, i, c) == j
  {
  }

  /** What `LinkMatch` finds is a link: its label closes at the first `]`
      and its target at the first `)`. */
  lemma LinkMatchSound(s: string)
    requires LinkMatch(s).Link?
    ensures LinkAt(s, LinkMatch(s).j, LinkMatch(s).k)
  {
    var m := LinkMatch(s);
    assert m.j == FindFrom(s, 1, ']') && m.k == FindFrom(s, m.j + 2, ')');
    NotInPrefix(s, 1, m.j, ']');
    NotInPrefix(s, m.j + 2, m.k, ')');
  }

  /** A run of indices without `c` is a slice without `c`. */
  lemma NotInPrefix(s: string, i: int, j: int, c: char)
    requires 0 <= i <= j <= |s|
    requires forall m :: i <= m < j ==> s[m] != c
    ensures c !in s[i..j]
  {
  }

  /** Whenever a link starts `s`, `LinkMatch` finds it: the pattern
      matches here exactly when `LinkMatch` says so. */
  lemma LinkMatchComplete(s: string, j: int, k: int)
    requires LinkAt(s, j, k)
    ensures LinkMatch(s) == Link(j, k)
  {
    FindFromFirst(s, 1, ']', j);
    FindFromFirst(s, j + 2, ')', k);
  }

  datatype LinkSpan = NoLink | Link(j: nat, k: nat)

  function Unlink(s: string): string
  {
    if s == [] then []
    else
      var m := LinkMatch(s);
      if m.Link? then s[1..m.j] + Unlink(s[m.k + 1..]) else [s[0]] + Unlink(s[1..])
  }

  // ---------------------------------------------------------------------
  // `re.sub(r'https?://\S+', '', s)`

  /** The length of a match of `https?://\S+` at the start of `s`, or 0. */
  function UrlMatch(s: string): (n: nat)
    ensures n <= |s|
    ensures n > 0 ==> n >= 8 && (s[..8] == "https://" || s[..7] == "http://")
    ensures n == 0 <==> !UrlStart(s, "https://") && !UrlStart(s, "http://")
    ensures n > 0 ==> (n == |s| || IsSpace(s[n])) && forall m :: 7 <= m < n ==> !IsSpace(s[m])
  {
    var p := if |s| >= 8 && s[..8] == "https://" then 8
             else if |s| >= 7 && s[..7] == "http://" then 7
             else 0;
    assert p == 8 ==> s[..7] != "http://" by {
      if p == 8 { assert s[..8][4] == 's' && s[..7][4] == s[4]; }
    }
    if p == 0 || p == |s| || IsSpace(s[p]) then 0
    else
      var w := Word(s[p..]);
      assert forall m :: p <= m < p + |w| ==> s[m] == w[m - p];
      p + |w|
  }

  /** `s` starts with the scheme `p` followed by a non-whitespace
      character, which is where `\S+` needs at least one. */
  predicate UrlStart(s: string, p: string)
  {
    |p| < |s| && s[..|p|] == p && !IsSpace(s[|p|])
  }

  function Unurl(s: string): string
  {
    if s == [] then []
    else if UrlMatch(s) > 0 then Unurl(s[UrlMatch(s)..])
    else [s[0]] + Unurl(s[1..])
  }

  // ---------------------------------------------------------------------
  // `re.sub(r'[*_~`]', '', s)`

  predicate IsMarkup(c: char)
  {
    c == '*' || c == '_' || c == '~' || c == '`'
  }

  function Unmark(s: string): string
  {
    if s == [] then [] else (if IsMarkup(s[0]) then [] else [s[0]]) + Unmark(s[1..])
  }

  // ---------------------------------------------------------------------
  // `re.sub(r'\[.*?\]', '', s)` and `re.sub(r'\(.*?\)', '', s)`

  /** The length of a match of `<open>.*?<close>` at the start of `s`, or
      0: the lazy `.*?` stops at the first `close` and cannot cross a
      newline. */
  function SpanMatch(s: string, open: char, close: char): (n: nat)
    requires open != '\n' && close != '\n'
    ensures n <= |s|
    ensures n > 0 ==> n >= 2 && s[0] == open && s[n - 1] == close
    ensures n > 0 ==> SpanAt(s, open, close, n)
  {
    if s == [] || s[0] != open then 0
    else
      var j := SpanEnd(s, 1, close);
      if j < |s| && s[j] == close then j + 1 else 0
  }

  /** `s[..n]` is `open`, then characters other than `close` and newline,
      then `close`: the shortest match of the lazy pattern. */
  predicate SpanAt(s: string, open: char, close: char, n: int)
  {
    && 2 <= n <= |s| && s[0] == open && s[n - 1] == close
    && close !in s[1..n - 1] && '\n' !in s[1..n - 1]
  }

  /** Whenever a span starts `s`, `SpanMatch` finds exactly that one. */
  lemma SpanMatchComplete(s: string, open: char, close: char, n: int)
    requires open != '\n' && close != '\n'
    requires SpanAt(s, open, close, n)
    ensures SpanMatch(s, open, close) == n
  {
    var j := SpanEnd(s, 1, close);
    assert j == n - 1;
  }

  /** The first index at or after `i` holding `close` or a newline. */
  function SpanEnd(s: string, i: nat, close: char): (r: nat)
    requires i <= |s|
    ensures i <= r <= |s|
    ensures forall m :: i <= m < r ==> s[m] != close && s[m] != '\n'
    ensures r < |s| ==> s[r] == close || s[r] == '\n'
    decreases |s| - i
  {
    if i == |s| || s[i] == close || s[i] == '\n' then i else SpanEnd(s, i + 1, close)
  }

  function DropSpans(s: string, open: char, close: char): string
    requires open != '\n' && close != '\n'
  {
    if s == [] then []
    else if SpanMatch(s, open, close) > 0 then DropSpans(s[SpanMatch(s, open, close)..], open, close)
    else [s[0]] + DropSpans(s[1..], open, close)
  }

  // ---------------------------------------------------------------------
  // `re.sub(r'[^\w\s\-.,!?]', '', s)`

  predicate Kept(alnum: char -> bool, c: char)
  {
    IsWord(alnum, c) || IsSpace(c) || c == '-' || c == '.' || c == ',' || c == '!' || c == '?'
  }

  function KeepSafe(alnum: char -> bool, s: string): string
  {
    if s == [] then [] else (if Kept(alnum, s[0]) then [s[0]] else []) + KeepSafe(alnum, s[1..])
  }

  // ---------------------------------------------------------------------
  // The two pipelines.

  /** The title pipeline of `format_event_message`, in the source's
      order. */
  function CleanTitle(alnum: char -> bool, t: string): string
  {
    Collapse(Prepared(alnum, t))
  }

  /** The six passes before the final whitespace pass. */
  function Prepared(alnum: char -> bool, t: string): string
  {
    var a := Unlink(t);
    var b := Unurl(a);
    var c := Unmark(b);
    var d := DropSpans(c, '[', ']');
    var e := DropSpans(d, '(', ')');
    KeepSafe(alnum, e)
  }

  /** The description pipeline: mark-up, then URLs, then whitespace, then
      truncation to 200 characters with a three-dot marker. */
  function CleanDescription(d: string): string
  {
    Truncate(Collapse(Unurl(Unmark(d))))
  }

  function Truncate(n: string): string
  {
    if |n| > 200 then n[..197] + "..." else n
  }
  // ---------------------------------------------------------------------
  // What each pass keeps.

  lemma {:induction false} UnlinkChar(s: string, c: char)
    requires c in Unlink(s)
    ensures c in s
    decreases |s|
  {
    var m := LinkMatch(s);
    if m.Link? {
      var rest := s[m.k + 1..];
      if c in s[1..m.j] {
        var i :| 0 <= i < m.j - 1 && s[1..m.j][i] == c;
        assert s[i + 1] == c;
      } else {
        UnlinkChar(rest, c);
        var i :| 0 <= i < |rest| && rest[i] == c;
        assert s[m.k + 1 + i] == c;
      }
    } else {
      var rest := s[1..];
      if c != s[0] {
        UnlinkChar(rest, c);
        var i :| 0 <= i < |rest| && rest[i] == c;
        assert s[1 + i] == c;
      }
    }
  }

  lemma UnlinkWithin(s: string)
    ensures CharsWithin(Unlink(s), s)
  {
    forall c | c in Unlink(s) ensures c in s {
      UnlinkChar(s, c);
    }
  }

  lemma {:induction false} UnurlWithin(s: string)
    ensures CharsWithin(Unurl(s), s)
    decreases |s|
  {
    if s != [] {
      var n := UrlMatch(s);
      var rest := if n > 0 then s[n..] else s[1..];
      UnurlWithin(rest);
      SliceWithin(s, |s| - |rest|, |s|);
      assert s[|s| - |rest|..|s|] == rest;
    }
  }

  lemma {:induction false} UnmarkKeeps(s: string)
    ensures forall c :: c in Unmark(s) ==> c in s && !IsMarkup(c)
  {
    if s != [] {
      UnmarkKeeps(s[1..]);
    }
  }

  lemma {:induction false} DropSpansWithin(s: string, open: char, close: char)
    requires open != '\n' && close != '\n'
    ensures CharsWithin(DropSpans(s, open, close), s)
    decreases |s|
  {
    if s != [] {
      var n := SpanMatch(s, open, close);
      var rest := if n > 0 then s[n..] else s[1..];
      DropSpansWithin(rest, open, close);
      SliceWithin(s, |s| - |rest|, |s|);
      assert s[|s| - |rest|..|s|] == rest;
    }
  }

  lemma {:induction false} KeepSafeKeeps(alnum: char -> bool, s: string)
    ensures forall c :: c in KeepSafe(alnum, s) ==> c in s && Kept(alnum, c)
  {
    if s != [] {
      KeepSafeKeeps(alnum, s[1..]);
    }
  }

  // ---------------------------------------------------------------------
  // When a pass has nothing to do.

  lemma {:induction false} UnlinkNoBracket(s: string)
    requires '[' !in s
    ensures Unlink(s) == s
  {
    if s != [] {
      assert s[0] != '[';
      UnlinkNoBracket(s[1..]);
    }
  }

  lemma {:induction false} UnurlNoColon(s: string)
    requires ':' !in s
    ensures Unurl(s) == s
  {
    if s != [] {
      assert |s| >= 8 ==> s[..8][5] == s[5];
      assert |s| >= 7 ==> s[..7][4] == s[4];
      assert UrlMatch(s) == 0;
      UnurlNoColon(s[1..]);
    }
  }

  lemma {:induction false} UnmarkClean(s: string)
    requires forall c :: c in s ==> !IsMarkup(c)
    ensures Unmark(s) == s
  {
    if s != [] {
      UnmarkClean(s[1..]);
    }
  }

  lemma {:induction false} DropSpansNoOpen(s: string, open: char, close: char)
    requires open != '\n' && close != '\n'
    requires open !in s
    ensures DropSpans(s, open, close) == s
  {
    if s != [] {
      assert s[0] != open;
      DropSpansNoOpen(s[1..], open, close);
    }
  }

  lemma {:induction false} KeepSafeClean(alnum: char -> bool, s: string)
    requires forall c :: c in s ==> Kept(alnum, c)
    ensures KeepSafe(alnum, s) == s
  {
    if s != [] {
      KeepSafeClean(alnum, s[1..]);
    }
  }

  // ---------------------------------------------------------------------
  // The properties of the title pipeline.

  /** Characters a cleaned title may hold: letters and digits, the plain
      space and `-.,!?`. */
  predicate TitleChar(alnum: char -> bool, c: char)
  {
    alnum(c) || c == ' ' || c == '-' || c == '.' || c == ',' || c == '!' || c == '?'
  }

  /** A cleaned title holds only title characters (so no `_`, none of
      ``[]()*~`:/`` and no whitespace other than the plain space), and its
      spaces are single and inside the text. */
  lemma CleanTitleShape(alnum: char -> bool, t: string)
    requires AlnumSound(alnum)
    ensures Collapsed(CleanTitle(alnum, t))
    ensures forall i :: 0 <= i < |CleanTitle(alnum, t)| ==> TitleChar(alnum, CleanTitle(alnum, t)[i])
    ensures forall i :: 0 <= i < |CleanTitle(alnum, t)| ==> CleanTitle(alnum, t)[i] !in "_[]()*~`:/"
  {
    var f := Prepared(alnum, t);
    CollapseCollapsed(f);
    var r := Collapse(f);
    forall i | 0 <= i < |r| ensures TitleChar(alnum, r[i]) && r[i] !in "_[]()*~`:/" {
      CollapseChar(f, r[i]);
      if r[i] != ' ' {
        PreparedChar(alnum, t, r[i]);
      }
      TitleCharPlain(alnum, r[i]);
    }
  }

  /** What reaches the final whitespace pass is kept by the safe-character
      filter and holds no mark-up. */
  lemma PreparedChar(alnum: char -> bool, t: string, x: char)
    requires x in Prepared(alnum, t)
    ensures Kept(alnum, x) && !IsMarkup(x)
  {
    var c := Unmark(Unurl(Unlink(t)));
    var d := DropSpans(c, '[', ']');
    var e := DropSpans(d, '(', ')');
    KeepSafeKeeps(alnum, e);
    DropSpansWithin(d, '(', ')');
    DropSpansWithin(c, '[', ']');
    UnmarkKeeps(Unurl(Unlink(t)));
  }

  /** The plain space, and a kept, non-mark-up, non-whitespace character,
      are title characters and none of ``_[]()*~`:/``. */
  lemma TitleCharPlain(alnum: char -> bool, x: char)
    requires AlnumSound(alnum)
    requires x == ' ' || (Kept(alnum, x) && !IsMarkup(x) && !IsSpace(x))
    ensures TitleChar(alnum, x) && x !in "_[]()*~`:/"
  {
    if alnum(x) {
      assert x < '\U{80}' ==> 'a' <= x <= 'z' || 'A' <= x <= 'Z' || '0' <= x <= '9';
    }
  }

  /** Cleaning a cleaned title changes nothing. */
  lemma CleanTitleIdempotent(alnum: char -> bool, t: string)
    requires AlnumSound(alnum)
    ensures CleanTitle(alnum, CleanTitle(alnum, t)) == CleanTitle(alnum, t)
  {
    var u := CleanTitle(alnum, t);
    CleanTitleShape(alnum, t);
    assert forall c :: c in u ==> TitleChar(alnum, c) && c !in "_[]()*~`:/";
    UnlinkNoBracket(u);
    UnurlNoColon(u);
    UnmarkClean(u);
    DropSpansNoOpen(u, '[', ']');
    DropSpansNoOpen(u, '(', ')');
    KeepSafeClean(alnum, u);
    CollapseIdempotent(Prepared(alnum, t));
  }

  // ---------------------------------------------------------------------
  // The properties of the description pipeline.

  /** The cleaned description is at most 200 characters; when the
      whitespace-normalised text fits it is kept whole, otherwise its first
      197 characters are followed by `...`. It holds no mark-up
      characters and starts with no whitespace. */
  lemma CleanDescriptionShape(d: string)
    ensures |CleanDescription(d)| <= 200
    ensures var n := Collapse(Unurl(Unmark(d)));
      && (|n| <= 200 ==> CleanDescription(d) == n)
      && (|n| > 200 ==> CleanDescription(d) == n[..197] + "...")
    ensures forall c :: c in CleanDescription(d) ==> !IsMarkup(c)
    ensures CleanDescription(d) == [] || !IsSpace(CleanDescription(d)[0])
  {
    var n := Collapse(Unurl(Unmark(d)));
    CollapseCollapsed(Unurl(Unmark(d)));
    forall c | c in CleanDescription(d) ensures !IsMarkup(c) {
      DescriptionChar(d, c);
    }
    if |n| > 200 {
      assert CleanDescription(d)[0] == n[0];
    }
  }

  /** A character of the cleaned description is none of the mark-up
      characters. */
  lemma DescriptionChar(d: string, c: char)
    requires c in CleanDescription(d)
    ensures !IsMarkup(c)
  {
    var b := Unmark(d);
    var n := Collapse(Unurl(b));
    TruncateChar(n, c);
    if c in n {
      CollapseChar(Unurl(b), c);
      if c != ' ' {
        UnurlWithin(b);
        UnmarkKeeps(d);
      }
    }
  }

  lemma TruncateChar(n: string, c: char)
    requires c in Truncate(n)
    ensures c in n || c == '.'
  {
    if |n| > 200 && c !in n[..197] {
      assert c in "...";
    } else if |n| > 200 {
      var i :| 0 <= i < 197 && n[..197][i] == c;
      assert n[i] == c;
    }
  }
}
