/** The Python string primitives that the listing code relies on:
    `str.isspace`, `str.strip()`, `str.split()` with and without a
    separator, `sep.join(...)` and `str.replace`. */
module Text {
  import opened Seqs

  /** `c.isspace()`, which is also the `\s` class of Python's `re` on
      `str` patterns: the ASCII controls TAB..CR and FS..US, the space and
      the Unicode separators. */
  predicate IsSpace(c: char)
  {
    || ('\U{9}' <= c <= '\U{D}')
    || ('\U{1C}' <= c <= '\U{20}')
    || c == '\U{85}' || c == '\U{A0}' || c == '\U{1680}'
    || ('\U{2000}' <= c <= '\U{200A}')
    || c == '\U{2028}' || c == '\U{2029}' || c == '\U{202F}' || c == '\U{205F}'
    || c == '\U{3000}'
  }

  predicate NoSpace(s: string)
  {
    forall i :: 0 <= i < |s| ==> !IsSpace(s[i])
  }

  /** Drops leading whitespace. */
  function TrimLeft(s: string): (r: string)
    ensures |r| <= |s| && r == s[|s| - |r|..]
    ensures r == [] || !IsSpace(r[0])
  {
    if s != [] && IsSpace(s[0]) then TrimLeft(s[1..]) else s
  }

  /** Drops trailing whitespace. */
  function TrimRight(s: string): (r: string)
    ensures |r| <= |s| && r == s[..|r|]
    ensures r == [] || !IsSpace(r[|r| - 1])
  {
    if s != [] && IsSpace(s[|s| - 1]) then TrimRight(s[..|s| - 1]) else s
  }

  /** `s.strip()`. */
  function Strip(s: string): string
  {
    TrimRight(TrimLeft(s))
  }

  /** Trimming on the right keeps a string that starts with a
      non-whitespace character non-empty. */
  lemma {:induction false} TrimRightNonEmpty(s: string)
    requires s != [] && !IsSpace(s[0])
    ensures TrimRight(s) != []
    decreases |s|
  {
    if IsSpace(s[|s| - 1]) {
      TrimRightNonEmpty(s[..|s| - 1]);
    }
  }

  /** Trimming on the left leaves nothing exactly when the string is all
      whitespace. */
  lemma {:induction false} TrimLeftEmpty(s: string)
    ensures TrimLeft(s) == [] <==> forall i :: 0 <= i < |s| ==> IsSpace(s[i])
    decreases |s|
  {
    if s != [] && IsSpace(s[0]) {
      TrimLeftEmpty(s[1..]);
      assert forall i :: 1 <= i < |s| ==> s[i] == s[1..][i - 1];
    }
  }

  /** `not s.strip()` holds exactly when `s` is all whitespace. */
  lemma StripEmptyIffBlank(s: string)
    ensures Strip(s) == "" <==> forall i :: 0 <= i < |s| ==> IsSpace(s[i])
  {
    TrimLeftEmpty(s);
    var t := TrimLeft(s);
    if t != [] {
      TrimRightNonEmpty(t);
    }
  }

  /** The longest prefix of `s` without whitespace. */
  function Word(s: string): (w: string)
    ensures |w| <= |s| && w == s[..|w|] && NoSpace(w)
    ensures |w| < |s| ==> IsSpace(s[|w|])
    ensures s != [] && !IsSpace(s[0]) ==> w != []
  {
    if s != [] && !IsSpace(s[0]) then [s[0]] + Word(s[1..]) else []
  }

  /** `s.split()`: the maximal runs of non-whitespace, in order. */
  function SplitWords(s: string): (ws: seq<string>)
    decreases |s|
  {
    var t := TrimLeft(s);
    if t == [] then [] else
      var w := Word(t);
      [w] + SplitWords(t[|w|..])
  }

  /** `sep.join(ws)`. */
  function Join(ws: seq<string>, sep: string): string
  {
    if ws == [] then ""
    else if |ws| == 1 then ws[0]
    else ws[0] + sep + Join(ws[1..], sep)
  }

  /** `' '.join(s.split())`: runs of whitespace collapse to one space and
      the ends are trimmed. */
  function Collapse(s: string): string
  {
    Join(SplitWords(s), " ")
  }

  /** Words as `split()` produces them: non-empty, without whitespace. */
  predicate ProperWords(ws: seq<string>)
  {
    forall k :: 0 <= k < |ws| ==> ws[k] != [] && NoSpace(ws[k])
  }

  /** The shape `' '.join(s.split())` guarantees: no whitespace at either
      end, the only whitespace character is the plain space, and no two
      whitespace characters are adjacent. */
  predicate Collapsed(r: string)
  {
    && (r != [] ==> !IsSpace(r[0]) && !IsSpace(r[|r| - 1]))
    && (forall i :: 0 <= i < |r| && IsSpace(r[i]) ==> r[i] == ' ')
    && (forall i :: 0 <= i < |r| - 1 ==> !IsSpace(r[i]) || !IsSpace(r[i + 1]))
  }

  /** Every character of `w` occurs in `s`. */
  predicate CharsWithin(w: string, s: string)
  {
    forall c :: c in w ==> c in s
  }

  lemma SuffixWithin(s: string, i: nat)
    requires i <= |s|
    ensures CharsWithin(s[i..], s)
  {
    forall c | c in s[i..] ensures c in s {
      var k :| 0 <= k < |s| - i && s[i..][k] == c;
      assert s[i + k] == c;
    }
  }

  lemma PrefixWithin(s: string, i: nat)
    requires i <= |s|
    ensures CharsWithin(s[..i], s)
  {
    forall c | c in s[..i] ensures c in s {
      var k :| 0 <= k < i && s[..i][k] == c;
      assert s[k] == c;
    }
  }

  lemma SliceWithin(s: string, i: nat, j: nat)
    requires i <= j <= |s|
    ensures CharsWithin(s[i..j], s)
  {
    forall c | c in s[i..j] ensures c in s {
      var k :| 0 <= k < j - i && s[i..j][k] == c;
      assert s[i + k] == c;
    }
  }

  lemma AppendWithin(a: string, b: string, s: string)
    requires CharsWithin(a, s) && CharsWithin(b, s)
    ensures CharsWithin(a + b, s)
  {
  }

  lemma WithinTrans(a: string, b: string, c: string)
    requires CharsWithin(a, b) && CharsWithin(b, c)
    ensures CharsWithin(a, c)
  {
  }

  lemma {:induction false} SplitWordsProper(s: string)
    ensures ProperWords(SplitWords(s))
    decreases |s|
  {
    var t := TrimLeft(s);
    if t != [] {
      var w := Word(t);
      var rest := t[|w|..];
      SplitWordsProper(rest);
      var ws := SplitWords(rest);
      assert SplitWords(s) == [w] + ws;
      forall k | 0 <= k < |ws| + 1 ensures ([w] + ws)[k] != [] && NoSpace(([w] + ws)[k]) {
        if k > 0 {
          assert ([w] + ws)[k] == ws[k - 1];
        }
      }
    }
  }

  /** Every word of `s.split()` is made of characters of `s`. */
  lemma {:induction false} SplitWordsWithin(s: string)
    ensures forall k :: 0 <= k < |SplitWords(s)| ==> CharsWithin(SplitWords(s)[k], s)
    decreases |s|
  {
    var t := TrimLeft(s);
    if t != [] {
      var w := Word(t);
      var rest := t[|w|..];
      SplitWordsWithin(rest);
      var ws := SplitWords(rest);
      SuffixWithin(s, |s| - |t|);
      SuffixWithin(t, |w|);
      PrefixWithin(t, |w|);
      WithinTrans(w, t, s);
      WithinTrans(rest, t, s);
      forall k | 0 <= k < |ws| ensures CharsWithin(ws[k], s) {
        WithinTrans(ws[k], rest, s);
      }
      var r := SplitWords(s);
      assert r == [w] + ws;
      forall k | 0 <= k < |r| ensures CharsWithin(r[k], s) {
        if k > 0 { assert r[k] == ws[k - 1]; }
      }
    }
  }

  /** Every character of a join is a character of a word or of `sep`. */
  lemma {:induction false} JoinChars(ws: seq<string>, sep: string, c: char)
    requires c in Join(ws, sep)
    ensures c in sep || exists k :: 0 <= k < |ws| && c in ws[k]
  {
    if |ws| > 1 {
      var J := Join(ws[1..], sep);
      assert Join(ws, sep) == ws[0] + sep + J;
      if c !in ws[0] && c !in sep {
        JoinChars(ws[1..], sep, c);
        var k :| 0 <= k < |ws[1..]| && c in ws[1..][k];
        assert c in ws[k + 1];
      }
    }
  }

  /** Joining proper words with one space gives a collapsed string. */
  lemma {:induction false} JoinCollapsed(ws: seq<string>)
    requires ProperWords(ws)
    ensures Collapsed(Join(ws, " "))
    ensures ws != [] ==> Join(ws, " ") != []
  {
    if |ws| > 1 {
      ProperWordsTail(ws);
      JoinCollapsed(ws[1..]);
      var w, J := ws[0], Join(ws[1..], " ");
      var r := Join(ws, " ");
      assert r == w + " " + J;
      assert forall i :: 0 <= i < |w| ==> r[i] == w[i];
      assert r[|w|] == ' ';
      assert forall i :: |w| < i < |r| ==> r[i] == J[i - |w| - 1];
      forall i | 0 <= i < |r| - 1 ensures !IsSpace(r[i]) || !IsSpace(r[i + 1]) {
        if i == |w| - 1 {
          assert !IsSpace(w[i]);
        } else if i == |w| {
          assert r[i + 1] == J[0];
        }
      }
    } else if |ws| == 1 {
      assert Join(ws, " ") == ws[0];
    }
  }

  /** The longest space-free prefix of a word followed by a space (or by
      nothing) is that word. */
  lemma {:induction false} WordOfPrefix(w: string, t: string)
    requires NoSpace(w)
    requires t == [] || IsSpace(t[0])
    ensures Word(w + t) == w
  {
    if w != [] {
      assert (w + t)[1..] == w[1..] + t;
      WordOfPrefix(w[1..], t);
    } else {
      assert w + t == t;
    }
  }

  lemma ProperWordsTail(ws: seq<string>)
    requires ProperWords(ws) && ws != []
    ensures ProperWords(ws[1..])
  {
    forall k | 0 <= k < |ws| - 1 ensures ws[1..][k] != [] && NoSpace(ws[1..][k]) {
      assert ws[1..][k] == ws[k + 1];
    }
  }

  /** A word followed by whitespace (or by nothing) is the first piece of
      `split()`. */
  lemma SplitWordsCons(w: string, tail: string)
    requires w != [] && NoSpace(w)
    requires tail == [] || IsSpace(tail[0])
    ensures SplitWords(w + tail) == [w] + SplitWords(tail)
  {
    WordOfPrefix(w, tail);
    assert TrimLeft(w + tail) == w + tail;
    assert (w + tail)[|w|..] == tail;
  }

  lemma SplitWordsSpace(x: string)
    requires x != [] && IsSpace(x[0])
    ensures SplitWords(x) == SplitWords(x[1..])
  {
    assert TrimLeft(x) == TrimLeft(x[1..]);
  }

  /** `split()` undoes `' '.join(...)` of proper words. */
  lemma {:induction false} SplitJoin(ws: seq<string>)
    requires ProperWords(ws)
    ensures SplitWords(Join(ws, " ")) == ws
  {
    if |ws| == 1 {
      SplitWordsCons(ws[0], "");
      AppendNil(ws[0]);
    } else if |ws| > 1 {
      var rest := ws[1..];
      var J := Join(rest, " ");
      assert Join(ws, " ") == ws[0] + (" " + J);
      SplitWordsCons(ws[0], " " + J);
      SplitWordsSpace(" " + J);
      ConsTail(' ', J);
      ProperWordsTail(ws);
      SplitJoin(rest);
      HeadTail(ws);
    }
  }

  /** Collapsing whitespace twice is collapsing it once. */
  lemma CollapseIdempotent(s: string)
    ensures Collapse(Collapse(s)) == Collapse(s)
  {
    SplitWordsProper(s);
    SplitJoin(SplitWords(s));
  }

  /** `' '.join(s.split())` has the collapsed shape. */
  lemma CollapseCollapsed(s: string)
    ensures Collapsed(Collapse(s))
  {
    SplitWordsProper(s);
    JoinCollapsed(SplitWords(s));
  }

  /** A character of `' '.join(s.split())` is the plain space or a
      non-whitespace character of `s`. */
  lemma CollapseChar(s: string, c: char)
    requires c in Collapse(s)
    ensures c == ' ' || (c in s && !IsSpace(c))
  {
    var ws := SplitWords(s);
    JoinChars(ws, " ", c);
    if c != ' ' {
      SplitWordsProper(s);
      SplitWordsWithin(s);
      var k :| 0 <= k < |ws| && c in ws[k];
      assert CharsWithin(ws[k], s);
      var j :| 0 <= j < |ws[k]| && ws[k][j] == c;
    }
  }

  /** What `' '.join(s.split())` promises: a collapsed string whose
      characters are the plain space or non-whitespace characters of `s`. */
  lemma CollapseShape(s: string)
    ensures Collapsed(Collapse(s))
    ensures forall i :: 0 <= i < |Collapse(s)| ==> Collapse(s)[i] == ' ' || (Collapse(s)[i] in s && !IsSpace(Collapse(s)[i]))
  {
    CollapseCollapsed(s);
    forall i | 0 <= i < |Collapse(s)| ensures Collapse(s)[i] == ' ' || (Collapse(s)[i] in s && !IsSpace(Collapse(s)[i])) {
      CollapseChar(s, Collapse(s)[i]);
    }
  }

  /** `s.split(c)`: the pieces between occurrences of `c`. */
  function SplitOn(s: string, c: char): (ps: seq<string>)
    ensures |ps| >= 1
  {
    if s == [] then [""]
    else
      var rest := SplitOn(s[1..], c);
      if s[0] == c then [""] + rest else [[s[0]] + rest[0]] + rest[1..]
  }

  function Count(s: string, c: char): nat
  {
    if s == [] then 0 else (if s[0] == c then 1 else 0) + Count(s[1..], c)
  }

  /** `s.split(c)` has one more piece than `s` has occurrences of `c`, no
      piece contains `c`, and joining the pieces with `c` gives `s` back. */
  lemma {:induction false} SplitOnJoin(s: string, c: char)
    ensures |SplitOn(s, c)| == Count(s, c) + 1
    ensures forall k :: 0 <= k < |SplitOn(s, c)| ==> c !in SplitOn(s, c)[k]
    ensures Join(SplitOn(s, c), [c]) == s
  {
    if s != [] {
      var rest := SplitOn(s[1..], c);
      SplitOnJoin(s[1..], c);
      if s[0] == c {
        assert SplitOn(s, c) == [""] + rest;
        assert SplitOn(s, c)[1..] == rest;
      } else {
        var ps := SplitOn(s, c);
        assert ps == [[s[0]] + rest[0]] + rest[1..];
        assert ps[1..] == rest[1..];
        if |rest| == 1 {
          assert Join(ps, [c]) == [s[0]] + rest[0];
          assert s == [s[0]] + s[1..];
        } else {
          assert Join(rest, [c]) == rest[0] + [c] + Join(rest[1..], [c]);
          assert s == [s[0]] + s[1..];
        }
      }
    }
  }

  /** `s.replace(a, b)` for a single character `a`. */
  function Replace(s: string, a: char, b: string): (r: string)
    ensures a !in b ==> a !in r
    ensures a !in s ==> r == s
  {
    if s == [] then []
    else (if s[0] == a then b else [s[0]]) + Replace(s[1..], a, b)
  }
}
