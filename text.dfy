/** Python's string built-ins as the core uses them: `str.lower`, `str.isspace`
    (and the `\s` / `\w` classes of `re`), `in` on strings, `str.replace`,
    `str.strip`, `str.split()` with no argument and `' '.join`. */
module Text {

  /** Unicode whitespace as Python's `str.isspace`, `str.split()`, `str.strip()`
      and the `\s` class of `re` see it. */
  predicate IsSpace(c: char) {
    c == ' ' || ('\t' <= c <= '\r') || ('\U{1C}' <= c <= '\U{1F}')
    || c == '\U{85}' || c == '\U{A0}' || c == '\U{1680}'
    || ('\U{2000}' <= c <= '\U{200A}') || c == '\U{2028}' || c == '\U{2029}'
    || c == '\U{202F}' || c == '\U{205F}' || c == '\U{3000}'
  }

  /** The `\w` class of `re`, restricted to ASCII letters, digits and underscore. */
  predicate IsWordChar(c: char) {
    ('a' <= c <= 'z') || ('A' <= c <= 'Z') || ('0' <= c <= '9') || c == '_'
  }

  predicate IsUpper(c: char) {
    'A' <= c <= 'Z'
  }

  predicate AllSpace(s: string) {
    forall i | 0 <= i < |s| :: IsSpace(s[i])
  }

  predicate NoSpace(s: string) {
    forall i | 0 <= i < |s| :: !IsSpace(s[i])
  }

  predicate NoUpper(s: string) {
    forall c | c in s :: !IsUpper(c)
  }

  lemma NoUpperAt(s: string)
    requires forall i | 0 <= i < |s| :: !IsUpper(s[i])
    ensures NoUpper(s)
  {
  }

  function LowerChar(c: char): (r: char)
    ensures !IsUpper(r)
    ensures IsUpper(c) ==> r as int == c as int + 32
    ensures !IsUpper(c) ==> r == c
  {
    if IsUpper(c) then (c as int + 32) as char else c
  }

  /** `s.lower()`, for ASCII letters: every other character is kept. */
  function Lower(s: string): (r: string)
    ensures |r| == |s|
    ensures forall i | 0 <= i < |s| :: r[i] == LowerChar(s[i])
    ensures NoUpper(r)
  {
    seq(|s|, i requires 0 <= i < |s| => LowerChar(s[i]))
  }

  predicate StartsWith(s: string, p: string) {
    |p| <= |s| && s[..|p|] == p
  }

  /** `p in s`: p occurs in s as a contiguous substring. */
  predicate Contains(s: string, p: string) {
    exists i | 0 <= i <= |s| :: StartsWith(s[i..], p)
  }

  /** `s.replace(pat, rep)`: every occurrence of `pat`, found left to right
      without overlaps, is replaced by `rep`; an empty `pat` occurs before
      every character and at the end. */
  function Replace(s: string, pat: string, rep: string): string
    decreases |s|
  {
    if pat == [] then
      if s == [] then rep else rep + [s[0]] + Replace(s[1..], pat, rep)
    else if s == [] then []
    else if StartsWith(s, pat) then rep + Replace(s[|pat|..], pat, rep)
    else [s[0]] + Replace(s[1..], pat, rep)
  }

  /** `re.sub(r'[^\w\s]', ' ', s)`: every character that is neither a word
      character nor whitespace becomes a space. */
  function ReplaceNonWord(s: string): (r: string)
    ensures |r| == |s|
    ensures forall i | 0 <= i < |r| :: IsWordChar(r[i]) || IsSpace(r[i])
    ensures forall i | 0 <= i < |s| :: r[i] == s[i] <==> IsWordChar(s[i]) || IsSpace(s[i])
    ensures forall i | 0 <= i < |s| :: !(IsWordChar(s[i]) || IsSpace(s[i])) ==> r[i] == ' '
  {
    seq(|s|, i requires 0 <= i < |s| => if IsWordChar(s[i]) || IsSpace(s[i]) then s[i] else ' ')
  }

  /** `s.lstrip()` */
  function LStrip(s: string): string
    decreases |s|
  {
    if s != [] && IsSpace(s[0]) then LStrip(s[1..]) else s
  }

  /** `s.rstrip()` */
  function RStrip(s: string): string
    decreases |s|
  {
    if s != [] && IsSpace(s[|s| - 1]) then RStrip(s[..|s| - 1]) else s
  }

  /** `s.strip()` */
  function Strip(s: string): string {
    RStrip(LStrip(s))
  }

  /** Length of the longest prefix of s without whitespace. */
  function WordLength(s: string): (n: nat)
    ensures n <= |s|
    ensures NoSpace(s[..n])
    ensures n < |s| ==> IsSpace(s[n])
  {
    if s == [] || IsSpace(s[0]) then 0 else 1 + WordLength(s[1..])
  }

  /** `s.split()`: the maximal runs of non-whitespace characters, in order. */
  function Words(s: string): seq<string>
    decreases |s|
  {
    if s == [] then []
    else if IsSpace(s[0]) then Words(s[1..])
    else
      var n := WordLength(s);
      [s[..n]] + Words(s[n..])
  }

  /** `' '.join(ws)` */
  function Join(ws: seq<string>): string {
    if ws == [] then []
    else if |ws| == 1 then ws[0]
    else ws[0] + " " + Join(ws[1..])
  }

  /** `' '.join(s.split())` */
  function CollapseWhitespace(s: string): string {
    Join(Words(s))
  }

  /** Every pattern of a replacement table is non-empty. */
  predicate PatternsNonEmpty(table: seq<(string, string)>) {
    forall k | 0 <= k < |table| :: table[k].0 != []
  }

  /** `for old, new in table: s = s.replace(old, new)`: the replacements of the
      table applied one after the other, each to the result of the one before. */
  function ReplaceEach(s: string, table: seq<(string, string)>): string
    decreases |table|
  {
    if table == [] then s
    else ReplaceEach(Replace(s, table[0].0, table[0].1), table[1..])
  }

  /** The shape `' '.join(s.split())` produces: no whitespace except single
      spaces, none at either end. */
  predicate SingleSpaced(r: string) {
    (forall i | 0 <= i < |r| :: r[i] == ' ' || !IsSpace(r[i]))
    && (r != [] ==> r[0] != ' ' && r[|r| - 1] != ' ')
    && (forall i | 0 <= i < |r| - 1 :: r[i] == ' ' ==> r[i + 1] != ' ')
  }

  // ---------------------------------------------------------------------
  // Lemmas about replace

  /** Every character `replace` produces comes from the text or from the replacement. */
  lemma {:induction false} ReplaceChars(s: string, pat: string, rep: string)
    ensures forall c | c in Replace(s, pat, rep) :: c in s || c in rep
    decreases |s|
  {
    if s == [] {
    } else if pat == [] {
      ReplaceChars(s[1..], pat, rep);
      forall c | c in s[1..] ensures c in s {
        var k :| 0 <= k < |s[1..]| && s[1..][k] == c;
        assert s[1 + k] == c;
      }
    } else if StartsWith(s, pat) {
      ReplaceChars(s[|pat|..], pat, rep);
      forall c | c in s[|pat|..] ensures c in s {
        var k :| 0 <= k < |s[|pat|..]| && s[|pat|..][k] == c;
        assert s[|pat| + k] == c;
      }
    } else {
      ReplaceChars(s[1..], pat, rep);
      forall c | c in s[1..] ensures c in s {
        var k :| 0 <= k < |s[1..]| && s[1..][k] == c;
        assert s[1 + k] == c;
      }
    }
  }

  /** A text none of whose characters is the one-character pattern is left alone. */
  lemma {:induction false} ReplaceAbsent(s: string, m: char, rep: string)
    requires m !in s
    ensures Replace(s, [m], rep) == s
    decreases |s|
  {
    if s != [] {
      assert s[..1] == [s[0]];
      assert s[0] != m;
      ReplaceAbsent(s[1..], m, rep);
      assert [s[0]] + s[1..] == s;
    }
  }

  /** Leading whitespace is kept as it is when the pattern starts with a
      non-whitespace character. */
  lemma {:induction false} ReplaceSpacePrefix(w: string, s: string, pat: string, rep: string)
    requires pat != [] && !IsSpace(pat[0])
    requires AllSpace(w)
    ensures Replace(w + s, pat, rep) == w + Replace(s, pat, rep)
    decreases |w|
  {
    if w != [] {
      var t := w + s;
      calc {
        Replace(t, pat, rep);
        { assert t[0] == w[0]; ReplaceMiss(t, pat, rep); }
        [t[0]] + Replace(t[1..], pat, rep);
        { assert t[0] == w[0] && t[1..] == w[1..] + s; }
        [w[0]] + Replace(w[1..] + s, pat, rep);
        { ReplaceSpacePrefix(w[1..], s, pat, rep); }
        [w[0]] + (w[1..] + Replace(s, pat, rep));
        ([w[0]] + w[1..]) + Replace(s, pat, rep);
        { assert [w[0]] + w[1..] == w; }
        w + Replace(s, pat, rep);
      }
    } else {
      assert w + s == s;
    }
  }

  /** A text followed by whitespace: a pattern reaching past the text has a
      whitespace character at the text's length. */
  lemma SpaceAtJoin(s: string, w: string, pat: string)
    requires AllSpace(w) && StartsWith(s + w, pat) && |pat| > |s|
    ensures IsSpace(pat[|s|])
  {
    var t := s + w;
    assert t[|s|] == w[0];
    assert t[..|pat|][|s|] == t[|s|];
  }

  /** A pattern without whitespace starts a text followed by whitespace only
      when it starts the text itself. */
  lemma PrefixBeforeSpace(s: string, w: string, pat: string)
    requires NoSpace(pat) && AllSpace(w)
    ensures StartsWith(s + w, pat) <==> StartsWith(s, pat)
  {
    var t := s + w;
    if StartsWith(t, pat) {
      if |pat| > |s| {
        SpaceAtJoin(s, w, pat);
        assert false;
      }
      assert s[..|pat|] == t[..|pat|];
    }
    if StartsWith(s, pat) {
      assert t[..|pat|] == s[..|pat|];
    }
  }

  lemma ReplaceHit(s: string, pat: string, rep: string)
    requires pat != [] && StartsWith(s, pat)
    ensures Replace(s, pat, rep) == rep + Replace(s[|pat|..], pat, rep)
  {
  }

  lemma ReplaceMiss(s: string, pat: string, rep: string)
    requires pat != [] && s != [] && !StartsWith(s, pat)
    ensures Replace(s, pat, rep) == [s[0]] + Replace(s[1..], pat, rep)
  {
  }

  /** Trailing whitespace is kept as it is when the pattern holds no whitespace. */
  lemma {:induction false} ReplaceSpaceSuffix(s: string, w: string, pat: string, rep: string)
    requires pat != [] && NoSpace(pat)
    requires AllSpace(w)
    ensures Replace(s + w, pat, rep) == Replace(s, pat, rep) + w
    decreases |s|
  {
    var t := s + w;
    if s == [] {
      calc {
        Replace(t, pat, rep);
        { assert t == w + []; }
        Replace(w + [], pat, rep);
        { ReplaceSpacePrefix(w, [], pat, rep); }
        w + Replace([], pat, rep);
        Replace(s, pat, rep) + w;
      }
    } else if StartsWith(s, pat) {
      var n := |pat|;
      calc {
        Replace(t, pat, rep);
        { PrefixBeforeSpace(s, w, pat); ReplaceHit(t, pat, rep); }
        rep + Replace(t[n..], pat, rep);
        { assert t[n..] == s[n..] + w; }
        rep + Replace(s[n..] + w, pat, rep);
        { ReplaceSpaceSuffix(s[n..], w, pat, rep); }
        rep + (Replace(s[n..], pat, rep) + w);
        (rep + Replace(s[n..], pat, rep)) + w;
        { ReplaceHit(s, pat, rep); }
        Replace(s, pat, rep) + w;
      }
    } else {
      calc {
        Replace(t, pat, rep);
        { PrefixBeforeSpace(s, w, pat); ReplaceMiss(t, pat, rep); }
        [t[0]] + Replace(t[1..], pat, rep);
        { assert t[0] == s[0]; assert t[1..] == s[1..] + w; }
        [s[0]] + Replace(s[1..] + w, pat, rep);
        { ReplaceSpaceSuffix(s[1..], w, pat, rep); }
        [s[0]] + (Replace(s[1..], pat, rep) + w);
        ([s[0]] + Replace(s[1..], pat, rep)) + w;
        { ReplaceMiss(s, pat, rep); }
        Replace(s, pat, rep) + w;
      }
    }
  }

  // ---------------------------------------------------------------------
  // Lemmas about strip

  lemma {:induction false} LStripSplits(s: string)
    ensures |LStrip(s)| <= |s|
    ensures s == s[..|s| - |LStrip(s)|] + LStrip(s)
    ensures AllSpace(s[..|s| - |LStrip(s)|])
    ensures LStrip(s) != [] ==> !IsSpace(LStrip(s)[0])
    decreases |s|
  {
    if s != [] && IsSpace(s[0]) {
      LStripSplits(s[1..]);
      var k := |s| - |LStrip(s)|;
      assert s[..k] == [s[0]] + s[1..][..k - 1];
    }
  }

  lemma {:induction false} RStripSplits(s: string)
    ensures |RStrip(s)| <= |s|
    ensures s == RStrip(s) + s[|RStrip(s)|..]
    ensures AllSpace(s[|RStrip(s)|..])
    ensures RStrip(s) != [] ==> !IsSpace(RStrip(s)[|RStrip(s)| - 1])
    decreases |s|
  {
    if s != [] && IsSpace(s[|s| - 1]) {
      var p := s[..|s| - 1];
      RStripSplits(p);
      var k := |RStrip(s)|;
      assert s[k..] == p[k..] + [s[|s| - 1]];
    }
  }

  /** `strip()` removes whitespace only, from both ends. */
  lemma StripSplits(s: string) returns (pre: string, post: string)
    ensures s == pre + Strip(s) + post
    ensures AllSpace(pre) && AllSpace(post)
  {
    LStripSplits(s);
    var l := LStrip(s);
    RStripSplits(l);
    pre := s[..|s| - |l|];
    post := l[|RStrip(l)|..];
  }

  /** Stripping a text that already has no outer whitespace changes nothing. */
  lemma StripNoOuterSpace(s: string)
    requires s != [] ==> !IsSpace(s[0]) && !IsSpace(s[|s| - 1])
    ensures Strip(s) == s
  {
  }

  // ---------------------------------------------------------------------
  // Lemmas about split and join

  /** Every word of `split()` is non-empty and holds no whitespace. */
  lemma {:induction false} WordsShape(s: string)
    ensures forall k | 0 <= k < |Words(s)| :: Words(s)[k] != [] && NoSpace(Words(s)[k])
    decreases |s|
  {
    if s == [] {
    } else if IsSpace(s[0]) {
      WordsShape(s[1..]);
    } else {
      WordsShape(s[WordLength(s)..]);
    }
  }

  /** Every character of a word of `split()` comes from the text. */
  lemma {:induction false} WordsChars(s: string)
    ensures forall k, c | 0 <= k < |Words(s)| && c in Words(s)[k] :: c in s
    decreases |s|
  {
    if s == [] {
    } else if IsSpace(s[0]) {
      WordsChars(s[1..]);
      forall c | c in s[1..] ensures c in s {
        var k :| 0 <= k < |s[1..]| && s[1..][k] == c;
        assert s[1 + k] == c;
      }
    } else {
      var n := WordLength(s);
      WordsChars(s[n..]);
      forall c | c in s[n..] ensures c in s {
        var k :| 0 <= k < |s[n..]| && s[n..][k] == c;
        assert s[n + k] == c;
      }
      forall c | c in s[..n] ensures c in s {
        var k :| 0 <= k < n && s[..n][k] == c;
        assert s[k] == c;
      }
    }
  }

  /** Leading whitespace does not change `split()`. */
  lemma {:induction false} WordsSpacePrefix(w: string, s: string)
    requires AllSpace(w)
    ensures Words(w + s) == Words(s)
    decreases |w|
  {
    if w != [] {
      assert (w + s)[0] == w[0] && IsSpace(w[0]);
      assert (w + s)[1..] == w[1..] + s;
      WordsSpacePrefix(w[1..], s);
    } else {
      assert w + s == s;
    }
  }

  lemma {:induction false} WordLengthAppend(s: string, w: string)
    requires w == [] || IsSpace(w[0])
    ensures WordLength(s + w) == WordLength(s)
    decreases |s|
  {
    if s == [] {
      assert s + w == w;
    } else {
      assert (s + w)[0] == s[0];
      if !IsSpace(s[0]) {
        assert (s + w)[1..] == s[1..] + w;
        WordLengthAppend(s[1..], w);
      }
    }
  }

  /** Trailing whitespace does not change `split()`. */
  lemma {:induction false} WordsSpaceSuffix(s: string, w: string)
    requires AllSpace(w)
    ensures Words(s + w) == Words(s)
    decreases |s|
  {
    if s == [] {
      assert s + w == w + [];
      WordsSpacePrefix(w, []);
    } else {
      var t := s + w;
      assert t[0] == s[0];
      if IsSpace(s[0]) {
        assert t[1..] == s[1..] + w;
        WordsSpaceSuffix(s[1..], w);
      } else {
        WordLengthAppend(s, w);
        var n := WordLength(s);
        assert t[..n] == s[..n];
        assert t[n..] == s[n..] + w;
        WordsSpaceSuffix(s[n..], w);
      }
    }
  }

  /** Whitespace around a text does not change `' '.join(text.split())`. */
  lemma CollapseIgnoresOuterSpace(pre: string, s: string, post: string)
    requires AllSpace(pre) && AllSpace(post)
    ensures CollapseWhitespace(pre + s + post) == CollapseWhitespace(s)
  {
    assert pre + s + post == pre + (s + post);
    WordsSpacePrefix(pre, s + post);
    WordsSpaceSuffix(s, post);
  }

  /** Joining non-empty words without whitespace gives single-spaced text. */
  lemma {:induction false} JoinSingleSpaced(ws: seq<string>)
    requires forall k | 0 <= k < |ws| :: ws[k] != [] && NoSpace(ws[k])
    ensures SingleSpaced(Join(ws))
    ensures Join(ws) != [] ==> !IsSpace(Join(ws)[0]) && !IsSpace(Join(ws)[|Join(ws)| - 1])
  {
    if |ws| > 1 {
      JoinSingleSpaced(ws[1..]);
      var r := Join(ws);
      var a, b := ws[0], Join(ws[1..]);
      assert r == a + " " + b;
      assert b != [] by { assert ws[1..][0] == ws[1]; }
      forall i | 0 <= i < |r| ensures r[i] == ' ' || !IsSpace(r[i]) {
        if i < |a| { assert r[i] == a[i]; }
        else if i > |a| { assert r[i] == b[i - |a| - 1]; }
      }
      forall i | 0 <= i < |r| - 1 && r[i] == ' ' ensures r[i + 1] != ' ' {
        if i == |a| { assert r[i + 1] == b[0]; }
        else if i < |a| { }
        else { assert r[i] == b[i - |a| - 1]; assert r[i + 1] == b[i - |a|]; }
      }
      assert r[0] == a[0];
      assert r[|r| - 1] == b[|b| - 1];
    }
  }

  /** Every character of a join is a space or comes from one of the words. */
  lemma {:induction false} JoinChars(ws: seq<string>)
    ensures forall c | c in Join(ws) :: c == ' ' || exists k | 0 <= k < |ws| :: c in ws[k]
  {
    if |ws| > 1 {
      JoinChars(ws[1..]);
      forall c | c in Join(ws) ensures c == ' ' || exists k | 0 <= k < |ws| :: c in ws[k] {
        var b := Join(ws[1..]);
        assert Join(ws) == ws[0] + " " + b;
        if c in ws[0] {
        } else if c in b && c != ' ' {
          var k :| 0 <= k < |ws[1..]| && c in ws[1..][k];
          assert c in ws[k + 1];
        }
      }
    }
  }

  // ---------------------------------------------------------------------
  // Lemmas about the cleaning pipeline pieces

  /** Whitespace around the text passes through a table of replacements whose
      patterns hold no whitespace. */
  lemma {:induction false} ReplaceEachOuterSpace(pre: string, s: string, post: string, table: seq<(string, string)>)
    requires PatternsNonEmpty(table)
    requires forall k | 0 <= k < |table| :: NoSpace(table[k].0)
    requires AllSpace(pre) && AllSpace(post)
    ensures ReplaceEach(pre + s + post, table) == pre + ReplaceEach(s, table) + post
    decreases |table|
  {
    if table != [] {
      var pat, rep := table[0].0, table[0].1;
      ReplaceOuterSpace(pre, s, post, pat, rep);
      var s' := Replace(s, pat, rep);
      ReplaceEachOuterSpace(pre, s', post, table[1..]);
      assert ReplaceEach(pre + s + post, table) == ReplaceEach(pre + s' + post, table[1..]);
    }
  }

  lemma ReplaceOuterSpace(pre: string, s: string, post: string, pat: string, rep: string)
    requires pat != [] && NoSpace(pat)
    requires AllSpace(pre) && AllSpace(post)
    ensures Replace(pre + s + post, pat, rep) == pre + Replace(s, pat, rep) + post
  {
    assert pre + s + post == pre + (s + post);
    ReplaceSpacePrefix(pre, s + post, pat, rep);
    ReplaceSpaceSuffix(s, post, pat, rep);
  }

  /** Whitespace is never replaced by `re.sub(r'[^\w\s]', ' ', ...)`. */
  lemma ReplaceNonWordOuterSpace(pre: string, s: string, post: string)
    requires AllSpace(pre) && AllSpace(post)
    ensures ReplaceNonWord(pre + s + post) == pre + ReplaceNonWord(s) + post
  {
    var a, b := ReplaceNonWord(pre + s + post), pre + ReplaceNonWord(s) + post;
    assert |a| == |b|;
    forall i | 0 <= i < |a| ensures a[i] == b[i] {
      if i < |pre| {
      } else if i < |pre| + |s| {
        assert (pre + s + post)[i] == s[i - |pre|];
      } else {
        assert (pre + s + post)[i] == post[i - |pre| - |s|];
      }
    }
  }

  /** `' '.join(re.sub(r'[^\w\s]', ' ', s).split())` holds only word characters
      and single spaces, with no space at either end. */
  lemma CleanedShape(s: string)
    ensures SingleSpaced(CollapseWhitespace(ReplaceNonWord(s)))
    ensures forall c | c in CollapseWhitespace(ReplaceNonWord(s)) :: IsWordChar(c) || c == ' '
  {
    var t := ReplaceNonWord(s);
    var ws := Words(t);
    WordsShape(t);
    WordsChars(t);
    JoinSingleSpaced(ws);
    JoinChars(ws);
    assert forall c | c in t :: IsWordChar(c) || IsSpace(c);
    forall c | c in Join(ws) ensures IsWordChar(c) || c == ' ' {
      if c != ' ' {
        var k :| 0 <= k < |ws| && c in ws[k];
        var j :| 0 <= j < |ws[k]| && ws[k][j] == c;
        assert !IsSpace(c);
        assert c in t;
      }
    }
  }

  /** No step of the pipeline introduces an upper-case letter when the
      replacements are lower-case. */
  lemma {:induction false} ReplaceEachNoUpper(s: string, table: seq<(string, string)>)
    requires forall k | 0 <= k < |table| :: NoUpper(table[k].1)
    requires NoUpper(s)
    ensures NoUpper(ReplaceEach(s, table))
    decreases |table|
  {
    if table != [] {
      ReplaceChars(s, table[0].0, table[0].1);
      ReplaceEachNoUpper(Replace(s, table[0].0, table[0].1), table[1..]);
    }
  }

  lemma CleanedNoUpper(s: string)
    requires NoUpper(s)
    ensures NoUpper(CollapseWhitespace(ReplaceNonWord(s)))
  {
    var t := ReplaceNonWord(s);
    var ws := Words(t);
    WordsChars(t);
    JoinChars(ws);
    forall c | c in t ensures c in s || c == ' ' {
      var m :| 0 <= m < |t| && t[m] == c;
    }
  }

  lemma StripNoUpper(s: string)
    requires NoUpper(s)
    ensures NoUpper(Strip(s))
  {
    var pre, post := StripSplits(s);
    forall c | c in Strip(s) ensures c in s {
      var j :| 0 <= j < |Strip(s)| && Strip(s)[j] == c;
      assert s[|pre| + j] == c;
    }
  }

  /** A text missing some character of the pattern has no occurrence of it. */
  lemma {:induction false} ReplaceMissingChar(s: string, pat: string, rep: string, c: char)
    requires pat != [] && c in pat && c !in s
    ensures Replace(s, pat, rep) == s
    decreases |s|
  {
    if s != [] {
      assert !StartsWith(s, pat);
      assert c !in s[1..];
      ReplaceMissingChar(s[1..], pat, rep, c);
      assert [s[0]] + s[1..] == s;
    }
  }

  /** One step of the replacement fold, from position i of the table. */
  lemma ReplaceEachStep(s: string, table: seq<(string, string)>, i: nat)
    requires i < |table|
    ensures ReplaceEach(s, table[i..]) == ReplaceEach(Replace(s, table[i].0, table[i].1), table[i + 1..])
  {
    assert table[i..][1..] == table[i + 1..];
  }

  lemma {:induction false} WordLengthAll(s: string)
    requires NoSpace(s)
    ensures WordLength(s) == |s|
    decreases |s|
  {
    if s != [] {
      WordLengthAll(s[1..]);
    }
  }

  lemma LowerUnchanged(s: string)
    requires NoUpper(s)
    ensures Lower(s) == s
  {
    forall k | 0 <= k < |s| ensures Lower(s)[k] == s[k] {
      assert s[k] in s;
    }
  }

  /** A single word of word characters passes the punctuation and whitespace
      steps unchanged. */
  lemma CleanWordUnchanged(e: string)
    requires e != [] && forall k | 0 <= k < |e| :: IsWordChar(e[k])
    ensures CollapseWhitespace(ReplaceNonWord(e)) == e
  {
    assert ReplaceNonWord(e) == e;
    assert forall k | 0 <= k < |e| :: !IsSpace(e[k]);
    WordLengthAll(e);
    assert e[..|e|] == e && e[|e|..] == [];
    assert Words(e) == [e];
  }

  /** A table each of whose patterns has a character (listed in cs) that s
      lacks leaves s unchanged. */
  lemma {:induction false} ReplaceEachMissing(s: string, table: seq<(string, string)>, cs: string)
    requires |cs| == |table|
    requires forall k | 0 <= k < |table| :: table[k].0 != [] && cs[k] in table[k].0 && cs[k] !in s
    ensures ReplaceEach(s, table) == s
    decreases |table|
  {
    if table != [] {
      ReplaceMissingChar(s, table[0].0, table[0].1, cs[0]);
      ReplaceEachMissing(s, table[1..], cs[1..]);
    }
  }

  /** Applying a table is applying its first i entries, then the rest. */
  lemma {:induction false} ReplaceEachSplit(s: string, table: seq<(string, string)>, i: nat)
    requires i <= |table|
    ensures ReplaceEach(s, table) == ReplaceEach(ReplaceEach(s, table[..i]), table[i..])
    decreases i
  {
    if i > 0 {
      assert table[..i][0] == table[0];
      assert table[..i][1..] == table[1..][..i - 1];
      assert table[i..] == table[1..][i - 1..];
      ReplaceEachSplit(Replace(s, table[0].0, table[0].1), table[1..], i - 1);
    } else {
      assert table[..0] == [] && table[0..] == table;
    }
  }

  /** A table whose entry i turns w into e, while every other entry has a
      pattern character (listed in cs) missing from the text it meets, turns
      w into e. */
  lemma {:induction false} ReplaceEachOneHit(w: string, e: string, table: seq<(string, string)>, i: nat, cs: string)
    requires i < |table| && |cs| == |table|
    requires forall k | 0 <= k < |table| :: table[k].0 != []
    requires forall k | 0 <= k < i :: cs[k] in table[k].0 && cs[k] !in w
    requires Replace(w, table[i].0, table[i].1) == e
    requires forall k | i < k < |table| :: cs[k] in table[k].0 && cs[k] !in e
    ensures ReplaceEach(w, table) == e
  {
    ReplaceEachSplit(w, table, i);
    ReplaceEachMissing(w, table[..i], cs[..i]);
    ReplaceEachStep(w, table, i);
    ReplaceEachMissing(e, table[i + 1..], cs[i + 1..]);
  }

  /** A lower-case word of letters whose expansion by the table is the word
      e of letters comes out of the whole cleaning pipeline as e. */
  lemma CleanSingleWord(w: string, table: seq<(string, string)>, e: string)
    requires w != [] && forall k | 0 <= k < |w| :: 'a' <= w[k] <= 'z'
    requires e != [] && forall k | 0 <= k < |e| :: 'a' <= e[k] <= 'z'
    requires ReplaceEach(w, table) == e
    ensures CollapseWhitespace(ReplaceNonWord(ReplaceEach(Strip(Lower(w)), table))) == e
  {
    assert NoUpper(w);
    LowerUnchanged(w);
    assert Strip(w) == w by { StripNoOuterSpace(w); }
    assert forall k | 0 <= k < |e| :: IsWordChar(e[k]);
    CleanWordUnchanged(e);
  }

  /** A word of lower-case letters that exactly one entry i of the table
      rewrites, into the word e of lower-case letters, comes out of the
      whole cleaning pipeline as e; cs names, for every other entry, a
      pattern character missing from the text that entry meets. */
  lemma CleanOneHit(w: string, e: string, table: seq<(string, string)>, i: nat, cs: string)
    requires w != [] && forall k | 0 <= k < |w| :: 'a' <= w[k] <= 'z'
    requires e != [] && forall k | 0 <= k < |e| :: 'a' <= e[k] <= 'z'
    requires PatternsNonEmpty(table)
    requires i < |table| && |cs| == |table|
    requires forall k | 0 <= k < i :: cs[k] in table[k].0 && cs[k] !in w
    requires Replace(w, table[i].0, table[i].1) == e
    requires forall k | i < k < |table| :: cs[k] in table[k].0 && cs[k] !in e
    ensures CollapseWhitespace(ReplaceNonWord(ReplaceEach(Strip(Lower(w)), table))) == e
  {
    ReplaceEachOneHit(w, e, table, i, cs);
    CleanSingleWord(w, table, e);
  }
}
