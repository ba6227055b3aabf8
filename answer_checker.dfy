/**
 * Answer normalisation and the default answer rule.
 *
 * `_normalise` lower-cases the text, replaces every run of characters of the
 * regular-expression class `[\\W_]` by one space, then splits on whitespace
 * and re-joins the words with single spaces. Written as a raw string, that
 * class holds exactly three characters: backslash, capital `W` and
 * underscore. After lower-casing no `W` is left, so only runs of backslashes
 * and underscores are replaced; every other punctuation character stays.
 */
module AnswerChecker {
  import opened Strings

  /** Members of the character class `[\\W_]`. */
  predicate InClass(c: char) {
    c == '\\' || c == 'W' || c == '_'
  }

  predicate IsUpper(c: char) {
    'A' <= c <= 'Z'
  }

  /** A character that can appear inside a normalised word. */
  predicate WordChar(c: char) {
    !IsSpace(c) && !InClass(c) && !IsUpper(c)
  }

  /** A word as `str.split()` produces it: non-empty, without whitespace. */
  ghost predicate IsWord(w: string) {
    w != [] && forall j :: 0 <= j < |w| ==> !IsSpace(w[j])
  }

  ghost predicate AllWordChars(w: string) {
    forall j :: 0 <= j < |w| ==> WordChar(w[j])
  }

  /** Every character is a space or a word character. */
  ghost predicate SpacesAndWordChars(s: string) {
    forall i :: 0 <= i < |s| ==> IsSpace(s[i]) || WordChar(s[i])
  }

  // ------------------------------------------------------------------
  // str.lower()
  // ------------------------------------------------------------------

  function LowerChar(c: char): (r: char)
    ensures !IsUpper(r)
    ensures IsUpper(c) ==> r as int == c as int + 32
    ensures !IsUpper(c) ==> r == c
  {
    if IsUpper(c) then (c as int + 32) as char else c
  }

  /** `str.lower()` on ASCII letters: each character is mapped on its own. */
  function Lower(s: string): (r: string)
    ensures |r| == |s|
    ensures forall i :: 0 <= i < |s| ==> r[i] == LowerChar(s[i])
  {
    if s == [] then [] else [LowerChar(s[0])] + Lower(s[1..])
  }

  lemma {:induction false} LowerAppend(a: string, b: string)
    ensures Lower(a + b) == Lower(a) + Lower(b)
  {
  }

  lemma LowerNoUpper(s: string)
    requires forall i :: 0 <= i < |s| ==> !IsUpper(s[i])
    ensures Lower(s) == s
  {
  }

  /** Lower-casing twice is lower-casing once. */
  lemma LowerIdempotent(s: string)
    ensures Lower(Lower(s)) == Lower(s)
  {
    LowerNoUpper(Lower(s));
  }

  // ------------------------------------------------------------------
  // re.sub(r"[\\W_]+", " ", text)
  // ------------------------------------------------------------------

  /** Drops the maximal run of class characters at the front of `s`. */
  function DropRun(s: string): (r: string)
    ensures |r| <= |s| && r == s[|s| - |r|..]
    ensures r == [] || !InClass(r[0])
    ensures forall k :: 0 <= k < |s| - |r| ==> InClass(s[k])
  {
    if s != [] && InClass(s[0]) then DropRun(s[1..]) else s
  }

  /** Every maximal run of class characters becomes a single space. */
  function SubRuns(s: string): (r: string)
    ensures forall i :: 0 <= i < |r| ==> !InClass(r[i])
    decreases |s|
  {
    if s == [] then []
    else if InClass(s[0]) then " " + SubRuns(DropRun(s))
    else [s[0]] + SubRuns(s[1..])
  }

  /** The substitution adds only spaces, so a text without capitals keeps
      none; what it leaves are spaces and word characters. */
  lemma {:induction false} SubRunsNoUpper(s: string)
    requires forall k :: 0 <= k < |s| ==> !IsUpper(s[k])
    ensures SpacesAndWordChars(SubRuns(s))
    decreases |s|
  {
    if s == [] {
    } else if InClass(s[0]) {
      SubRunsNoUpper(DropRun(s));
    } else {
      SubRunsNoUpper(s[1..]);
    }
  }

  /** Text without class characters is left as it is. */
  lemma {:induction false} SubRunsNoClass(s: string)
    requires forall k :: 0 <= k < |s| ==> !InClass(s[k])
    ensures SubRuns(s) == s
  {
    if s != [] {
      SubRunsNoClass(s[1..]);
    }
  }

  /** A run never reaches across a character outside the class, so the
      substitution splits there. */
  lemma {:induction false} SubRunsAppend(a: string, b: string)
    requires b == [] || !InClass(b[0])
    ensures SubRuns(a + b) == SubRuns(a) + SubRuns(b)
    decreases |a|
  {
    if a == [] {
      assert a + b == b;
    } else if InClass(a[0]) {
      var d := DropRun(a);
      assert |d| < |a|;
      DropRunAppend(a, b);
      SubRunsAppend(d, b);
      assert (a + b)[0] == a[0];
      var x, y := SubRuns(d), SubRuns(b);
      AppendAssoc(" ", x, y);
      calc {
        SubRuns(a + b);
        " " + SubRuns(DropRun(a + b));
        " " + (x + y);
        (" " + x) + y;
        SubRuns(a) + SubRuns(b);
      }
    } else {
      assert (a + b)[0] == a[0];
      assert (a + b)[1..] == a[1..] + b;
      SubRunsAppend(a[1..], b);
      var x, y := SubRuns(a[1..]), SubRuns(b);
      AppendAssoc([a[0]], x, y);
      calc {
        SubRuns(a + b);
        [a[0]] + SubRuns(a[1..] + b);
        [a[0]] + (x + y);
        ([a[0]] + x) + y;
      }
    }
  }

  lemma AppendAssoc(p: string, q: string, r: string)
    ensures p + (q + r) == (p + q) + r
  {
  }

  lemma {:induction false} DropRunAppend(a: string, b: string)
    requires b == [] || !InClass(b[0])
    ensures DropRun(a + b) == DropRun(a) + b
  {
    if a == [] {
      assert a + b == b;
    } else if InClass(a[0]) {
      assert (a + b)[1..] == a[1..] + b;
      DropRunAppend(a[1..], b);
    }
  }

  /** Characters outside the class pass through unchanged. */
  lemma {:induction false} SubRunsPrefix(w: string, b: string)
    requires forall k :: 0 <= k < |w| ==> !InClass(w[k])
    ensures SubRuns(w + b) == w + SubRuns(b)
  {
    if w != [] {
      assert (w + b)[1..] == w[1..] + b;
      SubRunsPrefix(w[1..], b);
    } else {
      assert w + b == b;
    }
  }

  // ------------------------------------------------------------------
  // " ".join(text.split())
  // ------------------------------------------------------------------

  /** The longest prefix of `s` without whitespace. */
  function FirstWord(s: string): (w: string)
    ensures |w| <= |s| && w == s[..|w|]
    ensures forall j :: 0 <= j < |w| ==> !IsSpace(w[j])
    ensures |w| < |s| ==> IsSpace(s[|w|])
  {
    if s == [] || IsSpace(s[0]) then [] else [s[0]] + FirstWord(s[1..])
  }

  /** `str.split()` with no separator: the maximal runs of non-whitespace. */
  function Words(s: string): (r: seq<string>)
    ensures forall i :: 0 <= i < |r| ==> IsWord(r[i])
    decreases |s|
  {
    if s == [] then []
    else if IsSpace(s[0]) then Words(s[1..])
    else
      var w := FirstWord(s);
      [w] + Words(s[|w|..])
  }

  /** Splitting keeps characters: a text of spaces and word characters
      splits into words of word characters. */
  lemma {:induction false} WordsKeepChars(s: string)
    requires SpacesAndWordChars(s)
    ensures forall i :: 0 <= i < |Words(s)| ==> AllWordChars(Words(s)[i])
    decreases |s|
  {
    if s == [] {
    } else if IsSpace(s[0]) {
      WordsKeepChars(s[1..]);
    } else {
      var w := FirstWord(s);
      assert forall j :: 0 <= j < |w| ==> w[j] == s[j];
      WordsKeepChars(s[|w|..]);
    }
  }

  /** `" ".join(words)`. */
  function Join(ws: seq<string>): string {
    if ws == [] then ""
    else if |ws| == 1 then ws[0]
    else ws[0] + " " + Join(ws[1..])
  }

  /** Joined words begin and end with a word, never with whitespace, and
      their only spaces are the single separators. */
  lemma {:induction false} JoinShape(ws: seq<string>)
    requires forall i :: 0 <= i < |ws| ==> IsWord(ws[i])
    ensures var r := Join(ws);
      && (r == [] <==> ws == [])
      && (ws != [] ==> ws[0] != [] && r[0] == ws[0][0])
      && NoEdgeSpace(r)
      && forall k :: 0 <= k < |r| - 1 ==> r[k] != ' ' || r[k + 1] != ' '
  {
    if |ws| > 1 {
      JoinShape(ws[1..]);
      var w, rest := ws[0], Join(ws[1..]);
      var r := w + " " + rest;
      assert forall k :: 0 <= k < |w| ==> r[k] == w[k];
      assert r[|w|] == ' ';
      assert forall k :: |w| < k < |r| ==> r[k] == rest[k - |w| - 1];
    }
  }

  /** Joining words of word characters adds only spaces. */
  lemma {:induction false} JoinKeepChars(ws: seq<string>)
    requires forall i :: 0 <= i < |ws| ==> AllWordChars(ws[i])
    ensures forall k :: 0 <= k < |Join(ws)| ==> Join(ws)[k] == ' ' || WordChar(Join(ws)[k])
  {
    if |ws| > 1 {
      JoinKeepChars(ws[1..]);
      var w, rest := ws[0], Join(ws[1..]);
      var r := w + " " + rest;
      assert forall k :: 0 <= k < |w| ==> r[k] == w[k];
      assert forall k :: |w| < k < |r| ==> r[k] == rest[k - |w| - 1];
    }
  }

  /** Whitespace separates words: a non-empty run of it can be cut out. */
  lemma {:induction false} WordsAround(u: string, w: string, v: string)
    requires w != [] && AllSpace(w)
    ensures Words(u + w + v) == Words(u) + Words(v)
    decreases |u|, |w|
  {
    if u == [] {
      assert u + w + v == w + v;
      WordsAfterSpace(w, v);
    } else if IsSpace(u[0]) {
      assert (u + w + v)[1..] == u[1..] + w + v;
      WordsAround(u[1..], w, v);
    } else {
      var s := u + w + v;
      var fw := FirstWord(u);
      FirstWordAppend(u, w + v);
      assert u + w + v == u + (w + v);
      assert s[|fw|..] == u[|fw|..] + w + v;
      WordsAround(u[|fw|..], w, v);
    }
  }

  lemma {:induction false} WordsAfterSpace(w: string, v: string)
    requires AllSpace(w)
    ensures Words(w + v) == Words(v)
  {
    if w != [] {
      assert (w + v)[1..] == w[1..] + v;
      WordsAfterSpace(w[1..], v);
    } else {
      assert w + v == v;
    }
  }

  lemma {:induction false} FirstWordAppend(u: string, t: string)
    requires t == [] || IsSpace(t[0])
    ensures FirstWord(u + t) == FirstWord(u)
  {
    if u == [] {
      assert u + t == t;
    } else if !IsSpace(u[0]) {
      assert (u + t)[1..] == u[1..] + t;
      FirstWordAppend(u[1..], t);
    }
  }

  lemma {:induction false} WordsOfWord(w: string)
    requires IsWord(w)
    ensures Words(w) == [w]
  {
    var fw := FirstWord(w);
    assert fw == w;
    assert w[|fw|..] == [];
  }

  /** Splitting re-joined words gives back the words. */
  lemma {:induction false} WordsOfJoin(ws: seq<string>)
    requires forall i :: 0 <= i < |ws| ==> IsWord(ws[i])
    ensures Words(Join(ws)) == ws
  {
    if ws == [] {
    } else if |ws| == 1 {
      WordsOfWord(ws[0]);
    } else {
      WordsOfJoin(ws[1..]);
      WordsAround(ws[0], " ", Join(ws[1..]));
      WordsOfWord(ws[0]);
    }
  }

  // ------------------------------------------------------------------
  // _normalise, exact_match, DEFAULT_ANSWER_RULE
  // ------------------------------------------------------------------

  /** `_normalise(text)`. Its result holds only spaces and word characters
      (so no backslash, underscore, capital ASCII letter or other
      whitespace), has no space at either end and no two spaces in a row. */
  function Normalise(text: string): (r: string)
    ensures forall k :: 0 <= k < |r| ==> r[k] == ' ' || WordChar(r[k])
    ensures r == [] || (r[0] != ' ' && r[|r| - 1] != ' ')
    ensures forall k :: 0 <= k < |r| - 1 ==> r[k] != ' ' || r[k + 1] != ' '
  {
    var t := SubRuns(Lower(text));
    SubRunsNoUpper(Lower(text));
    WordsKeepChars(t);
    JoinShape(Words(t));
    JoinKeepChars(Words(t));
    Join(Words(t))
  }

  /** `exact_match(user_answer, canonical)`. */
  function ExactMatch(userAnswer: string, canonical: string): bool {
    Normalise(userAnswer) == Normalise(canonical)
  }

  /** `DEFAULT_ANSWER_RULE`, a rule of two arguments. */
  const DefaultAnswerRule: (string, string) -> bool := ExactMatch

  /** Normalising a normalised answer changes nothing. */
  lemma NormaliseIdempotent(text: string)
    ensures Normalise(Normalise(text)) == Normalise(text)
  {
    var ws := Words(SubRuns(Lower(text)));
    var n := Normalise(text);
    assert n == Join(ws);
    LowerNoUpper(n);
    SubRunsNoClass(n);
    WordsOfJoin(ws);
  }

  /** `exact_match` is an equivalence relation. */
  lemma ExactMatchIsEquivalence(a: string, b: string, c: string)
    ensures ExactMatch(a, a)
    ensures ExactMatch(a, b) == ExactMatch(b, a)
    ensures ExactMatch(a, b) && ExactMatch(b, c) ==> ExactMatch(a, c)
  {
  }

  /** An answer matches its own lower-cased form. */
  lemma IgnoresCase(text: string)
    ensures ExactMatch(Lower(text), text)
  {
    LowerIdempotent(text);
  }

  /** A non-empty run of whitespace inside an answer matches one space. */
  lemma IgnoresInnerWhitespace(x: string, w: string, y: string)
    requires w != [] && AllSpace(w)
    ensures ExactMatch(x + w + y, x + " " + y)
  {
    var sx, sy := SubRuns(Lower(x)), SubRuns(Lower(y));
    SubRunsAround(x, w, y);
    SubRunsAround(x, " ", y);
    WordsAround(sx, w, sy);
    WordsAround(sx, " ", sy);
  }

  /** Whitespace before an answer is ignored. */
  lemma IgnoresLeadingWhitespace(w: string, x: string)
    requires AllSpace(w)
    ensures ExactMatch(w + x, x)
  {
    var lx := Lower(x);
    LowerAppend(w, x);
    LowerNoUpper(w);
    SubRunsPrefix(w, lx);
    WordsAfterSpace(w, SubRuns(lx));
  }

  /** Whitespace after an answer is ignored. */
  lemma IgnoresTrailingWhitespace(x: string, w: string)
    requires AllSpace(w)
    ensures ExactMatch(x + w, x)
  {
    if w == [] {
      assert x + w == x;
      return;
    }
    var lx := Lower(x);
    var e: string := [];
    LowerAppend(x, w);
    LowerNoUpper(w);
    SubRunsAppend(lx, w);
    SubRunsNoClass(w);
    var sx := SubRuns(lx);
    assert sx + w + e == sx + w;
    WordsAround(sx, w, e);
    assert Words(sx) + Words(e) == Words(sx);
  }

  /** Normalisation acts on the two sides of a whitespace run separately. */
  lemma SubRunsAround(x: string, w: string, y: string)
    requires w != [] && AllSpace(w)
    ensures SubRuns(Lower(x + w + y)) == SubRuns(Lower(x)) + w + SubRuns(Lower(y))
  {
    var lx, ly := Lower(x), Lower(y);
    LowerAppend(x + w, y);
    LowerAppend(x, w);
    LowerNoUpper(w);
    AppendAssoc(lx, w, ly);
    assert Lower(x + w + y) == lx + (w + ly);
    SubRunsAppend(lx, w + ly);
    SubRunsPrefix(w, ly);
    AppendAssoc(SubRuns(lx), w, SubRuns(ly));
  }

  /** A string split before its maximal trailing run of class characters. */
  function TrailingRun(s: string): (r: (string, string))
    ensures s == r.0 + r.1
    ensures forall k :: 0 <= k < |r.1| ==> InClass(r.1[k])
    ensures r.0 == [] || !InClass(r.0[|r.0| - 1])
    decreases |s|
  {
    if s != [] && InClass(s[|s| - 1]) then
      var p := TrailingRun(s[..|s| - 1]);
      assert s == s[..|s| - 1] + [s[|s| - 1]];
      assert p.0 + p.1 + [s[|s| - 1]] == p.0 + (p.1 + [s[|s| - 1]]);
      (p.0, p.1 + [s[|s| - 1]])
    else (s, [])
  }

  /** A string split after its maximal leading run of class characters. */
  function LeadingRun(s: string): (r: (string, string))
    ensures s == r.0 + r.1
    ensures forall k :: 0 <= k < |r.0| ==> InClass(r.0[k])
    ensures r.1 == [] || !InClass(r.1[0])
  {
    if s != [] && InClass(s[0]) then
      var p := LeadingRun(s[1..]);
      assert s == [s[0]] + s[1..];
      assert [s[0]] + (p.0 + p.1) == ([s[0]] + p.0) + p.1;
      (([s[0]] + p.0), p.1)
    else ([], s)
  }

  /** A string of class characters only is dropped entirely. */
  lemma DropRunAll(s: string)
    requires forall k :: 0 <= k < |s| ==> InClass(s[k])
    ensures DropRun(s) == []
  {
  }

  /** Once a character outside the class has been reached, what follows
      is kept. */
  lemma {:induction false} DropRunAppendKept(a: string, b: string)
    requires DropRun(a) != []
    ensures DropRun(a + b) == DropRun(a) + b
  {
    assert (a + b)[0] == a[0];
    if InClass(a[0]) {
      assert DropRun(a) == DropRun(a[1..]);
      assert (a + b)[1..] == a[1..] + b;
      assert DropRun(a + b) == DropRun(a[1..] + b);
      DropRunAppendKept(a[1..], b);
    } else {
      assert DropRun(a) == a && DropRun(a + b) == a + b;
    }
  }

  /** A string ending outside the class keeps a non-empty rest after its
      leading run, ending in the same character. */
  lemma DropRunKeepsLast(x: string)
    requires x != [] && !InClass(x[|x| - 1])
    ensures DropRun(x) != [] && DropRun(x)[|DropRun(x)| - 1] == x[|x| - 1]
  {
  }

  /** A run of class characters at the end becomes one trailing space. */
  lemma {:induction false} SubRunsTrailingRun(x: string, u: string)
    requires u != [] && forall k :: 0 <= k < |u| ==> InClass(u[k])
    requires x == [] || !InClass(x[|x| - 1])
    ensures SubRuns(x + u) == SubRuns(x) + " "
    decreases |x|
  {
    if x == [] {
      assert x + u == u;
      DropRunAll(u);
    } else if InClass(x[0]) {
      var d := DropRun(x);
      DropRunKeepsLast(x);
      DropRunAppendKept(x, u);
      SubRunsTrailingRun(d, u);
      SubRunsRunStep(x, u, d);
    } else {
      var x' := x[1..];
      assert (x + u)[1..] == x' + u;
      assert x' == [] || x'[|x'| - 1] == x[|x| - 1];
      SubRunsTrailingRun(x', u);
      SubRunsCharStep(x, u);
    }
  }

  /** One unfolding of `SubRuns` at a leading run, for `SubRunsTrailingRun`. */
  lemma SubRunsRunStep(x: string, u: string, d: string)
    requires x != [] && InClass(x[0]) && d == DropRun(x)
    requires DropRun(x + u) == d + u
    requires SubRuns(d + u) == SubRuns(d) + " "
    ensures SubRuns(x + u) == SubRuns(x) + " "
  {
    assert (x + u)[0] == x[0];
    assert SubRuns(x + u) == " " + SubRuns(DropRun(x + u));
    assert SubRuns(x) == " " + SubRuns(d);
    AppendAssoc(" ", SubRuns(d), " ");
  }

  /** One unfolding of `SubRuns` at a kept character, for `SubRunsTrailingRun`. */
  lemma SubRunsCharStep(x: string, u: string)
    requires x != [] && !InClass(x[0])
    requires SubRuns(x[1..] + u) == SubRuns(x[1..]) + " "
    ensures SubRuns(x + u) == SubRuns(x) + " "
  {
    assert (x + u)[0] == x[0];
    assert (x + u)[1..] == x[1..] + u;
    assert SubRuns(x + u) == [x[0]] + SubRuns(x[1..] + u);
    assert SubRuns(x) == [x[0]] + SubRuns(x[1..]);
    AppendAssoc([x[0]], SubRuns(x[1..]), " ");
  }

  /** A run of class characters at the start becomes one leading space. */
  lemma SubRunsLeadingRun(h: string, q: string)
    requires h != [] && forall k :: 0 <= k < |h| ==> InClass(h[k])
    requires q == [] || !InClass(q[0])
    ensures SubRuns(h + q) == " " + SubRuns(q)
  {
    assert (h + q)[0] == h[0];
    DropRunAppend(h, q);
    DropRunAll(h);
    assert [] + q == q;
  }

  /** `SubRuns` with an optional class run at one end: at most one extra
      space. */
  lemma SubRunsOptionalRuns(p: string, t: string, h: string, q: string)
    requires forall k :: 0 <= k < |t| ==> InClass(t[k])
    requires forall k :: 0 <= k < |h| ==> InClass(h[k])
    requires p == [] || !InClass(p[|p| - 1])
    requires q == [] || !InClass(q[0])
    ensures SubRuns(p + t) == SubRuns(p) + (if t == [] then "" else " ")
    ensures SubRuns(h + q) == (if h == [] then "" else " ") + SubRuns(q)
  {
    if t == [] {
      assert p + t == p;
      assert SubRuns(p) + "" == SubRuns(p);
    } else {
      SubRunsTrailingRun(p, t);
    }
    if h == [] {
      assert h + q == q;
      assert "" + SubRuns(q) == SubRuns(q);
    } else {
      SubRunsLeadingRun(h, q);
    }
  }

  /** A maximal run of class characters becomes one space. */
  lemma SubRunsMaximalRun(p: string, m: string, q: string)
    requires m != [] && forall k :: 0 <= k < |m| ==> InClass(m[k])
    requires p == [] || !InClass(p[|p| - 1])
    requires q == [] || !InClass(q[0])
    ensures SubRuns(p + m + q) == SubRuns(p) + " " + SubRuns(q)
  {
    SubRunsAppend(p + m, q);
    SubRunsTrailingRun(p, m);
  }

  /** A space is a boundary `SubRuns` does not look across. */
  lemma SubRunsAtSpace(a: string, b: string)
    ensures SubRuns(a + " " + b) == SubRuns(a) + " " + SubRuns(b)
  {
    assert a + " " + b == a + (" " + b);
    SubRunsAppend(a, " " + b);
    SubRunsPrefix(" ", b);
  }

  /** Three class runs in a row form one. */
  lemma ClassRuns(t: string, u: string, h: string)
    requires forall k :: 0 <= k < |t| ==> InClass(t[k])
    requires forall k :: 0 <= k < |u| ==> InClass(u[k])
    requires forall k :: 0 <= k < |h| ==> InClass(h[k])
    ensures forall k :: 0 <= k < |t + u + h| ==> InClass((t + u + h)[k])
  {
    var m := t + u + h;
    forall k | 0 <= k < |m| ensures InClass(m[k]) {
      if k < |t| {
        assert m[k] == t[k];
      } else if k < |t| + |u| {
        assert m[k] == u[k - |t|];
      } else {
        assert m[k] == h[k - |t| - |u|];
      }
    }
  }

  /** The words on either side of a non-empty run of spaces. */
  lemma WordsAroundEither(sp: string, s1: string, s2: string, sq: string)
    requires s1 == "" || s1 == " "
    requires s2 == "" || s2 == " "
    ensures Words(sp + s1 + " " + s2 + sq) == Words(sp + " " + sq)
  {
    var w := s1 + " " + s2;
    assert sp + s1 + " " + s2 + sq == sp + w + sq;
    assert forall k :: 0 <= k < |w| ==> w[k] == ' ';
    WordsAround(sp, w, sq);
    WordsAround(sp, " ", sq);
  }

  /** Replacing a run of class characters by a space changes no word:
      the run merges with its neighbouring class characters into one
      separator either way. */
  lemma WordsAcrossRun(a: string, u: string, b: string)
    requires u != [] && forall k :: 0 <= k < |u| ==> InClass(u[k])
    ensures Words(SubRuns(a + u + b)) == Words(SubRuns(a + " " + b))
  {
    var (p, t) := TrailingRun(a);
    var (h, q) := LeadingRun(b);
    ClassRuns(t, u, h);
    AroundRun(p, t, u, h, q);
    SubRunsAtSpace(p + t, h + q);
    SubRunsOptionalRuns(p, t, h, q);
    var s1: string := if t == [] then "" else " ";
    var s2: string := if h == [] then "" else " ";
    var sp, sq := SubRuns(p), SubRuns(q);
    assert a == p + t && b == h + q;
    assert SubRuns(a + u + b) == sp + " " + sq;
    assert SubRuns(p + t) == sp + s1;
    assert SubRuns(h + q) == s2 + sq;
    assert SubRuns(a + " " + b) == (sp + s1) + " " + (s2 + sq);
    AppendAssoc(sp + s1 + " ", s2, sq);
    WordsAroundEither(sp, s1, s2, sq);
  }

  /** The class run `u` with the class characters around it as one run. */
  lemma AroundRun(p: string, t: string, u: string, h: string, q: string)
    requires u != [] && forall k :: 0 <= k < |t + u + h| ==> InClass((t + u + h)[k])
    requires p == [] || !InClass(p[|p| - 1])
    requires q == [] || !InClass(q[0])
    ensures SubRuns((p + t) + u + (h + q)) == SubRuns(p) + " " + SubRuns(q)
  {
    AppendAssoc(p + t + u, h, q);
    AppendAssoc(p, t, u);
    AppendAssoc(p, t + u, h);
    SubRunsMaximalRun(p, t + u + h, q);
  }

  /** A run of backslashes and underscores inside an answer matches one
      space. */
  lemma IgnoresClassRun(x: string, u: string, y: string)
    requires u != [] && forall k :: 0 <= k < |u| ==> u[k] == '\\' || u[k] == '_'
    ensures ExactMatch(x + u + y, x + " " + y)
  {
    var lx, ly := Lower(x), Lower(y);
    LowerAppend(x + u, y);
    LowerAppend(x, u);
    LowerNoUpper(u);
    LowerAppend(x + " ", y);
    LowerAppend(x, " ");
    LowerNoUpper(" ");
    WordsAcrossRun(lx, u, ly);
  }

  /** A text `_normalise` could have produced: spaces and word characters
      only, no space at either end, no two spaces in a row. */
  ghost predicate NormalForm(s: string) {
    && (forall k :: 0 <= k < |s| ==> s[k] == ' ' || WordChar(s[k]))
    && (s == [] || (s[0] != ' ' && s[|s| - 1] != ' '))
    && (forall k :: 0 <= k < |s| - 1 ==> s[k] != ' ' || s[k + 1] != ' ')
  }

  /** The normal forms are exactly the texts `_normalise` leaves alone. */
  lemma NormaliseFixedPoint(s: string)
    ensures Normalise(s) == s <==> NormalForm(s)
  {
    if NormalForm(s) {
      LowerNoUpper(s);
      SubRunsNoClass(s);
      JoinWords(s);
    }
  }

  /** Splitting and re-joining a normal form gives it back. */
  lemma {:induction false} JoinWords(s: string)
    requires NormalForm(s)
    ensures Join(Words(s)) == s
    decreases |s|
  {
    if s != [] {
      var w := FirstWord(s);
      if |w| == |s| {
        assert s[|w|..] == [];
        assert Words(s) == [w];
      } else {
        var rest := s[|w| + 1..];
        assert s[|w|] == ' ';
        assert |w| + 1 < |s|;
        assert s[|w|..][1..] == rest;
        assert Words(s[|w|..]) == Words(rest);
        assert rest[0] == s[|w| + 1] && rest[0] != ' ';
        assert forall k :: 0 <= k < |rest| ==> rest[k] == s[|w| + 1 + k];
        JoinWords(rest);
        var ws := Words(rest);
        assert ws != [];
        assert Words(s) == [w] + ws;
        assert ([w] + ws)[1..] == ws;
        assert s == w + " " + rest;
      }
    }
  }

  /** Punctuation other than backslash and underscore is significant. */
  lemma PunctuationSignificant()
    ensures !ExactMatch("42.", "42")
  {
    NormaliseLiteral("42.");
    NormaliseLiteral("42");
    assert |"42."| != |"42"|;
  }

  /** A single word of lower-case characters outside the class is its own
      normal form. */
  lemma NormaliseLiteral(w: string)
    requires w != [] && forall k :: 0 <= k < |w| ==> !IsSpace(w[k]) && !InClass(w[k]) && !IsUpper(w[k])
    ensures Normalise(w) == w
  {
    LowerNoUpper(w);
    SubRunsNoClass(w);
    WordsOfWord(w);
  }
}
