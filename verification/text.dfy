/** The JavaScript string operations the own-candidate predicates use:
    `trim()`, `replace(/\s+/g, " ")`, `toLowerCase()` (ASCII letters only)
    and `includes`. */
module Text {

  /** ECMAScript WhiteSpace and LineTerminator code points: the class `\s`
      matches and `trim()` removes. */
  predicate IsSpace(c: char) {
    || c == '\t' || c == '\n' || c == '\U{000B}' || c == '\U{000C}' || c == '\r'
    || c == ' ' || c == '\U{00A0}' || c == '\U{1680}' || '\U{2000}' <= c <= '\U{200A}'
    || c == '\U{2028}' || c == '\U{2029}' || c == '\U{202F}' || c == '\U{205F}'
    || c == '\U{3000}' || c == '\U{FEFF}'
  }

  predicate AllSpace(s: string) {
    forall i :: 0 <= i < |s| ==> IsSpace(s[i])
  }

  /** No white space at all. */
  predicate IsWord(s: string) {
    forall i :: 0 <= i < |s| ==> !IsSpace(s[i])
  }

  /** Leading white space removed. */
  function TrimStart(s: string): (r: string)
    ensures |r| <= |s| && r == s[|s| - |r|..]
    ensures r == [] || !IsSpace(r[0])
  {
    if |s| > 0 && IsSpace(s[0]) then TrimStart(s[1..]) else s
  }

  /** What `TrimStart` drops is white space. */
  lemma {:induction false} TrimStartDropsSpace(s: string)
    ensures forall i :: 0 <= i < |s| - |TrimStart(s)| ==> IsSpace(s[i])
  {
    if |s| > 0 && IsSpace(s[0]) {
      TrimStartDropsSpace(s[1..]);
    }
  }

  /** Trailing white space removed. */
  function TrimEnd(s: string): (r: string)
    ensures |r| <= |s| && r == s[..|r|]
    ensures r == [] || !IsSpace(r[|r| - 1])
  {
    if |s| > 0 && IsSpace(s[|s| - 1]) then TrimEnd(s[..|s| - 1]) else s
  }

  /** What `TrimEnd` drops is white space. */
  lemma {:induction false} TrimEndDropsSpace(s: string)
    ensures forall i :: |TrimEnd(s)| <= i < |s| ==> IsSpace(s[i])
  {
    if |s| > 0 && IsSpace(s[|s| - 1]) {
      TrimEndDropsSpace(s[..|s| - 1]);
    }
  }

  /** `s.trim()` */
  function Trim(s: string): string {
    TrimEnd(TrimStart(s))
  }

  /** A string that starts and ends with a non-space is its own trim. */
  lemma TrimOfWordEnds(s: string)
    requires s != [] && !IsSpace(s[0]) && !IsSpace(s[|s| - 1])
    ensures Trim(s) == s
  {
  }

  /** `s.replace(/\s+/g, " ")` scanned left to right: `inRun` says whether
      the characters just before `s` were white space already replaced. */
  function Squeeze(s: string, inRun: bool): (r: string)
    ensures s != [] && !IsSpace(s[0]) ==> r != [] && r[0] == s[0]
    ensures s != [] && IsSpace(s[0]) && !inRun ==> r != [] && r[0] == ' '
  {
    if s == [] then []
    else if !IsSpace(s[0]) then [s[0]] + Squeeze(s[1..], false)
    else if inRun then Squeeze(s[1..], true)
    else [' '] + Squeeze(s[1..], true)
  }

  /** `s.replace(/\s+/g, " ")`: every maximal run of white space becomes a
      single space character. */
  function CollapseSpaces(s: string): string {
    Squeeze(s, false)
  }

  /** Whether a scan that started with `inRun` is inside a run after `x`. */
  function EndsInRun(x: string, inRun: bool): bool {
    if x == [] then inRun else IsSpace(x[|x| - 1])
  }

  /** `toLowerCase()` restricted to the ASCII letters. */
  function LowerChar(c: char): (r: char)
    ensures IsSpace(r) == IsSpace(c)
  {
    if 'A' <= c <= 'Z' then (c as int + 32) as char else c
  }

  function Lower(s: string): (r: string)
    ensures |r| == |s|
  {
    seq(|s|, i requires 0 <= i < |s| => LowerChar(s[i]))
  }

  predicate OccursAt(s: string, p: string, i: int) {
    0 <= i <= |s| - |p| && s[i..i + |p|] == p
  }

  /** `s.includes(p)` */
  predicate Contains(s: string, p: string) {
    exists i | 0 <= i <= |s| - |p| :: OccursAt(s, p, i)
  }

  lemma ContainsMiddle(u: string, p: string, v: string)
    ensures Contains(u + p + v, p)
  {
    assert (u + p + v)[|u|..|u| + |p|] == p;
    assert OccursAt(u + p + v, p, |u|);
  }

  /** A character of the pattern occurs in any string that contains it. */
  lemma ContainsChar(s: string, p: string, k: nat)
    requires Contains(s, p) && k < |p|
    ensures p[k] in s
  {
    var i :| 0 <= i <= |s| - |p| && OccursAt(s, p, i);
    assert s[i..i + |p|][k] == p[k];
  }

  // ---- trimming ----

  /** Any suffix that drops only white space and starts with a non-space is
      what `TrimStart` returns. */
  lemma TrimStartUnique(s: string, r: string)
    requires |r| <= |s| && r == s[|s| - |r|..]
    requires forall i :: 0 <= i < |s| - |r| ==> IsSpace(s[i])
    requires r == [] || !IsSpace(r[0])
    ensures r == TrimStart(s)
  {
    var t := TrimStart(s);
    TrimStartDropsSpace(s);
    if r != [] {
      assert r[0] == s[|s| - |r|];
      SpaceBeforeNonSpace(s, |s| - |t|, |s| - |r|);
    }
    if t != [] {
      assert t[0] == s[|s| - |t|];
      SpaceBeforeNonSpace(s, |s| - |r|, |s| - |t|);
    }
    assert |r| == |t|;
  }

  lemma TrimEndUnique(s: string, r: string)
    requires |r| <= |s| && r == s[..|r|]
    requires forall i :: |r| <= i < |s| ==> IsSpace(s[i])
    requires r == [] || !IsSpace(r[|r| - 1])
    ensures r == TrimEnd(s)
  {
    var t := TrimEnd(s);
    TrimEndDropsSpace(s);
    if r != [] {
      assert r[|r| - 1] == s[|r| - 1];
      SpaceAfterNonSpace(s, |t|, |r| - 1);
    }
    if t != [] {
      assert t[|t| - 1] == s[|t| - 1];
      SpaceAfterNonSpace(s, |r|, |t| - 1);
    }
    assert |r| == |t|;
  }

  /** A non-space character lies past a prefix of white space. */
  lemma SpaceBeforeNonSpace(s: string, k: int, j: int)
    requires 0 <= k <= |s|
    requires forall i :: 0 <= i < k ==> IsSpace(s[i])
    requires 0 <= j < |s| && !IsSpace(s[j])
    ensures k <= j
  {
  }

  /** A non-space character lies before a suffix of white space. */
  lemma SpaceAfterNonSpace(s: string, k: int, j: int)
    requires 0 <= k <= |s|
    requires forall i :: k <= i < |s| ==> IsSpace(s[i])
    requires 0 <= j < |s| && !IsSpace(s[j])
    ensures j < k
  {
  }

  lemma TrimStartOfSpace(w: string)
    requires AllSpace(w)
    ensures TrimStart(w) == []
  {
    TrimStartDropsSpace(w);
  }

  lemma TrimEndOfSpace(w: string)
    requires AllSpace(w)
    ensures TrimEnd(w) == []
  {
    TrimEndDropsSpace(w);
  }

  lemma TrimStartAfterSpace(w: string, s: string)
    requires AllSpace(w)
    ensures TrimStart(w + s) == TrimStart(s)
  {
    var t := TrimStart(s);
    var ws := w + s;
    TrimStartDropsSpace(s);
    assert t == ws[|ws| - |t|..];
    forall i | 0 <= i < |ws| - |t|
      ensures IsSpace(ws[i])
    {
      if i >= |w| {
        assert ws[i] == s[i - |w|];
      }
    }
    TrimStartUnique(ws, t);
  }

  lemma TrimEndBeforeSpace(s: string, w: string)
    requires AllSpace(w)
    ensures TrimEnd(s + w) == TrimEnd(s)
  {
    var t := TrimEnd(s);
    var sw := s + w;
    TrimEndDropsSpace(s);
    assert t == sw[..|t|];
    forall i | |t| <= i < |sw|
      ensures IsSpace(sw[i])
    {
      if i >= |s| {
        assert sw[i] == w[i - |s|];
      }
    }
    TrimEndUnique(sw, t);
  }

  lemma TrimStartConcat(x: string, y: string)
    requires !AllSpace(x)
    ensures TrimStart(x + y) == TrimStart(x) + y
  {
    var t := TrimStart(x);
    var xy := x + y;
    TrimStartDropsSpace(x);
    assert t != [];
    assert t + y == xy[|xy| - |t + y|..];
    TrimStartUnique(xy, t + y);
  }

  lemma TrimEndConcat(x: string, y: string)
    requires !AllSpace(y)
    ensures TrimEnd(x + y) == x + TrimEnd(y)
  {
    var t := TrimEnd(y);
    var xy := x + y;
    TrimEndDropsSpace(y);
    assert t != [];
    assert x + t == xy[..|x + t|];
    TrimEndUnique(xy, x + t);
  }

  /** `trim()` ignores white space added around its argument. */
  lemma TrimIgnoresSurroundingSpace(w1: string, s: string, w2: string)
    requires AllSpace(w1) && AllSpace(w2)
    ensures Trim(w1 + s + w2) == Trim(s)
  {
    assert w1 + s + w2 == w1 + (s + w2);
    TrimStartAfterSpace(w1, s + w2);
    if AllSpace(s) {
      assert AllSpace(s + w2);
      TrimStartOfSpace(s + w2);
      TrimStartOfSpace(s);
    } else {
      TrimStartConcat(s, w2);
      TrimEndBeforeSpace(TrimStart(s), w2);
    }
  }

  // ---- collapsing runs of white space ----

  /** The scan of a concatenation is the scan of the first part followed by
      the scan of the second, resumed in the state the first part left. */
  lemma {:induction false} SqueezeConcat(x: string, y: string, inRun: bool)
    ensures Squeeze(x + y, inRun) == Squeeze(x, inRun) + Squeeze(y, EndsInRun(x, inRun))
    decreases |x|
  {
    if x == [] {
      assert x + y == y;
    } else {
      var xy := x + y;
      assert xy[0] == x[0];
      assert xy[1..] == x[1..] + y;
      var next := IsSpace(x[0]);
      assert EndsInRun(x[1..], next) == EndsInRun(x, inRun);
      SqueezeConcat(x[1..], y, next);
      if !next {
        assert [x[0]] + (Squeeze(x[1..], false) + Squeeze(y, EndsInRun(x, inRun)))
            == ([x[0]] + Squeeze(x[1..], false)) + Squeeze(y, EndsInRun(x, inRun));
      } else if !inRun {
        assert [' '] + (Squeeze(x[1..], true) + Squeeze(y, EndsInRun(x, inRun)))
            == ([' '] + Squeeze(x[1..], true)) + Squeeze(y, EndsInRun(x, inRun));
      }
    }
  }

  /** After a non-space character the scan state no longer matters. */
  lemma SqueezeAfterRun(y: string)
    requires y == [] || !IsSpace(y[0])
    ensures Squeeze(y, true) == Squeeze(y, false)
  {
  }

  lemma {:induction false} SqueezeOfWord(p: string, inRun: bool)
    requires p != [] && IsWord(p)
    ensures Squeeze(p, inRun) == p
  {
    if |p| > 1 {
      SqueezeOfWord(p[1..], false);
    }
  }

  lemma {:induction false} SqueezeOfSpace(w: string, inRun: bool)
    requires w != [] && AllSpace(w)
    ensures Squeeze(w, inRun) == if inRun then [] else " "
  {
    if |w| > 1 {
      SqueezeOfSpace(w[1..], true);
    }
  }

  /** The last character survives collapsing when it is not white space. */
  lemma SqueezeKeepsLast(x: string, inRun: bool)
    requires x != [] && !IsSpace(x[|x| - 1])
    ensures Squeeze(x, inRun) != []
    ensures Squeeze(x, inRun)[|Squeeze(x, inRun)| - 1] == x[|x| - 1]
  {
    var init := x[..|x| - 1];
    assert x == init + [x[|x| - 1]];
    SqueezeConcat(init, [x[|x| - 1]], inRun);
  }

  /** White space occurs only as single space characters, never two in a
      row: the shape of a collapsed string. */
  predicate SingleSpaced(r: string) {
    && (forall i :: 0 <= i < |r| && IsSpace(r[i]) ==> r[i] == ' ')
    && (forall i :: 0 <= i < |r| - 1 ==> !IsSpace(r[i]) || !IsSpace(r[i + 1]))
  }

  /** Two words joined by one space are single-spaced. */
  lemma TwoWordsAreSingleSpaced(a: string, b: string)
    requires IsWord(a) && IsWord(b)
    ensures SingleSpaced(a + " " + b)
  {
    var r := a + " " + b;
    forall i | 0 <= i < |r|
      ensures r[i] == if i < |a| then a[i] else if i == |a| then ' ' else b[i - |a| - 1]
    {
    }
  }

  lemma SingleSpacedCons(c: char, rest: string)
    requires SingleSpaced(rest)
    requires IsSpace(c) ==> c == ' ' && (rest == [] || !IsSpace(rest[0]))
    ensures SingleSpaced([c] + rest)
  {
    var r := [c] + rest;
    forall i | 1 <= i < |r|
      ensures r[i] == rest[i - 1]
    {
    }
  }

  /** The result of collapsing is single-spaced, starts with a non-space
      when the scan was already in a run, and holds no character that was
      not in the input besides the space. */
  lemma {:induction false} SqueezeShape(s: string, inRun: bool)
    ensures SingleSpaced(Squeeze(s, inRun))
    ensures inRun ==> Squeeze(s, inRun) == [] || !IsSpace(Squeeze(s, inRun)[0])
    ensures forall c :: c in Squeeze(s, inRun) ==> c == ' ' || c in s
  {
    if s != [] {
      var rest := Squeeze(s[1..], IsSpace(s[0]));
      SqueezeShape(s[1..], IsSpace(s[0]));
      assert forall c :: c in s[1..] ==> c in s;
      if !IsSpace(s[0]) {
        SingleSpacedCons(s[0], rest);
      } else if !inRun {
        SingleSpacedCons(' ', rest);
      }
    }
  }

  /** A single-spaced string is left alone. */
  lemma {:induction false} SqueezeOfSqueezed(s: string, inRun: bool)
    requires SingleSpaced(s)
    requires inRun ==> s == [] || !IsSpace(s[0])
    ensures Squeeze(s, inRun) == s
  {
    if s != [] {
      assert SingleSpaced(s[1..]) by {
        forall i | 0 <= i < |s| - 1
          ensures s[1..][i] == s[i + 1]
        {
        }
      }
      SqueezeOfSqueezed(s[1..], IsSpace(s[0]));
      assert s == [s[0]] + s[1..];
    }
  }

  /** Collapsing is idempotent. */
  lemma CollapseIdempotent(s: string)
    ensures CollapseSpaces(CollapseSpaces(s)) == CollapseSpaces(s)
  {
    SqueezeShape(s, false);
    SqueezeOfSqueezed(CollapseSpaces(s), false);
  }

  /** Replacing a run of white space by one space does not change the
      collapsed form. */
  lemma CollapseSpaceRun(a: string, w: string, b: string)
    requires w != [] && AllSpace(w)
    ensures CollapseSpaces(a + w + b) == CollapseSpaces(a + " " + b)
  {
    var e := EndsInRun(a, false);
    assert a + w + b == a + (w + b);
    assert a + " " + b == a + (" " + b);
    SqueezeConcat(a, w + b, false);
    SqueezeConcat(a, " " + b, false);
    SqueezeConcat(w, b, e);
    SqueezeConcat(" ", b, e);
    SqueezeOfSpace(w, e);
    SqueezeOfSpace(" ", e);
  }

  lemma TrimStartCollapse(s: string)
    ensures TrimStart(CollapseSpaces(s)) == CollapseSpaces(TrimStart(s))
  {
    var t := TrimStart(s);
    var w := s[..|s| - |t|];
    TrimStartDropsSpace(s);
    assert s == w + t;
    CollapseAfterLeadingSpace(w, t);
    var c := CollapseSpaces(t);
    if w != [] {
      TrimStartAfterOneSpace(c);
    } else {
      assert [] + c == c;
    }
  }

  lemma TrimStartAfterOneSpace(s: string)
    ensures TrimStart(" " + s) == TrimStart(s)
  {
    assert (" " + s)[1..] == s;
  }

  /** Leading white space collapses to one space, and what follows it,
      starting with a non-space, collapses as it would alone. */
  lemma CollapseAfterLeadingSpace(w: string, t: string)
    requires AllSpace(w)
    requires t == [] || !IsSpace(t[0])
    ensures CollapseSpaces(w + t) == (if w == [] then [] else " ") + CollapseSpaces(t)
    ensures TrimStart(CollapseSpaces(t)) == CollapseSpaces(t)
  {
    SqueezeConcat(w, t, false);
    SqueezeAfterRun(t);
    if w != [] {
      SqueezeOfSpace(w, false);
    } else {
      assert w + t == t;
    }
  }

  lemma TrimEndCollapse(s: string)
    ensures TrimEnd(CollapseSpaces(s)) == CollapseSpaces(TrimEnd(s))
  {
    var s' := TrimEnd(s);
    var t := s[|s'|..];
    TrimEndDropsSpace(s);
    assert s == s' + t;
    SqueezeConcat(s', t, false);
    var c := Squeeze(s', false);
    if s' != [] {
      SqueezeKeepsLast(s', false);
    }
    assert TrimEnd(c) == c;
    if t != [] {
      SqueezeOfSpace(t, false);
      TrimEndBeforeOneSpace(c);
    } else {
      assert c + Squeeze(t, false) == c;
    }
  }

  lemma TrimEndBeforeOneSpace(s: string)
    ensures TrimEnd(s + " ") == TrimEnd(s)
  {
    assert (s + " ")[..|s|] == s;
  }

  /** Trimming twice is trimming once. */
  lemma TrimIdempotent(s: string)
    ensures Trim(Trim(s)) == Trim(s)
  {
    var u := TrimStart(s);
    var t := TrimEnd(u);
    if t != [] {
      assert t[0] == u[0];
    }
    assert TrimStart(t) == t;
  }

  /** Trimming and collapsing commute. */
  lemma TrimCollapseCommute(s: string)
    ensures Trim(CollapseSpaces(s)) == CollapseSpaces(Trim(s))
  {
    TrimStartCollapse(s);
    TrimEndCollapse(TrimStart(s));
  }

  // ---- lower-casing ----

  lemma LowerTrimStart(s: string)
    ensures Lower(TrimStart(s)) == TrimStart(Lower(s))
  {
    var t := TrimStart(s);
    var ls := Lower(s);
    TrimStartDropsSpace(s);
    assert Lower(t) == ls[|ls| - |Lower(t)|..];
    assert forall i :: 0 <= i < |s| - |t| ==> IsSpace(ls[i]) by {
      forall i | 0 <= i < |s| - |t|
        ensures IsSpace(ls[i])
      {
        assert IsSpace(s[i]);
      }
    }
    assert AllSpace(ls[..|ls| - |Lower(t)|]);
    TrimStartUnique(ls, Lower(t));
  }

  lemma LowerTrimEnd(s: string)
    ensures Lower(TrimEnd(s)) == TrimEnd(Lower(s))
  {
    var t := TrimEnd(s);
    var ls := Lower(s);
    TrimEndDropsSpace(s);
    assert Lower(t) == ls[..|Lower(t)|];
    assert forall i :: |t| <= i < |s| ==> IsSpace(ls[i]) by {
      forall i | |t| <= i < |s|
        ensures IsSpace(ls[i])
      {
        assert IsSpace(s[i]);
      }
    }
    assert AllSpace(ls[|Lower(t)|..]);
    TrimEndUnique(ls, Lower(t));
  }

  lemma LowerTrim(s: string)
    ensures Lower(Trim(s)) == Trim(Lower(s))
  {
    LowerTrimStart(s);
    LowerTrimEnd(TrimStart(s));
  }

  lemma {:induction false} LowerSqueeze(s: string, inRun: bool)
    ensures Lower(Squeeze(s, inRun)) == Squeeze(Lower(s), inRun)
  {
    if s != [] {
      var ls := Lower(s);
      assert ls[1..] == Lower(s[1..]);
      var next := IsSpace(s[0]);
      LowerSqueeze(s[1..], next);
      var rest := Squeeze(s[1..], next);
      assert Lower([s[0]] + rest) == [LowerChar(s[0])] + Lower(rest);
      assert Lower([' '] + rest) == [' '] + Lower(rest);
    }
  }

  lemma LowerCollapse(s: string)
    ensures Lower(CollapseSpaces(s)) == CollapseSpaces(Lower(s))
  {
    LowerSqueeze(s, false);
  }

  lemma LowerIdempotent(s: string)
    ensures Lower(Lower(s)) == Lower(s)
  {
  }

  // ---- words survive trimming and collapsing ----

  lemma TrimStartBeforeWord(u: string, p: string, v: string)
    requires p != [] && IsWord(p)
    ensures TrimStart(u + p + v) == TrimStart(u) + p + v
  {
    var pv := p + v;
    assert pv[0] == p[0] && !IsSpace(p[0]);
    assert u + p + v == u + pv;
    if AllSpace(u) {
      TrimStartAfterSpace(u, pv);
      TrimStartOfSpace(u);
      assert TrimStart(pv) == pv;
    } else {
      TrimStartConcat(u, pv);
    }
  }

  lemma TrimEndAfterWord(u: string, p: string, v: string)
    requires p != [] && IsWord(p)
    ensures TrimEnd(u + p + v) == u + p + TrimEnd(v)
  {
    var up := u + p;
    assert up[|up| - 1] == p[|p| - 1] && !IsSpace(p[|p| - 1]);
    if AllSpace(v) {
      TrimEndBeforeSpace(up, v);
      TrimEndOfSpace(v);
      assert TrimEnd(up) == up;
    } else {
      TrimEndConcat(up, v);
    }
  }

  /** Trimming keeps a word and whatever lies between it and the ends. */
  lemma TrimAroundWord(u: string, p: string, v: string)
    requires p != [] && IsWord(p)
    ensures Trim(u + p + v) == TrimStart(u) + p + TrimEnd(v)
  {
    TrimStartBeforeWord(u, p, v);
    TrimEndAfterWord(TrimStart(u), p, v);
  }

  /** Collapsing keeps a word and collapses each side on its own. */
  lemma CollapseAroundWord(x: string, p: string, y: string)
    requires p != [] && IsWord(p)
    ensures CollapseSpaces(x + p + y) == CollapseSpaces(x) + p + Squeeze(y, false)
  {
    assert x + p + y == x + (p + y);
    SqueezeConcat(x, p + y, false);
    var e := EndsInRun(x, false);
    SqueezeConcat(p, y, e);
    SqueezeOfWord(p, e);
  }

  /** A word (non-empty, no white space) inside `u + p + v` is still there
      after trimming and collapsing. */
  lemma WordSurvives(u: string, p: string, v: string)
    requires p != [] && IsWord(p)
    ensures Contains(CollapseSpaces(Trim(u + p + v)), p)
  {
    TrimAroundWord(u, p, v);
    CollapseAroundWord(TrimStart(u), p, TrimEnd(v));
    ContainsMiddle(CollapseSpaces(TrimStart(u)), p, Squeeze(TrimEnd(v), false));
  }
}
