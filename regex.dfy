/** The part of JavaScript's regular expressions that the label scanner uses:
    literals, `\s`, `\w`, `.`, concatenation, alternation and the greedy `?`
    and `*` (with `+` derived).  `Ends` lists the positions at which a pattern
    tried at `i` can stop, in the order in which a backtracking matcher tries
    them; the first of them is the one `exec` reports.  A `*` iteration that
    consumes nothing fails, as in the RepeatMatcher of ECMAScript. */
module Regex {
  import opened Base

  datatype CharClass = Space | Word | Dot

  predicate InClass(k: CharClass, c: char) {
    match k
    case Space => IsJsSpace(c)
    case Word => IsWordChar(c)
    case Dot => !IsLineTerminator(c)
  }

  datatype Re =
    | Str(w: string)          // a literal string
    | Class(k: CharClass)     // one character of a class
    | Cat(a: Re, b: Re)       // a then b
    | Alt(a: Re, b: Re)       // a|b, a tried first
    | Opt(a: Re)              // a?, greedy
    | Star(a: Re)             // a*, greedy

  function Plus(a: Re): Re {
    Cat(a, Star(a))
  }

  /** The concatenation of several patterns. */
  function Chain(rs: seq<Re>): Re {
    if |rs| == 0 then Str("")
    else if |rs| == 1 then rs[0]
    else Cat(rs[0], Chain(rs[1..]))
  }

  /** The end positions of `r` tried at `i`, in backtracking order. */
  function Ends(r: Re, s: string, i: nat): (es: seq<nat>)
    requires i <= |s|
    ensures forall e :: e in es ==> i <= e <= |s|
    decreases |s| - i, r, 0
  {
    match r
    case Str(w) => if w <= s[i..] then [i + |w|] else []
    case Class(k) => if i < |s| && InClass(k, s[i]) then [i + 1] else []
    case Cat(a, b) => Continue(b, s, i, Ends(a, s, i))
    case Alt(a, b) => Ends(a, s, i) + Ends(b, s, i)
    case Opt(a) => Ends(a, s, i) + [i]
    case Star(a) => StarFrom(a, s, i, Ends(a, s, i)) + [i]
  }

  /** The ends of `b` tried after each of the ends `js`, in order. */
  function Continue(b: Re, s: string, lo: nat, js: seq<nat>): (es: seq<nat>)
    requires forall j :: j in js ==> lo <= j <= |s|
    ensures forall e :: e in es ==> lo <= e <= |s|
    decreases |s| - lo, b, |js|
  {
    if js == [] then []
    else
      assert js[0] in js && forall k :: k in js[1..] ==> k in js;
      Ends(b, s, js[0]) + Continue(b, s, lo, js[1..])
  }

  /** The ends of `a*` after one more iteration of `a` ending at each of `js`;
      an iteration that ends where it began is refused. */
  function StarFrom(a: Re, s: string, i: nat, js: seq<nat>): (es: seq<nat>)
    requires forall j :: j in js ==> i <= j <= |s|
    ensures forall e :: e in es ==> i < e <= |s|
    decreases |s| - i, a, |js|
  {
    if js == [] then []
    else
      assert js[0] in js && forall k :: k in js[1..] ==> k in js;
      (if js[0] > i then Ends(Star(a), s, js[0]) else []) + StarFrom(a, s, i, js[1..])
  }

  /** The ends of `b` after a single end `j`. */
  lemma ContinueOne(b: Re, s: string, lo: nat, j: nat)
    requires lo <= j <= |s|
    ensures Continue(b, s, lo, [j]) == Ends(b, s, j)
  {
    assert [j][1..] == [];
  }

  /** The strings a pattern denotes. */
  ghost predicate InLang(r: Re, w: string)
    decreases r, |w|
  {
    match r
    case Str(v) => w == v
    case Class(k) => |w| == 1 && InClass(k, w[0])
    case Cat(a, b) => exists n :: 0 <= n <= |w| && InLang(a, w[..n]) && InLang(b, w[n..])
    case Alt(a, b) => InLang(a, w) || InLang(b, w)
    case Opt(a) => w == [] || InLang(a, w)
    case Star(a) => w == [] || exists n :: 0 < n <= |w| && InLang(a, w[..n]) && InLang(Star(a), w[n..])
  }

  /** Every end the matcher tries spans a string of the pattern's language. */
  lemma {:induction false} EndsSound(r: Re, s: string, i: nat, e: nat)
    requires i <= |s| && e in Ends(r, s, i)
    ensures e <= |s| && InLang(r, s[i..e])
    decreases |s| - i, r, 0
  {
    match r
    case Str(w) =>
    case Class(k) =>
    case Cat(a, b) =>
      var j := ContinueSound(b, s, i, Ends(a, s, i), e);
      EndsSound(a, s, i, j);
      var w := s[i..e];
      assert w[..j - i] == s[i..j] && w[j - i..] == s[j..e];
    case Alt(a, b) =>
      if e in Ends(a, s, i) { EndsSound(a, s, i, e); } else { EndsSound(b, s, i, e); }
    case Opt(a) =>
      if e in Ends(a, s, i) { EndsSound(a, s, i, e); }
    case Star(a) =>
      if e in StarFrom(a, s, i, Ends(a, s, i)) {
        var j := StarFromSound(a, s, i, Ends(a, s, i), e);
        EndsSound(a, s, i, j);
        var w := s[i..e];
        assert w[..j - i] == s[i..j] && w[j - i..] == s[j..e];
      }
  }

  /** An end of `Continue` is an end of `b` after one of `js`, and is sound. */
  lemma {:induction false} ContinueSound(b: Re, s: string, lo: nat, js: seq<nat>, e: nat) returns (j: nat)
    requires forall j :: j in js ==> lo <= j <= |s|
    requires e in Continue(b, s, lo, js)
    ensures j in js && j <= e <= |s| && InLang(b, s[j..e])
    decreases |s| - lo, b, |js|
  {
    assert js[0] in js && forall k :: k in js[1..] ==> k in js;
    if e in Ends(b, s, js[0]) {
      j := js[0];
      EndsSound(b, s, j, e);
    } else {
      j := ContinueSound(b, s, lo, js[1..], e);
    }
  }

  /** An end of `StarFrom` follows a non-empty iteration ending at one of `js`. */
  lemma {:induction false} StarFromSound(a: Re, s: string, i: nat, js: seq<nat>, e: nat) returns (j: nat)
    requires forall j :: j in js ==> i <= j <= |s|
    requires e in StarFrom(a, s, i, js)
    ensures j in js && i < j <= e <= |s| && InLang(Star(a), s[j..e])
    decreases |s| - i, a, |js|
  {
    assert js[0] in js && forall k :: k in js[1..] ==> k in js;
    if js[0] > i && e in Ends(Star(a), s, js[0]) {
      j := js[0];
      EndsSound(Star(a), s, j, e);
    } else {
      j := StarFromSound(a, s, i, js[1..], e);
    }
  }

  /** Conversely, every string of the pattern's language that starts at `i`
      is among the ends the matcher tries there: no alternative is lost. */
  lemma {:induction false} EndsComplete(r: Re, s: string, i: nat, e: nat)
    requires i <= e <= |s| && InLang(r, s[i..e])
    ensures e in Ends(r, s, i)
    decreases |s| - i, r, 1
  {
    match r
    case Str(v) =>
      assert s[i..] == s[i..e] + s[e..];
    case Class(k) =>
    case Cat(a, b) => CatComplete(a, b, s, i, e);
    case Alt(a, b) =>
      if InLang(a, s[i..e]) { EndsComplete(a, s, i, e); } else { EndsComplete(b, s, i, e); }
    case Opt(a) =>
      if s[i..e] != [] { EndsComplete(a, s, i, e); }
    case Star(a) =>
      if s[i..e] != [] { StarComplete(a, s, i, e); }
  }

  /** The Cat case of `EndsComplete`: split the string where `a` stops. */
  lemma {:induction false} CatComplete(a: Re, b: Re, s: string, i: nat, e: nat)
    requires i <= e <= |s| && InLang(Cat(a, b), s[i..e])
    ensures e in Ends(Cat(a, b), s, i)
    decreases |s| - i, Cat(a, b), 0
  {
    var j := CatAt(a, b, s, i, e);
    EndsComplete(a, s, i, j);
    EndsComplete(b, s, j, e);
    var js := Ends(a, s, i);
    ContinueHas(b, s, i, js, j, e);
    assert Ends(Cat(a, b), s, i) == Continue(b, s, i, js);
  }

  /** The Star case of `EndsComplete` for a non-empty string: split it after
      the first iteration, which consumes something. */
  lemma {:induction false} StarComplete(a: Re, s: string, i: nat, e: nat)
    requires i < e <= |s| && InLang(Star(a), s[i..e])
    ensures e in Ends(Star(a), s, i)
    decreases |s| - i, Star(a), 0
  {
    var j := StarAt(a, s, i, e);
    EndsComplete(a, s, i, j);
    EndsComplete(Star(a), s, j, e);
    var js := Ends(a, s, i);
    StarFromHas(a, s, i, js, j, e);
    assert Ends(Star(a), s, i) == StarFrom(a, s, i, js) + [i];
  }

  /** Where a string of `a b` inside `s` splits into a string of `a` and one of `b`. */
  lemma CatAt(a: Re, b: Re, s: string, i: nat, e: nat) returns (j: nat)
    requires i <= e <= |s| && InLang(Cat(a, b), s[i..e])
    ensures i <= j <= e && InLang(a, s[i..j]) && InLang(b, s[j..e])
  {
    var w := s[i..e];
    var n := CatSplit(a, b, w);
    j := i + n;
    assert w[..n] == s[i..j];
    assert w[n..] == s[j..e];
  }

  /** Where a non-empty string of `a*` inside `s` ends its first iteration. */
  lemma StarAt(a: Re, s: string, i: nat, e: nat) returns (j: nat)
    requires i < e <= |s| && InLang(Star(a), s[i..e])
    ensures i < j <= e && InLang(a, s[i..j]) && InLang(Star(a), s[j..e])
  {
    var w := s[i..e];
    var n := StarSplit(a, w);
    j := i + n;
    assert w[..n] == s[i..j];
    assert w[n..] == s[j..e];
  }

  /** An end of `b` after one of `js` is an end of `Continue`. */
  lemma {:induction false} ContinueHas(b: Re, s: string, lo: nat, js: seq<nat>, j: nat, e: nat)
    requires forall j :: j in js ==> lo <= j <= |s|
    requires j in js && j <= |s| && e in Ends(b, s, j)
    ensures e in Continue(b, s, lo, js)
    decreases |js|
  {
    assert js[0] in js && forall k :: k in js[1..] ==> k in js;
    if js[0] != j {
      assert j in js[1..];
      ContinueHas(b, s, lo, js[1..], j, e);
    }
  }

  /** An end of `a*` after a non-empty iteration ending at one of `js` is an
      end of `StarFrom`. */
  lemma {:induction false} StarFromHas(a: Re, s: string, i: nat, js: seq<nat>, j: nat, e: nat)
    requires forall j :: j in js ==> i <= j <= |s|
    requires j in js && i < j <= |s| && e in Ends(Star(a), s, j)
    ensures e in StarFrom(a, s, i, js)
    decreases |js|
  {
    assert js[0] in js && forall k :: k in js[1..] ==> k in js;
    if js[0] != j {
      assert j in js[1..];
      StarFromHas(a, s, i, js[1..], j, e);
    }
  }

  /** What `exec` returns: where the match starts and the matched text. */
  datatype Match = Match(index: nat, text: string)

  /** `exec` with `lastIndex` 0: the leftmost start at which the pattern
      matches, with the first end tried there. */
  function Exec(r: Re, s: string): (m: Option<Match>)
    ensures m.Some? ==> m.value.index + |m.value.text| <= |s|
    ensures m.Some? ==> s[m.value.index..m.value.index + |m.value.text|] == m.value.text
    ensures m.Some? ==> InLang(r, m.value.text)
    ensures m.Some? ==> forall p :: 0 <= p < m.value.index ==> Ends(r, s, p) == []
    ensures m.None? ==> forall p :: 0 <= p <= |s| ==> Ends(r, s, p) == []
  {
    ExecFromFound(r, s, 0);
    ExecFromFirst(r, s, 0);
    ExecFrom(r, s, 0)
  }

  /** The scan of `exec` from start `p` on. */
  function ExecFrom(r: Re, s: string, p: nat): (m: Option<Match>)
    requires p <= |s|
    ensures m.Some? ==> p <= m.value.index <= |s|
    decreases |s| - p
  {
    var es := Ends(r, s, p);
    if es != [] then
      assert es[0] in es;
      Some(Match(p, s[p..es[0]]))
    else if p == |s| then None
    else ExecFrom(r, s, p + 1)
  }

  /** A match found from `p` on is a string of the pattern inside the text. */
  lemma {:induction false} ExecFromFound(r: Re, s: string, p: nat)
    requires p <= |s|
    ensures var m := ExecFrom(r, s, p);
      m.Some? ==> m.value.index + |m.value.text| <= |s| &&
                  s[m.value.index..m.value.index + |m.value.text|] == m.value.text &&
                  InLang(r, m.value.text)
    decreases |s| - p
  {
    var es := Ends(r, s, p);
    if es != [] {
      EndsSound(r, s, p, es[0]);
    } else if p < |s| {
      ExecFromFound(r, s, p + 1);
    }
  }

  /** No start between `p` and a match found from `p` matches, and no start
      from `p` on matches when none is found. */
  lemma {:induction false} ExecFromFirst(r: Re, s: string, p: nat)
    requires p <= |s|
    ensures var m := ExecFrom(r, s, p);
      (m.Some? ==> forall q :: p <= q < m.value.index ==> Ends(r, s, q) == []) &&
      (m.None? ==> forall q :: p <= q <= |s| ==> Ends(r, s, q) == [])
    decreases |s| - p
  {
    if Ends(r, s, p) == [] && p < |s| {
      ExecFromFirst(r, s, p + 1);
    }
  }

  /** `exec` misses no match: where a string of the pattern's language
      starts at `p` in the text, `exec` reports a match starting at `p` or
      earlier.  With the soundness clauses of `Exec`, "no match" means no
      substring of the text is in the language. */
  lemma ExecComplete(r: Re, s: string, p: nat, e: nat)
    requires p <= e <= |s| && InLang(r, s[p..e])
    ensures Exec(r, s).Some? && Exec(r, s).value.index <= p
  {
    EndsComplete(r, s, p, e);
  }

  /** A string of `a` followed by `b` splits into the two parts. */
  lemma CatSplit(a: Re, b: Re, t: string) returns (n: nat)
    requires InLang(Cat(a, b), t)
    ensures n <= |t| && InLang(a, t[..n]) && InLang(b, t[n..])
  {
    n :| 0 <= n <= |t| && InLang(a, t[..n]) && InLang(b, t[n..]);
  }

  /** A non-empty string of `a*` has a non-empty first iteration. */
  lemma StarSplit(a: Re, t: string) returns (n: nat)
    requires t != [] && InLang(Star(a), t)
    ensures 0 < n <= |t| && InLang(a, t[..n]) && InLang(Star(a), t[n..])
  {
    n :| 0 < n <= |t| && InLang(a, t[..n]) && InLang(Star(a), t[n..]);
  }

  /** A string of `k+` starts with a character of class `k`. */
  lemma PlusHead(k: CharClass, t: string)
    requires InLang(Plus(Class(k)), t)
    ensures |t| > 0 && InClass(k, t[0])
  {
    var n := CatSplit(Class(k), Star(Class(k)), t);
    assert t[..n][0] == t[0];
  }

  /** Every character of a string of `k*` is of class `k`. */
  lemma {:induction false} StarClassAll(k: CharClass, t: string)
    requires InLang(Star(Class(k)), t)
    ensures forall i :: 0 <= i < |t| ==> InClass(k, t[i])
    decreases |t|
  {
    if t != [] {
      var n := StarSplit(Class(k), t);
      StarClassAll(k, t[n..]);
      assert n == 1 && t[0] == t[..n][0];
      assert forall i :: 1 <= i < |t| ==> t[i] == t[n..][i - 1];
    }
  }

  /** A string of `k+` is a non-empty run of characters of class `k`. */
  lemma PlusClassAll(k: CharClass, t: string)
    requires InLang(Plus(Class(k)), t)
    ensures |t| > 0 && forall i :: 0 <= i < |t| ==> InClass(k, t[i])
  {
    var n := CatSplit(Class(k), Star(Class(k)), t);
    StarClassAll(k, t[n..]);
    assert n == 1 && t[0] == t[..n][0];
    assert forall i :: 1 <= i < |t| ==> t[i] == t[n..][i - 1];
  }

  /** Where the suffix of `t` from `m` is a string of `a b`, a later suffix is
      a string of `b`. */
  lemma CatRest(a: Re, b: Re, t: string, m: nat) returns (m2: nat)
    requires m <= |t| && InLang(Cat(a, b), t[m..])
    ensures m <= m2 <= |t| && InLang(a, t[m..m2]) && InLang(b, t[m2..])
  {
    var n := CatSplit(a, b, t[m..]);
    m2 := m + n;
    assert t[m..][..n] == t[m..m2];
    assert t[m..][n..] == t[m2..];
  }

  /** `exec` finds nothing exactly when no substring of the text is a string
      of the pattern's language. */
  lemma ExecNone(r: Re, s: string)
    ensures Exec(r, s).None? <==> forall p, e :: 0 <= p <= e <= |s| ==> !InLang(r, s[p..e])
  {
    if Exec(r, s).None? {
      forall p, e | 0 <= p <= e <= |s| ensures !InLang(r, s[p..e]) {
        if InLang(r, s[p..e]) { ExecComplete(r, s, p, e); }
      }
    } else {
      var m := Exec(r, s).value;
      assert InLang(r, s[m.index..m.index + |m.text|]);
    }
  }

  /** A match of a pattern that begins with a literal begins with that literal. */
  lemma StartsWithLiteral(w: string, b: Re, t: string)
    requires InLang(Cat(Str(w), b), t)
    ensures w <= t
  {
    var n :| 0 <= n <= |t| && InLang(Str(w), t[..n]) && InLang(b, t[n..]);
  }

  /** The length of the longest suffix of `t` made of word characters. */
  function WordRun(t: string): (n: nat)
    ensures n <= |t|
    ensures forall k :: |t| - n <= k < |t| ==> IsWordChar(t[k])
    ensures n < |t| ==> !IsWordChar(t[|t| - n - 1])
  {
    if t != [] && IsWordChar(t[|t| - 1]) then WordRun(t[..|t| - 1]) + 1 else 0
  }

  /** The longest suffix of `t` made of word characters: the text of a final
      `\w+` group that follows a non-word character. */
  function WordSuffix(t: string): (g: string)
    ensures |g| <= |t| && g == t[|t| - |g|..]
    ensures forall k :: 0 <= k < |g| ==> IsWordChar(g[k])
    ensures |g| < |t| ==> !IsWordChar(t[|t| - |g| - 1])
  {
    t[|t| - WordRun(t)..]
  }
}
