/** The patterns that recognise CLE pragmas in C source: references
    `#pragma cle begin|end <label>` and definitions
    `#pragma cle def <label> {...}` whose body may continue over lines that
    end in a backslash. */
module Pragmas {
  import opened Base
  import opened Regex

  const S: Re := Class(Space)
  const W: Re := Class(Word)
  const D: Re := Class(Dot)

  /** `(begin|end)?` of `LabelRe`. */
  const BeginEnd: Re := Opt(Alt(Str("begin"), Str("end")))

  /** `/#pragma\s+cle\s+(begin|end)?\s+(\w+)/` of util.ts. */
  const LabelRe: Re :=
    Cat(Str("#pragma"), Cat(Plus(S), Cat(Str("cle"), Cat(Plus(S), Cat(BeginEnd, Cat(Plus(S), Plus(W)))))))

  /** `/#pragma\s+cle\s+def\s+(\w+)(\s+{(.*\\\s*\n)*.*})/` of util.ts: it
      matches the definition of any label. */
  const AnyDefRe: Re :=
    Chain([Str("#pragma"), Plus(S), Str("cle"), Plus(S), Str("def"), Plus(S), Plus(W),
           Plus(S), Str("{"), Star(Chain([Star(D), Str("\\"), Star(S), Str("\n")])),
           Star(D), Str("}")])

  /** `/(#pragma cle) (begin |end )?(\w+)/` of the definition and hover
      lookups: single spaces only. */
  const RefRe: Re :=
    Cat(Str("#pragma cle"), Cat(Str(" "), Cat(RefBeginEnd, Plus(W))))

  /** `(begin |end )?` of `RefRe`. */
  const RefBeginEnd: Re := Opt(Alt(Str("begin "), Str("end ")))

  /** The body part `(\s+{(.*\\\n)*.*})` of a definition. */
  const DefBodyRe: Re :=
    Chain([Plus(S), Str("{"), Star(Cat(Star(D), Str("\\\n"))), Star(D), Str("}")])

  /** `new RegExp("(#pragma cle def) " + name + "(\\s+{(.*\\\\\\n)*.*})")`:
      the label is spliced into the pattern source; a label of word
      characters only stands for itself. */
  function DefRe(name: string): Re {
    Cat(Str("#pragma cle def " + name), DefBodyRe)
  }

  /** The last group `(\w+)` of a pattern that puts a non-word character
      before it: whatever way the matched text splits into that character's
      side and the group, the group is the text's longest word suffix. */
  lemma GroupIsWordSuffix(u: string, g: string)
    requires |u| > 0 && !IsWordChar(u[|u| - 1])
    requires forall k :: 0 <= k < |g| ==> IsWordChar(g[k])
    ensures WordSuffix(u + g) == g
  {
    GroupRun(u, g);
    assert (u + g)[|u + g| - |g|..] == g;
  }

  /** The word run of that text is the group. */
  lemma {:induction false} GroupRun(u: string, g: string)
    requires |u| > 0 && !IsWordChar(u[|u| - 1])
    requires forall k :: 0 <= k < |g| ==> IsWordChar(g[k])
    ensures WordRun(u + g) == |g|
    decreases |g|
  {
    if g == [] {
      assert u + g == u;
    } else {
      var t := u + g;
      assert t[..|t| - 1] == u + g[..|g| - 1];
      GroupRun(u, g[..|g| - 1]);
    }
  }

  /** A text whose characters from `n` on are word characters, after a
      non-word character, has those characters as its word suffix. */
  lemma GroupFrom(t: string, n: nat)
    requires 0 < n < |t| && !IsWordChar(t[n - 1])
    requires forall i :: n <= i < |t| ==> IsWordChar(t[i])
    ensures WordSuffix(t) == t[n..]
  {
    assert t[..n] + t[n..] == t;
    GroupIsWordSuffix(t[..n], t[n..]);
  }

  /** The suffix of `t` from `m` is a string of `\s+\w+`: the word run that
      ends `t` starts at `n`, right after a white-space character, and is
      the word suffix of `t`. */
  lemma SpaceThenWord(t: string, m: nat) returns (n: nat)
    requires m <= |t| && InLang(Cat(Plus(S), Plus(W)), t[m..])
    ensures m < n < |t| && IsJsSpace(t[n - 1])
    ensures WordSuffix(t) == t[n..] && forall i :: n <= i < |t| ==> IsWordChar(t[i])
  {
    n := CatRest(Plus(S), Plus(W), t, m);
    PlusClassAll(Space, t[m..n]);
    PlusClassAll(Word, t[n..]);
    assert t[n - 1] == t[m..n][n - 1 - m];
    assert forall i :: n <= i < |t| ==> t[i] == t[n..][i - n];
    GroupFrom(t, n);
  }

  /** Where `LabelRe` begins its three white-space runs in a string of it:
      the one after "#pragma", the one after "cle", and the one before the
      label, which is the word run that ends the string. */
  lemma LabelReSpaces(t: string) returns (i: nat, j: nat, k: nat)
    requires InLang(LabelRe, t)
    ensures i < j < k < |t| - 1 && IsJsSpace(t[i]) && IsJsSpace(t[j]) && IsJsSpace(t[k])
    ensures WordSuffix(t) == t[k + 1..] && forall c :: k < c < |t| ==> IsWordChar(t[c])
  {
    var m;
    i, j, m := LabelReHead(t);
    k := LabelReTail(t, m);
  }

  /** The part of a `LabelRe` string from `(begin|end)?` on: its last
      white-space run ends at `k`, right before the label. */
  lemma LabelReTail(t: string, m: nat) returns (k: nat)
    requires m <= |t| && InLang(Cat(BeginEnd, Cat(Plus(S), Plus(W))), t[m..])
    ensures m <= k < |t| - 1 && IsJsSpace(t[k])
    ensures WordSuffix(t) == t[k + 1..] && forall c :: k < c < |t| ==> IsWordChar(t[c])
  {
    var m2 := CatRest(BeginEnd, Cat(Plus(S), Plus(W)), t, m);
    var n := SpaceThenWord(t, m2);
    k := n - 1;
  }

  /** The part of a `LabelRe` string up to `(begin|end)?`: its first two
      white-space runs start at `i` and `j`. */
  lemma LabelReHead(t: string) returns (i: nat, j: nat, m: nat)
    requires InLang(LabelRe, t)
    ensures i < j < m <= |t| && IsJsSpace(t[i]) && IsJsSpace(t[j])
    ensures InLang(Cat(BeginEnd, Cat(Plus(S), Plus(W))), t[m..])
  {
    var r4 := Cat(BeginEnd, Cat(Plus(S), Plus(W)));
    var r2 := Cat(Str("cle"), Cat(Plus(S), r4));
    assert t[0..] == t;
    var m1 := CatRest(Str("#pragma"), Cat(Plus(S), r2), t, 0);
    var m2 := SpaceRun(r2, t, m1);
    var m3 := CatRest(Str("cle"), Cat(Plus(S), r4), t, m2);
    m := SpaceRun(r4, t, m3);
    i, j := m1, m3;
  }

  /** The suffix of `t` from `m` is a string of `\s+` followed by one of `b`:
      it starts with a white-space character. */
  lemma SpaceRun(b: Re, t: string, m: nat) returns (m2: nat)
    requires m <= |t| && InLang(Cat(Plus(S), b), t[m..])
    ensures m < m2 <= |t| && IsJsSpace(t[m]) && InLang(b, t[m2..])
  {
    m2 := CatRest(Plus(S), b, t, m);
    PlusHead(Space, t[m..m2]);
    assert t[m] == t[m..m2][0];
  }

  /** The label group of a `LabelRe` match: a non-empty run of word
      characters ending the match, right after a white-space character. */
  lemma LabelReGroup(t: string)
    requires InLang(LabelRe, t)
    ensures var g := WordSuffix(t); 0 < |g| < |t| && IsJsSpace(t[|t| - |g| - 1])
  {
    var i, j, k := LabelReSpaces(t);
    assert |t| - |WordSuffix(t)| - 1 == k;
  }

  /** The label group of a `RefRe` match: a non-empty run of word characters
      ending the match, right after a space. */
  lemma RefReGroup(t: string)
    requires InLang(RefRe, t)
    ensures var g := WordSuffix(t); 0 < |g| < |t| && t[|t| - |g| - 1] == ' '
  {
    assert t[0..] == t;
    var m1 := CatRest(Str("#pragma cle"), Cat(Str(" "), Cat(RefBeginEnd, Plus(W))), t, 0);
    var m2 := SpaceChar(Cat(RefBeginEnd, Plus(W)), t, m1);
    var m3 := CatRest(RefBeginEnd, Plus(W), t, m2);
    RefBeginEndSpace(t[m2..m3]);
    if m3 > m2 {
      assert t[m3 - 1] == t[m2..m3][m3 - 1 - m2];
    }
    WordTail(t, m3);
    GroupFrom(t, m3);
  }

  /** The suffix of `t` from `m` is a space followed by a string of `b`. */
  lemma SpaceChar(b: Re, t: string, m: nat) returns (m2: nat)
    requires m <= |t| && InLang(Cat(Str(" "), b), t[m..])
    ensures m2 == m + 1 <= |t| && t[m] == ' ' && InLang(b, t[m2..])
  {
    m2 := CatRest(Str(" "), b, t, m);
    assert t[m..m2] == " " && t[m] == t[m..m2][0];
  }

  /** The suffix of `t` from `m` is a string of `\w+`. */
  lemma WordTail(t: string, m: nat)
    requires m <= |t| && InLang(Plus(W), t[m..])
    ensures m < |t| && forall c :: m <= c < |t| ==> IsWordChar(t[c])
  {
    PlusClassAll(Word, t[m..]);
    assert forall c :: m <= c < |t| ==> t[c] == t[m..][c - m];
  }

  /** `(begin |end )?` matches nothing or text ending in a space. */
  lemma RefBeginEndSpace(w: string)
    requires InLang(RefBeginEnd, w)
    ensures w == [] || w[|w| - 1] == ' '
  {
    if w != [] {
      assert InLang(Alt(Str("begin "), Str("end ")), w);
      assert w == "begin " || w == "end ";
    }
  }

  /** The part of a text `t` from `n` on, and the character before it, in
      terms of a line that holds `t` at `p`. */
  lemma SliceAt(l: string, p: nat, t: string, n: nat)
    requires p + |t| <= |l| && l[p..p + |t|] == t && 0 < n <= |t|
    ensures l[p + n..p + |t|] == t[n..] && l[p + n - 1] == t[n - 1]
  {
    assert l[p + n..p + |t|] == l[p..p + |t|][n..];
    assert l[p + n - 1] == l[p..p + |t|][n - 1];
  }

  /** Where the label group of a match `m` in a line lies: a group that is
      a proper, non-empty suffix of the match ends the match at `e`, and the
      match starts at `p` before the character that precedes the group. */
  lemma GroupPlace(l: string, m: Match) returns (p: nat, e: nat)
    requires m.index + |m.text| <= |l| && l[m.index..m.index + |m.text|] == m.text
    requires 0 < |RefLabel(m)| < |m.text|
    ensures var x := RefLabel(m);
      0 <= p < e - |x| && e <= |l| && l[p..e] == m.text &&
      l[e - |x|..e] == x && l[e - |x| - 1] == m.text[|m.text| - |x| - 1]
  {
    var t := m.text;
    var n := |t| - |WordSuffix(t)|;
    p, e := m.index, m.index + |t|;
    SliceAt(l, p, t, n);
  }

  /** A line `#pragma cle X` with one space before a label of word
      characters holds no string of `LabelRe` anywhere: the pattern needs
      white space after "#pragma", after "cle" and again before the label,
      and the line has only two white-space characters. */
  lemma OneSpaceRefused(x: string)
    requires forall c :: 0 <= c < |x| ==> IsWordChar(x[c])
    ensures Exec(LabelRe, "#pragma cle " + x).None?
  {
    var s := "#pragma cle " + x;
    forall p, e | 0 <= p <= e <= |s| ensures !InLang(LabelRe, s[p..e]) {
      if InLang(LabelRe, s[p..e]) {
        var i, j, k := LabelReSpaces(s[p..e]);
        OneSpaceAt(x, p, e, i);
        OneSpaceAt(x, p, e, j);
        OneSpaceAt(x, p, e, k);
        assert false;
      }
    }
    ExecNone(LabelRe, s);
  }

  /** The white-space characters of `#pragma cle X` are at 7 and 11. */
  lemma OneSpaceAt(x: string, p: nat, e: nat, i: nat)
    requires forall c :: 0 <= c < |x| ==> IsWordChar(x[c])
    requires p <= e <= 12 + |x| && i < e - p
    requires IsJsSpace(("#pragma cle " + x)[p..e][i])
    ensures p + i == 7 || p + i == 11
  {
    var s := "#pragma cle " + x;
    var q := p + i;
    assert s[p..e][i] == s[q];
  }

  /** A definition line read with `RefRe`: `(begin |end )?` matches
      nothing, so the match stops at the end of "def" and the label group
      is "def" itself, whatever follows. */
  lemma DefLineRef(x: string)
    ensures Exec(RefRe, "#pragma cle def " + x) == Some(Match(0, "#pragma cle def"))
    ensures RefLabel(Match(0, "#pragma cle def")) == "def"
  {
    var s := "#pragma cle def " + x;
    assert s[..11] == "#pragma cle" && s[11] == ' ' && s[12] == 'd';
    StrAt("#pragma cle", s, 0);
    StrAt(" ", s, 11);
    StrNotAt("begin ", s, 12);
    StrNotAt("end ", s, 12);
    DefLineWord(x);
    assert Ends(RefBeginEnd, s, 12) == [12];
    ContinueOne(Plus(W), s, 12, 12);
    ContinueOne(Cat(RefBeginEnd, Plus(W)), s, 11, 12);
    ContinueOne(Cat(Str(" "), Cat(RefBeginEnd, Plus(W))), s, 0, 11);
    assert Ends(RefRe, s, 0) == [15, 14, 13];
    assert s[0..15] == "#pragma cle def";
    assert "#pragma cle " + "def" == "#pragma cle def";
    GroupIsWordSuffix("#pragma cle ", "def");
  }

  /** A literal that the text holds at `i` ends there once. */
  lemma StrAt(w: string, s: string, i: nat)
    requires i + |w| <= |s| && s[i..i + |w|] == w
    ensures Ends(Str(w), s, i) == [i + |w|]
  {
    assert s[i..][..|w|] == s[i..i + |w|];
  }

  /** A literal whose first character differs from the text's at `i` has no
      end there. */
  lemma StrNotAt(w: string, s: string, i: nat)
    requires i < |s| && |w| > 0 && w[0] != s[i]
    ensures Ends(Str(w), s, i) == []
  {
  }

  /** `\w+` at the "def" of a definition line ends after three, two or
      one of its letters, longest first. */
  lemma DefLineWord(x: string)
    ensures Ends(Plus(W), "#pragma cle def " + x, 12) == [15, 14, 13]
  {
    var s := "#pragma cle def " + x;
    assert s[12] == 'd' && s[13] == 'e' && s[14] == 'f' && s[15] == ' ';
    StarWordStop(s, 15);
    StarWordStep(s, 14);
    StarWordStep(s, 13);
    assert Ends(W, s, 12) == [13];
    ContinueOne(Star(W), s, 12, 13);
  }

  /** `\w*` at a word character tries the longer ends first. */
  lemma StarWordStep(s: string, i: nat)
    requires i < |s| && IsWordChar(s[i])
    ensures Ends(Star(W), s, i) == Ends(Star(W), s, i + 1) + [i]
  {
    assert Ends(W, s, i) == [i + 1];
    assert [i + 1][1..] == [];
    assert StarFrom(W, s, i, [i + 1]) == Ends(Star(W), s, i + 1) + StarFrom(W, s, i, []);
  }

  /** `\w*` before a character that is not a word character ends at once. */
  lemma StarWordStop(s: string, i: nat)
    requires i < |s| && !IsWordChar(s[i])
    ensures Ends(Star(W), s, i) == [i]
  {
    assert Ends(W, s, i) == [];
  }

  /** The label a reference line yields: the `(\w+)` group of the match. */
  function RefLabel(m: Match): string {
    WordSuffix(m.text)
  }

  /** A definition match for `name` starts with the name itself, followed by
      a space character, so the definition names exactly `name`. */
  lemma DefReNamesLabel(name: string, t: string)
    requires InLang(DefRe(name), t)
    ensures "#pragma cle def " + name <= t
    ensures var n := |"#pragma cle def " + name|; n < |t| && IsJsSpace(t[n])
  {
    var p := "#pragma cle def " + name;
    var n := CatSplit(Str(p), DefBodyRe, t);
    var b := t[n..];
    var m := CatSplit(Plus(S), Chain([Str("{"), Star(Cat(Star(D), Str("\\\n"))), Star(D), Str("}")]), b);
    PlusHead(Space, b[..m]);
    assert b[..m][0] == t[n];
  }
}
