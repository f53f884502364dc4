/** Line structure of a source text: `split(/\n|\r\n/)`, the joining of lines
    with "\n", and the loop of the definition lookups that turns a match index
    into a (line, column) pair by counting line breaks. */
module Lines {
  import opened Base

  /** `src.split(/\n|\r\n/)`: at each index "\n" is tried before "\r\n", so a
      lone "\r" stays inside its line. */
  function SplitLines(s: string): (ls: seq<string>)
    ensures |ls| >= 1
    ensures forall k :: 0 <= k < |ls| ==> '\n' !in ls[k]
  {
    if s == [] then [""]
    else if s[0] == '\n' then [""] + SplitLines(s[1..])
    else if |s| >= 2 && s[0] == '\r' && s[1] == '\n' then [""] + SplitLines(s[2..])
    else
      var rest := SplitLines(s[1..]);
      [[s[0]] + rest[0]] + rest[1..]
  }

  /** `lines[line]`, which is `undefined` past the end; `exec` turns that into
      the string "undefined". */
  function LineAt(ls: seq<string>, line: nat): string {
    if line < |ls| then ls[line] else "undefined"
  }

  /** A line free of line-break characters splits to itself. */
  lemma {:induction false} SplitPlain(w: string)
    requires '\n' !in w && '\r' !in w
    ensures SplitLines(w) == [w]
  {
    if w != [] {
      assert '\n' !in w[1..] && '\r' !in w[1..] by {
        forall c | c in w[1..] ensures c in w { }
      }
      assert w[0] in w;
      SplitPlain(w[1..]);
      assert [w[0]] + w[1..] == w;
    }
  }

  /** A plain line followed by "\n" is split off as the first line. */
  lemma {:induction false} SplitFirst(w: string, t: string)
    requires '\n' !in w && '\r' !in w
    ensures SplitLines(w + "\n" + t) == [w] + SplitLines(t)
  {
    if w == [] {
      assert w + "\n" + t == ['\n'] + t;
      assert (['\n'] + t)[1..] == t;
    } else {
      var u := w + "\n" + t;
      assert u[0] == w[0] && u[1..] == w[1..] + "\n" + t;
      assert '\n' !in w[1..] && '\r' !in w[1..] by {
        forall c | c in w[1..] ensures c in w { }
      }
      SplitFirst(w[1..], t);
      assert [w[0]] + w[1..] == w;
    }
  }

  /** Splitting undoes joining with "\n", for lines without "\n" or "\r". */
  lemma {:induction false} SplitJoin(ls: seq<string>)
    requires |ls| >= 1
    requires forall k :: 0 <= k < |ls| ==> '\n' !in ls[k] && '\r' !in ls[k]
    ensures SplitLines(Join(ls, "\n")) == ls
  {
    if |ls| == 1 {
      SplitPlain(ls[0]);
    } else {
      SplitFirst(ls[0], Join(ls[1..], "\n"));
      SplitJoin(ls[1..]);
    }
  }

  /** The loop's test at `i`: `/^(\n|\r\n)/` matches `src.slice(i)`. */
  predicate IsBreakAt(src: string, i: nat)
    requires i < |src|
  {
    src[i] == '\n' || (src[i] == '\r' && i + 1 < |src| && src[i + 1] == '\n')
  }

  /** The indices below `n` at which the loop counts a line break, in order. */
  function Hits(src: string, n: nat): (h: seq<nat>)
    requires n <= |src|
  {
    if n == 0 then []
    else Hits(src, n - 1) + (if IsBreakAt(src, n - 1) then [n - 1] else [])
  }

  /** `lastNewline`: the last hit, 0 when there is none. */
  function LastOr0(h: seq<nat>): nat {
    if h == [] then 0 else h[|h| - 1]
  }

  /** The hits are exactly the break positions below `n`, strictly increasing. */
  lemma {:induction false} HitsExactly(src: string, n: nat)
    requires n <= |src|
    ensures forall k: nat :: k in Hits(src, n) <==> k < n && IsBreakAt(src, k)
    ensures forall a, b :: 0 <= a < b < |Hits(src, n)| ==> Hits(src, n)[a] < Hits(src, n)[b]
  {
    if n > 0 {
      HitsExactly(src, n - 1);
      var h := Hits(src, n - 1);
      assert forall a :: 0 <= a < |h| ==> h[a] < n - 1 by {
        forall a | 0 <= a < |h| ensures h[a] < n - 1 { assert h[a] in h; }
      }
    }
  }

  /** CRLF is counted twice: once at "\r" and once at "\n". */
  lemma CrlfCountsTwice(src: string, k: nat)
    requires k + 1 < |src| && src[k] == '\r' && src[k + 1] == '\n'
    ensures Hits(src, k + 2) == Hits(src, k) + [k, k + 1]
  {
  }

  /** The newline-counting loop of the definition lookups. */
  method CountNewlines(src: string, index: nat) returns (count: nat, lastNewline: nat)
    requires index <= |src|
    ensures count == |Hits(src, index)|
    ensures lastNewline == LastOr0(Hits(src, index))
  {
    count, lastNewline := 0, 0;
    var i := 0;
    while i < index
      invariant i <= index
      invariant count == |Hits(src, i)|
      invariant lastNewline == LastOr0(Hits(src, i))
    {
      if src[i] == '\n' || (src[i] == '\r' && i + 1 < |src| && src[i + 1] == '\n') {
        count := count + 1;
        lastNewline := i;
      }
      i := i + 1;
    }
  }

  /** The lines of `t` with one more character appended to the text. */
  function AppendChar(ls: seq<string>, c: char): seq<string>
    requires |ls| >= 1
  {
    if c == '\n' then ls + [""] else ls[..|ls| - 1] + [ls[|ls| - 1] + [c]]
  }

  lemma AppendAfterEmpty(r: seq<string>, c: char)
    requires |r| >= 1
    ensures AppendChar([""] + r, c) == [""] + AppendChar(r, c)
  {
    if c != '\n' {
      assert ([""] + r)[..|r|] == [""] + r[..|r| - 1];
    }
  }

  lemma AppendAfterChar(r: seq<string>, x: char, c: char)
    requires |r| >= 1
    ensures var a := AppendChar(r, c);
      AppendChar([[x] + r[0]] + r[1..], c) == [[x] + a[0]] + a[1..]
  {
    var a := AppendChar(r, c);
    if c != '\n' {
      if |r| == 1 {
        assert [x] + (r[0] + [c]) == ([x] + r[0]) + [c];
      } else {
        SliceOfSlice(r);
        assert ([[x] + r[0]] + r[1..])[..|r| - 1] == [[x] + r[0]] + r[1..][..|r| - 2];
      }
    }
  }

  /** Splitting a text with no "\r" after appending one more character. */
  lemma {:induction false} SplitSnoc(t: string, c: char)
    requires '\r' !in t && c != '\r'
    ensures SplitLines(t + [c]) == AppendChar(SplitLines(t), c)
  {
    if t == [] {
      assert t + [c] == [c] && [c][1..] == [];
      if c == '\n' {
        assert SplitLines([c]) == [""] + SplitLines([]);
      } else {
        assert SplitLines([c]) == [[c] + ""];
        assert [c] + "" == [c] && "" + [c] == [c];
        assert AppendChar([""], c) == [[c]];
      }
    } else {
      var u := t + [c];
      assert u[0] == t[0] && u[1..] == t[1..] + [c];
      assert '\r' !in t[1..] by {
        forall x | x in t[1..] ensures x in t { }
      }
      assert t[0] in t;
      SplitSnoc(t[1..], c);
      if t[0] == '\n' {
        AppendAfterEmpty(SplitLines(t[1..]), c);
      } else {
        AppendAfterChar(SplitLines(t[1..]), t[0], c);
      }
    }
  }

  lemma SliceOfSlice(rest: seq<string>)
    requires |rest| >= 2
    ensures rest[1..][..|rest| - 2] == rest[1..|rest| - 1]
  {
  }

  /** One more character keeps the relation between the lines and the hits:
      a line break opens a new empty line, any other character lengthens the
      last one. */
  lemma LfStep(ls: seq<string>, h: seq<nat>, n: nat, c: char)
    requires |ls| >= 1 && |h| == |ls| - 1 && n >= 1
    requires |ls[|ls| - 1]| == (if h == [] then n - 1 else n - 1 - LastOr0(h) - 1)
    ensures var ls2 := AppendChar(ls, c); var h2 := h + (if c == '\n' then [n - 1] else []);
      |h2| == |ls2| - 1 &&
      |ls2[|ls2| - 1]| == (if h2 == [] then n else n - LastOr0(h2) - 1)
  {
    if c != '\n' {
      assert h + [] == h;
    }
  }

  /** A prefix of text free of "\r" before `n` is free of "\r". */
  lemma NoCr(src: string, n: nat)
    requires n <= |src|
    requires forall k :: 0 <= k < n ==> src[k] != '\r'
    ensures '\r' !in src[..n]
  {
    forall x | x in src[..n] ensures x != '\r' {
      var k :| 0 <= k < n && src[..n][k] == x;
    }
  }

  /** Outside "\r" the loop counts a position exactly when it holds "\n". */
  lemma HitsStep(src: string, n: nat)
    requires 0 < n <= |src| && src[n - 1] != '\r'
    ensures Hits(src, n) == Hits(src, n - 1) + (if src[n - 1] == '\n' then [n - 1] else [])
  {
  }

  /** In text without "\r" the loop finds the editor's position of `n`:
      `count` is the index of the last line of `src[..n]`, and that line is
      `n` characters long when there is no hit, `n - lastNewline - 1` otherwise. */
  lemma {:induction false} LfPosition(src: string, n: nat)
    requires n <= |src|
    requires forall k :: 0 <= k < n ==> src[k] != '\r'
    ensures var ls := SplitLines(src[..n]); var h := Hits(src, n);
      |h| == |ls| - 1 &&
      |ls[|ls| - 1]| == (if h == [] then n else n - LastOr0(h) - 1)
  {
    if n > 0 {
      LfPosition(src, n - 1);
      var t := src[..n - 1];
      var c := src[n - 1];
      assert src[..n] == t + [c];
      NoCr(src, n - 1);
      SplitSnoc(t, c);
      HitsStep(src, n);
      LfStep(SplitLines(t), Hits(src, n - 1), n, c);
    }
  }
}
