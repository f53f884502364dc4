/** The scan the definition lookups share: the files are read one at a time
    in walk order and the first whose text matches the pattern answers. */
module Search {
  import opened Base
  import opened Regex
  import opened SourceSet

  /** The file that answered, its text and the match in it. */
  datatype Hit = Hit(path: string, src: string, m: Match)

  /** The hit's match lies in its text. */
  predicate Placed(h: Hit) {
    h.m.index + |h.m.text| <= |h.src| && h.src[h.m.index..h.m.index + |h.m.text|] == h.m.text
  }

  function HitIn(f: SourceFile, re: Re): (h: Option<Hit>)
    requires f.contents.Some?
    ensures h.Some? ==> Placed(h.value)
  {
    match Exec(re, f.contents.value)
    case Some(m) => Some(Hit(f.path, f.contents.value, m))
    case None => None
  }

  /** The scan of `getCLEDefinition` and `makeDefinition`: a file that cannot
      be read rejects the whole lookup. */
  function FirstStrict(files: seq<SourceFile>, re: Re): (r: Result<Option<Hit>>)
    ensures r.Ok? && r.value.Some? ==> Placed(r.value.value)
  {
    if files == [] then Ok(None)
    else if files[0].contents.None? then Err(FsError)
    else if HitIn(files[0], re).Some? then Ok(HitIn(files[0], re))
    else FirstStrict(files[1..], re)
  }

  /** The scan of `makeHover`: a file that cannot be read is skipped. */
  function FirstLenient(files: seq<SourceFile>, re: Re): (h: Option<Hit>)
    ensures h.Some? ==> Placed(h.value)
  {
    if files == [] then None
    else if files[0].contents.Some? && HitIn(files[0], re).Some? then HitIn(files[0], re)
    else FirstLenient(files[1..], re)
  }

  /** The loop of `getCLEDefinition` and `makeDefinition` over the files:
      read each in turn (a failed read is not caught) and stop at the first
      match. */
  method ScanStrict(files: seq<SourceFile>, re: Re) returns (r: Result<Option<Hit>>)
    ensures r == FirstStrict(files, re)
  {
    var k := 0;
    while k < |files|
      invariant k <= |files|
      invariant FirstStrict(files, re) == FirstStrict(files[k..], re)
    {
      assert files[k..][1..] == files[k + 1..];
      assert files[k..][0] == files[k];
      if files[k].contents.None? {
        return Err(FsError);
      }
      var src := files[k].contents.value;
      var m := Exec(re, src);
      if m.Some? {
        return Ok(Some(Hit(files[k].path, src, m.value)));
      }
      k := k + 1;
    }
    return Ok(None);
  }

  /** The loop of `makeHover`: a failed read is logged and skipped. */
  method ScanLenient(files: seq<SourceFile>, re: Re) returns (r: Option<Hit>)
    ensures r == FirstLenient(files, re)
  {
    var k := 0;
    while k < |files|
      invariant k <= |files|
      invariant FirstLenient(files, re) == FirstLenient(files[k..], re)
    {
      assert files[k..][1..] == files[k + 1..];
      assert files[k..][0] == files[k];
      if files[k].contents.None? {
        k := k + 1;
        continue;
      }
      var src := files[k].contents.value;
      var m := Exec(re, src);
      if m.Some? {
        return Some(Hit(files[k].path, src, m.value));
      }
      k := k + 1;
    }
    return None;
  }

  /** The files before `k` are readable and do not match. */
  ghost predicate Misses(files: seq<SourceFile>, re: Re, k: nat)
    requires k <= |files|
  {
    forall j :: 0 <= j < k ==> files[j].contents.Some? && HitIn(files[j], re).None?
  }

  /** The files before `k` are unreadable or do not match. */
  ghost predicate Skips(files: seq<SourceFile>, re: Re, k: nat)
    requires k <= |files|
  {
    forall j :: 0 <= j < k ==> files[j].contents.None? || HitIn(files[j], re).None?
  }

  /** A hit reports a match of the pattern at its place in the file. */
  lemma HitSound(f: SourceFile, re: Re)
    requires f.contents.Some? && HitIn(f, re).Some?
    ensures var h := HitIn(f, re).value;
      h.path == f.path && h.src == f.contents.value &&
      h.m.index + |h.m.text| <= |h.src| && h.src[h.m.index..h.m.index + |h.m.text|] == h.m.text &&
      InLang(re, h.m.text)
  {
  }

  /** A readable file has no hit exactly when no substring of its text is a
      string of the pattern's language, so `Misses` and `Skips` speak of the
      pattern itself and not only of the matcher. */
  lemma HitNone(f: SourceFile, re: Re)
    requires f.contents.Some?
    ensures HitIn(f, re).None? <==>
            forall p, e :: 0 <= p <= e <= |f.contents.value| ==> !InLang(re, f.contents.value[p..e])
  {
    ExecNone(re, f.contents.value);
  }

  /** The strict scan answers null exactly when every file is readable and
      none matches; otherwise the first file that is unreadable or matches
      decides: it rejects, or it answers with its match. */
  lemma FirstStrictDecides(files: seq<SourceFile>, re: Re)
    ensures FirstStrict(files, re) == Ok(None) <==> Misses(files, re, |files|)
    ensures forall k :: 0 <= k < |files| && Misses(files, re, k) && files[k].contents.None? ==>
      FirstStrict(files, re) == Err(FsError)
    ensures forall k :: (0 <= k < |files| && Misses(files, re, k) && files[k].contents.Some? &&
                         HitIn(files[k], re).Some?) ==>
      FirstStrict(files, re) == Ok(HitIn(files[k], re))
  {
    StrictNone(files, re);
    forall k | 0 <= k < |files| && Misses(files, re, k)
      ensures files[k].contents.None? ==> FirstStrict(files, re) == Err(FsError)
      ensures files[k].contents.Some? && HitIn(files[k], re).Some? ==> FirstStrict(files, re) == Ok(HitIn(files[k], re))
    {
      StrictAt(files, re, k);
    }
  }

  lemma {:induction false} StrictNone(files: seq<SourceFile>, re: Re)
    ensures FirstStrict(files, re) == Ok(None) <==> Misses(files, re, |files|)
  {
    if files != [] {
      StrictNone(files[1..], re);
      if Misses(files, re, |files|) {
        MissesTail(files, re, |files|);
      }
      if files[0].contents.Some? && HitIn(files[0], re).None? && Misses(files[1..], re, |files| - 1) {
        MissesCons(files, re, |files|);
      }
    }
  }

  /** The first file, at `k`, that is unreadable or matches decides. */
  lemma {:induction false} StrictAt(files: seq<SourceFile>, re: Re, k: nat)
    requires k < |files| && Misses(files, re, k)
    ensures files[k].contents.None? ==> FirstStrict(files, re) == Err(FsError)
    ensures files[k].contents.Some? && HitIn(files[k], re).Some? ==> FirstStrict(files, re) == Ok(HitIn(files[k], re))
  {
    if k > 0 {
      MissesTail(files, re, k);
      StrictAt(files[1..], re, k - 1);
      assert files[1..][k - 1] == files[k];
    }
  }

  lemma MissesTail(files: seq<SourceFile>, re: Re, k: nat)
    requires 0 < k <= |files| && Misses(files, re, k)
    ensures Misses(files[1..], re, k - 1)
  {
    forall j | 0 <= j < k - 1
      ensures files[1..][j].contents.Some? && HitIn(files[1..][j], re).None?
    {
      assert files[1..][j] == files[j + 1];
    }
  }

  lemma MissesCons(files: seq<SourceFile>, re: Re, k: nat)
    requires 0 < k <= |files| && files[0].contents.Some? && HitIn(files[0], re).None?
    requires Misses(files[1..], re, k - 1)
    ensures Misses(files, re, k)
  {
    forall j | 0 < j < k
      ensures files[j].contents.Some? && HitIn(files[j], re).None?
    {
      assert files[1..][j - 1] == files[j];
    }
  }

  /** The lenient scan answers null exactly when no readable file matches;
      otherwise it answers with the first readable file that matches. */
  lemma FirstLenientDecides(files: seq<SourceFile>, re: Re)
    ensures FirstLenient(files, re).None? <==> Skips(files, re, |files|)
    ensures forall k :: (0 <= k < |files| && Skips(files, re, k) && files[k].contents.Some? &&
                         HitIn(files[k], re).Some?) ==>
      FirstLenient(files, re) == HitIn(files[k], re)
  {
    LenientNone(files, re);
    forall k | 0 <= k < |files| && Skips(files, re, k) && files[k].contents.Some? && HitIn(files[k], re).Some?
      ensures FirstLenient(files, re) == HitIn(files[k], re)
    {
      LenientAt(files, re, k);
    }
  }

  lemma {:induction false} LenientNone(files: seq<SourceFile>, re: Re)
    ensures FirstLenient(files, re).None? <==> Skips(files, re, |files|)
  {
    if files != [] {
      if files[0].contents.Some? && HitIn(files[0], re).Some? {
        assert !Skips(files, re, |files|);
      } else {
        LenientNone(files[1..], re);
        assert FirstLenient(files, re) == FirstLenient(files[1..], re);
        if Skips(files, re, |files|) {
          SkipsTail(files, re, |files|);
        }
        if Skips(files[1..], re, |files| - 1) {
          SkipsCons(files, re, |files|);
        }
      }
    }
  }

  /** The first readable file, at `k`, that matches answers. */
  lemma {:induction false} LenientAt(files: seq<SourceFile>, re: Re, k: nat)
    requires k < |files| && Skips(files, re, k)
    requires files[k].contents.Some? && HitIn(files[k], re).Some?
    ensures FirstLenient(files, re) == HitIn(files[k], re)
  {
    if k > 0 {
      SkipsTail(files, re, k);
      assert files[1..][k - 1] == files[k];
      LenientAt(files[1..], re, k - 1);
    }
  }

  lemma SkipsTail(files: seq<SourceFile>, re: Re, k: nat)
    requires 0 < k <= |files| && Skips(files, re, k)
    ensures Skips(files[1..], re, k - 1)
  {
    forall j | 0 <= j < k - 1
      ensures files[1..][j].contents.None? || HitIn(files[1..][j], re).None?
    {
      assert files[1..][j] == files[j + 1];
    }
  }

  lemma SkipsCons(files: seq<SourceFile>, re: Re, k: nat)
    requires 0 < k <= |files| && (files[0].contents.None? || HitIn(files[0], re).None?)
    requires Skips(files[1..], re, k - 1)
    ensures Skips(files, re, k)
  {
    forall j | 0 < j < k
      ensures files[j].contents.None? || HitIn(files[j], re).None?
    {
      assert files[1..][j - 1] == files[j];
    }
  }

  /** Where the strict scan answers, the lenient one answers the same. */
  lemma {:induction false} StrictImpliesLenient(files: seq<SourceFile>, re: Re)
    requires FirstStrict(files, re).Ok?
    ensures FirstLenient(files, re) == FirstStrict(files, re).value
  {
    if files != [] && files[0].contents.Some? && HitIn(files[0], re).None? {
      StrictImpliesLenient(files[1..], re);
    }
  }
}
