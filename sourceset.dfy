/** `getAllCLikeFiles`: the C-like files under the source directories, found
    by a recursive `readdir`/`stat` walk. */
module SourceSet {
  import opened Base

  /** A directory entry as `stat` classifies it. */
  datatype Node =
    | File(name: string, contents: Option<string>)    // contents None: readFile rejects
    | Dir(name: string, readable: bool, entries: seq<Node>)   // readable false: readdir rejects
    | Special(name: string)                           // neither a file nor a directory
    | Unstatable(name: string)                        // stat rejects

  /** The file system seen from the source directories: the node each
      source directory path names. */
  type Fs = map<string, Node>

  /** A directory whose `readdir` succeeds. */
  predicate IsListable(d: Node) {
    d.Dir? && d.readable
  }

  function Children(d: Node): seq<Node>
    requires IsListable(d)
  {
    d.entries
  }

  /** A file found by the walk: its path and, if it can be read, its text. */
  datatype SourceFile = SourceFile(path: string, contents: Option<string>)

  /** `path.join(dir, name)` for a normalised `dir` and a plain `name`. */
  function JoinPath(dir: string, name: string): string {
    dir + "/" + name
  }

  /** The index of the last "." in `s`. */
  function LastDot(s: string): (k: Option<nat>)
    ensures k.Some? ==> k.value < |s| && s[k.value] == '.' &&
                        forall j :: k.value < j < |s| ==> s[j] != '.'
    ensures k.None? ==> '.' !in s
  {
    if s == [] then None
    else if s[|s| - 1] == '.' then Some(|s| - 1)
    else
      var k := LastDot(s[..|s| - 1]);
      assert s == s[..|s| - 1] + [s[|s| - 1]];
      k
  }

  /** `path.parse(p).ext` of a base name: from its last ".", unless that dot
      is its first character or the name is "..". */
  function Ext(base: string): string {
    var k := LastDot(base);
    if k.None? || k.value == 0 || base == ".." then "" else base[k.value..]
  }

  predicate IsCLike(base: string) {
    var e := Ext(base);
    e == ".c" || e == ".h" || e == ".cpp" || e == ".hpp"
  }

  /** A C-like name ends in its extension, with at least one character
      before it. */
  lemma CLikeHasSuffix(base: string)
    requires IsCLike(base)
    ensures var x := Ext(base); |base| > |x| && base[|base| - |x|..] == x
  {
  }

  /** A name that ends in ".c", ".h", ".cpp" or ".hpp" after at least one
      character has that extension. */
  lemma SuffixGivesExt(base: string, x: string)
    requires x == ".c" || x == ".h" || x == ".cpp" || x == ".hpp"
    requires |base| > |x| && base[|base| - |x|..] == x
    ensures Ext(base) == x && IsCLike(base)
  {
    var d := |base| - |x|;
    assert base[d] == x[0] == '.';
    assert forall j :: d < j < |base| ==> base[j] == x[j - d] && x[j - d] != '.';
    var k := LastDot(base);
    assert k.Some? && k.value == d;
    assert base != "..";
  }

  /** `getAllCLikeFiles(dir)` once `readdir(dir)` has listed the children
      of `d`: the children from the `k`-th on are handled in order, and
      `Promise.all` rejects if any of them rejects. */
  function ListChildren(dir: string, d: Node, k: nat): Result<seq<SourceFile>>
    requires IsListable(d) && k <= |Children(d)|
    decreases d, |Children(d)| - k
  {
    if k == |Children(d)| then Ok([])
    else
      match (ListEntry(dir, d.entries[k]), ListChildren(dir, d, k + 1))
      case (Ok(a), Ok(b)) => Ok(a + b)
      case _ => Err(FsError)
  }

  function Width(e: Node): nat {
    if IsListable(e) then |Children(e)| else 0
  }

  /** One entry: a directory is walked, and a rejection from inside it is
      swallowed; a C-like file is kept; anything else contributes nothing,
      except an entry that cannot be stat-ed, which rejects. */
  function ListEntry(dir: string, e: Node): Result<seq<SourceFile>>
    decreases e, Width(e) + 1
  {
    match e
    case File(n, c) => if IsCLike(n) then Ok([SourceFile(JoinPath(dir, n), c)]) else Ok([])
    case Dir(n, r, _) =>
      if !r then Ok([])
      else
        (match ListChildren(JoinPath(dir, n), e, 0)
         case Ok(fs) => Ok(fs)
         case Err(_) => Ok([]))
    case Special(_) => Ok([])
    case Unstatable(_) => Err(FsError)
  }

  /** `getAllCLikeFiles(dir)`: rejects if `dir` cannot be listed. */
  function ListDir(fs: Fs, dir: string): Result<seq<SourceFile>> {
    if dir in fs && IsListable(fs[dir]) then ListChildren(dir, fs[dir], 0) else Err(FsError)
  }

  /** `(await Promise.all(sourceDirs.map(getAllCLikeFiles))).flat()`. */
  function Walk(fs: Fs, dirs: seq<string>): Result<seq<SourceFile>> {
    if dirs == [] then Ok([])
    else
      match (ListDir(fs, dirs[0]), Walk(fs, dirs[1..]))
      case (Ok(a), Ok(b)) => Ok(a + b)
      case _ => Err(FsError)
  }

  /** Reference walk: every regular file, whatever its extension. */
  function AllChildren(dir: string, d: Node, k: nat): Result<seq<SourceFile>>
    requires IsListable(d) && k <= |Children(d)|
    decreases d, |Children(d)| - k
  {
    if k == |Children(d)| then Ok([])
    else
      match (AllEntry(dir, d.entries[k]), AllChildren(dir, d, k + 1))
      case (Ok(a), Ok(b)) => Ok(a + b)
      case _ => Err(FsError)
  }

  function AllEntry(dir: string, e: Node): Result<seq<SourceFile>>
    decreases e, Width(e) + 1
  {
    match e
    case File(n, c) => Ok([SourceFile(JoinPath(dir, n), c)])
    case Dir(n, r, _) =>
      if !r then Ok([])
      else
        (match AllChildren(JoinPath(dir, n), e, 0)
         case Ok(fs) => Ok(fs)
         case Err(_) => Ok([]))
    case Special(_) => Ok([])
    case Unstatable(_) => Err(FsError)
  }

  /** The base name of a joined path. */
  function BaseName(p: string): string {
    if p == [] || p[|p| - 1] == '/' then [] else BaseName(p[..|p| - 1]) + [p[|p| - 1]]
  }

  /** The files found by the walk whose base name is C-like, in order. */
  function KeepCLike(fs: seq<SourceFile>): seq<SourceFile> {
    if fs == [] then []
    else (if IsCLike(BaseName(fs[0].path)) then [fs[0]] else []) + KeepCLike(fs[1..])
  }

  lemma {:induction false} KeepCLikeAppend(a: seq<SourceFile>, b: seq<SourceFile>)
    ensures KeepCLike(a + b) == KeepCLike(a) + KeepCLike(b)
  {
    if a == [] {
      assert a + b == b;
    } else {
      assert (a + b)[0] == a[0] && (a + b)[1..] == a[1..] + b;
      KeepCLikeAppend(a[1..], b);
      AppendAssoc(if IsCLike(BaseName(a[0].path)) then [a[0]] else [], KeepCLike(a[1..]), KeepCLike(b));
    }
  }

  lemma BaseNameOfJoin(dir: string, n: string)
    requires '/' !in n
    ensures BaseName(JoinPath(dir, n)) == n
  {
    if n != [] {
      var p := JoinPath(dir, n);
      assert p[..|p| - 1] == JoinPath(dir, n[..|n| - 1]);
      assert n[|n| - 1] in n;
      assert '/' !in n[..|n| - 1] by {
        forall c | c in n[..|n| - 1] ensures c in n { }
      }
      BaseNameOfJoin(dir, n[..|n| - 1]);
    } else {
      var p := JoinPath(dir, n);
      assert p[|p| - 1] == '/';
    }
  }

  /** Entry names are plain names: `readdir` never lists one with a "/". */
  predicate PlainNames(e: Node)
    decreases e, Width(e) + 1
  {
    '/' !in e.name && (IsListable(e) ==> PlainChildren(e, 0))
  }

  predicate PlainChildren(d: Node, k: nat)
    requires IsListable(d) && k <= |Children(d)|
    decreases d, |Children(d)| - k
  {
    k == |Children(d)| || (PlainNames(d.entries[k]) && PlainChildren(d, k + 1))
  }

  /** The walk keeps exactly the C-like files of the full walk, in the same
      order, with each readable subdirectory expanded in place, and it
      rejects exactly when the full walk does. */
  lemma {:induction false} ListIsFilteredWalk(dir: string, d: Node, k: nat)
    requires IsListable(d) && k <= |Children(d)| && PlainChildren(d, k)
    ensures ListChildren(dir, d, k).Ok? <==> AllChildren(dir, d, k).Ok?
    ensures ListChildren(dir, d, k).Ok? ==>
      ListChildren(dir, d, k).value == KeepCLike(AllChildren(dir, d, k).value)
    decreases d, |Children(d)| - k
  {
    if k < |Children(d)| {
      var e := d.entries[k];
      EntryIsFiltered(dir, e);
      ListIsFilteredWalk(dir, d, k + 1);
      if AllEntry(dir, e).Ok? && AllChildren(dir, d, k + 1).Ok? {
        KeepCLikeAppend(AllEntry(dir, e).value, AllChildren(dir, d, k + 1).value);
      }
    }
  }

  lemma {:induction false} EntryIsFiltered(dir: string, e: Node)
    requires PlainNames(e)
    ensures ListEntry(dir, e).Ok? <==> AllEntry(dir, e).Ok?
    ensures ListEntry(dir, e).Ok? ==> ListEntry(dir, e).value == KeepCLike(AllEntry(dir, e).value)
    decreases e, Width(e) + 1
  {
    match e
    case File(n, c) =>
      BaseNameOfJoin(dir, n);
      assert [SourceFile(JoinPath(dir, n), c)][1..] == [];
    case Dir(n, r, _) =>
      if r {
        ListIsFilteredWalk(JoinPath(dir, n), e, 0);
      }
    case Special(_) =>
    case Unstatable(_) =>
  }

  /** An entry that `stat` rejects makes the listing of its directory reject. */
  lemma {:induction false} UnstatableRejects(dir: string, d: Node, k: nat, j: nat)
    requires IsListable(d) && k <= j < |Children(d)| && Children(d)[j].Unstatable?
    ensures ListChildren(dir, d, k).Err?
    decreases j - k
  {
    if k < j {
      UnstatableRejects(dir, d, k + 1, j);
    }
  }

  /** Such an entry in a source directory makes the whole walk reject, while
      in a subdirectory it only hides that subdirectory; an unreadable
      subdirectory is hidden as well. */
  lemma UnstatableInSourceDir(fs: Fs, dirs: seq<string>, i: nat, j: nat)
    requires i < |dirs| && dirs[i] in fs && IsListable(fs[dirs[i]])
    requires j < |Children(fs[dirs[i]])| && Children(fs[dirs[i]])[j].Unstatable?
    ensures Walk(fs, dirs).Err?
  {
    UnstatableRejects(dirs[i], fs[dirs[i]], 0, j);
    WalkRejects(fs, dirs, i);
  }

  lemma {:induction false} WalkRejects(fs: Fs, dirs: seq<string>, i: nat)
    requires i < |dirs| && ListDir(fs, dirs[i]).Err?
    ensures Walk(fs, dirs).Err?
  {
    if i > 0 {
      WalkRejects(fs, dirs[1..], i - 1);
    }
  }

  lemma UnstatableInSubdir(dir: string, d: Node, j: nat)
    requires IsListable(d) && j < |Children(d)| && Children(d)[j].Unstatable?
    ensures ListEntry(dir, d) == Ok([])
    ensures ListEntry(dir, Dir(d.name, false, [])) == Ok([])
  {
    UnstatableRejects(JoinPath(dir, d.name), d, 0, j);
  }

  /** Every file the walk returns has a C-like base name. */
  lemma {:induction false} ListedAreCLike(dir: string, d: Node)
    requires IsListable(d) && PlainChildren(d, 0)
    requires ListChildren(dir, d, 0).Ok?
    ensures forall f :: f in ListChildren(dir, d, 0).value ==> IsCLike(BaseName(f.path))
  {
    ListIsFilteredWalk(dir, d, 0);
    KeptAreCLike(AllChildren(dir, d, 0).value);
  }

  lemma {:induction false} KeptAreCLike(fs: seq<SourceFile>)
    ensures forall f :: f in KeepCLike(fs) ==> IsCLike(BaseName(f.path))
  {
    if fs != [] {
      KeptAreCLike(fs[1..]);
    }
  }
}
