/** Values shared by every part of the language server: optional values, the
    outcome of a call that may throw, and the character classes and string
    helpers of JavaScript that the server relies on. */
module Base {

  datatype Option<T> = None | Some(value: T)

  /** Why an asynchronous call of the server rejected. */
  datatype Failure =
    | FsError                 // a readdir, stat or readFile that rejected
    | LabelNotInText          // `exec(...)!.index` on a null match (rename)
    | PrebuildFailed          // the prebuild command exited with a non-zero status
    | InvalidUrl              // `new URL(zmqURI)` threw
    | BindFailed              // the reply socket could not be bound
    | AnalyzerFailed          // the analyzer process exited with a non-zero status
    | CouldNotParse           // the analyzer's reply is not JSON
    | AnalyzerReportedError   // the analyzer replied with an Error result
    | NotAResult              // a TypeError: the reply is JSON but no analyzer result
    | NoSourceFiles           // the source directories hold no C-like file
  {
    /** The message of the Error object, where the server writes it itself. */
    function Message(): Option<string> {
      match this
      case CouldNotParse => Some("Could not parse result from conflict analyzer")
      case AnalyzerReportedError => Some("Received error from conflict analyzer")
      case NoSourceFiles => Some("Empty number of source files")
      case _ => None
    }
  }

  datatype Result<T> = Ok(value: T) | Err(error: Failure)

  /** JavaScript line terminators (what `.` does not match). */
  predicate IsLineTerminator(c: char) {
    c == '\n' || c == '\r' || c as int == 0x2028 || c as int == 0x2029
  }

  /** JavaScript `\s`: WhiteSpace and LineTerminator; also what `trim` removes. */
  predicate IsJsSpace(c: char) {
    var n := c as int;
    (0x09 <= n <= 0x0D) || n == 0x20 || n == 0xA0 || n == 0x1680 ||
    (0x2000 <= n <= 0x200A) || n == 0x2028 || n == 0x2029 || n == 0x202F ||
    n == 0x205F || n == 0x3000 || n == 0xFEFF
  }

  /** JavaScript `\w`. */
  predicate IsWordChar(c: char) {
    ('a' <= c <= 'z') || ('A' <= c <= 'Z') || ('0' <= c <= '9') || c == '_'
  }

  /** `String.prototype.trimStart`. */
  function TrimStart(s: string): (t: string)
    ensures |t| <= |s| && t == s[|s| - |t|..]
    ensures forall k :: 0 <= k < |s| - |t| ==> IsJsSpace(s[k])
    ensures t == [] || !IsJsSpace(t[0])
  {
    if s != [] && IsJsSpace(s[0]) then TrimStart(s[1..]) else s
  }

  /** `String.prototype.trimEnd`. */
  function TrimEnd(s: string): (t: string)
    ensures |t| <= |s| && t == s[..|t|]
    ensures forall k :: |t| <= k < |s| ==> IsJsSpace(s[k])
    ensures t == [] || !IsJsSpace(t[|t| - 1])
  {
    if s != [] && IsJsSpace(s[|s| - 1]) then TrimEnd(s[..|s| - 1]) else s
  }

  /** `String.prototype.trim`. */
  function Trim(s: string): string {
    TrimEnd(TrimStart(s))
  }

  /** Trimming a second time changes nothing. */
  lemma TrimIdempotent(s: string)
    ensures Trim(Trim(s)) == Trim(s)
  {
    var t := Trim(s);
    assert t == [] || (!IsJsSpace(t[0]) && !IsJsSpace(t[|t| - 1])) by {
      var u := TrimStart(s);
      if t != [] {
        assert t == u[..|t|];
        assert t[0] == u[0];
      }
    }
    assert TrimStart(t) == t;
  }

  /** `Array.prototype.join(sep)`. */
  function Join(parts: seq<string>, sep: string): string {
    if |parts| == 0 then ""
    else if |parts| == 1 then parts[0]
    else parts[0] + sep + Join(parts[1..], sep)
  }

  /** Concatenation is associative. */
  lemma AppendAssoc<T>(a: seq<T>, b: seq<T>, c: seq<T>)
    ensures a + (b + c) == (a + b) + c
  {
  }

  /** The concatenation of `f` applied to each element, in order. */
  function FlatMap<A, B>(f: A -> seq<B>, xs: seq<A>): seq<B> {
    if xs == [] then [] else f(xs[0]) + FlatMap(f, xs[1..])
  }

  lemma {:induction false} FlatMapAppend<A, B>(f: A -> seq<B>, a: seq<A>, b: seq<A>)
    ensures FlatMap(f, a + b) == FlatMap(f, a) + FlatMap(f, b)
  {
    if a == [] {
      assert a + b == b;
    } else {
      assert (a + b)[0] == a[0] && (a + b)[1..] == a[1..] + b;
      FlatMapAppend(f, a[1..], b);
      AppendAssoc(f(a[0]), FlatMap(f, a[1..]), FlatMap(f, b));
    }
  }

  /** `s.startsWith(p)`. */
  predicate StartsWith(s: string, p: string) {
    p <= s
  }

  /** The first index of `w` in `s`, as `new RegExp(w).exec(s).index` gives it
      for a `w` made of word characters; None where `exec` returns null. */
  function IndexOf(w: string, s: string): (r: Option<nat>)
    ensures r.Some? ==> r.value + |w| <= |s| && s[r.value..r.value + |w|] == w
    ensures r.Some? ==> forall k :: 0 <= k < r.value ==> !(w <= s[k..])
    ensures r.None? ==> forall k :: 0 <= k <= |s| ==> !(w <= s[k..])
  {
    IndexFrom(w, s, 0)
  }

  function IndexFrom(w: string, s: string, k: nat): (r: Option<nat>)
    requires k <= |s|
    requires forall j :: 0 <= j < k ==> !(w <= s[j..])
    ensures r.Some? ==> k <= r.value && r.value + |w| <= |s| && s[r.value..r.value + |w|] == w
    ensures r.Some? ==> forall j :: 0 <= j < r.value ==> !(w <= s[j..])
    ensures r.None? ==> forall j :: 0 <= j <= |s| ==> !(w <= s[j..])
    decreases |s| - k
  {
    if w <= s[k..] then Some(k)
    else if k == |s| then None
    else IndexFrom(w, s, k + 1)
  }

  /** Every substring occurs, at its first index at the latest. */
  lemma IndexOfSubstring(w: string, s: string, k: nat)
    requires k + |w| <= |s| && s[k..k + |w|] == w
    ensures IndexOf(w, s).Some? && IndexOf(w, s).value <= k
  {
    assert w <= s[k..];
  }
}
