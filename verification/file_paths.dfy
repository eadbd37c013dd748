/**
 * File references in a control file (`CreateVEOs.getRealFile`), over a
 * model of `java.nio.file.Path` on a Unix file system: a path is absolute or
 * relative and has a list of name components. `toRealPath()` touches the
 * file system and is an oracle parameter.
 */
module FilePaths {
  import opened JavaText

  /** A `java.nio.file.Path`: whether it starts at the root, and its names. */
  datatype Path = Path(absolute: bool, names: seq<string>)

  const NulChar: char := 0 as char

  /** A name component: non-empty, without '/' and without NUL. */
  predicate IsName(n: string) {
    |n| > 0 && forall k :: 0 <= k < |n| ==> n[k] != '/' && n[k] != NulChar
  }

  predicate WellFormedPath(p: Path) {
    forall i :: 0 <= i < |p.names| ==> IsName(p.names[i])
  }

  /** Length of the name at the front of `s` (chars up to the first '/'). */
  function NameLength(s: string): (n: nat)
    ensures n <= |s|
    ensures forall k :: 0 <= k < n ==> s[k] != '/'
    ensures n == |s| || s[n] == '/'
  {
    if |s| == 0 || s[0] == '/' then 0 else 1 + NameLength(s[1..])
  }

  /** The non-empty names of `s` between slashes: repeated and trailing slashes collapse. */
  function Names(s: string): (r: seq<string>)
    requires forall k :: 0 <= k < |s| ==> s[k] != NulChar
    ensures forall i :: 0 <= i < |r| ==> IsName(r[i])
    decreases |s|
  {
    if |s| == 0 then []
    else if s[0] == '/' then Names(s[1..])
    else
      var n := NameLength(s);
      [s[..n]] + Names(s[n..])
  }

  /** `Paths.get(s)`; `None` is the InvalidPathException a NUL char raises. */
  function ParsePath(s: string): (r: Option<Path>)
    ensures r.Some? <==> forall k :: 0 <= k < |s| ==> s[k] != NulChar
    ensures r.Some? ==> WellFormedPath(r.value) && (r.value.absolute <==> |s| > 0 && s[0] == '/')
  {
    if exists k :: 0 <= k < |s| && s[k] == NulChar then None
    else Some(Path(|s| > 0 && s[0] == '/', Names(s)))
  }

  function JoinNames(ns: seq<string>): string {
    if |ns| == 0 then ""
    else if |ns| == 1 then ns[0]
    else ns[0] + "/" + JoinNames(ns[1..])
  }

  /** `Path.toString()`. */
  function PathString(p: Path): string {
    (if p.absolute then "/" else "") + JoinNames(p.names)
  }

  lemma {:induction false} NamesOfJoin(ns: seq<string>)
    requires forall i :: 0 <= i < |ns| ==> IsName(ns[i])
    ensures var s := JoinNames(ns);
            (forall k :: 0 <= k < |s| ==> s[k] != NulChar) && Names(s) == ns
            && (|ns| > 0 ==> s[0] != '/')
  {
    if |ns| == 1 {
      var s := ns[0];
      assert NameLength(s) == |s|;
      assert s[..|s|] == s && s[|s|..] == "";
    } else if |ns| > 1 {
      NamesOfJoin(ns[1..]);
      var rest := JoinNames(ns[1..]);
      var s := ns[0] + "/" + rest;
      var n := |ns[0]|;
      NameLengthOfName(ns[0], "/" + rest);
      assert s == ns[0] + ("/" + rest);
      assert s[..n] == ns[0];
      assert s[n..] == "/" + rest;
      assert ("/" + rest)[1..] == rest;
      forall k | 0 <= k < |s| ensures s[k] != NulChar {
        if k > n {
          assert s[k] == rest[k - n - 1];
        }
      }
    }
  }

  lemma {:induction false} NameLengthOfName(n: string, tail: string)
    requires IsName(n)
    requires |tail| == 0 || tail[0] == '/'
    ensures NameLength(n + tail) == |n|
    decreases |n|
  {
    if |n| > 1 {
      assert (n + tail)[1..] == n[1..] + tail;
      NameLengthOfName(n[1..], tail);
    } else {
      assert (n + tail)[1..] == tail;
    }
  }

  /** Printing a well-formed path and reading it back gives the same path. */
  lemma ParsePathString(p: Path)
    requires WellFormedPath(p)
    ensures ParsePath(PathString(p)) == Some(p)
  {
    NamesOfJoin(p.names);
    var j := JoinNames(p.names);
    if p.absolute {
      var s := "/" + j;
      assert s[1..] == j;
      forall k | 0 <= k < |s| ensures s[k] != NulChar {
        if k > 0 {
          assert s[k] == j[k - 1];
        }
      }
    } else {
      assert PathString(p) == j;
    }
  }

  /** `p.startsWith(".")`: compares the first name, so only `./x` (and `.`) qualify. */
  predicate StartsWithDot(p: Path) {
    !p.absolute && |p.names| > 0 && p.names[0] == "."
  }

  /** `base.resolve(p)`. */
  function Resolve(base: Path, p: Path): (r: Path)
    ensures p.absolute ==> r == p
    ensures !p.absolute ==> r.absolute == base.absolute && r.names == base.names + p.names
  {
    if p.absolute then p
    else if |p.names| == 0 then base
    else Path(base.absolute, base.names + p.names)
  }

  /**
   * `getRealFile(fileRef)`: an absolute reference, or one whose first name
   * is `.`, is used as it stands; any other reference is resolved against
   * the directory holding the control file. The chosen path then goes
   * through `toRealPath()`, whose failure (`None`) is the VEOError.
   */
  function RealFile(fileRef: string, baseDir: Path, toRealPath: Path -> Option<Path>): (r: Option<Path>)
    ensures ParsePath(fileRef).None? ==> r.None?
    ensures ParsePath(fileRef).Some? ==>
              var f := ParsePath(fileRef).value;
              r == toRealPath(if f.absolute || StartsWithDot(f) then f
                              else Path(baseDir.absolute, baseDir.names + f.names))
  {
    match ParsePath(fileRef)
    case None => None
    case Some(f) =>
      if !StartsWithDot(f) && !f.absolute then toRealPath(Resolve(baseDir, f)) else toRealPath(f)
  }

  lemma NamesOfNameThen(n: string, rest: string)
    requires IsName(n)
    requires forall k :: 0 <= k < |rest| ==> rest[k] != NulChar
    requires |rest| == 0 || rest[0] == '/'
    ensures forall k :: 0 <= k < |n + rest| ==> (n + rest)[k] != NulChar
    ensures Names(n + rest) == [n] + Names(rest)
  {
    NameLengthOfName(n, rest);
    var s := n + rest;
    assert s[..|n|] == n && s[|n|..] == rest;
  }

  lemma NamesOfSlashThen(rest: string)
    requires forall k :: 0 <= k < |rest| ==> rest[k] != NulChar
    ensures forall k :: 0 <= k < |"/" + rest| ==> ("/" + rest)[k] != NulChar
    ensures Names("/" + rest) == Names(rest)
  {
    assert ("/" + rest)[1..] == rest;
  }

  lemma NamesOfTwo(a: string, b: string)
    requires IsName(a) && IsName(b)
    ensures forall k :: 0 <= k < |a + "/" + b| ==> (a + "/" + b)[k] != NulChar
    ensures Names(a + "/" + b) == [a, b]
  {
    NamesOfNameThen(b, "");
    assert b + "" == b;
    NamesOfSlashThen(b);
    NamesOfNameThen(a, "/" + b);
    assert a + "/" + b == a + ("/" + b);
  }

  /**
   * A relative reference of two names: only a first name of exactly `.`
   * keeps it relative to the working directory; any other first name, even
   * `.hidden` or `..`, hangs it off the control file's directory.
   */
  lemma TwoNameReference(a: string, b: string, baseDir: Path, toRealPath: Path -> Option<Path>)
    requires IsName(a) && IsName(b)
    ensures RealFile(a + "/" + b, baseDir, toRealPath)
         == toRealPath(if a == "." then Path(false, [a, b]) else Path(baseDir.absolute, baseDir.names + [a, b]))
  {
    NamesOfTwo(a, b);
  }
}
