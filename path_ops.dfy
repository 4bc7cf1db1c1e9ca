/**
  The two `os.path` operations the collection run uses on POSIX: `join`, which
  builds every file path and every document path, and `splitext`, which gives
  the extension that `ignore_filetypes` is matched against.
*/
module PathOps {
  import opened Wrappers

  predicate IsAbsolute(p: string) {
    |p| > 0 && p[0] == '/'
  }

  /**
    `posixpath.join(a, b)`: an absolute `b` replaces `a`; otherwise `b` is
    appended to `a`, with a `/` in between unless `a` is empty or already ends
    in one.
  */
  function JoinPath(a: string, b: string): (r: string)
    ensures |r| >= |b| && r[|r| - |b|..] == b
    ensures !IsAbsolute(b) ==> |r| >= |a| && r[..|a|] == a
    ensures !IsAbsolute(b) ==> |r| <= |a| + 1 + |b|
  {
    if IsAbsolute(b) then b
    else if a == "" || a[|a| - 1] == '/' then a + b
    else a + "/" + b
  }

  /**
    The exact shape of a join: an absolute `b` is the result itself; a
    relative `b` follows `a` directly when `a` is empty or ends in `/`, and
    after one inserted `/` otherwise.
  */
  lemma JoinPathShape(a: string, b: string)
    ensures IsAbsolute(b) ==> JoinPath(a, b) == b
    ensures !IsAbsolute(b) ==> JoinPath(a, b) == a + b || JoinPath(a, b) == a + "/" + b
    ensures !IsAbsolute(b) && (a == "" || a[|a| - 1] == '/') ==> JoinPath(a, b) == a + b
    ensures !IsAbsolute(b) && a != "" && a[|a| - 1] != '/' ==> JoinPath(a, b)[|a|] == '/'
  {
    if !IsAbsolute(b) && a != "" && a[|a| - 1] != '/' {
      assert JoinPath(a, b) == a + "/" + b;
    }
  }

  /** Joining two different relative names onto the same directory gives two different paths. */
  lemma JoinPathInjective(a: string, x: string, y: string)
    requires !IsAbsolute(x) && !IsAbsolute(y)
    requires JoinPath(a, x) == JoinPath(a, y)
    ensures x == y
  {
    var gap := if a == "" || a[|a| - 1] == '/' then 0 else 1;
    assert JoinPath(a, x) == a + (if gap == 0 then "" else "/") + x;
    assert JoinPath(a, y) == a + (if gap == 0 then "" else "/") + y;
    assert x == JoinPath(a, x)[|a| + gap..];
  }

  predicate OnlyDots(s: string) {
    forall k :: 0 <= k < |s| ==> s[k] == '.'
  }

  /** The position of the last `.` in `name`, if there is one. */
  function LastDot(name: string): (d: Option<nat>)
    ensures d.Some? ==> d.value < |name| && name[d.value] == '.'
    ensures d.Some? ==> forall k :: d.value < k < |name| ==> name[k] != '.'
    ensures d.None? ==> forall k :: 0 <= k < |name| ==> name[k] != '.'
  {
    if |name| == 0 then None
    else if name[|name| - 1] == '.' then Some(|name| - 1)
    else LastDot(name[..|name| - 1])
  }

  /**
    `os.path.splitext(name)[1]` for a base name: from the last `.` to the end,
    provided some character other than `.` comes before that dot; otherwise
    the empty string. So `.bashrc` has no extension and `file.` has `.`.
  */
  function Extension(name: string): (ext: string)
    ensures ext != "" ==> |ext| <= |name| && ext == name[|name| - |ext|..]
    ensures ext != "" ==> ext[0] == '.' && '.' !in ext[1..] && !OnlyDots(name[..|name| - |ext|])
    ensures ext == "" ==> forall d :: 0 <= d < |name| && name[d] == '.' ==> OnlyDots(name[..d])
  {
    match LastDot(name)
    case None => ""
    case Some(d) =>
      if OnlyDots(name[..d]) then
        assert forall e :: 0 <= e < |name| && name[e] == '.' ==> name[..e] == name[..d][..e];
        ""
      else
        assert name[d..][1..] == name[d + 1..];
        name[d..]
  }

  /** A stem with a non-dot character, a dot and a dot-free suffix: the extension is the dot and the suffix. */
  lemma ExtensionOfStemAndSuffix(stem: string, suffix: string)
    requires !OnlyDots(stem) && '.' !in suffix
    ensures Extension(stem + "." + suffix) == "." + suffix
  {
    var name := stem + "." + suffix;
    var d := LastDot(name);
    assert name[|stem|] == '.';
    assert forall k :: |stem| < k < |name| ==> name[k] == suffix[k - |stem| - 1];
    assert d == Some(|stem|);
    assert name[..|stem|] == stem;
    assert name[|stem|..] == "." + suffix;
  }

  /** A name made of one leading dot and a dot-free rest (a dot-file) has no extension. */
  lemma DotFileHasNoExtension(rest: string)
    requires '.' !in rest
    ensures Extension("." + rest) == ""
  {
    var name := "." + rest;
    assert name[0] == '.';
    assert forall k :: 0 < k < |name| ==> name[k] == rest[k - 1];
    assert LastDot(name) == Some(0);
    assert OnlyDots(name[..0]);
  }
}
