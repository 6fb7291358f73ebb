/** The two helpers of Ruby's `File` class the service relies on, on '/'-separated
    paths: `File.basename(path)`, `File.basename(path, '.*')` and `File.extname(path)`. */
module PathNames {

  /** Position of the last occurrence of `c` in `s`, or -1 when `c` does not occur. */
  function LastIndexOf(s: string, c: char): (r: int)
    ensures -1 <= r < |s|
    ensures 0 <= r ==> s[r] == c
    ensures forall j :: r < j < |s| ==> s[j] != c
  {
    if |s| == 0 then -1
    else if s[|s| - 1] == c then |s| - 1
    else LastIndexOf(s[..|s| - 1], c)
  }

  /** Number of '.' characters that begin `s`. */
  function LeadingDots(s: string): (n: nat)
    ensures n <= |s|
    ensures forall j :: 0 <= j < n ==> s[j] == '.'
    ensures n < |s| ==> s[n] != '.'
  {
    if |s| > 0 && s[0] == '.' then 1 + LeadingDots(s[1..]) else 0
  }

  /** `File.basename(path)`: the last '/'-separated component of `path`. */
  function BaseName(path: string): (b: string)
    ensures '/' !in b
    ensures |b| <= |path|
    ensures |b| < |path| ==> path[|path| - |b| - 1] == '/'
  {
    path[LastIndexOf(path, '/') + 1..]
  }

  /** The base name is the end of the path: together with the '/' before it, if any,
      it is exactly the text after the path's last '/'. */
  lemma BaseNameIsSuffix(path: string)
    ensures BaseName(path) == path[|path| - |BaseName(path)|..]
    ensures |BaseName(path)| < |path| ==> LastIndexOf(path, '/') == |path| - |BaseName(path)| - 1
  {
  }

  /** The extension of a base name `b`: from its last '.' on, where the dots that
      begin `b` do not count; empty exactly when no '.' follows those leading dots. */
  function Extension(b: string): (e: string)
    ensures e == [] || e[0] == '.'
    ensures forall i :: 0 < i < |e| ==> e[i] != '.'
    ensures |e| <= |b| && e == b[|b| - |e|..]
    ensures e != [] <==> exists i :: LeadingDots(b) <= i < |b| && b[i] == '.'
  {
    var k := LeadingDots(b);
    var rest := b[k..];
    var j := LastIndexOf(rest, '.');
    if j < 0 then
      assert forall i :: k <= i < |b| ==> b[i] == rest[i - k];
      []
    else
      assert rest[j] == b[k + j];
      rest[j..]
  }

  /** A base name `b` without its extension: whatever `Extension` cuts off, and
      nothing else, so that the two put together give `b` back. A name whose only
      dots are its leading ones is kept whole. */
  function WithoutExtension(b: string): (s: string)
    ensures s + Extension(b) == b
  {
    var k := LeadingDots(b);
    var j := LastIndexOf(b[k..], '.');
    if j < 0 then b
    else
      assert b[..k + j] + b[k..][j..] == b;
      b[..k + j]
  }

  /** `File.extname(path)`: empty, or one '.' followed by no further '.' or '/'. */
  function ExtName(path: string): (e: string)
    ensures var b := BaseName(path); |e| <= |b| && e == b[|b| - |e|..]
    ensures var b := BaseName(path); e != [] <==> exists i :: LeadingDots(b) <= i < |b| && b[i] == '.'
    ensures e == [] || e[0] == '.'
    ensures forall i :: 0 < i < |e| ==> e[i] != '.'
    ensures '/' !in e
  {
    var b := BaseName(path);
    NoSlashInExtension(b);
    Extension(b)
  }

  /** `File.basename(path, '.*')`: a piece of the last path component, with no '/'. */
  function Stem(path: string): (s: string)
    ensures '/' !in s
    ensures |s| <= |BaseName(path)|
  {
    var b := BaseName(path);
    var s := WithoutExtension(b);
    assert s == b[..|s|];
    SliceKeepsOut(b, 0, |s|, '/');
    s
  }

  /** The extension of a name without '/' has no '/' either. */
  lemma NoSlashInExtension(b: string)
    requires '/' !in b
    ensures '/' !in Extension(b)
  {
    var e := Extension(b);
    assert e == b[|b| - |e|..|b|];
    SliceKeepsOut(b, |b| - |e|, |b|, '/');
  }

  /** A character absent from `s` is absent from every slice of it. */
  lemma SliceKeepsOut(s: string, i: nat, j: nat, c: char)
    requires i <= j <= |s| && c !in s
    ensures c !in s[i..j]
  {
  }

  /** `File.basename(path, '.*')` followed by `File.extname(path)` is `File.basename(path)`:
      cutting the extension off a path's last component loses nothing else. */
  lemma StemAndExtension(path: string)
    ensures Stem(path) + ExtName(path) == BaseName(path)
  {
    var b := BaseName(path);
    assert WithoutExtension(b) + Extension(b) == b;
  }

  /** A base name whose dots all lead it, such as `.profile` or `..foo`, has no
      extension and is its own stem. */
  lemma LeadingDotsOnly(b: string)
    requires forall i :: LeadingDots(b) <= i < |b| ==> b[i] != '.'
    ensures Extension(b) == []
    ensures WithoutExtension(b) == b
  {
    assert WithoutExtension(b) + Extension(b) == b;
  }

  /** A name without '/' is its own base name. */
  lemma NoSeparator(stem: string, ext: string)
    requires forall i :: 0 <= i < |stem| ==> stem[i] != '/'
    requires forall i :: 0 <= i < |ext| ==> ext[i] != '/'
    ensures BaseName(stem + ext) == stem + ext
  {
    var n := stem + ext;
    forall i | 0 <= i < |n|
      ensures n[i] != '/'
    {
      if i >= |stem| {
        assert n[i] == ext[i - |stem|];
      }
    }
    assert LastIndexOf(n, '/') == -1;
  }

  /** In `stem + ext` with one '.', at the start of `ext`, that '.' is the last one. */
  lemma SingleDot(stem: string, ext: string)
    requires |stem| > 0
    requires forall i :: 0 <= i < |stem| ==> stem[i] != '.'
    requires |ext| > 0 && ext[0] == '.'
    requires forall i :: 0 < i < |ext| ==> ext[i] != '.'
    ensures LastIndexOf(stem + ext, '.') == |stem|
    ensures LeadingDots(stem + ext) == 0
  {
    var n := stem + ext;
    assert n[|stem|] == '.';
    forall i | |stem| < i < |n|
      ensures n[i] != '.'
    {
      assert n[i] == ext[i - |stem|];
    }
    assert n[0] == stem[0];
  }

  /** An ordinary file name `stem + ext` — no '/', one '.' that begins `ext` — has
      extension `ext` and stem `stem`. */
  lemma PlainFileName(stem: string, ext: string)
    requires |stem| > 0
    requires forall i :: 0 <= i < |stem| ==> stem[i] != '.' && stem[i] != '/'
    requires |ext| > 0 && ext[0] == '.'
    requires forall i :: 0 <= i < |ext| ==> ext[i] != '/'
    requires forall i :: 0 < i < |ext| ==> ext[i] != '.'
    ensures ExtName(stem + ext) == ext
    ensures Stem(stem + ext) == stem
  {
    var n := stem + ext;
    NoSeparator(stem, ext);
    SingleDot(stem, ext);
    assert n[|stem|..] == ext;
    assert n[..|stem|] == stem;
  }
}
