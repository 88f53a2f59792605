/** The parts of `System.IO.Path` that the core relies on, with the rules of
    .NET on Unix: `/` is the only directory separator and a path is rooted when
    it starts with `/`. */
module Paths {
  import opened Wrappers
  import opened Text

  /** The position of the last `c` in `s`, if any (`string.LastIndexOf`). */
  function LastIndexOf(s: string, c: char): (r: Option<nat>)
    ensures r.None? <==> c !in s
    ensures r.Some? ==> r.value < |s| && s[r.value] == c
    ensures r.Some? ==> forall k :: r.value < k < |s| ==> s[k] != c
  {
    if s == [] then None
    else if s[|s| - 1] == c then Some(|s| - 1)
    else
      assert s == s[..|s| - 1] + [s[|s| - 1]];
      LastIndexOf(s[..|s| - 1], c)
  }

  /** Where the last segment of `p` starts: just after its last `/`, or 0. */
  function NameStart(p: string): (i: nat)
    ensures i <= |p|
    ensures i == 0 || p[i - 1] == '/'
    ensures forall k :: i <= k < |p| ==> p[k] != '/'
  {
    match LastIndexOf(p, '/')
    case None => 0
    case Some(j) => j + 1
  }

  /** `Path.GetFileName`: the last segment of the path. */
  function GetFileName(p: string): (name: string)
    ensures '/' !in name
    ensures |name| <= |p| && name == p[|p| - |name|..]
  {
    p[NameStart(p)..]
  }

  /** The file name is the whole path or follows its last separator. */
  lemma FileNameFollowsSeparator(p: string)
    ensures |GetFileName(p)| == |p| || p[|p| - |GetFileName(p)| - 1] == '/'
  {
    assert |GetFileName(p)| == |p| - NameStart(p);
  }

  /** `Path.GetExtension`: the last segment's suffix from its last `.`, or `""`
      when that segment has no `.` or ends with it. */
  function GetExtension(p: string): (ext: string)
    ensures ext == [] || (|ext| >= 2 && ext[0] == '.' && '.' !in ext[1..] && '/' !in ext)
  {
    NameExtension(GetFileName(p))
  }

  /** The extension is the file name's suffix from its last dot: empty exactly
      when the file name has no dot or ends with one. With the shape `GetExtension`
      ensures (a dot, then no other dot), this fixes the extension. */
  lemma ExtensionIsLastDotSuffix(p: string)
    ensures var name, ext := GetFileName(p), GetExtension(p);
      |ext| <= |name| && ext == name[|name| - |ext|..]
    ensures var name, ext := GetFileName(p), GetExtension(p);
      ext == [] <==> '.' !in name || name[|name| - 1] == '.'
  {
    var name := GetFileName(p);
    match LastIndexOf(name, '.')
    case None =>
    case Some(i) =>
      if i != |name| - 1 {
        assert name[|name| - |name[i..]|..] == name[i..];
      }
  }

  /** The extension of a file name (a segment without `/`). */
  function NameExtension(name: string): (ext: string)
    requires '/' !in name
    ensures ext == [] || (|ext| >= 2 && ext[0] == '.' && '.' !in ext[1..] && '/' !in ext)
  {
    match LastIndexOf(name, '.')
    case None => ""
    case Some(i) => if i == |name| - 1 then "" else name[i..]
  }

  /** `Path.GetFileNameWithoutExtension`: the last segment up to its last `.`. */
  function GetFileNameWithoutExtension(p: string): (stem: string)
    ensures '/' !in stem
    ensures |stem| <= |GetFileName(p)| && stem == GetFileName(p)[..|stem|]
    ensures '.' !in GetFileName(p) ==> stem == GetFileName(p)
    ensures '.' in GetFileName(p) ==>
      |stem| < |GetFileName(p)| && GetFileName(p)[|stem|] == '.' && '.' !in GetFileName(p)[|stem| + 1..]
  {
    var name := GetFileName(p);
    match LastIndexOf(name, '.')
    case None => name
    case Some(i) => name[..i]
  }

  /** `Path.Combine(first, second)`. */
  function Combine(first: string, second: string): (r: string)
  {
    if second == [] then first
    else if first == [] then second
    else if second[0] == '/' then second
    else if first[|first| - 1] == '/' then first + second
    else first + "/" + second
  }

  /** The file name of a path built by `Combine` is the name that was combined. */
  lemma CombineFileName(dir: string, name: string)
    requires name != [] && '/' !in name
    ensures GetFileName(Combine(dir, name)) == name
  {
    var p := Combine(dir, name);
    var i, j := NameStart(p), |p| - |name|;
    assert p[j..] == name;
    assert j > 0 ==> p[j - 1] == '/';
  }

  lemma {:induction false} LastIndexOfLower(s: string, c: char)
    requires !IsLetter(c)
    ensures LastIndexOf(ToLower(s), c) == LastIndexOf(s, c)
  {
    if s != [] {
      assert ToLower(s)[..|s| - 1] == ToLower(s[..|s| - 1]);
      LastIndexOfLower(s[..|s| - 1], c);
    }
  }

  lemma FileNameOfLower(p: string)
    ensures GetFileName(ToLower(p)) == ToLower(GetFileName(p))
  {
    LastIndexOfLower(p, '/');
    var i := NameStart(p);
    assert NameStart(ToLower(p)) == i;
    assert ToLower(p)[i..] == ToLower(p[i..]);
  }

  lemma NameExtensionOfLower(name: string)
    requires '/' !in name
    ensures '/' !in ToLower(name)
    ensures NameExtension(ToLower(name)) == ToLower(NameExtension(name))
  {
    LastIndexOfLower(name, '.');
    match LastIndexOf(name, '.')
    case None =>
    case Some(i) =>
      if i != |name| - 1 {
        assert ToLower(name)[i..] == ToLower(name[i..]);
      }
  }

  /** Lower-casing a path lower-cases its extension. */
  lemma ExtensionOfLower(p: string)
    ensures GetExtension(ToLower(p)) == ToLower(GetExtension(p))
  {
    FileNameOfLower(p);
    NameExtensionOfLower(GetFileName(p));
  }
}
