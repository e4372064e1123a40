/** The string operations on POSIX paths that the command-line scripts use:
    `os.path.basename`, `os.path.splitext` and `str.rsplit('_', maxsplit=1)`. */
module Paths {

  import opened Wrappers
  import opened Seqs

  /** `os.path.basename(p)`: what follows the last `/`. */
  function Basename(p: string): (b: string)
    ensures '/' !in b
    ensures EndsWith(p, b)
    ensures |b| < |p| ==> p[|p| - |b| - 1] == '/'
  {
    match LastIndexOf(p, '/')
    case None => p
    case Some(i) => p[i + 1..]
  }

  /** `s.rsplit('_', maxsplit=1)` unpacked into two names: the text before
      the last `_` and the text after it. With no `_` the split yields one
      part, and the two-way unpacking raises `ValueError`. */
  function RSplitUnderscore(s: string): (r: Result<(string, string)>)
    ensures r.Err? <==> '_' !in s
    ensures r.Err? ==> r.error.ValueError?
    ensures r.Ok? ==> r.value.0 + "_" + r.value.1 == s && '_' !in r.value.1
  {
    match LastIndexOf(s, '_')
    case None => Err(ValueError("not enough values to unpack"))
    case Some(i) =>
      assert s[..i] + "_" + s[i + 1..] == s;
      Ok((s[..i], s[i + 1..]))
  }

  /** The name two paths are paired on: the base name of the text before
      the last `_`, or of the text after it when the former is empty. */
  function NameKey(path: string): (r: Result<string>)
    ensures r.Err? <==> '_' !in path
    ensures r.Ok? ==> '/' !in r.value
  {
    var parts :- RSplitUnderscore(path);
    var stem := if parts.0 == "" then parts.1 else parts.0;
    Ok(Basename(stem))
  }

  /** Where `os.path.splitext` cuts `p`: at its last `.` when that dot lies
      in the last path component and is preceded there by a character other
      than `.`; nowhere otherwise. */
  function ExtensionStart(p: string): (r: Option<nat>)
    ensures r.Some? ==> r.value < |p| && p[r.value] == '.'
  {
    var sep: int := match LastIndexOf(p, '/') case None => -1 case Some(i) => i;
    match LastIndexOf(p, '.')
    case None => None
    case Some(dot) =>
      if dot > sep && exists j :: sep + 1 <= j < dot && p[j] != '.' then Some(dot) else None
  }

  /** `os.path.splitext(p)`. */
  function SplitExt(p: string): (r: (string, string))
  {
    match ExtensionStart(p)
    case None => (p, "")
    case Some(dot) => (p[..dot], p[dot..])
  }

  /** The two parts of `splitext` put back together give the path, and the
      extension is empty or one dot followed by neither a dot nor a `/`. */
  lemma SplitExtParts(p: string)
    ensures SplitExt(p).0 + SplitExt(p).1 == p
    ensures var ext := SplitExt(p).1;
            ext == "" || (ext[0] == '.' && '.' !in ext[1..] && '/' !in ext[1..])
    ensures SplitExt(p).1 != "" ==> SplitExt(p).0 != "" && Basename(SplitExt(p).0) != ""
  {
    match ExtensionStart(p)
    case None =>
    case Some(dot) =>
      var ext := p[dot..];
      var sep: int := match LastIndexOf(p, '/') case None => -1 case Some(i) => i;
      assert dot == LastIndexOf(p, '.').value;
      forall j | 1 <= j < |ext| ensures ext[j] != '.' && ext[j] != '/' {
        assert ext[j] == p[dot + j];
      }
      var root := p[..dot];
      var j :| sep + 1 <= j < dot && p[j] != '.';
      assert root[j] != '.';
      match LastIndexOf(root, '/')
      case None =>
      case Some(i) =>
        assert p[i] == '/';
        assert i <= sep;
        assert Basename(root) == root[i + 1..];
        assert root[i + 1..][j - i - 1] == root[j];
  }
}
