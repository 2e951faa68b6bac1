/** get_file_extension and is_supported_format: the `pathlib` suffix of a
    path, lower-cased. All of them are pure string functions. */
module FileExtensions {

  /** `str.lower()` on one character, for the ASCII letters. */
  function LowerChar(c: char): (r: char)
    ensures r == '.' <==> c == '.'
    ensures r == '/' <==> c == '/'
    ensures !('A' <= r <= 'Z')
  {
    if 'A' <= c <= 'Z' then (c as int + 32) as char else c
  }

  /** `str.lower()` on a string, character by character. */
  function Lower(s: string): (r: string)
    ensures |r| == |s| && forall i :: 0 <= i < |s| ==> r[i] == LowerChar(s[i])
  {
    seq(|s|, i requires 0 <= i < |s| => LowerChar(s[i]))
  }

  lemma LowerSlice(s: string, i: int, j: int)
    requires 0 <= i <= j <= |s|
    ensures Lower(s)[i..j] == Lower(s[i..j])
  {
    var a, b := Lower(s)[i..j], Lower(s[i..j]);
    assert |a| == |b|;
    forall k | 0 <= k < |a|
      ensures a[k] == b[k]
    {
      assert a[k] == Lower(s)[i + k] == LowerChar(s[i + k]);
      assert b[k] == LowerChar(s[i..j][k]);
    }
  }

  /** Index of the last occurrence of `c` in `s`, or -1 (`str.rfind`). */
  function LastIndexOf(s: string, c: char): (i: int)
    ensures -1 <= i < |s|
    ensures i >= 0 ==> s[i] == c
    ensures forall j :: i < j < |s| ==> s[j] != c
  {
    if |s| == 0 then -1
    else if s[|s| - 1] == c then |s| - 1
    else LastIndexOf(s[..|s| - 1], c)
  }

  /** The path without trailing separators, as `Path` normalises it. */
  function DropTrailingSlashes(path: string): string {
    if |path| > 1 && path[|path| - 1] == '/' then DropTrailingSlashes(path[..|path| - 1]) else path
  }

  /** `Path(path).name`: the final component. */
  function FinalComponent(path: string): (name: string)
    ensures forall i :: 0 <= i < |name| ==> name[i] != '/'
  {
    var p := DropTrailingSlashes(path);
    if p == "/" then ""
    else p[LastIndexOf(p, '/') + 1..]
  }

  /** What a suffix can look like: empty, or a dot followed by at least
      one character that is neither a dot nor a separator. */
  predicate SuffixLike(ext: string) {
    && (ext == [] || (|ext| >= 2 && ext[0] == '.'))
    && (forall i :: 1 <= i < |ext| ==> ext[i] != '.')
    && (forall i :: 0 <= i < |ext| ==> ext[i] != '/')
  }

  /** What get_file_extension can return: a suffix without upper-case
      letters. */
  predicate ExtensionLike(ext: string) {
    SuffixLike(ext) && forall i :: 0 <= i < |ext| ==> !('A' <= ext[i] <= 'Z')
  }

  /** The suffix rule on one path component. */
  function NameSuffix(name: string): string {
    var i := LastIndexOf(name, '.');
    if 0 < i < |name| - 1 then name[i..] else ""
  }

  /** The suffix of a component is empty, or a dot followed by at least
      one character that is not a dot, and it holds only characters of the
      component. */
  lemma NameSuffixShape(name: string)
    ensures var ext := NameSuffix(name);
      && (ext == [] || (|ext| >= 2 && ext[0] == '.'))
      && (forall i :: 1 <= i < |ext| ==> ext[i] != '.')
      && ((forall i :: 0 <= i < |name| ==> name[i] != '/') ==> (forall i :: 0 <= i < |ext| ==> ext[i] != '/'))
  {
    var i := LastIndexOf(name, '.');
    if 0 < i < |name| - 1 {
      var ext := name[i..];
      assert forall k :: 0 <= k < |ext| ==> ext[k] == name[i + k];
    }
  }

  /** `Path.suffix`: from the last dot of the final component on, unless
      that dot is its first or last character. */
  function Suffix(path: string): (ext: string)
    ensures SuffixLike(ext)
  {
    NameSuffixShape(FinalComponent(path));
    NameSuffix(FinalComponent(path))
  }

  /** get_file_extension: the suffix, lower-cased. */
  function GetFileExtension(path: string): (ext: string)
    ensures ExtensionLike(ext)
    ensures |ext| == |Suffix(path)|
  {
    Lower(Suffix(path))
  }

  /** is_supported_format: only a format that could be an extension (empty,
      or a lower-case dot-led suffix) can ever match. */
  predicate IsSupportedFormat(path: string, formats: seq<string>): (r: bool)
    ensures r <==> exists f :: f in formats && ExtensionLike(f) && f == GetFileExtension(path)
  {
    GetFileExtension(path) in formats
  }

  lemma {:induction false} DropTrailingSlashesLower(path: string)
    ensures DropTrailingSlashes(Lower(path)) == Lower(DropTrailingSlashes(path))
    decreases |path|
  {
    if |path| > 1 && path[|path| - 1] == '/' {
      DropTrailingSlashesLower(path[..|path| - 1]);
      LowerSlice(path, 0, |path| - 1);
    }
  }

  lemma {:induction false} LastIndexOfLower(s: string, c: char)
    requires c == '.' || c == '/'
    ensures LastIndexOf(Lower(s), c) == LastIndexOf(s, c)
  {
    if |s| > 0 && s[|s| - 1] != c {
      LastIndexOfLower(s[..|s| - 1], c);
      LowerSlice(s, 0, |s| - 1);
    }
  }

  lemma LowerIsRoot(p: string)
    ensures Lower(p) == "/" <==> p == "/"
  {
    if |p| == 1 {
      assert p == [p[0]];
    }
  }

  lemma FinalComponentLower(path: string)
    ensures FinalComponent(Lower(path)) == Lower(FinalComponent(path))
  {
    var p := DropTrailingSlashes(path);
    DropTrailingSlashesLower(path);
    LowerIsRoot(p);
    if p != "/" {
      LastIndexOfLower(p, '/');
      LowerSlice(p, LastIndexOf(p, '/') + 1, |p|);
    }
  }

  lemma LowerSuffix(s: string, i: int)
    requires 0 <= i <= |s|
    ensures Lower(s)[i..] == Lower(s[i..])
  {
    var a, b := Lower(s)[i..], Lower(s[i..]);
    assert |a| == |b|;
    forall k | 0 <= k < |a|
      ensures a[k] == b[k]
    {
      assert a[k] == Lower(s)[i + k] == LowerChar(s[i + k]);
      assert b[k] == LowerChar(s[i..][k]);
    }
  }

  lemma NameSuffixLower(name: string)
    ensures NameSuffix(Lower(name)) == Lower(NameSuffix(name))
  {
    var i := LastIndexOf(name, '.');
    assert LastIndexOf(Lower(name), '.') == i by {
      LastIndexOfLower(name, '.');
    }
    if 0 < i < |name| - 1 {
      LowerSuffix(name, i);
    } else {
      assert Lower([]) == [];
    }
  }

  lemma SuffixLower(path: string)
    ensures Suffix(Lower(path)) == Lower(Suffix(path))
  {
    FinalComponentLower(path);
    NameSuffixLower(FinalComponent(path));
  }

  lemma LowerIdempotent(s: string)
    ensures Lower(Lower(s)) == Lower(s)
  {
  }

  /** The extension does not depend on the case of the path. */
  lemma ExtensionIgnoresCase(path: string)
    ensures GetFileExtension(Lower(path)) == GetFileExtension(path)
  {
    var suffix := Suffix(path);
    SuffixLower(path);
    LowerIdempotent(suffix);
  }

  /** is_supported_format holds exactly when the extension is one of the
      formats, whatever the case of the path. */
  lemma SupportedIgnoresCase(path: string, formats: seq<string>)
    ensures IsSupportedFormat(path, formats) <==> GetFileExtension(path) in formats
    ensures IsSupportedFormat(Lower(path), formats) <==> IsSupportedFormat(path, formats)
  {
    ExtensionIgnoresCase(path);
  }
}
