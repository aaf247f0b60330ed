/** The System.IO.Path operations the services use, on a system whose only
    directory separator is '/'. */
module Paths {
  import opened Common

  const Separator: char := '/'

  /** The index of the last occurrence of `c`, or -1. */
  function LastIndexOf(s: string, c: char): (r: int)
    ensures -1 <= r < |s|
    ensures r >= 0 ==> s[r] == c
    ensures forall i :: r < i < |s| ==> s[i] != c
  {
    if s == [] then -1
    else if s[|s| - 1] == c then |s| - 1
    else LastIndexOf(s[..|s| - 1], c)
  }

  /** Path.GetFileName: everything after the last separator. */
  function GetFileName(path: string): (r: string)
    ensures Excludes(r, Separator)
    ensures |r| <= |path|
  {
    path[LastIndexOf(path, Separator) + 1..]
  }

  /** Path.GetFileNameWithoutExtension: the file name up to its last '.'. */
  function GetFileNameWithoutExtension(path: string): (r: string)
    ensures Excludes(r, Separator)
  {
    var name := GetFileName(path);
    var dot := LastIndexOf(name, '.');
    if dot == -1 then name else name[..dot]
  }

  /** Path.GetExtension: from the last '.' of the file name on, or "" when
      there is no '.' or the '.' is the last character. */
  function GetExtension(path: string): (r: string)
    ensures r == [] || (r[0] == '.' && |r| >= 2 && Excludes(r[1..], '.') && Excludes(r, Separator))
  {
    var name := GetFileName(path);
    var dot := LastIndexOf(name, '.');
    if dot == -1 || dot == |name| - 1 then [] else name[dot..]
  }

  /** Path.ChangeExtension with an extension that starts with '.': the path
      without the extension of its file name, followed by `ext`. */
  function ChangeExtension(path: string, ext: string): (r: string)
    ensures |r| >= |ext| && r[|r| - |ext|..] == ext
  {
    var start := LastIndexOf(path, Separator) + 1;
    var dot := LastIndexOf(path[start..], '.');
    (if dot == -1 then path else path[..start + dot]) + ext
  }

  /** Path.Combine of two paths: an empty side gives the other, a rooted
      second path replaces the first, otherwise one separator joins them. */
  function Combine(a: string, b: string): (r: string)
    ensures b != [] && b[0] == Separator ==> r == b
    ensures a == [] ==> r == b
    ensures |r| >= |b| && r[|r| - |b|..] == b
  {
    if b == [] then a
    else if a == [] then b
    else if b[0] == Separator then b
    else if a[|a| - 1] == Separator then a + b
    else a + [Separator] + b
  }

  /** A path strictly inside folder `dir`. */
  predicate Under(path: string, dir: string) {
    |path| > |dir| && path[..|dir|] == dir && path[|dir|] == Separator
  }

  /** A folder path that Combine extends with a separator. */
  predicate IsFolderPath(dir: string) {
    dir != [] && dir[|dir| - 1] != Separator
  }

  /** A relative name: non-empty and not starting at the root. */
  predicate IsRelative(name: string) {
    name != [] && name[0] != Separator
  }

  /** A relative name combined with a folder lies inside that folder. */
  lemma CombineInside(dir: string, name: string)
    requires IsFolderPath(dir) && IsRelative(name)
    ensures Combine(dir, name) == dir + [Separator] + name
    ensures Under(Combine(dir, name), dir)
  {
  }

  /** Inside one folder, different relative names give different paths. */
  lemma CombineInjective(dir: string, a: string, b: string)
    requires IsFolderPath(dir) && IsRelative(a) && IsRelative(b) && a != b
    ensures Combine(dir, a) != Combine(dir, b)
  {
    var p := dir + [Separator];
    assert Combine(dir, a) == p + a && Combine(dir, b) == p + b;
    assert (p + a)[|p|..] == a && (p + b)[|p|..] == b;
  }

  /** Combining a folder with a plain file name and reading the file name back gives the name. */
  lemma GetFileNameOfCombine(folder: string, name: string)
    requires name != [] && Excludes(name, Separator)
    ensures GetFileName(Combine(folder, name)) == name
  {
    if folder == [] {
      assert Combine(folder, name) == [] + name;
      FileNameAfter([], name);
    } else if folder[|folder| - 1] == Separator {
      assert Combine(folder, name) == folder + name;
      FileNameAfter(folder, name);
    } else {
      var a := folder + [Separator];
      assert Combine(folder, name) == a + name;
      FileNameAfter(a, name);
    }
  }

  /** After a separator (or at the start) a name without separators is the file name. */
  lemma FileNameAfter(a: string, name: string)
    requires a == [] || a[|a| - 1] == Separator
    requires Excludes(name, Separator)
    ensures GetFileName(a + name) == name
  {
    LastIndexAfterSuffix(a, name, Separator);
    if a != [] {
      LastIndexAtEnd(a, Separator);
    }
    assert (a + name)[|a|..] == name;
  }

  /** The name without extension of a plain name combined with a folder is that of the name. */
  lemma StemOfCombine(folder: string, name: string)
    requires name != [] && Excludes(name, Separator)
    ensures GetFileNameWithoutExtension(Combine(folder, name)) == GetFileNameWithoutExtension(name)
  {
    GetFileNameOfCombine(folder, name);
    FileNameOfPlain(name);
  }

  /** A text ending with `c` has its last `c` at the end. */
  lemma LastIndexAtEnd(a: string, c: char)
    requires a != [] && a[|a| - 1] == c
    ensures LastIndexOf(a, c) == |a| - 1
  {
  }

  lemma {:induction false} LastIndexAfterSuffix(a: string, b: string, c: char)
    requires Excludes(b, c)
    ensures LastIndexOf(a + b, c) == LastIndexOf(a, c)
  {
    if b != [] {
      var front := b[..|b| - 1];
      var last := b[|b| - 1];
      assert b == front + [last];
      assert a + b == (a + front) + [last];
      assert Excludes(front, c);
      LastIndexAfterSuffix(a, front, c);
      LastIndexStep(a + front, last, c);
    } else {
      assert a + b == a;
    }
  }

  /** Appending a character other than `c` keeps the last `c` where it was. */
  lemma LastIndexStep(front: string, last: char, c: char)
    requires last != c
    ensures LastIndexOf(front + [last], c) == LastIndexOf(front, c)
  {
    var s := front + [last];
    assert s[|s| - 1] == last && s[..|s| - 1] == front;
  }

  /** Two texts without `c` joined have no `c`. */
  lemma ExcludesConcat(a: string, b: string, c: char)
    requires Excludes(a, c) && Excludes(b, c)
    ensures Excludes(a + b, c)
  {
    var p := a + b;
    forall i | 0 <= i < |p| ensures p[i] != c {
      if i < |a| { assert p[i] == a[i]; } else { assert p[i] == b[i - |a|]; }
    }
  }

  /** A path without separators is its own file name. */
  lemma FileNameOfPlain(p: string)
    requires Excludes(p, Separator)
    ensures GetFileName(p) == p
  {
    assert [] + p == p;
    FileNameAfter([], p);
  }

  /** In stem + ext, where ext has a '.' only at its start, the last '.' is at |stem|. */
  lemma DotAfterStem(stem: string, ext: string)
    requires |ext| >= 1 && ext[0] == '.' && Excludes(ext[1..], '.')
    ensures LastIndexOf(stem + ext, '.') == |stem|
  {
    var d := stem + ['.'];
    var rest := ext[1..];
    assert stem + ext == d + rest by {
      assert ext == ['.'] + rest;
    }
    LastIndexAfterSuffix(d, rest, '.');
    LastIndexAtEnd(d, '.');
  }

  /** In `stem + ext`, with no '/' anywhere and a single '.', the whole text
      is the file name and its last '.' is where the extension starts. */
  lemma DotOfStemAndExtension(stem: string, ext: string)
    requires Excludes(stem, Separator)
    requires |ext| >= 1 && ext[0] == '.' && Excludes(ext[1..], '.') && Excludes(ext, Separator)
    ensures GetFileName(stem + ext) == stem + ext
    ensures LastIndexOf(stem + ext, '.') == |stem|
  {
    ExcludesConcat(stem, ext, Separator);
    FileNameOfPlain(stem + ext);
    DotAfterStem(stem, ext);
  }

  /** A stem without '.' followed by an extension "." + x (x without '.')
      loses exactly that extension. */
  lemma StemOfNameWithExtension(stem: string, ext: string)
    requires Excludes(stem, Separator) && Excludes(stem, '.')
    requires |ext| >= 1 && ext[0] == '.' && Excludes(ext[1..], '.') && Excludes(ext, Separator)
    ensures GetFileNameWithoutExtension(stem + ext) == stem
    ensures GetExtension(stem + ext) == (if |ext| == 1 then [] else ext)
  {
    var p := stem + ext;
    DotOfStemAndExtension(stem, ext);
    assert p[..|stem|] == stem;
    assert p[|stem|..] == ext;
  }

  /** The temporary input of the renderer, <folder>/<stem>.pdf, has the stem as its name without extension. */
  lemma StemOfTempInput(dir: string, stem: string)
    requires IsFolderPath(dir) && stem != [] && Excludes(stem, Separator) && Excludes(stem, '.')
    ensures GetFileNameWithoutExtension(Combine(dir, stem) + ".pdf") == stem
    ensures IsFolderPath(Combine(dir, stem))
  {
    var name := stem + ".pdf";
    var a := dir + [Separator];
    CombineInside(dir, stem);
    assert Combine(dir, stem) + ".pdf" == a + name;
    DotOfStemAndExtension(stem, ".pdf");
    FileNameAfter(a, name);
    assert GetFileName(a + name) == name;
    StemOfNameWithExtension(stem, ".pdf");
  }

  /** ASCII lower-casing of one character. */
  function LowerChar(c: char): (r: char)
    ensures 'A' <= c <= 'Z' ==> r as int == c as int + 32
    ensures !('A' <= c <= 'Z') ==> r == c
  {
    if 'A' <= c <= 'Z' then (c as int + 32) as char else c
  }

  /** ASCII lower-casing as string.ToLower does it for the extensions compared here. */
  function ToLower(s: string): (r: string)
    ensures |r| == |s|
    ensures forall i :: 0 <= i < |s| ==> r[i] == LowerChar(s[i])
  {
    seq(|s|, i requires 0 <= i < |s| => LowerChar(s[i]))
  }

  lemma LowerPrefix(s: string, j: nat)
    requires j <= |s|
    ensures ToLower(s)[..j] == ToLower(s[..j])
  {
  }
  lemma LowerSuffix(s: string, i: nat)
    requires i <= |s|
    ensures ToLower(s)[i..] == ToLower(s[i..])
  {
  }
  /** Lower-casing leaves the positions of a non-letter character as they were. */
  lemma {:induction false} LastIndexOfLower(s: string, c: char)
    requires !('A' <= c <= 'Z') && !('a' <= c <= 'z')
    ensures LastIndexOf(ToLower(s), c) == LastIndexOf(s, c)
  {
    if s != [] {
      var n := |s| - 1;
      LowerPrefix(s, n);
      assert ToLower(s)[n] == c <==> s[n] == c;
      LastIndexOfLower(s[..n], c);
    }
  }
  /** Lower-casing a path lower-cases its file name. */
  lemma FileNameOfLower(path: string)
    ensures GetFileName(ToLower(path)) == ToLower(GetFileName(path))
  {
    LastIndexOfLower(path, Separator);
    LowerSuffix(path, LastIndexOf(path, Separator) + 1);
  }
  /** Lower-casing a name keeps its last '.' and lower-cases what follows it. */
  lemma DotOfLower(name: string)
    ensures LastIndexOf(ToLower(name), '.') == LastIndexOf(name, '.')
    ensures LastIndexOf(name, '.') >= 0 ==>
      ToLower(name)[LastIndexOf(name, '.')..] == ToLower(name[LastIndexOf(name, '.')..])
  {
    LastIndexOfLower(name, '.');
    var dot := LastIndexOf(name, '.');
    if dot >= 0 {
      LowerSuffix(name, dot);
    }
  }

  /** Lower-casing a path lower-cases its extension: no '/' or '.' moves. */
  lemma ExtensionOfLower(path: string)
    ensures GetExtension(ToLower(path)) == ToLower(GetExtension(path))
  {
    var name := GetFileName(path);
    FileNameOfLower(path);
    DotOfLower(name);
    var ln := ToLower(name);
    assert GetFileName(ToLower(path)) == ln;
    assert |ln| == |name|;
    var dot := LastIndexOf(name, '.');
    if dot == -1 || dot == |name| - 1 {
      assert GetExtension(path) == [];
      assert GetExtension(ToLower(path)) == [];
      assert ToLower([]) == [];
    } else {
      assert GetExtension(path) == name[dot..];
      assert GetExtension(ToLower(path)) == ln[dot..];
    }
  }

  lemma LowerOfLowerCase(s: string)
    requires forall i :: 0 <= i < |s| ==> !('A' <= s[i] <= 'Z')
    ensures ToLower(s) == s
  {
  }
}
