/** Python's `os.path.splitext`, the only path operation the settings loader
    uses. The separator set depends on the platform module (`posixpath` uses
    `/`; `ntpath` also accepts `\`). */
module PyPath {
  datatype PathFlavour = Posix | Windows

  function Separators(f: PathFlavour): set<char> {
    match f
    case Posix => {'/'}
    case Windows => {'/', '\\'}
  }

  /** Index of the last character of `s` in `cs`, or -1 (`str.rfind`). */
  function LastIndexIn(s: string, cs: set<char>): (i: int)
    ensures -1 <= i < |s|
    ensures i >= 0 ==> s[i] in cs
    ensures forall j :: i < j < |s| ==> s[j] !in cs
  {
    if |s| == 0 then -1
    else if s[|s| - 1] in cs then |s| - 1
    else LastIndexIn(s[..|s| - 1], cs)
  }

  /** The last path component of `p`. */
  function BaseName(p: string, f: PathFlavour): (b: string)
    ensures forall i :: 0 <= i < |b| ==> b[i] !in Separators(f)
  {
    p[LastIndexIn(p, Separators(f)) + 1..]
  }

  /** Some character of `name` is not a dot: leading dots alone (`.bashrc`,
      `..`) never start an extension. */
  predicate HasStem(name: string) {
    exists k :: 0 <= k < |name| && name[k] != '.'
  }

  /** A suffix `splitext` may split off: one dot followed by characters that
      are neither dots nor separators. */
  predicate IsExtension(ext: string, f: PathFlavour) {
    && |ext| >= 1
    && ext[0] == '.'
    && forall i :: 1 <= i < |ext| ==> ext[i] != '.' && ext[i] !in Separators(f)
  }

  /** `os.path.splitext(p)`: split at the last dot of the last component,
      unless every character before that dot in the component is a dot. */
  function SplitExt(p: string, f: PathFlavour): (r: (string, string))
    ensures r.0 + r.1 == p
    ensures r.1 == "" || IsExtension(r.1, f)
    ensures r.1 != "" ==> HasStem(BaseName(r.0, f))
  {
    var sepIndex := LastIndexIn(p, Separators(f));
    var dotIndex := LastIndexIn(p, {'.'});
    if dotIndex > sepIndex && HasStem(p[sepIndex + 1..dotIndex]) then
      SplitAtDot(p, f, sepIndex, dotIndex);
      (p[..dotIndex], p[dotIndex..])
    else
      (p, "")
  }

  /** The facts `SplitExt` promises about a split at `dotIndex`. */
  lemma SplitAtDot(p: string, f: PathFlavour, sepIndex: int, dotIndex: int)
    requires sepIndex == LastIndexIn(p, Separators(f))
    requires dotIndex == LastIndexIn(p, {'.'})
    requires dotIndex > sepIndex && HasStem(p[sepIndex + 1..dotIndex])
    ensures p[..dotIndex] + p[dotIndex..] == p
    ensures IsExtension(p[dotIndex..], f)
    ensures HasStem(BaseName(p[..dotIndex], f))
  {
    LastIndexPrefix(p, dotIndex, Separators(f));
    assert BaseName(p[..dotIndex], f) == p[sepIndex + 1..dotIndex];
  }

  /** A separator-free tail does not move the last separator. */
  lemma {:induction false} LastIndexPrefix(p: string, n: nat, cs: set<char>)
    requires n <= |p|
    requires LastIndexIn(p, cs) < n
    ensures LastIndexIn(p[..n], cs) == LastIndexIn(p, cs)
  {
    if n < |p| {
      assert p[..|p| - 1][..n] == p[..n];
      LastIndexPrefix(p[..|p| - 1], n, cs);
    }
  }

  lemma {:induction false} LastIndexAppend(a: string, b: string, cs: set<char>)
    requires forall i :: 0 <= i < |b| ==> b[i] !in cs
    ensures LastIndexIn(a + b, cs) == LastIndexIn(a, cs)
  {
    if |b| > 0 {
      assert (a + b)[..|a + b| - 1] == a + b[..|b| - 1];
      LastIndexAppend(a, b[..|b| - 1], cs);
    } else {
      assert a + b == a;
    }
  }

  /** A tail whose only member of `cs` is its first character puts the last
      match right after `a`. */
  lemma {:induction false} LastIndexAppendHit(a: string, b: string, cs: set<char>)
    requires |b| > 0 && b[0] in cs
    requires forall i :: 1 <= i < |b| ==> b[i] !in cs
    ensures LastIndexIn(a + b, cs) == |a|
  {
    var s := a + b;
    if |b| > 1 {
      assert s[|s| - 1] == b[|b| - 1];
      assert s[..|s| - 1] == a + b[..|b| - 1];
      LastIndexAppendHit(a, b[..|b| - 1], cs);
    } else {
      assert s[|s| - 1] == b[0];
    }
  }

  /** `splitext` undoes appending an extension to a name with a stem. */
  lemma SplitExtAppend(stem: string, ext: string, f: PathFlavour)
    requires HasStem(BaseName(stem, f))
    requires IsExtension(ext, f)
    ensures SplitExt(stem + ext, f) == (stem, ext)
  {
    var p := stem + ext;
    var sepIndex := LastIndexIn(stem, Separators(f));
    ExtensionKeepsSeparator(stem, ext, f);
    LastIndexAppendHit(stem, ext, {'.'});
    assert p[sepIndex + 1..|stem|] == BaseName(stem, f);
    SplitExtAt(p, f, sepIndex, |stem|);
    assert p[..|stem|] == stem && p[|stem|..] == ext;
  }

  /** An extension contains no separator, so appending one leaves the last
      separator where it was. */
  lemma ExtensionKeepsSeparator(stem: string, ext: string, f: PathFlavour)
    requires IsExtension(ext, f)
    ensures LastIndexIn(stem + ext, Separators(f)) == LastIndexIn(stem, Separators(f))
  {
    var seps := Separators(f);
    assert '.' !in seps;
    forall i | 0 <= i < |ext|
      ensures ext[i] !in seps
    {
    }
    LastIndexAppend(stem, ext, seps);
  }

  /** `splitext` splits at the last dot when it passes the stem test. */
  lemma SplitExtAt(p: string, f: PathFlavour, sepIndex: int, dotIndex: int)
    requires sepIndex == LastIndexIn(p, Separators(f))
    requires dotIndex == LastIndexIn(p, {'.'})
    requires dotIndex > sepIndex && HasStem(p[sepIndex + 1..dotIndex])
    ensures SplitExt(p, f) == (p[..dotIndex], p[dotIndex..])
  {
  }

  /** A last component without dots has no extension. */
  lemma SplitExtNoDot(p: string, f: PathFlavour)
    requires '.' !in BaseName(p, f)
    ensures SplitExt(p, f) == (p, "")
  {
    var sepIndex := LastIndexIn(p, Separators(f));
    assert LastIndexIn(p, {'.'}) <= sepIndex by {
      NoDotAfter(p, sepIndex, BaseName(p, f));
    }
  }

  /** No dot follows `sepIndex` when the tail after it is dot-free. */
  lemma NoDotAfter(p: string, sepIndex: int, tail: string)
    requires -1 <= sepIndex < |p|
    requires tail == p[sepIndex + 1..] && '.' !in tail
    ensures LastIndexIn(p, {'.'}) <= sepIndex
  {
    forall j | sepIndex < j < |p|
      ensures p[j] != '.'
    {
      assert p[j] == tail[j - sepIndex - 1];
    }
  }

  lemma SplitExtExampleMp4()
    ensures SplitExt("clip.mp4", Posix) == ("clip", ".mp4")
  {
    assert HasStem(BaseName("clip", Posix)) by {
      assert BaseName("clip", Posix)[0] == 'c';
    }
    assert IsExtension(".mp4", Posix);
    SplitExtAppend("clip", ".mp4", Posix);
    assert "clip" + ".mp4" == "clip.mp4";
  }

  lemma SplitExtExampleDottedDirectory()
    ensures SplitExt("dir.v2/clip", Posix) == ("dir.v2/clip", "")
  {
    LastIndexAppend("dir.v2/", "clip", {'/'});
    assert "dir.v2/" + "clip" == "dir.v2/clip";
    assert BaseName("dir.v2/clip", Posix) == "clip";
    SplitExtNoDot("dir.v2/clip", Posix);
  }
}
