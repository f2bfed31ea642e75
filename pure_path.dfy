/**
 * pathlib's pure POSIX paths as string functions: a path is its root flag and
 * its '/'-separated components.
 */
module PurePath {
  import opened Strings

  /** A component: non-empty, not ".", and free of '/'. */
  predicate ValidPart(part: string) {
    part != "" && part != "." && '/' !in part
  }

  /** A parsed path: absolute when rooted at '/', and its components. */
  datatype Path = Path(absolute: bool, parts: seq<string>) {
    predicate Valid() {
      forall k :: 0 <= k < |parts| ==> ValidPart(parts[k])
    }
  }

  /** A path as Path(...) produces it. */
  type ValidPath = p: Path | p.Valid() witness Path(false, [])

  /** The pieces between separators that pathlib keeps: not empty and not ".". */
  function Components(pieces: seq<string>): (parts: seq<string>)
    requires forall k :: 0 <= k < |pieces| ==> '/' !in pieces[k]
    ensures forall k :: 0 <= k < |parts| ==> ValidPart(parts[k])
    ensures |parts| <= |pieces|
  {
    if pieces == [] then []
    else if pieces[0] == "" || pieces[0] == "." then Components(pieces[1..])
    else [pieces[0]] + Components(pieces[1..])
  }

  /** Path(s): "" and "." give the empty relative path. */
  function Parse(s: string): (p: ValidPath)
    ensures p.absolute <==> |s| > 0 && s[0] == '/'
  {
    Path(|s| > 0 && s[0] == '/', Components(Split(s, '/')))
  }

  /** str(path): the components joined by '/', after a root '/'; "." for the empty relative path. */
  function Render(p: ValidPath): string {
    if p.parts == [] then (if p.absolute then "/" else ".")
    else (if p.absolute then "/" else "") + Join(p.parts, '/')
  }

  /** Valid components survive Components unchanged. */
  lemma {:induction false} ComponentsKeepValidParts(parts: seq<string>)
    requires forall k :: 0 <= k < |parts| ==> ValidPart(parts[k])
    ensures forall k :: 0 <= k < |parts| ==> '/' !in parts[k]
    ensures Components(parts) == parts
  {
    if parts != [] {
      ComponentsKeepValidParts(parts[1..]);
      assert [parts[0]] + parts[1..] == parts;
    }
  }

  /** Parsing the rendering of a path gives back the path. */
  lemma ParseRender(p: ValidPath)
    ensures Parse(Render(p)) == p
  {
    if p.parts == [] {
      if p.absolute {
        assert Split("/", '/') == ["", ""] by { SplitAtFirstSeparator("", "", '/'); }
      } else {
        assert Split(".", '/') == ["."] by { SplitWithoutSeparator(".", '/'); }
      }
    } else if p.absolute {
      var pieces := [""] + p.parts;
      assert pieces[1..] == p.parts;
      assert Join(pieces, '/') == Render(p);
      SplitJoin(pieces, '/');
      ComponentsKeepValidParts(p.parts);
    } else {
      assert Render(p) == Join(p.parts, '/');
      SplitJoin(p.parts, '/');
      ComponentsKeepValidParts(p.parts);
    }
  }

  /** PurePath.name: the last component, or "" when there is none. */
  function Name(p: ValidPath): (n: string)
    ensures '/' !in n
    ensures n == "" <==> p.parts == []
  {
    if p.parts == [] then "" else p.parts[|p.parts| - 1]
  }

  /** PurePath.parent: the path without its last component; a root or "." is its own parent. */
  function Parent(p: ValidPath): (q: ValidPath)
    ensures q.absolute == p.absolute
    ensures p.parts == [] ==> q == p
    ensures p.parts != [] ==> q.parts + [Name(p)] == p.parts
  {
    if p.parts == [] then p else Path(p.absolute, p.parts[..|p.parts| - 1])
  }

  /** The index of the suffix's dot in a name, or -1 when the name has no suffix. */
  function SuffixDot(name: string): (i: int)
    ensures i == -1 || (0 < i < |name| - 1 && name[i] == '.' && '.' !in name[i + 1..])
  {
    var i := RFind(name, '.');
    if 0 < i < |name| - 1 then i else -1
  }

  /** PurePath.suffix: from the last dot of the name, unless that dot is first or last. */
  function Suffix(p: ValidPath): string {
    var n, i := Name(p), SuffixDot(Name(p));
    if i == -1 then "" else n[i..]
  }

  /** PurePath.stem: the name without its suffix. */
  function Stem(p: ValidPath): string {
    var n, i := Name(p), SuffixDot(Name(p));
    if i == -1 then n else n[..i]
  }

  /** p / name for a single component. */
  function JoinName(p: ValidPath, name: string): (q: ValidPath)
    requires ValidPart(name)
    ensures Name(q) == name && Parent(q) == p
  {
    Path(p.absolute, p.parts + [name])
  }

  /**
   * The stem followed by the suffix is the name, and a suffix is empty or a
   * dot followed by at least one character, none of them a dot.
   */
  lemma StemSuffixSplitName(p: ValidPath)
    ensures Stem(p) + Suffix(p) == Name(p)
    ensures Suffix(p) == "" || (|Suffix(p)| >= 2 && Suffix(p)[0] == '.' && '.' !in Suffix(p)[1..])
  {
    var n, i := Name(p), SuffixDot(Name(p));
    if i != -1 {
      assert n[..i] + n[i..] == n;
      assert n[i..][1..] == n[i + 1..];
    }
  }

  /**
   * A name "stem.ext", where the stem is non-empty and ext is non-empty and
   * has no dot, has that stem and the suffix ".ext".
   */
  lemma {:induction false} StemOfDottedName(p: ValidPath, stem: string, ext: string)
    requires stem != "" && ext != "" && '.' !in ext
    requires Name(p) == stem + "." + ext
    ensures Stem(p) == stem && Suffix(p) == "." + ext
  {
    var n := Name(p);
    var i := RFind(n, '.');
    assert n[|stem|] == '.';
    assert n[|stem| + 1..] == ext;
    assert n[..|stem|] == stem;
  }
}
