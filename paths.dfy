/** POSIX path handling as Python's `posixpath` does it for the three calls
    the converters make: `basename`, `splitext` and a two-part `join`. */
module Paths {

  /** `s.rfind(c)`: the index of the last `c` in `s`, or -1. */
  function RFind(s: string, c: char): (r: int)
    ensures -1 <= r < |s|
    ensures r == -1 <==> c !in s
    ensures r >= 0 ==> s[r] == c
    ensures forall i :: r < i < |s| ==> s[i] != c
  {
    if s == [] then -1
    else if s[|s| - 1] == c then |s| - 1
    else RFind(s[..|s| - 1], c)
  }

  /** `os.path.basename(p)`: everything after the last '/'. */
  function Basename(p: string): string {
    p[RFind(p, '/') + 1..]
  }

  /** The basename is the slash-free tail of the path, cut right after a
      '/' (or the whole path when it has none). */
  lemma BasenameSpec(p: string)
    ensures var r := Basename(p);
            && '/' !in r
            && |r| <= |p| && r == p[|p| - |r|..]
            && (|r| < |p| ==> p[|p| - |r| - 1] == '/')
  {
    var j := RFind(p, '/');
    var r := Basename(p);
    forall i | 0 <= i < |r| ensures r[i] != '/' {
      assert r[i] == p[j + 1 + i];
    }
  }

  predicate AllDots(s: string) {
    forall i :: 0 <= i < |s| ==> s[i] == '.'
  }

  /** `os.path.splitext(name)` for a name without '/': the extension runs
      from the last '.' to the end, unless everything before that dot is
      dots too (a hidden file such as ".profile" has no extension). */
  function SplitExt(name: string): (r: (string, string))
    ensures r.0 + r.1 == name
    ensures r.1 == [] || (r.1[0] == '.' && '.' !in r.1[1..] && !AllDots(r.0))
    ensures r.1 == [] ==> forall i :: 0 <= i < |name| && name[i] == '.' ==> AllDots(name[..i])
  {
    var dot := RFind(name, '.');
    if dot > 0 && !AllDots(name[..dot]) then
      assert name[..dot] + name[dot..] == name;
      (name[..dot], name[dot..])
    else
      assert forall i :: 0 <= i < |name| && name[i] == '.' ==> AllDots(name[..i]) by {
        forall i | 0 <= i < |name| && name[i] == '.' ensures AllDots(name[..i]) {
          assert i <= dot;
          assert forall k :: 0 <= k < i ==> name[..i][k] == name[..dot][k];
        }
      }
      (name, [])
  }

  /** `os.path.join(folder, name)` */
  function JoinPath(folder: string, name: string): (r: string)
    ensures name != [] && name[0] == '/' ==> r == name
    ensures (name == [] || name[0] != '/') ==>
              r == folder + name || r == folder + "/" + name
  {
    if name != [] && name[0] == '/' then name
    else if folder == [] || folder[|folder| - 1] == '/' then folder + name
    else folder + "/" + name
  }

  /** A relative name joined to a folder lands inside that folder. */
  lemma JoinPathInFolder(folder: string, name: string)
    requires name == [] || name[0] != '/'
    ensures var r := JoinPath(folder, name);
            |folder| <= |r| && r[..|folder|] == folder
  {
    var r := JoinPath(folder, name);
    if folder == [] || folder[|folder| - 1] == '/' {
      assert r == folder + name;
    } else {
      assert r == folder + ("/" + name);
    }
  }

  /** Joining a bare file name to a folder keeps that name as the basename. */
  lemma BasenameOfJoin(folder: string, name: string)
    requires '/' !in name
    ensures Basename(JoinPath(folder, name)) == name
  {
    var p := JoinPath(folder, name);
    var j := RFind(p, '/');
    if folder == [] {
      assert p == name;
    } else {
      assert p[|p| - |name| - 1] == '/';
      assert p[|p| - |name|..] == name;
      assert forall i :: |p| - |name| <= i < |p| ==> p[i] == name[i - (|p| - |name|)];
      assert j == |p| - |name| - 1;
    }
  }

  /** Inserting a slash-free tag into a slash-free name leaves no slash. */
  lemma TaggedNameHasNoSlash(name: string, tag: string)
    requires '/' !in name && '/' !in tag && tag != []
    ensures var (stem, ext) := SplitExt(name);
            '/' !in stem + tag + ext
  {
    var (stem, ext) := SplitExt(name);
    var t := stem + tag + ext;
    forall i | 0 <= i < |t| ensures t[i] != '/' {
      if i < |stem| {
        assert t[i] == name[i];
      } else if i < |stem| + |tag| {
        assert t[i] == tag[i - |stem|];
      } else {
        assert t[i] == name[i - |tag|];
      }
    }
  }

  /** A name without an extension stays without one when a dot-free tag is
      appended: its last '.', if any, is still the one that decides. */
  lemma {:induction false} SplitExtAfterTagNoExt(name: string, tag: string)
    requires tag != [] && tag[0] != '.' && '.' !in tag
    requires SplitExt(name).1 == []
    ensures SplitExt(name + tag) == (name + tag, [])
  {
    var tagged := name + tag;
    var d := RFind(name, '.');
    assert forall i :: 0 <= i < |name| ==> tagged[i] == name[i];
    forall i | |name| <= i < |tagged| ensures tagged[i] != '.' {
      assert tagged[i] == tag[i - |name|];
      assert tag[i - |name|] in tag;
    }
    assert RFind(tagged, '.') == d;
    if d > 0 {
      assert tagged[..d] == name[..d];
    }
  }

  /** A name with an extension keeps it when a dot-free tag goes between
      stem and extension. */
  lemma SplitExtAfterTagWithExt(stem: string, tag: string, ext: string)
    requires tag != [] && tag[0] != '.' && '.' !in tag
    requires ext != [] && ext[0] == '.' && '.' !in ext[1..]
    ensures SplitExt(stem + tag + ext) == (stem + tag, ext)
  {
    var tagged := stem + tag + ext;
    var d := |stem| + |tag|;
    assert tagged[d] == '.';
    forall i | d < i < |tagged| ensures tagged[i] != '.' {
      assert tagged[i] == ext[1..][i - d - 1];
    }
    assert RFind(tagged, '.') == d;
    assert tagged[..d] == stem + tag;
    assert (stem + tag)[|stem|] == tag[0];
    assert tagged[d..] == ext;
  }

  /** Appending a dot-free tag to the stem keeps the extension: splitting
      `stem + tag + ext` gives back `stem + tag` and the same `ext`. */
  lemma SplitExtAfterTag(name: string, tag: string)
    requires tag != [] && tag[0] != '.' && '.' !in tag
    ensures var (stem, ext) := SplitExt(name);
            SplitExt(stem + tag + ext) == (stem + tag, ext)
  {
    var (stem, ext) := SplitExt(name);
    if ext == [] {
      assert stem + tag + ext == name + tag;
      SplitExtAfterTagNoExt(name, tag);
    } else {
      SplitExtAfterTagWithExt(stem, tag, ext);
    }
  }
}
