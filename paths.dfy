/**
 * The part of pathlib the pipeline uses: joining, the final name and its suffix,
 * for POSIX paths (`/` is the only separator and the only root).
 */
module Paths {
  import opened Results
  import opened Text

  /** A path as the sequence of its parts; an absolute path starts with the part Root. */
  type Path = seq<string>

  const Root := "/"

  /** The pieces of s between '/' characters, as Python's `s.split('/')`. */
  function SplitOn(s: string, sep: char): (r: seq<string>)
    ensures |r| > 0
    ensures forall i :: 0 <= i < |r| ==> sep !in r[i]
    decreases |s|
  {
    if |s| == 0 then [""]
    else
      var rest := SplitOn(s[1..], sep);
      if s[0] == sep then [""] + rest else [[s[0]] + rest[0]] + rest[1..]
  }

  /** Splitting loses nothing: joining the pieces with the separator gives s back. */
  lemma {:induction false} SplitOnRoundTrip(s: string, sep: char)
    ensures Join(SplitOn(s, sep), [sep]) == s
    decreases |s|
  {
    if |s| > 0 {
      var rest := SplitOn(s[1..], sep);
      SplitOnRoundTrip(s[1..], sep);
      if s[0] == sep {
        assert ([""] + rest)[1..] == rest;
      } else {
        var r := [[s[0]] + rest[0]] + rest[1..];
        if |rest| == 1 {
          assert r == [[s[0]] + rest[0]];
        } else {
          assert r[1..] == rest[1..];
          assert Join(rest, [sep]) == rest[0] + [sep] + Join(rest[1..], [sep]);
        }
      }
    }
  }

  /** The pieces pathlib keeps from a path string: empty and "." pieces are dropped. */
  function Kept(pieces: seq<string>): (r: seq<string>)
    ensures forall i :: 0 <= i < |r| ==> r[i] != "" && r[i] != "." && r[i] in pieces
    ensures forall p :: p in pieces && p != "" && p != "." ==> p in r
    ensures |r| <= |pieces|
  {
    if |pieces| == 0 then []
    else (if pieces[0] == "" || pieces[0] == "." then [] else [pieces[0]]) + Kept(pieces[1..])
  }

  /** Keeping pieces is done piece by piece, so the kept pieces stay in their order. */
  lemma {:induction false} KeptAppend(a: seq<string>, b: seq<string>)
    ensures Kept(a + b) == Kept(a) + Kept(b)
    decreases |a|
  {
    if |a| > 0 {
      assert (a + b)[1..] == a[1..] + b;
      KeptAppend(a[1..], b);
    } else {
      assert a + b == b;
    }
  }

  /** The parts of a path string. */
  function Components(s: string): seq<string>
  {
    Kept(SplitOn(s, '/'))
  }

  /** No part of a path string is the root, since no part holds a '/'. */
  lemma LastComponentNotRoot(rel: string)
    ensures forall i :: 0 <= i < |Components(rel)| ==> Components(rel)[i] != Root
  {
    forall i | 0 <= i < |Components(rel)| ensures Components(rel)[i] != Root {
      assert Components(rel)[i] in SplitOn(rel, '/');
      assert Root[0] == '/';
    }
  }

  /**
   * `base / rel`: an absolute rel replaces base, otherwise its parts are appended,
   * so a relative rel keeps base as the start of the result.
   */
  function Append(base: Path, rel: string): (r: Path)
    ensures !(|rel| > 0 && rel[0] == '/') ==> |base| <= |r| && r[..|base|] == base
    ensures |rel| > 0 && rel[0] == '/' ==> |r| > 0 && r[0] == Root
  {
    if |rel| > 0 && rel[0] == '/' then [Root] + Components(rel) else base + Components(rel)
  }

  /**
   * The final name of `base / rel` is the last part of rel, or, when rel has no part,
   * the final name of base (none after a bare root).
   */
  lemma AppendName(base: Path, rel: string)
    ensures Components(rel) != [] ==> Name(Append(base, rel)) == Components(rel)[|Components(rel)| - 1]
    ensures Components(rel) == [] ==> Name(Append(base, rel)) == (if |rel| > 0 && rel[0] == '/' then "" else Name(base))
  {
    var parts := Components(rel);
    var r := Append(base, rel);
    if parts != [] {
      LastComponentNotRoot(rel);
      assert r[|r| - 1] == parts[|parts| - 1];
    } else if |rel| > 0 && rel[0] == '/' {
      assert r == [Root];
    } else {
      assert r == base;
    }
  }

  /** Path.name: the final part, or "" for an empty path or the bare root. */
  function Name(p: Path): string
  {
    if |p| == 0 || p[|p| - 1] == Root then "" else p[|p| - 1]
  }

  /** The position of the last '.' in s, if there is one. */
  function LastDot(s: string): (r: Option<nat>)
    ensures r.Some? ==> r.value < |s| && s[r.value] == '.'
    ensures r.Some? ==> forall j :: r.value < j < |s| ==> s[j] != '.'
    ensures r.None? ==> '.' !in s
    decreases |s|
  {
    if |s| == 0 then None
    else if s[|s| - 1] == '.' then Some(|s| - 1)
    else LastDot(s[..|s| - 1])
  }

  /**
   * Path.suffix of a final name: from its last '.', provided that dot is neither the
   * first nor the last character; otherwise "".
   */
  function Suffix(name: string): (r: string)
    ensures r == "" || (|r| >= 2 && r[0] == '.' && '.' !in r[1..] && |r| < |name| && r == name[|name| - |r|..])
  {
    match LastDot(name)
    case Some(i) => if 0 < i < |name| - 1 then name[i..] else ""
    case None => ""
  }

  /** The suffix is exactly the text after the name's last interior dot. */
  lemma SuffixIsTail(name: string)
    ensures Suffix(name) != "" ==> name == name[..|name| - |Suffix(name)|] + Suffix(name)
    ensures Suffix(name) != "" ==> |name| - |Suffix(name)| > 0
  {
  }

  /** Lower-casing moves no dot, so it finds the same last dot. */
  lemma {:induction false} LastDotLower(s: string)
    ensures LastDot(Lower(s)) == LastDot(s)
    decreases |s|
  {
    if |s| > 0 {
      assert Lower(s)[..|s| - 1] == Lower(s[..|s| - 1]);
      LastDotLower(s[..|s| - 1]);
    }
  }

  /** The suffix of a lower-cased name is the lower-cased suffix. */
  lemma SuffixLower(name: string)
    ensures Suffix(Lower(name)) == Lower(Suffix(name))
  {
    LastDotLower(name);
    match LastDot(name)
    case Some(i) =>
      if 0 < i < |name| - 1 {
        LowerDrop(name, i);
      }
    case None =>
  }
}
