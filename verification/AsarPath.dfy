/** Splitting a path into the archive that contains it and the path inside. */
module AsarPath {
  import opened Wrappers

  /** A normalised path: its components below the root, or below the current directory. */
  type Path = seq<string>

  const EXTENSION := ".asar"

  function ToLower(c: char): char {
    if 'A' <= c <= 'Z' then (c as int + 32) as char else c
  }

  predicate MatchesExtension(path: Path) {
    path != [] &&
    var name := path[|path| - 1];
    |name| >= |EXTENSION| &&
    var from := |name| - |EXTENSION|;
    forall i :: 0 <= i < |EXTENSION| ==> ToLower(name[from + i]) == EXTENSION[i]
  }

  /** The name of an archive is anything followed by the five letters, in upper or lower case. */
  lemma ArchiveNames(path: Path)
    ensures MatchesExtension(path)
       <==> path != [] && exists stem: string, ext: string ::
              path[|path| - 1] == stem + ext && |ext| == 5
              && forall i :: 0 <= i < 5 ==> ext[i] == ".asar"[i] || ext[i] == ".ASAR"[i]
  {
    if path != [] {
      var name := path[|path| - 1];
      if MatchesExtension(path) {
        var from := |name| - 5;
        assert name == name[..from] + name[from..];
        forall i | 0 <= i < 5 ensures name[from..][i] == ".asar"[i] || name[from..][i] == ".ASAR"[i] {
          assert ToLower(name[from + i]) == EXTENSION[i];
          UpperOrLower(name[from + i], i);
        }
      }
      if stem: string, ext: string :|
        name == stem + ext && |ext| == 5 && forall i :: 0 <= i < 5 ==> ext[i] == ".asar"[i] || ext[i] == ".ASAR"[i]
      {
        forall i | 0 <= i < 5 ensures ToLower(name[|name| - 5 + i]) == EXTENSION[i] {
          assert name[|name| - 5 + i] == ext[i];
          UpperOrLower(ext[i], i);
        }
      }
    }
  }

  lemma UpperOrLower(c: char, i: nat)
    requires i < 5
    ensures ToLower(c) == EXTENSION[i] <==> c == ".asar"[i] || c == ".ASAR"[i]
  {}

  /** The parent; the root and the current directory are their own. */
  function DirName(path: Path): Path {
    if path == [] then [] else path[..|path| - 1]
  }

  /** The rest of `child` below a proper ancestor. */
  function RelativePath(ancestor: Path, child: Path): Option<Path> {
    if ancestor < child then Some(child[|ancestor|..]) else None
  }

  /** Succeeds exactly when the path itself is no archive and some proper ancestor is, and then splits at the
      longest such ancestor. */
  method GetAsarArchivePath(fullPath: Path) returns (r: Option<(Path, Path)>)
    ensures r.Some? <==> !MatchesExtension(fullPath)
                         && exists k :: 0 <= k < |fullPath| && MatchesExtension(fullPath[..k])
    ensures r.Some? ==>
              && r.value.0 + r.value.1 == fullPath && r.value.1 != []
              && MatchesExtension(r.value.0)
              && forall k :: |r.value.0| < k <= |fullPath| ==> !MatchesExtension(fullPath[..k])
  {
    assert fullPath[..|fullPath|] == fullPath;
    var iter := fullPath;
    while true
      invariant iter <= fullPath
      invariant forall k :: |iter| < k <= |fullPath| ==> !MatchesExtension(fullPath[..k])
      decreases |iter|
    {
      var dirname := DirName(iter);
      if MatchesExtension(iter) {
        break;
      } else if iter == dirname {
        return None;
      }
      assert iter == fullPath[..|iter|];
      iter := dirname;
    }
    assert iter == fullPath[..|iter|];
    var tail := RelativePath(iter, fullPath);
    if tail.None? {
      return None;
    }
    return Some((iter, tail.value));
  }
}
