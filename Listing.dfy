/**
 * The package enumeration shared by `find-issues` and `generate`: the sub-directories of the
 * packages directory, as `iterdir()` filtered by `is_dir()`, then `sorted`.
 */
module Listing {
  import opened Text
  import opened Sorting

  /** One entry of a directory listing, in the order `iterdir()` yields it. */
  datatype DirEntry = DirEntry(name: string, isDir: bool)

  /** Paths in one directory compare as their final names do. */
  function NameKey(name: string): string { name }

  /** The names of the sub-directories among `entries`, in listing order. */
  function SubdirectoryNames(entries: seq<DirEntry>): seq<string> {
    if |entries| == 0 then []
    else
      var last := entries[|entries| - 1];
      SubdirectoryNames(entries[..|entries| - 1]) + (if last.isDir then [last.name] else [])
  }

  /** A name is listed exactly when some directory entry (not a plain file) carries it. */
  lemma {:induction false} SubdirectoryNamesMembers(entries: seq<DirEntry>, name: string)
    ensures name in SubdirectoryNames(entries) <==> DirEntry(name, true) in entries
  {
    if |entries| > 0 {
      var init := entries[..|entries| - 1];
      SubdirectoryNamesMembers(init, name);
      assert entries == init + [entries[|entries| - 1]];
    }
  }

  /**
   * The loop over `iterdir()` that keeps the directories, followed by `sorted`: the result
   * lists every sub-directory, in ascending name order, and nothing else.
   */
  method SortedSubdirectories(entries: seq<DirEntry>) returns (names: seq<string>)
    ensures names == SortBy(SubdirectoryNames(entries), NameKey)
    ensures SortedBy(names, NameKey)
    ensures forall n :: n in names <==> DirEntry(n, true) in entries
  {
    var packages := [];
    for i := 0 to |entries|
      invariant packages == SubdirectoryNames(entries[..i])
    {
      assert entries[..i + 1][..i] == entries[..i];
      if entries[i].isDir {
        packages := packages + [entries[i].name];
      }
    }
    assert entries[..|entries|] == entries;
    names := SortBy(packages, NameKey);
    forall n ensures n in names <==> DirEntry(n, true) in entries {
      assert n in names <==> n in multiset(packages);
      SubdirectoryNamesMembers(entries, n);
    }
  }
}
