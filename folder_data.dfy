/**
 * The classification that `getFolderData` (util.mjs) applies to a directory
 * listing once `readdir` has returned it: entries are split, in order, into
 * sub-directory names and other names, and two flags are derived.
 */
module FolderData {

  /** One `Dirent` of a `readdir(..., {withFileTypes: true})` listing. */
  datatype Entry = Entry(name: string, isDirectory: bool)

  /** The record `getFolderData` resolves with. */
  datatype FolderData = FolderData(
    dirs: seq<string>,
    files: seq<string>,
    isEmpty: bool,
    hasOnlyOneDir: bool,
    entries: seq<Entry>)

  /** Names of the directory entries, in listing order. */
  function DirNames(contents: seq<Entry>): seq<string>
  {
    if contents == [] then []
    else
      var last := contents[|contents| - 1];
      DirNames(contents[..|contents| - 1]) + (if last.isDirectory then [last.name] else [])
  }

  /** Names of the entries that are not directories, in listing order. */
  function FileNames(contents: seq<Entry>): seq<string>
  {
    if contents == [] then []
    else
      var last := contents[|contents| - 1];
      FileNames(contents[..|contents| - 1]) + (if last.isDirectory then [] else [last.name])
  }

  /** All names of a listing, in listing order. */
  function Names(contents: seq<Entry>): (r: seq<string>)
    ensures |r| == |contents|
    ensures forall i :: 0 <= i < |contents| ==> r[i] == contents[i].name
  {
    seq(|contents|, i requires 0 <= i < |contents| => contents[i].name)
  }

  /** `data` is what `getFolderData` builds from the listing `contents`. */
  predicate Classifies(data: FolderData, contents: seq<Entry>)
  {
    && data.dirs == DirNames(contents) && data.files == FileNames(contents)
    && (data.isEmpty <==> data.files == [] && data.dirs == [])
    && (data.hasOnlyOneDir <==> data.files == [] && |data.dirs| == 1)
    && data.entries == contents
  }

  /**
   * `getFolderData` after `readdir`: pushes each entry onto `dirs` or `files`
   * and then sets `isEmpty`, `entries` and `hasOnlyOneDir` field by field.
   */
  method GetFolderData(contents: seq<Entry>) returns (data: FolderData)
    ensures Classifies(data, contents)
    ensures data.isEmpty <==> contents == []
    ensures data.hasOnlyOneDir <==> |contents| == 1 && contents[0].isDirectory
    ensures data.hasOnlyOneDir ==> data.dirs == [contents[0].name]
    ensures !(data.isEmpty && data.hasOnlyOneDir)
  {
    data := FolderData([], [], false, false, []);
    var i := 0;
    while i < |contents|
      invariant 0 <= i <= |contents|
      invariant data.dirs == DirNames(contents[..i]) && data.files == FileNames(contents[..i])
      invariant !data.isEmpty && !data.hasOnlyOneDir && data.entries == []
    {
      assert contents[..i + 1][..i] == contents[..i];
      if contents[i].isDirectory {
        data := data.(dirs := data.dirs + [contents[i].name]);
      } else {
        data := data.(files := data.files + [contents[i].name]);
      }
      i := i + 1;
    }
    assert contents[..i] == contents;
    PartitionCount(contents);
    data := data.(isEmpty := |data.files| == 0 && |data.dirs| == 0);
    data := data.(entries := contents);
    data := data.(hasOnlyOneDir := |data.files| == 0 && |data.dirs| == 1);
    if data.hasOnlyOneDir {
      SingleDirectory(contents);
    }
  }

  /** Every entry lands in exactly one of the two lists. */
  lemma {:induction false} PartitionCount(contents: seq<Entry>)
    ensures |DirNames(contents)| + |FileNames(contents)| == |contents|
  {
    if contents != [] {
      PartitionCount(contents[..|contents| - 1]);
    }
  }

  /** The two lists together hold exactly the names of the listing. */
  lemma {:induction false} PartitionNames(contents: seq<Entry>)
    ensures multiset(DirNames(contents)) + multiset(FileNames(contents)) == multiset(Names(contents))
  {
    if contents != [] {
      var init := contents[..|contents| - 1];
      PartitionNames(init);
      assert Names(contents) == Names(init) + [contents[|contents| - 1].name];
    }
  }

  /** A name is in `dirs` exactly when some directory entry carries it, and likewise for `files`. */
  lemma {:induction false} PartitionMembers(contents: seq<Entry>, n: string)
    ensures n in DirNames(contents) <==> exists e :: e in contents && e.isDirectory && e.name == n
    ensures n in FileNames(contents) <==> exists e :: e in contents && !e.isDirectory && e.name == n
  {
    if contents != [] {
      var init, last := contents[..|contents| - 1], contents[|contents| - 1];
      PartitionMembers(init, n);
      assert contents == init + [last];
      assert forall e :: e in contents <==> e in init || e == last;
    }
  }

  /** A listing whose only entry is a directory, and nothing else, has exactly one dir and no file. */
  lemma {:induction false} SingleDirectory(contents: seq<Entry>)
    requires FileNames(contents) == [] && |DirNames(contents)| == 1
    ensures |contents| == 1 && contents[0].isDirectory
    ensures DirNames(contents) == [contents[0].name]
  {
    PartitionCount(contents);
    assert contents == [] + [contents[0]];
  }
}
