/**
 * The folder-planning routines of mrn.mjs: finding empty sub-folders, planning
 * the renames that lift a lone child folder up one level, and planning the
 * moves that group `Artist - YYYY - Album` folders under an `Artist` folder.
 * The directory tree is a value: each readable directory path mapped to its
 * listing; reading a path that is not in the map rejects, as `readdir` would.
 */
module Mrn {
  import opened Wrappers
  import opened FolderData
  import opened AlbumName
  import opened Seqs

  type Disk = map<string, seq<Entry>>

  /** `path.join(parent, child)`, without normalisation. */
  function Join(parent: string, child: string): string
  {
    parent + "/" + child
  }

  /** The full paths of the sub-directories `names` of `parent`. */
  function SubPaths(parent: string, names: seq<string>): (r: seq<string>)
    ensures |r| == |names| && forall i :: 0 <= i < |names| ==> r[i] == Join(parent, names[i])
  {
    seq(|names|, i requires 0 <= i < |names| => Join(parent, names[i]))
  }

  /** Every path of `paths` can be listed. */
  predicate AllListed(disk: Disk, paths: seq<string>)
  {
    forall i :: 0 <= i < |paths| ==> paths[i] in disk
  }

  /**
   * `p` is the path on which listing `parentDir` and then its sub-directories
   * one by one first rejects: `parentDir` itself, or else the first
   * sub-directory, in listing order, that cannot be listed.
   */
  predicate FirstUnlisted(disk: Disk, parentDir: string, p: string)
  {
    if parentDir !in disk then p == parentDir
    else
      var subs := SubPaths(parentDir, DirNames(disk[parentDir]));
      exists i :: 0 <= i < |subs| && p == subs[i] && subs[i] !in disk && AllListed(disk, subs[..i])
  }

  /** At most one path is the first to reject, and it cannot be listed. */
  lemma FirstUnlistedUnique(disk: Disk, parentDir: string, p: string, q: string)
    requires FirstUnlisted(disk, parentDir, p) && FirstUnlisted(disk, parentDir, q)
    ensures p == q && p !in disk
  {
  }

  // ---------------------------------------------------------------- getEmptyFolders

  /** The paths of `paths` whose listing is empty, in order. */
  function EmptyOnes(disk: Disk, paths: seq<string>): seq<string>
    requires AllListed(disk, paths)
  {
    if paths == [] then []
    else
      var last := paths[|paths| - 1];
      EmptyOnes(disk, paths[..|paths| - 1]) + (if disk[last] == [] then [last] else [])
  }

  /** `getEmptyFolders(parentDir)`. */
  method GetEmptyFolders(disk: Disk, parentDir: string) returns (r: Result<seq<string>>)
    ensures r.Ok? <==> parentDir in disk && AllListed(disk, SubPaths(parentDir, DirNames(disk[parentDir])))
    ensures r.Err? ==> r.path !in disk && FirstUnlisted(disk, parentDir, r.path)
    ensures r.Ok? ==> r.value == EmptyOnes(disk, SubPaths(parentDir, DirNames(disk[parentDir])))
  {
    if parentDir !in disk {
      return Err(parentDir);
    }
    var currentDirData := GetFolderData(disk[parentDir]);
    ghost var subs := SubPaths(parentDir, currentDirData.dirs);
    var emptySubFolderNames := [];
    for i := 0 to |currentDirData.dirs|
      invariant AllListed(disk, subs[..i])
      invariant emptySubFolderNames == EmptyOnes(disk, subs[..i])
    {
      var subDirFullName := Join(parentDir, currentDirData.dirs[i]);
      if subDirFullName !in disk {
        return Err(subDirFullName);
      }
      TakeOneMore(subs, i);
      var subDirData := GetFolderData(disk[subDirFullName]);
      if subDirData.isEmpty {
        emptySubFolderNames := emptySubFolderNames + [subDirFullName];
      }
    }
    assert subs[..|subs|] == subs;
    return Ok(emptySubFolderNames);
  }

  /** Exactly the listed paths with an empty listing are reported. */
  lemma {:induction false} EmptyOnesMembers(disk: Disk, paths: seq<string>, p: string)
    requires AllListed(disk, paths)
    ensures p in EmptyOnes(disk, paths) <==> p in paths && disk[p] == []
    ensures |EmptyOnes(disk, paths)| <= |paths|
  {
    if paths != [] {
      var init := paths[..|paths| - 1];
      EmptyOnesMembers(disk, init, p);
      assert paths == init + [paths[|paths| - 1]];
    }
  }

  // ---------------------------------------------------------------- getSubDirRenames

  datatype Rename = Rename(from: string, to: string)

  /** The rename planned for the sub-folder `subFolderPath` whose only entry is the directory `only`. */
  function LiftRename(parentDir: string, subFolderPath: string, only: string): Rename
  {
    Rename(Join(Join(parentDir, subFolderPath), only), Join(parentDir, subFolderPath + " - " + only))
  }

  /** A listing holding one directory and nothing else. */
  predicate IsLoneDir(listing: seq<Entry>)
  {
    |listing| == 1 && listing[0].isDirectory
  }

  /** The renames planned for the sub-folders `paths` of `parentDir`, in order. */
  function RenamesOf(disk: Disk, parentDir: string, paths: seq<string>): seq<Rename>
    requires AllListed(disk, paths)
  {
    if paths == [] then []
    else
      var last := paths[|paths| - 1];
      RenamesOf(disk, parentDir, paths[..|paths| - 1])
        + (if IsLoneDir(disk[last]) then [LiftRename(parentDir, last, disk[last][0].name)] else [])
  }

  /** `getSubDirRenames(parentDir)`. */
  method GetSubDirRenames(disk: Disk, parentDir: string) returns (r: Result<seq<Rename>>)
    ensures r.Ok? <==> parentDir in disk && AllListed(disk, SubPaths(parentDir, DirNames(disk[parentDir])))
    ensures r.Err? ==> r.path !in disk && FirstUnlisted(disk, parentDir, r.path)
    ensures r.Ok? ==> r.value == RenamesOf(disk, parentDir, SubPaths(parentDir, DirNames(disk[parentDir])))
  {
    if parentDir !in disk {
      return Err(parentDir);
    }
    var folderData := GetFolderData(disk[parentDir]);
    ghost var subs := SubPaths(parentDir, folderData.dirs);
    var renames := [];
    for i := 0 to |folderData.dirs|
      invariant AllListed(disk, subs[..i])
      invariant renames == RenamesOf(disk, parentDir, subs[..i])
    {
      var subFolderPath := Join(parentDir, folderData.dirs[i]);
      if subFolderPath !in disk {
        return Err(subFolderPath);
      }
      TakeOneMore(subs, i);
      var subFolderData := GetFolderData(disk[subFolderPath]);
      if subFolderData.hasOnlyOneDir {
        var onlySubFolderName := subFolderData.dirs[0];
        renames := renames + [Rename(
          Join(Join(parentDir, subFolderPath), onlySubFolderName),
          Join(parentDir, subFolderPath + " - " + onlySubFolderName))];
      }
    }
    assert subs[..|subs|] == subs;
    return Ok(renames);
  }

  /**
   * One rename per sub-folder whose listing is a single directory: a rename is
   * planned exactly when some such sub-folder yields it.
   */
  lemma {:induction false} RenamesOfMembers(disk: Disk, parentDir: string, paths: seq<string>, rn: Rename)
    requires AllListed(disk, paths)
    ensures rn in RenamesOf(disk, parentDir, paths) <==>
      exists p :: p in paths && IsLoneDir(disk[p]) && rn == LiftRename(parentDir, p, disk[p][0].name)
    ensures |RenamesOf(disk, parentDir, paths)| <= |paths|
  {
    if paths != [] {
      var init, last := paths[..|paths| - 1], paths[|paths| - 1];
      RenamesOfMembers(disk, parentDir, init, rn);
      assert paths == init + [last];
      assert forall p :: p in paths <==> p in init || p == last;
    }
  }

  /** `moveChildFolders`: the renames carried out, given the answer to the prompt. */
  method MoveChildFolders(disk: Disk, currentDir: string, confirmed: bool) returns (r: Result<seq<Rename>>)
    ensures r.Ok? <==> currentDir in disk && AllListed(disk, SubPaths(currentDir, DirNames(disk[currentDir])))
    ensures r.Err? ==> r.path !in disk && FirstUnlisted(disk, currentDir, r.path)
    ensures r.Ok? ==> var planned := RenamesOf(disk, currentDir, SubPaths(currentDir, DirNames(disk[currentDir])));
      r.value == if planned != [] && confirmed then planned else []
  {
    var renames := GetSubDirRenames(disk, currentDir);
    if renames.Err? {
      return renames;
    }
    var moved := [];
    if |renames.value| > 0 {
      if confirmed {
        moved := renames.value;
      }
    }
    return Ok(moved);
  }

  /** `removeEmptyFolders`: the folders deleted, given the answer to the prompt. */
  method RemoveEmptyFolders(disk: Disk, currentDir: string, confirmed: bool) returns (r: Result<seq<string>>)
    ensures r.Ok? <==> currentDir in disk && AllListed(disk, SubPaths(currentDir, DirNames(disk[currentDir])))
    ensures r.Err? ==> r.path !in disk && FirstUnlisted(disk, currentDir, r.path)
    ensures r.Ok? ==> var planned := EmptyOnes(disk, SubPaths(currentDir, DirNames(disk[currentDir])));
      r.value == if planned != [] && confirmed then planned else []
  {
    var foldersToDelete := GetEmptyFolders(disk, currentDir);
    if foldersToDelete.Err? {
      return foldersToDelete;
    }
    var deleted := [];
    if |foldersToDelete.value| > 0 {
      if confirmed {
        deleted := foldersToDelete.value;
      }
    }
    return Ok(deleted);
  }

  // ---------------------------------------------------------------- groupByArtist

  /** One planned move: the record `groupByArtist` pushes for a matching folder. */
  datatype FolderMove = FolderMove(from: string, to: string, folderName: string, data: AlbumFolder)

  /** The move planned for `folder`, whose match is `data`. */
  function PlannedMove(folder: string, data: AlbumFolder): (m: FolderMove)
    ensures m.from == folder && m.data == data
    ensures m.folderName == data.year + " - " + data.album && m.to == data.artist + "/" + m.folderName
  {
    var toFolderName := data.year + " - " + data.album;
    FolderMove(folder, data.artist + "/" + toFolderName, toFolderName, data)
  }

  /**
   * For a folder name on one line the planned move turns the `Artist - `
   * prefix into a parent folder: `from` is `artist - folderName` and `to` is
   * `artist/folderName`, with `folderName` starting with the year.
   */
  lemma MoveTurnsArtistIntoFolder(folder: string)
    requires NoLineTerminator(folder) && FolderToArtistAndData(folder).Some?
    ensures var data := FolderToArtistAndData(folder).value;
      var m := PlannedMove(folder, data);
      && m.from == data.artist + " - " + m.folderName
      && m.to == data.artist + "/" + m.folderName
      && m.folderName[..4] == data.year && IsYear(m.folderName[..4])
  {
    var data := FolderToArtistAndData(folder).value;
    WholeNameMatch(folder);
    MatchShape(folder);
    SplitMove(folder, data);
  }

  lemma SplitMove(folder: string, data: AlbumFolder)
    requires folder == data.artist + " - " + data.year + " - " + data.album && IsYear(data.year)
    ensures var m := PlannedMove(folder, data);
      && m.from == data.artist + " - " + m.folderName
      && m.to == data.artist + "/" + m.folderName
      && m.folderName[..4] == data.year
  {
    ConcatRight(data.artist, " - ", data.year, " - " + data.album);
    PrefixOfConcat(data.year, " - " + data.album);
  }

  /**
   * The properties every plain object inherits from `Object.prototype`.
   * `artistToFolder[artist] || []` yields the inherited value for these, which
   * is no array, and the `push` that follows throws a `TypeError`.
   */
  const InheritedKeys: set<string> := {
    "constructor", "__defineGetter__", "__defineSetter__", "hasOwnProperty",
    "__lookupGetter__", "__lookupSetter__", "isPrototypeOf", "propertyIsEnumerable",
    "toString", "valueOf", "__proto__", "toLocaleString"}

  /** `folder` matches, with an artist name that `artistToFolder` already inherits. */
  predicate Clashes(folder: string)
  {
    InheritedArtist(FolderToArtistAndData(folder))
  }

  predicate InheritedArtist(data: Option<AlbumFolder>)
  {
    data.Some? && data.value.artist in InheritedKeys
  }

  /** The index of the first folder, from `i` on, whose artist name makes the first loop throw. */
  function FirstClashFrom(names: seq<string>, i: nat): (r: Option<nat>)
    decreases |names| - i
    ensures r.Some? ==> i <= r.value < |names| && Clashes(names[r.value])
    ensures r.Some? ==> forall j :: i <= j < r.value ==> !Clashes(names[j])
    ensures r.None? ==> forall j :: i <= j < |names| ==> !Clashes(names[j])
  {
    if i >= |names| then None
    else if Clashes(names[i]) then Some(i)
    else FirstClashFrom(names, i + 1)
  }

  /** The index of the first folder whose artist name makes the first loop of `groupByArtist` throw. */
  function FirstClash(names: seq<string>): Option<nat>
  {
    FirstClashFrom(names, 0)
  }

  lemma FirstClashAt(names: seq<string>, i: nat)
    requires i < |names| && Clashes(names[i])
    requires forall j :: 0 <= j < i ==> !Clashes(names[j])
    ensures FirstClash(names) == Some(i)
  {
  }

  lemma NoClashOneMore(names: seq<string>, i: nat)
    requires i < |names| && !Clashes(names[i])
    requires forall j :: 0 <= j < i ==> !Clashes(names[j])
    ensures forall j :: 0 <= j < i + 1 ==> !Clashes(names[j])
  {
  }

  lemma NoClash(names: seq<string>)
    requires forall j :: 0 <= j < |names| ==> !Clashes(names[j])
    ensures FirstClash(names) == None
  {
  }

  /** `m` is the move planned for one of the folders `names`. */
  predicate IsPlanned(m: FolderMove, names: seq<string>)
  {
    m.from in names && FolderToArtistAndData(m.from) == Some(m.data) && m == PlannedMove(m.from, m.data)
  }

  /** The moves planned for the matching folders of `artist` among `names`, in listing order. */
  function MovesOf(names: seq<string>, artist: string): seq<FolderMove>
  {
    if names == [] then []
    else
      var last := names[|names| - 1];
      var data := FolderToArtistAndData(last);
      MovesOf(names[..|names| - 1], artist)
        + (if data.Some? && data.value.artist == artist then [PlannedMove(last, data.value)] else [])
  }

  /** The moves of `moves` that belong to `artist`, in order. */
  function ByArtist(moves: seq<FolderMove>, artist: string): seq<FolderMove>
  {
    if moves == [] then []
    else
      var last := moves[|moves| - 1];
      ByArtist(moves[..|moves| - 1], artist) + (if last.data.artist == artist then [last] else [])
  }

  /**
   * The planning part of `groupByArtist` over the listing's sub-directory names:
   * group the matching folders by artist, keep the artists with more than one
   * of them, and list their moves artist by artist. `artists` is the number of
   * artists kept.
   */
  method PlanGrouping(albumFolderNames: seq<string>) returns (filesToMove: seq<FolderMove>, artists: nat, clash: Option<nat>)
    ensures clash == FirstClash(albumFolderNames)
    ensures clash.None? ==>
      forall a :: ByArtist(filesToMove, a) == if |MovesOf(albumFolderNames, a)| > 1 then MovesOf(albumFolderNames, a) else []
    ensures forall m :: m in filesToMove ==> IsPlanned(m, albumFolderNames)
    ensures artists == 0 <==> filesToMove == []
  {
    filesToMove, artists := [], 0;
    var artistToFolder, keys;
    artistToFolder, keys, clash := CollectByArtist(albumFolderNames);
    if clash.Some? {
      return;
    }
    var withMoreThanOneAlbum, keptKeys := KeepSeveralAlbums(albumFolderNames, artistToFolder, keys);
    artists := |keptKeys|;
    if artists > 0 {
      filesToMove := ListMoves(albumFolderNames, withMoreThanOneAlbum, keptKeys);
    }
  }

  /**
   * The first loop of `groupByArtist`: `artistToFolder`, with its keys in
   * insertion order, or the index of the folder at which the loop throws.
   */
  method CollectByArtist(albumFolderNames: seq<string>)
    returns (artistToFolder: map<string, seq<FolderMove>>, keys: seq<string>, clash: Option<nat>)
    ensures clash == FirstClash(albumFolderNames)
    ensures clash.None? ==> forall a :: a in artistToFolder <==> MovesOf(albumFolderNames, a) != []
    ensures clash.None? ==> forall a :: a in artistToFolder ==> artistToFolder[a] == MovesOf(albumFolderNames, a)
    ensures clash.None? ==> forall a :: a in keys <==> a in artistToFolder
    ensures clash.None? ==> Distinct(keys)
  {
    artistToFolder, keys, clash := map[], [], None;
    for i := 0 to |albumFolderNames|
      invariant (artistToFolder, keys) == Collect(albumFolderNames[..i])
      invariant forall j :: 0 <= j < i ==> !Clashes(albumFolderNames[j])
    {
      var folder := albumFolderNames[i];
      CollectStep(albumFolderNames, i);
      var data := FolderToArtistAndData(folder);
      if Clashes(folder) {
        FirstClashAt(albumFolderNames, i);
        clash := Some(i);
        return;
      }
      NoClashOneMore(albumFolderNames, i);
      if data.Some? {
        var folderData := PlannedMove(folder, data.value);
        artistToFolder, keys := PushUnder(artistToFolder, keys, data.value.artist, folderData);
      }
    }
    assert albumFolderNames[..|albumFolderNames|] == albumFolderNames;
    NoClash(albumFolderNames);
    CollectMoves(albumFolderNames);
    CollectKeys(albumFolderNames);
  }

  /** `artistToFolder[artist]`, created empty on first sight, gets `folderData` pushed. */
  method PushUnder(artistToFolder: map<string, seq<FolderMove>>, keys: seq<string>, artist: string, folderData: FolderMove)
    returns (artistToFolder': map<string, seq<FolderMove>>, keys': seq<string>)
    ensures artistToFolder' == artistToFolder[artist := (if artist in artistToFolder then artistToFolder[artist] else []) + [folderData]]
    ensures keys' == if artist in artistToFolder then keys else keys + [artist]
  {
    artistToFolder', keys' := artistToFolder, keys;
    if artist !in artistToFolder' {
      artistToFolder' := artistToFolder'[artist := []];
      keys' := keys' + [artist];
    }
    artistToFolder' := artistToFolder'[artist := artistToFolder'[artist] + [folderData]];
  }

  /** `artistToFolder` and its keys, in insertion order, once the first loop has taken up `names`. */
  function Collect(names: seq<string>): (map<string, seq<FolderMove>>, seq<string>)
  {
    if names == [] then (map[], [])
    else
      var folder := names[|names| - 1];
      var before := Collect(names[..|names| - 1]);
      match FolderToArtistAndData(folder)
      case None => before
      case Some(data) =>
        var artist := data.artist;
        var albums := if artist in before.0 then before.0[artist] else [];
        (before.0[artist := albums + [PlannedMove(folder, data)]], if artist in before.0 then before.1 else before.1 + [artist])
  }

  lemma CollectStep(names: seq<string>, i: nat)
    requires i < |names|
    ensures var before := Collect(names[..i]);
      Collect(names[..i + 1]) == match FolderToArtistAndData(names[i])
        case None => before
        case Some(data) =>
          var albums := if data.artist in before.0 then before.0[data.artist] else [];
          (before.0[data.artist := albums + [PlannedMove(names[i], data)]], if data.artist in before.0 then before.1 else before.1 + [data.artist])
  {
    TakeOneMore(names, i);
    assert names[..i + 1][..i] == names[..i];
  }

  /** The entries collected are the moves each artist's folders are planned for. */
  lemma {:induction false} CollectMoves(names: seq<string>)
    ensures forall a :: a in Collect(names).0 <==> MovesOf(names, a) != []
    ensures forall a :: a in Collect(names).0 ==> Collect(names).0[a] == MovesOf(names, a)
  {
    if names != [] {
      CollectMoves(names[..|names| - 1]);
    }
  }

  /** The keys list every collected artist once. */
  lemma {:induction false} CollectKeys(names: seq<string>)
    ensures forall a :: a in Collect(names).1 <==> a in Collect(names).0
    ensures Distinct(Collect(names).1)
  {
    if names != [] {
      CollectKeys(names[..|names| - 1]);
    }
  }

  /** The second loop of `groupByArtist`: the artists with more than one album, keys in order. */
  method KeepSeveralAlbums(names: seq<string>, artistToFolder: map<string, seq<FolderMove>>, keys: seq<string>)
    returns (kept: map<string, seq<FolderMove>>, keptKeys: seq<string>)
    requires forall a :: a in artistToFolder ==> artistToFolder[a] == MovesOf(names, a)
    requires forall a :: a in keys <==> a in artistToFolder
    requires Distinct(keys)
    ensures forall a :: a in keptKeys <==> a in artistToFolder && |MovesOf(names, a)| > 1
    ensures forall a :: a in kept <==> a in keptKeys
    ensures forall a :: a in kept ==> kept[a] == MovesOf(names, a)
    ensures Distinct(keptKeys)
  {
    kept, keptKeys := map[], [];
    for j := 0 to |keys|
      invariant forall a :: a in keptKeys <==> a in keys[..j] && |MovesOf(names, a)| > 1
      invariant forall a :: a in kept <==> a in keptKeys
      invariant forall a :: a in kept ==> kept[a] == MovesOf(names, a)
      invariant Distinct(keptKeys)
    {
      TakeOneMore(keys, j);
      if |artistToFolder[keys[j]]| > 1 {
        kept := kept[keys[j] := artistToFolder[keys[j]]];
        keptKeys := keptKeys + [keys[j]];
      }
    }
    assert keys[..|keys|] == keys;
  }

  /** The third loop of `groupByArtist`: the moves of the kept artists, artist by artist. */
  method ListMoves(names: seq<string>, kept: map<string, seq<FolderMove>>, keptKeys: seq<string>) returns (filesToMove: seq<FolderMove>)
    requires forall a :: a in kept <==> a in keptKeys
    requires forall a :: a in kept ==> kept[a] == MovesOf(names, a) && kept[a] != []
    requires Distinct(keptKeys)
    ensures HoldsMovesOf(filesToMove, names, keptKeys)
    ensures forall m :: m in filesToMove ==> IsPlanned(m, names)
    ensures keptKeys != [] ==> filesToMove != []
  {
    filesToMove := [];
    for j := 0 to |keptKeys|
      invariant HoldsMovesOf(filesToMove, names, keptKeys[..j])
      invariant forall m :: m in filesToMove ==> IsPlanned(m, names)
      invariant j > 0 ==> filesToMove != []
    {
      var artistName := keptKeys[j];
      var albums := kept[artistName];
      assert albums == MovesOf(names, artistName) && albums != [];
      MovesOfPlanned(names, artistName);
      ghost var before := filesToMove;
      filesToMove := PushAll(filesToMove, albums);
      TakeDistinct(keptKeys, j);
      AppendArtist(names, before, artistName, keptKeys[..j]);
    }
    assert keptKeys[..|keptKeys|] == keptKeys;
  }

  /** `moves` holds, for each artist, all the moves of that artist when it is one of `artists`, and none otherwise. */
  ghost predicate HoldsMovesOf(moves: seq<FolderMove>, names: seq<string>, artists: seq<string>)
  {
    forall a :: ByArtist(moves, a) == if a in artists then MovesOf(names, a) else []
  }

  /** The inner loop of the third: push every album of one artist. */
  method PushAll(filesToMove: seq<FolderMove>, albums: seq<FolderMove>) returns (r: seq<FolderMove>)
    ensures r == filesToMove + albums
  {
    r := filesToMove;
    for k := 0 to |albums|
      invariant r == filesToMove + albums[..k]
    {
      r := r + [albums[k]];
    }
    assert albums[..|albums|] == albums;
  }

  /** Appending the moves of a further artist extends the artists the list holds by that one. */
  lemma AppendArtist(names: seq<string>, before: seq<FolderMove>, artist: string, done: seq<string>)
    requires HoldsMovesOf(before, names, done)
    requires artist !in done
    ensures HoldsMovesOf(before + MovesOf(names, artist), names, done + [artist])
  {
    var albums := MovesOf(names, artist);
    MovesOfArtist(names, artist);
    assert forall i :: 0 <= i < |albums| ==> albums[i] in albums;
    forall a
      ensures ByArtist(before + albums, a) == if a in done + [artist] then MovesOf(names, a) else []
    {
      ByArtistAppend(before, albums, a);
      ByArtistOfOne(albums, artist, a);
      assert a in done + [artist] <==> a in done || a == artist;
      assert ByArtist(before, a) == if a in done then MovesOf(names, a) else [];
    }
  }

  /** Taking one more element of a list without repeats adds a new one. */
  lemma TakeDistinct(s: seq<string>, j: nat)
    requires Distinct(s) && j < |s|
    ensures s[..j + 1] == s[..j] + [s[j]] && s[j] !in s[..j]
  {
    TakeOneMore(s, j);
  }

  /** No value occurs twice. */
  predicate Distinct(s: seq<string>)
  {
    forall p, q :: 0 <= p < q < |s| ==> s[p] != s[q]
  }

  /** Every move planned for `artist` belongs to that artist. */
  lemma {:induction false} MovesOfArtist(names: seq<string>, artist: string)
    ensures forall m :: m in MovesOf(names, artist) ==> m.data.artist == artist
  {
    if names != [] {
      MovesOfArtist(names[..|names| - 1], artist);
    }
  }

  /** Every move planned for `artist` is the planned move of one of the folders. */
  lemma {:induction false} MovesOfPlanned(names: seq<string>, artist: string)
    ensures forall m :: m in MovesOf(names, artist) ==> IsPlanned(m, names)
  {
    if names != [] {
      var init := names[..|names| - 1];
      MovesOfPlanned(init, artist);
      assert forall n :: n in init ==> n in names;
    }
  }

  /** Selecting by artist distributes over concatenation. */
  lemma {:induction false} ByArtistAppend(xs: seq<FolderMove>, ys: seq<FolderMove>, a: string)
    ensures ByArtist(xs + ys, a) == ByArtist(xs, a) + ByArtist(ys, a)
  {
    if ys == [] {
      assert xs + ys == xs;
    } else {
      var init := ys[..|ys| - 1];
      ByArtistAppend(xs, init, a);
      assert (xs + ys)[..|xs + ys| - 1] == xs + init;
      assert (xs + ys)[|xs + ys| - 1] == ys[|ys| - 1];
    }
  }

  /** Moves that all belong to `b` are kept whole for `b` and dropped for every other artist. */
  lemma {:induction false} ByArtistOfOne(moves: seq<FolderMove>, b: string, a: string)
    requires forall i :: 0 <= i < |moves| ==> moves[i].data.artist == b
    ensures ByArtist(moves, a) == if a == b then moves else []
  {
    if moves != [] {
      var init, last := moves[..|moves| - 1], moves[|moves| - 1];
      ByArtistOfOne(init, b, a);
      assert last.data.artist == b;
      InitLast(moves);
    }
  }

  /**
   * A move is planned for `artist` exactly when some folder of the listing
   * matches with that artist, and it is that folder's move.
   */
  lemma {:induction false} MovesOfMembers(names: seq<string>, artist: string, m: FolderMove)
    ensures m in MovesOf(names, artist) <==> exists n :: n in names && IsMoveOf(m, n, artist)
  {
    if names != [] {
      var init, last := names[..|names| - 1], names[|names| - 1];
      MovesOfMembers(init, artist, m);
      assert m in MovesOf(names, artist) <==> m in MovesOf(init, artist) || IsMoveOf(m, last, artist);
      MemberInitLast(names);
    }
  }

  /** `m` is the move planned for folder `n`, which matches with `artist`. */
  predicate IsMoveOf(m: FolderMove, n: string, artist: string)
  {
    FolderToArtistAndData(n).Some? && FolderToArtistAndData(n).value.artist == artist
      && m == PlannedMove(n, FolderToArtistAndData(n).value)
  }

  /** There is at most one move per folder of the listing. */
  lemma {:induction false} MovesOfCount(names: seq<string>, artist: string)
    ensures |MovesOf(names, artist)| <= |names|
  {
    if names != [] {
      MovesOfCount(names[..|names| - 1], artist);
    }
  }

  /** What `groupByArtist` plans, and what it moves given the answer to the prompt. */
  datatype Grouping = Grouping(filesToMove: seq<FolderMove>, prompted: bool, moved: seq<FolderMove>)

  /**
   * `groupByArtist(parentDirName)`. It rejects when the parent cannot be
   * listed, and when the first loop throws on a folder whose artist name is
   * inherited by plain objects; the error then names that folder.
   */
  method GroupByArtist(disk: Disk, parentDirName: string, confirmed: bool) returns (r: Result<Grouping>)
    ensures r.Ok? <==> parentDirName in disk && FirstClash(DirNames(disk[parentDirName])).None?
    ensures r.Err? && parentDirName !in disk ==> r.path == parentDirName
    ensures r.Err? && parentDirName in disk ==> var names := DirNames(disk[parentDirName]);
      r.path == names[FirstClash(names).value] && Clashes(r.path)
    ensures r.Ok? ==> var names := DirNames(disk[parentDirName]);
      && (forall a :: ByArtist(r.value.filesToMove, a) == if |MovesOf(names, a)| > 1 then MovesOf(names, a) else [])
      && (forall m :: m in r.value.filesToMove ==> IsPlanned(m, names))
    ensures r.Ok? ==> (r.value.prompted <==> r.value.filesToMove != [])
    ensures r.Ok? ==> r.value.moved == if r.value.prompted && confirmed then r.value.filesToMove else []
  {
    if parentDirName !in disk {
      return Err(parentDirName);
    }
    var dirData := GetFolderData(disk[parentDirName]);
    var filesToMove, artists, clash := PlanGrouping(dirData.dirs);
    if clash.Some? {
      return Err(dirData.dirs[clash.value]);
    }
    var prompted := false;
    var moved := [];
    if artists > 0 {
      prompted := true;
      if confirmed {
        moved := filesToMove;
      }
    }
    return Ok(Grouping(filesToMove, prompted, moved));
  }
}
