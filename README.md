# music-renamer, modelled in Dafny

music-renamer is a small command-line toolkit for a music collection. It has two
parts, and this project models the logic of both.

- The album-folder tidy-up (`mrn.mjs`, using `getFolderData` from `util.mjs`) works on
  the sub-folders of the current directory. It:
  - plans renames that lift a lone child folder up one level (`Parent/Child` becomes
    `Parent - Child`);
  - plans moves that group `Artist - YYYY - Album` folders under one `Artist` folder
    for every artist with more than one album;
  - lists the empty sub-folders for deletion.

  Each step acts only after the user confirms a prompt.
- The atlas builder (`go` in `routines/img.mjs`):
  - reads its options;
  - globs the images and drops the output file from the list;
  - shuffles the list;
  - keeps the files that can be stat'ed, logging those outside the size bounds;
  - lays the kept images out on a square grid of `x = floor(sqrt(n))` cells a side,
    pasting every image that decodes into the next cell, row by row;
  - writes the atlas at `targetWidth` by `targetWidth`;
  - reports the files it could not process.

The model replaces I/O with inputs:

- A directory tree is a map from each readable path to its `readdir` listing. A path
  missing from the map is a `readdir` that rejects, and the operation ends in `Err`.
- The answer to a confirm prompt is a `bool`.
- The glob result is a sequence.
- The shuffle is a sequence of transpositions. Every order can be reached this way.
- `fs.stat` is a map from the paths it succeeds on to their size.
- `Jimp.read` is the set of paths that decode.
- The canvas is an `x` by `x` array of cell owners, written in place.

Modules:

| module | models |
|---|---|
| `Wrappers` | `Option` and `Result` (an error carries the path that could not be listed, or the folder whose artist name made `groupByArtist` throw) |
| `Seqs` | order-preserving selection and the sequence facts the rest uses |
| `FolderData` | `getFolderData`, after `readdir` |
| `AlbumName` | `folderToArtistAndData`: the regular expression with JavaScript's leftmost, greedy semantics |
| `Mrn` | `getEmptyFolders`, `getSubDirRenames`, `moveChildFolders`, `removeEmptyFolders`, `groupByArtist` |
| `Options` | the option defaults of `go` |
| `Grid` | the grid arithmetic of `go` |
| `Discovery` | discovery and the stat pass of `go` |
| `Compositor` | the compositor loop of `go`, with its guard as a parameter |
| `Atlas` | `go` end to end |

Two behaviours of `go` are worth stating plainly, and the model keeps both:

- Left-out images are not skipped. The message at routines/img.mjs:95 reports
  `n - x * x` images as left out, but the loop visits every kept image until its
  guard stops it. So when an image among the first `x * x` fails to decode, an image
  counted as left out takes its cell (`Atlas.TenImagesOneCorrupt`).
- The "Unprocessed files" line is printed only inside the `if (images.length)` block.
  When every file fails `fs.stat`, nothing is reported, although `corruptFiles` is
  not empty (`Atlas.Go`).

The loop of `go` is modelled with its guard as written, `currentY > x`; see
"## Findings" for what that guard lets through.

## Model

| member | source | states |
|---|---|---|
| FolderData.GetFolderData | util.mjs:7-29 | `dirs` and `files` are the directory and non-directory names in listing order; `isEmpty` holds iff the listing is empty; `hasOnlyOneDir` holds iff the listing is exactly one directory, and then `dirs` is its name; the two flags never hold together; `entries` is the listing unchanged |
| FolderData.PartitionCount | util.mjs:18-24 | every entry lands in exactly one list: `|dirs| + |files| == |contents|` |
| FolderData.PartitionNames | util.mjs:18-24 | together the two lists hold exactly the listing's names, with multiplicity |
| FolderData.PartitionMembers | util.mjs:18-24 | a name is in `dirs` iff a directory entry carries it, and in `files` iff a non-directory entry does |
| FolderData.SingleDirectory | util.mjs:27 | no files and one dir means the listing is that single directory entry |
| AlbumName.FolderToArtistAndData | mrn.mjs:76-87 | the match is not `null` iff the name contains ` - ` followed by a year `[12]ddd` and ` - ` |
| AlbumName.MatchLine | mrn.mjs:77-80 | `full` is the whole line holding the first separator; no separator starts before that line, and `full` has no line terminator |
| AlbumName.WholeNameMatch | mrn.mjs:77-84 | for a name without line breaks, `full` is the whole name and equals `artist + " - " + year + " - " + album` |
| AlbumName.GreedySplit | mrn.mjs:77 | the greedy first group splits at the last separator: none starts after the artist in `full`, and the album holds none |
| Mrn.FirstUnlistedUnique | mrn.mjs:9-12 | the path a listing pass first rejects on is unique and cannot be listed |
| Mrn.GetEmptyFolders | mrn.mjs:6-18 | fails iff the parent or one of its sub-directories cannot be listed, naming the first path that cannot be: the parent, or else the first such sub-directory in listing order; otherwise it is the sub-directory paths with an empty listing, in listing order |
| Mrn.EmptyOnesMembers | mrn.mjs:9-17 | a path is reported iff it is one of the sub-directories and its listing is empty; never more paths than sub-directories |
| Mrn.GetSubDirRenames | mrn.mjs:20-36 | fails iff the parent or one of its sub-directories cannot be listed, naming the first path that cannot be: the parent, or else the first such sub-directory in listing order; otherwise one rename per sub-directory path `p` whose listing is a single directory `only`, in listing order, from `join(join(parent, p), only)` to `join(parent, p + " - " + only)` |
| Mrn.RenamesOfMembers | mrn.mjs:24-33 | a rename is planned iff some sub-directory with a single-directory listing yields it; at most one per sub-directory |
| Mrn.MoveChildFolders | mrn.mjs:38-56 | fails as `getSubDirRenames` does, on the same first path; otherwise the renames carried out are all the planned ones when there are some and the prompt is confirmed, and none otherwise |
| Mrn.RemoveEmptyFolders | mrn.mjs:58-74 | fails as `getEmptyFolders` does, on the same first path; otherwise the folders deleted are all the empty ones when there are some and the prompt is confirmed, and none otherwise |
| Mrn.MoveTurnsArtistIntoFolder | mrn.mjs:95-104 | for a one-line folder name, the planned move goes from `artist - folderName` to `artist/folderName`, and `folderName` starts with the four-digit year |
| Mrn.CollectByArtist | mrn.mjs:95-108 | the first loop stops at the first matching folder whose artist is a name every plain object inherits (`constructor`, `toString`, `__proto__`, ...), where `.push` throws; without one, an artist has an entry iff one of its folders matches, the entry is that artist's moves in listing order, and the keys list each artist once |
| Mrn.FirstClashFrom | mrn.mjs:95-108 | the folder at which the first loop throws: the first matching folder from `i` whose artist is an inherited object name, none before it, and none at all when it finds nothing |
| Mrn.PushUnder | mrn.mjs:105-106 | the artist's list, created empty on first sight, gets the move appended; the artist joins the keys only when new |
| Mrn.CollectMoves | mrn.mjs:95-108 | the collected map holds, for each artist, exactly the moves planned for its matching folders |
| Mrn.CollectKeys | mrn.mjs:105-106 | the keys are the collected artists, without repeats |
| Mrn.KeepSeveralAlbums | mrn.mjs:110-117 | the second map keeps exactly the artists with more than one move, with their full lists, keys without repeats |
| Mrn.ListMoves | mrn.mjs:125-137 | the list holds, for each kept artist, all its moves in listing order, and nothing for any other artist; every entry is a planned move of a listed folder |
| Mrn.PushAll | mrn.mjs:130-136 | the inner loop appends one artist's albums in order |
| Mrn.AppendArtist | mrn.mjs:127-137 | appending a further artist's moves extends the set of artists the list holds by that artist |
| Mrn.MovesOfMembers | mrn.mjs:95-107 | a move is planned for an artist iff some folder of the listing matches with that artist and the move is built from that folder's match |
| Mrn.MovesOfPlanned | mrn.mjs:95-107 | every planned move comes from a listed folder whose match it carries |
| Mrn.MovesOfArtist | mrn.mjs:105-106 | every move filed under an artist carries that artist |
| Mrn.MovesOfCount | mrn.mjs:95-107 | at most one move per folder of the listing |
| Mrn.PlanGrouping | mrn.mjs:95-137 | reports the first inherited-name artist if there is one; otherwise, for each artist, the moves listed are all of its moves in listing order if it has more than one, and none otherwise; each move comes from a listed folder; no artist kept iff the list is empty |
| Mrn.GroupByArtist | mrn.mjs:89-145 | fails iff the parent cannot be listed (with the parent's path) or a sub-directory's artist is an inherited object name (with the first such folder); otherwise the plan above over the sub-directory names, a prompt iff the plan is non-empty, and the moves carried out only after a confirmed prompt |
| Options.ReadOptions | routines/img.mjs:13-41 | each numeric option is the parsed value when it is a non-zero integer and the default (1024, 80, 3145728, 3072) otherwise, so NaN and 0 fall back, and negative values and a quality of 150 pass through; a string option replaces its default when non-empty |
| Grid.Isqrt | routines/img.mjs:80 | `r * r <= n < (r + 1) * (r + 1)` |
| Grid.IsqrtUnique | routines/img.mjs:80 | that bound pins the square root down: it is the only such `r` |
| Grid.CeilDiv | routines/img.mjs:82 | `(q - 1) * b < a <= q * b`: the ceiling of `a / b` |
| Grid.PlanGrid | routines/img.mjs:80-83 | `x >= 1` and `x * x <= n < (x + 1) * (x + 1)`; `singleWidth` is the ceiling of `targetWidth / x`; `resultWidth == singleWidth * x` |
| Grid.CanvasWidthBounds | routines/img.mjs:82-83 | for a positive width, `singleWidth >= 1` and `targetWidth <= resultWidth < targetWidth + x` |
| Grid.LeftOutBound | routines/img.mjs:94-96 | the "left out" count `n - x * x` is at most `2 * x` |
| Grid.TenImagesAtWidth1000 | routines/img.mjs:80-83 | ten images at width 1000 give a 3 by 3 grid of 334-pixel cells on a 1002-pixel canvas |
| Discovery.SwapAt | routines/img.mjs:50 | one step of the shuffle keeps the length and the elements |
| Discovery.Shuffle | routines/img.mjs:50 | the shuffle is a permutation |
| Discovery.Discover | routines/img.mjs:48-50 | `sourceImages` holds the glob matches with multiplicity, except every occurrence of the output file |
| Discovery.WithoutTargetMultiset | routines/img.mjs:49 | the filter removes exactly the occurrences of the output file |
| Discovery.DiscoverReachesEveryOrder | routines/img.mjs:50 | every order of the kept matches is an outcome of the shuffle |
| Discovery.StatPass | routines/img.mjs:54-77 | `images` is the files whose stat succeeds and `corruptFiles` those whose stat fails, both in order; the size log is the size advice of each stat'ed file in order |
| Discovery.StatSplit | routines/img.mjs:57-77 | every source image is kept or recorded as corrupt, never both, never lost |
| Discovery.SizeNeverExcludes | routines/img.mjs:59-72 | sizes never decide admission: the same stat'able paths give the same images whatever their sizes |
| Discovery.AdvisoriesExact | routines/img.mjs:60-69 | "too big" is logged for a file iff its stat succeeds with a size above `maxFileSize`, "too small" iff below `minFileSize`; both fire when the bounds cross |
| Compositor.Placed | routines/img.mjs:98-114 | the images pasted number the decodable ones or the capacity, whichever is smaller |
| Compositor.Composite | routines/img.mjs:98-122 | the loop takes up files until all are visited or the guard fires, which is when the decoded ones fill `(lastRow + 1) * x` cells; the pastes are those decoded files in order, the `k`-th at column `k % x` of row `k / x`; the decode failures among the visited files are recorded in order; the cursor ends at `(k % x, k / x)` for `k` pastes; the canvas shows the pastes |
| Compositor.PasteAt | routines/img.mjs:108 | one `composite` call: the cell under the cursor now shows the image, and a cell below the canvas is cropped away |
| Compositor.GuardMeansCapacity | routines/img.mjs:99-101 | the guard `currentY > lastRow` fires exactly when `(lastRow + 1) * x` pastes have been made |
| Compositor.NextCell | routines/img.mjs:110-114 | the cursor advance moves from cell `k` to cell `k + 1`, wrapping to the next row after `x` columns |
| Compositor.OneFailure | routines/img.mjs:105-119 | a file that fails to decode takes no cell: the decoded files are all the others |
| Compositor.PasteCell | routines/img.mjs:108-114 | the `k`-th paste is the `k`-th placed image, within the `x` columns, at the cell numbered `k` |
| Compositor.RowMajorOrder | routines/img.mjs:108-114 | a later paste lies further down, or on the same row further right, so no two pastes share a cell; pastes `k' - k` apart are exactly `k' - k` cells apart, so there is no gap |
| Compositor.OnCanvasIffFirstCells | routines/img.mjs:99-114 | a paste lands above row `x` exactly when it is one of the first `x * x` |
| Compositor.GuardAsWrittenPastesRowX | routines/img.mjs:99-101 | as written, when more than `x * x` images decode, paste number `x * x` goes to row `x`, column 0, below the canvas |
| Compositor.TwoImagesAsWritten | routines/img.mjs:99-114 | as written, two decodable images on a one-cell grid are both pasted, the second at row 1 |
| Compositor.GuardCorrectedStaysOnCanvas | routines/img.mjs:99-114 | with the guard `currentY >= x` there are at most `x * x` pastes, each on a cell of the canvas |
| Compositor.SameCanvasEitherGuard | routines/img.mjs:99-108 | both guards leave the same cells on the canvas |
| Atlas.Go | routines/img.mjs:12-130 | the configuration from the options; discovery; the stat pass; with no image kept nothing is planned, pasted or written and nothing is reported; otherwise the atlas run below; `corruptFiles` is the stat failures, then the decode failures among the visited files |
| Atlas.BuildAtlas | routines/img.mjs:79-129 | the grid for the kept images; "left out" is reported iff `x * x < n`, with `n - x * x`; the loop's pastes with the guard as written, so decoded images fill up to `(x + 1) * x` cells; the atlas is written at `targetWidth` by `targetWidth` with the requested quality, showing the pastes that land on it; "Unprocessed files" iff `corruptFiles` is non-empty |
| Atlas.CellOwners | routines/img.mjs:124 | the owners read off the canvas are the cells the pastes fill |
| Atlas.LeftOutReportBound | routines/img.mjs:94-96 | a reported "left out" count is positive and at most `2 * x` |
| Atlas.RunPastesBelowCanvas | routines/img.mjs:98-108 | when more than `x * x` kept images decode, the run pastes image `x * x` at row `x`, column 0, below the canvas |
| Atlas.RunWritesIntendedCells | routines/img.mjs:98-114 | the cells of the written atlas are those the intended guard `currentY >= x` would give; a paste lands on the canvas iff it is among the first `x * x` |
| Atlas.TwoImagesExample | routines/img.mjs:79-122 | two decodable images: one cell, one image reported left out, both files visited, the second pasted at row 1 below the canvas, and the one cell shows the first |
| Atlas.TwoImagesSecondCorrupt | routines/img.mjs:79-122 | two images, the second corrupt: both visited, only the first pasted, and the second is a decode failure |
| Atlas.FailuresAllReported | routines/img.mjs:98-127 | when fewer images decode than the `(x + 1) * x` cells the guard lets through, every kept image is visited, so every decode failure is reported, however many |
| Atlas.ThreeImagesTwoCorrupt | routines/img.mjs:79-127 | three images, only the first decodable: one cell, two reported left out, all three visited, and both failures recorded |
| Atlas.TenImagesOneCorrupt | routines/img.mjs:94-122 | ten images at width 1000, one of the first nine corrupt: one is reported left out, yet nine are pasted and the tenth fills the last cell |
| Atlas.TenImagesGrid | routines/img.mjs:80-96 | ten images at width 1000: the grid 3, 334, 1002 and one image left out |

## Findings

| source | as written | input that shows it | evidently intended | confidence | as-written member | corrected member |
|---|---|---|---|---|---|---|
| routines/img.mjs:99 | the loop stops at `currentY > x`, so row `x`, at y-offset `x * singleWidth == resultWidth`, is still read and pasted below the canvas | two kept images that both decode: `x == 1` and the second image is pasted at row 1, y-offset `resultWidth` | stop at `currentY >= x`, so that only the `x * x` cells of the canvas are filled | not executed | Compositor.GuardAsWrittenPastesRowX, Compositor.TwoImagesAsWritten, Atlas.RunPastesBelowCanvas | Compositor.GuardCorrectedStaysOnCanvas, Atlas.RunWritesIntendedCells |

`Compositor.Composite` takes the last row as a parameter. `Compositor.LastRowAsWritten` is
the guard as written (`x`), and `Atlas.BuildAtlas` uses it. `Compositor.LastRow` is the
intended one (`x - 1`).

The written image is the same either way (`Compositor.SameCanvasEitherGuard`), because
pastes below the canvas are cropped (`Atlas.RunWritesIntendedCells`). What the guard as written
adds is work beyond the canvas. The loop visits further files until `x` more images have been
pasted or the list ends, and every one of those files that fails to decode is reported as
unprocessed. That number has no bound in `x` (`Atlas.FailuresAllReported`): with three images
of which only the first decodes, `x == 1`, yet all three are visited and two failures are
reported (`Atlas.ThreeImagesTwoCorrupt`).

## Left out

- Pixel work is not modelled, only which image owns which cell. This covers Jimp decoding, `contain` letterboxing, `composite` blending, `resize`, `quality` and the write, together with its failure. Decoding is an input.
- Options.ReadOptions: `parseInt` text parsing is not modelled. Each numeric option arrives already parsed, as `NaN` or an integer. A falsy value, which minimist's booleans can produce, arrives as absent.
- Discovery.Discover: `glob` and its failure are not modelled; the matches are an input. The random comparator sort is modelled as an arbitrary sequence of transpositions, with no claim about its distribution.
- Discovery.StatPass: `fs.stat` is a map input, so its error causes are not distinguished.
- Grid.PlanGrid: `Math.sqrt` and the floating-point division are modelled as an exact integer square root and an exact ceiling division. Its contract holds for every width; only `Grid.CanvasWidthBounds` needs a positive one. What Jimp makes of a zero or negative canvas size is not modelled.
- Mrn.GetSubDirRenames: `path.join` is plain concatenation with `/`, without normalisation. The `from` path is kept as written, `parent/(parent/sub)/only`, with `parentDir` doubled. How Node normalises it is not modelled.
- Mrn.GroupByArtist: the order of artists in the move list is not stated. JavaScript lists integer-like object keys first, so only the order within each artist is stated, through `Mrn.ByArtist`. The model's loops use insertion order.
- Mrn.GroupByArtist: `artistToFolder` is a plain object. Artist names it inherits from `Object.prototype` are modelled as the rejection `.push` causes; any other name is an own key, modelled as a map entry. The text of the thrown error is not modelled, only the folder that caused it.
- Mrn.MoveChildFolders: `mv`, `rimraf` and the `confirm` prompt are not modelled. The answer is a `bool`, and the result is the list of operations carried out; their effects and errors on disk are not.
- Mrn.RemoveEmptyFolders: as for `Mrn.MoveChildFolders`, deletion is the list of folders deleted.
- AlbumName.FolderToArtistAndData: strings are sequences of characters. JavaScript's UTF-16 code units and surrogate pairs are not distinguished.
- Console and chalk output is not modelled, beyond the size advisories, the "left out" count and whether "Unprocessed files" is printed.
- `run` in mrn.mjs only sequences the three routines, and `bin/run.mjs` is a command dispatcher. Neither is modelled.
