/**
 * `go` (routines/img.mjs), the atlas builder, end to end: options, discovery,
 * the stat pass, the grid, the compositor loop and the final write. The
 * world is given as inputs: the glob matches, the shuffle's transpositions,
 * the stat results and the set of files that decode.
 */
module Atlas {
  import opened Wrappers
  import opened Options
  import opened Grid
  import opened Discovery
  import opened Compositor
  import Seqs

  /**
   * The file `atlas.resize(targetWidth, targetWidth).quality(quality).write(targetFileName)`
   * produces: its size and quality, and which image owns each cell of the grid.
   */
  datatype AtlasFile = AtlasFile(path: string, width: int, height: int, quality: int, cells: seq<seq<Option<string>>>)

  /** What a run of `go` does, step by step. */
  datatype Run = Run(
    config: Config,
    sourceImages: seq<string>,
    images: seq<string>,
    advisories: seq<Advisory>,
    grid: Option<GridSpec>,
    leftOut: Option<nat>,
    pastes: seq<Paste>,
    processed: nat,
    corruptFiles: seq<string>,
    written: Option<AtlasFile>,
    unprocessedReported: bool)

  /**
   * The non-empty case of a run: the grid planned for the kept images, the
   * surplus over `x * x` reported, the first decodable images pasted row by
   * row while the guard lets them through, the atlas written at `targetWidth`
   * by `targetWidth`, and the unprocessed files listed when there are any.
   */
  predicate AtlasBuilt(run: Run, decodable: set<string>)
    requires run.images != []
  {
    var n := |run.images|;
    var g := PlanGrid(n, run.config.targetWidth);
    var capacity := (LastRowAsWritten(g.x) + 1) * g.x;
    && run.grid == Some(g)
    && run.leftOut == (if g.x * g.x < n then Some(n - g.x * g.x) else None)
    && run.processed <= n
    && (forall j :: 0 <= j < run.processed ==> |Decoded(run.images[..j], decodable)| < capacity)
    && (run.processed == n || |Decoded(run.images[..run.processed], decodable)| == capacity)
    && run.pastes == Pastes(Placed(run.images, decodable, capacity), g.x)
    && run.written == Some(AtlasFile(run.config.targetFileName, run.config.targetWidth, run.config.targetWidth,
                                     run.config.quality, Cells(run.pastes, g.x)))
    && (run.unprocessedReported <==> run.corruptFiles != [])
  }

  /**
   * A run of `go`. With no image left after the stat pass nothing is planned,
   * pasted or written; otherwise the grid is planned, the surplus over `x * x`
   * is reported, the first decodable images are pasted row by row, the atlas
   * is written at `targetWidth` by `targetWidth`, and the unprocessed files are
   * listed when there are any.
   */
  method Go(argv: Argv, matches: seq<string>, swaps: seq<(nat, nat)>, stat: map<string, nat>, decodable: set<string>)
    returns (run: Run)
    ensures ConfigFrom(argv, run.config)
    ensures run.sourceImages == Discover(matches, run.config.targetFileName, swaps)
    ensures run.images == Readable(run.sourceImages, stat)
    ensures run.advisories == Advisories(run.sourceImages, stat, run.config.minFileSize, run.config.maxFileSize)
    ensures run.processed <= |run.images|
    ensures run.corruptFiles == Unreadable(run.sourceImages, stat) + Undecodable(run.images[..run.processed], decodable)
    ensures run.images == [] ==>
      run.grid == None && run.leftOut == None && run.pastes == [] && run.written == None && !run.unprocessedReported
    ensures run.images != [] ==> AtlasBuilt(run, decodable)
  {
    var config := ReadOptions(argv);
    var sourceImages := Discover(matches, config.targetFileName, swaps);
    var images, corruptFiles, advisories := StatPass(sourceImages, stat, config.minFileSize, config.maxFileSize);
    run := Run(config, sourceImages, images, advisories, None, None, [], 0, corruptFiles, None, false);
    if |images| > 0 {
      run := BuildAtlas(config, sourceImages, images, advisories, corruptFiles, decodable);
    }
  }

  /** The `if (images.length)` block of `go`: plan, composite, write, report. */
  method BuildAtlas(config: Config, sourceImages: seq<string>, images: seq<string>, advisories: seq<Advisory>,
                    corruptFiles: seq<string>, decodable: set<string>)
    returns (run: Run)
    requires images != []
    ensures run.config == config && run.sourceImages == sourceImages && run.images == images && run.advisories == advisories
    ensures run.processed <= |images|
    ensures run.corruptFiles == corruptFiles + Undecodable(images[..run.processed], decodable)
    ensures AtlasBuilt(run, decodable)
  {
    var x := Isqrt(|images|);
    var singleWidth := CeilDiv(config.targetWidth, x);
    var resultWidth := singleWidth * x;
    assert GridSpec(x, singleWidth, resultWidth) == PlanGrid(|images|, config.targetWidth);
    var atlas := new Option<string>[x, x]((r, c) => None);

    var leftOut := None;
    if x * x < |images| {
      leftOut := Some(|images| - x * x);
    }

    var pastes, decodeFailures, processed, currentX, currentY := Composite(images, decodable, x, LastRowAsWritten(x), atlas);
    var corrupt := corruptFiles + decodeFailures;

    var cells := CellOwners(atlas, x, pastes);
    var written := AtlasFile(config.targetFileName, config.targetWidth, config.targetWidth, config.quality, cells);

    var unprocessedReported := false;
    if |corrupt| > 0 {
      unprocessedReported := true;
    }
    run := Run(config, sourceImages, images, advisories, Some(GridSpec(x, singleWidth, resultWidth)), leftOut,
               pastes, processed, corrupt, Some(written), unprocessedReported);
  }

  /** The owner of every cell of the finished canvas, row by row. */
  method CellOwners(atlas: array2<Option<string>>, x: nat, ghost pastes: seq<Paste>) returns (cells: seq<seq<Option<string>>>)
    requires atlas.Length0 == x && atlas.Length1 == x && Shows(atlas, x, pastes)
    ensures cells == Cells(pastes, x)
  {
    cells := seq(x, r requires 0 <= r < x reads atlas =>
      seq(x, c requires 0 <= c < x reads atlas => atlas[r, c]));
    forall r | 0 <= r < x
      ensures cells[r] == Cells(pastes, x)[r]
    {
      assert forall c :: 0 <= c < x ==> cells[r][c] == atlas[r, c];
    }
  }

  // ---------------------------------------------------------------- properties of a run

  /** The "images left out" line reports at most `2 * x` images. */
  lemma LeftOutReportBound(run: Run, decodable: set<string>)
    requires run.images != [] && AtlasBuilt(run, decodable)
    ensures run.leftOut.Some? ==> 0 < run.leftOut.value <= 2 * run.grid.value.x
  {
    var g := PlanGrid(|run.images|, run.config.targetWidth);
    LeftOutBound(|run.images|, g.x);
  }

  /**
   * The guard as written lets a run paste below the canvas: when more than
   * `x * x` kept images decode, paste number `x * x` goes to row `x`.
   */
  lemma {:induction false} RunPastesBelowCanvas(run: Run, decodable: set<string>)
    requires run.images != [] && AtlasBuilt(run, decodable)
    requires |Decoded(run.images, decodable)| > run.grid.value.x * run.grid.value.x
    ensures var x := run.grid.value.x;
      |run.pastes| > x * x && run.pastes[x * x].row == x && run.pastes[x * x].col == 0
  {
    GuardAsWrittenPastesRowX(run.images, decodable, run.grid.value.x);
  }

  /**
   * What a run writes is nonetheless what the intended guard `currentY >= x`
   * gives: a paste shows on the canvas exactly when it is one of the first
   * `x * x`, and the written cells are those of the first `x * x` decoded images.
   */
  lemma {:induction false} RunWritesIntendedCells(run: Run, decodable: set<string>, k: nat)
    requires run.images != [] && AtlasBuilt(run, decodable)
    ensures var x := run.grid.value.x;
      run.written.value.cells == Cells(Pastes(Placed(run.images, decodable, (LastRow(x) + 1) * x), x), x)
    ensures k < |run.pastes| ==> (run.pastes[k].row < run.grid.value.x <==> k < run.grid.value.x * run.grid.value.x)
  {
    var x := run.grid.value.x;
    SameCanvasEitherGuard(run.images, decodable, x);
    if k < |run.pastes| {
      OnCanvasIffFirstCells(Placed(run.images, decodable, (LastRowAsWritten(x) + 1) * x), x, k);
    }
  }

  /** A run whose images fit the cells the guard lets through visits every one of them. */
  lemma VisitsAll(run: Run, decodable: set<string>)
    requires run.images != [] && AtlasBuilt(run, decodable)
    requires |run.images| <= (LastRowAsWritten(run.grid.value.x) + 1) * run.grid.value.x
    ensures run.processed == |run.images|
    ensures run.pastes == Pastes(Decoded(run.images, decodable), run.grid.value.x)
  {
  }

  /**
   * Two kept images that both decode: the grid is one cell wide and the
   * second image is "left out", yet the loop visits it and pastes it at row 1,
   * below the canvas, which shows the first image only.
   */
  lemma TwoImagesExample(run: Run)
    requires run.images == ["a.jpg", "b.jpg"] && AtlasBuilt(run, {"a.jpg", "b.jpg"})
    ensures run.grid.value.x == 1 && run.leftOut == Some(1) && run.processed == 2
    ensures run.pastes == [Paste("a.jpg", 0, 0), Paste("b.jpg", 0, 1)]
    ensures |run.written.value.cells| == 1 && |run.written.value.cells[0]| == 1 && run.written.value.cells[0][0] == Some("a.jpg")
  {
    TwoImagesPastes(run, "a.jpg", "b.jpg");
    CellShows(run.pastes, 1, 0, 0);
  }

  lemma TwoImagesPastes(run: Run, a: string, b: string)
    requires run.images == [a, b] && AtlasBuilt(run, {a, b})
    ensures run.grid.value.x == 1 && run.leftOut == Some(1) && run.processed == 2
    ensures run.pastes == [Paste(a, 0, 0), Paste(b, 0, 1)]
  {
    IsqrtUnique(2, 1);
    VisitsAll(run, {a, b});
    TwoDecoded(a, b);
  }

  /**
   * Two kept images of which only the first decodes: the loop still visits
   * the second, left out, image, and its decode failure is recorded.
   */
  lemma TwoImagesSecondCorrupt(run: Run)
    requires run.images == ["a.jpg", "b.jpg"] && AtlasBuilt(run, {"a.jpg"})
    ensures run.grid.value.x == 1 && run.leftOut == Some(1) && run.processed == 2
    ensures run.pastes == [Paste("a.jpg", 0, 0)]
    ensures Undecodable(run.images[..run.processed], {"a.jpg"}) == ["b.jpg"]
  {
    IsqrtUnique(2, 1);
    VisitsAll(run, {"a.jpg"});
    FirstDecodes();
    assert run.images[..2] == run.images;
  }

  /**
   * When fewer images decode than the cells the guard lets through, the loop
   * visits every kept image, so every one that fails to decode is reported,
   * however many there are.
   */
  lemma {:induction false} FailuresAllReported(run: Run, decodable: set<string>)
    requires run.images != [] && AtlasBuilt(run, decodable)
    requires |Decoded(run.images, decodable)| < (LastRowAsWritten(run.grid.value.x) + 1) * run.grid.value.x
    ensures run.processed == |run.images|
    ensures Undecodable(run.images[..run.processed], decodable) == Undecodable(run.images, decodable)
  {
    var n, p := |run.images|, run.processed;
    if p < n {
      assert run.images == run.images[..p] + run.images[p..];
      Seqs.FilterAppend(run.images[..p], run.images[p..], q => q in decodable);
      assert false;
    }
    assert run.images[..p] == run.images;
  }

  /**
   * Three kept images of which only the first decodes: one cell, yet the loop
   * visits all three and reports both failures, two files for `x == 1`.
   */
  lemma ThreeImagesTwoCorrupt(run: Run)
    requires run.images == ["a.jpg", "c1.jpg", "c2.jpg"] && AtlasBuilt(run, {"a.jpg"})
    ensures run.grid.value.x == 1 && run.leftOut == Some(2) && run.processed == 3
    ensures run.pastes == [Paste("a.jpg", 0, 0)]
    ensures Undecodable(run.images[..run.processed], {"a.jpg"}) == ["c1.jpg", "c2.jpg"]
  {
    IsqrtUnique(3, 1);
    OnlyFirstDecodes();
    FailuresAllReported(run, {"a.jpg"});
    assert run.images[..3] == run.images;
    assert Placed(run.images, {"a.jpg"}, 2) == ["a.jpg"];
  }

  lemma OnlyFirstDecodes()
    ensures Decoded(["a.jpg", "c1.jpg", "c2.jpg"], {"a.jpg"}) == ["a.jpg"]
    ensures Undecodable(["a.jpg", "c1.jpg", "c2.jpg"], {"a.jpg"}) == ["c1.jpg", "c2.jpg"]
    ensures Pastes(["a.jpg"], 1) == [Paste("a.jpg", 0, 0)]
  {
    assert ["a.jpg", "c1.jpg", "c2.jpg"][..2] == ["a.jpg", "c1.jpg"];
    assert ["a.jpg", "c1.jpg"][..1] == ["a.jpg"];
  }

  lemma TwoDecoded(a: string, b: string)
    ensures Decoded([a, b], {a, b}) == [a, b]
    ensures Pastes([a, b], 1) == [Paste(a, 0, 0), Paste(b, 0, 1)]
  {
    assert [a, b][..1] == [a] && [a][..0] == [];
    assert Decoded([a], {a, b}) == [a];
  }

  lemma FirstDecodes()
    ensures Decoded(["a.jpg", "b.jpg"], {"a.jpg"}) == ["a.jpg"]
    ensures Undecodable(["a.jpg", "b.jpg"], {"a.jpg"}) == ["b.jpg"]
    ensures Pastes(["a.jpg"], 1) == [Paste("a.jpg", 0, 0)]
  {
    assert ["a.jpg", "b.jpg"][..1] == ["a.jpg"];
  }

  /**
   * Ten images at width 1000, one of the first nine failing to decode: the
   * tenth, reported as left out, is still visited and fills the last cell.
   */
  lemma TenImagesOneCorrupt(run: Run, decodable: set<string>, bad: nat)
    requires |run.images| == 10 && run.config.targetWidth == 1000 && AtlasBuilt(run, decodable)
    requires bad < 9 && forall i :: 0 <= i < 10 ==> (run.images[i] in decodable <==> i != bad)
    ensures run.leftOut == Some(1) && |run.pastes| == 9
    ensures run.pastes[8] == Paste(run.images[9], 2, 2)
  {
    TenImagesAtWidth1000();
    OneFailure(run.images, decodable, bad);
    var d := Decoded(run.images, decodable);
    assert |d| == 9 && d[8] == run.images[9];
    assert Placed(run.images, decodable, 12) == d;
  }

  /** Ten images at width 1000: a 3 by 3 grid of 334-pixel cells on a 1002-pixel canvas, one image left out. */
  lemma TenImagesGrid(run: Run, decodable: set<string>)
    requires |run.images| == 10 && run.config.targetWidth == 1000 && AtlasBuilt(run, decodable)
    ensures run.grid == Some(GridSpec(3, 334, 1002)) && run.leftOut == Some(1)
  {
    TenImagesAtWidth1000();
  }
}
