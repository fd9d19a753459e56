/**
 * The compositor loop of `go` (routines/img.mjs): each kept image is read
 * and, when it decodes, pasted at the cursor, which then moves one cell to
 * the right, wrapping to the next row after `x` cells; a file that fails to
 * decode is recorded and leaves the cursor where it was. Before each file the
 * loop stops once the cursor's row is past `lastRow`. `go` checks
 * `currentY > x`, which is `lastRow = x` (`LastRowAsWritten`); the canvas
 * has rows up to `x - 1` only (`LastRow`).
 *
 * Decoding is an input (the set of paths `Jimp.read` accepts). The canvas is
 * an `x` by `x` array of cell owners; a paste whose cell lies outside it
 * changes nothing in it, as `composite` crops what falls off the bitmap.
 */
module Compositor {
  import opened Wrappers
  import opened Seqs

  /** One `atlas.composite` call: the image and the cell (column, row) it goes to. */
  datatype Paste = Paste(path: string, col: nat, row: nat)

  /** The images that decode, in order. */
  function Decoded(s: seq<string>, decodable: set<string>): seq<string>
  {
    Filter(s, p => p in decodable)
  }

  /** The images that fail to decode, in order. */
  function Undecodable(s: seq<string>, decodable: set<string>): seq<string>
  {
    Filter(s, p => p !in decodable)
  }

  function Min(a: nat, b: nat): nat
  {
    if a <= b then a else b
  }

  /** The images that get pasted when at most `capacity` pastes are let through: the first decodable ones. */
  function Placed(images: seq<string>, decodable: set<string>, capacity: nat): (r: seq<string>)
    ensures |r| == Min(|Decoded(images, decodable)|, capacity)
  {
    Decoded(images, decodable)[..Min(|Decoded(images, decodable)|, capacity)]
  }

  /** The `k`-th image of `placed` goes to column `k % x` of row `k / x`. */
  function Pastes(placed: seq<string>, x: nat): (r: seq<Paste>)
    requires x >= 1
  {
    seq(|placed|, k requires 0 <= k < |placed| => Paste(placed[k], k % x, k / x))
  }

  /** Cells are numbered row by row: the cell at `col` of `row` has number `row * x + col`. */
  function CellNumber(row: nat, col: nat, x: nat): nat
  {
    row * x + col
  }

  /** Every cell of the `x` by `x` canvas holds the image of the paste with its number, or nothing. */
  ghost predicate Shows(canvas: array2<Option<string>>, x: nat, pastes: seq<Paste>)
    reads canvas
    requires canvas.Length0 == x && canvas.Length1 == x
  {
    forall r, c :: 0 <= r < x && 0 <= c < x ==>
      canvas[r, c] == if CellNumber(r, c, x) < |pastes| then Some(pastes[CellNumber(r, c, x)].path) else None
  }

  /**
   * The `for (const fileName of images)` loop. `processed` is `currentIndex`
   * at the end, the number of files the loop took up; `capacity` is
   * `(lastRow + 1) * x`, the number of pastes the guard lets through.
   */
  method Composite(images: seq<string>, decodable: set<string>, x: nat, lastRow: nat, canvas: array2<Option<string>>)
    returns (pastes: seq<Paste>, decodeFailures: seq<string>, processed: nat, currentX: nat, currentY: nat)
    requires x >= 1 && canvas.Length0 == x && canvas.Length1 == x
    requires Shows(canvas, x, [])
    modifies canvas
    ensures processed <= |images|
    ensures forall j :: 0 <= j < processed ==> |Decoded(images[..j], decodable)| < (lastRow + 1) * x
    ensures processed == |images| || |Decoded(images[..processed], decodable)| == (lastRow + 1) * x
    ensures pastes == Pastes(Placed(images, decodable, (lastRow + 1) * x), x)
    ensures decodeFailures == Undecodable(images[..processed], decodable)
    ensures currentX == |pastes| % x && currentY == |pastes| / x
    ensures Shows(canvas, x, pastes)
  {
    ghost var capacity := (lastRow + 1) * x;
    pastes, decodeFailures := [], [];
    currentX, currentY := 0, 0;
    var currentIndex := 0;
    while currentIndex < |images|
      invariant currentIndex <= |images|
      invariant forall j :: 0 <= j < currentIndex ==> |Decoded(images[..j], decodable)| < capacity
      invariant pastes == Pastes(Decoded(images[..currentIndex], decodable), x)
      invariant |pastes| <= capacity
      invariant decodeFailures == Undecodable(images[..currentIndex], decodable)
      invariant currentX == |pastes| % x && currentY == |pastes| / x
      invariant Shows(canvas, x, pastes)
    {
      GuardMeansCapacity(|pastes|, x, lastRow);
      if currentY > lastRow {
        break;
      }
      var fileName := images[currentIndex];
      DecodedStep(images, decodable, currentIndex);
      if fileName in decodable {
        ghost var k := |pastes|;
        PastesStep(Decoded(images[..currentIndex], decodable), x, fileName);
        PasteAt(canvas, x, pastes, fileName, currentX, currentY);
        pastes := pastes + [Paste(fileName, currentX, currentY)];
        currentX := currentX + 1;
        if currentX >= x {
          currentX := 0;
          currentY := currentY + 1;
        }
        NextCell(k, x);
      } else {
        decodeFailures := decodeFailures + [fileName];
      }
      currentIndex := currentIndex + 1;
    }
    processed := currentIndex;
    GuardMeansCapacity(|pastes|, x, lastRow);
    PlacedPrefix(images, decodable, processed, capacity);
  }

  /**
   * `atlas.composite(image, currentX * singleWidth, currentY * singleWidth)`:
   * the cell at the cursor now shows `fileName`; a cell below the canvas is cropped away.
   */
  method PasteAt(canvas: array2<Option<string>>, x: nat, pastes: seq<Paste>, fileName: string, currentX: nat, currentY: nat)
    requires x >= 1 && canvas.Length0 == x && canvas.Length1 == x
    requires currentX == |pastes| % x && currentY == |pastes| / x
    requires Shows(canvas, x, pastes)
    modifies canvas
    ensures Shows(canvas, x, pastes + [Paste(fileName, currentX, currentY)])
  {
    if currentY < x {
      canvas[currentY, currentX] := Some(fileName);
    }
    var pastes' := pastes + [Paste(fileName, currentX, currentY)];
    forall r, c | 0 <= r < x && 0 <= c < x
      ensures canvas[r, c] == if CellNumber(r, c, x) < |pastes'| then Some(pastes'[CellNumber(r, c, x)].path) else None
    {
      CellIndex(r, c, x);
    }
  }

  /** The guard `currentY > lastRow`, read on the pastes made so far. */
  lemma GuardMeansCapacity(k: nat, x: nat, lastRow: nat)
    requires x >= 1
    ensures k / x > lastRow <==> k >= (lastRow + 1) * x
  {
    if k / x > lastRow {
      MulMono(lastRow + 1, k / x, x);
    } else {
      MulMono(k / x + 1, lastRow + 1, x);
    }
  }

  lemma MulMono(a: nat, b: nat, x: nat)
    ensures a <= b ==> a * x <= b * x
  {
    if a <= b {
      assert b * x == a * x + (b - a) * x;
    }
  }

  /** The numbering of cells is one-to-one: a number gives back its row and column. */
  lemma CellIndex(r: nat, c: nat, x: nat)
    requires c < x
    ensures CellNumber(r, c, x) / x == r && CellNumber(r, c, x) % x == c
  {
    DivModUnique(r * x + c, x, r, c);
  }

  /** Euclidean division has one quotient and one remainder. */
  lemma DivModUnique(n: nat, x: nat, q: nat, m: nat)
    requires m < x && n == q * x + m
    ensures n / x == q && n % x == m
  {
    var q', m' := n / x, n % x;
    assert q' * x + m' == q * x + m;
    MulMono(q' + 1, q, x);
    MulMono(q + 1, q', x);
  }

  /** One step of the cursor, from cell `k` to cell `k + 1`. */
  lemma NextCell(k: nat, x: nat)
    requires x >= 1
    ensures (k + 1) % x == (if k % x + 1 >= x then 0 else k % x + 1)
    ensures (k + 1) / x == (if k % x + 1 >= x then k / x + 1 else k / x)
  {
    if k % x + 1 >= x {
      DivModUnique(k + 1, x, k / x + 1, 0);
    } else {
      DivModUnique(k + 1, x, k / x, k % x + 1);
    }
  }

  /** Taking up one more file adds it to the decoded or to the undecodable ones. */
  lemma DecodedStep(images: seq<string>, decodable: set<string>, i: nat)
    requires i < |images|
    ensures Decoded(images[..i + 1], decodable) == Decoded(images[..i], decodable) + if images[i] in decodable then [images[i]] else []
    ensures Undecodable(images[..i + 1], decodable) == Undecodable(images[..i], decodable) + if images[i] in decodable then [] else [images[i]]
  {
    TakeOneMore(images, i);
    FilterAppend(images[..i], [images[i]], p => p in decodable);
    FilterAppend(images[..i], [images[i]], p => p !in decodable);
  }

  /** One more placed image adds one paste, at the cell numbered by the pastes before it. */
  lemma PastesStep(placed: seq<string>, x: nat, fileName: string)
    requires x >= 1
    ensures Pastes(placed + [fileName], x) == Pastes(placed, x) + [Paste(fileName, |placed| % x, |placed| / x)]
  {
  }

  /** Where the loop stopped, the images it pasted are the first decodable ones, up to `capacity`. */
  lemma PlacedPrefix(images: seq<string>, decodable: set<string>, processed: nat, capacity: nat)
    requires processed <= |images| && |Decoded(images[..processed], decodable)| <= capacity
    requires processed == |images| || |Decoded(images[..processed], decodable)| == capacity
    ensures Decoded(images[..processed], decodable) == Placed(images, decodable, capacity)
  {
    assert images == images[..processed] + images[processed..];
    FilterAppend(images[..processed], images[processed..], p => p in decodable);
    if processed == |images| {
      assert images[processed..] == [];
    }
  }

  // ---------------------------------------------------------------- properties of the layout

  /**
   * A file that fails to decode takes no cell: when only `images[bad]` fails,
   * the decoded images are all the others, so the one after it moves up into its place.
   */
  lemma OneFailure(images: seq<string>, decodable: set<string>, bad: nat)
    requires bad < |images|
    requires forall i :: 0 <= i < |images| ==> (images[i] in decodable <==> i != bad)
    ensures Decoded(images, decodable) == images[..bad] + images[bad + 1..]
  {
    var before, after := images[..bad], images[bad + 1..];
    assert images == before + [images[bad]] + after;
    assert forall i :: 0 <= i < |before| ==> before[i] == images[i];
    assert forall i :: 0 <= i < |after| ==> after[i] == images[bad + 1 + i];
    FilterSkipOne(before, images[bad], after, p => p in decodable);
  }

  /** The cell owners of an `x` by `x` canvas after `pastes`, row by row. */
  function Cells(pastes: seq<Paste>, x: nat): (cells: seq<seq<Option<string>>>)
  {
    seq(x, r requires 0 <= r < x =>
      seq(x, c requires 0 <= c < x =>
        if CellNumber(r, c, x) < |pastes| then Some(pastes[CellNumber(r, c, x)].path) else None))
  }

  /** The canvas has `x` rows of `x` cells, and the cell at `c` of row `r` shows the paste numbered `r * x + c`, if any. */
  lemma CellShows(pastes: seq<Paste>, x: nat, r: nat, c: nat)
    requires r < x && c < x
    ensures |Cells(pastes, x)| == x && |Cells(pastes, x)[r]| == x
    ensures Cells(pastes, x)[r][c] == if CellNumber(r, c, x) < |pastes| then Some(pastes[CellNumber(r, c, x)].path) else None
  {
  }

  /** The `k`-th paste is the `k`-th placed image, at the cell numbered `k`, inside the `x` columns. */
  lemma PasteCell(placed: seq<string>, x: nat, k: nat)
    requires x >= 1 && k < |placed|
    ensures var p := Pastes(placed, x)[k];
      p.path == placed[k] && p.col < x && CellNumber(p.row, p.col, x) == k
  {
    DivModUnique(k, x, k / x, k % x);
  }

  /**
   * Pastes fill the grid row by row without a gap: a later paste is further
   * down, or on the same row further right, so no two pastes share a cell, and
   * `k' - k` pastes apart are exactly `k' - k` cells apart.
   */
  lemma RowMajorOrder(placed: seq<string>, x: nat, k: nat, k': nat)
    requires x >= 1 && k < k' < |placed|
    ensures var ps := Pastes(placed, x);
      ps[k].row < ps[k'].row || (ps[k].row == ps[k'].row && ps[k].col < ps[k'].col)
  ensures var ps := Pastes(placed, x);
      CellNumber(ps[k'].row, ps[k'].col, x) == CellNumber(ps[k].row, ps[k].col, x) + (k' - k)
  {
    var ps := Pastes(placed, x);
    PasteCell(placed, x, k);
    PasteCell(placed, x, k');
    var r, c, r', c' := ps[k].row, ps[k].col, ps[k'].row, ps[k'].col;
    MulMono(r' + 1, r, x);
  }

  /** A paste lands on the canvas (its row is above row `x`) exactly when it is one of the first `x * x`. */
  lemma {:induction false} OnCanvasIffFirstCells(placed: seq<string>, x: nat, k: nat)
    requires x >= 1 && k < |placed|
    ensures Pastes(placed, x)[k].row < x <==> k < x * x
  {
    GuardMeansCapacity(k, x, x - 1);
  }

  /** The last row the guard `currentY > x` of routines/img.mjs lets through: row `x`, one beyond the canvas. */
  function LastRowAsWritten(x: nat): nat
  {
    x
  }

  /** The last row of the canvas, `x - 1`: the guard `currentY >= x` the loop evidently intends. */
  function LastRow(x: nat): nat
  {
    if x == 0 then 0 else x - 1
  }

  /**
   * As written, the guard `currentY > x` lets a whole extra row through: when
   * more than `x * x` images decode, the next one is pasted at row `x`, whose
   * offset `x * singleWidth` is the canvas width itself.
   */
  lemma {:induction false} GuardAsWrittenPastesRowX(images: seq<string>, decodable: set<string>, x: nat)
    requires x >= 1 && |Decoded(images, decodable)| > x * x
    ensures var ps := Pastes(Placed(images, decodable, (LastRowAsWritten(x) + 1) * x), x);
      |ps| > x * x && ps[x * x].row == x && ps[x * x].col == 0
  {
    assert (x + 1) * x == x * x + x;
    DivModUnique(x * x, x, x, 0);
  }

  /** The smallest case: two images that decode on a one-cell grid; as written the second goes to row 1. */
  lemma TwoImagesAsWritten()
    ensures Pastes(Placed(["a.jpg", "b.jpg"], {"a.jpg", "b.jpg"}, (LastRowAsWritten(1) + 1) * 1), 1)
      == [Paste("a.jpg", 0, 0), Paste("b.jpg", 0, 1)]
  {
    var decodable := {"a.jpg", "b.jpg"};
    assert ["a.jpg", "b.jpg"][..1] == ["a.jpg"];
    assert Decoded(["a.jpg", "b.jpg"], decodable) == ["a.jpg", "b.jpg"];
  }

  /**
   * With the guard `currentY >= x` (last row `x - 1`), at most `x * x`
   * images are pasted and every one of them lands on its own cell of the canvas.
   */
  lemma {:induction false} GuardCorrectedStaysOnCanvas(images: seq<string>, decodable: set<string>, x: nat, k: nat)
    requires x >= 1
    ensures |Pastes(Placed(images, decodable, (LastRow(x) + 1) * x), x)| <= x * x
    ensures var ps := Pastes(Placed(images, decodable, (LastRow(x) + 1) * x), x);
      k < |ps| ==> ps[k].row < x && ps[k].col < x
  {
    var ps := Pastes(Placed(images, decodable, x * x), x);
    if k < |ps| {
      OnCanvasIffFirstCells(Placed(images, decodable, x * x), x, k);
      DivModUnique(k, x, k / x, k % x);
    }
  }

  /**
   * Both guards give the same canvas: the extra row the guard as written lets
   * through lies below the canvas, where `composite` draws nothing.
   */
  lemma SameCanvasEitherGuard(images: seq<string>, decodable: set<string>, x: nat)
    requires x >= 1
    ensures Cells(Pastes(Placed(images, decodable, (LastRowAsWritten(x) + 1) * x), x), x)
         == Cells(Pastes(Placed(images, decodable, (LastRow(x) + 1) * x), x), x)
  {
    MulMono(x, x + 1, x);
    var d := Decoded(images, decodable);
    var wide := Pastes(Placed(images, decodable, (x + 1) * x), x);
    var exact := Pastes(Placed(images, decodable, x * x), x);
    assert Min(|wide|, x * x) == Min(|exact|, x * x);
    forall n | 0 <= n < Min(|wide|, x * x)
      ensures wide[n].path == exact[n].path
    {
      assert wide[n].path == d[n] == exact[n].path;
    }
    SameFirstCells(wide, exact, x);
  }

  /** Two lists of pastes that agree on their first `x * x` entries fill the canvas alike. */
  lemma SameFirstCells(ps: seq<Paste>, qs: seq<Paste>, x: nat)
    requires Min(|ps|, x * x) == Min(|qs|, x * x)
    requires forall n :: 0 <= n < Min(|ps|, x * x) ==> ps[n].path == qs[n].path
    ensures Cells(ps, x) == Cells(qs, x)
  {
    forall r | 0 <= r < x
      ensures Cells(ps, x)[r] == Cells(qs, x)[r]
    {
      forall c | 0 <= c < x
        ensures Cells(ps, x)[r][c] == Cells(qs, x)[r][c]
      {
        CellOnCanvas(r, c, x);
      }
    }
  }

  lemma CellOnCanvas(r: nat, c: nat, x: nat)
    requires r < x && c < x
    ensures CellNumber(r, c, x) < x * x
  {
    MulMono(r + 1, x, x);
  }
}
