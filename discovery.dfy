/**
 * Discovery and the stat pass of `go` (routines/img.mjs): the glob matches
 * minus the output file, shuffled, then split by whether `fs.stat` succeeds.
 * The glob result, the shuffle and `fs.stat` are inputs: `matches`, a
 * sequence of transpositions, and a map from the paths that can be stat'ed to
 * their size in bytes.
 */
module Discovery {
  import opened Seqs

  /** `.filter((img) => img !== targetFileName)` */
  function WithoutTarget(matches: seq<string>, targetFileName: string): seq<string>
  {
    Filter(matches, p => p != targetFileName)
  }

  /** Exchanges the elements at `i` and `j`, both taken modulo the length. */
  function SwapAt(s: seq<string>, i: nat, j: nat): (r: seq<string>)
    ensures |r| == |s| && multiset(r) == multiset(s)
  {
    if s == [] then s
    else
      var a, b := i % |s|, j % |s|;
      var r := s[a := s[b]][b := s[a]];
      assert multiset(s[a := s[b]]) == multiset(s) - multiset{s[a]} + multiset{s[b]};
      r
  }

  /** The random shuffle, as the transpositions it performs. */
  function Shuffle(s: seq<string>, swaps: seq<(nat, nat)>): (r: seq<string>)
    ensures |r| == |s| && multiset(r) == multiset(s)
    decreases swaps
  {
    if swaps == [] then s
    else Shuffle(SwapAt(s, swaps[0].0, swaps[0].1), swaps[1..])
  }

  /** `sourceImages`: every glob match except the output file, in some order. */
  function Discover(matches: seq<string>, targetFileName: string, swaps: seq<(nat, nat)>): (r: seq<string>)
    ensures multiset(r) == multiset(matches)[targetFileName := 0]
    ensures targetFileName !in r
  {
    WithoutTargetMultiset(matches, targetFileName);
    var r := Shuffle(WithoutTarget(matches, targetFileName), swaps);
    assert multiset(r)[targetFileName] == 0;
    r
  }

  lemma {:induction false} WithoutTargetMultiset(matches: seq<string>, targetFileName: string)
    ensures multiset(WithoutTarget(matches, targetFileName)) == multiset(matches)[targetFileName := 0]
  {
    if matches != [] {
      var init, last := matches[..|matches| - 1], matches[|matches| - 1];
      WithoutTargetMultiset(init, targetFileName);
      assert matches == init + [last];
      assert multiset(matches) == multiset(init) + multiset{last};
    }
  }

  /** Every order of the kept matches is a possible outcome of the shuffle. */
  lemma DiscoverReachesEveryOrder(matches: seq<string>, targetFileName: string, order: seq<string>)
    returns (swaps: seq<(nat, nat)>)
    requires multiset(order) == multiset(matches)[targetFileName := 0]
    ensures Discover(matches, targetFileName, swaps) == order
  {
    var kept := WithoutTarget(matches, targetFileName);
    WithoutTargetMultiset(matches, targetFileName);
    assert |kept| == |multiset(kept)| == |multiset(order)| == |order|;
    swaps := ShuffleFrom(kept, order, 0);
  }

  /** Transpositions that turn `s` into its permutation `t`, given that the first `i` places agree. */
  lemma {:induction false} ShuffleFrom(s: seq<string>, t: seq<string>, i: nat) returns (swaps: seq<(nat, nat)>)
    requires multiset(s) == multiset(t) && i <= |s| && |s| == |t| && s[..i] == t[..i]
    ensures Shuffle(s, swaps) == t
    decreases |s| - i
  {
    if i == |s| {
      assert s == s[..i] && t == t[..i];
      swaps := [];
    } else {
      var j := IndexFrom(s, t, i);
      var s' := SwapAt(s, i, j);
      SwapKeepsPrefix(s, t, i, j);
      var rest := ShuffleFrom(s', t, i + 1);
      swaps := [(i, j)] + rest;
      assert swaps[0] == (i, j) && swaps[1..] == rest;
    }
  }

  /** Bringing `t[i]` to place `i` extends the agreeing prefix by one. */
  lemma SwapKeepsPrefix(s: seq<string>, t: seq<string>, i: nat, j: nat)
    requires i <= j < |s| == |t| && s[..i] == t[..i] && s[j] == t[i]
    ensures SwapAt(s, i, j)[..i + 1] == t[..i + 1]
  {
    var n := |s|;
    assert i % n == i by { DivModSmall(i, n); }
    assert j % n == j by { DivModSmall(j, n); }
    var s' := s[i := s[j]][j := s[i]];
    assert SwapAt(s, i, j) == s';
    assert s'[i] == t[i];
    assert forall k :: 0 <= k < i ==> s'[k] == t[k];
    assert s'[..i + 1] == t[..i + 1];
  }

  lemma DivModSmall(k: nat, n: nat)
    requires k < n
    ensures k % n == k
  {
  }

  /** Where the element `t[i]` sits in `s` beyond the agreeing prefix. */
  lemma IndexFrom(s: seq<string>, t: seq<string>, i: nat) returns (j: nat)
    requires multiset(s) == multiset(t) && i < |s| == |t| && s[..i] == t[..i]
    ensures i <= j < |s| && s[j] == t[i]
  {
    assert s == s[..i] + s[i..] && t == t[..i] + t[i..];
    assert multiset(s) == multiset(s[..i]) + multiset(s[i..]);
    assert multiset(t) == multiset(t[..i]) + multiset(t[i..]);
    assert multiset(s[i..]) == multiset(s) - multiset(s[..i]);
    assert multiset(t[i..]) == multiset(t) - multiset(t[..i]);
    assert t[i] in multiset(t[i..]);
    var k :| 0 <= k < |s[i..]| && s[i..][k] == t[i];
    j := i + k;
  }

  // ---------------------------------------------------------------- the stat pass

  /** A size diagnostic of the stat pass. */
  datatype Advisory = TooBig(path: string, size: nat) | TooSmall(path: string, size: nat)

  /** The paths whose `fs.stat` succeeds, in order: `images`. */
  function Readable(s: seq<string>, stat: map<string, nat>): seq<string>
  {
    Filter(s, p => p in stat)
  }

  /** The paths whose `fs.stat` fails, in order: the first part of `corruptFiles`. */
  function Unreadable(s: seq<string>, stat: map<string, nat>): seq<string>
  {
    Filter(s, p => p !in stat)
  }

  /** The two size checks of one file. */
  function SizeAdvice(path: string, size: nat, minFileSize: int, maxFileSize: int): seq<Advisory>
  {
    (if size > maxFileSize then [TooBig(path, size)] else [])
      + (if size < minFileSize then [TooSmall(path, size)] else [])
  }

  /** The size diagnostics of the whole pass, in order. */
  function Advisories(s: seq<string>, stat: map<string, nat>, minFileSize: int, maxFileSize: int): seq<Advisory>
  {
    if s == [] then []
    else
      var last := s[|s| - 1];
      Advisories(s[..|s| - 1], stat, minFileSize, maxFileSize)
        + (if last in stat then SizeAdvice(last, stat[last], minFileSize, maxFileSize) else [])
  }

  /**
   * The `for ... of sourceImages` loop with its `try`/`catch`: a stat'ed file
   * is logged when out of bounds and kept in any case; a failed stat sends
   * the file to `corruptFiles`.
   */
  method StatPass(sourceImages: seq<string>, stat: map<string, nat>, minFileSize: int, maxFileSize: int)
    returns (images: seq<string>, corruptFiles: seq<string>, advisories: seq<Advisory>)
    ensures images == Readable(sourceImages, stat)
    ensures corruptFiles == Unreadable(sourceImages, stat)
    ensures advisories == Advisories(sourceImages, stat, minFileSize, maxFileSize)
  {
    images, corruptFiles, advisories := [], [], [];
    for i := 0 to |sourceImages|
      invariant images == Readable(sourceImages[..i], stat)
      invariant corruptFiles == Unreadable(sourceImages[..i], stat)
      invariant advisories == Advisories(sourceImages[..i], stat, minFileSize, maxFileSize)
    {
      var image := sourceImages[i];
      StatStep(sourceImages, stat, minFileSize, maxFileSize, i);
      if image in stat {
        var size := stat[image];
        if size > maxFileSize {
          advisories := advisories + [TooBig(image, size)];
        }
        if size < minFileSize {
          advisories := advisories + [TooSmall(image, size)];
        }
        images := images + [image];
      } else {
        corruptFiles := corruptFiles + [image];
      }
    }
    assert sourceImages[..|sourceImages|] == sourceImages;
  }

  /** Taking up one more file extends the kept, the corrupt and the logged lists by what that file gives. */
  lemma StatStep(s: seq<string>, stat: map<string, nat>, minFileSize: int, maxFileSize: int, i: nat)
    requires i < |s|
    ensures Readable(s[..i + 1], stat) == Readable(s[..i], stat) + if s[i] in stat then [s[i]] else []
    ensures Unreadable(s[..i + 1], stat) == Unreadable(s[..i], stat) + if s[i] in stat then [] else [s[i]]
    ensures Advisories(s[..i + 1], stat, minFileSize, maxFileSize)
      == Advisories(s[..i], stat, minFileSize, maxFileSize) + if s[i] in stat then SizeAdvice(s[i], stat[s[i]], minFileSize, maxFileSize) else []
  {
    TakeOneMore(s, i);
    assert s[..i + 1][..i] == s[..i];
    FilterAppend(s[..i], [s[i]], p => p in stat);
    FilterAppend(s[..i], [s[i]], p => p !in stat);
  }

  /** Every source image is either kept or recorded as corrupt, never both, never lost. */
  lemma StatSplit(sourceImages: seq<string>, stat: map<string, nat>)
    ensures multiset(Readable(sourceImages, stat)) + multiset(Unreadable(sourceImages, stat)) == multiset(sourceImages)
    ensures |Readable(sourceImages, stat)| + |Unreadable(sourceImages, stat)| == |sourceImages|
  {
    FilterPartition(sourceImages, p => p in stat, p => p !in stat);
  }

  /** File size never decides admission: two stat results with the same readable paths keep the same images. */
  lemma SizeNeverExcludes(sourceImages: seq<string>, stat: map<string, nat>, stat': map<string, nat>)
    requires stat.Keys == stat'.Keys
    ensures Readable(sourceImages, stat) == Readable(sourceImages, stat')
  {
    FilterAgree(sourceImages, p => p in stat, p => p in stat');
  }

  /**
   * "too big" is logged for exactly the stat'ed files above `maxFileSize`, and
   * "too small" for exactly those below `minFileSize`; when the bounds cross,
   * one file can draw both.
   */
  lemma {:induction false} AdvisoriesExact(s: seq<string>, stat: map<string, nat>, minFileSize: int, maxFileSize: int, p: string, z: nat)
    ensures TooBig(p, z) in Advisories(s, stat, minFileSize, maxFileSize) <==> p in s && p in stat && stat[p] == z && z > maxFileSize
    ensures TooSmall(p, z) in Advisories(s, stat, minFileSize, maxFileSize) <==> p in s && p in stat && stat[p] == z && z < minFileSize
  {
    if s != [] {
      var init, last := s[..|s| - 1], s[|s| - 1];
      AdvisoriesExact(init, stat, minFileSize, maxFileSize, p, z);
      MemberInitLast(s);
    }
  }
}
