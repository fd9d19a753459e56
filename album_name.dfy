/**
 * `folderToArtistAndData` (mrn.mjs): one match of the regular expression
 * `(.*) - ([12][0-9][0-9][0-9]) - (.*)` against a folder name, read with
 * JavaScript's search semantics: the leftmost start wins, both `.*` groups
 * are greedy, and `.` matches every character except a line terminator.
 */
module AlbumName {
  import opened Wrappers

  /** The record built from a successful match. */
  datatype AlbumFolder = AlbumFolder(full: string, artist: string, year: string, album: string)

  /** The characters JavaScript's `.` does not match. */
  predicate IsLineTerminator(c: char)
  {
    c == '\n' || c == '\r' || c == '\U{2028}' || c == '\U{2029}'
  }

  predicate IsDigit(c: char)
  {
    '0' <= c <= '9'
  }

  /** `[12][0-9][0-9][0-9]` */
  predicate IsYear(y: string)
  {
    |y| == 4 && (y[0] == '1' || y[0] == '2') && IsDigit(y[1]) && IsDigit(y[2]) && IsDigit(y[3])
  }

  /** The fixed part ` - YYYY - ` of the pattern (ten characters) starts at `k` in `s`. */
  predicate SeparatorAt(s: string, k: int)
  {
    && 0 <= k && k + 10 <= |s|
    && s[k] == ' ' && s[k + 1] == '-' && s[k + 2] == ' '
    && (s[k + 3] == '1' || s[k + 3] == '2') && IsDigit(s[k + 4]) && IsDigit(s[k + 5]) && IsDigit(s[k + 6])
    && s[k + 7] == ' ' && s[k + 8] == '-' && s[k + 9] == ' '
  }

  predicate NoLineTerminator(s: string)
  {
    forall i :: 0 <= i < |s| ==> !IsLineTerminator(s[i])
  }

  /** The first separator at or after `i`, if any. */
  function FirstSeparatorFrom(s: string, i: nat): (r: Option<nat>)
    decreases |s| - i
    ensures r.Some? ==> i <= r.value && SeparatorAt(s, r.value)
    ensures r.Some? ==> forall k :: i <= k < r.value ==> !SeparatorAt(s, k)
    ensures r.None? ==> forall k :: i <= k ==> !SeparatorAt(s, k)
  {
    if i + 10 > |s| then None
    else if SeparatorAt(s, i) then Some(i)
    else FirstSeparatorFrom(s, i + 1)
  }

  /** Where the line holding position `k` starts. */
  function LineStart(s: string, k: nat): (p: nat)
    requires k <= |s|
    ensures p <= k && (p == 0 || IsLineTerminator(s[p - 1]))
    ensures forall j :: p <= j < k ==> !IsLineTerminator(s[j])
  {
    if k == 0 || IsLineTerminator(s[k - 1]) then k else LineStart(s, k - 1)
  }

  /** Where the line holding position `k` ends (the next line terminator, or the end). */
  function LineEnd(s: string, k: nat): (e: nat)
    requires k <= |s|
    decreases |s| - k
    ensures k <= e <= |s| && (e == |s| || IsLineTerminator(s[e]))
    ensures forall j :: k <= j < e ==> !IsLineTerminator(s[j])
  {
    if k == |s| || IsLineTerminator(s[k]) then k else LineEnd(s, k + 1)
  }

  /** The last separator starting in `[lo, hi)`, given that one starts at `lo`. */
  function LastSeparatorIn(s: string, lo: nat, hi: nat): (k: nat)
    requires lo < hi && SeparatorAt(s, lo)
    decreases hi
    ensures lo <= k < hi && SeparatorAt(s, k)
    ensures forall j :: k < j < hi ==> !SeparatorAt(s, j)
  {
    if SeparatorAt(s, hi - 1) then hi - 1 else LastSeparatorIn(s, lo, hi - 1)
  }

  /** A separator holds no line terminator. */
  lemma SeparatorInOneLine(s: string, k: int)
    requires SeparatorAt(s, k)
    ensures forall j :: k <= j < k + 10 ==> !IsLineTerminator(s[j])
  {
  }

  /**
   * The match, or `None` for `null`. The search starts at the line holding the
   * first separator (no earlier start can reach a separator without crossing a
   * line terminator); the greedy first group then runs to the last separator of
   * that line, and the greedy last group to the end of that line.
   */
  function FolderToArtistAndData(name: string): (r: Option<AlbumFolder>)
    ensures r.Some? <==> exists k :: SeparatorAt(name, k)
  {
    match FirstSeparatorFrom(name, 0)
    case None => None
    case Some(first) =>
      var start := LineStart(name, first);
      var end := LineEnd(name, first);
      var k := LastSeparatorIn(name, first, end);
      SeparatorInOneLine(name, k);
      Some(SplitAt(name, start, k, end))
  }

  /** The groups of a match of `name[start..end]` whose separator starts at `k`. */
  function SplitAt(name: string, start: nat, k: nat, end: nat): (m: AlbumFolder)
    requires start <= k && k + 10 <= end <= |name| && SeparatorAt(name, k)
    ensures m.full == name[start..end] && m.artist == name[start..k] && m.album == name[k + 10..end]
    ensures IsYear(m.year) && m.full == m.artist + " - " + m.year + " - " + m.album
  {
    SplitFive(name, start, k, k + 3, k + 7, k + 10, end);
    assert name[k..k + 3] == " - ";
    assert name[k + 7..k + 10] == " - ";
    AlbumFolder(name[start..end], name[start..k], name[k + 3..k + 7], name[k + 10..end])
  }

  /** The match is the whole line holding the first separator. */
  lemma MatchLine(name: string) returns (start: nat, end: nat)
    requires FolderToArtistAndData(name).Some?
    ensures start <= end <= |name| && FolderToArtistAndData(name).value.full == name[start..end]
    ensures start == 0 || IsLineTerminator(name[start - 1])
    ensures end == |name| || IsLineTerminator(name[end])
    ensures forall k :: 0 <= k < start ==> !SeparatorAt(name, k)
    ensures NoLineTerminator(FolderToArtistAndData(name).value.full)
  {
    var first := FirstSeparatorFrom(name, 0).value;
    start, end := LineStart(name, first), LineEnd(name, first);
    assert forall j :: start <= j < end ==> !IsLineTerminator(name[j]);
  }

  /** A match splits as artist, ` - `, a year, ` - `, album. */
  lemma MatchShape(name: string)
    requires FolderToArtistAndData(name).Some?
    ensures var m := FolderToArtistAndData(name).value;
      && IsYear(m.year)
      && m.full == m.artist + " - " + m.year + " - " + m.album
  {
  }

  lemma SplitFive(s: string, a: nat, b: nat, c: nat, d: nat, e: nat, f: nat)
    requires a <= b <= c <= d <= e <= f <= |s|
    ensures s[a..f] == s[a..b] + s[b..c] + s[c..d] + s[d..e] + s[e..f]
  {
    assert s[a..f] == s[a..b] + s[b..f];
    assert s[b..f] == s[b..c] + s[c..f];
    assert s[c..f] == s[c..d] + s[d..f];
    assert s[d..f] == s[d..e] + s[e..f];
  }

  /** A name without line breaks that matches at all is matched whole. */
  lemma {:induction false} WholeNameMatch(name: string)
    requires NoLineTerminator(name)
    requires exists k :: SeparatorAt(name, k)
    ensures var m := FolderToArtistAndData(name).value;
      m.full == name && name == m.artist + " - " + m.year + " - " + m.album
  {
    var start, end := MatchLine(name);
    MatchShape(name);
  }

  /**
   * The greedy first group leaves no separator after the artist: the split is
   * at the last ` - YYYY - ` of the matched line, so the album holds none.
   */
  lemma {:induction false} GreedySplit(name: string)
    requires FolderToArtistAndData(name).Some?
    ensures var m := FolderToArtistAndData(name).value;
      && (forall j :: |m.artist| < j ==> !SeparatorAt(m.full, j))
      && (forall j :: !SeparatorAt(m.album, j))
  {
    var first := FirstSeparatorFrom(name, 0).value;
    var start, end := LineStart(name, first), LineEnd(name, first);
    var k := LastSeparatorIn(name, first, end);
    SeparatorInOneLine(name, k);
    var m := FolderToArtistAndData(name).value;
    assert m.full == name[start..end] && m.artist == name[start..k] && m.album == name[k + 10..end];
    NoSeparatorAfterLast(name, start, k, end, m.full, m.album);
  }

  /** When `k` is the last separator before `end`, none follows it in `name[start..end]`, nor in the part after it. */
  lemma NoSeparatorAfterLast(name: string, start: nat, k: nat, end: nat, line: string, rest: string)
    requires start <= k && k + 10 <= end <= |name|
    requires forall j :: k < j < end ==> !SeparatorAt(name, j)
    requires line == name[start..end] && rest == name[k + 10..end]
    ensures forall j :: k - start < j ==> !SeparatorAt(line, j)
    ensures forall j :: !SeparatorAt(rest, j)
  {
    forall j | k - start < j
      ensures !SeparatorAt(line, j)
    {
      ShiftSeparator(name, start, end, j);
    }
    forall j
      ensures !SeparatorAt(rest, j)
    {
      ShiftSeparator(name, k + 10, end, j);
    }
  }

  /** A separator inside a slice is a separator of the whole string. */
  lemma ShiftSeparator(s: string, a: nat, b: nat, j: int)
    requires a <= b <= |s|
    ensures SeparatorAt(s[a..b], j) ==> SeparatorAt(s, a + j) && a + j + 10 <= b
  {
  }
}
