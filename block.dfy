/**
 * The two regular-expression searches over a whole export.
 *
 * The CSV-block pattern is a literal header prefix followed by
 * `(?:.+(\n|\Z))+`: one or more non-empty lines, each taken with its line
 * feed. `.` matches anything but a line terminator, so the search finds the
 * leftmost place where the prefix is followed by at least one more
 * character on its line, and the block runs up to the first blank line or to
 * the end of the text.
 *
 * The exported-at pattern `(?<="Date downloaded ).+(?=")` finds the leftmost
 * place just after the quoted marker where a non-empty stretch of the same
 * line is followed by a quote; `.+` is greedy, so the stretch ends at the
 * last quote on that line.
 */
module Block {
  import opened Wrappers
  import opened Text

  /** The block pattern matches at `i`: the prefix, then more of its line. */
  predicate BlockStartsAt(s: string, prefix: string, i: nat) {
    OccursAt(s, prefix, i) && i + |prefix| < |s| && s[i + |prefix|] != '\n'
  }

  /** The leftmost index at or after `i` where the block pattern matches. */
  function BlockStartFrom(s: string, prefix: string, i: nat): (k: Option<nat>)
    requires i <= |s|
    ensures k.Some? ==> i <= k.value && BlockStartsAt(s, prefix, k.value)
    ensures forall j: nat | i <= j && (k.None? || j < k.value) :: !BlockStartsAt(s, prefix, j)
    decreases |s| - i
  {
    if i == |s| then None
    else if BlockStartsAt(s, prefix, i) then Some(i)
    else BlockStartFrom(s, prefix, i + 1)
  }

  /**
   * Where the run of non-empty lines that starts at `p` ends: just after the
   * line feed that precedes the first blank line, or at the end of `s`.
   */
  function RunEnd(s: string, p: nat): (e: nat)
    requires p < |s| && s[p] != '\n'
    ensures p < e <= |s|
    ensures forall m | p <= m < e - 1 :: !(s[m] == '\n' && s[m + 1] == '\n')
    ensures e == |s| || (s[e - 1] == '\n' && s[e] == '\n')
    decreases |s| - p
  {
    var q := NextIndex(s, '\n', p);
    if q == |s| then |s|
    else if q + 1 == |s| || s[q + 1] == '\n' then q + 1
    else RunEnd(s, q + 1)
  }

  /** The text the block pattern matches in `s`, if it matches anywhere. */
  function ExtractBlock(s: string, prefix: string): Option<string> {
    match BlockStartFrom(s, prefix, 0)
    case None => None
    case Some(i) => Some(s[i..RunEnd(s, i + |prefix|)])
  }

  /**
   * The extracted block begins with the prefix and some more of its line,
   * holds no blank line, and is cut at a blank line or the end of the text;
   * no earlier place in the text starts a block.
   */
  lemma ExtractBlockShape(s: string, prefix: string)
    ensures ExtractBlock(s, prefix).Some? <==> exists i: nat :: BlockStartsAt(s, prefix, i)
    ensures ExtractBlock(s, prefix).Some? ==>
      exists i: nat, e: nat ::
        && BlockStartsAt(s, prefix, i)
        && (forall j: nat | j < i :: !BlockStartsAt(s, prefix, j))
        && i + |prefix| < e <= |s|
        && ExtractBlock(s, prefix).value == s[i..e]
        && (forall m | i + |prefix| <= m < e - 1 :: !(s[m] == '\n' && s[m + 1] == '\n'))
        && (e == |s| || (s[e - 1] == '\n' && s[e] == '\n'))
  {
    var k := BlockStartFrom(s, prefix, 0);
    if k.Some? {
      var i := k.value;
      var e := RunEnd(s, i + |prefix|);
      assert ExtractBlock(s, prefix).value == s[i..e];
    }
  }

  /** Without the prefix anywhere in the text there is no block. */
  lemma NoPrefixNoBlock(s: string, prefix: string)
    requires !Contains(s, prefix)
    ensures ExtractBlock(s, prefix) == None
  {
    ContainsIffOccurs(s, prefix);
  }

  /**
   * A text holding a header in which the prefix is followed by more of the
   * same line always yields a block.
   */
  lemma HeaderGivesBlock(s: string, header: string, prefix: string, offset: nat)
    requires Contains(s, header)
    requires OccursAt(header, prefix, offset)
    requires offset + |prefix| < |header| && header[offset + |prefix|] != '\n'
    ensures ExtractBlock(s, prefix).Some?
  {
    ContainsIffOccurs(s, header);
    var h: nat :| OccursAt(s, header, h);
    var i := h + offset;
    forall m | 0 <= m < |prefix| ensures s[i + m] == prefix[m] {
      assert s[i + m] == s[h..h + |header|][offset + m];
      assert prefix[m] == header[offset..offset + |prefix|][m];
    }
    assert s[i + |prefix|] == s[h..h + |header|][offset + |prefix|];
    assert BlockStartsAt(s, prefix, i);
    assert BlockStartFrom(s, prefix, 0).Some?;
  }

  /**
   * A text holding `prefix + rest`, where `rest` starts on the prefix's
   * line, always yields a block.
   */
  lemma HeaderPartsGiveBlock(s: string, prefix: string, rest: string)
    requires Contains(s, prefix + rest)
    requires |rest| > 0 && rest[0] != '\n'
    ensures ExtractBlock(s, prefix).Some?
  {
    var header := prefix + rest;
    assert header[..|prefix|] == prefix;
    assert header[|prefix|] == rest[0];
    HeaderGivesBlock(s, header, prefix, 0);
  }

  /** The quoted marker before the export timestamp. */
  const DateMarker := "\"Date downloaded "

  /** `s[..p]` ends with the marker (the lookbehind holds at `p`). */
  predicate MarkerEndsAt(s: string, p: nat) {
    |DateMarker| <= p <= |s| && s[p - |DateMarker|..p] == DateMarker
  }

  /** The largest `k` with `lo <= k < hi` and `s[k] == '"'`. */
  function LastQuote(s: string, lo: nat, hi: nat): (k: Option<nat>)
    requires hi <= |s|
    ensures k.Some? ==> lo <= k.value < hi && s[k.value] == '"'
    ensures forall m | (if k.Some? then k.value + 1 else lo) <= m < hi :: s[m] != '"'
    decreases hi
  {
    if hi <= lo then None
    else if s[hi - 1] == '"' then Some(hi - 1)
    else LastQuote(s, lo, hi - 1)
  }

  /**
   * Where the exported-at match that starts at `p` ends: the last quote on
   * `p`'s line that leaves at least one character before it.
   */
  function DateMatchEnd(s: string, p: nat): Option<nat>
    requires p <= |s|
  {
    if MarkerEndsAt(s, p) then LastQuote(s, p + 1, NextIndex(s, '\n', p)) else None
  }

  /** The exported-at pattern matches at `p`, ending at `q`. */
  predicate DateMatchAt(s: string, p: nat, q: nat) {
    && MarkerEndsAt(s, p)
    && p < q < |s|
    && s[q] == '"'
    && (forall m | p <= m < q :: s[m] != '\n')
  }

  lemma DateMatchEndMeaning(s: string, p: nat)
    requires p <= |s|
    ensures DateMatchEnd(s, p).Some? ==> DateMatchAt(s, p, DateMatchEnd(s, p).value)
    ensures DateMatchEnd(s, p).Some? ==>
      forall q | DateMatchEnd(s, p).value < q :: !DateMatchAt(s, p, q)
    ensures DateMatchEnd(s, p).None? ==> forall q :: !DateMatchAt(s, p, q)
  {
    if MarkerEndsAt(s, p) {
      var n := NextIndex(s, '\n', p);
    }
  }

  /** The leftmost exported-at match at or after `p`, as start and end. */
  function DateScanFrom(s: string, p: nat): (r: Option<(nat, nat)>)
    requires p <= |s|
    ensures r.Some? ==> p <= r.value.0 <= |s| && DateMatchEnd(s, r.value.0) == Some(r.value.1)
    ensures forall j | p <= j <= |s| && (r.None? || j < r.value.0) :: DateMatchEnd(s, j).None?
    decreases |s| - p
  {
    match DateMatchEnd(s, p)
    case Some(q) => Some((p, q))
    case None => if p == |s| then None else DateScanFrom(s, p + 1)
  }

  /** `str[range]` of the exported-at match, if there is one. */
  function DateDownloaded(s: string): Option<string> {
    match DateScanFrom(s, 0)
    case None => None
    case Some((p, q)) => DateMatchEndMeaning(s, p); Some(s[p..q])
  }

  /**
   * The text found is non-empty, follows the marker, is followed by a
   * quote, and lies on one line; it starts at the leftmost match and runs to
   * the last quote that match can reach. Nothing is found exactly when the
   * pattern matches nowhere.
   */
  lemma DateDownloadedShape(s: string)
    ensures DateDownloaded(s).None? <==> forall p: nat, q: nat :: !DateMatchAt(s, p, q)
    ensures DateDownloaded(s).Some? ==>
      exists p: nat, q: nat ::
        && DateMatchAt(s, p, q)
        && DateDownloaded(s).value == s[p..q]
        && (forall q': nat | q < q' :: !DateMatchAt(s, p, q'))
        && (forall p': nat, q': nat | p' < p :: !DateMatchAt(s, p', q'))
  {
    match DateScanFrom(s, 0)
    case None =>
      forall p: nat, q: nat ensures !DateMatchAt(s, p, q) {
        if p <= |s| { DateMatchEndMeaning(s, p); }
      }
    case Some((p, q)) =>
      DateMatchEndMeaning(s, p);
      forall p': nat, q': nat | p' < p ensures !DateMatchAt(s, p', q') {
        DateMatchEndMeaning(s, p');
      }
  }
}
