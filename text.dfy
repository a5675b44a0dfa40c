/**
 * String operations the decoders rely on: prefix tests, literal substring
 * search (each header pattern is a literal), and Swift's
 * `split(separator:)`, which omits empty pieces.
 */
module Text {
  import opened Wrappers

  /** Swift `starts(with:)`. */
  predicate StartsWith(s: string, p: string) {
    |p| <= |s| && s[..|p|] == p
  }

  /** `p` occurs in `s` at index `i`. */
  predicate OccursAt(s: string, p: string, i: nat) {
    i + |p| <= |s| && s[i..i + |p|] == p
  }

  /** `s.range(of: p) != nil` for a pattern with no metacharacters. */
  predicate Contains(s: string, p: string)
    decreases |s|
  {
    StartsWith(s, p) || (|s| > 0 && Contains(s[1..], p))
  }

  /** The scan agrees with the index-based meaning of an occurrence. */
  lemma {:induction false} ContainsIffOccurs(s: string, p: string)
    ensures Contains(s, p) <==> exists i: nat :: OccursAt(s, p, i)
    decreases |s|
  {
    if StartsWith(s, p) {
      assert OccursAt(s, p, 0);
    } else if |s| == 0 {
    } else {
      ContainsIffOccurs(s[1..], p);
      if exists i: nat :: OccursAt(s[1..], p, i) {
        var i: nat :| OccursAt(s[1..], p, i);
        assert s[i + 1..i + 1 + |p|] == s[1..][i..i + |p|];
        assert OccursAt(s, p, i + 1);
      }
      if exists i: nat :: OccursAt(s, p, i) {
        var i: nat :| OccursAt(s, p, i);
        assert i != 0;
        assert s[1..][i - 1..i - 1 + |p|] == s[i..i + |p|];
        assert OccursAt(s[1..], p, i - 1);
      }
    }
  }

  /** An occurrence inside a larger occurrence is an occurrence. */
  lemma ContainsInner(s: string, outer: string, offset: nat, inner: string)
    requires Contains(s, outer)
    requires OccursAt(outer, inner, offset)
    ensures Contains(s, inner)
  {
    ContainsIffOccurs(s, outer);
    var i: nat :| OccursAt(s, outer, i);
    forall m | 0 <= m < |inner| ensures s[i + offset + m] == inner[m] {
      assert s[i + offset + m] == s[i..i + |outer|][offset + m];
      assert inner[m] == outer[offset..offset + |inner|][m];
    }
    assert OccursAt(s, inner, i + offset);
    ContainsIffOccurs(s, inner);
  }

  /** A text holding `pre + p` holds `p`. */
  lemma ContainsSuffix(s: string, pre: string, p: string)
    requires Contains(s, pre + p)
    ensures Contains(s, p)
  {
    assert (pre + p)[|pre|..|pre| + |p|] == p;
    ContainsInner(s, pre + p, |pre|, p);
  }

  /** The first index at or after `j` holding `c`, or |s| when there is none. */
  function NextIndex(s: string, c: char, j: nat): (k: nat)
    requires j <= |s|
    ensures j <= k <= |s|
    ensures k == |s| || s[k] == c
    ensures forall m | j <= m < k :: s[m] != c
    decreases |s| - j
  {
    if j == |s| || s[j] == c then j else NextIndex(s, c, j + 1)
  }

  predicate AllChar(s: string, c: char) {
    forall i | 0 <= i < |s| :: s[i] == c
  }

  /** Swift `split(separator:)` on `s[j..]`, omitting empty pieces. */
  function SplitFrom(s: string, sep: char, j: nat): (pieces: seq<string>)
    requires j <= |s|
    ensures forall i | 0 <= i < |pieces| :: |pieces[i]| > 0 && sep !in pieces[i]
    ensures pieces == [] <==> forall m | j <= m < |s| :: s[m] == sep
    decreases |s| - j
  {
    if j == |s| then []
    else if s[j] == sep then SplitFrom(s, sep, j + 1)
    else
      var k := NextIndex(s, sep, j);
      assert sep !in s[j..k] by {
        forall i | 0 <= i < k - j ensures s[j..k][i] != sep {
          assert s[j..k][i] == s[j + i];
        }
      }
      [s[j..k]] + SplitFrom(s, sep, k)
  }

  /** Swift `split(separator:)` with its default of omitting empty pieces. */
  function Split(s: string, sep: char): seq<string> {
    SplitFrom(s, sep, 0)
  }

  /** `split(separator:).first`. */
  function FirstPiece(s: string, sep: char): Option<string> {
    var pieces := Split(s, sep);
    if pieces == [] then None else Some(pieces[0])
  }

  /** `split(separator:).last`. */
  function LastPiece(s: string, sep: char): Option<string> {
    var pieces := Split(s, sep);
    if pieces == [] then None else Some(pieces[|pieces| - 1])
  }

  /**
   * `s[a..b]` is the first maximal run of `s[j..]` without `sep`: only
   * separators come between `j` and `a`, and the run ends at `sep` or at
   * the end of `s`.
   */
  predicate FirstRunFrom(s: string, sep: char, j: nat, a: nat, b: nat) {
    && j <= a < b <= |s|
    && (forall m | j <= m < a :: s[m] == sep)
    && (forall m | a <= m < b :: s[m] != sep)
    && (b == |s| || s[b] == sep)
  }

  /**
   * `s[a..b]` is the last maximal run of `s[j..]` without `sep`: it starts
   * at `j` or after a separator, and only separators follow it.
   */
  predicate LastRunFrom(s: string, sep: char, j: nat, a: nat, b: nat) {
    && j <= a < b <= |s|
    && (a == j || s[a - 1] == sep)
    && (forall m | a <= m < b :: s[m] != sep)
    && (forall m | b <= m < |s| :: s[m] == sep)
  }

  lemma {:induction false} FirstPieceBounds(s: string, sep: char, j: nat) returns (a: nat, b: nat)
    requires j <= |s|
    requires SplitFrom(s, sep, j) != []
    ensures FirstRunFrom(s, sep, j, a, b) && SplitFrom(s, sep, j)[0] == s[a..b]
    decreases |s| - j
  {
    if s[j] == sep {
      a, b := FirstPieceBounds(s, sep, j + 1);
    } else {
      a, b := j, NextIndex(s, sep, j);
    }
  }

  lemma {:induction false} LastPieceBounds(s: string, sep: char, j: nat) returns (a: nat, b: nat)
    requires j <= |s|
    requires SplitFrom(s, sep, j) != []
    ensures var pieces := SplitFrom(s, sep, j);
      LastRunFrom(s, sep, j, a, b) && pieces[|pieces| - 1] == s[a..b]
    decreases |s| - j
  {
    if s[j] == sep {
      a, b := LastPieceBounds(s, sep, j + 1);
    } else {
      var k := NextIndex(s, sep, j);
      if SplitFrom(s, sep, k) == [] {
        a, b := j, k;
      } else {
        a, b := LastPieceBounds(s, sep, k);
      }
    }
  }

  /**
   * The first piece is the first maximal run without the separator; there
   * is none exactly when `s` holds only separators.
   */
  lemma FirstPieceShape(s: string, sep: char)
    ensures FirstPiece(s, sep).None? <==> AllChar(s, sep)
    ensures FirstPiece(s, sep).Some? ==>
      exists a: nat, b: nat :: FirstRunFrom(s, sep, 0, a, b) && FirstPiece(s, sep).value == s[a..b]
  {
    if FirstPiece(s, sep).Some? {
      var a, b := FirstPieceBounds(s, sep, 0);
    }
  }

  /**
   * The last piece is the last maximal run without the separator; there is
   * none exactly when `s` holds only separators.
   */
  lemma LastPieceShape(s: string, sep: char)
    ensures LastPiece(s, sep).None? <==> AllChar(s, sep)
    ensures LastPiece(s, sep).Some? ==>
      exists a: nat, b: nat :: LastRunFrom(s, sep, 0, a, b) && LastPiece(s, sep).value == s[a..b]
  {
    if LastPiece(s, sep).Some? {
      var a, b := LastPieceBounds(s, sep, 0);
    }
  }

  /** At most one run is the first one. */
  lemma FirstRunUnique(s: string, sep: char, j: nat, a: nat, b: nat, a': nat, b': nat)
    requires FirstRunFrom(s, sep, j, a, b) && FirstRunFrom(s, sep, j, a', b')
    ensures a == a' && b == b'
  {
    var first, first' := s[a], s[a'];
  }

  /** At most one run is the last one. */
  lemma LastRunUnique(s: string, sep: char, j: nat, a: nat, b: nat, a': nat, b': nat)
    requires LastRunFrom(s, sep, j, a, b) && LastRunFrom(s, sep, j, a', b')
    ensures a == a' && b == b'
  {
    var last, last' := s[b - 1], s[b' - 1];
  }
}
