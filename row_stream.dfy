/**
 * The one-pass fold every decoder runs over its tokenized rows
 * (`delimitedRows.reduce(into: [])`): each row is decoded by a per-row
 * function; a decoded row is appended to the output, a row that does not
 * decode is appended to the caller's reject sink.
 */
module RowStream {
  import opened Wrappers

  /** The output the fold builds from `rows` with per-row decoder `f`. */
  function Decoded<R, D>(f: R -> Option<D>, rows: seq<R>): seq<D>
    decreases |rows|
  {
    if rows == [] then []
    else
      var init := Decoded(f, rows[..|rows| - 1]);
      match f(rows[|rows| - 1])
      case Some(d) => init + [d]
      case None => init
  }

  /** What the fold appends to the reject sink. */
  function Rejected<R, D>(f: R -> Option<D>, rows: seq<R>): seq<R>
    decreases |rows|
  {
    if rows == [] then []
    else
      var init := Rejected(f, rows[..|rows| - 1]);
      match f(rows[|rows| - 1])
      case Some(_) => init
      case None => init + [rows[|rows| - 1]]
  }

  /** The input rows that decode, in input order. */
  function Accepted<R, D>(f: R -> Option<D>, rows: seq<R>): seq<R>
    decreases |rows|
  {
    if rows == [] then []
    else
      var init := Accepted(f, rows[..|rows| - 1]);
      match f(rows[|rows| - 1])
      case Some(_) => init + [rows[|rows| - 1]]
      case None => init
  }

  /**
   * The fold is a stream transformer: decoding a concatenation is decoding
   * each part in turn, so row order is kept and no row affects another.
   */
  lemma {:induction false} StreamsConcatenate<R, D>(f: R -> Option<D>, a: seq<R>, b: seq<R>)
    ensures Decoded(f, a + b) == Decoded(f, a) + Decoded(f, b)
    ensures Rejected(f, a + b) == Rejected(f, a) + Rejected(f, b)
    ensures Accepted(f, a + b) == Accepted(f, a) + Accepted(f, b)
    decreases |b|
  {
    if b == [] {
      assert a + b == a;
    } else {
      var b' := b[..|b| - 1];
      assert (a + b)[..|a + b| - 1] == a + b';
      assert (a + b)[|a + b| - 1] == b[|b| - 1];
      StreamsConcatenate(f, a, b');
    }
  }

  /** A single row lands in exactly one of the two outputs. */
  lemma OneRow<R, D>(f: R -> Option<D>, r: R)
    ensures Decoded(f, [r]) == (if f(r).Some? then [f(r).value] else [])
    ensures Rejected(f, [r]) == (if f(r).Some? then [] else [r])
  {
    assert [r][..0] == [];
  }

  /**
   * Every input row is in exactly one of the accepted rows and the rejected
   * rows, and there is one decoded row per accepted row.
   */
  lemma {:induction false} EveryRowOnce<R, D>(f: R -> Option<D>, rows: seq<R>)
    ensures |Decoded(f, rows)| == |Accepted(f, rows)|
    ensures |Accepted(f, rows)| + |Rejected(f, rows)| == |rows|
    ensures multiset(Accepted(f, rows)) + multiset(Rejected(f, rows)) == multiset(rows)
    decreases |rows|
  {
    if rows != [] {
      var init := rows[..|rows| - 1];
      assert rows == init + [rows[|rows| - 1]];
      EveryRowOnce(f, init);
    }
  }

  /** The reject sink receives exactly the rows the per-row decoder refuses. */
  lemma {:induction false} RejectedAreFailures<R, D>(f: R -> Option<D>, rows: seq<R>)
    ensures forall r :: r in Rejected(f, rows) <==> r in rows && f(r).None?
    decreases |rows|
  {
    if rows != [] {
      var init := rows[..|rows| - 1];
      assert rows == init + [rows[|rows| - 1]];
      RejectedAreFailures(f, init);
    }
  }

  /** Every decoded row is the decoding of some input row, and conversely. */
  lemma {:induction false} DecodedAreSuccesses<R, D>(f: R -> Option<D>, rows: seq<R>)
    ensures forall d :: d in Decoded(f, rows) <==> exists i :: 0 <= i < |rows| && f(rows[i]) == Some(d)
    decreases |rows|
  {
    if rows != [] {
      var init := rows[..|rows| - 1];
      DecodedAreSuccesses(f, init);
      forall d
        ensures d in Decoded(f, rows) <==> exists i :: 0 <= i < |rows| && f(rows[i]) == Some(d)
      {
        if d in Decoded(f, rows) {
          if d in Decoded(f, init) {
            var i :| 0 <= i < |init| && f(init[i]) == Some(d);
            assert rows[i] == init[i];
          } else {
            assert f(rows[|rows| - 1]) == Some(d);
          }
        }
        if exists i :: 0 <= i < |rows| && f(rows[i]) == Some(d) {
          var i :| 0 <= i < |rows| && f(rows[i]) == Some(d);
          if i < |init| {
            assert init[i] == rows[i];
          }
        }
      }
    }
  }

  /** When no row decodes, every row goes to the sink, in order. */
  lemma {:induction false} AllRejected<R, D>(f: R -> Option<D>, rows: seq<R>)
    requires forall i | 0 <= i < |rows| :: f(rows[i]).None?
    ensures Decoded(f, rows) == []
    ensures Rejected(f, rows) == rows
    decreases |rows|
  {
    if rows != [] {
      var init := rows[..|rows| - 1];
      assert rows == init + [rows[|rows| - 1]];
      AllRejected(f, init);
    }
  }
}
