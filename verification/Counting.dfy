/** Adjacent pairs of a symbol sequence, counted: the matrix behind the Markov block. */
module Counting {
  import opened Common
  import opened Alphabet

  /** How often `a` is directly followed by `b`. */
  function Pairs(s: seq<Symbol>, a: int, b: int): nat {
    if |s| < 2 then 0
    else var n := |s| - 1; Pairs(s[..n], a, b) + Bit(s[n - 1] == a && s[n] == b)
  }

  /** How often `a` is followed by anything. */
  function Outgoing(s: seq<Symbol>, a: int): nat {
    if |s| < 2 then 0
    else var n := |s| - 1; Outgoing(s[..n], a) + Bit(s[n - 1] == a)
  }

  /** How often `a` follows anything. */
  function Incoming(s: seq<Symbol>, a: int): nat {
    if |s| < 2 then 0
    else var n := |s| - 1; Incoming(s[..n], a) + Bit(s[n] == a)
  }

  function Occurrences(s: seq<int>, x: int): nat {
    if s == [] then 0 else Occurrences(s[..|s| - 1], x) + Bit(s[|s| - 1] == x)
  }

  /** Flow is conserved at every symbol but the first and the last of the sequence. */
  lemma {:induction false} FlowConservation(s: seq<Symbol>, a: int)
    requires s != []
    ensures Outgoing(s, a) - Incoming(s, a) == Bit(s[0] == a) - Bit(s[|s| - 1] == a)
  {
    if |s| > 1 { FlowConservation(s[..|s| - 1], a); }
  }

  // ---- totals ----

  function Sum(c: seq<nat>): nat { if c == [] then 0 else Sum(c[..|c| - 1]) + c[|c| - 1] }

  /** The first `k` counts of row `a`. */
  function Row(s: seq<Symbol>, a: int, k: nat): seq<nat> { seq(k, b => Pairs(s, a, b)) }

  /** The first `k` counts of column `b`. */
  function Column(s: seq<Symbol>, b: int, k: nat): seq<nat> { seq(k, a => Pairs(s, a, b)) }

  /** The first `k` counts of the whole matrix, row after row. */
  function Cells(s: seq<Symbol>, k: nat): seq<nat> { seq(k, i => Pairs(s, i / 24, i % 24)) }

  lemma {:induction false} RowSumStep(s: seq<Symbol>, a: int, k: nat)
    requires |s| >= 2
    ensures Sum(Row(s, a, k)) == Sum(Row(s[..|s| - 1], a, k)) + Bit(s[|s| - 2] == a && s[|s| - 1] < k)
  {
    if k > 0 {
      RowSumStep(s, a, k - 1);
      assert Row(s, a, k)[..k - 1] == Row(s, a, k - 1);
      assert Row(s[..|s| - 1], a, k)[..k - 1] == Row(s[..|s| - 1], a, k - 1);
    }
  }

  lemma {:induction false} ColumnSumStep(s: seq<Symbol>, b: int, k: nat)
    requires |s| >= 2
    ensures Sum(Column(s, b, k)) == Sum(Column(s[..|s| - 1], b, k)) + Bit(s[|s| - 1] == b && s[|s| - 2] < k)
  {
    if k > 0 {
      ColumnSumStep(s, b, k - 1);
      assert Column(s, b, k)[..k - 1] == Column(s, b, k - 1);
      assert Column(s[..|s| - 1], b, k)[..k - 1] == Column(s[..|s| - 1], b, k - 1);
    }
  }

  lemma FlatIndex(i: nat, a: Symbol, b: Symbol)
    ensures (i / 24 == a && i % 24 == b) <==> i == 24 * a + b
  {
  }

  lemma NoCells(s: seq<Symbol>)
    ensures Sum(Cells(s, 0)) == 0
  {
  }

  lemma CellsExtend(s: seq<Symbol>, k: nat)
    requires k > 0
    ensures Sum(Cells(s, k)) == Sum(Cells(s, k - 1)) + Pairs(s, (k - 1) / 24, (k - 1) % 24)
  {
    assert Cells(s, k)[..k - 1] == Cells(s, k - 1);
  }

  lemma {:induction false} CellsSumStep(s: seq<Symbol>, k: nat)
    requires |s| >= 2
    ensures Sum(Cells(s, k)) == Sum(Cells(s[..|s| - 1], k)) + Bit(24 * s[|s| - 2] + s[|s| - 1] < k)
  {
    hide Sum, Cells;
    if k == 0 { NoCells(s); NoCells(s[..|s| - 1]); }
    if k > 0 {
      CellsSumStep(s, k - 1);
      CellsExtend(s, k);
      CellsExtend(s[..|s| - 1], k);
      FlatIndex(k - 1, s[|s| - 2], s[|s| - 1]);
    }
  }

  lemma {:induction false} SumOfZeros(c: seq<nat>)
    requires forall i :: 0 <= i < |c| ==> c[i] == 0
    ensures Sum(c) == 0
  {
    if c != [] { SumOfZeros(c[..|c| - 1]); }
  }

  /** A row's counts add up to how often its symbol is left, a column's to how often its symbol is entered. */
  lemma {:induction false} RowAndColumnTotals(s: seq<Symbol>, a: Symbol)
    ensures Sum(Row(s, a, 24)) == Outgoing(s, a)
    ensures Sum(Column(s, a, 24)) == Incoming(s, a)
  {
    if |s| < 2 {
      SumOfZeros(Row(s, a, 24));
      SumOfZeros(Column(s, a, 24));
    } else {
      RowAndColumnTotals(s[..|s| - 1], a);
      RowSumStep(s, a, 24);
      ColumnSumStep(s, a, 24);
    }
  }

  /** All counts together are one less than the records. */
  lemma {:induction false} GrandTotal(s: seq<Symbol>)
    ensures Sum(Cells(s, 576)) == if s == [] then 0 else |s| - 1
  {
    if |s| < 2 {
      SumOfZeros(Cells(s, 576));
    } else {
      GrandTotal(s[..|s| - 1]);
      CellsSumStep(s, 576);
    }
  }

  lemma {:induction false} PairsWithinRow(s: seq<Symbol>, a: int, b: int)
    ensures Pairs(s, a, b) <= Outgoing(s, a)
  {
    if |s| >= 2 { PairsWithinRow(s[..|s| - 1], a, b); }
  }

  // ---- how many counts are not zero ----

  function Support(c: seq<nat>): nat { if c == [] then 0 else Support(c[..|c| - 1]) + Bit(c[|c| - 1] > 0) }

  lemma {:induction false} SupportBounds(c: seq<nat>)
    ensures Support(c) <= Sum(c) && Support(c) <= |c|
    ensures Sum(c) > 0 ==> Support(c) >= 1
  {
    if c != [] { SupportBounds(c[..|c| - 1]); }
  }

  /** Every other nonzero count takes at least one of the total away from `c[i]`. */
  lemma {:induction false} OthersTakeTheirShare(c: seq<nat>, i: nat)
    requires i < |c| && c[i] > 0
    ensures c[i] + Support(c) - 1 <= Sum(c)
  {
    var n := |c| - 1;
    SupportBounds(c[..n]);
    if i < n { OthersTakeTheirShare(c[..n], i); }
  }
}
