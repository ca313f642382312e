/** Facts about division by a variable, proved once. */
module Division {
  lemma DivBounds(a: int, w: int)
    requires 0 < w
    ensures w * (a / w) <= a < w * (a / w) + w
  {
  }

  lemma {:induction false} MulStep(w: int, p: int, q: int)
    requires 0 < w && p < q
    ensures w * p + w <= w * q
    decreases q - p
  {
    assert w * q == w * (q - 1) + w;
    if p < q - 1 { MulStep(w, p, q - 1); }
  }

  lemma DivUnique(a: int, w: int, q: int)
    requires 0 < w && w * q <= a < w * q + w
    ensures a / w == q
  {
    var p := a / w;
    DivBounds(a, w);
    if p < q { MulStep(w, p, q); }
    if q < p { MulStep(w, q, p); }
  }

  lemma DivMonotone(a: int, b: int, w: int)
    requires a <= b && 0 < w
    ensures a / w <= b / w
  {
    DivBounds(a, w);
    DivBounds(b, w);
    if b / w < a / w { MulStep(w, b / w, a / w); }
  }

  lemma DivNonNegative(a: int, w: int)
    requires 0 <= a && 0 < w
    ensures 0 <= a / w
  {
    DivMonotone(0, a, w);
    DivUnique(0, w, 0);
  }

  function CeilDiv(d: nat, w: int): int
    requires 0 < w
  {
    (d + w - 1) / w
  }

  /** A number at most `d` above another has a quotient at most `d / w`, rounded up, above the other's. */
  lemma DivLag(a: int, b: int, w: int, d: nat)
    requires 0 < w && a <= b <= a + d
    ensures a / w <= b / w <= a / w + CeilDiv(d, w)
  {
    var p, c := a / w, CeilDiv(d, w);
    DivBounds(a, w);
    DivBounds(b, w);
    DivBounds(d + w - 1, w);
    DivMonotone(a, b, w);
    assert w * (p + c) == w * p + w * c;
    if p + c < b / w { MulStep(w, p + c, b / w); }
  }
}
