/** Lines of equal length one after another, and the cutting of h lines into parts of l lines, the
    last one possibly shorter. */
module Parts {

  /** k lines of length l, or the lines of k full parts of l lines: k * l. */
  function Lines(l: nat, k: nat): nat {
    if k == 0 then 0 else Lines(l, k - 1) + l
  }

  /** How many parts h lines make: (h + l - 1) / l. */
  function PartCount(h: nat, l: nat): nat
    requires 1 <= l
  {
    DivisionWithRest(h + l - 1, l);
    (h + l - 1) / l
  }

  lemma {:induction false} LinesIsProduct(l: nat, k: nat)
    ensures Lines(l, k) == k * l
  {
    if k > 0 {
      LinesIsProduct(l, k - 1);
      assert k * l == (k - 1) * l + l;
    }
  }

  lemma DivisionWithRest(h: nat, l: nat)
    requires 1 <= l
    ensures h / l >= 0 && h == (h / l) * l + h % l
  {
  }

  lemma {:induction false} LinesGrow(l: nat, j: nat, k: nat)
    requires j < k
    ensures Lines(l, j) + l <= Lines(l, k)
  {
    if j + 1 < k {
      LinesGrow(l, j, k - 1);
    }
  }

  lemma {:induction false} LinesAdd(l: nat, a: nat, b: nat)
    ensures Lines(l, a + b) == Lines(l, a) + Lines(l, b)
  {
    if b > 0 {
      LinesAdd(l, a, b - 1);
    }
  }

  /** The parts reach h, and one part less does not. */
  lemma PartCountIsLeast(h: nat, l: nat, k: nat)
    requires 1 <= l
    ensures k == PartCount(h, l) <==> h <= Lines(l, k) < h + l
  {
    hide Lines, PartCount;
    PartCountReaches(h, l);
    if h <= Lines(l, k) < h + l {
      if k < PartCount(h, l) {
        LinesGrow(l, k, PartCount(h, l));
      } else if PartCount(h, l) < k {
        LinesGrow(l, PartCount(h, l), k);
      }
    }
  }

  lemma PartCountReaches(h: nat, l: nat)
    requires 1 <= l
    ensures h <= Lines(l, PartCount(h, l)) < h + l
  {
    DivisionWithRest(h + l - 1, l);
    LinesIsProduct(l, PartCount(h, l));
  }
}
