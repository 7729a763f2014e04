/** Unsigned 64-bit words as integers: masking with 2^k - 1, negation and rounding up to a
    power-of-two alignment. */
module MachineWord {
  import opened TensorIndex

  function Pow2(e: nat): (r: nat)
    ensures r > e
  {
    if e == 0 then 1 else 2 * Pow2(e - 1)
  }

  lemma {:induction false} Pow2Add(e: nat, f: nat)
    ensures Pow2(e + f) == Pow2(e) * Pow2(f)
  {
    if e > 0 {
      assert Pow2(e + f) == 2 * Pow2(e - 1 + f) && Pow2(e) == 2 * Pow2(e - 1);
      hide Pow2;
      Pow2Add(e - 1, f);
      HornerStep(2, Pow2(e - 1), 0, Pow2(f));
    }
  }

  // ---- divisibility --------------------------------------------------------------------------------

  lemma ModOfSum(q: int, r: int, a: nat)
    requires 0 <= r < a
    ensures (q * a + r) % a == r && (q * a + r) / a == q
  {
    var x := q * a + r;
    assert x == (x / a) * a + x % a;
    DivModUnique(x / a, x % a, q, r, a);
  }

  lemma MultiplesAdd(x: int, y: int, a: nat)
    requires a > 0 && x % a == 0
    ensures (x + y) % a == y % a
  {
    var p, q := x / a, y / a;
    assert x == p * a && y == q * a + y % a;
    HornerStep(1, a, p + q, 1);
    assert x + y == (p + q) * a + y % a;
    ModOfSum(p + q, y % a, a);
  }

  lemma MultipleOfMultiple(x: int, a: nat, b: nat)
    requires a > 0 && b > 0 && x % (a * b) == 0
    ensures x % b == 0
  {
    var q := x / (a * b);
    assert x == q * (a * b);
    HornerStep(q, a, 0, b);
    assert x == (q * a) * b + 0;
    ModOfSum(q * a, 0, b);
  }

  // ---- bitwise and ------------------------------------------------------------------------------------

  function And(x: nat, y: nat): nat {
    if x == 0 || y == 0 then 0 else 2 * And(x / 2, y / 2) + (x % 2) * (y % 2)
  }

  lemma HalvedMod(w: nat, m: nat)
    requires m > 0
    ensures w % (2 * m) == 2 * ((w / 2) % m) + w % 2
  {
    var q, r := (w / 2) / m, (w / 2) % m;
    assert w / 2 == q * m + r;
    assert w == 2 * (q * m) + (2 * r + w % 2);
    HornerStep(q, 2, 0, m);
    assert q * (2 * m) == 2 * (q * m);
    ModOfSum(q, 2 * r + w % 2, 2 * m);
  }

  lemma Pow2Step(k: nat)
    ensures Pow2(k) == if k == 0 then 1 else 2 * Pow2(k - 1)
  {
  }

  lemma AndZero(x: nat, y: nat)
    ensures x == 0 || y == 0 ==> And(x, y) == 0
  {
  }

  lemma AndStep(m: nat, w: nat)
    requires m > 0 && w > 0
    ensures And(2 * m - 1, w) == 2 * And(m - 1, w / 2) + w % 2
  {
    assert (2 * m - 1) / 2 == m - 1 && (2 * m - 1) % 2 == 1;
  }

  /** Masking with 2^k - 1 keeps the remainder modulo 2^k. */
  lemma {:induction false} MaskIsMod(k: nat, w: nat)
    ensures And(Pow2(k) - 1, w) == w % Pow2(k)
    decreases k
  {
    hide Pow2, And;
    Pow2Step(k);
    if k == 0 || w == 0 {
      AndZero(0, w);
      AndZero(Pow2(k) - 1, 0);
    } else {
      var m := Pow2(k - 1);
      MaskIsMod(k - 1, w / 2);
      AndStep(m, w);
      HalvedMod(w, m);
    }
  }

  // ---- alignment ----------------------------------------------------------------------------------------

  const WORD_BITS := 64

  // -v in 64-bit unsigned arithmetic.
  function Negated(v: nat): (n: nat)
    ensures n < Pow2(WORD_BITS)
  {
    var word := Pow2(WORD_BITS);
    (word - v % word) % word
  }

  lemma Cancels(v: nat, word: nat)
    requires word > 0
    ensures (v + (word - v % word) % word) % word == 0
  {
    var q, r := v / word, v % word;
    assert v == q * word + r;
    if r == 0 {
      ModOfSum(1, 0, word);
    } else {
      ModOfSum(0, word - r, word);
      ModOfSum(q + 1, 0, word);
    }
  }

  lemma NegatedCancels(v: nat)
    ensures (v + Negated(v)) % Pow2(WORD_BITS) == 0
  {
    hide Pow2;
    Cancels(v, Pow2(WORD_BITS));
  }

  // The mask expression (alignment - 1) & -v, with alignment 2^k.
  function Padding(v: nat, k: nat): nat {
    And(Pow2(k) - 1, Negated(v))
  }

  function AlignUp(v: nat, k: nat): nat {
    v + Padding(v, k)
  }

  lemma DropMultiples(v: nat, n: nat, a: nat)
    requires a > 0 && (v + n) % a == 0
    ensures (v + n % a) % a == 0
  {
    var q := n / a;
    assert n == q * a + n % a;
    ModOfSum(q, 0, a);
    MultiplesAdd(q * a, v + n % a, a);
  }

  /** The padding is the least distance to the next multiple of the alignment. */
  lemma PaddingAligns(v: nat, k: nat)
    requires k <= WORD_BITS
    ensures Padding(v, k) < Pow2(k) && AlignUp(v, k) % Pow2(k) == 0
  {
    hide Pow2, And, Negated;
    var a, n := Pow2(k), Negated(v);
    NegatedCancels(v);
    MaskIsMod(k, n);
    Pow2Add(WORD_BITS - k, k);
    MultipleOfMultiple(v + n, Pow2(WORD_BITS - k), a);
    DropMultiples(v, n, a);
  }

  lemma TwoMultiples(v: nat, a: nat, r: nat, s: nat)
    requires a > 0 && r % a == 0 && s % a == 0 && v <= r < v + a && v <= s < v + a
    ensures r == s
  {
    var p, q := r / a, s / a;
    assert r == p * a && s == q * a;
    MulMonotone(p + 1, q, a);
    MulMonotone(q + 1, p, a);
  }

  lemma AlignUpUnique(v: nat, k: nat, r: nat)
    requires k <= WORD_BITS && v <= r < v + Pow2(k) && r % Pow2(k) == 0
    ensures r == AlignUp(v, k)
  {
    hide Pow2, Padding;
    PaddingAligns(v, k);
    TwoMultiples(v, Pow2(k), r, AlignUp(v, k));
  }

  /** Moving by a multiple of the alignment moves the aligned position by as much. */
  lemma AlignUpShift(base: nat, v: nat, k: nat)
    requires k <= WORD_BITS && base % Pow2(k) == 0
    ensures AlignUp(base + v, k) == base + AlignUp(v, k) && Padding(base + v, k) == Padding(v, k)
  {
    PaddingAligns(v, k);
    MultiplesAdd(base, AlignUp(v, k), Pow2(k));
    AlignUpUnique(base + v, k, base + AlignUp(v, k));
  }

  lemma AlreadyAligned(v: nat, k: nat)
    requires k <= WORD_BITS
    ensures AlignUp(v, k) == v <==> v % Pow2(k) == 0
  {
    PaddingAligns(v, k);
    if v % Pow2(k) == 0 {
      AlignUpUnique(v, k, v);
    }
  }

  lemma SmallerAlignment(v: nat, k: nat, l: nat)
    requires k <= l && v % Pow2(l) == 0
    ensures v % Pow2(k) == 0
  {
    Pow2Add(l - k, k);
    MultipleOfMultiple(v, Pow2(l - k), Pow2(k));
  }
}
