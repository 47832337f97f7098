// What both hash map backends share: powers of two, sizes and result codes.

module Powers {
  function Log2(n: nat): nat { if n < 2 then 0 else 1 + Log2(n / 2) }

  ghost predicate IsPow2(n: nat) { n == 1 || (n > 1 && n % 2 == 0 && IsPow2(n / 2)) }

  function Pow2(k: nat): nat { if k == 0 then 1 else 2 * Pow2(k - 1) }

  lemma {:induction false} Pow2IsPow2(k: nat)
    ensures IsPow2(Pow2(k)) && Pow2(k) > 0
  {
    if k > 0 { Pow2IsPow2(k - 1); }
  }

  lemma {:induction false} Pow2Step(k: nat)
    ensures Pow2(0) == 1 && Pow2(k + 1) == 2 * Pow2(k)
  {
  }

  lemma TwiceProduct(x: nat, y: nat)
    ensures 2 * (x * y) == 2 * x * y
  {
  }

  lemma {:induction false} Pow2Sum(a: nat, b: nat)
    ensures Pow2(a + b) == Pow2(a) * Pow2(b)
  {
    hide Pow2;
    if a == 0 {
      Pow2Step(0);
    } else {
      Pow2Sum(a - 1, b);
      Pow2Step(a - 1);
      Pow2Step(a - 1 + b);
      TwiceProduct(Pow2(a - 1), Pow2(b));
    }
  }

  /** The smallest power of two that is at least x, from p upwards. */
  function CeilPow2(x: nat, p: nat): (r: nat)
    requires p > 0
    decreases x - p
  {
    if p >= x then p else CeilPow2(x, 2 * p)
  }

  lemma {:induction false} CeilPow2Least(x: nat, p: nat)
    requires IsPow2(p)
    ensures var r := CeilPow2(x, p); IsPow2(r) && r >= x && r >= p && (r == p || r / 2 < x)
    decreases x - p
  {
    hide IsPow2, CeilPow2;
    PowTwice(p);
    CeilStep(x, p);
    if p < x { CeilPow2Least(x, 2 * p); }
  }

  lemma {:induction false} OneIsPow2()
    ensures IsPow2(1)
  {
  }

  lemma {:induction false} PowTwice(p: nat)
    requires IsPow2(p)
    ensures p > 0 && IsPow2(2 * p)
  {
    HalfOfTwice(p);
  }

  lemma HalfOfTwice(p: nat)
    ensures 2 * p / 2 == p && 2 * p % 2 == 0
  {
  }

  lemma {:induction false} CeilStep(x: nat, p: nat)
    requires p > 0
    ensures CeilPow2(x, p) == if p >= x then p else CeilPow2(x, 2 * p)
  {
  }

  /** Between a power of two and its double there is no other. */
  lemma {:induction false} Pow2Gap(p: nat, q: nat)
    requires IsPow2(p) && IsPow2(q) && p < q
    ensures 2 * p <= q
    decreases q
  {
    if p > 1 { Pow2Gap(p / 2, q / 2); }
  }
}

module MapTypes {
  import opened Powers

  datatype Code = Success | KeyAlreadyPresent | KeyNotFound | NotEnoughMemory | ContainerFull

  const MIN_CAPACITY: nat := 16
  const MAX_CAPACITY: nat := 0x8000_0000_0000_0000

  ghost predicate Capacity(n: nat) { IsPow2(n) && MIN_CAPACITY <= n <= MAX_CAPACITY }

  /** The size a reset goes to for a requested one, 0 for the size it has, and
      whether the request was too big. */
  function ResetSize(n: nat): (nat, bool) {
    if n == 0 then (0, false)
    else if n < MIN_CAPACITY then (MIN_CAPACITY, false)
    else if CeilPow2(n, 1) > MAX_CAPACITY then (0, true)
    else (CeilPow2(n, 1), false)
  }

  /** The size is the smallest there is that holds the request; a request past the
      largest one, and no request, keep the size. */
  lemma ResetSizeOk(n: nat)
    ensures var r := ResetSize(n);
      && (r.1 <==> n > MAX_CAPACITY)
      && if n == 0 || n > MAX_CAPACITY then r.0 == 0
         else Capacity(r.0) && r.0 >= n && (r.0 == MIN_CAPACITY || r.0 / 2 < n)
  {
    hide CeilPow2, IsPow2;
    MaxIsPow2();
    OneIsPow2();
    CeilPow2Least(n, 1);
    if MAX_CAPACITY < CeilPow2(n, 1) { Pow2Gap(MAX_CAPACITY, CeilPow2(n, 1)); }
  }

  lemma Pow2Of63()
    ensures Pow2(63) == MAX_CAPACITY
  {
    Pow2Sum(9, 7);
    Pow2Sum(16, 16);
    Pow2Sum(16, 15);
    Pow2Sum(32, 31);
    assert Pow2(9) == 512 && Pow2(7) == 128 && Pow2(15) == 32768;
    hide Pow2;
  }

  lemma MaxIsPow2()
    ensures IsPow2(MAX_CAPACITY) && IsPow2(MIN_CAPACITY)
  {
    Pow2IsPow2(4);
    Pow2IsPow2(63);
    Pow2Of63();
    hide IsPow2, Pow2;
  }
}
