/** Pulse phase as an integer cycle count plus a fractional cycle, the split
    that keeps the fraction exact however many rotations have elapsed.
    A phase is normalised when its fraction lies in [-0.5, 0.5). */
module PhaseArith {

  datatype Phase = Phase(cycles: int, frac: real)

  predicate Normalized(p: Phase)
  {
    -0.5 <= p.frac < 0.5
  }

  /** The phase as one number of cycles. */
  function Value(p: Phase): real
  {
    p.cycles as real + p.frac
  }

  predicate IsInteger(x: real)
  {
    x == x.Floor as real
  }

  /** Builds a phase from a cycle count and a fraction of any size, moving
      whole cycles out of the fraction. */
  function Make(cycles: int, frac: real): (p: Phase)
    ensures Normalized(p)
    ensures Value(p) == cycles as real + frac
  {
    var n := (frac + 0.5).Floor;
    Phase(cycles + n, frac - n as real)
  }

  /** `Phase(x)` for a single number of cycles. */
  function FromReal(x: real): (p: Phase)
    ensures Normalized(p)
    ensures Value(p) == x
  {
    Make(0, x)
  }

  function Add(a: Phase, b: Phase): (p: Phase)
    ensures Normalized(p)
    ensures Value(p) == Value(a) + Value(b)
  {
    Make(a.cycles + b.cycles, a.frac + b.frac)
  }

  function Sub(a: Phase, b: Phase): (p: Phase)
    ensures Normalized(p)
    ensures Value(p) == Value(a) - Value(b)
  {
    Make(a.cycles - b.cycles, a.frac - b.frac)
  }

  /** Two normalised phases with the same value are the same phase. */
  lemma {:induction false} NormalizedUnique(p: Phase, q: Phase)
    requires Normalized(p) && Normalized(q)
    requires Value(p) == Value(q)
    ensures p == q
  {
    var d := p.cycles - q.cycles;
    assert q.frac - p.frac == d as real;
    assert -1.0 < q.frac - p.frac < 1.0;
  }

  /** Normalising a normalised phase changes nothing. */
  lemma {:induction false} MakeNormalized(p: Phase)
    requires Normalized(p)
    ensures Make(p.cycles, p.frac) == p
  {
    NormalizedUnique(Make(p.cycles, p.frac), p);
  }

  /** The fraction of a normalised phase differs from its value by a whole
      number of cycles. */
  lemma {:induction false} FracDiffersByCycles(p: Phase)
    ensures IsInteger(Value(p) - p.frac)
  {
    assert Value(p) - p.frac == p.cycles as real;
  }

  lemma {:induction false} SubSelf(a: Phase)
    requires Normalized(a)
    ensures Sub(a, a) == Phase(0, 0.0)
  {
    NormalizedUnique(Sub(a, a), Phase(0, 0.0));
  }
}
