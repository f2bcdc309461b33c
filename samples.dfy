/** Sample values and buffer storage shared by the demodulators. */
module Samples {

  /** `std::complex<Scalar>` over an integer scalar; the components are unbounded here. */
  datatype Complex = Complex(re: int, im: int)

  /** Re(cur * conj(prev)): the in-phase product of two samples (the wide-scalar `a` of
      the FM and BPSK demodulators). */
  function Dot(prev: Complex, cur: Complex): int
  {
    cur.re * prev.re + cur.im * prev.im
  }

  /** Im(cur * conj(prev)): the quadrature product of two samples (`b`). */
  function Cross(prev: Complex, cur: Complex): int
  {
    cur.im * prev.re - cur.re * prev.im
  }

  /** One element slot of a buffer. A node's input buffer holds I/Q samples; an output
      buffer holds real samples. When a node demodulates in place, the output element i
      is written over the storage of input element i, which turns that slot into a Real. */
  datatype Cell = Iq(z: Complex) | Real(v: int)

  ghost predicate AllIq(s: seq<Cell>)
  {
    forall i :: 0 <= i < |s| ==> s[i].Iq?
  }

  /** The I/Q samples held by a sequence of input slots. */
  function SamplesOf(s: seq<Cell>): (r: seq<Complex>)
    requires AllIq(s)
    ensures |r| == |s|
  {
    seq(|s|, i requires 0 <= i < |s| => s[i].z)
  }

  /** Output slots holding the real samples vs, in order. */
  function RealCells(vs: seq<int>): (r: seq<Cell>)
    ensures |r| == |vs|
  {
    seq(|vs|, i requires 0 <= i < |vs| => Real(vs[i]))
  }
}

/** The recurrence shared by the FM and BPSK demodulators: every output compares an
    element with its predecessor, and the predecessor of the first element of a block is
    a value carried in from before the block. */
module Recurrence {

  /** The element carried out of a block: its last element, or the one carried in when
      the block is empty. */
  function LastOr<T>(prev: T, xs: seq<T>): T
  {
    if xs == [] then prev else xs[|xs| - 1]
  }

  /** f applied to each element and its predecessor, `prev` standing before xs[0]. */
  function Scan<T, U>(prev: T, xs: seq<T>, f: (T, T) -> U): (r: seq<U>)
    ensures |r| == |xs|
  {
    if xs == [] then [] else [f(prev, xs[0])] + Scan(xs[0], xs[1..], f)
  }

  /** Element i of the scan compares xs[i] with xs[i-1], or with `prev` for i == 0. */
  lemma {:induction false} ScanAt<T, U>(prev: T, xs: seq<T>, f: (T, T) -> U, i: nat)
    requires i < |xs|
    ensures Scan(prev, xs, f)[i] == f(if i == 0 then prev else xs[i - 1], xs[i])
  {
    if i > 0 {
      ScanAt(xs[0], xs[1..], f, i - 1);
      assert xs[1..][i - 1] == xs[i];
      if i > 1 {
        assert xs[1..][i - 2] == xs[i - 1];
      }
    }
  }

  /** Splitting a block anywhere and carrying the last element of the first part into
      the second gives the same outputs as processing the whole block at once. */
  lemma {:induction false} ScanSplit<T, U>(prev: T, xs: seq<T>, ys: seq<T>, f: (T, T) -> U)
    ensures Scan(prev, xs + ys, f) == Scan(prev, xs, f) + Scan(LastOr(prev, xs), ys, f)
    ensures LastOr(prev, xs + ys) == LastOr(LastOr(prev, xs), ys)
  {
    if xs == [] {
      assert xs + ys == ys;
    } else {
      assert (xs + ys)[0] == xs[0];
      assert (xs + ys)[1..] == xs[1..] + ys;
      ScanSplit(xs[0], xs[1..], ys, f);
      assert LastOr(xs[0], xs[1..]) == LastOr(prev, xs);
    }
  }
}
