/** `FMDemod<iScalar, oScalar>`: FM demodulation of an I/Q stream by the phase difference
    of consecutive samples, approximated in fixed point by `_fast_atan2`. */
module FMDemodulator {
  import opened Samples
  import opened Recurrence
  import opened FixedPoint
  import opened Configs

  /** The output for sample x following sample prev (demod.hh:269-277 and 281-286). */
  function PhaseStep(s: Scaling): (Complex, Complex) -> int
  {
    (prev: Complex, x: Complex) => FastAtan2(Dot(prev, x), Cross(prev, x), s)
  }

  /** The outputs of a block xs when `prev` is the sample carried in from before it. */
  function Demodulate(s: Scaling, prev: Complex, xs: seq<Complex>): (r: seq<int>)
    ensures |r| == |xs|
  {
    Scan(prev, xs, PhaseStep(s))
  }

  /** The recurrence: one output per input sample; output i is `_fast_atan2` of the dot
      and cross products of x[i] with x[i-1], where x[-1] is the carried sample; every
      output is an angle within half a turn. */
  lemma DemodulateAt(s: Scaling, prev: Complex, xs: seq<Complex>, i: nat)
    requires i < |xs|
    ensures |Demodulate(s, prev, xs)| == |xs|
    ensures var p := if i == 0 then prev else xs[i - 1];
      Demodulate(s, prev, xs)[i] == FastAtan2(Dot(p, xs[i]), Cross(p, xs[i]), s)
    ensures -4 * Pi4(s) <= Demodulate(s, prev, xs)[i] <= 4 * Pi4(s)
  {
    ScanAt(prev, xs, PhaseStep(s), i);
    var p := if i == 0 then prev else xs[i - 1];
    FastAtan2Bounds(Dot(p, xs[i]), Cross(p, xs[i]), s);
  }

  /** Block-splitting continuity: demodulating A and then B, with the last sample of A
      carried across, gives the outputs of demodulating A ++ B in one call, and carries
      out the same sample. */
  lemma DemodulateSplit(s: Scaling, prev: Complex, xs: seq<Complex>, ys: seq<Complex>)
    ensures Demodulate(s, prev, xs + ys)
         == Demodulate(s, prev, xs) + Demodulate(s, LastOr(prev, xs), ys)
    ensures LastOr(prev, xs + ys) == LastOr(LastOr(prev, xs), ys)
  {
    ScanSplit(prev, xs, ys, PhaseStep(s));
  }

  /** A carrier without frequency offset (the same sample over and over) demodulates,
      after the first output, to a quarter turn (2 * pi4) -- or to 0 when its power
      Dot(x, x) vanishes under the pre-shift. The products are passed to `_fast_atan2` with the
      dot product in the first position, so zero phase difference maps to a quarter turn. */
  lemma {:induction false} SteadyCarrier(s: Scaling, prev: Complex, x: Complex, n: nat, i: nat)
    requires 0 < i < n
    ensures Demodulate(s, prev, seq(n, _ => x))[i]
         == if ShiftRight(Dot(x, x), PreShift(s)) > 0 then 2 * Pi4(s) else 0
  {
    var xs := seq(n, _ => x);
    ScanAt(prev, xs, PhaseStep(s), i);
    assert xs[i - 1] == x && xs[i] == x;
    assert Cross(x, x) == 0;
    SquareNonNegative(x.re);
    SquareNonNegative(x.im);
    FastAtan2Bounds(Dot(x, x), 0, s);
    ShiftRightBounds(Dot(x, x), PreShift(s));
    ShiftRightBounds(0, PreShift(s));
  }

  /** Where a block goes: an empty block is skipped (demod.hh:234); it is demodulated over its
      own storage when the sender allows overwriting and the output fits in place
      (demod.hh:236), into the private buffer when that is unused (demod.hh:238), and dropped
      otherwise. */
  datatype Route = Skip | InPlace | Private | Drop

  function RouteOf(size: nat, allowOverwrite: bool, canOverwrite: bool, bufferUnused: bool): Route
  {
    if size == 0 then Skip
    else if allowOverwrite && canOverwrite then InPlace
    else if bufferUnused then Private
    else Drop
  }

  class FMDemod {
    /** Type ids of `std::complex<iScalar>` (accepted) and `oScalar` (announced). */
    const inType: TypeId
    const outType: TypeId
    /** sizeof(iScalar) and sizeof(oScalar). */
    const inBytes: nat
    const outBytes: nat
    /** `_shift` and `Traits<oScalar>::shift`. */
    const scale: Scaling

    /** `_last_value`: the last sample of the last processed block. */
    var last: Complex
    /** `_can_overwrite`: output elements fit into the input's storage. */
    var canOverwrite: bool
    /** `_buffer`, and whether this node is its only holder (`isUnused()`); `config` sets
        the flag for the freshly allocated buffer, and otherwise only the downstream
        consumers change it. */
    var buffer: array<Cell>
    var bufferUnused: bool
    /** The configuration announced downstream (`setConfig`). */
    var announced: Option<Config>
    /** Every block sent downstream, in order. */
    ghost var sent: seq<seq<int>>

    constructor (inType: TypeId, outType: TypeId, inBytes: nat, outBytes: nat, unitShift: nat)
      requires 8 * (outBytes - inBytes) <= 9 && unitShift >= 4
      ensures this.inType == inType && this.outType == outType
      ensures this.inBytes == inBytes && this.outBytes == outBytes
      ensures scale == ScaleParams(8 * (outBytes - inBytes), unitShift)
      ensures last == Complex(0, 0) && !canOverwrite
      ensures buffer.Length == 0 && bufferUnused && announced == None && sent == []
    {
      this.inType, this.outType := inType, outType;
      this.inBytes, this.outBytes := inBytes, outBytes;
      scale := ScaleParams(8 * (outBytes - inBytes), unitShift);
      last := Complex(0, 0);
      canOverwrite := false;
      buffer := new Cell[0];
      bufferUnused := true;
      announced := None;
      sent := [];
    }

    /** `config`: on an accepted configuration, a fresh private buffer of the configured
        size, `_last_value` reset to 0, in-place demodulation enabled exactly when a
        complex input element is at least as large as an output element, and
        (oScalar, same rate, same buffer size, 1) announced; otherwise no change at all. */
    method Configure(cfg: Config) returns (outcome: ConfigOutcome)
      modifies this
      ensures outcome == Guard(cfg, inType, outType, 1)
      ensures !outcome.Accept? ==> unchanged(this)
      ensures outcome.Accept? ==>
        && fresh(buffer) && buffer.Length == cfg.bufferSize && bufferUnused
        && last == Complex(0, 0)
        && canOverwrite == (2 * inBytes >= outBytes)
        && announced == Some(Config(outType, cfg.sampleRate, cfg.bufferSize, 1))
        && sent == old(sent)
    {
      outcome := Guard(cfg, inType, outType, 1);
      if !outcome.Accept? {
        return;
      }
      buffer := new Cell[cfg.bufferSize](_ => Real(0));
      bufferUnused := true;
      last := Complex(0, 0);
      canOverwrite := 2 * inBytes >= outBytes;
      announced := Some(outcome.announced);
    }

    /** `process`: routes the block (see RouteOf) and demodulates it. In place and into
        the private buffer the outputs are the same: Demodulate of the block, carried in
        from `last`. A skipped or dropped block changes nothing. */
    method Process(input: array<Cell>, allowOverwrite: bool) returns (route: Route)
      requires AllIq(input[..])
      requires RouteOf(input.Length, allowOverwrite, canOverwrite, bufferUnused) == Private
        ==> input.Length <= buffer.Length
      modifies this`last, this`sent, input, buffer
      ensures route == RouteOf(input.Length, allowOverwrite, canOverwrite, bufferUnused)
      ensures route in {Skip, Drop} ==>
        last == old(last) && sent == old(sent)
        && input[..] == old(input[..]) && buffer[..] == old(buffer[..])
      ensures route in {InPlace, Private} ==>
        var xs := SamplesOf(old(input[..]));
        var outs := Demodulate(scale, old(last), xs);
        && last == xs[|xs| - 1]
        && sent == old(sent) + [outs]
        && (route == InPlace ==>
              input[..] == RealCells(outs)
              && (buffer != input ==> buffer[..] == old(buffer[..])))
        && (route == Private ==>
              buffer[..input.Length] == RealCells(outs)
              && buffer[input.Length..] == old(buffer[input.Length..])
              && (buffer != input ==> input[..] == old(input[..])))
    {
      route := RouteOf(input.Length, allowOverwrite, canOverwrite, bufferUnused);
      if route == InPlace {
        ProcessBlock(input, input);
      } else if route == Private {
        ProcessBlock(input, buffer);
      }
    }

    /** `_process`: demodulates a non-empty block into `out`, which may be the input's
        own storage. Each input sample is read (and kept as the carried sample) before
        its output slot is written, so the outputs do not depend on whether `out`
        aliases `input`. */
    method ProcessBlock(input: array<Cell>, out: array<Cell>)
      requires AllIq(input[..])
      requires 1 <= input.Length <= out.Length
      modifies this`last, this`sent, out
      ensures out[..input.Length] == RealCells(Demodulate(scale, old(last), SamplesOf(old(input[..]))))
      ensures out[input.Length..] == old(out[input.Length..])
      ensures last == SamplesOf(old(input[..]))[input.Length - 1]
      ensures sent == old(sent) + [Demodulate(scale, old(last), SamplesOf(old(input[..])))]
    {
      var n := input.Length;
      ghost var xs := SamplesOf(input[..]);
      ghost var outs := Demodulate(scale, last, xs);
      // the first sample against the carried one
      var lastValue := last;
      var x := input[0].z;
      var a := Dot(lastValue, x);
      var b := Cross(lastValue, x);
      lastValue := x;
      DemodulateAt(scale, last, xs, 0);
      out[0] := Real(FastAtan2(a, b, scale));
      // the remaining samples against their predecessors
      var i := 1;
      while i < n
        modifies out
        invariant 1 <= i <= n
        invariant forall j :: i <= j < n ==> input[j] == old(input[j])
        invariant lastValue == xs[i - 1]
        invariant forall j :: 0 <= j < i ==> out[j] == Real(outs[j])
        invariant forall j :: n <= j < out.Length ==> out[j] == old(out[j])
      {
        x := input[i].z;
        a := Dot(lastValue, x);
        b := Cross(lastValue, x);
        lastValue := x;
        DemodulateAt(scale, last, xs, i);
        out[i] := Real(FastAtan2(a, b, scale));
        i := i + 1;
      }
      last := lastValue;
      sent := sent + [outs];
      assert out[..n] == RealCells(outs);
    }
  }
}
