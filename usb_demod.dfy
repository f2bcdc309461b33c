/** `USBDemod<Scalar>`: upper-sideband demodulation, the mean of the I and Q components
    computed in the wide scalar `SScalar`. */
module USBDemodulator {
  import opened Samples
  import opened FixedPoint
  import opened Configs

  /** (SScalar(re) + SScalar(im)) / 2 with C++ truncating division (demod.hh:164). */
  function Sideband(z: Complex): int
  {
    TruncDiv(z.re + z.im, 2)
  }

  /** The output lies between the two components, equals them when they agree, and is
      odd-symmetric: division truncates toward zero, so negating both components negates
      the output (a floor division would not). */
  lemma SidebandBetween(z: Complex)
    ensures z.re <= z.im ==> z.re <= Sideband(z) <= z.im
    ensures z.im <= z.re ==> z.im <= Sideband(z) <= z.re
    ensures z.re == z.im ==> Sideband(z) == z.re
    ensures Sideband(Complex(-z.re, -z.im)) == -Sideband(z)
  {
    TruncDivBounds(z.re + z.im, 2);
    TruncDivBounds(-z.re + -z.im, 2);
  }

  /** The outputs of a block, one per sample. */
  function SidebandAll(xs: seq<Complex>): (r: seq<int>)
    ensures |r| == |xs|
  {
    seq(|xs|, i requires 0 <= i < |xs| => Sideband(xs[i]))
  }

  /** Where a block goes (demod.hh:144-157): over its own storage when the sender allows
      overwriting, else into the private buffer when that is unused, else dropped. */
  datatype Route = InPlace | Private | Drop

  function RouteOf(allowOverwrite: bool, bufferUnused: bool): Route
  {
    if allowOverwrite then InPlace
    else if bufferUnused then Private
    else Drop
  }

  class USBDemod {
    /** Type ids of `std::complex<Scalar>` (accepted) and `Scalar` (announced). */
    const inType: TypeId
    const outType: TypeId

    /** `_buffer` and whether this node is its only holder (`isUnused()`). */
    var buffer: array<Cell>
    var bufferUnused: bool
    /** The configuration announced downstream (`setConfig`). */
    var announced: Option<Config>
    /** Every block sent downstream, in order. */
    ghost var sent: seq<seq<int>>

    constructor (inType: TypeId, outType: TypeId)
      ensures this.inType == inType && this.outType == outType
      ensures buffer.Length == 0 && bufferUnused && announced == None && sent == []
    {
      this.inType, this.outType := inType, outType;
      buffer := new Cell[0];
      bufferUnused := true;
      announced := None;
      sent := [];
    }

    /** `config`: on an accepted configuration, a fresh private buffer of the configured
        size and (Scalar, same rate, same buffer size, 1) announced; otherwise nothing
        changes. */
    method Configure(cfg: Config) returns (outcome: ConfigOutcome)
      modifies this
      ensures outcome == Guard(cfg, inType, outType, 1)
      ensures !outcome.Accept? ==> unchanged(this)
      ensures outcome.Accept? ==>
        && fresh(buffer) && buffer.Length == cfg.bufferSize && bufferUnused
        && announced == Some(Config(outType, cfg.sampleRate, cfg.bufferSize, 1))
        && sent == old(sent)
    {
      outcome := Guard(cfg, inType, outType, 1);
      if !outcome.Accept? {
        return;
      }
      buffer := new Cell[cfg.bufferSize](_ => Real(0));
      bufferUnused := true;
      announced := Some(outcome.announced);
    }

    /** `process`: demodulates the block in place or into the private buffer, with the
        same outputs either way, or drops it without any change. An empty block that is
        not dropped is sent as an empty block. */
    method Process(input: array<Cell>, allowOverwrite: bool) returns (route: Route)
      requires AllIq(input[..])
      requires RouteOf(allowOverwrite, bufferUnused) == Private ==> input.Length <= buffer.Length
      modifies this`sent, input, buffer
      ensures route == RouteOf(allowOverwrite, bufferUnused)
      ensures route == Drop ==>
        sent == old(sent) && input[..] == old(input[..]) && buffer[..] == old(buffer[..])
      ensures route != Drop ==>
        var outs := SidebandAll(SamplesOf(old(input[..])));
        && sent == old(sent) + [outs]
        && (route == InPlace ==>
              input[..] == RealCells(outs)
              && (buffer != input ==> buffer[..] == old(buffer[..])))
        && (route == Private ==>
              buffer[..input.Length] == RealCells(outs)
              && buffer[input.Length..] == old(buffer[input.Length..])
              && (buffer != input ==> input[..] == old(input[..])))
    {
      route := RouteOf(allowOverwrite, bufferUnused);
      if route == InPlace {
        ProcessBlock(input, input);
      } else if route == Private {
        ProcessBlock(input, buffer);
      }
    }

    /** `_process`: writes the output of every input sample into `out`, which may be the
        input's own storage; sample i is read before slot i is written. */
    method ProcessBlock(input: array<Cell>, out: array<Cell>)
      requires AllIq(input[..])
      requires input.Length <= out.Length
      modifies this`sent, out
      ensures out[..input.Length] == RealCells(SidebandAll(SamplesOf(old(input[..]))))
      ensures out[input.Length..] == old(out[input.Length..])
      ensures sent == old(sent) + [SidebandAll(SamplesOf(old(input[..])))]
    {
      var n := input.Length;
      ghost var outs := SidebandAll(SamplesOf(input[..]));
      var i := 0;
      while i < n
        modifies out
        invariant 0 <= i <= n
        invariant forall j :: i <= j < n ==> input[j] == old(input[j])
        invariant forall j :: 0 <= j < i ==> out[j] == Real(outs[j])
        invariant forall j :: n <= j < out.Length ==> out[j] == old(out[j])
      {
        var x := input[i].z;
        out[i] := Real(TruncDiv(x.re + x.im, 2));
        i := i + 1;
      }
      sent := sent + [outs];
      assert out[..n] == RealCells(outs);
    }
  }
}
