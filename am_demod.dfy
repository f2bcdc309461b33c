/** `AMDemod<Scalar>`: amplitude demodulation, the magnitude of every I/Q sample. The
    model follows a build without SDR_DEBUG, where the busy check on the private buffer
    has no effect (demod.hh:62-69). */
module AMDemodulator {
  import opened Samples
  import opened Configs

  class AMDemod {
    /** Type ids of `std::complex<Scalar>` (accepted) and `Scalar` (announced). */
    const inType: TypeId
    const outType: TypeId
    /** std::sqrt(re*re + im*im) converted to Scalar (demod.hh:78), left abstract. */
    const magnitude: (int, int) -> int

    /** `_buffer` and whether this node is its only holder (`isUnused()`). */
    var buffer: array<Cell>
    var bufferUnused: bool
    /** The configuration announced downstream (`setConfig`). */
    var announced: Option<Config>
    /** Every block sent downstream, in order; AM always grants overwriting (demod.hh:84). */
    ghost var sent: seq<seq<int>>

    constructor (inType: TypeId, outType: TypeId, magnitude: (int, int) -> int)
      ensures this.inType == inType && this.outType == outType && this.magnitude == magnitude
      ensures buffer.Length == 0 && bufferUnused && announced == None && sent == []
    {
      this.inType, this.outType, this.magnitude := inType, outType, magnitude;
      buffer := new Cell[0];
      bufferUnused := true;
      announced := None;
      sent := [];
    }

    /** The outputs of a block, one magnitude per sample. */
    function Magnitudes(xs: seq<Complex>): (r: seq<int>)
      ensures |r| == |xs|
    {
      seq(|xs|, i requires 0 <= i < |xs| => magnitude(xs[i].re, xs[i].im))
    }

    /** `config`: on an accepted configuration, a fresh private buffer of the configured
        size and (Scalar, same rate, same buffer size, same buffer count) announced;
        otherwise nothing changes. */
    method Configure(cfg: Config) returns (outcome: ConfigOutcome)
      modifies this
      ensures outcome == Guard(cfg, inType, outType, cfg.numBuffers)
      ensures !outcome.Accept? ==> unchanged(this)
      ensures outcome.Accept? ==>
        && fresh(buffer) && buffer.Length == cfg.bufferSize && bufferUnused
        && announced == Some(Config(outType, cfg.sampleRate, cfg.bufferSize, cfg.numBuffers))
        && sent == old(sent)
    {
      outcome := Guard(cfg, inType, outType, cfg.numBuffers);
      if !outcome.Accept? {
        return;
      }
      buffer := new Cell[cfg.bufferSize](_ => Real(0));
      bufferUnused := true;
      announced := Some(outcome.announced);
    }

    /** `process`: writes the magnitudes over the input's storage when the sender allows
        overwriting and into the private buffer otherwise -- whether or not that buffer is
        still held downstream -- and sends them; no block is ever dropped. */
    method Process(input: array<Cell>, allowOverwrite: bool)
      requires AllIq(input[..])
      requires !allowOverwrite ==> input.Length <= buffer.Length
      modifies this`sent, input, buffer
      ensures var outs := Magnitudes(SamplesOf(old(input[..])));
        && sent == old(sent) + [outs]
        && (allowOverwrite ==>
              input[..] == RealCells(outs)
              && (buffer != input ==> buffer[..] == old(buffer[..])))
        && (!allowOverwrite ==>
              buffer[..input.Length] == RealCells(outs)
              && buffer[input.Length..] == old(buffer[input.Length..])
              && (buffer != input ==> input[..] == old(input[..])))
    {
      var n := input.Length;
      ghost var outs := Magnitudes(SamplesOf(input[..]));
      var out := if allowOverwrite then input else buffer;
      var i := 0;
      while i < n
        modifies out
        invariant 0 <= i <= n
        invariant forall j :: i <= j < n ==> input[j] == old(input[j])
        invariant forall j :: 0 <= j < i ==> out[j] == Real(outs[j])
        invariant forall j :: n <= j < out.Length ==> out[j] == old(out[j])
      {
        var x := input[i].z;
        out[i] := Real(magnitude(x.re, x.im));
        i := i + 1;
      }
      sent := sent + [outs];
      assert out[..n] == RealCells(outs);
    }
  }
}
