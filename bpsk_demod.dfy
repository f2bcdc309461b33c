/** `BPSKDemod<Scalar>`: binary phase-shift demodulation against a carrier reference.
    Two input streams (signal, reference) are consumed in lock step; each pair is
    correlated, and a bit is decided from the change of the correlation's phase. */
module BPSKDemodulator {
  import opened Samples
  import opened Recurrence
  import opened Configs

  /** signal * conj(reference) in the wide complex scalar (demod.hh:376 and 381): its real
      and imaginary parts are the products Dot and Cross of the reference and the signal. */
  function Correlation(signal: Complex, reference: Complex): Complex
  {
    Complex(Dot(reference, signal), Cross(reference, signal))
  }

  /** The correlations of the first n pairs. */
  function Correlations(signal: seq<Complex>, reference: seq<Complex>, n: nat): (r: seq<Complex>)
    requires n <= |signal| && n <= |reference|
    ensures |r| == n
  {
    seq(n, i requires 0 <= i < n => Correlation(signal[i], reference[i]))
  }

  /** The bit for correlation cur following prev: `decide(a, b)` stands for
      |atan2(a, b)| > pi/2 over a = Dot(prev, cur) and b = Cross(prev, cur)
      (demod.hh:377-379 and 382-384). */
  function DecisionStep(decide: (int, int) -> bool): (Complex, Complex) -> int
  {
    (prev: Complex, cur: Complex) => if decide(Dot(prev, cur), Cross(prev, cur)) then 1 else 0
  }

  /** The bits of one processed block as the code computes them: the first pair is
      decided against the carried correlation (demod.hh:379), but the loop
      (demod.hh:380) starts again at pair 0, now carrying that pair's own correlation,
      and overwrites bit 0. */
  function Bits(decide: (int, int) -> bool, cs: seq<Complex>): (r: seq<int>)
    requires |cs| >= 1
    ensures |r| == |cs|
  {
    Scan(cs[0], cs, DecisionStep(decide))
  }

  /** One bit per pair, each 0 or 1; bit 0 compares the first correlation with itself
      (its squared magnitude against a zero cross product, so it depends on that pair
      alone), and bit i > 0 compares correlation i with
      correlation i - 1. */
  lemma BitsAt(decide: (int, int) -> bool, cs: seq<Complex>, i: nat)
    requires i < |cs|
    ensures |Bits(decide, cs)| == |cs|
    ensures Bits(decide, cs)[i] == DecisionStep(decide)(if i == 0 then cs[0] else cs[i - 1], cs[i])
    ensures Bits(decide, cs)[i] in {0, 1}
    ensures i == 0 ==> Bits(decide, cs)[0] == if decide(Dot(cs[0], cs[0]), 0) then 1 else 0
  {
    ScanAt(cs[0], cs, DecisionStep(decide), i);
    assert Cross(cs[0], cs[0]) == 0;
  }

  /** Within one block, splitting the pairs and carrying the last correlation of the
      first part reproduces the block's bits. Across calls this does not hold: the next
      call restarts from its own first correlation (see BitsAt), so the carried `_last`
      is never used. */
  lemma BitsSplit(decide: (int, int) -> bool, cs: seq<Complex>, ds: seq<Complex>)
    requires |cs| >= 1
    ensures Bits(decide, cs + ds) == Bits(decide, cs) + Scan(cs[|cs| - 1], ds, DecisionStep(decide))
  {
    assert (cs + ds)[0] == cs[0];
    ScanSplit(cs[0], cs, ds, DecisionStep(decide));
  }

  class BPSKDemod {
    /** Type ids of `std::complex<Scalar>` (accepted on both inputs) and `Config::Type_u8`. */
    const inType: TypeId
    const bitType: TypeId
    /** |atan2(a, b)| > pi/2, left abstract (demod.hh:379 and 384). */
    const decide: (int, int) -> bool

    /** The samples pending in the ring buffers of the signal and reference inputs. */
    var signal: seq<Complex>
    var reference: seq<Complex>
    /** `_last`: the correlation of the last processed pair. */
    var last: Complex
    /** `_buffer` (bits) and whether this node is its only holder (`isUnused()`). */
    var buffer: array<int>
    var bufferUnused: bool
    /** The configuration announced downstream (`setConfig`). */
    var announced: Option<Config>
    /** Every block of bits sent downstream, in order. */
    ghost var sent: seq<seq<int>>

    constructor (inType: TypeId, bitType: TypeId, decide: (int, int) -> bool)
      ensures this.inType == inType && this.bitType == bitType && this.decide == decide
      ensures signal == [] && reference == [] && last == Complex(0, 0)
      ensures buffer.Length == 0 && bufferUnused && announced == None && sent == []
    {
      this.inType, this.bitType, this.decide := inType, bitType, decide;
      signal, reference := [], [];
      last := Complex(0, 0);
      buffer := new int[0];
      bufferUnused := true;
      announced := None;
      sent := [];
    }

    /** `config`: on an accepted configuration, a fresh bit buffer of the configured size
        and (u8, same rate, that size, 1) announced; `_last` is kept. Otherwise nothing
        changes. */
    method Configure(cfg: Config) returns (outcome: ConfigOutcome)
      modifies this
      ensures outcome == Guard(cfg, inType, bitType, 1)
      ensures !outcome.Accept? ==> unchanged(this)
      ensures outcome.Accept? ==>
        && fresh(buffer) && buffer.Length == cfg.bufferSize && buffer.Length >= 1 && bufferUnused
        && announced == Some(Config(bitType, cfg.sampleRate, buffer.Length, 1))
        && last == old(last) && signal == old(signal) && reference == old(reference)
        && sent == old(sent)
    {
      outcome := Guard(cfg, inType, bitType, 1);
      if !outcome.Accept? {
        return;
      }
      buffer := new int[cfg.bufferSize];
      bufferUnused := true;
      announced := Some(Config(bitType, cfg.sampleRate, buffer.Length, 1));
    }

    /** `process` with n pairs available on both inputs. n == 0 changes nothing. While
        the bit buffer is held downstream, n pairs are dropped from both inputs and
        nothing is sent. Otherwise k = min(n, buffer size) pairs are demodulated into
        the buffer and sent, exactly k pairs are dropped from both inputs, and `_last`
        becomes the correlation of pair k - 1. */
    method Process(n: nat)
      requires n <= |signal| && n <= |reference|
      requires n > 0 && bufferUnused ==> buffer.Length >= 1
      modifies this`signal, this`reference, this`last, this`sent, buffer
      ensures n == 0 ==>
        signal == old(signal) && reference == old(reference) && last == old(last)
        && sent == old(sent) && buffer[..] == old(buffer[..])
      ensures n > 0 && !bufferUnused ==>
        signal == old(signal)[n..] && reference == old(reference)[n..]
        && last == old(last) && sent == old(sent) && buffer[..] == old(buffer[..])
      ensures n > 0 && bufferUnused ==>
        var k := if n < buffer.Length then n else buffer.Length;
        var bits := Bits(decide, Correlations(old(signal), old(reference), k));
        && signal == old(signal)[k..] && reference == old(reference)[k..]
        && buffer[..k] == bits && buffer[k..] == old(buffer[k..])
        && last == Correlation(old(signal)[k - 1], old(reference)[k - 1])
        && sent == old(sent) + [bits]
    {
      if n == 0 {
        return;
      }
      if !bufferUnused {
        signal, reference := signal[n..], reference[n..];
        return;
      }
      var k := if n < buffer.Length then n else buffer.Length;
      ProcessPairs(k);
    }

    /** The demodulation of k pairs, k clamped to the buffer size (demod.hh:375-391): the
        bits go into the buffer and are sent, both inputs drop k pairs, and `_last`
        becomes the correlation of pair k - 1. */
    method ProcessPairs(k: nat)
      requires 1 <= k <= buffer.Length && k <= |signal| && k <= |reference|
      modifies this`signal, this`reference, this`last, this`sent, buffer
      ensures var bits := Bits(decide, Correlations(old(signal), old(reference), k));
        && signal == old(signal)[k..] && reference == old(reference)[k..]
        && buffer[..k] == bits && buffer[k..] == old(buffer[k..])
        && last == Correlation(old(signal)[k - 1], old(reference)[k - 1])
        && sent == old(sent) + [bits]
    {
      var sig, ref := signal, reference;
      ghost var cs := Correlations(sig, ref, k);
      ghost var bits := Bits(decide, cs);
      // the first pair against the carried correlation
      var tmp := Correlation(sig[0], ref[0]);
      var a := Dot(last, tmp);
      var b := Cross(last, tmp);
      buffer[0] := if decide(a, b) then 1 else 0;
      last := tmp;
      // all pairs, from the first one again
      var i := 0;
      while i < k
        modifies this`last, buffer
        invariant 0 <= i <= k
        invariant last == (if i == 0 then cs[0] else cs[i - 1])
        invariant forall j :: 0 <= j < i ==> buffer[j] == bits[j]
        invariant forall j :: k <= j < buffer.Length ==> buffer[j] == old(buffer[j])
      {
        tmp := Correlation(sig[i], ref[i]);
        a := Dot(last, tmp);
        b := Cross(last, tmp);
        BitsAt(decide, cs, i);
        buffer[i] := if decide(a, b) then 1 else 0;
        last := tmp;
        i := i + 1;
      }
      signal, reference := signal[k..], reference[k..];
      sent := sent + [bits];
      assert buffer[..k] == bits;
    }
  }
}
