# libsdr demodulators in Dafny

This project models the four demodulator nodes of libsdr's `src/demod.hh`:

- `AMDemod`: amplitude, the magnitude of each I/Q sample.
- `USBDemod`: upper sideband, the truncated mean of the I and Q components in the wide
  scalar `SScalar`.
- `FMDemod`: frequency, the phase difference between consecutive samples. The angle comes
  from the fixed-point approximation `_fast_atan2`, and the last sample of each block is
  carried into the next block.
- `BPSKDemod`: binary phase-shift keying. It takes a signal input and a carrier-reference
  input in lock step and decides one bit per pair of samples.

Each node is a Dafny `class` whose fields are the node's state:

- the private output buffer, as an `array`;
- whether downstream still holds that buffer (`bufferUnused`, which stands for
  `_buffer.isUnused()`);
- the configuration announced downstream;
- the carried sample or correlation (FM and BPSK);
- a ghost log `sent` of every block sent downstream.

`config` and `process` are methods. Their postconditions state the complete new state,
and they are proved against specification functions.

The input block is an array of storage slots. A slot holds an I/Q sample (`Cell.Iq`) or a
real output (`Cell.Real`). In-place demodulation writes output i into slot i of the input
block itself, so the model captures the aliasing between input and output. Each sample is
read before its slot is overwritten, and the proofs show that this ordering makes the
in-place outputs equal to the outputs written into the private buffer.

The FM and BPSK demodulators share one recurrence, `Recurrence.Scan`: each output compares
an element with its predecessor, and a value carried in from before the block stands in
front of the first element. Lemmas about the recurrence give each output's formula and
show continuity when a block is split.

Modules:

| file | module | content |
|---|---|---|
| `samples.dfy` | `Samples`, `Recurrence` | complex samples, storage slots, the products `Dot`/`Cross`, the carried-value recurrence |
| `configs.dfy` | `Configs` | stream configurations and the guard at the head of every `config` |
| `fixed_point.dfy` | `FixedPoint` | `>>`, truncating `/`, `_fast_atan2` and their properties |
| `am_demod.dfy` | `AMDemodulator` | `AMDemod` |
| `usb_demod.dfy` | `USBDemodulator` | `USBDemod` |
| `fm_demod.dfy` | `FMDemodulator` | `FMDemod` |
| `bpsk_demod.dfy` | `BPSKDemodulator` | `BPSKDemod` |

Behaviour of the code that the model follows:

- `BPSKDemod::config` does not reset `_last`.
- In `BPSKDemod::process`, the correlation carried in `_last` never reaches the output. Its
  loop starts again at pair 0 and overwrites bit 0, which it decides against pair 0's own
  correlation.
- `FMDemod` and `BPSKDemod` pass the products to `atan2` as (dot, cross). So for FM, zero
  phase difference gives a quarter turn (`2 * pi4`), not 0.
- A release build of `AMDemod` (without `SDR_DEBUG`) never drops a block. It announces the
  source's buffer count, not 1.
- `USBDemod` sends empty blocks.

## Model

| member | source | states |
|---|---|---|
| Configs.Guard | src/demod.hh:198-207 | An incomplete configuration (no type or no buffer size) is ignored, and only such a configuration is. A complete configuration of another type is refused with the received and the expected type, and only such a configuration is. Otherwise the node accepts it and announces the output type with the same sample rate and buffer size. |
| FixedPoint.ShiftRightBounds | src/demod.hh:254 | `v >> k` is floor division by 2^k: the largest r with r*2^k <= v. It is negative exactly when v is. |
| FixedPoint.TruncDivBounds | src/demod.hh:258-259 | C++ `/` truncates toward zero: d*q lies between 0 and x, and less than d away from x. |
| FixedPoint.ScaledRatioBounds | src/demod.hh:258-259 | For `pi4*num/den` with abs(num) <= den, the quotient lies in [-pi4, pi4]. It reaches pi4 only at num == den and -pi4 only at num == -den, and it is 0 for num == 0. |
| FixedPoint.ShiftRightMonotone | src/demod.hh:254 | `>>` preserves order. |
| FixedPoint.TruncDivMonotone | src/demod.hh:258-259 | Truncating division preserves the order of the exact quotients. |
| FixedPoint.FastAtan2 | src/demod.hh:251-261 | The model of `_fast_atan2`: pi4 is 1 << (shift-4). Both products are shifted right by 9-_shift (floor). Two zero values give 0. Otherwise, with aabs = abs(a), b >= 0 gives pi4 - pi4*(b-aabs)/(b+aabs) and b < 0 gives 3*pi4 - pi4*(b+aabs)/(aabs-b), both with truncating division, negated when a < 0. Its properties are FastAtan2Bounds and FastAtan2Monotone. |
| FixedPoint.FastAtan2Bounds | src/demod.hh:251-261 | `_fast_atan2` stays within half a turn (plus or minus 4*pi4). It is negative exactly when a is. It stays within a quarter turn when the shifted b is not negative and lies beyond a quarter turn when b is negative. It is exact on the axes: 0 for two zero arguments, 0 and 4*pi4 on the b axis, and plus or minus 2*pi4 on the a axis. |
| FixedPoint.FastAtan2Monotone | src/demod.hh:251-261 | For a fixed a >= 0, the angle does not grow as b grows. For a fixed a < 0, it does not shrink, as with the true atan2(a, b). |
| Recurrence.ScanAt | src/demod.hh:267-287 | Output i of the recurrence compares element i with element i-1, and output 0 compares element 0 with the carried value. |
| Recurrence.ScanSplit | src/demod.hh:267-290 | Processing A then B, with A's last element carried across, gives the same outputs and the same carried-out value as processing A ++ B at once. |
| FMDemodulator.PhaseStep | src/demod.hh:269-277 | One FM output: `_fast_atan2` of a = Re(x conj(prev)) and b = Im(x conj(prev)), computed in the wide scalar, for sample x after sample prev. |
| FMDemodulator.Demodulate | src/demod.hh:264-287 | The FM outputs of a block: PhaseStep over each sample and its predecessor, with the carried `_last_value` before the first sample; one output per sample. |
| FMDemodulator.DemodulateAt | src/demod.hh:264-287 | There is one output per input sample. Output i is `_fast_atan2(dot, cross)` of sample i against sample i-1, or against the carried sample for i == 0. Every output lies within plus or minus 4*pi4. |
| FMDemodulator.DemodulateSplit | src/demod.hh:264-290 | Continuity across blocks: two consecutive blocks demodulate to the outputs of their concatenation, and carry out the same last sample. |
| FMDemodulator.SteadyCarrier | src/demod.hh:251-261 | A constant input (no frequency offset) demodulates, after its first output, to a quarter turn 2*pi4. It demodulates to 0 when its power vanishes under the pre-shift. |
| FMDemodulator.RouteOf | src/demod.hh:234-246 | The routing of `process`: an empty block is skipped; in place when the sender allows overwriting and `_can_overwrite` holds; else into `_buffer` when it is unused; else dropped. |
| FMDemodulator.FMDemod.constructor | src/demod.hh:186-190 | `_shift = 8*(sizeof(oScalar)-sizeof(iScalar))`; in-place processing is off, the carried sample is 0, and nothing has been announced or sent. |
| FMDemodulator.FMDemod.Configure | src/demod.hh:198-229 | The outcome is the guard's. A refused or ignored configuration changes nothing. An accepted one allocates a fresh buffer of the configured size, resets the carried sample to 0, and enables in-place processing exactly when sizeof(complex<iScalar>) >= sizeof(oScalar). It announces (oScalar, rate, buffer size, 1). |
| FMDemodulator.FMDemod.Process | src/demod.hh:232-247 | An empty block is skipped. A block is demodulated in place when the sender allows it and the output fits. Otherwise it goes to the private buffer when that is unused, and is dropped if not. Both paths send the same outputs, `Demodulate` of the block from the carried sample, and carry its last sample. A skipped or dropped block changes nothing. |
| FMDemodulator.FMDemod.ProcessBlock | src/demod.hh:264-293 | Writes `Demodulate` of the block into `out`, even when `out` is the input's own storage. Leaves the rest of `out` untouched, carries the block's last sample, and sends the outputs. |
| USBDemodulator.Sideband | src/demod.hh:164 | One USB output: (SScalar(re) + SScalar(im)) / 2 with C++ truncating division. |
| USBDemodulator.SidebandBetween | src/demod.hh:164 | Each output lies between the I and Q components and equals them when they agree. It is odd-symmetric because division truncates toward zero. |
| USBDemodulator.RouteOf | src/demod.hh:144-157 | The routing of `process`: in place when the sender allows overwriting; else into `_buffer` when it is unused; else dropped. |
| USBDemodulator.USBDemod.constructor | src/demod.hh:106-109 | There is no buffer, and nothing has been announced or sent. |
| USBDemodulator.USBDemod.Configure | src/demod.hh:116-140 | The outcome is the guard's. An accepted configuration allocates a fresh buffer of the configured size and announces (Scalar, rate, buffer size, 1). Otherwise nothing changes. |
| USBDemodulator.USBDemod.Process | src/demod.hh:143-158 | A block is processed in place when the sender allows it. Otherwise it goes to the private buffer when that is unused, and is dropped without any change if not. Both paths send the same outputs. |
| USBDemodulator.USBDemod.ProcessBlock | src/demod.hh:162-167 | Writes the sideband value of every sample into `out`, even when `out` aliases the input, and sends them. An empty block is sent empty. |
| AMDemodulator.AMDemod.constructor | src/demod.hh:21-24 | There is no buffer, and nothing has been announced or sent. |
| AMDemodulator.AMDemod.Configure | src/demod.hh:32-56 | The outcome is the guard's. An accepted configuration allocates a fresh buffer and announces (Scalar, rate, buffer size, the source's buffer count). Otherwise nothing changes. |
| AMDemodulator.AMDemod.Process | src/demod.hh:59-85 | The magnitudes of the block go over the input's storage when overwriting is allowed. Otherwise they go into the private buffer, whether or not it is still in use. They are always sent, and nothing is dropped. |
| BPSKDemodulator.Correlation | src/demod.hh:376 | A pair's correlation in the wide complex scalar: signal * conj(reference), whose parts are the dot and cross products of reference and signal. |
| BPSKDemodulator.Bits | src/demod.hh:375-385 | The bits of a block as written: the recurrence DecisionStep over the correlations with correlation 0 standing before itself, since the loop restarts at pair 0 and overwrites bit 0; one bit per pair. |
| BPSKDemodulator.BitsAt | src/demod.hh:375-385 | There is one bit per pair, each 0 or 1. Bit i > 0 compares correlation i with correlation i-1. Bit 0 compares correlation 0 with itself (its squared magnitude against a zero cross product), so the carried `_last` does not affect it. |
| BPSKDemodulator.BitsSplit | src/demod.hh:380-385 | Within a block, the bits of a prefix followed by the recurrence carried from its last correlation are the bits of the whole block. |
| BPSKDemodulator.BPSKDemod.constructor | src/demod.hh:322-326 | There is an empty bit buffer, the carried correlation is 0, and nothing has been announced, sent or queued. |
| BPSKDemodulator.BPSKDemod.Configure | src/demod.hh:339-353 | The outcome is the guard's. An accepted configuration allocates a bit buffer of the configured size and announces (u8, rate, buffer size, 1). The carried correlation and the queued inputs are kept. Otherwise nothing changes. |
| BPSKDemodulator.BPSKDemod.Process | src/demod.hh:356-392 | N == 0 changes nothing. While the bit buffer is in use downstream, N pairs are dropped from both inputs and nothing else changes. Otherwise k = min(N, buffer size) pairs are decided into the buffer and sent, both inputs drop exactly k pairs, and the carried correlation becomes pair k-1's. |
| BPSKDemodulator.BPSKDemod.ProcessPairs | src/demod.hh:374-391 | Demodulates k pairs as written: the bits in buffer[..k] are `Bits` of the k correlations, both inputs drop k pairs in lock step, the carried correlation is pair k-1's, and the bits are sent. |

## Left out

- Floating point: AM's `std::sqrt(re*re + im*im)` is the abstract function `magnitude`. BPSK's `abs(atan2(a, b)) > M_PI/2` is the abstract predicate `decide`.
- AMDemodulator.AMDemod.Process: the model states only which slots receive `magnitude` of which sample, because the square root is abstract.
- FixedPoint.FastAtan2Bounds: the approximation error of `_fast_atan2` against the true arctangent is not stated, since that needs real-valued trigonometry.
- Integer widths: samples and the wide scalar `SScalar` are unbounded integers. Overflow of `SScalar` products and the narrowing to `oScalar` and `Scalar` on assignment are not modelled.
- FMDemodulator.FMDemod.constructor: `8*(sizeof(oScalar)-sizeof(iScalar)) <= 9` and `Traits<oScalar>::shift >= 4` are preconditions, because a negative shift count is undefined behaviour in C++.
- Buffer storage is modelled at slot granularity: output i overwrites input slot i. The byte-level reinterpretation of the input storage as `oScalar` is not modelled.
- Buffer reference counting (`unref`, `isEmpty`, `head`, the destructors) is not modelled. `config` sets `bufferUnused` for the freshly allocated buffer; otherwise only the downstream consumers change it, and `process` leaves it as it is. `send` is the ghost log `sent`.
- The overwrite flag passed to `send` is not recorded (AM passes true at demod.hh:84; the other nodes pass the default).
- Logging (`LogMessage`, `Logger`) and the exception text of `ConfigError` are left out. A refused configuration is the outcome `Mismatch` with the received and the expected type.
- `Config` and the type ids come from `config.hh` and `traits.hh`, which are not part of this model. Type ids are abstract codes, `Undefined` means "no type", and a buffer size of 0 means "no buffer size".
- The build with `SDR_DEBUG` defined, where AM drops a block while its buffer is in use, is not modelled. The model is the release build.
- The callers' obligation that a block fits the negotiated buffer size is a precondition of `Process` (the source indexes the buffer without checking).
- BPSKDemodulator.BPSKDemod.Process: when called with the bit buffer unused but still of size 0 (before any accepted configuration), the source writes `_buffer[0]` out of bounds. The model requires a non-empty buffer in that case.
- BPSK's ring buffers (`RingBuffer`, `Combine`) are the sequences `signal` and `reference` of pending pairs. The `buffers` argument and the node's own `_buffers` are taken to be the same queues. The accessors `signal()` and `reference()` are not modelled.
