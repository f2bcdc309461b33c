/** The stream configuration a node receives from upstream and announces downstream,
    and the guard every demodulator's `config` starts with. */
module Configs {

  datatype Option<T> = None | Some(value: T)

  /** An element type identifier; `Undefined` is a configuration without a type. */
  datatype TypeId = Undefined | TypeCode(code: nat)

  /** {type, sample rate, buffer size, buffer count}; a buffer size of 0 stands for a
      configuration without a buffer size. */
  datatype Config = Config(elementType: TypeId, sampleRate: real, bufferSize: nat, numBuffers: nat)
  {
    predicate HasType() { elementType != Undefined }
    predicate HasBufferSize() { bufferSize != 0 }
  }

  /** What `config` does with a received configuration: ignore it, throw a ConfigError
      naming the received and the expected type, or accept it and announce `announced`. */
  datatype ConfigOutcome = Ignore | Mismatch(got: TypeId, expected: TypeId) | Accept(announced: Config)

  /** The check at the head of every demodulator's `config`: an incomplete configuration
      is ignored; a complete one of another type than `expected` is refused; otherwise the
      node announces `outType` at the same sample rate and buffer size with `outCount`
      buffers. */
  function Guard(cfg: Config, expected: TypeId, outType: TypeId, outCount: nat): (r: ConfigOutcome)
    ensures r.Ignore? <==> !cfg.HasType() || !cfg.HasBufferSize()
    ensures r.Mismatch? <==> cfg.HasType() && cfg.HasBufferSize() && cfg.elementType != expected
    ensures r.Mismatch? ==> r.got == cfg.elementType && r.expected == expected
    ensures r.Accept? ==>
      cfg.elementType == expected && r.announced == Config(outType, cfg.sampleRate, cfg.bufferSize, outCount)
  {
    if !cfg.HasType() || !cfg.HasBufferSize() then Ignore
    else if cfg.elementType != expected then Mismatch(cfg.elementType, expected)
    else Accept(Config(outType, cfg.sampleRate, cfg.bufferSize, outCount))
  }
}
