/** Identifier types shared by the systematic-parameter interface, and the
    optional-value wrapper used to report which rule a header breaks. */
module Types {

  /** A systematic parameter identifier (`paramId_t`). */
  type ParamId = int

  /** The reserved identifier that marks "no parameter" (`kParamUnhandled`).
      Its concrete value is an assumption of this model (the largest 32-bit
      signed integer); no property proved about headers depends on it. */
  const kParamUnhandled: ParamId := 0x7fff_ffff

  /** A value that may be absent. */
  datatype Option<+T> = None | Some(value: T)
}
