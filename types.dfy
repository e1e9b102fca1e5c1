/**
 * The records the sampler and the discovery step share, declared from how the
 * sampler uses them.  Unsigned 64-bit counters are naturals below 2^64; `f32`
 * quantities are reals.
 */
module Types {
  import opened Wrappers
  import opened Text

  /** A core's cumulative jiffy counters at the last sample. */
  datatype CpuSnap = CpuSnap(total: U64, idle: U64)

  /** What discovery learns once about a core. */
  datatype StaticCoreInfo = StaticCoreInfo(name: string, modelName: string, minFreq: real, maxFreq: real)

  /** One core of a published snapshot. */
  datatype CoreData = CoreData(
    name: string,
    usage: real,
    modelName: string,
    curFreq: real,
    minFreq: real,
    maxFreq: real)

  /**
   * `str::parse::<f32>`, a foreign routine: the value of a decimal float
   * text, or nothing when the text is not one.
   */
  type F32Parser = string -> Option<real>
}
