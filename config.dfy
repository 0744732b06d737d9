/** The render settings the core reads from the user interface (`TraceUI`), taken as one
    immutable snapshot. */
module Settings {

  /** Recursion depth, anti-aliasing sample size, jitter, adaptive sampling, the acceleration
      switch, the surface-area heuristic switch, bump scale and stylised shading. */
  datatype Config = Config(depth: int, sampleSize: int, jitter: bool, adaptive: bool,
                           accelerate: bool, useSurface: bool, bumpScale: real, nonRealism: bool)
  {
    /** `TraceUI::acceleration` reports the negation of the stored switch. */
    predicate Acceleration()
    {
      !accelerate
    }
  }
}
