/** The values that the agent and the server exchange. */
module Metrics {
  import opened Common

  const MIN_INT64: int := -0x8000_0000_0000_0000
  const MAX_INT64: int := 0x7FFF_FFFF_FFFF_FFFF

  type int64 = x: int | MIN_INT64 <= x <= MAX_INT64

  predicate FitsInt64(x: int) { MIN_INT64 <= x <= MAX_INT64 }

  /** A float64; rounding and the sign of zero are not modelled. */
  datatype Float = Finite(value: real) | NaN | Infinite(negative: bool)
  {
    predicate IsZero() { Finite? && value == 0.0 }
  }

  const ZERO: Float := Finite(0.0)

  const GAUGE: string := "gauge"
  const COUNTER: string := "counter"

  /** One entry of a batch; None stands for a nil pointer. */
  datatype Metric = Metric(id: string, mtype: string, delta: Option<int64>, value: Option<Float>)

  const SCALARS: nat := 30
  const ALLOC: nat := 0
  const SYS: nat := 25
  const TOTAL_ALLOC: nat := 26

  /** The scalar fields in declaration order, under the names that ToMap gives them. */
  function FieldName(f: nat): string
    requires f < SCALARS
  {
    ["Alloc", "BuckHashSys", "Frees", "GCCPUFraction", "GCSys", "HeapAlloc", "HeapIdle", "HeapInuse",
     "HeapObjects", "HeapReleased", "HeapSys", "LastGC", "Lookups", "MCacheInuse", "MCacheSys",
     "MSpanInuse", "MSpanSys", "Mallocs", "NextGC", "NumForcedGC", "NumGC", "OtherSys", "PauseTotalNs",
     "StackInuse", "StackSys", "Sys", "TotalAlloc", "RandomValue", "TotalMemory", "FreeMemory"][f]
  }

  function FieldNames(): seq<string> { seq(SCALARS, f requires 0 <= f < SCALARS => FieldName(f)) }

  /** scalars[f] is the field named FieldName(f). */
  datatype RawMetrics = MemoryMetrics(scalars: seq<Float>, cpu: seq<Float>)

  type MemoryMetrics = m: RawMetrics | |m.scalars| == SCALARS
    witness MemoryMetrics(seq(SCALARS, i => ZERO), [])

  /** A record is called zero by three of its fields only. */
  predicate IsZero(m: MemoryMetrics) {
    m.scalars[ALLOC].IsZero() && m.scalars[SYS].IsZero() && m.scalars[TOTAL_ALLOC].IsZero()
  }
}
