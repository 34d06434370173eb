// What the detectors produce and the filters pass on.
module Anomalies {
  import opened Baseline

  datatype Detector = Adaptive | Static | Pattern
  datatype Severity = Warning | Critical | Declared(name: string)
  datatype Signal = Metrics | Logs | Events

  // zSq is the square of an adaptive anomaly's z-score; the other detectors' scores are
  // not read by anything modelled here, and zero stands for them.
  datatype Anomaly = Anomaly(
    metric: string,
    labels: Labels,
    value: real,
    mean: real,
    variance: real,
    zSq: real,
    severity: Severity,
    signal: Signal,
    detector: Detector)

  function IsAdaptive(): Anomaly -> bool { (a: Anomaly) => a.detector.Adaptive? }
}
