/** A decoded time series, as the parser hands it to the deduplicator and the estimators. */
module Series {
  import opened Base

  datatype Label = Label(name: string, value: string, fingerprint: Uint64)

  datatype TimeSerie = TimeSerie(labels: seq<Label>, fingerprint: Uint64)
}
