/** Value types shared by the exporter model: the decoded statistics blob
    (device tree, pool record), metric descriptors, the emitted metric
    observations, and the result type that carries fatal errors. */
module Types {

  /** 2^64: Go's `uint64` values lie below it and wrap around at it. */
  const TwoTo64: nat := 0x1_0000_0000_0000_0000

  /** A Go `uint64`. */
  type U64 = x: nat | x < 0x1_0000_0000_0000_0000

  datatype Option<+T> = None | Some(value: T)

  /** What makes a collection pass fatal: a Go panic or `log.Fatalf`. */
  datatype Fault =
    | StatIndexOutOfRange        // raw vdev_stats array cut inside a variant entry
    | BadExtStatType(key: string) // extended stat that is neither uint64 nor []uint64
    | MissingChildren            // "children" asserted but absent (draid naming, pool root)
    | MissingLoadTime            // initial_load_time[0] on an empty array
    | PoolListFailed             // ioctl.PoolConfigs returned an error
    | PoolStatsFailed(pool: string) // ioctl.PoolStats returned an error

  datatype Result<+T> = Ok(value: T) | Err(fault: Fault) {
    predicate IsFailure() { Err? }

    function PropagateFailure<U>(): Result<U>
      requires Err?
    {
      Err(fault)
    }

    function Extract(): T
      requires Ok?
    {
      value
    }
  }

  /** Puts `prefix` in front of a successful sequence; keeps a failure. */
  function Prepend<T>(prefix: seq<T>, r: Result<seq<T>>): (p: Result<seq<T>>)
    ensures p.Ok? <==> r.Ok?
    ensures p.Ok? ==> p.value == prefix + r.value
  {
    match r
    case Ok(s) => Ok(prefix + s)
    case Err(f) => Err(f)
  }

  /** A Prometheus descriptor: fully qualified name, help text, label names. */
  datatype Desc = Desc(name: string, help: string, labels: seq<string>)

  /** A value of the `vdev_stats_ex` record: a scalar counter, a bucket
      array, or any other shape the kernel might send. */
  datatype ExVal = Scalar(n: U64) | Buckets(counts: seq<U64>) | Other

  /** One element of the device tree (a vdev), with the attributes the
      exporter reads. `statsEx` lists the extended statistics in the order in
      which Go's `range` happens to visit the map. */
  datatype Node = Node(
    typ: string,
    id: Option<U64>,
    path: Option<string>,
    children: Kids,
    nparity: Option<U64>,
    ndata: Option<U64>,
    nspares: Option<U64>,
    stats: seq<U64>,
    statsEx: seq<(string, ExVal)>,
    scanStats: Option<seq<U64>>)

  /** The "children" attribute of a vdev: absent, or the child vdevs. */
  datatype Kids = Absent | Present(nodes: seq<Node>)

  /** The pool record returned by the stats call, reduced to what is read. */
  datatype PoolRecord = PoolRecord(
    guid: U64,
    errorCount: U64,
    vdevChildren: U64,
    txg: U64,
    loadTimes: seq<U64>,
    tree: Node)

  /** Outcome of asking the kernel for one pool's statistics. */
  datatype PoolFetch = Fetched(record: PoolRecord) | FetchFailed

  /** Outcome of listing the pools; the pools come in map-iteration order. */
  datatype PoolListing = Listed(pools: seq<(string, PoolFetch)>) | ListFailed

  datatype Kind = Gauge | Untyped

  /** Cumulative count at the bucket whose upper bound is 2^exp (divided by
      1e9 when the histogram is scaled to seconds). */
  datatype Bucket = Bucket(exp: nat, cumulative: nat)

  /** A reconstructed histogram: the approximate sum is
      sumNumerator / (if scaled then 1e9 else 1). */
  datatype HistoData = HistoData(count: nat, sumNumerator: nat, scaled: bool, buckets: seq<Bucket>)

  /** One observation sent to the metrics channel. */
  datatype Metric =
    | Const(desc: Desc, kind: Kind, value: nat, labels: seq<string>)
    | Histo(desc: Desc, data: HistoData, labels: seq<string>)
}
