# zfs_exporter statistics engine, in Dafny

zfs_exporter is a Prometheus exporter for ZFS pools. Every collection pass
fetches the decoded statistics of each pool from the kernel:

- the pool record, which holds the GUID, the load time, the error count, the
  top-level vdev count, the configuration txg and the vdev tree;
- inside the tree, one node per vdev (the pool root, top-level vdevs, nested
  vdevs and leaf disks or files).

The pass turns these into labelled metrics. This project models that engine
in `main.go`:

- **start-up tables** (`schema.dfy`):
  - the positional `vdevStats` table (34 entries, three of them variant
    entries that consume several raw values);
  - the `scanStats` table (15 entries);
  - the extended-statistics table (39 entries);
  - the `init` loops that attach descriptors and build the lookup map. They
    are modelled as a `Registry` class whose arrays are updated in place.
- **`vdevName`** (`naming.dfy`): the `vdev` label. A disk or file below a
  named parent inherits the parent's name. raidz and draid names fuse their
  parity (and draid's layout) into the type. Everything else is
  `<type>-<id>`, prefixed by `parent/`.
- **`reportVdevStats`** (`reporting.dfy`, `positional.dfy`, `histogram.dfy`):
  - the child-count and parity gauges;
  - the path label (`filepath.Base` unless full paths are asked for or the
    vdev is a file);
  - the positional walk over the raw `vdev_stats` array;
  - the dispatch over `vdev_stats_ex`: an unknown key is skipped, a scalar
    gives a gauge, a bucket array gives a histogram, and anything else is
    fatal;
  - the histogram reconstruction (prefix-sum cumulative counts, a `uint64`
    count that wraps around, and the `zpool iostat` midpoint approximation of
    the sum, with the midpoint computed in Go's 64-bit `int`).
- **`descendVdev` and `Collect`** (`walker.dfy`): the recursive pre-order
  descent, the depth switch (0 reports the root only, 1 adds the top-level
  vdevs, more descends into the whole tree), the four pool gauges and the scan
  statistics.

Modelling conventions:

- A Go panic or `log.Fatalf` is a `Result.Err` carrying a `Fault`.
- The metrics a pass emits are a `seq<Metric>` in emission order.
- Go's map iteration order (over the pools and over `vdev_stats_ex`) is an
  input: the map is given as a sequence of entries in visiting order.

Each imperative loop of the source is a method proved equal to a
specification function. The properties are proved about those functions:

- `DescendVdev` and `ReportPool` are shown to report exactly the vdevs of a
  reference traversal, which is itself shown to list the tree in pre-order.
- `WalkVdevStats` is shown to agree with a flat per-slot layout of the table.
- `ReconstructHistogram` is shown to give the prefix sums of the buckets.

Behaviour worth noting:

- The midpoint of bucket i is computed in Go's `int` as
  `(1 << i) + ((1 << i) / 2)` (`main.go:359`). For bucket 0 that is
  `1 + 0 == 1`, so a single count in bucket 0 gives a sum numerator of 1.
- The published histogram and its sum disagree. Each bucket is published
  with the upper bound 2^i (`main.go:358`). The sum, however, follows the
  `zpool iostat` convention (`main.go:360-363`), which takes bucket i to span
  2^i to 2^(i+1). For buckets 1 to 62 it counts each observation at
  1.5 × 2^i; bucket 0 counts 1, bucket 63's midpoint wraps to 2^62 and every
  later bucket counts 0 (`main.go:359`). For bucket arrays of up to 63
  entries (among them the 37-entry arrays `main.go:353` expects), as soon as
  any bucket other than bucket 0 holds an observation, the reported sum
  exceeds the largest sum the published bounds allow. For example, one
  observation in bucket 1 is published as at most 2 but summed as 3. The
  model keeps the code's arithmetic and proves the mismatch for those
  lengths (`Histogram.WeightedExceedsBounds`).
- The positional walk checks the length of the raw `vdev_stats` array only
  at the start of each table entry (`main.go:323`). A raw array that ends
  inside a variant entry (ops, bytes, errors) therefore indexes past its
  end and panics, so the model fails with `StatIndexOutOfRange`. Arrays that
  end on an entry boundary are cut short harmlessly.
- The `-depth` flag's help (`main.go:22`) names levels 0, 1 and 2. The code
  descends through the whole tree for every depth above 1
  (`main.go:418-419`), and the model does the same.
- The parity gauge's descriptor names its second label `pool`, not `zpool`
  like the other vdev metrics (`main.go:118`). The model keeps it as written.
  The same goes for the `ashfit_physical` spelling in the vdev table.

## Model

| member | source | states |
|---|---|---|
| Schema.InitialTables | main.go:184-202 | the tables start-up leaves are ready for collection (every named vdev entry and every scan entry has a descriptor) and keep the declared lengths |
| Schema.DescribeVdevStats | main.go:185-194 | in place, each named vdev entry gets descriptor `zfs_vdev_<n>` with help `ZFS VDev <d>`, labels vdev, zpool, path and the dimension when it has variants; placeholders stay as they are |
| Schema.DescribeScanStats | main.go:195-197 | in place, each scan entry gets descriptor `zfs_pool_<n>` with help `ZFS Pool Scan <d>`, labelled by zpool |
| Schema.BuildExtStatsMap | main.go:198-201 | the map is the table inserted in order, later entries overwriting earlier ones |
| Schema.ExtMapOfLookup | main.go:198-201 | the map's keys are exactly the table's names, each bound to the last table entry of that name |
| Schema.Registry.Init | main.go:184-202 | start-up leaves the registry's arrays and map equal to the initial tables |
| Naming.LeafInherits | main.go:251-253 | a disk or file below a named parent is named as the parent |
| Naming.NameFailsIff | main.go:266-273 | naming fails exactly for a draid vdev without a children attribute |
| Naming.NameShape | main.go:249-281 | `VdevName`, the model of `vdevName`, names a vdev that does not inherit its parent's name by type: raidz as `raidz<parity>-<id>`, draid (which must have children) as `draid<parity>:<data>d:<children>c:<spares>s-<id>`, any other type as `<type>-<id>`; each behind `parent/` when the parent is named, and ending in `-` and the formatted id |
| Naming.RaidzName | main.go:261-264 | a raidz vdev is named `<parent>/raidz<parity>-<id>` (no prefix at top level) |
| Naming.DraidName | main.go:266-273 | a draid vdev with children is named `<parent>/draid<parity>:<data>d:<children>c:<spares>s-<id>`, the children count taken from its children |
| Naming.PlainName | main.go:275-280 | any other type that does not inherit its parent's name is named `<parent>/<type>-<id>` |
| Naming.RaidzExample | main.go:261-264 | a raidz2 vdev with id 3 at top level is named `raidz2-3` |
| Naming.DraidExample | main.go:266-273 | a draid vdev with parity 1, 8 data disks, 10 children, 2 spares and id 0 is named `draid1:8d:10c:2s-0` |
| Naming.DistinctIdsDistinctNames | main.go:254-281 | siblings with different ids that do not inherit their parent's name get different names |
| Text.ParseNatToString | main.go:404 | the decimal rendering used for the guid label reads back as the same number |
| Text.NatToStringInjective | main.go:404 | distinct guids give distinct guid labels |
| Text.BaseShape | main.go:314-315 | the base name of a path is never empty and holds a `/` only when it is `/` |
| Positional.WalkVdevStats | main.go:318-339 | the loop emits what the positional walk specifies, failing at the first variant entry the raw array cannot cover |
| Positional.WalkFollowsLayout | main.go:318-339 | on a raw array ending on an entry boundary (or beyond the table) the walk gives the slot-by-slot reading of the table's layout; otherwise it fails |
| Positional.VdevTableSlots | main.go:38-74 | the start-up vdev table covers 47 raw slots |
| Positional.VdevTruncation | main.go:318-339 | over the start-up table the walk fails exactly for raw lengths 9-13, 15-19 and 21-23, the cuts inside ops, bytes and errors |
| Positional.WalkScanStats | main.go:425-434 | the scan loop emits one gauge per table entry while the raw array lasts, labelled by pool |
| Positional.ScanGauges | main.go:425-434 | over the start-up table the scan loop gives min(len, 15) gauges, the i-th reporting raw value i under scan entry i's descriptor |
| Histogram.ReconstructHistogram | main.go:349-369 | the loop yields the specified count, sum numerator, scaling flag and buckets |
| Histogram.HistogramCount | main.go:350-357 | the count is the sum of the buckets modulo 2^64, exact when that sum fits, and equals the last bucket's cumulative count |
| Histogram.CumulativeIsPrefixSum | main.go:356-358 | bucket i's cumulative count is the sum of buckets 0..i, and cumulative counts never decrease (when the total fits in 64 bits) |
| Histogram.BucketsRoundTrip | main.go:356-358 | differencing consecutive cumulative counts gives back the raw counts (when the total fits in 64 bits) |
| Histogram.ZeroHistogram | main.go:349-369 | an all-zero array gives count 0, sum 0 and all-zero cumulative counts |
| Histogram.OneInBucketZero | main.go:356-364 | a single count in bucket 0 gives count 1 and sum numerator 1 |
| Histogram.DivisorIff | main.go:352-355 | bounds and sum are scaled by 1e9 exactly for 37-bucket arrays |
| Histogram.MidpointValue | main.go:359 | Go's `(1 << i) + ((1 << i) / 2)` is 1 for bucket 0, 3·2^(i-1) for buckets 1-62, and wraps to 2^62 and then 0 beyond |
| Histogram.MidpointInBucket | main.go:359-363 | up to bucket 62 the integer midpoint lies in [2^i, 2^(i+1)), the range the `zpool iostat` convention assumes for bucket i (not the bound 2^i that main.go:358 publishes) |
| Histogram.WeightedWithinBounds | main.go:356-364 | for up to 63 buckets the sum numerator lies within the range the midpoint convention assumes: between Σ count_i·2^i (the sum at the published upper bounds) and Σ count_i·2^(i+1) |
| Histogram.WeightedExceedsBounds | main.go:358-364 | for up to 63 buckets, once any bucket other than 0 is non-zero the sum numerator exceeds Σ count_i·2^i, the greatest sum the published upper bounds allow |
| Histogram.BucketOneExample | main.go:356-364 | one observation in bucket 1 gives count 1, cumulative count 1 at bound 2^1, and a sum numerator of 3 against a published-bound sum of 2 |
| Reporting.InitialKnown | main.go:342-345 | with the start-up map, a key is handled exactly when the extended-statistics table lists it |
| Reporting.ExtReportFails | main.go:340-373 | the extended statistics fail exactly when some known key has a shape other than scalar or bucket array, with the first such key |
| Reporting.ExtReportContents | main.go:340-373 | a successful pass emits one observation per known key and nothing else: a gauge for a scalar, a histogram for a bucket array, labelled by the type label, vdev, pool and path |
| Reporting.ReportExtStats | main.go:340-373 | the loop emits what the extended-statistics specification gives, stopping at the first bad entry |
| Reporting.PathLabelShape | main.go:309-316 | `PathLabel`, the model of the path computation: no path gives an empty label; a file, or full paths, gives the path as is; otherwise the label is a non-empty base name |
| Reporting.VdevReportOutcome | main.go:295-374 | a vdev report fails exactly on a raw array cut inside a variant entry or a bad extended statistic; otherwise it is the header gauges, the layout reading and the extended statistics, in that order |
| Reporting.ReportVdevStats | main.go:295-374 | the method emits what the vdev-report specification gives |
| Walker.DescendVdev | main.go:376-387 | the recursive method emits what the descent specification gives |
| Walker.DescendOkIff | main.go:376-387 | the descent succeeds exactly when the reference traversal names every vdev and every visited vdev reports successfully |
| Walker.DescendIsReportAll | main.go:376-387 | a successful descent emits the reports of the reference traversal's visits, in order |
| Walker.VisitsArePreorder | main.go:382-386 | the traversal visits every descendant exactly once, in pre-order |
| Walker.VisitsFailIff | main.go:376-387 | the traversal fails exactly when some descendant is a draid vdev without children |
| Walker.TopVisitsShape | main.go:415-417 | at depth 1 each top-level vdev is visited once, in order, under its top-level name |
| Walker.RootOnly | main.go:413-414 | depth 0 or less reports the pool root only |
| Walker.TopLevelOnly | main.go:413-421 | depth 1 reports the root and then each top-level vdev once, in order |
| Walker.WholeTree | main.go:413-421 | depth above 1 reports the root and then every vdev of the tree once, in pre-order |
| Walker.TopLevelIsReportAll | main.go:414-422 | the top-level loop emits exactly the reports of the visits below the root |
| Walker.PoolReportIsVisits | main.go:404-434 | an empty load-time array or a root without children fails; otherwise a pool's report is its four gauges, the reports of exactly the depth-selected vdevs, and the scan gauges |
| Walker.PoolsReportOutcome | main.go:394-435 | collection succeeds exactly when every pool's stats are fetched and report successfully, and then every pool's load-time gauge is in the output |
| Walker.MirrorScenario | main.go:376-421 | a pool with one two-disk mirror at depth 2 visits the root, then `mirror-0` for the mirror and for both disks |
| Walker.ReportPool | main.go:395-434 | one iteration of the pool loop emits what the pool-report specification gives |
| Walker.Collect | main.go:389-436 | a pass over the registry's tables emits what the collection specification gives over the start-up tables |

## Left out

- Talking to the kernel (`ioctl.Init`, `PoolConfigs`, `PoolStats`). The pool listing and each pool's record are inputs, together with the chance that fetching them fails.
- The Prometheus client library. A descriptor is a name, help text and label names. An observation is the descriptor, a value kind, the value and the label values. Sending on the channel is appending to the output sequence.
- `Describe` (`main.go:206-229`). It only sends descriptors: those of the two positional tables and the thirteen package-level descriptors (`main.go:207-228`). It is not part of the collection pass.
- The HTTP server, flag parsing and `main`. The `-depth` and `-fullpath` flags are parameters.
- Floating point. Gauge values are the integer counters. The histogram sum is kept as its integer numerator with a flag for the 1e9 divisor, and bucket bounds as their exponent of two. The rounding of `float64(v) * float64(midpoint)` and of the division is not modelled. Keying buckets by exponent also keeps every bucket distinct. Go keys them by `math.Exp2(i)` (over 1e9 when scaled), which is +Inf from bucket 1024 on, so such buckets would merge into one map entry. The arrays ZFS sends have 25 or 37 buckets, so this does not arise.
- Metrics sent before a fatal error are dropped in the model. The failing pass is only a `Fault`.
- The decoded record is typed. Type assertions that can only fail on a record without `type`, `vdev_stats`, `vdev_stats_ex` or the pool's numeric fields are not modelled. The assertions that can fail on well-formed data are: draid `children`, the pool root's `children`, `initial_load_time[0]` and the extended-statistic shape.
- Go's `int` is taken to be 64 bits wide.
- `filepath.Base` is modelled with `/` as the only separator (the Unix form).
- Histogram.CumulativeIsPrefixSum: stated for bucket arrays whose total fits in 64 bits. Beyond that the `uint64` count wraps, and each cumulative count is the prefix sum modulo 2^64.
- Histogram.BucketsRoundTrip: stated for bucket arrays whose total fits in 64 bits, for the same reason.
