/** The static tables that give the raw statistics arrays their meaning, and
    the process start-up step that turns them into metric descriptors. */
module Schema {
  import opened Types

  /** One entry of a positional statistics table. An empty `n` marks a
      placeholder slot; a non-empty `variants` list makes the entry cover one
      raw slot per variant, told apart by the `dimension` label. `desc` stays
      None until start-up fills it in. */
  datatype Stat = Stat(n: string, d: string, dimension: string, variants: seq<string>, desc: Option<Desc>)

  /** One entry of the extended-statistics table. */
  datatype ExtStat = ExtStat(name: string, desc: Desc, typeLabel: string)

  function Plain(n: string, d: string): Stat { Stat(n, d, "", [], None) }
  function Varied(n: string, d: string, dim: string, vs: seq<string>): Stat { Stat(n, d, dim, vs, None) }
  const Skip: Stat := Stat("", "", "", [], None)

  const ZioNames: seq<string> := ["null", "read", "write", "free", "claim", "ioctl"]

  /** The layout of the kernel's vdev_stat_t, as declared. */
  const VdevTable: seq<Stat> := [
    Skip, // timestamp
    Plain("state", "state (see pool_state_t)"),
    Skip, // auxiliary pool state
    Plain("space_allocated_bytes", "allocated space in bytes"),
    Plain("space_capacity_bytes", "total capacity in bytes"),
    Plain("space_deflated_capacity_bytes", "deflated capacity in bytes"),
    Plain("devsize_replaceable", "replaceable device size"),
    Plain("devsize_expandable", "expandable device size"),
    Varied("ops", "I/O operations", "type", ZioNames),
    Varied("bytes", "bytes processed", "type", ZioNames),
    Varied("errors", "errors encountered", "type", ["read", "write", "checksum", "initialize"]),
    Plain("self_healed_bytes", "bytes self-healed"),
    Skip, // removed statistic
    Plain("scan_processed_bytes", "bytes scanned"),
    Plain("fragmentation", "fragmentation"),
    Plain("initialize_processed_bytes", "bytes already initialized"),
    Plain("initialize_estimated_bytes", "estimated total number of bytes to initialize"),
    Plain("initialize_state", "initialize state (see initialize_state_t)"),
    Plain("initialize_action_time", "initialize time"),
    Plain("checkpoint_space_bytes", "checkpoint space in bytes"),
    Plain("resilver_deferred", "resilver deferred"),
    Plain("slow_ios", "slow I/O operations (30 seconds or more to complete)"),
    Plain("trim_errors", "trim errors"),
    Plain("trim_unsupported", "doesn't support TRIM"),
    Plain("trim_processed_bytes", "TRIMmed bytes"),
    Plain("trim_estimated_bytes", "estimated bytes to TRIM"),
    Plain("trim_state", "trim state"),
    Plain("trim_action_time", "trim time"),
    Plain("rebuild_processed_bytes", "bytes already rebuilt"),
    Plain("ashift_configured", "configured ashift"),
    Plain("ashift_logical", "logical ashift"),
    Plain("ashfit_physical", "physical ashift"), // sic: the published metric name
    Plain("noalloc_status", "allocations halted?"),
    Plain("physical_capacity_bytes", "physical capacity")
  ]

  /** The layout of the kernel's pool_scan_stat, as declared. */
  const ScanTable: seq<Stat> := [
    Plain("scan_func", "Pool scan function: 0 none, 1 scrub, 2 resilver, 3 rebuild (maybe)"),
    Plain("scan_state", "Pool scan state: 0 none, 1 scanning, 2 finished, 3 cancelled"),
    Plain("scan_start_time_seconds", "Pool scan start time"),
    Plain("scan_end_time_seconds", "Pool scan end time"),
    Plain("scan_to_examine_bytes", "Total bytes to scan"),
    Plain("scan_examined_bytes", "Total bytes examined"),
    Plain("scan_to_process_bytes", "Total bytes to process"),
    Plain("scan_processed_bytes", "Total bytes processed"),
    Plain("scan_errors", "Scan errors"),
    Plain("scan_pass_examined_bytes", "Examined bytes per scan pass"),
    Plain("scan_pass_start_seconds", "Start time of a scan pass"),
    Plain("scan_scrub_pause", "Pause time of a scrub pass"),
    Plain("scan_scrub_pause_time_spent", "Cumulative time the scrub spent paused"),
    Plain("scan_pass_issued_bytes", "Issued bytes per scan pass"),
    Plain("scan_issued_bytes", "Total bytes checked by scanner")
  ]

  const ExtendedStatsLabels: seq<string> := ["type", "vdev", "zpool", "path"]

  const ActiveQueueLength := Desc("zfs_vdev_queue_active_length", "Number of ZIOs issued to disk and waiting to finish", ExtendedStatsLabels)
  const PendingQueueLength := Desc("zfs_vdev_queue_pending_length", "Number of ZIOs pending to be issued to disk", ExtendedStatsLabels)
  const QueueLatency := Desc("zfs_vdev_queue_latency", "Amount of time an IO request spent in the queue", ExtendedStatsLabels)
  const ZioLatencyTotal := Desc("zfs_vdev_zio_latency_total", "Total ZIO latency including queuing and disk access time.", ExtendedStatsLabels)
  const ZioLatencyDisk := Desc("zfs_vdev_latency_disk", "Amount of time to read/write the disk", ExtendedStatsLabels)
  const IndividualIOSize := Desc("zfs_vdev_io_size_individual", "Size of the 'individual' non-aggregated I/O requests issued", ExtendedStatsLabels)
  const AggregatedIOSize := Desc("zfs_vdev_io_size_aggregated", "Size of the aggregated I/O requests issued", ExtendedStatsLabels)
  const PoolLoadTime := Desc("zfs_pool_load_time_seconds", "The time when the pool was imported (often at system boot)", ["zpool", "guid"])
  const PoolErrors := Desc("zfs_pool_errors", "ZFS pool error count", ["zpool", "guid"])
  const PoolChildren := Desc("zfs_pool_vdevs", "ZFS pool top level vdev count", ["zpool", "guid"])
  const VdevChildren := Desc("zfs_vdev_children", "Count of children of a vdev", ["vdev", "zpool"])
  const VdevNparity := Desc("zfs_vdev_nparity", "The parity level of a vdev (not always defined)", ["vdev", "pool"])
  const PoolConfigTxg := Desc("zfs_pool_config_txg", "ZFS pool configuration load or change txg", ["zpool"])

  /** The extended statistics the exporter knows, each with its descriptor
      and the fixed value of its `type` label. */
  const ExtTable: seq<ExtStat> := [
    ExtStat("vdev_agg_scrub_histo", AggregatedIOSize, "scrub"),
    ExtStat("vdev_agg_trim_histo", AggregatedIOSize, "trim"),
    ExtStat("vdev_async_agg_r_histo", AggregatedIOSize, "async_read"),
    ExtStat("vdev_async_agg_w_histo", AggregatedIOSize, "async_write"),
    ExtStat("vdev_async_ind_r_histo", IndividualIOSize, "async_read"),
    ExtStat("vdev_async_ind_w_histo", IndividualIOSize, "async_write"),
    ExtStat("vdev_async_r_active_queue", ActiveQueueLength, "async_read"),
    ExtStat("vdev_async_r_lat_histo", QueueLatency, "async_read"),
    ExtStat("vdev_async_r_pend_queue", PendingQueueLength, "async_read"),
    ExtStat("vdev_async_scrub_active_queue", ActiveQueueLength, "scrub"),
    ExtStat("vdev_async_scrub_pend_queue", PendingQueueLength, "scrub"),
    ExtStat("vdev_async_trim_active_queue", ActiveQueueLength, "trim"),
    ExtStat("vdev_async_trim_pend_queue", PendingQueueLength, "trim"),
    ExtStat("vdev_async_w_active_queue", ActiveQueueLength, "async_write"),
    ExtStat("vdev_async_w_lat_histo", QueueLatency, "async_write"),
    ExtStat("vdev_async_w_pend_queue", PendingQueueLength, "async_write"),
    ExtStat("vdev_disk_r_lat_histo", ZioLatencyDisk, "read"),
    ExtStat("vdev_disk_w_lat_histo", ZioLatencyDisk, "write"),
    ExtStat("vdev_ind_scrub_histo", IndividualIOSize, "scrub"),
    ExtStat("vdev_ind_trim_histo", IndividualIOSize, "trim"),
    ExtStat("vdev_scrub_histo", QueueLatency, "scrub"),
    ExtStat("vdev_sync_agg_r_histo", AggregatedIOSize, "sync_read"),
    ExtStat("vdev_sync_agg_w_histo", AggregatedIOSize, "sync_write"),
    ExtStat("vdev_sync_ind_r_histo", IndividualIOSize, "sync_read"),
    ExtStat("vdev_sync_ind_w_histo", IndividualIOSize, "sync_write"),
    ExtStat("vdev_sync_r_active_queue", ActiveQueueLength, "sync_read"),
    ExtStat("vdev_sync_r_lat_histo", QueueLatency, "sync_read"),
    ExtStat("vdev_sync_r_pend_queue", PendingQueueLength, "sync_read"),
    ExtStat("vdev_sync_w_active_queue", ActiveQueueLength, "sync_write"),
    ExtStat("vdev_sync_w_lat_histo", QueueLatency, "sync_write"),
    ExtStat("vdev_sync_w_pend_queue", PendingQueueLength, "sync_write"),
    ExtStat("vdev_tot_r_lat_histo", ZioLatencyTotal, "read"),
    ExtStat("vdev_tot_w_lat_histo", ZioLatencyTotal, "write"),
    ExtStat("vdev_trim_histo", QueueLatency, "trim"),
    ExtStat("vdev_rebuild_active_queue", ActiveQueueLength, "rebuild"),
    ExtStat("vdev_rebuild_pend_queue", PendingQueueLength, "rebuild"),
    ExtStat("vdev_ind_rebuild_histo", IndividualIOSize, "rebuild"),
    ExtStat("vdev_agg_rebuild_histo", AggregatedIOSize, "rebuild"),
    ExtStat("vdev_rebuild_histo", QueueLatency, "rebuild")
  ]

  /** The descriptor start-up gives a named vdev statistic: prefixed name and
      help, labelled by vdev, pool and path, plus the dimension label when the
      entry has variants. */
  function VdevDesc(s: Stat): Desc
  {
    Desc("zfs_vdev_" + s.n, "ZFS VDev " + s.d,
         if |s.variants| == 0 then ["vdev", "zpool", "path"] else ["vdev", "zpool", "path", s.dimension])
  }

  /** The descriptor start-up gives a scan statistic: labelled by pool only. */
  function ScanDesc(s: Stat): Desc
  {
    Desc("zfs_pool_" + s.n, "ZFS Pool Scan " + s.d, ["zpool"])
  }

  /** The vdev table once start-up has run: placeholders untouched, every
      named entry carrying its descriptor. */
  function DescribeVdev(table: seq<Stat>): (r: seq<Stat>)
    ensures |r| == |table|
  {
    seq(|table|, i requires 0 <= i < |table| =>
      if table[i].n == "" then table[i] else table[i].(desc := Some(VdevDesc(table[i]))))
  }

  /** The scan table once start-up has run. */
  function DescribeScan(table: seq<Stat>): (r: seq<Stat>)
    ensures |r| == |table|
  {
    seq(|table|, i requires 0 <= i < |table| => table[i].(desc := Some(ScanDesc(table[i]))))
  }

  /** The lookup map built from the extended-statistics table: inserting the
      entries in order, so a later entry overwrites an earlier one. */
  function ExtMapOf(table: seq<ExtStat>): map<string, ExtStat>
  {
    if table == [] then map[]
    else ExtMapOf(table[..|table| - 1])[table[|table| - 1].name := table[|table| - 1]]
  }

  /** `table[j]` is the last entry of `table` named `k`. */
  predicate LastNamed(table: seq<ExtStat>, j: int, k: string)
  {
    0 <= j < |table| && table[j].name == k && forall j' :: j < j' < |table| ==> table[j'].name != k
  }

  /** The map holds exactly the table's names, each bound to the last table
      entry of that name. */
  lemma {:induction false} ExtMapOfLookup(table: seq<ExtStat>)
    ensures forall j :: 0 <= j < |table| ==> table[j].name in ExtMapOf(table)
    ensures forall k :: k in ExtMapOf(table) ==>
      exists j :: LastNamed(table, j, k) && table[j] == ExtMapOf(table)[k]
  {
    if table != [] {
      var init := table[..|table| - 1];
      var last := table[|table| - 1];
      ExtMapOfLookup(init);
      var m := ExtMapOf(table);
      forall j | 0 <= j < |table| ensures table[j].name in m {
        if j < |table| - 1 { assert table[j] == init[j]; }
      }
      forall k | k in m
        ensures exists j :: LastNamed(table, j, k) && table[j] == m[k]
      {
        if k == last.name {
          assert LastNamed(table, |table| - 1, k);
        } else {
          var j :| LastNamed(init, j, k) && init[j] == ExtMapOf(init)[k];
          assert table[j] == init[j];
          forall j' | j < j' < |table| ensures table[j'].name != k {
            if j' < |table| - 1 { assert table[j'] == init[j']; }
          }
          assert LastNamed(table, j, k);
        }
      }
    }
  }

  /** Every named entry of a positional table has its descriptor. */
  predicate NamedDescribed(stats: seq<Stat>)
  {
    forall s | s in stats && s.n != "" :: s.desc.Some?
  }

  /** Every entry of a positional table has its descriptor. */
  predicate AllDescribed(stats: seq<Stat>)
  {
    forall s | s in stats :: s.desc.Some?
  }

  /** The process-wide tables the collection pass reads. */
  datatype Tables = Tables(vdevStats: seq<Stat>, scanStats: seq<Stat>, extStatsMap: map<string, ExtStat>) {
    predicate Ready() { NamedDescribed(vdevStats) && AllDescribed(scanStats) }
  }

  /** The tables as start-up leaves them. */
  function InitialTables(): (t: Tables)
    ensures t.Ready()
    ensures |t.vdevStats| == |VdevTable| && |t.scanStats| == |ScanTable|
  {
    Tables(DescribeVdev(VdevTable), DescribeScan(ScanTable), ExtMapOf(ExtTable))
  }

  /** Start-up, first loop: fill in the descriptor of every named vdev
      statistic, in place. */
  method DescribeVdevStats(a: array<Stat>)
    modifies a
    ensures a[..] == DescribeVdev(old(a[..]))
  {
    ghost var before := a[..];
    for i := 0 to a.Length
      invariant forall k :: 0 <= k < i ==> a[k] == DescribeVdev(before)[k]
      invariant forall k :: i <= k < a.Length ==> a[k] == before[k]
    {
      var s := a[i];
      if s.n == "" {
        continue;
      }
      a[i] := s.(desc := Some(VdevDesc(s)));
    }
  }

  /** Start-up, second loop: fill in the descriptor of every scan statistic. */
  method DescribeScanStats(a: array<Stat>)
    modifies a
    ensures a[..] == DescribeScan(old(a[..]))
  {
    ghost var before := a[..];
    for i := 0 to a.Length
      invariant forall k :: 0 <= k < i ==> a[k] == DescribeScan(before)[k]
      invariant forall k :: i <= k < a.Length ==> a[k] == before[k]
    {
      a[i] := a[i].(desc := Some(ScanDesc(a[i])));
    }
  }

  /** Start-up, third loop: index the extended-statistics table by name. */
  method BuildExtStatsMap(table: seq<ExtStat>) returns (m: map<string, ExtStat>)
    ensures m == ExtMapOf(table)
  {
    m := map[];
    for i := 0 to |table|
      invariant m == ExtMapOf(table[..i])
    {
      assert table[..i + 1][..i] == table[..i];
      m := m[table[i].name := table[i]];
    }
    assert table[..|table|] == table;
  }

  /** The package-level state that start-up initialises: the two positional
      tables (updated in place) and the extended-statistics map. */
  class Registry {
    var vdevStats: array<Stat>
    var scanStats: array<Stat>
    var extStatsMap: map<string, ExtStat>

    function Snapshot(): Tables
      reads this, vdevStats, scanStats
    {
      Tables(vdevStats[..], scanStats[..], extStatsMap)
    }

    ghost predicate Valid()
      reads this, vdevStats, scanStats
    {
      Snapshot() == InitialTables()
    }

    /** Runs the start-up loops over fresh copies of the declared tables. */
    constructor Init()
      ensures Valid()
      ensures fresh(vdevStats) && fresh(scanStats)
    {
      vdevStats := new Stat[|VdevTable|](i requires 0 <= i < |VdevTable| => VdevTable[i]);
      scanStats := new Stat[|ScanTable|](i requires 0 <= i < |ScanTable| => ScanTable[i]);
      extStatsMap := map[];
      new;
      assert vdevStats[..] == VdevTable;
      assert scanStats[..] == ScanTable;
      DescribeVdevStats(vdevStats);
      DescribeScanStats(scanStats);
      extStatsMap := BuildExtStatsMap(ExtTable);
    }
  }
}
