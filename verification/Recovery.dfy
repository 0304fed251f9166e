/**
 Durability: the files a running store writes, the order it writes them in, and what
 opening the store reads back (db/db_impl.cc, db/version_set.cc). The process may stop
 between any two steps; whatever it leaves on disk must still hold every write but those
 that compactions left out, and module RecoveryReads shows that no read misses these.

 A file is a growing sequence of records; a table holds a set of entries. A version is
 the set of its table numbers, since the level a table sits at plays no part in what is
 recovered. A memtable flush may run in the middle of a compaction.
 */
module Recovery {
  import opened DbFormat
  import opened Options
  import opened Lsm

  /** A write batch as logged: operation i carries sequence number `first + i`. */
  datatype Record = Record(first: nat, ops: seq<Op>)

  /** VersionEdit. */
  datatype Edit = Edit(log: Option<nat>, next: Option<nat>, last: Option<nat>, deleted: set<nat>, added: set<nat>)

  /** What replaying a manifest leaves in a VersionSet. */
  datatype ManifestState = ManifestState(files: set<nat>, log: nat, next: nat, last: nat)

  datatype Disk = Disk(logs: map<nat, seq<Record>>, tables: map<nat, set<Entry>>, manifests: map<nat, seq<Edit>>,
      current: nat)

  datatype Flush = NoFlush | Building(out: nat) | FlushCommitted
  datatype Compaction = NoCompaction | Working(inputs: set<nat>, outputs: set<nat>) | Committed(outputs: set<nat>)

  datatype Process =
    | Down
    | Recovering(m: ManifestState, todo: set<nat>, added: set<nat>, next: nat, last: nat, newLog: Option<nat>)
    | Running(mem: set<Entry>, imm: Option<set<Entry>>, inflight: Option<Record>, logFile: nat,
              version: set<nat>, logNumber: nat, next: nat, last: nat, pinned: set<set<nat>>, manifest: nat,
              flush: Flush, compaction: Compaction)

  /**
   `history` is every logged write; `dropped` is what compactions have left out, and `floor`
   the largest smallest_snapshot they have used.
   */
  datatype Store = Store(disk: Disk, proc: Process, history: set<Entry>, dropped: set<Entry>, floor: nat)

  // ---------------------------------------------------------------- reading the disk

  function Apply(m: ManifestState, e: Edit): ManifestState {
    ManifestState(m.files - e.deleted + e.added,
                  if e.log.Some? then e.log.value else m.log,
                  if e.next.Some? then e.next.value else m.next,
                  if e.last.Some? then e.last.value else m.last)
  }

  /** VersionSet::Recover: later records override earlier ones. */
  function Replay(edits: seq<Edit>): ManifestState {
    if edits == [] then ManifestState({}, 0, 0, 0) else Apply(Replay(edits[..|edits| - 1]), edits[|edits| - 1])
  }

  function ManifestOf(d: Disk): ManifestState
    requires d.current in d.manifests
  {
    Replay(d.manifests[d.current])
  }

  ghost function RecordEntries(r: Record): set<Entry> {
    BatchEntries(r.ops, r.first)
  }

  ghost function LogEntries(log: seq<Record>): set<Entry> {
    set i, e | 0 <= i < |log| && e in RecordEntries(log[i]) :: e
  }

  /** Entries of the logs numbered at or above `min`. */
  ghost function LogsFrom(logs: map<nat, seq<Record>>, min: nat): set<Entry> {
    set n, e | n in logs && n >= min && e in LogEntries(logs[n]) :: e
  }

  /** Sequence numbers rise from record to record. */
  predicate Ascends(log: seq<Record>) {
    forall i, j :: 0 <= i < j < |log| ==> log[i].first + |log[i].ops| <= log[j].first
  }

  ghost function TableEntries(tables: map<nat, set<Entry>>, files: set<nat>): set<Entry> {
    set n, e | n in files && n in tables && e in tables[n] :: e
  }

  /** What opening the store would read: the manifest's tables, then the logs it still names. */
  ghost function Recovered(d: Disk): set<Entry>
    requires d.current in d.manifests
  {
    TableEntries(d.tables, ManifestOf(d).files) + LogsFrom(d.logs, ManifestOf(d).log)
  }

  // ---------------------------------------------------------------- steps of a running store

  ghost function InflightEntries(p: Process): set<Entry> {
    if p.Running? && p.inflight.Some? then RecordEntries(p.inflight.value) else {}
  }

  /** Write: the record reaches the log before the memtable. */
  ghost predicate AppendLog(s: Store, s': Store, ops: seq<Op>) {
    && s.proc.Running? && s.proc.inflight.None? && s.proc.logFile in s.disk.logs
    && var r := Record(s.proc.last + 1, ops);
    && s' == s.(disk := s.disk.(logs := s.disk.logs[s.proc.logFile := s.disk.logs[s.proc.logFile] + [r]]),
                proc := s.proc.(inflight := Some(r)))
  }

  /** Write: the batch enters the memtable and is acknowledged. */
  ghost predicate InsertMem(s: Store, s': Store) {
    && s.proc.Running? && s.proc.inflight.Some?
    && s' == s.(proc := s.proc.(mem := s.proc.mem + InflightEntries(s.proc), inflight := None,
                                last := s.proc.last + |s.proc.inflight.value.ops|),
                history := s.history + InflightEntries(s.proc))
  }

  /** MakeRoomForWrite: a new log, and the full memtable becomes immutable. */
  ghost predicate SwitchLog(s: Store, s': Store) {
    && s.proc.Running? && s.proc.inflight.None? && s.proc.imm.None?
    && s' == s.(disk := s.disk.(logs := s.disk.logs[s.proc.next := []]),
                proc := s.proc.(logFile := s.proc.next, imm := Some(s.proc.mem), mem := {}, next := s.proc.next + 1))
  }

  ghost predicate StartFlush(s: Store, s': Store) {
    && s.proc.Running? && s.proc.imm.Some? && s.proc.flush.NoFlush? && !s.proc.compaction.Committed?
    && s' == s.(proc := s.proc.(flush := Building(s.proc.next), next := s.proc.next + 1))
  }

  /** Output files take fresh numbers. */
  ghost predicate StartCompaction(s: Store, s': Store, inputs: set<nat>, outputs: set<nat>, next: nat) {
    && s.proc.Running? && s.proc.flush.NoFlush? && s.proc.compaction.NoCompaction?
    && inputs <= s.proc.version && next >= s.proc.next && (forall n :: n in outputs ==> s.proc.next <= n < next)
    && s' == s.(proc := s.proc.(compaction := Working(inputs, outputs), next := next))
  }

  function Pending(p: Process): set<nat> {
    if !p.Running? then {}
    else (if p.flush.Building? then {p.flush.out} else {}) + (if p.compaction.NoCompaction? then {}
      else p.compaction.outputs)
  }

  /** A pending output is written, wholly or in part. */
  ghost predicate WriteTable(s: Store, s': Store, n: nat, es: set<Entry>) {
    && s.proc.Running? && n in Pending(s.proc) && !s.proc.compaction.Committed?
    && s' == s.(disk := s.disk.(tables := s.disk.tables[n := es]))
  }

  function AppendManifest(d: Disk, n: nat, e: Edit): Disk
    requires n in d.manifests
  {
    d.(manifests := d.manifests[n := d.manifests[n] + [e]])
  }

  /** LogAndApply in CompactMemTable, up to the manifest record reaching the disk. */
  ghost predicate CommitFlush(s: Store, s': Store) {
    && s.proc.Running? && s.proc.flush.Building? && s.proc.imm.Some? && !s.proc.compaction.Committed?
    && s.proc.manifest in s.disk.manifests
    && var n := s.proc.flush.out;
    && (s.proc.imm.value != {} ==> n in s.disk.tables && s.disk.tables[n] == s.proc.imm.value)
    && var edit := Edit(Some(s.proc.logFile), Some(s.proc.next), Some(s.proc.last), {},
       if s.proc.imm.value == {} then {} else {n});
    && s' == s.(disk := AppendManifest(s.disk, s.proc.manifest, edit), proc := s.proc.(flush := FlushCommitted))
  }

  /** The new version is installed and the immutable memtable released. */
  ghost predicate InstallFlush(s: Store, s': Store) {
    && s.proc.Running? && s.proc.flush.FlushCommitted? && s.disk.current in s.disk.manifests
    && s' == s.(proc := s.proc.(flush := NoFlush, imm := None, version := ManifestOf(s.disk).files,
       logNumber := ManifestOf(s.disk).log))
  }

  /** Reads at or above snapshot `from` answer the same. */
  ghost predicate KeepsReads(before: set<Entry>, after: set<Entry>, from: nat) {
    forall k, r :: r >= from ==> ReadAt(after, k, r) == ReadAt(before, k, r)
  }

  /** The outputs of a compaction hold entries of its inputs, enough of them for every read from `snapshot` on. */
  ghost predicate MayReplace(tables: map<nat, set<Entry>>, files: set<nat>, inputs: set<nat>, outputs: set<nat>,
      snapshot: nat) {
    && outputs <= tables.Keys && DisjointTables(tables, outputs)
    && TableEntries(tables, outputs) <= TableEntries(tables, inputs)
    && KeepsReads(TableEntries(tables, files), TableEntries(tables, files - inputs + outputs), snapshot)
  }

  /** InstallCompactionResults, up to the manifest record; `snapshot` is the smallest_snapshot of the compaction. */
  ghost predicate CommitCompaction(s: Store, s': Store, snapshot: nat) {
    && s.proc.Running? && s.proc.compaction.Working? && s.proc.flush.NoFlush?
    && s.proc.manifest in s.disk.manifests && s.disk.current in s.disk.manifests
    && var inputs, outputs := s.proc.compaction.inputs, s.proc.compaction.outputs;
    && MayReplace(s.disk.tables, ManifestOf(s.disk).files, inputs, outputs, snapshot) && snapshot <= s.proc.last
    && var edit := Edit(Some(s.proc.logNumber), Some(s.proc.next), Some(s.proc.last), inputs, outputs);
    && s' == s.(disk := AppendManifest(s.disk, s.proc.manifest, edit),
                proc := s.proc.(compaction := Committed(outputs)),
                dropped := s.dropped + (TableEntries(s.disk.tables, inputs) - TableEntries(s.disk.tables, outputs)),
                floor := if snapshot > s.floor then snapshot else s.floor)
  }

  ghost predicate InstallCompaction(s: Store, s': Store) {
    && s.proc.Running? && s.proc.compaction.Committed? && s.disk.current in s.disk.manifests
    && s' == s.(proc := s.proc.(compaction := NoCompaction, version := ManifestOf(s.disk).files,
       logNumber := ManifestOf(s.disk).log))
  }

  /** A reader or iterator takes or drops a reference to a version. */
  ghost predicate PinVersion(s: Store, s': Store) {
    s.proc.Running? && s' == s.(proc := s.proc.(pinned := s.proc.pinned + {s.proc.version}))
  }

  ghost predicate UnpinVersion(s: Store, s': Store, v: set<nat>) {
    s.proc.Running? && s' == s.(proc := s.proc.(pinned := s.proc.pinned - {v}))
  }

  /** The `keep` decisions of DeleteObsoleteFiles. PrevLogNumber is always 0 here. */
  predicate KeepLog(p: Process, n: nat)
    requires p.Running?
  {
    n >= p.logNumber || n == 0
  }

  predicate KeepManifest(p: Process, n: nat)
    requires p.Running?
  {
    n >= p.manifest
  }

  predicate KeepTable(p: Process, n: nat)
    requires p.Running?
  {
    n in Pending(p) || n in p.version || exists v :: v in p.pinned && n in v
  }

  /** DeleteObsoleteFiles removes files one at a time; it only runs between commits. */
  ghost predicate DeleteObsolete(s: Store, s': Store) {
    && s.proc.Running? && s.proc.flush.NoFlush? && !s.proc.compaction.Committed?
    && ((exists n :: !KeepLog(s.proc, n) && s' == s.(disk := s.disk.(logs := s.disk.logs - {n})))
        || (exists n :: !KeepTable(s.proc, n) && s' == s.(disk := s.disk.(tables := s.disk.tables - {n})))
        || (exists n :: !KeepManifest(s.proc, n) && s' == s.(disk := s.disk.(manifests := s.disk.manifests - {n}))))
  }

  // ---------------------------------------------------------------- stopping and opening

  /** The process stops. A batch that had reached the log will be recovered. */
  ghost predicate Stop(s: Store, s': Store) {
    s' == s.(proc := Down, history := s.history + InflightEntries(s.proc))
  }

  /** VersionSet::Recover and the scan of the directory in DBImpl::Recover. */
  ghost predicate OpenManifest(s: Store, s': Store) {
    && s.proc.Down? && s.disk.current in s.disk.manifests
    && var m := ManifestOf(s.disk);
    && m.files <= s.disk.tables.Keys
    && s' == s.(proc := Recovering(m, set n | n in s.disk.logs
       && n >= m.log, {}, if m.next + 1 <= m.log then m.log + 1 else m.next + 1, m.last, None))
  }

  /** Tables with higher numbers hold newer entries, and none is empty. */
  ghost predicate TablesAscend(tables: map<nat, set<Entry>>) {
    && (forall n :: n in tables ==> tables[n] != {})
    && forall m, n :: m in tables && n in tables && m < n ==> AllNewer(tables[n], tables[m])
  }

  /** RecoverLogFile: the entries of one log go into new level-0 tables one after the other, cut anywhere. */
  ghost predicate RecoverLog(s: Store, s': Store, n: nat, tables: map<nat, set<Entry>>) {
    && s.proc.Recovering? && s.proc.newLog.None? && n in s.proc.todo && n in s.disk.logs
    && (forall x :: x in s.proc.todo ==> n <= x)
    && s'.proc.Recovering? && (forall x :: x in tables ==> s.proc.next <= x < s'.proc.next)
    && DisjointTables(tables, tables.Keys) && TablesAscend(tables)
    && TableEntries(tables, tables.Keys) == LogEntries(s.disk.logs[n])
    && s'.proc.next >= s.proc.next && s'.proc.next > n
    && s'.proc.last >= s.proc.last && (forall e :: e in LogEntries(s.disk.logs[n]) ==> e.key.seqno <= s'.proc.last)
    && s' == s.(disk := s.disk.(tables := s.disk.tables + tables),
                proc := s.proc.(todo := s.proc.todo - {n}, added := s.proc.added + tables.Keys, next := s'.proc.next,
                  last := s'.proc.last))
  }

  /** A table an interrupted recovery leaves behind, whole or in part. */
  ghost predicate ScratchTable(s: Store, s': Store, n: nat, es: set<Entry>) {
    s.proc.Recovering? && n >= s.proc.next && s' == s.(disk := s.disk.(tables := s.disk.tables[n := es]))
  }

  /** DB::Open creates the new log once all old ones are replayed. */
  ghost predicate CreateLog(s: Store, s': Store) {
    && s.proc.Recovering? && s.proc.newLog.None? && s.proc.todo == {}
    && s' == s.(disk := s.disk.(logs := s.disk.logs[s.proc.next := []]),
                proc := s.proc.(newLog := Some(s.proc.next), next := s.proc.next + 1))
  }

  /** The records of the manifest that DB::Open writes: a snapshot of the recovered version, then the edit. */
  function NewManifest(p: Process): seq<Edit>
    requires p.Recovering? && p.newLog.Some?
  {
    [Edit(None, None, None, {}, p.m.files), Edit(p.newLog, Some(p.next), Some(p.last), {}, p.added)]
  }

  ghost predicate WriteManifest(s: Store, s': Store) {
    && s.proc.Recovering? && s.proc.newLog.Some?
    && s' == s.(disk := s.disk.(manifests := s.disk.manifests[s.proc.m.next := NewManifest(s.proc)]))
  }

  /** SetCurrentFile: from here on the new manifest is the one that counts. */
  ghost predicate SwitchCurrent(s: Store, s': Store) {
    && s.proc.Recovering? && s.proc.newLog.Some?
    && s.proc.m.next in s.disk.manifests && s.disk.manifests[s.proc.m.next] == NewManifest(s.proc)
    && s' == s.(disk := s.disk.(current := s.proc.m.next),
                proc := Running({}, None, None, s.proc.newLog.value, s.proc.m.files + s.proc.added, s.proc.newLog.value,
                                s.proc.next, s.proc.last, {}, s.proc.m.next, NoFlush, NoCompaction))
  }

  /** NewDB. */
  ghost predicate Init(s: Store) {
    s == Store(Disk(map[], map[], map[1 := [Edit(Some(0), Some(2), Some(0), {}, {})]], 1), Down, {}, {}, 0)
  }

  ghost predicate Next(s: Store, s': Store) {
    || (exists ops :: AppendLog(s, s', ops))
    || InsertMem(s, s')
    || SwitchLog(s, s')
    || StartFlush(s, s')
    || (exists inputs, outputs, next :: StartCompaction(s, s', inputs, outputs, next))
    || (exists n, es :: WriteTable(s, s', n, es))
    || CommitFlush(s, s') || InstallFlush(s, s')
    || (exists snapshot :: CommitCompaction(s, s', snapshot)) || InstallCompaction(s, s')
    || PinVersion(s, s') || (exists v :: UnpinVersion(s, s', v))
    || DeleteObsolete(s, s')
    || Stop(s, s') || OpenManifest(s, s')
    || (exists n, tables :: RecoverLog(s, s', n, tables))
    || (exists n, es :: ScratchTable(s, s', n, es))
    || CreateLog(s, s') || WriteManifest(s, s') || SwitchCurrent(s, s')
  }

  // ---------------------------------------------------------------- invariant

  ghost predicate DisjointTables(tables: map<nat, set<Entry>>, files: set<nat>) {
    forall m, n :: m in files && n in files && m in tables && n in tables && m != n ==> tables[m] !! tables[n]
  }

  ghost predicate DisjointLogs(logs: map<nat, seq<Record>>, min: nat) {
    forall m, n :: m in logs && n in logs && m >= min && n >= min && m != n ==>
        LogEntries(logs[m]) !! LogEntries(logs[n])
  }

  /** The disk, read on its own, is complete and says what `history` says. */
  ghost predicate DiskInv(d: Disk, history: set<Entry>, dropped: set<Entry>) {
    && d.current in d.manifests
    && var m := ManifestOf(d);
    && m.files <= d.tables.Keys && (forall n :: n in d.logs ==> Ascends(d.logs[n]))
    && (forall n :: n in m.files ==> n < m.next) && d.current < m.next && m.log < m.next
    && DisjointTables(d.tables, m.files) && DisjointLogs(d.logs, m.log)
    && TableEntries(d.tables, m.files) !! LogsFrom(d.logs, m.log)
    && Recovered(d) == history - dropped && dropped <= history && dropped !! LogsFrom(d.logs, m.log)
    && forall e :: e in history ==> e.key.seqno <= m.last || e in LogsFrom(d.logs, m.log)
  }

  ghost function ImmView(p: Process): set<Entry>
    requires p.Running?
  {
    if p.imm.Some? && !p.flush.FlushCommitted? then p.imm.value else {}
  }

  /** The logs the manifest names hold exactly the two memtables and the batch in flight. */
  ghost predicate LogsInv(p: Process, d: Disk, m: ManifestState)
    requires p.Running?
  {
    && p.logFile in d.logs
    && (forall n :: n in d.logs ==> n <= p.logFile) && m.log <= p.logFile < p.next
    && LogsFrom(d.logs, m.log) == ImmView(p) + p.mem + InflightEntries(p)
    && LogsFrom(d.logs, p.logFile) == p.mem + InflightEntries(p)
    && ImmView(p) !! p.mem && InflightEntries(p) !! (ImmView(p) + p.mem)
    && (p.inflight.Some? ==> p.inflight.value.first == p.last + 1)
    && (forall r :: r in d.logs[p.logFile] ==> r.first + |r.ops| <= p.last + 1 || p.inflight == Some(r))
  }

  ghost predicate VersionsInv(p: Process, d: Disk)
    requires p.Running?
  {
    && p.version <= d.tables.Keys && (forall n :: n in p.version ==> n < p.next)
    && (forall v :: v in p.pinned ==> v <= d.tables.Keys && forall n :: n in v ==> n < p.next)
  }

  ghost predicate RunningInv(s: Store)
    requires s.proc.Running? && s.disk.current in s.disk.manifests
  {
    var p, d, m := s.proc, s.disk, ManifestOf(s.disk);
    && p.manifest == d.current && m.next <= p.next
    && LogsInv(p, d, m) && VersionsInv(p, d) && JobsInv(p, m)
    && (forall e :: e in s.history ==> e.key.seqno <= p.last)
  }

  /** How the installed version relates to the committed one, and what the pending outputs may not touch. */
  ghost predicate JobsInv(p: Process, m: ManifestState)
    requires p.Running?
  {
    && (!p.flush.FlushCommitted? && !p.compaction.Committed? ==> p.version == m.files && p.logNumber == m.log)
    && !(p.flush.FlushCommitted? && p.compaction.Committed?)
    && (!p.flush.NoFlush? ==> p.imm.Some?)
    && (p.flush.FlushCommitted? ==> m.log == p.logFile)
    && (p.compaction.Committed? ==> p.logNumber == m.log && p.flush.NoFlush?)
    && (p.compaction.Working? ==> p.compaction.inputs <= m.files && p.compaction.inputs <= p.version)
    && (p.flush.Building? ==> p.flush.out < p.next && (p.compaction.Working? ==> p.flush.out !in p.compaction.outputs))
    && (p.compaction.Working? ==> forall n :: n in p.compaction.outputs ==> n < p.next)
    && (!p.compaction.Committed? ==> forall n :: n in Pending(p) ==>
       n !in m.files && n !in p.version && forall v :: v in p.pinned ==> n !in v)
  }

  ghost predicate RecoveringInv(s: Store)
    requires s.proc.Recovering? && s.disk.current in s.disk.manifests
  {
    var p, d := s.proc, s.disk;
    && p.m == ManifestOf(d)
    && p.m.next < p.next && p.m.last <= p.last
    && p.todo <= d.logs.Keys && (forall n :: n in p.todo ==> n >= p.m.log)
    && p.added <= d.tables.Keys && (forall n :: n in p.added ==> p.m.next <= n < p.next)
    && DisjointTables(d.tables, p.added)
    && (forall n, e :: n in p.todo && e in LogEntries(d.logs[n]) ==> e !in TableEntries(d.tables, p.added))
    && LogsFrom(d.logs, p.m.log) == TableEntries(d.tables, p.added) +
       (set n, e | n in p.todo && e in LogEntries(d.logs[n]) :: e)
    && (forall n :: n in d.logs && n >= p.m.log && n !in p.todo ==> n < p.next)
    && (forall e :: e in TableEntries(d.tables, p.added) ==> e.key.seqno <= p.last)
    && (p.newLog.Some? ==> p.todo == {} && p.newLog.value in d.logs && d.logs[p.newLog.value] == []
                           && p.m.log <= p.newLog.value < p.next && forall n :: n in d.logs ==> n <= p.newLog.value)
  }

  ghost predicate Inv(s: Store) {
    && DiskInv(s.disk, s.history + InflightEntries(s.proc), s.dropped)
    && (s.proc.Running? ==> RunningInv(s))
    && (s.proc.Recovering? ==> RecoveringInv(s))
  }

  // ---------------------------------------------------------------- how disk changes show in what is read

  lemma TablesSame(t: map<nat, set<Entry>>, t': map<nat, set<Entry>>, files: set<nat>)
    requires forall n :: n in files ==> (n in t <==> n in t') && (n in t ==> t[n] == t'[n])
    ensures TableEntries(t', files) == TableEntries(t, files)
    ensures DisjointTables(t, files) ==> DisjointTables(t', files)
  {
  }

  lemma TablesUnion(t: map<nat, set<Entry>>, a: set<nat>, b: set<nat>)
    ensures TableEntries(t, a + b) == TableEntries(t, a) + TableEntries(t, b)
    ensures DisjointTables(t, a) && DisjointTables(t, b) && TableEntries(t, a) !! TableEntries(t, b) && a !! b ==>
            DisjointTables(t, a + b)
  {
    if DisjointTables(t, a) && DisjointTables(t, b) && TableEntries(t, a) !! TableEntries(t, b) && a !! b {
      forall m, n | m in a + b && n in a + b && m in t && n in t && m != n ensures t[m] !! t[n] {
        forall e ensures e !in t[m] || e !in t[n] {
          assert e in t[m] ==> e in TableEntries(t, if m in a then a else b);
          assert e in t[n] ==> e in TableEntries(t, if n in a then a else b);
        }
      }
    }
  }

  lemma LogAppend(log: seq<Record>, r: Record)
    ensures LogEntries(log + [r]) == LogEntries(log) + RecordEntries(r)
  {
    forall e ensures e in LogEntries(log + [r]) <==> e in LogEntries(log) + RecordEntries(r) {
      if e in RecordEntries(r) {
        assert (log + [r])[|log|] == r;
      }
      if i :| 0 <= i < |log| && e in RecordEntries(log[i]) {
        assert (log + [r])[i] == log[i];
      }
    }
  }

  lemma LogsAfterAppend(logs: map<nat, seq<Record>>, n: nat, r: Record, min: nat)
    requires n in logs && n >= min
    ensures LogsFrom(logs[n := logs[n] + [r]], min) == LogsFrom(logs, min) + RecordEntries(r)
    ensures DisjointLogs(logs, min) && RecordEntries(r) !! LogsFrom(logs, min) ==>
            DisjointLogs(logs[n := logs[n] + [r]], min)
  {
    var logs' := logs[n := logs[n] + [r]];
    LogAppend(logs[n], r);
    forall e ensures e in LogsFrom(logs', min) <==> e in LogsFrom(logs, min) + RecordEntries(r) {
      if e in RecordEntries(r) {
        assert e in LogEntries(logs'[n]);
      }
      if m :| m in logs && m >= min && e in LogEntries(logs[m]) {
        assert e in LogEntries(logs'[m]);
      }
    }
    if DisjointLogs(logs, min) && RecordEntries(r) !! LogsFrom(logs, min) {
      forall m, k | m in logs' && k in logs' && m >= min && k >= min && m != k
        ensures LogEntries(logs'[m]) !! LogEntries(logs'[k])
      {
        forall e ensures e !in LogEntries(logs'[m]) || e !in LogEntries(logs'[k]) {
          assert e in LogEntries(logs[m]) ==> e in LogsFrom(logs, min);
          assert e in LogEntries(logs[k]) ==> e in LogsFrom(logs, min);
        }
      }
    }
  }

  lemma LogsAfterCreate(logs: map<nat, seq<Record>>, n: nat, min: nat)
    requires n !in logs
    ensures LogsFrom(logs[n := []], min) == LogsFrom(logs, min)
    ensures DisjointLogs(logs, min) ==> DisjointLogs(logs[n := []], min)
  {
    var logs' := logs[n := []];
    assert LogEntries([]) == {};
    forall e | e in LogsFrom(logs, min) ensures e in LogsFrom(logs', min) {
      var m :| m in logs && m >= min && e in LogEntries(logs[m]);
      assert e in LogEntries(logs'[m]);
    }
  }

  lemma LogsAfterDelete(logs: map<nat, seq<Record>>, n: nat, min: nat)
    requires n < min
    ensures LogsFrom(logs - {n}, min) == LogsFrom(logs, min)
    ensures DisjointLogs(logs, min) ==> DisjointLogs(logs - {n}, min)
  {
    forall e | e in LogsFrom(logs, min) ensures e in LogsFrom(logs - {n}, min) {
      var m :| m in logs && m >= min && e in LogEntries(logs[m]);
      assert e in LogEntries((logs - {n})[m]);
    }
  }

  lemma ReplayAppend(edits: seq<Edit>, e: Edit)
    ensures Replay(edits + [e]) == Apply(Replay(edits), e)
  {
    assert (edits + [e])[..|edits|] == edits;
  }

  // ---------------------------------------------------------------- steps keep the invariant

  lemma BatchIsFresh(r: Record, last: nat, S: set<Entry>)
    requires r.first == last + 1 && forall e :: e in S ==> e.key.seqno <= last
    ensures RecordEntries(r) !! S
    ensures forall e :: e in RecordEntries(r) ==> last < e.key.seqno <= last + |r.ops|
  {
  }

  lemma AppendLogKeepsDisk(s: Store, s': Store, ops: seq<Op>)
    requires Inv(s) && AppendLog(s, s', ops)
    ensures DiskInv(s'.disk, s'.history + InflightEntries(s'.proc), s'.dropped)
    ensures ManifestOf(s'.disk) == ManifestOf(s.disk)
    ensures LogsFrom(s'.disk.logs, ManifestOf(s.disk).log) ==
            LogsFrom(s.disk.logs, ManifestOf(s.disk).log) + InflightEntries(s'.proc)
  {
    var r := Record(s.proc.last + 1, ops);
    BatchIsFresh(r, s.proc.last, s.history);
    LogsAfterAppend(s.disk.logs, s.proc.logFile, r, ManifestOf(s.disk).log);
    AppendAscends(s.disk.logs[s.proc.logFile], r);
    assert InflightEntries(s.proc) == {};
  }

  lemma AppendAscends(log: seq<Record>, r: Record)
    requires Ascends(log) && forall x :: x in log ==> x.first + |x.ops| <= r.first
    ensures Ascends(log + [r])
  {
  }

  lemma AppendLogKeepsLogs(s: Store, s': Store, ops: seq<Op>)
    requires Inv(s) && AppendLog(s, s', ops)
    ensures LogsInv(s'.proc, s'.disk, ManifestOf(s.disk))
  {
    hide Replay, ManifestOf, DisjointLogs, DisjointTables, TableEntries, LogsFrom, Ascends, VersionsInv, JobsInv;
    var r := Record(s.proc.last + 1, ops);
    BatchIsFresh(r, s.proc.last, s.history);
    LogsAfterAppend(s.disk.logs, s.proc.logFile, r, ManifestOf(s.disk).log);
    LogsAfterAppend(s.disk.logs, s.proc.logFile, r, s.proc.logFile);
  }

  lemma AppendLogKeepsInv(s: Store, s': Store, ops: seq<Op>)
    requires Inv(s) && AppendLog(s, s', ops)
    ensures Inv(s')
  {
    AppendLogKeepsDisk(s, s', ops);
    AppendLogKeepsLogs(s, s', ops);
  }

  lemma InsertMemKeepsInv(s: Store, s': Store)
    requires Inv(s) && InsertMem(s, s')
    ensures Inv(s')
  {
    BatchIsFresh(s.proc.inflight.value, s.proc.last, s.history);
    assert s'.history + InflightEntries(s'.proc) == s.history + InflightEntries(s.proc);
  }

  lemma SwitchLogKeepsDisk(s: Store, s': Store)
    requires Inv(s) && SwitchLog(s, s')
    ensures DiskInv(s'.disk, s'.history + InflightEntries(s'.proc), s'.dropped)
    ensures LogsInv(s'.proc, s'.disk, ManifestOf(s.disk))
  {
    var d, n := s.disk, s.proc.next;
    LogsAfterCreate(d.logs, n, ManifestOf(d).log);
    LogsAfterCreate(d.logs, n, n);
    assert LogsFrom(d.logs, n) == {};
  }

  lemma SwitchLogKeepsInv(s: Store, s': Store)
    requires Inv(s) && SwitchLog(s, s')
    ensures Inv(s')
  {
    SwitchLogKeepsDisk(s, s');
  }

  lemma StartFlushKeepsInv(s: Store, s': Store)
    requires Inv(s) && StartFlush(s, s')
    ensures Inv(s')
  {
  }

  lemma StartCompactionKeepsInv(s: Store, s': Store, inputs: set<nat>, outputs: set<nat>, next: nat)
    requires Inv(s) && StartCompaction(s, s', inputs, outputs, next)
    ensures Inv(s')
  {
  }

  lemma WriteTableKeepsInv(s: Store, s': Store, n: nat, es: set<Entry>)
    requires Inv(s) && WriteTable(s, s', n, es)
    ensures Inv(s')
  {
    TablesSame(s.disk.tables, s'.disk.tables, ManifestOf(s.disk).files);
  }

  /** What the manifest says once the edit of a flush is in it. */
  lemma FlushedManifest(s: Store, s': Store)
    requires Inv(s) && CommitFlush(s, s')
    ensures ManifestOf(s'.disk) == ManifestState(ManifestOf(s.disk).files + if s.proc.imm.value == {} then {}
            else {s.proc.flush.out}, s.proc.logFile, s.proc.next, s.proc.last)
  {
    hide DisjointTables, DisjointLogs, TableEntries, LogsFrom, Ascends, VersionsInv, LogsInv;
    var p := s.proc;
    var edit := Edit(Some(p.logFile), Some(p.next), Some(p.last), {}, if p.imm.value == {} then {} else {p.flush.out});
    ReplayAppend(s.disk.manifests[s.disk.current], edit);
  }

  /** The new table holds the immutable memtable, and nothing the other tables have. */
  lemma FlushedTables(s: Store, s': Store)
    requires Inv(s) && CommitFlush(s, s')
    ensures var files, new_: set<nat> := ManifestOf(s.disk).files,
            if s.proc.imm.value == {} then {} else {s.proc.flush.out};
      && TableEntries(s.disk.tables, files + new_) == TableEntries(s.disk.tables, files) + s.proc.imm.value
      && DisjointTables(s.disk.tables, files + new_) && files + new_ <= s.disk.tables.Keys
  {
    hide DisjointLogs, LogsFrom, Ascends, VersionsInv, Replay;
    var files, new_: set<nat> := ManifestOf(s.disk).files, if s.proc.imm.value == {} then {} else {s.proc.flush.out};
    assert TableEntries(s.disk.tables, new_) == s.proc.imm.value;
    TablesUnion(s.disk.tables, files, new_);
  }

  /** The logs from the current one on hold what is not in the immutable memtable. */
  lemma FlushedLogs(s: Store, s': Store)
    requires Inv(s) && CommitFlush(s, s')
    ensures var m, p, logs := ManifestOf(s.disk), s.proc, s.disk.logs;
      && LogsFrom(logs, m.log) == p.imm.value + LogsFrom(logs, p.logFile) && p.imm.value !! LogsFrom(logs, p.logFile)
      && DisjointLogs(logs, p.logFile)
  {
    hide DisjointTables, TableEntries, LogsFrom, Ascends, VersionsInv, Replay, JobsInv;
  }

  lemma CommitFlushKeepsDisk(s: Store, s': Store)
    requires Inv(s) && CommitFlush(s, s')
    ensures DiskInv(s'.disk, s'.history + InflightEntries(s'.proc), s'.dropped)
    ensures ManifestOf(s'.disk).log == s.proc.logFile && ManifestOf(s'.disk).next == s.proc.next
    ensures ManifestOf(s'.disk).files == ManifestOf(s.disk).files + if s.proc.imm.value == {} then {}
            else {s.proc.flush.out}
  {
    hide Replay, ManifestOf, Apply, Ascends, VersionsInv, TableEntries, LogsFrom, DisjointTables, DisjointLogs;
    FlushedManifest(s, s');
    FlushedTables(s, s');
    FlushedLogs(s, s');
    assert s'.disk.tables == s.disk.tables && s'.disk.logs == s.disk.logs;
    assert Recovered(s'.disk) == Recovered(s.disk);
  }

  lemma CommitFlushKeepsInv(s: Store, s': Store)
    requires Inv(s) && CommitFlush(s, s')
    ensures Inv(s')
  {
    CommitFlushKeepsDisk(s, s');
  }

  lemma InstallFlushKeepsInv(s: Store, s': Store)
    requires Inv(s) && InstallFlush(s, s')
    ensures Inv(s')
  {
  }

  lemma CompactedEntries(t: map<nat, set<Entry>>, files: set<nat>, inputs: set<nat>, outputs: set<nat>)
    requires inputs <= files && files <= t.Keys && DisjointTables(t, files)
    requires outputs <= t.Keys && DisjointTables(t, outputs) && outputs !! files
    requires TableEntries(t, outputs) <= TableEntries(t, inputs)
    ensures TableEntries(t, files - inputs + outputs) == TableEntries(t,
            files) - (TableEntries(t, inputs) - TableEntries(t, outputs))
    ensures DisjointTables(t, files - inputs + outputs)
  {
    assert files == (files - inputs) + inputs;
    TablesUnion(t, files - inputs, inputs);
    TablesUnion(t, files - inputs, outputs);
    forall e | e in TableEntries(t, inputs) ensures e !in TableEntries(t, files - inputs) {
      var m :| m in inputs && m in t && e in t[m];
      assert forall n :: n in files - inputs ==> t[m] !! t[n];
    }
  }

  lemma CommitCompactionKeepsDisk(s: Store, s': Store, snapshot: nat)
    requires Inv(s) && CommitCompaction(s, s', snapshot)
    ensures DiskInv(s'.disk, s'.history + InflightEntries(s'.proc), s'.dropped)
    ensures ManifestOf(s'.disk) == ManifestState(ManifestOf(s.disk).files - s.proc.compaction.inputs +
            s.proc.compaction.outputs, ManifestOf(s.disk).log, s.proc.next, s.proc.last)
  {
    var p, d := s.proc, s.disk;
    var m, inputs, outputs := ManifestOf(d), p.compaction.inputs, p.compaction.outputs;
    var edit := Edit(Some(p.logNumber), Some(p.next), Some(p.last), inputs, outputs);
    ReplayAppend(d.manifests[d.current], edit);
    assert ManifestOf(s'.disk) == Apply(m, edit);
    CompactedEntries(d.tables, m.files, inputs, outputs);
    TablesUnion(d.tables, m.files - inputs, inputs);
    assert m.files == (m.files - inputs) + inputs;
  }

  lemma CommitCompactionKeepsInv(s: Store, s': Store, snapshot: nat)
    requires Inv(s) && CommitCompaction(s, s', snapshot)
    ensures Inv(s')
  {
    CommitCompactionKeepsDisk(s, s', snapshot);
  }

  lemma InstallCompactionKeepsInv(s: Store, s': Store)
    requires Inv(s) && InstallCompaction(s, s')
    ensures Inv(s')
  {
  }

  lemma PinKeepsInv(s: Store, s': Store)
    requires Inv(s) && PinVersion(s, s')
    ensures Inv(s')
  {
  }

  lemma UnpinKeepsInv(s: Store, s': Store, v: set<nat>)
    requires Inv(s) && UnpinVersion(s, s', v)
    ensures Inv(s')
  {
  }

  lemma DeleteLogKeepsInv(s: Store, s': Store, n: nat)
    requires Inv(s) && s.proc.Running? && s.proc.flush.NoFlush? && !s.proc.compaction.Committed?
    requires !KeepLog(s.proc, n) && s' == s.(disk := s.disk.(logs := s.disk.logs - {n}))
    ensures Inv(s')
  {
    hide Replay, DisjointLogs, DisjointTables, TableEntries, LogsFrom, Ascends;
    LogsAfterDelete(s.disk.logs, n, ManifestOf(s.disk).log);
    LogsAfterDelete(s.disk.logs, n, s.proc.logFile);
  }

  lemma DeleteTableKeepsInv(s: Store, s': Store, n: nat)
    requires Inv(s) && s.proc.Running? && s.proc.flush.NoFlush? && !s.proc.compaction.Committed?
    requires !KeepTable(s.proc, n) && s' == s.(disk := s.disk.(tables := s.disk.tables - {n}))
    ensures Inv(s')
  {
    hide Replay, DisjointLogs, DisjointTables, TableEntries, LogsFrom, Ascends;
    TablesSame(s.disk.tables, s'.disk.tables, ManifestOf(s.disk).files);
  }

  /** DeleteObsoleteFiles removes nothing that recovery, a live version or a pending output needs. */
  lemma DeleteObsoleteKeepsInv(s: Store, s': Store)
    requires Inv(s) && DeleteObsolete(s, s')
    ensures Inv(s')
  {
    hide Replay, DisjointLogs, DisjointTables, TableEntries, LogsFrom, Ascends;
    if n :| !KeepLog(s.proc, n) && s' == s.(disk := s.disk.(logs := s.disk.logs - {n})) {
      DeleteLogKeepsInv(s, s', n);
    } else if n :| !KeepTable(s.proc, n) && s' == s.(disk := s.disk.(tables := s.disk.tables - {n})) {
      DeleteTableKeepsInv(s, s', n);
    } else {
      var n :| !KeepManifest(s.proc, n) && s' == s.(disk := s.disk.(manifests := s.disk.manifests - {n}));
      assert s.disk.current != n;
    }
  }

  /** What is not needed may be removed: older logs and manifests, and tables that nothing refers to. */
  lemma ObsoleteMayGo(s: Store, n: nat)
    requires s.proc.Running? && s.proc.flush.NoFlush? && !s.proc.compaction.Committed?
    ensures 0 < n < s.proc.logNumber ==> DeleteObsolete(s, s.(disk := s.disk.(logs := s.disk.logs - {n})))
    ensures n < s.proc.manifest ==> DeleteObsolete(s, s.(disk := s.disk.(manifests := s.disk.manifests - {n})))
    ensures (s.proc.compaction.Working? ==> n !in s.proc.compaction.outputs) && n !in s.proc.version
            && (forall v :: v in s.proc.pinned ==> n !in v)
            ==> DeleteObsolete(s, s.(disk := s.disk.(tables := s.disk.tables - {n})))
  {
    if 0 < n < s.proc.logNumber {
      assert !KeepLog(s.proc, n);
    }
    if n < s.proc.manifest {
      assert !KeepManifest(s.proc, n);
    }
    if n !in Pending(s.proc) && n !in s.proc.version && forall v :: v in s.proc.pinned ==> n !in v {
      assert !KeepTable(s.proc, n);
    }
  }

  lemma StopKeepsInv(s: Store, s': Store)
    requires Inv(s) && Stop(s, s')
    ensures Inv(s')
  {
  }

  lemma OpenManifestKeepsInv(s: Store, s': Store)
    requires Inv(s) && OpenManifest(s, s')
    ensures Inv(s')
  {
    var d, m := s.disk, ManifestOf(s.disk);
    assert TableEntries(d.tables, {}) == {};
    assert LogsFrom(d.logs, m.log) == set n, e | n in s'.proc.todo && e in LogEntries(d.logs[n]) :: e;
  }

  lemma RecoverLogKeepsDisk(s: Store, s': Store, n: nat, tables: map<nat, set<Entry>>)
    requires Inv(s) && RecoverLog(s, s', n, tables)
    ensures DiskInv(s'.disk, s'.history + InflightEntries(s'.proc), s'.dropped)
  {
    hide Replay, DisjointLogs, DisjointTables, TableEntries, LogsFrom, LogEntries, Ascends;
    TablesSame(s.disk.tables, s'.disk.tables, s.proc.m.files);
  }

  /** The tables of one log join those recovered so far. */
  lemma RecoveredTables(s: Store, s': Store, n: nat, tables: map<nat, set<Entry>>)
    requires Inv(s) && RecoverLog(s, s', n, tables)
    ensures TableEntries(s'.disk.tables, s'.proc.added) == TableEntries(s.disk.tables, s.proc.added) +
            LogEntries(s.disk.logs[n])
    ensures DisjointTables(s'.disk.tables, s'.proc.added)
  {
    hide Replay, ManifestOf, DiskInv, DisjointLogs, LogsFrom, LogEntries, Ascends;
    var p, d, t' := s.proc, s.disk, s'.disk.tables;
    TablesSame(d.tables, t', p.added);
    TablesSame(tables, t', tables.Keys);
    TablesUnion(t', p.added, tables.Keys);
  }

  lemma LogsToDo(s: Store, n: nat)
    requires Inv(s) && s.proc.Recovering? && n in s.proc.todo
    ensures forall x :: x in s.proc.todo && x != n ==> LogEntries(s.disk.logs[x]) !! LogEntries(s.disk.logs[n])
  {
    hide Replay, DisjointTables, TableEntries, LogsFrom, LogEntries, Ascends;
  }

  lemma RecoverLogKeepsInv(s: Store, s': Store, n: nat, tables: map<nat, set<Entry>>)
    requires Inv(s) && RecoverLog(s, s', n, tables)
    ensures Inv(s')
  {
    hide Replay, DiskInv, DisjointLogs, DisjointTables, TableEntries, LogsFrom, LogEntries, Ascends;
    RecoverLogKeepsDisk(s, s', n, tables);
    RecoveredTables(s, s', n, tables);
    LogsToDo(s, n);
    RecoveringHasManifest(s);
  }

  lemma RecoveringHasManifest(s: Store)
    requires Inv(s) && s.proc.Recovering?
    ensures s.disk.current in s.disk.manifests && s.proc.todo <= s.disk.logs.Keys
  {
  }

  lemma ScratchTableKeepsInv(s: Store, s': Store, n: nat, es: set<Entry>)
    requires Inv(s) && ScratchTable(s, s', n, es)
    ensures Inv(s')
  {
    TablesSame(s.disk.tables, s'.disk.tables, s.proc.m.files);
    TablesSame(s.disk.tables, s'.disk.tables, s.proc.added);
  }

  lemma CreateLogKeepsInv(s: Store, s': Store)
    requires Inv(s) && CreateLog(s, s')
    ensures Inv(s')
  {
    LogsAfterCreate(s.disk.logs, s.proc.next, s.proc.m.log);
  }

  lemma WriteManifestKeepsInv(s: Store, s': Store)
    requires Inv(s) && WriteManifest(s, s')
    ensures Inv(s')
  {
  }

  lemma SwitchCurrentKeepsInv(s: Store, s': Store)
    requires Inv(s) && SwitchCurrent(s, s')
    ensures Inv(s')
  {
    var p, d := s.proc, s.disk;
    var edits := NewManifest(p);
    ReplayAppend([edits[0]], edits[1]);
    ReplayAppend([], edits[0]);
    assert [] + [edits[0]] == [edits[0]] && [edits[0]] + [edits[1]] == edits;
    var m' := ManifestOf(s'.disk);
    assert m' == ManifestState(p.m.files + p.added, p.newLog.value, p.next, p.last);
    TablesUnion(d.tables, p.m.files, p.added);
    assert LogEntries([]) == {};
    assert LogsFrom(d.logs, p.newLog.value) == {};
  }

  // ---------------------------------------------------------------- runs

  lemma InitInv(s: Store)
    requires Init(s)
    ensures Inv(s)
  {
    var edit := Edit(Some(0), Some(2), Some(0), {}, {});
    ReplayAppend([], edit);
    assert [] + [edit] == [edit];
    assert ManifestOf(s.disk) == ManifestState({}, 0, 2, 0);
    assert TableEntries(map[], {}) == {} && LogsFrom(map[], 0) == {};
  }

  lemma StepKeepsInv(s: Store, s': Store)
    requires Inv(s) && Next(s, s')
    ensures Inv(s')
  {
    if ops :| AppendLog(s, s', ops) {
      AppendLogKeepsInv(s, s', ops);
    } else if InsertMem(s, s') {
      InsertMemKeepsInv(s, s');
    } else if SwitchLog(s, s') {
      SwitchLogKeepsInv(s, s');
    } else if StartFlush(s, s') {
      StartFlushKeepsInv(s, s');
    } else if inputs, outputs, next :| StartCompaction(s, s', inputs, outputs, next) {
      StartCompactionKeepsInv(s, s', inputs, outputs, next);
    } else if n, es :| WriteTable(s, s', n, es) {
      WriteTableKeepsInv(s, s', n, es);
    } else if CommitFlush(s, s') {
      CommitFlushKeepsInv(s, s');
    } else if InstallFlush(s, s') {
      InstallFlushKeepsInv(s, s');
    } else if snapshot :| CommitCompaction(s, s', snapshot) {
      CommitCompactionKeepsInv(s, s', snapshot);
    } else if InstallCompaction(s, s') {
      InstallCompactionKeepsInv(s, s');
    } else if PinVersion(s, s') {
      PinKeepsInv(s, s');
    } else if v :| UnpinVersion(s, s', v) {
      UnpinKeepsInv(s, s', v);
    } else if DeleteObsolete(s, s') {
      DeleteObsoleteKeepsInv(s, s');
    } else if Stop(s, s') {
      StopKeepsInv(s, s');
    } else {
      OpeningStepKeepsInv(s, s');
    }
  }

  lemma OpeningStepKeepsInv(s: Store, s': Store)
    requires Inv(s)
    requires OpenManifest(s, s') || (exists n, tables :: RecoverLog(s, s', n, tables))
             || (exists n, es :: ScratchTable(s, s', n, es))
          || CreateLog(s, s') || WriteManifest(s, s') || SwitchCurrent(s, s')
    ensures Inv(s')
  {
    if OpenManifest(s, s') {
      OpenManifestKeepsInv(s, s');
    } else if n, tables :| RecoverLog(s, s', n, tables) {
      RecoverLogKeepsInv(s, s', n, tables);
    } else if n, es :| ScratchTable(s, s', n, es) {
      ScratchTableKeepsInv(s, s', n, es);
    } else if CreateLog(s, s') {
      CreateLogKeepsInv(s, s');
    } else if WriteManifest(s, s') {
      WriteManifestKeepsInv(s, s');
    } else {
      SwitchCurrentKeepsInv(s, s');
    }
  }

  ghost predicate Run(states: seq<Store>) {
    && states != [] && Init(states[0])
    && forall i :: 0 < i < |states| ==> Next(states[i - 1], states[i])
  }

  lemma {:induction false} RunKeepsInv(states: seq<Store>)
    requires Run(states)
    ensures Inv(states[|states| - 1])
  {
    var n := |states| - 1;
    if n == 0 {
      InitInv(states[0]);
    } else {
      RunPrefix(states);
      RunKeepsInv(states[..n]);
      StepKeepsInv(states[n - 1], states[n]);
    }
  }

  lemma RunPrefix(states: seq<Store>)
    requires Run(states) && |states| > 1
    ensures Run(states[..|states| - 1])
    ensures Next(states[|states| - 2], states[|states| - 1])
  {
  }

  /**
   Wherever the process stops, the disk holds every acknowledged write that no compaction
   dropped, and besides those only the batch that was on its way; no table the manifest names
   is missing; and sequence numbers resume above all of them. Module RecoveryReads shows what
   that is worth to a reader.
   */
  lemma RecoveredIs(states: seq<Store>)
    requires Run(states)
    ensures var s := states[|states| - 1];
      && s.disk.current in s.disk.manifests
      && Recovered(s.disk) == s.history + InflightEntries(s.proc) - s.dropped
      && ManifestOf(s.disk).files <= s.disk.tables.Keys
      && forall e :: e in s.history + InflightEntries(s.proc) ==>
         e.key.seqno <= ManifestOf(s.disk).last || e in LogsFrom(s.disk.logs, ManifestOf(s.disk).log)
  {
    RunKeepsInv(states);
  }

  /** While it runs, memtables and the installed version hold the same, and every pinned version keeps its tables. */
  lemma ReadersSeeEverything(states: seq<Store>)
    requires Run(states) && states[|states| - 1].proc.Running?
    ensures var s := states[|states| - 1];
      && (!s.proc.flush.FlushCommitted? && !s.proc.compaction.Committed? ==>
            TableEntries(s.disk.tables, s.proc.version) + (if s.proc.imm.Some? then s.proc.imm.value else {}) +
              s.proc.mem == s.history - s.dropped)
      && s.proc.version <= s.disk.tables.Keys
      && forall v :: v in s.proc.pinned ==> v <= s.disk.tables.Keys
  {
    var s := states[|states| - 1];
    RunKeepsInv(states);
    BatchOutsideHistory(s);
  }

  lemma BatchOutsideHistory(s: Store)
    requires Inv(s) && s.proc.Running?
    ensures InflightEntries(s.proc) !! s.history
  {
    if s.proc.inflight.Some? {
      BatchIsFresh(s.proc.inflight.value, s.proc.last, s.history);
    }
  }

  // ---------------------------------------------------------------- the replay loop

  lemma LogPrefix(log: seq<Record>, i: nat)
    requires i < |log|
    ensures LogEntries(log[..i + 1]) == LogEntries(log[..i]) + RecordEntries(log[i])
  {
    assert log[..i + 1] == log[..i] + [log[i]];
    LogAppend(log[..i], log[i]);
  }

  /** Records of an ascending log share no entry. */
  lemma PrefixBelow(log: seq<Record>, i: nat)
    requires Ascends(log) && i < |log|
    ensures LogEntries(log[..i]) !! RecordEntries(log[i]) && AllNewer(RecordEntries(log[i]), LogEntries(log[..i]))
  {
  }

  function Insert(ops: seq<Op>, first: nat): (es: set<Entry>)
    ensures es == BatchEntries(ops, first)
  {
    set i | 0 <= i < |ops| :: Entry(IKey(ops[i].ukey, first + i, ops[i].kind), ops[i].value)
  }

  /** RecoverLogFile: the memtable goes to a new level-0 table, if not empty, whenever it fills up and at the end. */
  method RecoverLogFile(log: seq<Record>, nextFile: nat, maxSequence: nat)
      returns (tables: map<nat, set<Entry>>, next: nat, last: nat)
    requires Ascends(log)
    ensures next >= nextFile && forall x :: x in tables ==> nextFile <= x < next
    ensures DisjointTables(tables, tables.Keys) && TableEntries(tables, tables.Keys) == LogEntries(log)
    ensures TablesAscend(tables)
    ensures last >= maxSequence && forall e :: e in LogEntries(log) ==> e.key.seqno <= last
  {
    hide DisjointTables, TableEntries, TablesAscend, LogEntries, AllNewer, Ascends;
    tables, next, last := map[], nextFile, maxSequence;
    var mem: set<Entry> := {};
    NoTables(tables, log);
    for i := 0 to |log|
      invariant next >= nextFile && forall x :: x in tables ==> nextFile <= x < next
      invariant DisjointTables(tables, tables.Keys) && mem !! TableEntries(tables, tables.Keys)
      invariant TablesAscend(tables) && AllNewer(mem, TableEntries(tables, tables.Keys))
      invariant TableEntries(tables, tables.Keys) + mem == LogEntries(log[..i])
      invariant last >= maxSequence && forall e :: e in LogEntries(log[..i]) ==> e.key.seqno <= last
    {
      LogPrefix(log, i);
      PrefixBelow(log, i);
      NewerThanMore(mem, RecordEntries(log[i]), TableEntries(tables, tables.Keys));
      mem := mem + Insert(log[i].ops, log[i].first);
      if log[i].first + |log[i].ops| - 1 > last {
        last := log[i].first + |log[i].ops| - 1;
      }
      var full: bool := *;
      if full {
        if mem != {} {
          AddTable(tables, next, mem);
          tables := tables[next := mem];
        }
        next, mem := next + 1, {};
        NothingIsNewer(TableEntries(tables, tables.Keys));
      }
    }
    assert log[..|log|] == log;
    if mem != {} {
      AddTable(tables, next, mem);
      tables, next := tables[next := mem], next + 1;
    }
  }

  lemma NoTables(tables: map<nat, set<Entry>>, log: seq<Record>)
    requires tables == map[]
    ensures TableEntries(tables, tables.Keys) == {} == LogEntries(log[..0]) && DisjointTables(tables, tables.Keys)
    ensures TablesAscend(tables) && AllNewer({}, {})
  {
  }

  lemma NothingIsNewer(es: set<Entry>)
    ensures AllNewer({}, es)
  {
  }

  lemma NewerThanMore(mem: set<Entry>, added: set<Entry>, tables: set<Entry>)
    requires AllNewer(mem, tables) && AllNewer(added, tables + mem)
    ensures AllNewer(mem + added, tables)
  {
  }

  lemma AddTable(tables: map<nat, set<Entry>>, n: nat, es: set<Entry>)
    requires es != {} && (forall m :: m in tables ==> m < n) && DisjointTables(tables, tables.Keys)
    requires es !! TableEntries(tables, tables.Keys)
    requires TablesAscend(tables) && AllNewer(es, TableEntries(tables, tables.Keys))
    ensures DisjointTables(tables[n := es], tables[n := es].Keys) && TablesAscend(tables[n := es])
    ensures TableEntries(tables[n := es], tables[n := es].Keys) == TableEntries(tables, tables.Keys) + es
  {
    var t := tables[n := es];
    assert t.Keys == tables.Keys + {n};
    TablesSame(tables, t, tables.Keys);
    TablesUnion(t, tables.Keys, {n});
    assert TableEntries(t, {n}) == es;
    forall m | m in tables ensures AllNewer(es, tables[m]) {
      forall e | e in tables[m] ensures e in TableEntries(tables, tables.Keys) {
      }
    }
  }
}
