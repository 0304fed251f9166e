/**
 Where recovery puts what it reads from the logs (db/db_impl.cc, RecoverLogFile): into level-0
 tables, later entries under higher numbers. So the version that is opened has its levels in
 order and newer entries above older ones, and lookups in it answer right from the start.
 */
module RecoveryLevels {
  import opened Config
  import opened DbFormat
  import opened Options
  import opened VersionSet
  import opened Lookup
  import opened Compaction
  import opened Lsm
  import opened RecoveryReads
  import R = Recovery

  /** Of the logs from `min` on, later ones hold newer entries. */
  ghost predicate LogsInOrder(logs: map<nat, seq<R.Record>>, min: nat) {
    forall m, n :: m in logs && n in logs && min <= m < n ==> AllNewer(R.LogEntries(logs[n]), R.LogEntries(logs[m]))
  }

  /** Of some tables, those with higher numbers hold newer entries, and none is empty. */
  ghost predicate TablesInOrder(tables: map<nat, set<Entry>>, files: set<nat>) {
    && (forall n :: n in files && n in tables ==> tables[n] != {})
    && forall m, n :: m in files && n in files && m in tables && n in tables && m < n ==> AllNewer(tables[n], tables[m])
  }

  /** The logs still to be replayed are newer than the tables added so far. */
  ghost predicate ToDoIsNewer(s: R.Store)
    requires s.proc.Recovering?
  {
    forall n :: n in s.proc.todo && n in s.disk.logs ==>
      AllNewer(R.LogEntries(s.disk.logs[n]), R.TableEntries(s.disk.tables, s.proc.added))
  }

  ghost predicate InOrder(s: R.Store) {
    && s.disk.current in s.disk.manifests && LogsInOrder(s.disk.logs, R.ManifestOf(s.disk).log)
    && (s.proc.Recovering? ==> TablesInOrder(s.disk.tables, s.proc.added) && ToDoIsNewer(s))
  }

  // ---------------------------------------------------------------- logs

  /** Logs are left alone, or emptied, or there are fewer of them. */
  lemma FewerLogsInOrder(logs: map<nat, seq<R.Record>>, min: nat, logs': map<nat, seq<R.Record>>, min': nat)
    requires LogsInOrder(logs, min)
    requires forall n :: n in logs' && n >= min' ==> (n in logs && n >= min && logs'[n] == logs[n]) || logs'[n] == []
    ensures LogsInOrder(logs', min')
  {
    assert R.LogEntries([]) == {};
  }

  lemma AppendKeepsOrder(s: R.Store, s': R.Store, ops: seq<Op>)
    requires R.Inv(s) && InOrder(s) && R.AppendLog(s, s', ops)
    ensures InOrder(s')
  {
    hide R.RecordEntries, R.DisjointLogs, R.DisjointTables, R.TableEntries, R.Ascends, R.LogEntries;
    var p, logs, min := s.proc, s.disk.logs, R.ManifestOf(s.disk).log;
    var r := R.Record(p.last + 1, ops);
    R.LogAppend(logs[p.logFile], r);
    R.BatchIsFresh(r, p.last, s.history);
    forall m | m in logs && min <= m < p.logFile ensures AllNewer(R.RecordEntries(r), R.LogEntries(logs[m])) {
      forall e | e in R.LogEntries(logs[m]) ensures e.key.seqno <= p.last {
        assert e in R.LogsFrom(logs, min);
      }
    }
  }

  lemma CommitFlushMovesLog(s: R.Store, s': R.Store)
    requires R.Inv(s) && R.CommitFlush(s, s')
    ensures s'.disk.current in s'.disk.manifests && R.ManifestOf(s'.disk).log >= R.ManifestOf(s.disk).log
    ensures s'.disk.logs == s.disk.logs
  {
    hide R.DisjointLogs, R.DisjointTables, R.TableEntries, R.LogsFrom, R.Ascends, R.RecordEntries;
    var n, p := s.proc.flush.out, s.proc;
    R.ReplayAppend(s.disk.manifests[p.manifest], R.Edit(Some(p.logFile), Some(p.next), Some(p.last), {},
      if p.imm.value == {} then {} else {n}));
  }

  lemma CommitCompactionKeepsLog(s: R.Store, s': R.Store, snapshot: nat)
    requires R.Inv(s) && R.CommitCompaction(s, s', snapshot)
    ensures s'.disk.current in s'.disk.manifests && R.ManifestOf(s'.disk).log >= R.ManifestOf(s.disk).log
    ensures s'.disk.logs == s.disk.logs
  {
    hide R.DisjointLogs, R.DisjointTables, R.TableEntries, R.LogsFrom, R.Ascends, R.RecordEntries, R.MayReplace;
    var p := s.proc;
    R.ReplayAppend(s.disk.manifests[p.manifest], R.Edit(Some(p.logNumber), Some(p.next), Some(p.last),
      p.compaction.inputs, p.compaction.outputs));
  }

  lemma SwitchCurrentMovesLog(s: R.Store, s': R.Store)
    requires R.Inv(s) && R.SwitchCurrent(s, s')
    ensures s'.disk.current in s'.disk.manifests && s'.disk.logs == s.disk.logs
    ensures forall n :: n in s.disk.logs && n >= R.ManifestOf(s'.disk).log ==> s.disk.logs[n] == []
  {
    hide R.DiskInv, R.TableEntries, R.DisjointTables, R.DisjointLogs, R.Ascends;
    var p := s.proc;
    var edits := R.NewManifest(p);
    R.ReplayAppend([edits[0]], edits[1]);
    R.ReplayAppend([], edits[0]);
    assert [] + [edits[0]] == [edits[0]] && [edits[0]] + [edits[1]] == edits;
    assert R.ManifestOf(s'.disk) == R.ManifestState(p.m.files + p.added, p.newLog.value, p.next, p.last);
  }

  /** Steps that commit nothing leave the current manifest, and add at most an empty log. */
  ghost predicate CommitsNothing(s: R.Store, s': R.Store) {
    && s.disk.current in s.disk.manifests && s'.disk.current in s'.disk.manifests
    && R.ManifestOf(s'.disk) == R.ManifestOf(s.disk)
    && forall n :: n in s'.disk.logs ==>
         (n in s.disk.logs && s'.disk.logs[n] == s.disk.logs[n]) || s'.disk.logs[n] == []
  }

  lemma RunningStepCommitsNothing(s: R.Store, s': R.Store)
    requires R.Inv(s)
    requires R.InsertMem(s, s') || R.SwitchLog(s, s') || R.StartFlush(s, s') || R.InstallFlush(s, s')
             || R.InstallCompaction(s, s') || R.PinVersion(s, s') || R.DeleteObsolete(s, s') || R.Stop(s, s')
             || (exists inputs, outputs, next :: R.StartCompaction(s, s', inputs, outputs, next))
             || (exists n, es :: R.WriteTable(s, s', n, es)) || (exists v :: R.UnpinVersion(s, s', v))
    ensures CommitsNothing(s, s') && !s'.proc.Recovering?
  {
    hide R.DisjointLogs, R.DisjointTables, R.TableEntries, R.LogsFrom, R.Ascends, R.RecordEntries, R.LogsInv,
        R.VersionsInv, R.JobsInv;
  }

  lemma OpeningStepCommitsNothing(s: R.Store, s': R.Store)
    requires R.Inv(s)
    requires R.OpenManifest(s, s') || (exists n, tables :: R.RecoverLog(s, s', n, tables))
             || (exists n, es :: R.ScratchTable(s, s', n, es)) || R.CreateLog(s, s') || R.WriteManifest(s, s')
    ensures CommitsNothing(s, s')
  {
    hide R.DisjointLogs, R.DisjointTables, R.TableEntries, R.LogsFrom, R.Ascends, R.RecordEntries, R.TablesAscend;
  }

  lemma NothingMovesLogs(s: R.Store, s': R.Store)
    requires InOrder(s) && CommitsNothing(s, s')
    ensures LogsInOrder(s'.disk.logs, R.ManifestOf(s'.disk).log)
  {
    FewerLogsInOrder(s.disk.logs, R.ManifestOf(s.disk).log, s'.disk.logs, R.ManifestOf(s'.disk).log);
  }

  // ---------------------------------------------------------------- tables recovered so far

  lemma OpenStartsInOrder(s: R.Store, s': R.Store)
    requires R.OpenManifest(s, s')
    ensures TablesInOrder(s'.disk.tables, s'.proc.added) && ToDoIsNewer(s')
  {
    assert R.TableEntries(s'.disk.tables, {}) == {};
  }

  /** The tables of one log go on top of those of the logs before. */
  lemma RecoverLogKeepsOrder(s: R.Store, s': R.Store, n: nat, tables: map<nat, set<Entry>>)
    requires R.Inv(s) && InOrder(s) && R.RecoverLog(s, s', n, tables)
    ensures TablesInOrder(s'.disk.tables, s'.proc.added) && ToDoIsNewer(s')
  {
    hide R.DiskInv, R.DisjointLogs, R.DisjointTables, R.LogsFrom, R.LogEntries, R.Ascends, AllNewer, R.TableEntries;
    R.RecoveringHasManifest(s);
    R.RecoveredTables(s, s', n, tables);
    var p, old_, all := s.proc, s.disk.tables, s'.disk.tables;
    forall x, y | x in s'.proc.added && y in s'.proc.added && x in all && y in all && x < y
      ensures AllNewer(all[y], all[x])
    {
      if x in p.added && y in tables {
        PartsAreNewer(R.LogEntries(s.disk.logs[n]), R.TableEntries(old_, p.added), all[y], all[x]) by {
          TableIsPart(tables, tables.Keys, y);
          TableIsPart(old_, p.added, x);
        }
      }
    }
    forall k | k in s'.proc.todo && k in s'.disk.logs
      ensures AllNewer(R.LogEntries(s'.disk.logs[k]), R.TableEntries(all, s'.proc.added))
    {
      NewerThanBoth(R.LogEntries(s.disk.logs[k]), R.TableEntries(old_, p.added), R.LogEntries(s.disk.logs[n]));
    }
  }

  lemma PartsAreNewer(a: set<Entry>, b: set<Entry>, c: set<Entry>, d: set<Entry>)
    requires AllNewer(a, b) && c <= a && d <= b
    ensures AllNewer(c, d)
  {
  }

  lemma TableIsPart(tables: map<nat, set<Entry>>, files: set<nat>, n: nat)
    requires n in files && n in tables
    ensures tables[n] <= R.TableEntries(tables, files)
  {
  }

  lemma ScratchKeepsOrder(s: R.Store, s': R.Store, n: nat, es: set<Entry>)
    requires R.Inv(s) && InOrder(s) && R.ScratchTable(s, s', n, es)
    ensures TablesInOrder(s'.disk.tables, s'.proc.added) && ToDoIsNewer(s')
  {
    hide R.DiskInv, R.DisjointLogs, R.DisjointTables, R.LogsFrom, R.LogEntries, R.Ascends, AllNewer, R.TableEntries;
    R.TablesSame(s.disk.tables, s'.disk.tables, s.proc.added);
  }

  lemma NewLogKeepsOrder(s: R.Store, s': R.Store)
    requires R.Inv(s) && InOrder(s) && (R.CreateLog(s, s') || R.WriteManifest(s, s'))
    ensures TablesInOrder(s'.disk.tables, s'.proc.added) && ToDoIsNewer(s')
  {
    hide R.DiskInv, R.DisjointLogs, R.DisjointTables, R.LogsFrom, R.LogEntries, R.Ascends, AllNewer, R.TableEntries;
  }

  // ---------------------------------------------------------------- runs

  lemma OpeningStepKeepsOrder(s: R.Store, s': R.Store)
    requires R.Inv(s) && InOrder(s)
    requires R.OpenManifest(s, s') || (exists n, tables :: R.RecoverLog(s, s', n, tables))
             || (exists n, es :: R.ScratchTable(s, s', n, es)) || R.CreateLog(s, s') || R.WriteManifest(s, s')
    ensures InOrder(s')
  {
    hide R.Inv, R.OpenManifest, R.RecoverLog, R.ScratchTable, R.CreateLog, R.WriteManifest, LogsInOrder, TablesInOrder,
        ToDoIsNewer;
    OpeningStepCommitsNothing(s, s');
    NothingMovesLogs(s, s');
    if R.OpenManifest(s, s') {
      OpenStartsInOrder(s, s');
    } else if n, tables :| R.RecoverLog(s, s', n, tables) {
      RecoverLogKeepsOrder(s, s', n, tables);
    } else if n, es :| R.ScratchTable(s, s', n, es) {
      ScratchKeepsOrder(s, s', n, es);
    } else {
      NewLogKeepsOrder(s, s');
    }
  }

  lemma CommitKeepsOrder(s: R.Store, s': R.Store)
    requires R.Inv(s) && InOrder(s)
    requires R.CommitFlush(s, s') || (exists snapshot :: R.CommitCompaction(s, s', snapshot)) || R.SwitchCurrent(s, s')
    ensures InOrder(s')
  {
    hide R.Inv, LogsInOrder, TablesInOrder, ToDoIsNewer, R.MayReplace;
    if R.CommitFlush(s, s') {
      CommitFlushMovesLog(s, s');
    } else if snapshot :| R.CommitCompaction(s, s', snapshot) {
      CommitCompactionKeepsLog(s, s', snapshot);
    } else {
      SwitchCurrentMovesLog(s, s');
    }
    FewerLogsInOrder(s.disk.logs, R.ManifestOf(s.disk).log, s'.disk.logs, R.ManifestOf(s'.disk).log);
  }

  lemma StepKeepsOrder(s: R.Store, s': R.Store)
    requires R.Inv(s) && InOrder(s) && R.Next(s, s')
    ensures InOrder(s')
  {
    hide R.Inv, LogsInOrder, TablesInOrder, ToDoIsNewer, R.AppendLog, R.CommitFlush, R.CommitCompaction,
        R.SwitchCurrent, R.SwitchLog, R.CreateLog, R.DeleteObsolete, R.WriteTable, R.ScratchTable, R.RecoverLog,
        R.InsertMem, R.StartFlush, R.StartCompaction, R.InstallFlush, R.InstallCompaction, R.PinVersion, R.UnpinVersion,
        R.Stop, R.OpenManifest, R.WriteManifest;
    if ops :| R.AppendLog(s, s', ops) {
      AppendKeepsOrder(s, s', ops);
    } else if R.CommitFlush(s, s') || (exists snapshot :: R.CommitCompaction(s, s', snapshot))
      || R.SwitchCurrent(s, s')
    {
      CommitKeepsOrder(s, s');
    } else if R.OpenManifest(s, s') || (exists n, tables :: R.RecoverLog(s, s', n, tables))
      || (exists n, es :: R.ScratchTable(s, s', n, es)) || R.CreateLog(s, s') || R.WriteManifest(s, s')
    {
      OpeningStepKeepsOrder(s, s');
    } else {
      RunningStepCommitsNothing(s, s');
      NothingMovesLogs(s, s');
    }
  }

  /** In every run, with crashes at any step, later logs and recovered tables hold newer entries. */
  lemma {:induction false} RunKeepsOrder(states: seq<R.Store>)
    requires R.Run(states)
    ensures InOrder(states[|states| - 1])
    decreases |states|
  {
    hide R.Next, InOrder, R.Inv;
    var n := |states| - 1;
    if n == 0 {
      InitInOrder(states[0]);
    } else {
      R.RunPrefix(states);
      RunKeepsOrder(states[..n]);
      R.RunKeepsInv(states[..n]);
      StepKeepsOrder(states[n - 1], states[n]);
    }
  }

  lemma InitInOrder(s: R.Store)
    requires R.Init(s)
    ensures InOrder(s)
  {
  }

  // ---------------------------------------------------------------- the version that is opened

  /** `v'` is `v` with the recovered tables at level 0. */
  ghost predicate Reopens(v: Version, v': Version, files: seq<File>) {
    |v| == NUM_LEVELS && VersionEdited(v, v', 0, {}, {}, files, [])
  }

  lemma ReopenedFiles(v: Version, v': Version, files: seq<File>)
    requires Reopens(v, v', files)
    ensures |v'| == NUM_LEVELS
    ensures forall l, f {:trigger f in v'[l]} :: 0 <= l < NUM_LEVELS ==>
              (f in v'[l] <==> f in v[l] || (l == 0 && f in files))
  {
  }

  lemma ReopenedIsValid(v: Version, v': Version, files: seq<File>)
    requires ValidVersion(v) && Reopens(v, v', files)
    ensures ValidVersion(v')
  {
    RemoveKeepsOrder(v[1], {}, v'[1]);
  }

  lemma ReopenedIsRecent(v: Version, v': Version, files: seq<File>, next: nat)
    requires Reopens(v, v', files) && Recent(v) && UniqueNumbers(v, next)
    requires forall f :: f in files ==> f.number >= next && AllNewer(Contents(f), VersionEntries(v))
    requires forall f, g :: f in files && g in files && f.number > g.number ==> NewerThan(f, g)
    requires forall f, g :: f in files && g in files && f.number == g.number ==> f == g
    ensures Recent(v')
  {
    hide AllNewer;
    ReopenedFiles(v, v', files);
    forall l, m, a, b | 0 <= l < m < |v'| && a in v'[l] && b in v'[m] ensures NewerThan(a, b) {
      if !(a in v[l]) {
        NewerThanLevel(Contents(a), v, a, b, m);
      }
    }
    forall a, b | a in v'[0] && b in v'[0] && a.number > b.number ensures NewerThan(a, b) {
      if a in files && b in v[0] {
        NewerThanLevel(Contents(a), v, a, b, 0);
      }
    }
    forall a, b | a in v'[0] && b in v'[0] && a != b ensures a.number != b.number {
    }
  }

  lemma ReopenedNumbers(v: Version, v': Version, files: seq<File>, next: nat, next': nat)
    requires Reopens(v, v', files) && UniqueNumbers(v, next) && next <= next'
    requires forall f :: f in files ==> next <= f.number < next'
    requires forall f, g :: f in files && g in files && f.number == g.number ==> f == g
    ensures UniqueNumbers(v', next')
  {
    ReopenedFiles(v, v', files);
    forall l, m, f, g | 0 <= l < |v'| && 0 <= m < |v'| && f in v'[l] && g in v'[m] && f.number == g.number
      ensures l == m && f == g
    {
      assert f in v[l] || f in files;
      assert g in v[m] || g in files;
    }
  }

  lemma ReopenedHolds(tables: map<nat, set<Entry>>, v: Version, v': Version, files: seq<File>)
    requires Reopens(v, v', files) && HoldsVersion(tables, v) && Holds(tables, files)
    ensures HoldsVersion(tables, v') && FilesOf(v') == FilesOf(v) + Numbers(files)
  {
    ReopenedFiles(v, v', files);
    forall l | 0 <= l < |v'| ensures Holds(tables, v'[l]) {
      assert Holds(tables, v[l]);
    }
    forall n ensures n in FilesOf(v') <==> n in FilesOf(v) + Numbers(files) {
      if l, f :| 0 <= l < |v'| && f in v'[l] && f.number == n {
        assert f in v[l] || f in files;
      }
      if l, f :| 0 <= l < |v| && f in v[l] && f.number == n {
        assert f in v'[l];
      }
      if f :| f in files && f.number == n {
        assert f in v'[0];
      }
    }
  }

  /** The files are the tables that recovery has added, and `v` is the version of the manifest. */
  ghost predicate FoundOnDisk(s: R.Store, v: Version, files: seq<File>)
    requires s.proc.Recovering?
  {
    && ValidVersion(v) && Recent(v) && UniqueNumbers(v, s.proc.m.next)
    && FilesOf(v) == s.proc.m.files && HoldsVersion(s.disk.tables, v)
    && Numbers(files) == s.proc.added && Holds(s.disk.tables, files)
    && forall f, g :: f in files && g in files && f.number == g.number ==> f == g
  }

  lemma FoundIsNewer(s: R.Store, v: Version, files: seq<File>)
    requires RecoveryReads.Inv(s) && InOrder(s) && s.proc.Recovering? && s.proc.newLog.Some? && FoundOnDisk(s, v, files)
    ensures forall f :: f in files ==>
              s.proc.m.next <= f.number < s.proc.next && AllNewer(Contents(f), VersionEntries(v))
    ensures forall f, g :: f in files && g in files && f.number > g.number ==> NewerThan(f, g)
  {
    hide R.DiskInv, R.DisjointLogs, R.DisjointTables, R.TableEntries, R.Ascends, R.KeepsReads, UniqueVersions,
        R.ManifestOf, ValidVersion, Recent, UniqueNumbers, HoldsVersion, VersionEntries, FilesOf;
    TablesOfVersion(s.disk.tables, v);
    forall f | f in files
      ensures s.proc.m.next <= f.number < s.proc.next && AllNewer(Contents(f), VersionEntries(v))
    {
      assert f.number in Numbers(files);
      TableIsPart(s.disk.tables, s.proc.added, f.number);
      AddedComesFromLogs(s);
    }
    forall f, g | f in files && g in files && f.number > g.number ensures NewerThan(f, g) {
      assert f.number in Numbers(files) && g.number in Numbers(files);
      TablesNewer(s.disk.tables, f, g);
    }
  }

  lemma AddedComesFromLogs(s: R.Store)
    requires R.Inv(s) && s.proc.Recovering? && s.proc.newLog.Some?
    ensures s.disk.current in s.disk.manifests && R.TableEntries(s.disk.tables, s.proc.added) <= Logs(s.disk)
  {
  }

  lemma TablesNewer(tables: map<nat, set<Entry>>, f: File, g: File)
    requires f.number in tables && tables[f.number] == Contents(f)
    requires g.number in tables && tables[g.number] == Contents(g)
    requires AllNewer(tables[f.number], tables[g.number])
    ensures NewerThan(f, g)
  {
    forall e, e' | e in f.entries && e' in g.entries ensures e.key.seqno > e'.key.seqno {
      assert e in Contents(f) && e' in Contents(g);
    }
  }

  /** The store as it is opened: empty memtables over the version. */
  function Opened(s: R.Store, v: Version): State
    requires s.proc.Running?
  {
    State([], None, v, s.proc.last, multiset{}, s.proc.next, s.history, s.floor)
  }

  /**
   Wherever the process stopped: when the store is open again, with the recovered tables at
   level 0 of the version the manifest named, the store satisfies its invariant; so lookups
   answer from the whole history.
   */
  lemma ReopenedIsSound(states: seq<R.Store>, v: Version, files: seq<File>, v': Version)
    requires R.Run(states) && |states| > 1 && R.SwitchCurrent(states[|states| - 2], states[|states| - 1])
    requires FoundOnDisk(states[|states| - 2], v, files) && Reopens(v, v', files)
    requires states[|states| - 1].proc.last < MAX_SEQUENCE
    ensures Lsm.Inv(Opened(states[|states| - 1], v'))
  {
    hide R.Run, R.SwitchCurrent, FoundOnDisk, Reopens, WellFormed, Bounded, Faithful, RecoveryReads.Inv, InOrder;
    var n := |states| - 2;
    var s, s' := states[n], states[n + 1];
    BeforeLast(states);
    RecoveryReads.RunKeepsInv(states[..n + 1]);
    RecoveryReads.RunKeepsInv(states);
    RunKeepsOrder(states[..n + 1]);
    OpenedIsWellFormed(s, s', v, files, v');
    OpenedIsFaithful(s, s', v, files, v');
  }

  lemma BeforeLast(states: seq<R.Store>)
    requires R.Run(states) && |states| > 1
    ensures R.Run(states[..|states| - 1]) && states[..|states| - 1][|states| - 2] == states[|states| - 2]
  {
  }

  lemma OpenedIsWellFormed(s: R.Store, s': R.Store, v: Version, files: seq<File>, v': Version)
    requires RecoveryReads.Inv(s) && InOrder(s) && R.SwitchCurrent(s, s') && FoundOnDisk(s, v, files)
             && Reopens(v, v', files)
    ensures WellFormed(Opened(s', v'))
  {
    hide Reopens, ValidVersion, Recent, UniqueNumbers, RecoveryReads.Inv, InOrder, HoldsVersion, FilesOf, Numbers;
    SwitchNumbers(s, s');
    FoundIsNewer(s, v, files);
    ReopenedIsValid(v, v', files);
    ReopenedIsRecent(v, v', files, s.proc.m.next);
    ReopenedNumbers(v, v', files, s.proc.m.next, s.proc.next);
  }

  lemma SwitchNumbers(s: R.Store, s': R.Store)
    requires RecoveryReads.Inv(s) && R.SwitchCurrent(s, s')
    ensures s.proc.Recovering? && s.proc.newLog.Some? && s'.proc.Running? && s'.proc.next == s.proc.next
    ensures s.proc.m.next <= s.proc.next && s'.proc.last == s.proc.last
  {
  }

  lemma OpenedIsFaithful(s: R.Store, s': R.Store, v: Version, files: seq<File>, v': Version)
    requires RecoveryReads.Inv(s) && RecoveryReads.Inv(s') && R.SwitchCurrent(s, s') && FoundOnDisk(s, v, files)
             && Reopens(v, v', files) && s'.proc.last < MAX_SEQUENCE
    ensures Bounded(Opened(s', v')) && Faithful(Opened(s', v'))
  {
    hide Reopens, ValidVersion, Recent, UniqueNumbers, ReadAt, UniqueVersions, R.TableEntries, VersionEntries,
        HoldsVersion, FilesOf, Numbers, Holds, RecoveryReads.Inv, Live;
    ReopenedHolds(s.disk.tables, v, v', files);
    TablesOfVersion(s.disk.tables, v');
    OpenedEntries(s, s');
    OnlyTables(Opened(s', v'));
  }

  lemma OnlyTables(st: State)
    requires st.mem == [] && st.imm == None
    ensures Live(st) == VersionEntries(st.v)
  {
  }

  lemma OpenedEntries(s: R.Store, s': R.Store)
    requires RecoveryReads.Inv(s) && RecoveryReads.Inv(s') && R.SwitchCurrent(s, s')
    ensures var all := R.TableEntries(s.disk.tables, s.proc.m.files + s.proc.added);
      && all <= s'.history && UniqueVersions(s'.history) && R.KeepsReads(s'.history, all, s'.floor)
      && s'.proc.Running? && s'.floor <= s'.proc.last && forall e :: e in s'.history ==> e.key.seqno <= s'.proc.last
  {
    hide R.KeepsReads, UniqueVersions, R.DisjointLogs, R.DisjointTables, R.Ascends, R.TableEntries, R.LogsFrom,
        AllNewer;
    NothingInNewLog(s, s');
    PartsOfRecovered(s');
    OpenedManifest(s, s');
    assert Logged(s') == s'.history && R.Recovered(s'.disk) == Tables(s'.disk);
  }

  lemma OpenedManifest(s: R.Store, s': R.Store)
    requires R.Inv(s) && R.SwitchCurrent(s, s')
    ensures s'.disk.current in s'.disk.manifests && s'.disk.tables == s.disk.tables
    ensures R.ManifestOf(s'.disk).files == s.proc.m.files + s.proc.added
  {
    hide R.DiskInv, R.TableEntries, R.DisjointTables, R.DisjointLogs, R.Ascends;
    var p := s.proc;
    var edits := R.NewManifest(p);
    R.ReplayAppend([edits[0]], edits[1]);
    R.ReplayAppend([], edits[0]);
    assert [] + [edits[0]] == [edits[0]] && [edits[0]] + [edits[1]] == edits;
  }
}
