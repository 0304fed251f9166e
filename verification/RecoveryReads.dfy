/**
 What a reader gets from what is recovered (db/db_impl.cc:274-486, 878-1008): compactions leave
 entries out, and logs are turned into tables, yet every read at or above the snapshots that
 compactions respected answers as if nothing had been left out.
 */
module RecoveryReads {
  import opened DbFormat
  import opened Options
  import opened VersionSet
  import opened Lookup
  import opened Compaction
  import opened CompactionCommit
  import opened Lsm
  import R = Recovery

  ghost function Tables(d: R.Disk): set<Entry>
    requires d.current in d.manifests
  {
    R.TableEntries(d.tables, R.ManifestOf(d).files)
  }

  ghost function Logs(d: R.Disk): set<Entry>
    requires d.current in d.manifests
  {
    R.LogsFrom(d.logs, R.ManifestOf(d).log)
  }

  /** Every logged write, with the batch on its way. */
  ghost function Logged(s: R.Store): set<Entry> {
    s.history + R.InflightEntries(s.proc)
  }

  /** The tables are older than the logs, and reads from the floor on do not see what was dropped. */
  ghost predicate ReadsOk(d: R.Disk, logged: set<Entry>, floor: nat) {
    && d.current in d.manifests && UniqueVersions(logged) && AllNewer(Logs(d), Tables(d))
    && R.KeepsReads(logged, R.Recovered(d), floor) && floor <= R.ManifestOf(d).last
  }

  /** The immutable memtable is older than the memtable. */
  ghost predicate MemoryOk(s: R.Store) {
    s.proc.Running? && s.disk.current in s.disk.manifests ==>
      && R.ManifestOf(s.disk).last <= s.proc.last
      && AllNewer(s.proc.mem + R.InflightEntries(s.proc), R.ImmView(s.proc))
  }

  ghost predicate Inv(s: R.Store) {
    R.Inv(s) && ReadsOk(s.disk, Logged(s), s.floor) && MemoryOk(s)
  }

  // ---- Sets of entries

  lemma NewerThanBoth(a: set<Entry>, b: set<Entry>, c: set<Entry>)
    requires AllNewer(a, b) && AllNewer(a, c)
    ensures AllNewer(a, b + c)
  {
  }

  /** Newer entries decide what is read, or leave it to the older ones. */
  lemma ReadUnderNewer(S: set<Entry>, T: set<Entry>, N: set<Entry>, k: UserKey, r: nat)
    requires UniqueVersions(S + N) && UniqueVersions(T + N) && AllNewer(N, S) && AllNewer(N, T)
    requires ReadAt(S, k, r) == ReadAt(T, k, r)
    ensures ReadAt(S + N, k, r) == ReadAt(T + N, k, r)
  {
    hide ReadAt, UniqueVersions;
    if x :| x in N && Visible(x, k, r) {
      var n := NewestExists(N, k, r, x);
      assert IsNewest(S + N, k, r, n) && IsNewest(T + N, k, r, n);
      ReadIs(S + N, k, r, n);
      ReadIs(T + N, k, r, n);
    } else {
      OnlyVisibleMatter(S, N, k, r);
      OnlyVisibleMatter(T, N, k, r);
    }
  }

  lemma ReadsUnderNewer(S: set<Entry>, T: set<Entry>, N: set<Entry>, from: nat)
    requires UniqueVersions(S + N) && UniqueVersions(T + N) && AllNewer(N, S) && AllNewer(N, T)
             && R.KeepsReads(S, T, from)
    ensures R.KeepsReads(S + N, T + N, from)
  {
    hide ReadAt, UniqueVersions, AllNewer;
    forall k, r | r >= from ensures ReadAt(T + N, k, r) == ReadAt(S + N, k, r) {
      ReadUnderNewer(S, T, N, k, r);
    }
  }

  lemma ReadsChain(A: set<Entry>, B: set<Entry>, C: set<Entry>, from: nat, to: nat)
    requires R.KeepsReads(A, B, from) && R.KeepsReads(B, C, to)
    ensures R.KeepsReads(A, C, if to > from then to else from)
  {
    hide ReadAt;
  }

  lemma FreshIsUnique(logged: set<Entry>, r: R.Record, last: nat)
    requires UniqueVersions(logged) && r.first == last + 1 && forall e :: e in logged ==> e.key.seqno <= last
    ensures UniqueVersions(logged + R.RecordEntries(r)) && AllNewer(R.RecordEntries(r), logged)
  {
    R.BatchIsFresh(r, last, logged);
  }

  lemma PartsOfRecovered(s: R.Store)
    requires R.Inv(s)
    ensures s.disk.current in s.disk.manifests && R.Recovered(s.disk) == Tables(s.disk) + Logs(s.disk) <= Logged(s)
  {
  }

  // ---- Steps that move nothing between tables and logs

  ghost predicate SameOnDisk(d: R.Disk, d': R.Disk) {
    && d.current in d.manifests && d'.current in d'.manifests && R.ManifestOf(d') == R.ManifestOf(d)
    && Tables(d') == Tables(d) && Logs(d') == Logs(d)
  }

  lemma SameReads(s: R.Store, s': R.Store)
    requires ReadsOk(s.disk, Logged(s), s.floor) && SameOnDisk(s.disk, s'.disk) && Logged(s') == Logged(s)
             && s'.floor == s.floor
    ensures ReadsOk(s'.disk, Logged(s'), s'.floor)
  {
    hide R.KeepsReads, UniqueVersions, AllNewer;
  }

  /** Creating a log changes no entry that is read. */
  lemma CreateIsQuiet(s: R.Store, s': R.Store)
    requires R.Inv(s) && (R.SwitchLog(s, s') || R.CreateLog(s, s'))
    ensures SameOnDisk(s.disk, s'.disk) && Logged(s') == Logged(s)
  {
    R.LogsAfterCreate(s.disk.logs, s.proc.next, R.ManifestOf(s.disk).log);
  }

  lemma WriteTableIsQuiet(s: R.Store, s': R.Store, n: nat, es: set<Entry>)
    requires R.Inv(s) && (R.WriteTable(s, s', n, es) || R.ScratchTable(s, s', n, es))
    ensures SameOnDisk(s.disk, s'.disk) && Logged(s') == Logged(s)
  {
    R.TablesSame(s.disk.tables, s'.disk.tables, R.ManifestOf(s.disk).files);
  }

  lemma RecoverLogIsQuiet(s: R.Store, s': R.Store, n: nat, tables: map<nat, set<Entry>>)
    requires R.Inv(s) && R.RecoverLog(s, s', n, tables)
    ensures SameOnDisk(s.disk, s'.disk) && Logged(s') == Logged(s)
  {
    R.TablesSame(s.disk.tables, s'.disk.tables, R.ManifestOf(s.disk).files);
  }

  lemma DeleteIsQuiet(s: R.Store, s': R.Store)
    requires R.Inv(s) && R.DeleteObsolete(s, s')
    ensures SameOnDisk(s.disk, s'.disk) && Logged(s') == Logged(s)
  {
    hide R.DisjointLogs, R.DisjointTables, R.TableEntries, R.LogsFrom, R.Ascends;
    var d, m := s.disk, R.ManifestOf(s.disk);
    if n :| !R.KeepLog(s.proc, n) && s' == s.(disk := d.(logs := d.logs - {n})) {
      R.LogsAfterDelete(d.logs, n, m.log);
    } else if n :| !R.KeepTable(s.proc, n) && s' == s.(disk := d.(tables := d.tables - {n})) {
      R.TablesSame(d.tables, s'.disk.tables, m.files);
    }
  }

  /** Steps that leave logs, tables and manifests alone, or write a manifest that does not count yet. */
  ghost predicate MemoryStep(s: R.Store, s': R.Store) {
    || R.InsertMem(s, s') || R.StartFlush(s, s') || (exists inputs, outputs,
       next :: R.StartCompaction(s, s', inputs, outputs, next))
    || R.InstallFlush(s, s') || R.InstallCompaction(s, s') || R.PinVersion(s, s')
       || (exists v :: R.UnpinVersion(s, s', v))
    || R.Stop(s, s') || R.OpenManifest(s, s') || R.WriteManifest(s, s')
  }

  lemma MemoryStepIsQuiet(s: R.Store, s': R.Store)
    requires R.Inv(s) && MemoryStep(s, s')
    ensures SameOnDisk(s.disk, s'.disk) && Logged(s') == Logged(s)
  {
    hide R.DisjointLogs, R.DisjointTables, R.TableEntries, R.LogsFrom, R.Ascends, R.RecordEntries, R.LogsInv,
        R.VersionsInv, R.JobsInv, R.Replay;
  }

  // ---- Steps that do

  lemma AppendLogKeepsReads(s: R.Store, s': R.Store, ops: seq<Op>)
    requires Inv(s) && R.AppendLog(s, s', ops)
    ensures ReadsOk(s'.disk, Logged(s'), s'.floor)
  {
    hide R.KeepsReads, R.DisjointLogs, R.DisjointTables, R.TableEntries, R.LogsFrom, R.Ascends, R.RecordEntries,
        UniqueVersions, AllNewer, R.VersionsInv, R.LogsInv, R.JobsInv;
    var r := R.Record(s.proc.last + 1, ops);
    var before, N := Logged(s), R.RecordEntries(r);
    assert before == s.history;
    R.AppendLogKeepsDisk(s, s', ops);
    FreshIsUnique(before, r, s.proc.last);
    PartsOfRecovered(s);
    var rec := R.Recovered(s.disk);
    SubsetUnique(rec + N, before + N);
    SubsetNewer(N, before, N, rec);
    ReadsUnderNewer(before, rec, N, s.floor);
    assert Tables(s'.disk) == Tables(s.disk) && Logs(s'.disk) == Logs(s.disk) + N;
    assert R.Recovered(s'.disk) == rec + N && Logged(s') == before + N;
    SubsetNewer(N, rec, N, Tables(s.disk));
    BothNewer(Logs(s.disk), N, Tables(s.disk));
  }

  lemma BothNewer(a: set<Entry>, b: set<Entry>, c: set<Entry>)
    requires AllNewer(a, c) && AllNewer(b, c)
    ensures AllNewer(a + b, c)
  {
  }

  /** A flushed memtable moves from the logs to the tables. */
  lemma CommitFlushKeepsReads(s: R.Store, s': R.Store)
    requires Inv(s) && R.CommitFlush(s, s')
    ensures ReadsOk(s'.disk, Logged(s'), s'.floor)
  {
    hide R.KeepsReads, R.DisjointLogs, R.DisjointTables, R.LogsFrom, R.Ascends, R.RecordEntries, UniqueVersions,
        AllNewer, R.VersionsInv, R.JobsInv;
    R.CommitFlushKeepsDisk(s, s');
    PartsOfRecovered(s);
    var d, p, m := s.disk, s.proc, R.ManifestOf(s.disk);
    var newer := p.mem + R.InflightEntries(p);
    FlushedTables(s, s');
    assert Logs(s'.disk) == newer;
    SubsetNewer(Logs(d), Tables(d), newer, Tables(d));
    NewerThanBoth(newer, Tables(d), p.imm.value);
  }

  lemma FlushedTables(s: R.Store, s': R.Store)
    requires R.Inv(s) && R.CommitFlush(s, s')
    ensures s'.disk.current in s'.disk.manifests && Tables(s'.disk) == Tables(s.disk) + s.proc.imm.value
    ensures R.Recovered(s'.disk) == R.Recovered(s.disk) && R.ManifestOf(s'.disk).last == s.proc.last
  {
    hide R.DisjointLogs, R.DisjointTables, R.LogsFrom, R.Ascends, R.VersionsInv, R.JobsInv;
    R.CommitFlushKeepsDisk(s, s');
    var p, d := s.proc, s.disk;
    var new_: set<nat> := if p.imm.value == {} then {} else {p.flush.out};
    R.TablesUnion(d.tables, R.ManifestOf(d).files, new_);
    R.ReplayAppend(d.manifests[d.current], R.Edit(Some(p.logFile), Some(p.next), Some(p.last), {}, new_));
  }

  lemma CommitCompactionKeepsReads(s: R.Store, s': R.Store, snapshot: nat)
    requires Inv(s) && R.CommitCompaction(s, s', snapshot)
    ensures ReadsOk(s'.disk, Logged(s'), s'.floor)
  {
    hide R.KeepsReads, R.DisjointLogs, R.DisjointTables, R.LogsFrom, R.Ascends, R.RecordEntries, R.TableEntries,
        UniqueVersions, AllNewer, R.VersionsInv, R.LogsInv;
    R.CommitCompactionKeepsDisk(s, s', snapshot);
    PartsOfRecovered(s);
    CompactedTables(s, s', snapshot);
    var T, T', L, all := Tables(s.disk), Tables(s'.disk), Logs(s.disk), Logged(s);
    SubsetUnique(T + L, all);
    SubsetUnique(T' + L, all);
    SubsetNewer(L, T, L, T');
    ReadsUnderNewer(T, T', L, snapshot);
    ReadsChain(all, T + L, T' + L, s.floor, snapshot);
  }

  lemma CompactedTables(s: R.Store, s': R.Store, snapshot: nat)
    requires R.Inv(s) && R.CommitCompaction(s, s', snapshot)
    ensures s'.disk.current in s'.disk.manifests && Logs(s'.disk) == Logs(s.disk) && Tables(s'.disk) <= Tables(s.disk)
    ensures R.KeepsReads(Tables(s.disk), Tables(s'.disk), snapshot)
  {
    hide R.KeepsReads, R.DisjointLogs, R.LogsFrom, R.Ascends, R.RecordEntries;
    R.CommitCompactionKeepsDisk(s, s', snapshot);
  }

  /** At the end of recovery all entries are in tables, and the new log is empty. */
  lemma SwitchCurrentKeepsReads(s: R.Store, s': R.Store)
    requires Inv(s) && R.SwitchCurrent(s, s')
    ensures ReadsOk(s'.disk, Logged(s'), s'.floor)
  {
    hide R.KeepsReads, UniqueVersions;
    R.SwitchCurrentKeepsInv(s, s');
    PartsOfRecovered(s);
    NothingInNewLog(s, s');
    assert Logged(s') == Logged(s);
    assert R.Recovered(s'.disk) == R.Recovered(s.disk);
  }

  lemma NothingInNewLog(s: R.Store, s': R.Store)
    requires R.Inv(s) && R.SwitchCurrent(s, s')
    ensures s'.disk.current in s'.disk.manifests && Logs(s'.disk) == {} && R.ManifestOf(s'.disk).last == s.proc.last
  {
    hide R.DiskInv, R.LogsInv, R.TableEntries, R.DisjointTables, R.DisjointLogs, R.Ascends;
    var p := s.proc;
    var edits := R.NewManifest(p);
    R.ReplayAppend([edits[0]], edits[1]);
    R.ReplayAppend([], edits[0]);
    assert [] + [edits[0]] == [edits[0]] && [edits[0]] + [edits[1]] == edits;
    assert R.ManifestOf(s'.disk) == R.ManifestState(p.m.files + p.added, p.newLog.value, p.next, p.last);
    assert R.LogEntries([]) == {};
  }

  // ---- Memory

  lemma LoggedIsKnown(s: R.Store)
    requires R.Inv(s) && s.proc.Running?
    ensures R.ImmView(s.proc) <= Logged(s)
  {
  }

  lemma WriteKeepsMemory(s: R.Store, s': R.Store)
    requires Inv(s) && ((exists ops :: R.AppendLog(s, s', ops)) || R.InsertMem(s, s') || R.SwitchLog(s, s'))
    requires s'.disk.current in s'.disk.manifests && R.ManifestOf(s'.disk) == R.ManifestOf(s.disk)
    ensures MemoryOk(s')
  {
    hide ReadsOk, R.DisjointLogs, R.DisjointTables, R.TableEntries, R.LogsFrom, R.Ascends, R.RecordEntries;
    LoggedIsKnown(s);
    if ops :| R.AppendLog(s, s', ops) {
      R.BatchIsFresh(R.Record(s.proc.last + 1, ops), s.proc.last, s.history);
    }
  }

  lemma CommitKeepsMemory(s: R.Store, s': R.Store)
    requires Inv(s) && (R.CommitFlush(s, s') || (exists snapshot :: R.CommitCompaction(s, s', snapshot)))
    ensures MemoryOk(s')
  {
    hide ReadsOk, R.DisjointLogs, R.DisjointTables, R.TableEntries, R.LogsFrom, R.Ascends, R.RecordEntries,
        R.MayReplace;
    if R.CommitFlush(s, s') {
      FlushedTables(s, s');
    } else {
      var snapshot :| R.CommitCompaction(s, s', snapshot);
      R.CommitCompactionKeepsDisk(s, s', snapshot);
    }
  }

  /** Other steps leave the memtables alone, or have none. */
  lemma OtherKeepsMemory(s: R.Store, s': R.Store)
    requires Inv(s) && SameOnDisk(s.disk, s'.disk)
    requires s'.proc.Running? ==>
             s.proc.Running? && s'.proc.mem == s.proc.mem && s'.proc.inflight == s.proc.inflight
             && s'.proc.last == s.proc.last
    requires s'.proc.Running? ==> R.ImmView(s'.proc) <= R.ImmView(s.proc)
    ensures MemoryOk(s')
  {
    hide ReadsOk, R.Inv, R.RecordEntries;
  }

  // ---- Runs

  lemma InitInv(s: R.Store)
    requires R.Init(s)
    ensures Inv(s)
  {
    R.InitInv(s);
    var edit := R.Edit(Some(0), Some(2), Some(0), {}, {});
    R.ReplayAppend([], edit);
    assert [] + [edit] == [edit];
    assert R.TableEntries(map[], {}) == {} && R.LogsFrom(map[], 0) == {};
    assert Logged(s) == {} == R.Recovered(s.disk);
  }

  lemma QuietStepKeepsInv(s: R.Store, s': R.Store)
    requires Inv(s) && R.Inv(s') && SameOnDisk(s.disk, s'.disk) && Logged(s') == Logged(s) && s'.floor == s.floor
    requires MemoryOk(s')
    ensures Inv(s')
  {
    SameReads(s, s');
  }

  lemma MemoryStepKeepsInv(s: R.Store, s': R.Store)
    requires Inv(s) && R.Inv(s') && MemoryStep(s, s')
    ensures Inv(s')
  {
    hide ReadsOk, R.Inv, R.DisjointLogs, R.DisjointTables, R.TableEntries, R.LogsFrom, R.Ascends, R.RecordEntries;
    MemoryStepIsQuiet(s, s');
    if R.InsertMem(s, s') {
      WriteKeepsMemory(s, s');
    } else {
      OtherKeepsMemory(s, s');
    }
    QuietStepKeepsInv(s, s');
  }

  lemma DiskStepKeepsInv(s: R.Store, s': R.Store)
    requires Inv(s) && R.Inv(s')
    requires R.SwitchLog(s, s') || R.CreateLog(s, s') || R.DeleteObsolete(s, s')
          || (exists n, es :: R.WriteTable(s, s', n, es) || R.ScratchTable(s, s', n, es))
             || (exists n, tables :: R.RecoverLog(s, s', n, tables))
    ensures Inv(s')
  {
    hide ReadsOk, R.Inv, R.DisjointLogs, R.DisjointTables, R.TableEntries, R.LogsFrom, R.Ascends, R.RecordEntries;
    if R.SwitchLog(s, s') || R.CreateLog(s, s') {
      CreateIsQuiet(s, s');
    } else if R.DeleteObsolete(s, s') {
      DeleteIsQuiet(s, s');
    } else if n, es :| R.WriteTable(s, s', n, es) || R.ScratchTable(s, s', n, es) {
      WriteTableIsQuiet(s, s', n, es);
    } else {
      var n, tables :| R.RecoverLog(s, s', n, tables);
      RecoverLogIsQuiet(s, s', n, tables);
    }
    if R.SwitchLog(s, s') {
      WriteKeepsMemory(s, s');
    } else {
      OtherKeepsMemory(s, s');
    }
    QuietStepKeepsInv(s, s');
  }

  lemma StepKeepsInv(s: R.Store, s': R.Store)
    requires Inv(s) && R.Next(s, s')
    ensures Inv(s')
  {
    hide ReadsOk, MemoryOk, R.Inv, R.AppendLog, R.CommitFlush, R.CommitCompaction, R.SwitchCurrent, R.SwitchLog,
        R.CreateLog, R.DeleteObsolete,
         R.WriteTable, R.ScratchTable, R.RecoverLog, R.InsertMem, R.StartFlush, R.StartCompaction, R.InstallFlush,
           R.InstallCompaction,
         R.PinVersion, R.UnpinVersion, R.Stop, R.OpenManifest, R.WriteManifest;
    R.StepKeepsInv(s, s');
    if ops :| R.AppendLog(s, s', ops) {
      AppendLogKeepsReads(s, s', ops);
      R.AppendLogKeepsDisk(s, s', ops);
      AppendHasManifest(s, s', ops);
      WriteKeepsMemory(s, s');
    } else if R.CommitFlush(s, s') {
      CommitFlushKeepsReads(s, s');
      CommitKeepsMemory(s, s');
    } else if snapshot :| R.CommitCompaction(s, s', snapshot) {
      CommitCompactionKeepsReads(s, s', snapshot);
      CommitKeepsMemory(s, s');
    } else if R.SwitchCurrent(s, s') {
      SwitchCurrentKeepsReads(s, s');
      SwitchCurrentKeepsMemory(s, s');
    } else if MemoryStep(s, s') {
      MemoryStepKeepsInv(s, s');
    } else {
      DiskStepKeepsInv(s, s');
    }
  }

  lemma AppendHasManifest(s: R.Store, s': R.Store, ops: seq<Op>)
    requires Inv(s) && R.AppendLog(s, s', ops)
    ensures s'.disk.current in s'.disk.manifests
  {
  }

  lemma SwitchCurrentKeepsMemory(s: R.Store, s': R.Store)
    requires Inv(s) && R.SwitchCurrent(s, s')
    ensures MemoryOk(s')
  {
    NothingInNewLog(s, s');
  }

  lemma {:induction false} RunKeepsInv(states: seq<R.Store>)
    requires R.Run(states)
    ensures Inv(states[|states| - 1])
    decreases |states|
  {
    hide Inv, R.Next, R.Init;
    var n := |states| - 1;
    if n == 0 {
      InitInv(states[0]);
    } else {
      RunKeepsInv(states[..n]);
      StepKeepsInv(states[n - 1], states[n]);
    }
  }

  /**
   Wherever the process stops, reads over what the disk gives back answer, at every snapshot
   from the floor on, as reads over every acknowledged write and the batch that was on its
   way; the floor is at or below the last sequence number the manifest records, so the latest
   state is never lost.
   */
  lemma NothingIsLost(states: seq<R.Store>)
    requires R.Run(states)
    ensures var s := states[|states| - 1];
      && s.disk.current in s.disk.manifests && s.floor <= R.ManifestOf(s.disk).last
      && forall k, r :: r >= s.floor ==>
         ReadAt(R.Recovered(s.disk), k, r) == ReadAt(s.history + R.InflightEntries(s.proc), k, r)
  {
    RunKeepsInv(states);
  }

  // ---- Compactions may commit

  ghost function FilesOf(v: Version): set<nat> {
    set l, f | 0 <= l < |v| && f in v[l] :: f.number
  }

  /** The tables on disk are the files of the version. */
  ghost predicate Holds(tables: map<nat, set<Entry>>, fs: seq<File>) {
    forall f :: f in fs ==> f.number in tables && tables[f.number] == Contents(f)
  }

  ghost predicate HoldsVersion(tables: map<nat, set<Entry>>, v: Version) {
    forall l :: 0 <= l < |v| ==> Holds(tables, v[l])
  }

  lemma TablesOfFiles(tables: map<nat, set<Entry>>, fs: seq<File>)
    requires Holds(tables, fs)
    ensures R.TableEntries(tables, Numbers(fs)) == Entries(fs) && Numbers(fs) <= tables.Keys
  {
    forall e ensures e in R.TableEntries(tables, Numbers(fs)) <==> e in Entries(fs) {
      if f :| f in fs && e in f.entries {
        assert f.number in Numbers(fs);
      }
      if n :| n in Numbers(fs) && n in tables && e in tables[n] {
        var f :| f in fs && f.number == n;
        assert e in f.entries;
      }
    }
  }

  lemma TablesOfVersion(tables: map<nat, set<Entry>>, v: Version)
    requires HoldsVersion(tables, v)
    ensures R.TableEntries(tables, FilesOf(v)) == VersionEntries(v) && FilesOf(v) <= tables.Keys
  {
    forall e ensures e in R.TableEntries(tables, FilesOf(v)) <==> e in VersionEntries(v) {
      if l, f :| 0 <= l < |v| && f in v[l] && e in f.entries {
        assert e in Entries(v[l]) && f.number in FilesOf(v) && Holds(tables, v[l]);
      }
      if n :| n in FilesOf(v) && n in tables && e in tables[n] {
        var l, f :| 0 <= l < |v| && f in v[l] && f.number == n;
        assert Holds(tables, v[l]) && e in Entries(v[l]);
      }
    }
    forall n | n in FilesOf(v) ensures n in tables {
      var l, f :| 0 <= l < |v| && f in v[l] && f.number == n;
      assert Holds(tables, v[l]);
    }
  }

  /** Installing a compaction changes the files of a version as its edit says. */
  lemma FilesReplaced(v: Version, v': Version, w: Work, nextFile: nat)
    requires UniqueNumbers(v, nextFile) && Replaced(v, v', w) && NumberedApart(v, w.outputs, nextFile)
    ensures FilesOf(v') == FilesOf(v) - (Numbers(w.in0) + Numbers(w.in1)) + Numbers(w.outputs)
    ensures Numbers(w.in0) + Numbers(w.in1) <= FilesOf(v) && Numbers(w.outputs) !! FilesOf(v)
  {
    var inputs := Numbers(w.in0) + Numbers(w.in1);
    forall n ensures n in FilesOf(v') <==> n in FilesOf(v) - inputs + Numbers(w.outputs) {
      if n in FilesOf(v') {
        var l, g :| 0 <= l < |v'| && g in v'[l] && g.number == n;
        if !(l == w.level + 1 && g in w.outputs) {
          assert g in v[l] && !Chosen(w, l, g);
          NotAnInput(v, w, nextFile, l, g);
        }
      }
      if n in FilesOf(v) - inputs {
        var l, g :| 0 <= l < |v| && g in v[l] && g.number == n;
        assert !Chosen(w, l, g);
        assert g in v'[l];
      }
      if n in Numbers(w.outputs) {
        var g :| g in w.outputs && g.number == n;
        assert g in v'[w.level + 1];
      }
    }
    forall n | n in Numbers(w.outputs) ensures n !in FilesOf(v) {
      var g :| g in w.outputs && g.number == n;
    }
  }

  lemma NotAnInput(v: Version, w: Work, nextFile: nat, l: nat, g: File)
    requires UniqueNumbers(v, nextFile) && l < |v| && g in v[l] && !Chosen(w, l, g) && w.level + 1 < |v|
    requires (forall h :: h in w.in0 ==> h in v[w.level]) && (forall h :: h in w.in1 ==> h in v[w.level + 1])
    ensures g.number !in Numbers(w.in0) + Numbers(w.in1)
  {
    forall h | h in w.in0 || h in w.in1 ensures h.number != g.number {
      assert h in v[w.level] || h in v[w.level + 1];
    }
  }

  /** Files of an ordered level share no entry. */
  lemma OrderedIsDisjoint(fs: seq<File>, f: File, g: File)
    requires LevelOrdered(fs) && f in fs && g in fs && f != g
    ensures Contents(f) !! Contents(g)
  {
    OrderedIsApart(fs, f, g);
    if e :| e in f.entries && e in g.entries {
      AtOrBeforeLast(f, e);
      AtOrBeforeLast(g, e);
      assert false;
    }
  }

  lemma AtOrBeforeLast(f: File, e: Entry)
    requires e in f.entries
    ensures e.key == Largest(f) || Before(e.key, Largest(f))
    ensures e.key == Smallest(f) || Before(Smallest(f), e.key)
  {
    var i :| 0 <= i < |f.entries| && f.entries[i] == e;
  }

  lemma OutputsAreDisjoint(tables: map<nat, set<Entry>>, outputs: seq<File>)
    requires LevelOrdered(outputs) && Holds(tables, outputs)
    ensures R.DisjointTables(tables, Numbers(outputs))
  {
    forall m, n | m in Numbers(outputs) && n in Numbers(outputs) && m != n ensures tables[m] !! tables[n] {
      var f, g :| f in outputs && g in outputs && f.number == m && g.number == n;
      OrderedIsDisjoint(outputs, f, g);
      assert tables[m] == Contents(f) && tables[n] == Contents(g);
    }
  }

  /**
   A compaction of files of `v` meets what its commit asks for in version `u`, which `v` has
   grown to by flushes, exactly if it splits no deletion seen at its smallest snapshot; and
   what is on disk is then the version it installs.
   */
  lemma CompactionMayCommitIff(tables: map<nat, set<Entry>>, v: Version, u: Version, u': Version, w: Work,
      nextFile: nat)
    requires Installs(v, u, u', w, nextFile) && HoldsVersion(tables, u) && Holds(tables, w.outputs)
    ensures R.MayReplace(tables, FilesOf(u), Numbers(w.in0) + Numbers(w.in1), Numbers(w.outputs), w.smallestSnapshot)
       <==> !SplitsOver(v, w, VersionEntries(u))
    ensures FilesOf(u') == FilesOf(u) - (Numbers(w.in0) + Numbers(w.in1)) + Numbers(w.outputs)
            && HoldsVersion(tables, u')
  {
    hide Installs, Recent, UniqueNumbers, UniqueVersions, VersionEdited, Replaced, Holds, HoldsVersion, ValidWork,
        R.DisjointTables, ReadAt, VersionEntries, FilesOf, Numbers, Entries, SplitsOver, ValidVersion, GrownFrom;
    InstalledIsReplaced(v, u, u', w, nextFile);
    FilesOfInstalled(v, u, u', w, nextFile);
    ReplacedHolds(tables, u, u', w);
    TablesOfVersion(tables, u);
    TablesOfVersion(tables, u');
    TablesOfFiles(tables, w.outputs);
    OutputsInInputs(tables, v, u, w);
    OutputsAreDisjoint(tables, w.outputs);
    UniqueWhenInstalled(v, u, u', w, nextFile);
    assert VersionEntries(u) + {} == VersionEntries(u) && VersionEntries(u') + {} == VersionEntries(u');
    InstalledKeepsReadsIff(v, u, u', w, nextFile, {});
  }

  lemma UniqueWhenInstalled(v: Version, u: Version, u': Version, w: Work, nextFile: nat)
    requires Installs(v, u, u', w, nextFile)
    ensures UniqueVersions(VersionEntries(u)) && AllNewer({}, VersionEntries(u))
  {
  }

  lemma FilesOfInstalled(v: Version, u: Version, u': Version, w: Work, nextFile: nat)
    requires Installs(v, u, u', w, nextFile) && Replaced(u, u', w)
    ensures FilesOf(u') == FilesOf(u) - (Numbers(w.in0) + Numbers(w.in1)) + Numbers(w.outputs)
    ensures ValidWork(v, w) && GrownFrom(v, u) && LevelOrdered(w.outputs)
  {
    hide Replaced, ValidWork, GrownFrom, UniqueNumbers, FilesOf, Numbers, LevelOrdered;
    FilesReplaced(u, u', w, nextFile);
    OutputsInOrder(v, w);
  }

  lemma ReplacedHolds(tables: map<nat, set<Entry>>, v: Version, v': Version, w: Work)
    requires Replaced(v, v', w) && HoldsVersion(tables, v) && Holds(tables, w.outputs)
    ensures HoldsVersion(tables, v')
  {
    forall l | 0 <= l < |v'| ensures Holds(tables, v'[l]) {
      forall f | f in v'[l] ensures f.number in tables && tables[f.number] == Contents(f) {
        assert f in v[l] || f in w.outputs;
        assert Holds(tables, v[l]);
      }
    }
  }

  lemma OutputsInInputs(tables: map<nat, set<Entry>>, v: Version, u: Version, w: Work)
    requires ValidWork(v, w) && GrownFrom(v, u) && HoldsVersion(tables, u) && Holds(tables, w.outputs)
    ensures R.TableEntries(tables, Numbers(w.outputs)) <= R.TableEntries(tables, Numbers(w.in0) + Numbers(w.in1))
  {
    TablesOfFiles(tables, w.outputs);
    assert Subset(v[w.level], u[w.level]) && Subset(v[w.level + 1], u[w.level + 1]);
    assert Holds(tables, u[w.level]) && Holds(tables, u[w.level + 1]);
    TablesOfFiles(tables, w.in0);
    TablesOfFiles(tables, w.in1);
    R.TablesUnion(tables, Numbers(w.in0), Numbers(w.in1));
    forall e | e in Entries(w.outputs) ensures e in Entries(w.in0) + Entries(w.in1) {
      var f :| f in w.outputs && e in f.entries;
      OutputIsInput(v, w, f, e);
      assert e in Elements(w.input);
    }
  }
}
