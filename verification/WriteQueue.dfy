/**
 Grouped writes (db/db_impl.cc:1194-1314): writers queue up, the one in front writes a whole
 group to the log and the memtable without holding the lock, then wakes the group. Writers
 are numbered in the order in which they join the queue; a step is what happens between two
 points where the lock is taken or released, or one call on the log file or the memtable.
 */
module WriteQueue {
  import opened DbFormat
  import opened Options

  datatype Update = Update(ukey: UserKey, kind: Kind, value: Val)
  datatype Batch = Batch(updates: seq<Update>, size: nat)
  datatype Writer = Writer(batch: Option<Batch>, sync: bool)

  /** What the leader is about to do, for the first `n` writers of the queue. */
  datatype Stage =
    | MakingRoom
    | Logging(n: nat, updates: seq<Update>)
    | Syncing(n: nat, updates: seq<Update>)
    | Inserting(n: nat, updates: seq<Update>)
    | Ending(n: nat, updates: seq<Update>, ok: bool, logged: bool, synced: bool)

  datatype Phase = Waiting | Leading(stage: Stage) | Woken(ok: bool) | Returned(ok: bool)

  datatype LogRecord = LogRecord(first: nat, updates: seq<Update>)

  /** History: writers `from` to `to` were handled together. */
  datatype Group = Group(from: nat, to: nat, first: nat, updates: seq<Update>, ok: bool, logged: bool, synced: bool)

  datatype State = State(writers: seq<Writer>, phase: seq<Phase>, queue: seq<nat>, log: seq<LogRecord>, mem: seq<Entry>,
                         lastSequence: nat, bgError: bool, groups: seq<Group>)

  function UpdatesOf(w: Writer): seq<Update> {
    if w.batch.Some? then w.batch.value.updates else []
  }

  /** The contents of the batches of several writers, one after the other. */
  function AllUpdates(ws: seq<Writer>): seq<Update> {
    if ws == [] then [] else AllUpdates(ws[..|ws| - 1]) + UpdatesOf(ws[|ws| - 1])
  }

  /** What InsertInto adds to the memtable: consecutive sequence numbers from `first`. */
  function EntriesFrom(first: nat, updates: seq<Update>): (es: seq<Entry>)
    ensures |es| == |updates|
  {
    seq(|updates|, i requires 0 <= i < |updates| => Entry(IKey(updates[i].ukey, first + i, updates[i].kind),
      updates[i].value))
  }

  // ---- BuildBatchGroup

  function MaxSize(first: nat): nat {
    if first <= 0x2_0000 then first + 0x2_0000 else 0x10_0000
  }

  function SizeOf(w: Writer): nat {
    if w.batch.Some? then w.batch.value.size else 0
  }

  function TotalSize(ws: seq<Writer>): nat {
    if ws == [] then 0 else TotalSize(ws[..|ws| - 1]) + SizeOf(ws[|ws| - 1])
  }

  /** Writer `n` may not join the group of those before it. */
  predicate Stops(ws: seq<Writer>, n: nat)
    requires 0 < n < |ws|
  {
    || (ws[n].sync && !ws[0].sync)
    || (ws[n].batch.Some? && TotalSize(ws[..n + 1]) > MaxSize(SizeOf(ws[0])))
  }

  /** The group is as long as it may be. */
  ghost predicate IsGroup(ws: seq<Writer>, n: nat) {
    && 0 < n <= |ws|
    && (forall i :: 0 < i < n ==> !Stops(ws, i))
    && (n < |ws| ==> Stops(ws, n))
  }

  /** No sync write is carried by a writer that does not sync. */
  lemma GroupSyncs(ws: seq<Writer>, n: nat)
    requires IsGroup(ws, n)
    ensures forall i :: 0 <= i < n && ws[i].sync ==> ws[0].sync
  {
    forall i | 0 < i < n && ws[i].sync ensures ws[0].sync {
      assert !Stops(ws, i);
    }
  }

  lemma OneMoreWriter(ws: seq<Writer>, n: nat)
    requires n < |ws|
    ensures TotalSize(ws[..n + 1]) == TotalSize(ws[..n]) + SizeOf(ws[n])
    ensures AllUpdates(ws[..n + 1]) == AllUpdates(ws[..n]) + UpdatesOf(ws[n])
  {
    assert ws[..n + 1][..n] == ws[..n];
  }

  lemma NoWriters(ws: seq<Writer>)
    requires ws == []
    ensures TotalSize(ws) == 0 && AllUpdates(ws) == []
  {
  }

  lemma {:induction false} SumIsBounded(ws: seq<Writer>, n: nat, k: nat)
    requires IsGroup(ws, n) && 1 <= k <= n
    ensures TotalSize(ws[..k]) <= SizeOf(ws[0]) || TotalSize(ws[..k]) <= MaxSize(SizeOf(ws[0]))
    decreases k
  {
    hide TotalSize, MaxSize;
    OneMoreWriter(ws, k - 1);
    if k == 1 {
      NoWriters(ws[..0]);
    } else {
      assert !Stops(ws, k - 1);
      SumIsBounded(ws, n, k - 1);
    }
  }

  /**
   A group of more than its first writer holds at most a megabyte, and only 128 kilobytes are added
   to a small first batch; who comes next would break this, or asks for a sync that the first did not.
   */
  lemma GroupIsBounded(ws: seq<Writer>, n: nat)
    requires IsGroup(ws, n)
    ensures var first, size := SizeOf(ws[0]), TotalSize(ws[..n]);
            && (size <= first || size <= 0x10_0000) && (first <= 0x2_0000 ==> size <= first + 0x2_0000)
    ensures n < |ws| ==>
              var first, size := SizeOf(ws[0]), TotalSize(ws[..n]) + SizeOf(ws[n]);
              || (ws[n].sync && !ws[0].sync)
              || (ws[n].batch.Some? && if first <= 0x2_0000 then size > first + 0x2_0000 else size > 0x10_0000)
  {
    hide TotalSize;
    SumIsBounded(ws, n, n);
    if n < |ws| {
      OneMoreWriter(ws, n);
    }
  }

  method BuildBatchGroup(ws: seq<Writer>) returns (n: nat, result: seq<Update>)
    requires ws != [] && ws[0].batch.Some?
    ensures IsGroup(ws, n) && result == AllUpdates(ws[..n])
    ensures forall i :: 0 <= i < n && ws[i].sync ==> ws[0].sync
  {
    hide TotalSize, AllUpdates;
    var first := ws[0];
    var size := first.batch.value.size;
    var maxSize := 0x10_0000;
    if size <= 0x2_0000 {
      maxSize := size + 0x2_0000;
    }
    result := first.batch.value.updates;
    n := 1;
    assert TotalSize(ws[..1]) == size && AllUpdates(ws[..1]) == result by {
      OneMoreWriter(ws, 0);
      NoWriters(ws[..0]);
    }
    while n < |ws|
      invariant 0 < n <= |ws| && forall i :: 0 < i < n ==> !Stops(ws, i)
      invariant size == TotalSize(ws[..n]) && result == AllUpdates(ws[..n])
    {
      var w := ws[n];
      OneMoreWriter(ws, n);
      if w.sync && !first.sync {
        break;
      }
      if w.batch.Some? {
        if size + w.batch.value.size > maxSize {
          break;
        }
        size := size + w.batch.value.size;
        result := result + w.batch.value.updates;
      }
      n := n + 1;
    }
    GroupSyncs(ws, n);
  }

  // ---- Steps

  function Queued(s: State): (ws: seq<Writer>)
    requires forall i :: 0 <= i < |s.queue| ==> s.queue[i] < |s.writers|
    ensures |ws| == |s.queue|
  {
    seq(|s.queue|, i requires 0 <= i < |s.queue| => s.writers[s.queue[i]])
  }

  ghost predicate WellFormed(s: State) {
    && |s.phase| == |s.writers|
    && forall i :: 0 <= i < |s.queue| ==> s.queue[i] < |s.writers|
  }

  ghost predicate IsLeading(s: State) {
    WellFormed(s) && s.queue != [] && s.phase[s.queue[0]].Leading?
  }

  function StageOf(s: State): Stage
    requires |s.queue| > 0 && s.queue[0] < |s.phase| && s.phase[s.queue[0]].Leading?
  {
    s.phase[s.queue[0]].stage
  }

  function Leader(s: State): Writer
    requires |s.queue| > 0 && s.queue[0] < |s.writers|
  {
    s.writers[s.queue[0]]
  }

  function AtStage(s: State, stage: Stage): State
    requires |s.queue| > 0 && s.queue[0] < |s.phase|
  {
    s.(phase := s.phase[s.queue[0] := Leading(stage)])
  }

  ghost predicate Enqueue(a: State, b: State) {
    WellFormed(a) && exists w :: b == a.(writers := a.writers + [w], phase := a.phase + [Waiting],
      queue := a.queue + [|a.writers|])
  }

  /** The front of the queue wakes up, not yet done. */
  ghost predicate Lead(a: State, b: State) {
    WellFormed(a) && a.queue != [] && a.phase[a.queue[0]] == Waiting && b == AtStage(a, MakingRoom)
  }

  /** MakeRoomForWrite: a background error is returned, as is a failure to open a new log file. */
  ghost predicate MakeRoom(a: State, b: State) {
    && IsLeading(a) && StageOf(a) == MakingRoom
    && (|| b == AtStage(a, Ending(1, [], false, false, false))
        || (!a.bgError && Leader(a).batch.None? && b == AtStage(a, Ending(1, [], true, false, false)))
        || (!a.bgError && Leader(a).batch.Some? && exists n: nat ::
              IsGroup(Queued(a), n) && b == AtStage(a, Logging(n, AllUpdates(Queued(a)[..n])))))
  }

  /** AddRecord: if it fails the record may or may not be in the file. */
  ghost predicate Log(a: State, b: State) {
    && IsLeading(a) && StageOf(a).Logging?
    && var n, updates := StageOf(a).n, StageOf(a).updates;
       var logged := a.(log := a.log + [LogRecord(a.lastSequence + 1, updates)]);
       || b == AtStage(logged, if Leader(a).sync then Syncing(n, updates) else Inserting(n, updates))
       || b == AtStage(logged, Ending(n, updates, false, true, false))
       || b == AtStage(a, Ending(n, updates, false, false, false))
  }

  ghost predicate Sync(a: State, b: State) {
    && IsLeading(a) && StageOf(a).Syncing?
    && var n, updates := StageOf(a).n, StageOf(a).updates;
       || b == AtStage(a, Inserting(n, updates))
       || b == AtStage(a.(bgError := true), Ending(n, updates, false, true, false))
  }

  ghost predicate Insert(a: State, b: State) {
    && IsLeading(a) && StageOf(a).Inserting?
    && var n, updates := StageOf(a).n, StageOf(a).updates;
       b == AtStage(a.(mem := a.mem + EntriesFrom(a.lastSequence + 1, updates)),
         Ending(n, updates, true, true, Leader(a).sync))
  }

  function WithPhases(phase: seq<Phase>, ids: seq<nat>, p: Phase): (phase': seq<Phase>)
    requires forall i :: 0 <= i < |ids| ==> ids[i] < |phase|
    ensures |phase'| == |phase|
    ensures forall j :: 0 <= j < |phase| ==> phase'[j] == if j in ids then p else phase[j]
  {
    seq(|phase|, j requires 0 <= j < |phase| => if j in ids then p else phase[j])
  }

  /** The end of Write: the sequence number moves on and the group leaves the queue with the leader's status. */
  ghost predicate End(a: State, b: State) {
    && IsLeading(a) && StageOf(a).Ending?
    && var Ending(n, updates, ok, logged, synced) := StageOf(a);
       && n <= |a.queue|
       && var group := Group(a.queue[0], a.queue[0] + n, a.lastSequence + 1, updates, ok, logged, synced);
          b == a.(phase := WithPhases(a.phase, a.queue[..n], Woken(ok))[a.queue[0] := Returned(ok)],
                  queue := a.queue[n..], lastSequence := a.lastSequence + |updates|, groups := a.groups + [group])
  }

  /** A writer that was woken returns. */
  ghost predicate Return(a: State, b: State) {
    exists i :: 0 <= i < |a.phase| && a.phase[i].Woken? && b == a.(phase := a.phase[i := Returned(a.phase[i].ok)])
  }

  /** A background error is recorded by a compaction. */
  ghost predicate Fail(a: State, b: State) {
    b == a.(bgError := true)
  }

  ghost predicate Step(a: State, b: State) {
    Enqueue(a, b) || Lead(a, b) || MakeRoom(a, b) || Log(a, b) || Sync(a, b) || Insert(a, b) || End(a, b)
      || Return(a, b) || Fail(a, b)
  }

  function Empty(): State {
    State([], [], [], [], [], 0, false, [])
  }

  // ---- What every run keeps

  function Total(groups: seq<Group>): nat {
    if groups == [] then 0 else Total(groups[..|groups| - 1]) + |groups[|groups| - 1].updates|
  }

  /** How many writers have been handled. */
  function Handled(groups: seq<Group>): nat {
    if groups == [] then 0 else groups[|groups| - 1].to
  }

  function LogOf(groups: seq<Group>): seq<LogRecord> {
    if groups == [] then [] else
      var g := groups[|groups| - 1];
      LogOf(groups[..|groups| - 1]) + if g.logged then [LogRecord(g.first, g.updates)] else []
  }

  function MemOf(groups: seq<Group>): seq<Entry> {
    if groups == [] then [] else
      var g := groups[|groups| - 1];
      MemOf(groups[..|groups| - 1]) + if g.ok then EntriesFrom(g.first, g.updates) else []
  }

  /** A group holds consecutive writers and, if it succeeded, just their updates; the rest are empty or failed. */
  ghost predicate GroupOk(writers: seq<Writer>, g: Group) {
    && g.from < g.to <= |writers|
    && (g.ok ==> g.updates == AllUpdates(writers[g.from..g.to]))
    && (g.ok && g.updates != [] ==> g.logged)
    && (g.ok && writers[g.from].batch.Some? ==> g.logged && (writers[g.from].sync ==> g.synced))
    && (writers[g.from].batch.None? ==> g.to == g.from + 1)
    && (forall i :: g.from <= i < g.to && writers[i].sync ==> writers[g.from].sync)
  }

  ghost predicate GroupsOk(writers: seq<Writer>, groups: seq<Group>) {
    forall k {:trigger groups[k]} :: 0 <= k < |groups| ==>
      && GroupOk(writers, groups[k])
      && groups[k].from == Handled(groups[..k]) && groups[k].first == Total(groups[..k]) + 1
  }

  /** The group the leader is working for. */
  ghost predicate Gathered(ws: seq<Writer>, n: nat, updates: seq<Update>) {
    && 0 < n <= |ws| && ws[0].batch.Some? && updates == AllUpdates(ws[..n])
    && forall i :: 0 <= i < n && ws[i].sync ==> ws[0].sync
  }

  /** What the log and the memtable hold beyond `done` and `added`, given how far the leader `ws[0]` has come. */
  ghost predicate StageHolds(ws: seq<Writer>, stage: Stage, log: seq<LogRecord>, mem: seq<Entry>,
                             done: seq<LogRecord>, added: seq<Entry>, next: nat)
  {
    match stage
    case MakingRoom => log == done && mem == added
    case Logging(n, updates) => Gathered(ws, n, updates) && log == done && mem == added
    case Syncing(n, updates) => Gathered(ws, n, updates) && ws[0].sync && log == done + [LogRecord(next, updates)]
      && mem == added
    case Inserting(n, updates) => Gathered(ws, n, updates) && log == done + [LogRecord(next, updates)] && mem == added
    case Ending(n, updates, ok, logged, synced) =>
      && ws != []
      && (Gathered(ws, n, updates) || (n == 1 && updates == [] && !logged && (ok ==> ws[0].batch.None?)))
      && log == done + (if logged then [LogRecord(next, updates)] else [])
      && mem == added + (if ok then EntriesFrom(next, updates) else [])
      && (ok && ws[0].batch.Some? ==> logged && (ws[0].sync ==> synced))
  }

  ghost predicate StageOk(s: State)
    requires WellFormed(s)
  {
    StageHolds(Queued(s), if IsLeading(s) then StageOf(s) else MakingRoom, s.log, s.mem,
               LogOf(s.groups), MemOf(s.groups), s.lastSequence + 1)
  }

  /** Writers before the queue are done, with the status of their group; those in it wait, but for the leader. */
  ghost predicate PhasesOk(s: State)
    requires WellFormed(s)
  {
    && Handled(s.groups) + |s.queue| == |s.writers|
    && (forall j {:trigger s.queue[j]} :: 0 <= j < |s.queue| ==> s.queue[j] == Handled(s.groups) + j)
    && (forall i {:trigger s.phase[i]} :: Handled(s.groups) <= i < |s.phase| ==>
       s.phase[i].Waiting? || (i == Handled(s.groups) && s.phase[i].Leading?))
    && (forall k, i {:trigger s.groups[k], s.phase[i]} ::
       0 <= k < |s.groups| && s.groups[k].from <= i < s.groups[k].to && i < |s.phase| ==>
          s.phase[i] == Woken(s.groups[k].ok) || s.phase[i] == Returned(s.groups[k].ok))
  }

  ghost predicate Inv(s: State) {
    WellFormed(s) && PhasesOk(s) && GroupsOk(s.writers, s.groups) && s.lastSequence == Total(s.groups) && StageOk(s)
  }

  lemma EmptyKeepsInv()
    ensures Inv(Empty())
  {
  }

  lemma GroupStays(writers: seq<Writer>, w: Writer, g: Group)
    requires GroupOk(writers, g)
    ensures GroupOk(writers + [w], g)
  {
    assert (writers + [w])[g.from..g.to] == writers[g.from..g.to];
  }

  lemma EnqueueKeepsGroups(a: State, b: State, w: Writer)
    requires Inv(a) && b == a.(writers := a.writers + [w], phase := a.phase + [Waiting],
             queue := a.queue + [|a.writers|])
    ensures WellFormed(b) && PhasesOk(b) && GroupsOk(b.writers, b.groups)
  {
    forall k {:trigger b.groups[k]} | 0 <= k < |b.groups| ensures GroupOk(b.writers, b.groups[k]) {
      GroupStays(a.writers, w, a.groups[k]);
    }
    forall k, i {:trigger b.groups[k], b.phase[i]} | 0 <= k < |b.groups| && b.groups[k].from <= i < b.groups[k].to
        && i < |b.phase|
      ensures b.phase[i] == Woken(b.groups[k].ok) || b.phase[i] == Returned(b.groups[k].ok)
    {
      assert GroupOk(a.writers, a.groups[k]);
      assert a.phase[i] == Woken(a.groups[k].ok) || a.phase[i] == Returned(a.groups[k].ok);
    }
  }

  lemma StageStays(ws: seq<Writer>, w: Writer, stage: Stage, log: seq<LogRecord>, mem: seq<Entry>,
                   done: seq<LogRecord>, added: seq<Entry>, next: nat)
    requires StageHolds(ws, stage, log, mem, done, added, next)
    ensures StageHolds(ws + [w], stage, log, mem, done, added, next)
  {
    if !stage.MakingRoom? && 0 < stage.n <= |ws| {
      assert (ws + [w])[..stage.n] == ws[..stage.n];
    }
  }

  lemma EnqueueKeepsStage(a: State, b: State, w: Writer)
    requires Inv(a) && b == a.(writers := a.writers + [w], phase := a.phase + [Waiting],
             queue := a.queue + [|a.writers|])
    requires WellFormed(b)
    ensures StageOk(b)
  {
    assert Queued(b) == Queued(a) + [w];
    var stage := if IsLeading(a) then StageOf(a) else MakingRoom;
    StageStays(Queued(a), w, stage, a.log, a.mem, LogOf(a.groups), MemOf(a.groups), a.lastSequence + 1);
    assert a.queue != [] ==> b.queue[0] == a.queue[0];
  }

  lemma EnqueueKeepsInv(a: State, b: State)
    requires Inv(a) && Enqueue(a, b)
    ensures Inv(b)
  {
    var w :| b == a.(writers := a.writers + [w], phase := a.phase + [Waiting], queue := a.queue + [|a.writers|]);
    EnqueueKeepsGroups(a, b, w);
    EnqueueKeepsStage(a, b, w);
  }

  /** Steps of the leader that only move it to another stage, or add to the log or the memtable. */
  lemma StageMoves(a: State, c: State, stage: Stage)
    requires Inv(a) && a.queue != [] && !a.phase[a.queue[0]].Woken? && !a.phase[a.queue[0]].Returned?
    requires c.writers == a.writers && c.phase == a.phase && c.queue == a.queue && c.lastSequence == a.lastSequence
             && c.groups == a.groups
    ensures var b := AtStage(c, stage);
            && WellFormed(b) && PhasesOk(b) && GroupsOk(b.writers, b.groups) && b.lastSequence == Total(b.groups)
            && IsLeading(b) && StageOf(b) == stage && Queued(b) == Queued(a) && Leader(b) == Leader(a)
  {
    var b := AtStage(c, stage);
    assert a.queue[0] == Handled(a.groups);
    forall k, i {:trigger b.groups[k], b.phase[i]} | 0 <= k < |b.groups| && b.groups[k].from <= i < b.groups[k].to
        && i < |b.phase|
      ensures b.phase[i] == Woken(b.groups[k].ok) || b.phase[i] == Returned(b.groups[k].ok)
    {
      assert a.phase[i] == Woken(a.groups[k].ok) || a.phase[i] == Returned(a.groups[k].ok);
    }
  }

  lemma LeadKeepsInv(a: State, b: State)
    requires Inv(a) && Lead(a, b)
    ensures Inv(b)
  {
    StageMoves(a, a, MakingRoom);
  }

  lemma MakeRoomKeepsInv(a: State, b: State)
    requires Inv(a) && MakeRoom(a, b)
    ensures Inv(b)
  {
    var stage := StageOf(b);
    StageMoves(a, a, stage);
    if stage.Logging? {
      var n: nat :| IsGroup(Queued(a), n) && b == AtStage(a, Logging(n, AllUpdates(Queued(a)[..n])));
      GroupSyncs(Queued(a), n);
    } else {
      assert a.log + [] == a.log && a.mem + [] == a.mem && a.mem + EntriesFrom(a.lastSequence + 1, []) == a.mem;
    }
  }

  lemma LogMovesStage(ws: seq<Writer>, stage: Stage, stage': Stage, log: seq<LogRecord>, log': seq<LogRecord>,
      mem: seq<Entry>,
                      added: seq<Entry>, next: nat)
    requires stage.Logging? && StageHolds(ws, stage, log, mem, log, added, next)
    requires var n, updates := stage.n, stage.updates;
             || (log' == log + [LogRecord(next, updates)] && stage' == if ws[0].sync then Syncing(n, updates)
                else Inserting(n, updates))
             || (log' == log + [LogRecord(next, updates)] && stage' == Ending(n, updates, false, true, false))
             || (log' == log && stage' == Ending(n, updates, false, false, false))
    ensures StageHolds(ws, stage', log', mem, log, added, next)
  {
  }

  lemma LogKeepsStage(a: State, b: State)
    requires WellFormed(a) && StageOk(a) && Log(a, b) && WellFormed(b) && IsLeading(b) && Queued(b) == Queued(a)
             && b.groups == a.groups
    ensures StageOk(b)
  {
    LogMovesStage(Queued(a), StageOf(a), StageOf(b), a.log, b.log, a.mem, MemOf(a.groups), a.lastSequence + 1);
  }

  lemma LogKeepsInv(a: State, b: State)
    requires Inv(a) && Log(a, b)
    ensures Inv(b)
  {
    hide GroupsOk, PhasesOk, Total, LogOf, MemOf, AllUpdates, Handled;
    StageMoves(a, b.(phase := a.phase), StageOf(b));
    assert b == AtStage(b.(phase := a.phase), StageOf(b));
    LogKeepsStage(a, b);
  }

  lemma SyncKeepsInv(a: State, b: State)
    requires Inv(a) && Sync(a, b)
    ensures Inv(b)
  {
    hide GroupsOk, PhasesOk, Total, LogOf, MemOf, AllUpdates, Handled;
    StageMoves(a, b.(phase := a.phase), StageOf(b));
    assert b == AtStage(b.(phase := a.phase), StageOf(b));
  }

  lemma InsertKeepsInv(a: State, b: State)
    requires Inv(a) && Insert(a, b)
    ensures Inv(b)
  {
    hide GroupsOk, PhasesOk, Total, LogOf, MemOf, AllUpdates, Handled;
    StageMoves(a, b.(phase := a.phase), StageOf(b));
    assert b == AtStage(b.(phase := a.phase), StageOf(b));
  }

  lemma ReturnKeepsPhases(a: State, b: State, i: nat)
    requires WellFormed(a) && PhasesOk(a) && i < |a.phase| && a.phase[i].Woken?
             && b == a.(phase := a.phase[i := Returned(a.phase[i].ok)])
    ensures WellFormed(b) && PhasesOk(b) && i < Handled(a.groups) && (a.queue != [] ==> a.queue[0] != i)
  {
    forall k, j {:trigger b.groups[k], b.phase[j]} | 0 <= k < |b.groups| && b.groups[k].from <= j < b.groups[k].to
        && j < |b.phase|
      ensures b.phase[j] == Woken(b.groups[k].ok) || b.phase[j] == Returned(b.groups[k].ok)
    {
      assert a.phase[j] == Woken(a.groups[k].ok) || a.phase[j] == Returned(a.groups[k].ok);
    }
  }

  lemma ReturnKeepsInv(a: State, b: State)
    requires Inv(a) && Return(a, b)
    ensures Inv(b)
  {
    hide GroupsOk, PhasesOk, Total, LogOf, MemOf, AllUpdates, Handled, StageHolds;
    var i :| 0 <= i < |a.phase| && a.phase[i].Woken? && b == a.(phase := a.phase[i := Returned(a.phase[i].ok)]);
    ReturnKeepsPhases(a, b, i);
    assert Queued(b) == Queued(a);
  }

  // ---- The end of a group

  lemma OneMoreGroup(groups: seq<Group>, g: Group)
    ensures Handled(groups + [g]) == g.to && Total(groups + [g]) == Total(groups) + |g.updates|
    ensures LogOf(groups + [g]) == LogOf(groups) + if g.logged then [LogRecord(g.first, g.updates)] else []
    ensures MemOf(groups + [g]) == MemOf(groups) + if g.ok then EntriesFrom(g.first, g.updates) else []
  {
    assert (groups + [g])[..|groups|] == groups;
  }

  /** The group that ends holds what the leader gathered. */
  lemma EndedGroupOk(writers: seq<Writer>, ws: seq<Writer>, g: Group)
    requires g.from + |ws| == |writers| && ws == writers[g.from..] && g.from < g.to <= |writers|
    requires var n := g.to - g.from;
             Gathered(ws, n, g.updates) || (n == 1 && g.updates == [] && !g.logged && (g.ok ==> ws[0].batch.None?))
    requires g.ok && ws[0].batch.Some? ==> g.logged && (ws[0].sync ==> g.synced)
    ensures GroupOk(writers, g)
  {
    var n := g.to - g.from;
    assert ws[..n] == writers[g.from..g.to] && ws[0] == writers[g.from];
    forall i | g.from <= i < g.to && writers[i].sync ensures writers[g.from].sync {
      assert ws[i - g.from] == writers[i];
    }
    if !Gathered(ws, n, g.updates) {
      assert ws[..1][..0] == [] && AllUpdates(ws[..1]) == UpdatesOf(ws[0]);
    }
  }

  lemma QueuedIsTail(s: State)
    requires WellFormed(s) && PhasesOk(s) && s.queue != []
    ensures Queued(s) == s.writers[s.queue[0]..]
  {
    assert s.queue[0] == Handled(s.groups);
  }

  lemma EndKeepsPhases(a: State, b: State, g: Group, n: nat)
    requires WellFormed(a) && PhasesOk(a) && GroupsOk(a.writers, a.groups) && 0 < n <= |a.queue|
    requires g.from == a.queue[0] && g.to == a.queue[0] + n
    requires b.writers == a.writers && b.queue == a.queue[n..] && b.groups == a.groups + [g]
    requires |b.phase| == |a.phase| && forall i {:trigger b.phase[i]} :: 0 <= i < |a.phase| ==>
               if g.from <= i < g.to then b.phase[i] == Woken(g.ok)
                   || b.phase[i] == Returned(g.ok) else b.phase[i] == a.phase[i]
    ensures WellFormed(b) && PhasesOk(b)
  {
    OneMoreGroup(a.groups, g);
    assert g.from == Handled(a.groups);
    forall k, i {:trigger b.groups[k], b.phase[i]} | 0 <= k < |b.groups| && b.groups[k].from <= i < b.groups[k].to
        && i < |b.phase|
      ensures b.phase[i] == Woken(b.groups[k].ok) || b.phase[i] == Returned(b.groups[k].ok)
    {
      if k < |a.groups| {
        GroupsAscend(a.writers, a.groups, k);
        assert a.phase[i] == Woken(a.groups[k].ok) || a.phase[i] == Returned(a.groups[k].ok);
      }
    }
  }

  /** Waking the first `n` of the queue changes the phases of writers `from` to `from + n`. */
  lemma WokenGroup(phase: seq<Phase>, queue: seq<nat>, from: nat, n: nat, ok: bool)
    requires 0 < n <= |queue| && from + |queue| == |phase|
    requires forall j {:trigger queue[j]} :: 0 <= j < |queue| ==> queue[j] == from + j
    ensures var phase' := WithPhases(phase, queue[..n], Woken(ok))[from := Returned(ok)];
            forall i :: 0 <= i < |phase| ==>
              phase'[i] == if i == from then Returned(ok) else if from <= i < from + n then Woken(ok) else phase[i]
  {
    var ids := queue[..n];
    forall i | 0 <= i < |phase| ensures i in ids <==> from <= i < from + n {
      if from <= i < from + n {
        assert ids[i - from] == i;
      }
    }
  }

  lemma {:induction false} GroupsAscend(writers: seq<Writer>, groups: seq<Group>, k: nat)
    requires GroupsOk(writers, groups) && k < |groups|
    ensures groups[k].to <= Handled(groups)
    decreases |groups|
  {
    var last := |groups| - 1;
    if k < last {
      var before := groups[..last];
      assert GroupsOk(writers, before) by {
        forall j {:trigger before[j]} | 0 <= j < |before|
          ensures GroupOk(writers, before[j]) && before[j].from == Handled(before[..j])
                  && before[j].first == Total(before[..j]) + 1
        {
          assert before[..j] == groups[..j] && before[j] == groups[j];
        }
      }
      GroupsAscend(writers, before, k);
      assert groups[last].from == Handled(before) && GroupOk(writers, groups[last]);
    }
  }

  lemma EndKeepsGroups(writers: seq<Writer>, groups: seq<Group>, g: Group)
    requires GroupsOk(writers, groups) && GroupOk(writers, g) && g.from == Handled(groups)
             && g.first == Total(groups) + 1
    ensures GroupsOk(writers, groups + [g])
  {
    var t := groups + [g];
    forall k {:trigger t[k]} | 0 <= k < |t|
      ensures GroupOk(writers, t[k]) && t[k].from == Handled(t[..k]) && t[k].first == Total(t[..k]) + 1
    {
      assert t[..k] == groups[..k];
      if k == |groups| {
        assert groups[..k] == groups;
      } else {
        assert t[k] == groups[k];
      }
    }
  }

  function EndedGroup(a: State): Group
    requires |a.queue| > 0 && a.queue[0] < |a.phase| && a.phase[a.queue[0]].Leading? && StageOf(a).Ending?
  {
    var Ending(n, updates, ok, logged, synced) := StageOf(a);
    Group(a.queue[0], a.queue[0] + n, a.lastSequence + 1, updates, ok, logged, synced)
  }

  lemma EndedGroupIsOk(a: State)
    requires WellFormed(a) && PhasesOk(a) && StageOk(a) && IsLeading(a) && StageOf(a).Ending?
    ensures 0 < StageOf(a).n <= |a.queue| && GroupOk(a.writers, EndedGroup(a))
            && EndedGroup(a).from == Handled(a.groups)
  {
    QueuedIsTail(a);
    assert a.queue[0] == Handled(a.groups);
    EndedGroupOk(a.writers, Queued(a), EndedGroup(a));
  }

  lemma EndedGroupIsRecorded(a: State)
    requires WellFormed(a) && StageOk(a) && IsLeading(a) && StageOf(a).Ending?
    ensures LogOf(a.groups + [EndedGroup(a)]) == a.log && MemOf(a.groups + [EndedGroup(a)]) == a.mem
  {
    OneMoreGroup(a.groups, EndedGroup(a));
  }

  lemma EndRecordsGroup(a: State, b: State)
    requires Inv(a) && End(a, b)
    ensures 0 < StageOf(a).n && b.groups == a.groups + [EndedGroup(a)]
    ensures GroupsOk(b.writers, b.groups) && b.lastSequence == Total(b.groups) && LogOf(b.groups) == b.log
            && MemOf(b.groups) == b.mem
  {
    EndedGroupIsOk(a);
    EndedGroupIsRecorded(a);
    EndKeepsGroups(a.writers, a.groups, EndedGroup(a));
    OneMoreGroup(a.groups, EndedGroup(a));
  }

  lemma EndWakesGroup(a: State, b: State)
    requires WellFormed(a) && PhasesOk(a) && GroupsOk(a.writers, a.groups) && End(a, b) && 0 < StageOf(a).n
    requires b.groups == a.groups + [EndedGroup(a)]
    ensures WellFormed(b) && PhasesOk(b) && !IsLeading(b)
  {
    var g, n := EndedGroup(a), StageOf(a).n;
    WokenGroup(a.phase, a.queue, g.from, n, g.ok);
    EndKeepsPhases(a, b, g, n);
    assert b.queue != [] ==> b.queue[0] == a.queue[n] && b.phase[b.queue[0]] == a.phase[a.queue[n]];
  }

  lemma EndKeepsInv(a: State, b: State)
    requires Inv(a) && End(a, b)
    ensures Inv(b)
  {
    EndRecordsGroup(a, b);
    EndWakesGroup(a, b);
  }

  lemma StepKeepsInv(a: State, b: State)
    requires Inv(a) && Step(a, b)
    ensures Inv(b)
  {
    if Enqueue(a, b) {
      EnqueueKeepsInv(a, b);
    } else if Lead(a, b) {
      LeadKeepsInv(a, b);
    } else if MakeRoom(a, b) {
      MakeRoomKeepsInv(a, b);
    } else if Log(a, b) {
      LogKeepsInv(a, b);
    } else if Sync(a, b) {
      SyncKeepsInv(a, b);
    } else if Insert(a, b) {
      InsertKeepsInv(a, b);
    } else if End(a, b) {
      EndKeepsInv(a, b);
    } else if Return(a, b) {
      ReturnKeepsInv(a, b);
    } else {
      FailKeepsInv(a, b);
    }
  }

  lemma FailKeepsInv(a: State, b: State)
    requires Inv(a) && Fail(a, b)
    ensures Inv(b)
  {
    assert Queued(b) == Queued(a);
  }

  ghost predicate StepAt(run: seq<State>, i: nat)
    requires i + 1 < |run|
  {
    Step(run[i], run[i + 1])
  }

  ghost predicate IsRun(run: seq<State>) {
    run != [] && run[0] == Empty() && forall i :: 0 <= i < |run| - 1 ==> StepAt(run, i)
  }

  /** In every run writers are handled in queue order, and the log and the memtable hold what the groups say. */
  lemma {:induction false} RunKeepsInv(run: seq<State>, i: nat)
    requires IsRun(run) && i < |run|
    ensures Inv(run[i])
  {
    if i == 0 {
      EmptyKeepsInv();
    } else {
      RunKeepsInv(run, i - 1);
      assert StepAt(run, i - 1);
      StepKeepsInv(run[i - 1], run[i]);
    }
  }

  // ---- What a returned status means

  lemma {:induction false} HandledInGroup(writers: seq<Writer>, groups: seq<Group>, i: nat) returns (k: nat)
    requires GroupsOk(writers, groups) && i < Handled(groups)
    ensures k < |groups| && groups[k].from <= i < groups[k].to
    decreases |groups|
  {
    var last := |groups| - 1;
    if i >= groups[last].from {
      k := last;
    } else {
      var before := groups[..last];
      FirstGroupsOk(writers, groups, last);
      assert groups[last].from == Handled(before);
      k := HandledInGroup(writers, before, i);
    }
  }

  lemma FirstGroupsOk(writers: seq<Writer>, groups: seq<Group>, n: nat)
    requires GroupsOk(writers, groups) && n <= |groups|
    ensures GroupsOk(writers, groups[..n])
  {
    var before := groups[..n];
    forall j {:trigger before[j]} | 0 <= j < |before|
      ensures GroupOk(writers, before[j]) && before[j].from == Handled(before[..j])
              && before[j].first == Total(before[..j]) + 1
    {
      assert before[..j] == groups[..j] && before[j] == groups[j];
    }
  }

  /** Where the updates of writer `i` start among those of `ws`. */
  lemma {:induction false} UpdatesAt(ws: seq<Writer>, i: nat) returns (off: nat)
    requires i < |ws|
    ensures off == |AllUpdates(ws[..i])| && off + |UpdatesOf(ws[i])| <= |AllUpdates(ws)|
    ensures AllUpdates(ws)[off..off + |UpdatesOf(ws[i])|] == UpdatesOf(ws[i])
    decreases |ws|
  {
    var last := |ws| - 1;
    var before := ws[..last];
    if i == last {
      off := |AllUpdates(before)|;
    } else {
      off := UpdatesAt(before, i);
      assert before[..i] == ws[..i] && before[i] == ws[i];
    }
  }

  /** Group `k` starts at place `p` of the memtable contents. */
  lemma {:induction false} GroupInMem(groups: seq<Group>, k: nat) returns (p: nat)
    requires k < |groups| && groups[k].ok
    ensures p + |groups[k].updates| <= |MemOf(groups)|
    ensures MemOf(groups)[p..p + |groups[k].updates|] == EntriesFrom(groups[k].first, groups[k].updates)
    decreases |groups|
  {
    var last := |groups| - 1;
    var before, added := MemOf(groups[..last]), EntriesFrom(groups[last].first, groups[last].updates);
    if k == last {
      p := |before|;
      assert (before + added)[p..] == added;
    } else {
      p := GroupInMem(groups[..last], k);
      assert MemOf(groups)[..|before|] == before;
      assert MemOf(groups)[p..p + |groups[k].updates|] == before[p..p + |groups[k].updates|];
    }
  }

  lemma {:induction false} GroupInLog(groups: seq<Group>, k: nat)
    requires k < |groups| && groups[k].logged
    ensures LogRecord(groups[k].first, groups[k].updates) in LogOf(groups)
    decreases |groups|
  {
    if k < |groups| - 1 {
      GroupInLog(groups[..|groups| - 1], k);
    }
  }

  lemma EntriesOfPart(first: nat, updates: seq<Update>, off: nat, n: nat)
    requires off + n <= |updates|
    ensures EntriesFrom(first, updates)[off..off + n] == EntriesFrom(first + off, updates[off..off + n])
  {
  }

  lemma OkGroup(s: State, i: nat) returns (k: nat)
    requires WellFormed(s) && PhasesOk(s) && GroupsOk(s.writers, s.groups) && i < |s.writers|
    requires s.phase[i] == Woken(true) || s.phase[i] == Returned(true)
    ensures k < |s.groups| && s.groups[k].from <= i < s.groups[k].to && s.groups[k].ok
            && GroupOk(s.writers, s.groups[k])
  {
    assert i < Handled(s.groups);
    k := HandledInGroup(s.writers, s.groups, i);
    assert s.phase[i] == Woken(s.groups[k].ok) || s.phase[i] == Returned(s.groups[k].ok);
  }

  /** The updates of writer `i` within its group. */
  lemma PlaceInGroup(writers: seq<Writer>, g: Group, i: nat) returns (off: nat)
    requires GroupOk(writers, g) && g.ok && g.from <= i < g.to && writers[i].batch.Some?
    ensures var updates := writers[i].batch.value.updates;
            && off == |AllUpdates(writers[g.from..i])| && off + |updates| <= |g.updates|
               && g.updates[off..off + |updates|] == updates
    ensures g.logged && (writers[i].sync ==> g.synced)
  {
    hide AllUpdates;
    var ws := writers[g.from..g.to];
    assert ws[..i - g.from] == writers[g.from..i] && ws[i - g.from] == writers[i];
    off := UpdatesAt(ws, i - g.from);
    assert writers[g.from].batch.Some? && (writers[i].sync ==> writers[g.from].sync);
  }

  /** Part of a successful group's updates, in the memtable. */
  lemma PartInMem(groups: seq<Group>, mem: seq<Entry>, k: nat, off: nat, n: nat) returns (p: nat)
    requires k < |groups| && groups[k].ok && off + n <= |groups[k].updates| && MemOf(groups) <= mem
    ensures p + n <= |MemOf(groups)| && mem[p..p + n] == EntriesFrom(groups[k].first + off,
            groups[k].updates[off..off + n])
  {
    var g := groups[k];
    var start := GroupInMem(groups, k);
    p := start + off;
    EntriesOfPart(g.first, g.updates, off, n);
    SliceInMem(MemOf(groups), mem, start, |g.updates|, off, n);
  }

  lemma SliceInMem(mem: seq<Entry>, all: seq<Entry>, start: nat, n: nat, off: nat, m: nat)
    requires mem <= all && start + n <= |mem| && off + m <= n
    ensures all[start + off..start + off + m] == mem[start..start + n][off..off + m]
  {
    assert all[..|mem|] == mem;
    var a, b := all[start + off..start + off + m], mem[start..start + n][off..off + m];
    forall i | 0 <= i < m ensures a[i] == b[i] {
      assert all[start + off + i] == mem[start + off + i];
    }
  }

  /**
   The batch of writer `i` is in the log, as part of one record, and in the memtable, under
   the sequence numbers that follow those of the batches before it; and if it asked for that,
   the record was synced.
   */
  ghost predicate Written(s: State, g: Group, i: nat, off: nat, p: nat)
    requires g.from <= i < |s.writers| && s.writers[i].batch.Some?
  {
    var updates := s.writers[i].batch.value.updates;
    && LogRecord(g.first, g.updates) in LogOf(s.groups) && LogOf(s.groups) <= s.log
    && off == |AllUpdates(s.writers[g.from..i])| && off + |updates| <= |g.updates|
       && g.updates[off..off + |updates|] == updates
    && p + |updates| <= |MemOf(s.groups)| && MemOf(s.groups) <= s.mem
       && s.mem[p..p + |updates|] == EntriesFrom(g.first + off, updates)
    && (s.writers[i].sync ==> g.synced)
  }

  /** A record of the log holds some of the `n` sequence numbers from `first` on. */
  predicate Carries(r: LogRecord, first: nat, n: nat) {
    n > 0 && r.first < first + n && first < r.first + |r.updates|
  }

  /** Sequence numbers of one batch: the log has them in record `l` only, the memtable from `p` on only. */
  ghost predicate OnlyThere(s: State, first: nat, n: nat, l: nat, p: nat) {
    && (forall m :: 0 <= m < |s.log| && Carries(s.log[m], first, n) ==> m == l)
    && (forall q :: 0 <= q < |s.mem| && first <= s.mem[q].key.seqno < first + n ==> p <= q < p + n)
  }

  /**
   A writer that was told its batch succeeded finds it written just once, as part of the one
   group it was in.
   */
  lemma OkMeansWritten(s: State, i: nat) returns (k: nat, off: nat, l: nat, p: nat)
    requires Inv(s) && i < |s.writers| && s.writers[i].batch.Some?
    requires s.phase[i] == Woken(true) || s.phase[i] == Returned(true)
    ensures forall j {:trigger s.groups[j]} :: 0 <= j < |s.groups| ==>
              (s.groups[j].from <= i < s.groups[j].to <==> j == k)
    ensures k < |s.groups| && s.groups[k].from <= i && Written(s, s.groups[k], i, off, p)
    ensures l < |s.log| && s.log[l] == LogRecord(s.groups[k].first, s.groups[k].updates)
    ensures OnlyThere(s, s.groups[k].first + off, |s.writers[i].batch.value.updates|, l, p)
  {
    hide Written, OnlyThere, StageHolds, GroupsOk, PhasesOk, LogOf, MemOf;
    k := OkGroup(s, i);
    InOneGroup(s.writers, s.groups, i, k);
    HoldsHistory(s);
    off, p := GroupIsWritten(s, k, i);
    l := RecordOf(s, s.groups[k], i, off, p);
    HistoryAscends(s);
    WrittenOnce(s, s.groups[k], i, off, l, p);
  }

  lemma InOneGroup(writers: seq<Writer>, groups: seq<Group>, i: nat, k: nat)
    requires GroupsOk(writers, groups) && k < |groups| && groups[k].from <= i < groups[k].to
    ensures forall j {:trigger groups[j]} :: 0 <= j < |groups| ==> (groups[j].from <= i < groups[j].to <==> j == k)
  {
    forall j {:trigger groups[j]} | 0 <= j < |groups| && j != k ensures !(groups[j].from <= i < groups[j].to) {
      var a, b := if j < k then j else k, if j < k then k else j;
      FirstGroupsOk(writers, groups, b);
      GroupsAscend(writers, groups[..b], a);
    }
  }

  lemma RecordOf(s: State, g: Group, i: nat, off: nat, p: nat) returns (l: nat)
    requires g.from <= i < |s.writers| && s.writers[i].batch.Some? && Written(s, g, i, off, p)
    ensures l < |s.log| && s.log[l] == LogRecord(g.first, g.updates)
  {
    var log := LogOf(s.groups);
    l :| 0 <= l < |log| && log[l] == LogRecord(g.first, g.updates);
  }

  lemma WrittenOnce(s: State, g: Group, i: nat, off: nat, l: nat, p: nat)
    requires g.from <= i < |s.writers| && s.writers[i].batch.Some? && Written(s, g, i, off, p)
    requires l < |s.log| && s.log[l] == LogRecord(g.first, g.updates) && LogAscends(s.log) && MemAscends(s.mem)
    ensures OnlyThere(s, g.first + off, |s.writers[i].batch.value.updates|, l, p)
  {
    hide LogOf, MemOf, AllUpdates;
    var first, n := g.first + off, |s.writers[i].batch.value.updates|;
    forall m | 0 <= m < |s.log| && Carries(s.log[m], first, n) ensures m == l {
      assert m < l ==> Precedes(s.log[m], s.log[l]);
      assert l < m ==> Precedes(s.log[l], s.log[m]);
    }
    forall q | 0 <= q < |s.mem| && first <= s.mem[q].key.seqno < first + n ensures p <= q < p + n {
      var batch := s.mem[p..p + n];
      assert batch[0].key.seqno == first && batch[n - 1].key.seqno == first + n - 1;
      assert s.mem[p] == batch[0] && s.mem[p + n - 1] == batch[n - 1];
    }
  }

  // ---- Sequence numbers ascend

  predicate Precedes(r: LogRecord, t: LogRecord) {
    r.first + |r.updates| <= t.first
  }

  /** No two records of the log share a sequence number. */
  ghost predicate LogAscends(log: seq<LogRecord>) {
    forall a, b :: 0 <= a < b < |log| ==> Precedes(log[a], log[b])
  }

  /** The memtable has each sequence number at most once. */
  ghost predicate MemAscends(mem: seq<Entry>) {
    forall i, j :: 0 <= i < j < |mem| ==> mem[i].key.seqno < mem[j].key.seqno
  }

  /** Each group starts behind the sequence numbers of those before it. */
  ghost predicate Numbered(groups: seq<Group>) {
    forall k {:trigger groups[k]} :: 0 <= k < |groups| ==> groups[k].first == Total(groups[..k]) + 1
  }

  lemma {:induction false} GroupsAreApart(groups: seq<Group>, j: nat, k: nat)
    requires Numbered(groups) && j < k < |groups|
    ensures groups[j].first + |groups[j].updates| <= groups[k].first
    decreases k
  {
    TotalOneMore(groups, k - 1);
    if j < k - 1 {
      GroupsAreApart(groups, j, k - 1);
    }
  }

  lemma TotalOneMore(groups: seq<Group>, k: nat)
    requires k < |groups|
    ensures Total(groups[..k + 1]) == Total(groups[..k]) + |groups[k].updates|
  {
    assert groups[..k + 1][..k] == groups[..k];
  }

  lemma {:induction false} SequencesAscend(groups: seq<Group>)
    requires Numbered(groups)
    ensures forall e :: e in MemOf(groups) ==> 0 < e.key.seqno <= Total(groups)
    ensures forall r :: r in LogOf(groups) ==> r.first + |r.updates| <= Total(groups) + 1
    ensures MemAscends(MemOf(groups)) && LogAscends(LogOf(groups))
    decreases |groups|
  {
    if groups != [] {
      var last := |groups| - 1;
      var before, g := groups[..last], groups[last];
      assert forall k {:trigger before[k]} :: 0 <= k < last ==> before[k] == groups[k] && before[..k] == groups[..k];
      SequencesAscend(before);
      var mem, log := MemOf(groups), LogOf(groups);
      forall i, j | 0 <= i < j < |mem| ensures mem[i].key.seqno < mem[j].key.seqno {
        assert i < |MemOf(before)| ==> MemOf(before)[i] in MemOf(before);
      }
      forall i, j | 0 <= i < j < |log| ensures Precedes(log[i], log[j]) {
        assert log[i] in LogOf(before);
        assert j < |LogOf(before)| ==> Precedes(LogOf(before)[i], LogOf(before)[j]);
      }
    }
  }

  /** The groups so far, and the one that is being written, if there is one, account for all that is there. */
  lemma WithCurrentGroup(s: State) returns (groups: seq<Group>)
    requires Inv(s)
    ensures Numbered(groups) && s.groups <= groups && s.log == LogOf(groups) && s.mem == MemOf(groups)
  {
    hide LogOf, MemOf, Total, AllUpdates;
    groups := s.groups;
    if IsLeading(s) && !StageOf(s).MakingRoom? {
      var stage, from := StageOf(s), s.queue[0];
      var ok := stage.Ending? && stage.ok;
      var logged := stage.Syncing? || stage.Inserting? || (stage.Ending? && stage.logged);
      var g := Group(from, from + stage.n, s.lastSequence + 1, stage.updates, ok, logged, false);
      OneMoreGroup(groups, g);
      groups := groups + [g];
      forall k {:trigger groups[k]} | 0 <= k < |groups| ensures groups[k].first == Total(groups[..k]) + 1 {
        assert groups[..k] == s.groups[..k];
        assert s.groups[..|s.groups|] == s.groups;
      }
    }
  }

  /** In every state of a run no sequence number is in two records, or in the memtable twice. */
  lemma HistoryAscends(s: State)
    requires Inv(s)
    ensures LogAscends(s.log) && MemAscends(s.mem)
  {
    hide LogAscends, MemAscends;
    var groups := WithCurrentGroup(s);
    SequencesAscend(groups);
  }

  /** A reader at LastSequence sees the groups that have ended, and nothing of the one being written. */
  lemma EndedIsVisible(s: State)
    requires Inv(s)
    ensures forall q :: 0 <= q < |s.mem| ==> (s.mem[q].key.seqno <= s.lastSequence <==> q < |MemOf(s.groups)|)
  {
    hide LogOf, MemOf, Total, AllUpdates;
    SequencesAscend(s.groups);
    HoldsHistory(s);
    assert forall q :: 0 <= q < |MemOf(s.groups)| ==> s.mem[q] in MemOf(s.groups);
  }

  /** Batches of different writers have different sequence numbers, in the order the writers came. */
  lemma BatchesAreApart(s: State, i: nat, j: nat, k: nat, m: nat, off: nat, off': nat, p: nat, p': nat)
    requires Inv(s) && i < j < |s.writers| && s.writers[i].batch.Some? && s.writers[j].batch.Some?
    requires k < |s.groups| && s.groups[k].from <= i < s.groups[k].to && Written(s, s.groups[k], i, off, p)
    requires m < |s.groups| && s.groups[m].from <= j < s.groups[m].to && Written(s, s.groups[m], j, off', p')
    ensures s.groups[k].first + off + |s.writers[i].batch.value.updates| <= s.groups[m].first + off'
  {
    hide LogOf, MemOf, AllUpdates, PhasesOk, StageHolds;
    if k == m {
      var ws := s.writers[s.groups[k].from..j];
      var at := UpdatesAt(ws, i - s.groups[k].from);
      assert ws[..i - s.groups[k].from] == s.writers[s.groups[k].from..i];
    } else {
      InOneGroup(s.writers, s.groups, i, k);
      if m < k {
        FirstGroupsOk(s.writers, s.groups, k);
        GroupsAscend(s.writers, s.groups[..k], m);
      }
      GroupsAreApart(s.groups, k, m);
    }
  }

  lemma GroupIsWritten(s: State, k: nat, i: nat) returns (off: nat, p: nat)
    requires k < |s.groups| && s.groups[k].ok && GroupOk(s.writers, s.groups[k])
    requires s.groups[k].from <= i < s.groups[k].to && s.writers[i].batch.Some?
    requires LogOf(s.groups) <= s.log && MemOf(s.groups) <= s.mem
    ensures Written(s, s.groups[k], i, off, p)
  {
    hide LogOf, MemOf, AllUpdates, EntriesFrom;
    off := PlaceInGroup(s.writers, s.groups[k], i);
    GroupInLog(s.groups, k);
    p := PartInMem(s.groups, s.mem, k, off, |s.writers[i].batch.value.updates|);
  }

  /** Whatever the leader is doing, what earlier groups wrote is in front. */
  lemma HoldsHistory(s: State)
    requires WellFormed(s) && StageOk(s)
    ensures LogOf(s.groups) <= s.log && MemOf(s.groups) <= s.mem
  {
  }
}
