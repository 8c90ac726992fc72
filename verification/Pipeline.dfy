/**
 * The two-stage processing pipeline of the media worker as an interleaved step
 * system: bounded downloads feed a bounded channel, bounded workers encode,
 * check for duplicates and finalize. Decoding, encoding and the network are
 * outcomes chosen by the step; database commands are single steps that may
 * fail, and a failed finalize may have been applied.
 */
module Pipeline {
  import opened Prelude
  import opened PHash

  type Id = int

  datatype Row = Row(dirty: bool, deleted: bool, image: bool, hash: Hash)

  /** Where one post of the batch stands. */
  datatype Stage =
    | Waiting
    | Downloading
    | Dropping                  // download failed, row not yet deleted
    | Dropped
    | Sending                   // downloaded, waiting for room in the channel
    | Queued
    | Decoding
    | Encoding
    | Checking(hash: Hash)
    | ProcessingVideo
    | Finalizing(image: bool, hash: Hash)
    | Deleting                  // processing failed, row not yet deleted
    | Returned(ok: bool)
    | Counted(ok: bool)         // left the in-flight map, active and processed updated
    | Publishing(ok: bool)      // imported or failed updated, status being published
    | Resolved(ok: bool)

  datatype Config = Config(concurrency: nat, downloads: nat) {
    predicate Valid() { concurrency >= 1 && downloads >= 1 }

    function Capacity(): nat {
      (if downloads > concurrency then downloads else concurrency) * 2
    }
  }

  datatype Counts = Counts(pending: int, active: int, total: int, processed: int, imported: int, failed: int)

  /** The posts table, with two times kept for the statements below. */
  datatype Database = Database(
    rows: map<Id, Row>,
    checkedAt: map<Id, nat>,    // when the last duplicate check of a post passed
    cleanAt: map<Id, nat>)      // when a row became visible to duplicate checks

  datatype State = State(
    cfg: Config,
    ids: seq<Id>,
    stages: seq<Stage>,
    channel: seq<nat>,
    inFlight: set<Id>,
    counts: Counts,
    running: bool,              // a batch is being drained
    db: Database,
    now: nat)                   // number of steps taken so far

  const DUPLICATE_DISTANCE: nat := 50
  const NO_HASH := Hash(0, 0, 0, 0)

  datatype Event =
    | StartDownload(i: nat)
    | Downloaded(i: nat)
    | DownloadFailed(i: nat)
    | DropRow(i: nat, ok: bool)
    | Send(i: nat)
    | Begin
    | ClassifyImage(i: nat)
    | ClassifyVideo(i: nat)
    | ClassifyUnknown(i: nat)
    | Encoded(i: nat, hash: Hash)
    | EncodeFailed(i: nat)
    | Check(i: nat)
    | CheckFailed(i: nat)
    | VideoDone(i: nat)
    | VideoFailed(i: nat)
    | Finalize(i: nat)
    | FinalizeFailed(i: nat, applied: bool)
    | DeleteRow(i: nat, ok: bool)
    | Count(i: nat)
    | Tally(i: nat)
    | Published(i: nat)
    // the end of one batch and the start of the next
    | EndBatch
    | NextBatch(ids: seq<Id>)
    // the rest of the system
    | SoftDelete(id: Id)
    | Create(id: Id)
    | DeleteDirty(id: Id)

  // ---------- Classes of stages ----------

  predicate IsDownload(st: Stage) { st.Downloading? || st.Dropping? || st.Sending? }

  predicate IsActive(st: Stage) {
    || st.Decoding? || st.Encoding? || st.Checking? || st.ProcessingVideo?
    || st.Finalizing? || st.Deleting? || st.Returned?
  }

  /** Occupies one of the worker slots. */
  predicate IsWorking(st: Stage) { IsActive(st) || st.Counted? || st.Publishing? }

  predicate IsTracked(st: Stage) { st.Downloading? || st.Sending? || st.Queued? || IsActive(st) }

  predicate IsBegun(st: Stage) { IsWorking(st) || st.Resolved? }

  predicate IsProcessed(st: Stage) { st.Counted? || st.Publishing? || st.Resolved? }

  predicate IsImported(st: Stage) { (st.Publishing? || st.Resolved?) && st.ok }

  predicate IsFailed(st: Stage) { (st.Publishing? || st.Resolved?) && !st.ok }

  predicate IsDone(st: Stage) { st.Resolved? || st.Dropped? }

  /** Has not yet had its finalize executed. */
  predicate BeforeFinalize(st: Stage) {
    st.Waiting? || st.Downloading? || st.Dropping? || st.Sending? || st.Queued? || st.Decoding? || st.Encoding?
    || st.Checking? || st.ProcessingVideo? || st.Finalizing?
  }

  function Total(stages: seq<Stage>, p: Stage -> bool): nat {
    if stages == [] then 0 else Total(stages[..|stages| - 1], p) + if p(stages[|stages| - 1]) then 1 else 0
  }

  /** How many steps a post can still take. */
  function Rank(st: Stage): nat {
    match st
    case Waiting => 13
    case Downloading => 12
    case Dropping => 1
    case Dropped => 0
    case Sending => 11
    case Queued => 10
    case Decoding => 9
    case Encoding => 8
    case Checking(_) => 7
    case ProcessingVideo => 7
    case Finalizing(_, _) => 6
    case Deleting => 5
    case Returned(_) => 4
    case Counted(_) => 3
    case Publishing(_) => 2
    case Resolved(_) => 0
  }

  function Measure(stages: seq<Stage>): nat {
    if stages == [] then 0 else Measure(stages[..|stages| - 1]) + Rank(stages[|stages| - 1])
  }

  predicate Done(s: State) {
    forall i :: 0 <= i < |s.stages| ==> IsDone(s.stages[i])
  }

  // ---------- Database commands ----------

  /** What the duplicate query returns after its own post and dirty rows are filtered out. */
  predicate IsDuplicate(rows: map<Id, Row>, id: Id, hash: Hash, q: Id) {
    q in rows && q != id && !rows[q].dirty && !rows[q].deleted && Hamming(hash, rows[q].hash) < DUPLICATE_DISTANCE
  }

  predicate HasDuplicate(rows: map<Id, Row>, id: Id, hash: Hash) {
    exists q :: q in rows && IsDuplicate(rows, id, hash, q)
  }

  /** DELETE ... WHERE id AND dirty. */
  function WithoutDirty(rows: map<Id, Row>, id: Id): map<Id, Row> {
    if id in rows && rows[id].dirty then rows - {id} else rows
  }

  /** UPDATE ... SET hash, dirty = FALSE WHERE id; no row, no effect. */
  function Finalized(rows: map<Id, Row>, id: Id, image: bool, hash: Hash): map<Id, Row> {
    if id in rows then rows[id := rows[id].(dirty := false, image := image, hash := hash)] else rows
  }

  // ---------- Steps ----------

  predicate InRange(s: State, i: nat) {
    i < |s.stages| && i < |s.ids|
  }

  /** A step of the rest of the system. */
  predicate Elsewhere(e: Event) {
    e.SoftDelete? || e.Create? || e.DeleteDirty?
  }

  /** A step of the pipeline itself, as opposed to the next batch and the rest of the system. */
  predicate Internal(e: Event) {
    !e.EndBatch? && !e.NextBatch? && !Elsewhere(e)
  }

  /** The post a step moves, if there is one. */
  function Target(s: State, e: Event): nat
    requires Internal(e)
  {
    if e.Begin? then (if s.channel == [] then |s.stages| else s.channel[0]) else e.i
  }

  /** The stage a post is moved from. */
  predicate Leaves(st: Stage, e: Event)
    requires Internal(e)
  {
    match e
    case StartDownload(_) => st.Waiting?
    case Downloaded(_) => st.Downloading?
    case DownloadFailed(_) => st.Downloading?
    case DropRow(_, _) => st.Dropping?
    case Send(_) => st.Sending?
    case Begin => st.Queued?
    case ClassifyImage(_) => st.Decoding?
    case ClassifyVideo(_) => st.Decoding?
    case ClassifyUnknown(_) => st.Decoding?
    case Encoded(_, _) => st.Encoding?
    case EncodeFailed(_) => st.Encoding?
    case Check(_) => st.Checking?
    case CheckFailed(_) => st.Checking?
    case VideoDone(_) => st.ProcessingVideo?
    case VideoFailed(_) => st.ProcessingVideo?
    case Finalize(_) => st.Finalizing?
    case FinalizeFailed(_, _) => st.Finalizing?
    case DeleteRow(_, _) => st.Deleting?
    case Count(_) => st.Returned?
    case Tally(_) => st.Counted?
    case Published(_) => st.Publishing?
  }

  /** Downloads start in the order of the posts; downloads, channel and workers are bounded. */
  predicate HasRoom(s: State, e: Event)
    requires Internal(e) && (e.StartDownload? ==> e.i <= |s.stages|)
  {
    && (e.StartDownload? ==>
          Total(s.stages, IsDownload) < s.cfg.downloads && forall j :: 0 <= j < e.i ==> !s.stages[j].Waiting?)
    && (e.Send? ==> |s.channel| < s.cfg.Capacity())
    && (e.Begin? ==> s.channel != [] && Total(s.stages, IsWorking) < s.cfg.concurrency)
  }

  predicate Enabled(s: State, e: Event) {
    if Internal(e) then
      InRange(s, Target(s, e)) && Leaves(s.stages[Target(s, e)], e) && HasRoom(s, e)
    else
      match e
      case EndBatch => s.running && Done(s)
      case NextBatch(ids) => !s.running && ids != [] && IsDirtyListing(s.db.rows, ids)
      case SoftDelete(id) => id in s.db.rows
      case Create(id) => id !in s.db.rows && id !in s.ids
      case DeleteDirty(id) => id in s.db.rows && s.db.rows[id].dirty
  }

  /** The dirty, undeleted rows in ascending order of id. */
  predicate IsDirtyListing(rows: map<Id, Row>, ids: seq<Id>) {
    && (forall i, j :: 0 <= i < j < |ids| ==> ids[i] < ids[j])
    && (forall i :: 0 <= i < |ids| ==> ids[i] in rows && rows[ids[i]].dirty && !rows[ids[i]].deleted)
    && (forall id :: id in rows && rows[id].dirty && !rows[id].deleted ==> id in ids)
  }

  function NextStage(s: State, e: Event): Stage
    requires Enabled(s, e) && Internal(e)
  {
    match e
    case StartDownload(_) => Downloading
    case Downloaded(_) => Sending
    case DownloadFailed(_) => Dropping
    case DropRow(_, _) => Dropped
    case Send(_) => Queued
    case Begin => Decoding
    case ClassifyImage(_) => Encoding
    case ClassifyVideo(_) => ProcessingVideo
    case ClassifyUnknown(_) => Deleting
    case Encoded(_, h) => Checking(h)
    case EncodeFailed(_) => Deleting
    case Check(i) =>
      if HasDuplicate(s.db.rows, s.ids[i], s.stages[i].hash) then Deleting else Finalizing(true, s.stages[i].hash)
    case CheckFailed(_) => Deleting
    case VideoDone(_) => Finalizing(false, NO_HASH)
    case VideoFailed(_) => Deleting
    case Finalize(_) => Returned(true)
    case FinalizeFailed(_, _) => Deleting
    case DeleteRow(_, _) => Returned(false)
    case Count(i) => Counted(s.stages[i].ok)
    case Tally(i) => Publishing(s.stages[i].ok)
    case Published(i) => Resolved(s.stages[i].ok)
  }

  function ChannelAfter(s: State, e: Event): seq<nat>
    requires Enabled(s, e)
  {
    if e.Send? then s.channel + [e.i] else if e.Begin? then s.channel[1..] else s.channel
  }

  function InFlightAfter(s: State, e: Event): set<Id>
    requires Enabled(s, e)
  {
    if e.StartDownload? then s.inFlight + {s.ids[e.i]}
    else if e.DownloadFailed? || e.Count? then s.inFlight - {s.ids[e.i]}
    else s.inFlight
  }

  function CountsAfter(s: State, e: Event): Counts
    requires Enabled(s, e)
  {
    var c := s.counts;
    if e.Begin? then c.(pending := c.pending - 1, active := c.active + 1)
    else if e.Count? then c.(active := c.active - 1, processed := c.processed + 1)
    else if e.Tally? then
      if s.stages[e.i].ok then c.(imported := c.imported + 1) else c.(failed := c.failed + 1)
    else if e.EndBatch? then c.(pending := 0, active := 0)
    else if e.NextBatch? then Counts(|e.ids|, 0, |e.ids|, 0, 0, 0)
    else c
  }

  /** The row write of a finalize, with the time that duplicate checks are compared against. */
  function WriteFinal(db: Database, id: Id, image: bool, hash: Hash, now: nat): Database {
    if id in db.rows then db.(rows := Finalized(db.rows, id, image, hash), cleanAt := db.cleanAt[id := now]) else db
  }

  function DbAfter(s: State, e: Event): Database
    requires Enabled(s, e)
  {
    match e
    case DropRow(i, ok) => if ok then s.db.(rows := WithoutDirty(s.db.rows, s.ids[i])) else s.db
    case DeleteRow(i, ok) => if ok then s.db.(rows := WithoutDirty(s.db.rows, s.ids[i])) else s.db
    case Check(i) =>
      if HasDuplicate(s.db.rows, s.ids[i], s.stages[i].hash) then s.db
      else s.db.(checkedAt := s.db.checkedAt[s.ids[i] := s.now])
    case Finalize(i) => WriteFinal(s.db, s.ids[i], s.stages[i].image, s.stages[i].hash, s.now)
    case FinalizeFailed(i, applied) =>
      if applied then WriteFinal(s.db, s.ids[i], s.stages[i].image, s.stages[i].hash, s.now) else s.db
    case SoftDelete(id) => s.db.(rows := s.db.rows[id := s.db.rows[id].(deleted := true)])
    case Create(id) => s.db.(rows := s.db.rows[id := Row(true, false, false, NO_HASH)])
    case DeleteDirty(id) => s.db.(rows := s.db.rows - {id})
    case _ => s.db
  }

  function RunningAfter(s: State, e: Event): bool {
    if e.NextBatch? then true else if e.EndBatch? then false else s.running
  }

  function IdsAfter(s: State, e: Event): seq<Id> {
    if e.NextBatch? then e.ids else s.ids
  }

  function StagesAfter(s: State, e: Event): seq<Stage>
    requires Enabled(s, e)
  {
    if Internal(e) then s.stages[Target(s, e) := NextStage(s, e)]
    else if e.NextBatch? then seq(|e.ids|, _ => Waiting)
    else s.stages
  }

  function Apply(s: State, e: Event): State
    requires Enabled(s, e)
  {
    State(s.cfg, IdsAfter(s, e), StagesAfter(s, e), ChannelAfter(s, e), InFlightAfter(s, e),
          CountsAfter(s, e), RunningAfter(s, e), DbAfter(s, e), s.now + 1)
  }

  // ---------- Counting ----------

  lemma {:induction false} TotalUpdate(stages: seq<Stage>, i: nat, st: Stage, p: Stage -> bool)
    requires i < |stages|
    ensures Total(stages[i := st], p) == Total(stages, p) - (if p(stages[i]) then 1 else 0) + (if p(st) then 1 else 0)
  {
    var n := |stages| - 1;
    if i < n {
      TotalUpdate(stages[..n], i, st, p);
      assert stages[i := st][..n] == stages[..n][i := st];
    } else {
      assert stages[i := st][..n] == stages[..n];
    }
  }

  lemma {:induction false} TotalWitness(stages: seq<Stage>, p: Stage -> bool) returns (i: nat)
    requires Total(stages, p) > 0
    ensures i < |stages| && p(stages[i])
  {
    var n := |stages| - 1;
    if p(stages[n]) {
      i := n;
    } else {
      i := TotalWitness(stages[..n], p);
    }
  }

  lemma {:induction false} TotalZero(stages: seq<Stage>, p: Stage -> bool)
    requires forall i :: 0 <= i < |stages| ==> !p(stages[i])
    ensures Total(stages, p) == 0
  {
    if stages != [] {
      TotalZero(stages[..|stages| - 1], p);
    }
  }

  lemma {:induction false} MeasureUpdate(stages: seq<Stage>, i: nat, st: Stage)
    requires i < |stages|
    ensures Measure(stages[i := st]) == Measure(stages) - Rank(stages[i]) + Rank(st)
  {
    var n := |stages| - 1;
    if i < n {
      MeasureUpdate(stages[..n], i, st);
      assert stages[i := st][..n] == stages[..n][i := st];
    } else {
      assert stages[i := st][..n] == stages[..n];
    }
  }

  // ---------- Counters, channel and in-flight map ----------

  ghost predicate Shape(s: State) {
    && s.cfg.Valid()
    && |s.stages| == |s.ids| && Distinct(s.ids)
  }

  ghost predicate CountersInv(s: State) {
    && s.counts.active == Total(s.stages, IsActive)
    && Total(s.stages, IsWorking) <= s.cfg.concurrency
    && Total(s.stages, IsDownload) <= s.cfg.downloads
    && s.counts.total == |s.stages|
    && s.counts.pending == (if s.running then |s.stages| - Total(s.stages, IsBegun) else 0)
    && s.counts.processed == Total(s.stages, IsProcessed)
    && s.counts.imported == Total(s.stages, IsImported)
    && s.counts.failed == Total(s.stages, IsFailed)
  }

  /** Between batches nothing is left to do. */
  ghost predicate RunningInv(s: State) {
    !s.running ==> Done(s)
  }

  ghost predicate ChannelInv(s: State) {
    && |s.channel| <= s.cfg.Capacity()
    && Distinct(s.channel)
    && (forall i :: i in s.channel ==> i < |s.stages|)
    && (forall i :: 0 <= i < |s.stages| ==> (i in s.channel <==> s.stages[i].Queued?))
  }

  ghost predicate TrackedInv(s: State)
    requires |s.stages| == |s.ids|
  {
    && (forall i :: 0 <= i < |s.ids| ==> (s.ids[i] in s.inFlight <==> IsTracked(s.stages[i])))
    && (forall id :: id in s.inFlight ==> id in s.ids)
  }

  lemma InternalIsUnfinished(s: State, e: Event)
    requires Enabled(s, e) && Internal(e)
    ensures !IsDone(s.stages[Target(s, e)]) && !Done(s)
  {
    assert !IsDone(s.stages[Target(s, e)]);
  }

  lemma RankDecreases(s: State, e: Event)
    requires Enabled(s, e) && Internal(e)
    ensures Rank(NextStage(s, e)) < Rank(s.stages[Target(s, e)])
  {}

  /** Every step of the pipeline brings the batch nearer to its end. */
  lemma StepDecreases(s: State, e: Event)
    requires Enabled(s, e) && Internal(e)
    ensures Measure(Apply(s, e).stages) < Measure(s.stages)
  {
    RankDecreases(s, e);
    MeasureUpdate(s.stages, Target(s, e), NextStage(s, e));
  }

  /** What a move from one stage to another adds to the number of posts in a class. */
  function Change(p: Stage -> bool, before: Stage, after: Stage): int {
    (if p(after) then 1 else 0) - if p(before) then 1 else 0
  }

  /** Each counter moves as the class of stages it counts. */
  lemma CountsMove(s: State, e: Event)
    requires Enabled(s, e) && Internal(e)
    ensures
      var c, d, a, b := s.counts, CountsAfter(s, e), s.stages[Target(s, e)], NextStage(s, e);
      && d.pending == c.pending - Change(IsBegun, a, b)
      && d.active == c.active + Change(IsActive, a, b)
      && d.processed == c.processed + Change(IsProcessed, a, b)
      && d.imported == c.imported + Change(IsImported, a, b)
      && d.failed == c.failed + Change(IsFailed, a, b)
      && d.total == c.total
  {}

  /** Only a begin takes a worker slot and only the start of a download takes a download slot. */
  lemma SlotsMove(s: State, e: Event)
    requires Enabled(s, e) && Internal(e)
    ensures var a, b := s.stages[Target(s, e)], NextStage(s, e);
      && Change(IsWorking, a, b) <= 1 && Change(IsDownload, a, b) <= 1
      && (Change(IsWorking, a, b) == 1 ==> Total(s.stages, IsWorking) < s.cfg.concurrency)
      && (Change(IsDownload, a, b) == 1 ==> Total(s.stages, IsDownload) < s.cfg.downloads)
  {}

  lemma ChangeTotal(stages: seq<Stage>, i: nat, st: Stage, p: Stage -> bool)
    requires i < |stages|
    ensures Total(stages[i := st], p) == Total(stages, p) + Change(p, stages[i], st)
  {
    TotalUpdate(stages, i, st, p);
  }

  lemma CountersMoved(s: State, t: State, i: nat, st: Stage)
    requires CountersInv(s) && i < |s.stages| && t.stages == s.stages[i := st] && t.cfg == s.cfg
    requires s.running && t.running && t.counts.total == s.counts.total
    requires
      var c, d, a := s.counts, t.counts, s.stages[i];
      && d.pending == c.pending - Change(IsBegun, a, st)
      && d.active == c.active + Change(IsActive, a, st)
      && d.processed == c.processed + Change(IsProcessed, a, st)
      && d.imported == c.imported + Change(IsImported, a, st)
      && d.failed == c.failed + Change(IsFailed, a, st)
    requires Total(s.stages, IsWorking) + Change(IsWorking, s.stages[i], st) <= s.cfg.concurrency
    requires Total(s.stages, IsDownload) + Change(IsDownload, s.stages[i], st) <= s.cfg.downloads
    ensures CountersInv(t)
  {
    ChangeTotal(s.stages, i, st, IsActive);
    ChangeTotal(s.stages, i, st, IsWorking);
    ChangeTotal(s.stages, i, st, IsDownload);
    ChangeTotal(s.stages, i, st, IsBegun);
    ChangeTotal(s.stages, i, st, IsProcessed);
    ChangeTotal(s.stages, i, st, IsImported);
    ChangeTotal(s.stages, i, st, IsFailed);
  }

  lemma StepKeepsCounters(s: State, e: Event)
    requires CountersInv(s) && RunningInv(s) && Enabled(s, e) && Internal(e)
    ensures CountersInv(Apply(s, e)) && RunningInv(Apply(s, e))
  {
    InternalIsUnfinished(s, e);
    CountsMove(s, e);
    SlotsMove(s, e);
    CountersMoved(s, Apply(s, e), Target(s, e), NextStage(s, e));
  }

  lemma TailMembers(c: seq<nat>, i: nat)
    requires c != [] && Distinct(c)
    ensures i in c[1..] <==> i in c && i != c[0]
  {
    assert c == [c[0]] + c[1..];
    if i in c[1..] {
      var k :| 0 <= k < |c[1..]| && c[1..][k] == i;
      assert c[k + 1] == i;
    }
  }

  lemma BeginKeepsChannel(s: State)
    requires Shape(s) && ChannelInv(s) && Enabled(s, Begin)
    ensures ChannelInv(Apply(s, Begin))
  {
    var t := Apply(s, Begin);
    forall i: nat ensures i in t.channel <==> i in s.channel && i != s.channel[0] {
      TailMembers(s.channel, i);
    }
  }

  lemma SendKeepsChannel(s: State, i: nat)
    requires Shape(s) && ChannelInv(s) && Enabled(s, Send(i))
    ensures ChannelInv(Apply(s, Send(i)))
  {}

  lemma StepKeepsChannel(s: State, e: Event)
    requires Shape(s) && ChannelInv(s) && Enabled(s, e) && Internal(e)
    ensures ChannelInv(Apply(s, e))
  {
    if e.Begin? {
      BeginKeepsChannel(s);
    } else if e.Send? {
      SendKeepsChannel(s, e.i);
    } else {
      assert ChannelAfter(s, e) == s.channel;
      assert !s.stages[Target(s, e)].Queued? && !NextStage(s, e).Queued?;
    }
  }

  lemma InFlightMoves(s: State, e: Event)
    requires Enabled(s, e) && Internal(e)
    ensures
      var i := Target(s, e);
      InFlightAfter(s, e) ==
        if IsTracked(NextStage(s, e)) == IsTracked(s.stages[i]) then s.inFlight
        else if IsTracked(NextStage(s, e)) then s.inFlight + {s.ids[i]}
        else s.inFlight - {s.ids[i]}
  {}

  lemma TrackedMove(s: State, t: State, i: nat)
    requires Shape(s) && TrackedInv(s) && i < |s.stages|
    requires t.ids == s.ids && |t.stages| == |s.stages| && t.stages == s.stages[i := t.stages[i]]
    requires t.inFlight ==
             if IsTracked(t.stages[i]) == IsTracked(s.stages[i]) then s.inFlight
             else if IsTracked(t.stages[i]) then s.inFlight + {s.ids[i]}
             else s.inFlight - {s.ids[i]}
    ensures TrackedInv(t)
  {}

  lemma StepKeepsTracked(s: State, e: Event)
    requires Shape(s) && TrackedInv(s) && Enabled(s, e) && Internal(e)
    ensures |Apply(s, e).stages| == |Apply(s, e).ids| && TrackedInv(Apply(s, e))
  {
    InFlightMoves(s, e);
    TrackedMove(s, Apply(s, e), Target(s, e));
  }

  // ---------- Duplicate checks ----------

  /** The clean rows are the ones with a time, and posts on their way to being finalized are not clean yet. */
  ghost predicate TimesInv(s: State) {
    && (forall q :: q in s.db.cleanAt <==> q in s.db.rows && !s.db.rows[q].dirty)
    && (forall q :: q in s.db.cleanAt ==> s.db.cleanAt[q] < s.now)
    && (forall i: nat :: InRange(s, i) && BeforeFinalize(s.stages[i]) ==> s.ids[i] !in s.db.cleanAt)
    && (forall i: nat :: InRange(s, i) && s.stages[i].Finalizing? && s.stages[i].image ==>
          s.ids[i] in s.db.checkedAt && s.db.checkedAt[s.ids[i]] < s.now)
  }

  /** Post id with this hash is far from every undeleted row that was clean before time t. */
  ghost predicate FarFromEarlier(db: Database, id: Id, hash: Hash, t: nat) {
    forall q :: q in db.cleanAt && q in db.rows && q != id && db.cleanAt[q] < t && !db.rows[q].deleted ==>
      Hamming(hash, db.rows[q].hash) >= DUPLICATE_DISTANCE
  }

  /** Images that came through the pipeline: checked before they were written. */
  ghost predicate Piped(db: Database, id: Id) {
    id in db.cleanAt && id in db.rows && db.rows[id].image && id in db.checkedAt && db.checkedAt[id] < db.cleanAt[id]
  }

  /** What the check of a post that is about to be finalized still guarantees. */
  ghost predicate StageFar(db: Database, id: Id, st: Stage) {
    st.Finalizing? && st.image && id in db.checkedAt ==> FarFromEarlier(db, id, st.hash, db.checkedAt[id])
  }

  ghost predicate DedupInv(s: State) {
    && (forall i: nat :: InRange(s, i) ==> StageFar(s.db, s.ids[i], s.stages[i]))
    && (forall id :: Piped(s.db, id) ==> FarFromEarlier(s.db, id, s.db.rows[id].hash, s.db.checkedAt[id]))
  }

  /** The later table has the clean rows of the earlier one; they may have been soft-deleted meanwhile. */
  ghost predicate SameClean(db: Database, later: Database) {
    && later.cleanAt == db.cleanAt
    && forall q :: q in db.cleanAt && q in db.rows ==>
         q in later.rows && later.rows[q].hash == db.rows[q].hash && later.rows[q].image == db.rows[q].image
         && (db.rows[q].deleted ==> later.rows[q].deleted)
  }

  predicate Writes(e: Event) {
    e.Finalize? || (e.FinalizeFailed? && e.applied)
  }

  lemma QuietStep(s: State, e: Event)
    requires TimesInv(s) && Enabled(s, e) && !Writes(e)
    ensures SameClean(s.db, DbAfter(s, e))
    ensures !e.Check? ==> DbAfter(s, e).checkedAt == s.db.checkedAt
  {}

  lemma SameCleanKeepsFar(db: Database, later: Database, id: Id, hash: Hash, at: nat)
    requires SameClean(db, later) && FarFromEarlier(db, id, hash, at)
    requires forall q :: q in db.cleanAt ==> q in db.rows
    ensures FarFromEarlier(later, id, hash, at)
  {}

  lemma WriteKeepsFar(db: Database, w: Id, image: bool, h: Hash, now: nat, id: Id, hash: Hash, at: nat)
    requires FarFromEarlier(db, id, hash, at) && at < now && w !in db.cleanAt
    ensures FarFromEarlier(WriteFinal(db, w, image, h, now), id, hash, at)
  {}

  /** The check itself: with no duplicate found, every row clean by now is far. */
  lemma CheckPassed(s: State, id: Id, hash: Hash)
    requires TimesInv(s) && !HasDuplicate(s.db.rows, id, hash)
    ensures FarFromEarlier(s.db, id, hash, s.now)
  {
    forall q | q in s.db.cleanAt && q in s.db.rows && q != id && s.db.cleanAt[q] < s.now && !s.db.rows[q].deleted
      ensures Hamming(hash, s.db.rows[q].hash) >= DUPLICATE_DISTANCE
    {
      assert !IsDuplicate(s.db.rows, id, hash, q);
    }
  }

  lemma CleanTimes(s: State, e: Event)
    requires TimesInv(s) && Enabled(s, e)
    ensures
      var db := DbAfter(s, e);
      && (forall q :: q in db.cleanAt <==> q in db.rows && !db.rows[q].dirty)
      && (forall q :: q in db.cleanAt ==> db.cleanAt[q] < s.now + 1)
      && (forall q :: q in db.cleanAt && q !in s.db.cleanAt ==> Writes(e) && q == s.ids[e.i])
  {}

  lemma StageOrder(s: State, e: Event)
    requires Enabled(s, e) && Internal(e)
    ensures BeforeFinalize(NextStage(s, e)) ==> BeforeFinalize(s.stages[Target(s, e)])
    ensures Writes(e) ==> BeforeFinalize(s.stages[e.i]) && !BeforeFinalize(NextStage(s, e))
    ensures NextStage(s, e).Finalizing? && NextStage(s, e).image ==>
      e.Check? && DbAfter(s, e).checkedAt == s.db.checkedAt[s.ids[e.i] := s.now]
    ensures !e.Check? ==> DbAfter(s, e).checkedAt == s.db.checkedAt
  {}

  lemma InternalKeepsTimes(s: State, e: Event)
    requires Shape(s) && TimesInv(s) && Enabled(s, e) && Internal(e)
    ensures TimesInv(Apply(s, e))
  {
    CleanTimes(s, e);
    StageOrder(s, e);
    var t, k := Apply(s, e), Target(s, e);
    forall i: nat | InRange(t, i)
      ensures BeforeFinalize(t.stages[i]) ==> t.ids[i] !in t.db.cleanAt
      ensures t.stages[i].Finalizing? && t.stages[i].image ==>
        t.ids[i] in t.db.checkedAt && t.db.checkedAt[t.ids[i]] < t.now
    {
      assert InRange(s, i) && (i != k ==> s.ids[i] != s.ids[k]);
    }
  }

  lemma NextBatchKeepsTimes(s: State, ids: seq<Id>)
    requires TimesInv(s) && Enabled(s, NextBatch(ids))
    ensures TimesInv(Apply(s, NextBatch(ids)))
  {
    var t := Apply(s, NextBatch(ids));
    assert t.db == s.db;
    forall i: nat | InRange(t, i) ensures t.ids[i] !in t.db.cleanAt && t.stages[i].Waiting? {
      assert t.ids[i] == ids[i];
    }
  }

  lemma OtherKeepsTimes(s: State, e: Event)
    requires TimesInv(s) && Enabled(s, e) && !Internal(e) && !e.NextBatch?
    ensures TimesInv(Apply(s, e))
  {
    CleanTimes(s, e);
    var t := Apply(s, e);
    assert t.ids == s.ids && t.stages == s.stages && t.db.checkedAt == s.db.checkedAt;
    forall i: nat | InRange(t, i)
      ensures BeforeFinalize(t.stages[i]) ==> t.ids[i] !in t.db.cleanAt
      ensures t.stages[i].Finalizing? && t.stages[i].image ==>
        t.ids[i] in t.db.checkedAt && t.db.checkedAt[t.ids[i]] < t.now
    {
      assert InRange(s, i);
    }
  }

  lemma StepKeepsTimes(s: State, e: Event)
    requires Shape(s) && TimesInv(s) && Enabled(s, e)
    ensures TimesInv(Apply(s, e))
  {
    if Internal(e) {
      InternalKeepsTimes(s, e);
    } else if e.NextBatch? {
      NextBatchKeepsTimes(s, e.ids);
    } else {
      OtherKeepsTimes(s, e);
    }
  }

  lemma QuietKeepsDedup(s: State, e: Event)
    requires Shape(s) && TimesInv(s) && DedupInv(s) && Enabled(s, e) && !Writes(e) && !e.Check?
    ensures DedupInv(Apply(s, e))
  {
    var t := Apply(s, e);
    QuietStep(s, e);
    if Internal(e) { StageOrder(s, e); }
    forall i: nat | InRange(t, i) ensures StageFar(t.db, t.ids[i], t.stages[i]) {
      if t.stages[i].Finalizing? && t.stages[i].image && t.ids[i] in t.db.checkedAt {
        assert InRange(s, i) && StageFar(s.db, s.ids[i], s.stages[i]);
        SameCleanKeepsFar(s.db, t.db, t.ids[i], t.stages[i].hash, t.db.checkedAt[t.ids[i]]);
      }
    }
    forall id | Piped(t.db, id) ensures FarFromEarlier(t.db, id, t.db.rows[id].hash, t.db.checkedAt[id]) {
      assert Piped(s.db, id);
      SameCleanKeepsFar(s.db, t.db, id, t.db.rows[id].hash, t.db.checkedAt[id]);
    }
  }

  lemma CheckKeepsDedup(s: State, e: Event)
    requires Shape(s) && TimesInv(s) && DedupInv(s) && Enabled(s, e) && e.Check?
    ensures DedupInv(Apply(s, e))
  {
    var t, id, h := Apply(s, e), s.ids[e.i], s.stages[e.i].hash;
    QuietStep(s, e);
    if !HasDuplicate(s.db.rows, id, h) {
      CheckPassed(s, id, h);
      SameCleanKeepsFar(s.db, t.db, id, h, s.now);
    }
    forall i: nat | InRange(t, i) ensures StageFar(t.db, t.ids[i], t.stages[i]) {
      assert StageFar(s.db, s.ids[i], s.stages[i]);
      if i != e.i && t.stages[i].Finalizing? && t.stages[i].image && t.ids[i] in t.db.checkedAt {
        assert t.ids[i] != id;
        SameCleanKeepsFar(s.db, t.db, t.ids[i], t.stages[i].hash, s.db.checkedAt[t.ids[i]]);
      }
    }
    forall a | Piped(t.db, a) ensures FarFromEarlier(t.db, a, t.db.rows[a].hash, t.db.checkedAt[a]) {
      assert Piped(s.db, a);
      SameCleanKeepsFar(s.db, t.db, a, t.db.rows[a].hash, s.db.checkedAt[a]);
    }
  }

  lemma WriteKeepsDedup(s: State, e: Event)
    requires Shape(s) && TimesInv(s) && DedupInv(s) && Enabled(s, e) && Writes(e)
    ensures DedupInv(Apply(s, e))
  {
    var t, id, st := Apply(s, e), s.ids[e.i], s.stages[e.i];
    assert t.db == WriteFinal(s.db, id, st.image, st.hash, s.now);
    forall i: nat | InRange(t, i) ensures StageFar(t.db, t.ids[i], t.stages[i]) {
      if t.stages[i].Finalizing? && t.stages[i].image && t.ids[i] in t.db.checkedAt {
        assert InRange(s, i) && StageFar(s.db, s.ids[i], s.stages[i]);
        WriteKeepsFar(s.db, id, st.image, st.hash, s.now, t.ids[i], t.stages[i].hash, t.db.checkedAt[t.ids[i]]);
      }
    }
    forall a | Piped(t.db, a) ensures FarFromEarlier(t.db, a, t.db.rows[a].hash, t.db.checkedAt[a]) {
      if a == id {
        assert StageFar(s.db, id, st);
        WriteKeepsFar(s.db, id, st.image, st.hash, s.now, a, st.hash, t.db.checkedAt[a]);
      } else {
        assert Piped(s.db, a);
        WriteKeepsFar(s.db, id, st.image, st.hash, s.now, a, s.db.rows[a].hash, t.db.checkedAt[a]);
      }
    }
  }

  /** Checks and writes happen at different times, and every image written since the start was checked before. */
  ghost predicate ClockInv(s: State) {
    && (forall q :: q in s.db.checkedAt ==> s.db.checkedAt[q] < s.now)
    && (forall a, b :: a in s.db.checkedAt && b in s.db.cleanAt ==> s.db.checkedAt[a] != s.db.cleanAt[b])
    && (forall q :: q in s.db.cleanAt && q in s.db.rows && s.db.rows[q].image && s.db.cleanAt[q] > 0 ==> Piped(s.db, q))
  }

  lemma QuietKeepsClock(s: State, e: Event)
    requires TimesInv(s) && ClockInv(s) && Enabled(s, e) && !Writes(e) && !e.Check?
    ensures ClockInv(Apply(s, e))
  {
    QuietStep(s, e);
  }

  lemma CheckKeepsClock(s: State, e: Event)
    requires TimesInv(s) && ClockInv(s) && Enabled(s, e) && e.Check?
    ensures ClockInv(Apply(s, e))
  {
    assert BeforeFinalize(s.stages[e.i]);
    assert s.ids[e.i] !in s.db.cleanAt;
  }

  lemma WriteKeepsClock(s: State, e: Event)
    requires TimesInv(s) && ClockInv(s) && Enabled(s, e) && Writes(e)
    ensures ClockInv(Apply(s, e))
  {
    var t, id, st := Apply(s, e), s.ids[e.i], s.stages[e.i];
    assert t.db == WriteFinal(s.db, id, st.image, st.hash, s.now);
  }

  lemma StepKeepsClock(s: State, e: Event)
    requires TimesInv(s) && ClockInv(s) && Enabled(s, e)
    ensures ClockInv(Apply(s, e))
  {
    if Writes(e) {
      WriteKeepsClock(s, e);
    } else if e.Check? {
      CheckKeepsClock(s, e);
    } else {
      QuietKeepsClock(s, e);
    }
  }

  // ---------- One worker ----------

  /** Nothing became clean after the check of a post that is about to be finalized. */
  ghost predicate CheckIsLatest(s: State, i: nat)
    requires InRange(s, i)
  {
    s.stages[i].Finalizing? && s.stages[i].image && s.ids[i] in s.db.checkedAt ==>
      forall q :: q in s.db.cleanAt ==> s.db.cleanAt[q] < s.db.checkedAt[s.ids[i]]
  }

  /** Of two images one was written before the other was checked. */
  ghost predicate Serial(db: Database, a: Id, b: Id) {
    a != b && Piped(db, a) && Piped(db, b) ==> db.cleanAt[b] < db.checkedAt[a] || db.cleanAt[a] < db.checkedAt[b]
  }

  ghost predicate SerialInv(s: State) {
    (forall i: nat :: InRange(s, i) ==> CheckIsLatest(s, i)) && (forall a, b :: Serial(s.db, a, b))
  }

  lemma TotalTwo(stages: seq<Stage>, p: Stage -> bool, i: nat, j: nat)
    requires i < j < |stages| && p(stages[i]) && p(stages[j]) && !p(Waiting)
    ensures Total(stages, p) >= 2
  {
    TotalUpdate(stages, i, Waiting, p);
    TotalUpdate(stages[i := Waiting], j, Waiting, p);
  }

  lemma OneWorker(s: State, i: nat, j: nat)
    requires Shape(s) && CountersInv(s) && s.cfg.concurrency == 1 && i < |s.stages| && j < |s.stages|
    requires IsWorking(s.stages[i]) && IsWorking(s.stages[j])
    ensures i == j
  {
    if i < j { TotalTwo(s.stages, IsWorking, i, j); }
    if j < i { TotalTwo(s.stages, IsWorking, j, i); }
  }

  lemma QuietKeepsSerial(s: State, e: Event)
    requires Shape(s) && TimesInv(s) && SerialInv(s) && Enabled(s, e) && !Writes(e) && !e.Check?
    ensures SerialInv(Apply(s, e))
  {
    var t := Apply(s, e);
    QuietStep(s, e);
    if Internal(e) { StageOrder(s, e); }
    forall i: nat | InRange(t, i) ensures CheckIsLatest(t, i) {
      if t.stages[i].Finalizing? && t.stages[i].image && t.ids[i] in t.db.checkedAt {
        assert CheckIsLatest(s, i);
      }
    }
    forall a, b ensures Serial(t.db, a, b) {
      assert Serial(s.db, a, b);
    }
  }

  lemma CheckKeepsSerial(s: State, e: Event)
    requires Shape(s) && TimesInv(s) && SerialInv(s) && Enabled(s, e) && e.Check?
    ensures SerialInv(Apply(s, e))
  {
    var t := Apply(s, e);
    QuietStep(s, e);
    forall i: nat | InRange(t, i) ensures CheckIsLatest(t, i) {
      assert CheckIsLatest(s, i);
      assert i != e.i ==> t.ids[i] != s.ids[e.i];
    }
    forall a, b ensures Serial(t.db, a, b) {
      assert Serial(s.db, a, b);
    }
  }

  lemma WriteKeepsSerial(s: State, e: Event)
    requires Shape(s) && CountersInv(s) && TimesInv(s) && SerialInv(s) && s.cfg.concurrency == 1
    requires Enabled(s, e) && Writes(e)
    ensures SerialInv(Apply(s, e))
  {
    var t := Apply(s, e);
    assert CheckIsLatest(s, e.i);
    forall i: nat | InRange(t, i) ensures CheckIsLatest(t, i) {
      if IsWorking(s.stages[i]) { OneWorker(s, e.i, i); }
    }
    forall a, b ensures Serial(t.db, a, b) {
      assert Serial(s.db, a, b);
    }
  }

  lemma StepKeepsSerial(s: State, e: Event)
    requires Shape(s) && CountersInv(s) && TimesInv(s) && SerialInv(s) && s.cfg.concurrency == 1 && Enabled(s, e)
    ensures SerialInv(Apply(s, e))
  {
    if Writes(e) {
      WriteKeepsSerial(s, e);
    } else if e.Check? {
      CheckKeepsSerial(s, e);
    } else {
      QuietKeepsSerial(s, e);
    }
  }

  // ---------- All reachable states ----------

  ghost predicate Inv(s: State) {
    && Shape(s) && CountersInv(s) && RunningInv(s) && ChannelInv(s) && TrackedInv(s)
    && TimesInv(s) && ClockInv(s) && DedupInv(s)
    && (s.cfg.concurrency == 1 ==> SerialInv(s))
  }

  /** Before the first batch: nothing in the pipeline, any rows; the clean ones count as clean since the start. */
  ghost predicate Initial(s: State) {
    && s.cfg.Valid() && s.ids == [] && s.stages == [] && s.channel == [] && s.inFlight == {}
    && s.counts == Counts(0, 0, 0, 0, 0, 0) && !s.running
    && s.now == 1 && s.db.checkedAt == map[]
    && (forall q :: q in s.db.cleanAt <==> q in s.db.rows && !s.db.rows[q].dirty)
    && (forall q :: q in s.db.cleanAt ==> s.db.cleanAt[q] == 0)
  }

  ghost predicate Possible(s: State, evs: seq<Event>)
    decreases |evs|, 0
  {
    evs == [] || (Possible(s, evs[..|evs| - 1]) && Enabled(Run(s, evs[..|evs| - 1]), evs[|evs| - 1]))
  }

  ghost function Run(s: State, evs: seq<Event>): State
    requires Possible(s, evs)
    decreases |evs|, 1
  {
    if evs == [] then s else Apply(Run(s, evs[..|evs| - 1]), evs[|evs| - 1])
  }

  ghost predicate PipelineInv(s: State) {
    Shape(s) && CountersInv(s) && RunningInv(s) && ChannelInv(s) && TrackedInv(s)
  }

  lemma ExternalKeepsPipeline(s: State, e: Event)
    requires PipelineInv(s) && Enabled(s, e) && !Internal(e)
    ensures PipelineInv(Apply(s, e))
  {
    if e.NextBatch? {
      NextBatchStartsClean(s, e.ids);
    } else if e.EndBatch? {
      EndBatchKeepsPipeline(s);
    } else {
      SamePipeline(s, Apply(s, e));
    }
  }

  lemma EndBatchKeepsPipeline(s: State)
    requires PipelineInv(s) && Enabled(s, EndBatch)
    ensures PipelineInv(Apply(s, EndBatch))
  {
    TotalZero(s.stages, IsActive);
  }

  lemma SamePipeline(s: State, t: State)
    requires PipelineInv(s) && t.cfg == s.cfg && t.ids == s.ids && t.stages == s.stages && t.channel == s.channel
    requires t.inFlight == s.inFlight && t.counts == s.counts && t.running == s.running
    ensures PipelineInv(t)
  {}

  lemma NextBatchStartsClean(s: State, ids: seq<Id>)
    requires PipelineInv(s) && Enabled(s, NextBatch(ids))
    ensures PipelineInv(Apply(s, NextBatch(ids)))
  {
    DoneIsEmpty(s);
    var t := Apply(s, NextBatch(ids));
    TotalZero(t.stages, IsActive);
    TotalZero(t.stages, IsWorking);
    TotalZero(t.stages, IsDownload);
    TotalZero(t.stages, IsBegun);
    TotalZero(t.stages, IsProcessed);
    TotalZero(t.stages, IsImported);
    TotalZero(t.stages, IsFailed);
  }

  /** When every post is resolved, the channel and the in-flight map are empty again. */
  lemma DoneIsEmpty(s: State)
    requires Shape(s) && ChannelInv(s) && TrackedInv(s) && Done(s)
    ensures s.channel == [] && s.inFlight == {}
  {
    if s.channel != [] {
      QueuedIsUnfinished(s);
    }
    if s.inFlight != {} {
      var id := SomeElement(s.inFlight);
      TrackedIsUnfinished(s, id);
    }
  }

  lemma QueuedIsUnfinished(s: State)
    requires Shape(s) && ChannelInv(s) && s.channel != []
    ensures !Done(s)
  {
    assert s.channel[0] in s.channel;
    assert s.stages[s.channel[0]].Queued?;
  }

  lemma TrackedIsUnfinished(s: State, id: Id)
    requires Shape(s) && TrackedInv(s) && id in s.inFlight
    ensures !Done(s)
  {
    var i :| 0 <= i < |s.ids| && s.ids[i] == id;
    assert IsTracked(s.stages[i]);
  }

  lemma {:induction false} StepKeepsInv(s: State, e: Event)
    requires Inv(s) && Enabled(s, e)
    ensures Inv(Apply(s, e))
  {
    if Internal(e) {
      StepKeepsCounters(s, e);
      StepKeepsChannel(s, e);
      StepKeepsTracked(s, e);
    } else {
      ExternalKeepsPipeline(s, e);
    }
    StepKeepsTimes(s, e);
    StepKeepsClock(s, e);
    StepKeepsDedup(s, e);
    if s.cfg.concurrency == 1 {
      StepKeepsSerial(s, e);
    }
    assert Apply(s, e).cfg == s.cfg;
  }

  lemma StepKeepsDedup(s: State, e: Event)
    requires Shape(s) && TimesInv(s) && DedupInv(s) && Enabled(s, e)
    ensures DedupInv(Apply(s, e))
  {
    if e.Check? {
      CheckKeepsDedup(s, e);
    } else if Writes(e) {
      WriteKeepsDedup(s, e);
    } else {
      QuietKeepsDedup(s, e);
    }
  }

  lemma {:induction false} RunKeepsInv(s0: State, evs: seq<Event>)
    requires Initial(s0) && Possible(s0, evs)
    ensures Inv(Run(s0, evs)) && Run(s0, evs).cfg == s0.cfg
  {
    if evs != [] {
      RunKeepsInv(s0, evs[..|evs| - 1]);
      StepKeepsInv(Run(s0, evs[..|evs| - 1]), evs[|evs| - 1]);
    }
  }

  // ---------- Main results ----------

  /** An undeleted image whose row was finalized after the start of the run. */
  ghost predicate Finished(db: Database, id: Id) {
    id in db.rows && db.rows[id].image && !db.rows[id].deleted && id in db.cleanAt && db.cleanAt[id] > 0
  }

  /** Two such images that are nearly equal were each checked before the other was written. */
  lemma {:induction false} DedupSafety(s0: State, evs: seq<Event>, a: Id, b: Id)
    requires Initial(s0) && Possible(s0, evs)
    requires var s := Run(s0, evs);
      && a != b && Finished(s.db, a) && Finished(s.db, b)
      && Hamming(s.db.rows[a].hash, s.db.rows[b].hash) < DUPLICATE_DISTANCE
    ensures var s := Run(s0, evs);
      && a in s.db.checkedAt && s.db.checkedAt[a] < s.db.cleanAt[b]
      && b in s.db.checkedAt && s.db.checkedAt[b] < s.db.cleanAt[a]
  {
    RunKeepsInv(s0, evs);
    var s := Run(s0, evs);
    assert Piped(s.db, a) && Piped(s.db, b);
    HammingSymmetric(s.db.rows[a].hash, s.db.rows[b].hash);
    assert FarFromEarlier(s.db, a, s.db.rows[a].hash, s.db.checkedAt[a]);
    assert FarFromEarlier(s.db, b, s.db.rows[b].hash, s.db.checkedAt[b]);
  }

  lemma HammingSymmetric(g: Hash, h: Hash)
    ensures Hamming(g, h) == Hamming(h, g)
  {
    HammingCountsDifferingBits(g, h);
    HammingCountsDifferingBits(h, g);
    DifferingSymmetric(Unpack(g), Unpack(h));
  }

  /** With any number of workers, an image is far from every undeleted row that was clean at the start. */
  lemma FarFromStart(s0: State, evs: seq<Event>, a: Id, b: Id)
    requires Initial(s0) && Possible(s0, evs)
    requires var s := Run(s0, evs);
      Finished(s.db, a) && b in s.db.cleanAt && s.db.cleanAt[b] == 0 && b in s.db.rows && !s.db.rows[b].deleted
    ensures var s := Run(s0, evs); Hamming(s.db.rows[a].hash, s.db.rows[b].hash) >= DUPLICATE_DISTANCE
  {
    RunKeepsInv(s0, evs);
    var s := Run(s0, evs);
    assert Piped(s.db, a);
    assert FarFromEarlier(s.db, a, s.db.rows[a].hash, s.db.checkedAt[a]);
  }

  /** A video carries the zero hash: it makes an image a duplicate exactly when fewer than 50 of its bits are set. */
  lemma VideoClashIff(rows: map<Id, Row>, id: Id, hash: Hash, video: Id)
    requires video in rows && video != id && !rows[video].dirty && !rows[video].deleted && rows[video].hash == NO_HASH
    ensures IsDuplicate(rows, id, hash, video) <==> Ones(Unpack(hash)) < DUPLICATE_DISTANCE
  {
    HammingCountsDifferingBits(hash, NO_HASH);
    forall i: nat | i < HASH_BITS ensures !Unpack(NO_HASH)[i] {
      UnpackAt(NO_HASH, i);
      ZeroBits(63 - i % 64);
    }
    DifferingFromZero(Unpack(hash), Unpack(NO_HASH));
  }

  lemma {:induction false} DifferingFromZero(x: seq<bool>, zero: seq<bool>)
    requires |x| == |zero| && forall i :: 0 <= i < |zero| ==> !zero[i]
    ensures Differing(x, zero) == Ones(x)
  {
    if x != [] {
      DifferingFromZero(x[..|x| - 1], zero[..|zero| - 1]);
    }
  }

  /** With a single worker, all images finalized since the start are pairwise far apart. */
  lemma {:induction false} SingleWorkerDedup(s0: State, evs: seq<Event>, a: Id, b: Id)
    requires Initial(s0) && s0.cfg.concurrency == 1 && Possible(s0, evs)
    requires var s := Run(s0, evs);
      a != b && Finished(s.db, a) && Finished(s.db, b)
    ensures var s := Run(s0, evs); Hamming(s.db.rows[a].hash, s.db.rows[b].hash) >= DUPLICATE_DISTANCE
  {
    RunKeepsInv(s0, evs);
    var s := Run(s0, evs);
    assert Piped(s.db, a) && Piped(s.db, b) && Serial(s.db, a, b);
    if s.db.cleanAt[b] < s.db.checkedAt[a] {
      assert FarFromEarlier(s.db, a, s.db.rows[a].hash, s.db.checkedAt[a]);
    } else {
      assert FarFromEarlier(s.db, b, s.db.rows[b].hash, s.db.checkedAt[b]);
      HammingSymmetric(s.db.rows[a].hash, s.db.rows[b].hash);
    }
  }

  /** No step of any kind removes or dirties a finalized row; only finalizing makes a row clean. */
  lemma CleanRowsStay(s: State, e: Event, id: Id)
    requires TimesInv(s) && Enabled(s, e) && id in s.db.rows && !s.db.rows[id].dirty
    ensures var t := Apply(s, e); id in t.db.rows && !t.db.rows[id].dirty && t.db.rows[id].hash == s.db.rows[id].hash
  {
    assert id in s.db.cleanAt;
    if Writes(e) {
      assert BeforeFinalize(s.stages[e.i]);
      assert s.ids[e.i] != id;
    } else {
      QuietStep(s, e);
      CleanTimes(s, e);
    }
  }

  /** While a batch is unfinished, some step of the pipeline can be taken. */
  lemma Progress(s: State) returns (e: Event)
    requires Inv(s) && !Done(s)
    ensures Internal(e) && Enabled(s, e)
  {
    var i :| 0 <= i < |s.stages| && !IsDone(s.stages[i]);
    if IsWorking(s.stages[i]) {
      e := WorkerProgress(s, i);
    } else if IsDownload(s.stages[i]) {
      e := DownloadProgress(s, i);
    } else if s.stages[i].Queued? {
      e := QueueProgress(s);
    } else if Total(s.stages, IsDownload) < s.cfg.downloads {
      var k := FirstWaiting(s, i);
      e := StartDownload(k);
    } else {
      var d := TotalWitness(s.stages, IsDownload);
      e := DownloadProgress(s, d);
    }
  }

  lemma FirstWaiting(s: State, i: nat) returns (k: nat)
    requires i < |s.stages| && s.stages[i].Waiting?
    ensures k < |s.stages| && s.stages[k].Waiting? && forall j :: 0 <= j < k ==> !s.stages[j].Waiting?
  {
    k := 0;
    while !s.stages[k].Waiting?
      invariant k <= i && forall j :: 0 <= j < k ==> !s.stages[j].Waiting?
      decreases i - k
    {
      k := k + 1;
    }
  }

  lemma DownloadProgress(s: State, i: nat) returns (e: Event)
    requires Inv(s) && i < |s.stages| && IsDownload(s.stages[i])
    ensures Internal(e) && Enabled(s, e)
  {
    match s.stages[i]
    case Downloading => e := Downloaded(i);
    case Dropping => e := DropRow(i, true);
    case Sending =>
      if |s.channel| < s.cfg.Capacity() {
        e := Send(i);
      } else {
        e := QueueProgress(s);
      }
  }

  lemma QueueProgress(s: State) returns (e: Event)
    requires Inv(s) && (s.channel != [] || exists i :: 0 <= i < |s.stages| && s.stages[i].Queued?)
    ensures Internal(e) && Enabled(s, e)
  {
    assert s.channel != [] by {
      if i :| 0 <= i < |s.stages| && s.stages[i].Queued? {
        assert i in s.channel;
      }
    }
    assert s.channel[0] in s.channel;
    if Total(s.stages, IsWorking) < s.cfg.concurrency {
      e := Begin;
    } else {
      var w := TotalWitness(s.stages, IsWorking);
      e := WorkerProgress(s, w);
    }
  }

  lemma WorkerProgress(s: State, i: nat) returns (e: Event)
    requires Inv(s) && i < |s.stages| && IsWorking(s.stages[i])
    ensures Internal(e) && Enabled(s, e)
  {
    match s.stages[i]
    case Decoding => e := ClassifyUnknown(i);
    case Encoding => e := EncodeFailed(i);
    case Checking(_) => e := Check(i);
    case ProcessingVideo => e := VideoFailed(i);
    case Finalizing(_, _) => e := Finalize(i);
    case Deleting => e := DeleteRow(i, true);
    case Returned(_) => e := Count(i);
    case Counted(_) => e := Tally(i);
    case Publishing(_) => e := Published(i);
  }

  predicate IsDropped(st: Stage) { st.Dropped? }

  /** When all posts are resolved the dropped downloads are the ones still pending; the end of the batch clears that. */
  lemma BatchComplete(s: State)
    requires Inv(s) && Done(s)
    ensures s.counts.active == 0 && s.channel == [] && s.inFlight == {}
    ensures s.counts.processed == s.counts.imported + s.counts.failed
    ensures s.counts.total == |s.ids| == s.counts.processed + Total(s.stages, IsDropped)
    ensures s.running ==> s.counts.pending == Total(s.stages, IsDropped) && Enabled(s, EndBatch)
    ensures !s.running ==> s.counts.pending == 0
  {
    DoneIsEmpty(s);
    TotalZero(s.stages, IsActive);
    DoneTotals(s.stages);
  }

  lemma {:induction false} DoneTotals(stages: seq<Stage>)
    requires forall i :: 0 <= i < |stages| ==> IsDone(stages[i])
    ensures Total(stages, IsProcessed) == Total(stages, IsImported) + Total(stages, IsFailed) == Total(stages, IsBegun)
    ensures Total(stages, IsProcessed) + Total(stages, IsDropped) == |stages|
  {
    if stages != [] {
      DoneTotals(stages[..|stages| - 1]);
    }
  }

  predicate IsCounted(st: Stage) { st.Counted? }

  /** At every moment: processed posts are the tallied ones and those whose worker is between its two updates. */
  lemma ProcessedSplits(s: State)
    requires Inv(s)
    ensures s.counts.processed == s.counts.imported + s.counts.failed + Total(s.stages, IsCounted)
    ensures 0 <= s.counts.active <= s.cfg.concurrency && |s.channel| <= s.cfg.Capacity()
    ensures 0 <= s.counts.pending <= s.counts.total
  {
    SplitTotals(s.stages);
  }

  lemma {:induction false} SplitTotals(stages: seq<Stage>)
    ensures Total(stages, IsProcessed) == Total(stages, IsImported) + Total(stages, IsFailed) + Total(stages, IsCounted)
    ensures Total(stages, IsActive) <= Total(stages, IsWorking)
    ensures Total(stages, IsBegun) <= |stages|
  {
    if stages != [] {
      SplitTotals(stages[..|stages| - 1]);
    }
  }

  // ---------- Termination ----------

  /** How many steps of a run the pipeline itself takes. */
  function InternalSteps(evs: seq<Event>): nat {
    if evs == [] then 0 else InternalSteps(evs[..|evs| - 1]) + if Internal(evs[|evs| - 1]) then 1 else 0
  }

  ghost predicate OneBatch(evs: seq<Event>) {
    forall i :: 0 <= i < |evs| ==> !evs[i].NextBatch?
  }

  /** Until the next batch, whatever happens elsewhere, the pipeline takes no more steps than its measure. */
  lemma {:induction false} StepsBounded(s: State, evs: seq<Event>)
    requires Possible(s, evs) && OneBatch(evs)
    ensures InternalSteps(evs) + Measure(Run(s, evs).stages) <= Measure(s.stages)
  {
    if evs != [] {
      var init, last := evs[..|evs| - 1], evs[|evs| - 1];
      StepsBounded(s, init);
      if Internal(last) {
        StepDecreases(Run(s, init), last);
      }
    }
  }

  /** Between the start of a batch and the next one the pipeline takes at most 13 steps for each of its posts. */
  lemma BatchIsShort(s: State, ids: seq<Id>, evs: seq<Event>)
    requires Enabled(s, NextBatch(ids)) && Possible(Apply(s, NextBatch(ids)), evs) && OneBatch(evs)
    ensures InternalSteps(evs) <= 13 * |ids|
  {
    var t := Apply(s, NextBatch(ids));
    StepsBounded(t, evs);
    WaitingMeasure(t.stages);
  }

  lemma {:induction false} WaitingMeasure(stages: seq<Stage>)
    requires forall i :: 0 <= i < |stages| ==> stages[i].Waiting?
    ensures Measure(stages) == 13 * |stages|
  {
    if stages != [] {
      WaitingMeasure(stages[..|stages| - 1]);
    }
  }

  /** What happens elsewhere between two steps of the pipeline. */
  method Interfere(s0: State, evs: seq<Event>) returns (s: State)
    requires Inv(s0)
    ensures Inv(s) && s.ids == s0.ids && s.stages == s0.stages && s.running == s0.running
  {
    s := s0;
    for i := 0 to |evs|
      invariant Inv(s) && s.ids == s0.ids && s.stages == s0.stages && s.running == s0.running
    {
      if Elsewhere(evs[i]) && Enabled(s, evs[i]) {
        StepKeepsInv(s, evs[i]);
        s := Apply(s, evs[i]);
      }
    }
  }

  /**
   * Drives one batch to its end. Whatever enabled step the scheduler picks
   * each time and whatever happens elsewhere in between, the loop ends with
   * every post resolved or dropped.
   */
  method Drain(s0: State, choose: (nat, State) -> Event, others: nat -> seq<Event>) returns (s: State, steps: nat)
    requires Inv(s0) && s0.running
    requires forall n: nat, t :: Inv(t) && !Done(t) ==> Internal(choose(n, t)) && Enabled(t, choose(n, t))
    ensures Inv(s) && Done(s) && !s.running && s.ids == s0.ids
    ensures steps + Measure(s.stages) <= Measure(s0.stages)
    ensures s.inFlight == {} && s.channel == [] && s.counts.active == 0 && s.counts.pending == 0
    ensures s.counts.total == |s0.ids| && s.counts.processed == s.counts.imported + s.counts.failed
  {
    s, steps := s0, 0;
    while !Done(s)
      invariant Inv(s) && s.running && s.ids == s0.ids && steps + Measure(s.stages) <= Measure(s0.stages)
      decreases Measure(s.stages)
    {
      s := Interfere(s, others(steps));
      var e := choose(steps, s);
      StepKeepsInv(s, e);
      StepDecreases(s, e);
      s, steps := Apply(s, e), steps + 1;
    }
    BatchComplete(s);
    StepKeepsInv(s, EndBatch);
    s := Apply(s, EndBatch);
    BatchComplete(s);
  }
}
