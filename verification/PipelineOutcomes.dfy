/**
 * What becomes of the posts of a batch: which steps decide that a post is
 * imported, what its row then holds, and in which order the posts are begun.
 */
module PipelineOutcomes {
  import opened Prelude
  import opened PHash
  import opened Pipeline

  // ---------- Single steps ----------

  /** The check rejects exactly the images near another undeleted clean row; every other image goes on with its hash. */
  lemma CheckDecides(s: State, i: nat)
    requires Enabled(s, Check(i))
    ensures
      var t, id, hash := Apply(s, Check(i)), s.ids[i], s.stages[i].hash;
      var near := exists q :: q in s.db.rows && q != id && !s.db.rows[q].dirty && !s.db.rows[q].deleted
                              && Hamming(hash, s.db.rows[q].hash) < 50;
      && (HasDuplicate(s.db.rows, id, hash) <==> near)
      && t.stages == s.stages[i := if near then Deleting else Finalizing(true, hash)]
      && t.db.rows == s.db.rows
  {
    var id, hash := s.ids[i], s.stages[i].hash;
    if q :| q in s.db.rows && q != id && !s.db.rows[q].dirty && !s.db.rows[q].deleted
            && Hamming(hash, s.db.rows[q].hash) < 50 {
      assert IsDuplicate(s.db.rows, id, hash, q);
    }
  }

  /** The same rows, except for what is said of one of them. */
  ghost predicate SameOthers(before: map<Id, Row>, after: map<Id, Row>, id: Id) {
    forall q :: q != id ==> (q in after <==> q in before) && (q in after ==> after[q] == before[q])
  }

  /** A finalize that is executed leaves the row clean with the stage's outcome; it never revives or deletes a row. */
  lemma FinalizeWrites(s: State, e: Event)
    requires Enabled(s, e) && (e.Finalize? || e.FinalizeFailed?)
    ensures
      var before, after, id, st := s.db.rows, Apply(s, e).db.rows, s.ids[e.i], s.stages[e.i];
      && (e.FinalizeFailed? && !e.applied ==> after == before)
      && (e.Finalize? || e.applied ==>
            && (id in after <==> id in before)
            && (id in after ==> after[id] == Row(false, before[id].deleted, st.image, st.hash))
            && SameOthers(before, after, id))
  {}

  /** A delete that is executed leaves no dirty row of the post; a row that was finalized after all is kept. */
  lemma DeleteClears(s: State, e: Event)
    requires Enabled(s, e) && (e.DropRow? || e.DeleteRow?)
    ensures
      var before, after, id := s.db.rows, Apply(s, e).db.rows, s.ids[e.i];
      && (!e.ok ==> after == before)
      && (e.ok ==> (id in after <==> id in before && !before[id].dirty) && (id in after ==> after[id] == before[id]))
      && SameOthers(before, after, id)
  {}

  // ---------- The order of the channel ----------

  /** What a step puts into the channel. */
  function Put(e: Event): seq<nat> {
    if e.Send? then [e.i] else []
  }

  /** What a step takes out of the channel. */
  function Taken(s: State, e: Event): seq<nat>
    requires Enabled(s, e)
  {
    if e.Begin? then [s.channel[0]] else []
  }

  function Sent(evs: seq<Event>): seq<nat> {
    if evs == [] then [] else Sent(evs[..|evs| - 1]) + Put(evs[|evs| - 1])
  }

  /** The posts that a worker took up, in that order. */
  ghost function Begun(s: State, evs: seq<Event>): seq<nat>
    requires Possible(s, evs)
  {
    if evs == [] then []
    else Begun(s, evs[..|evs| - 1]) + Taken(Run(s, evs[..|evs| - 1]), evs[|evs| - 1])
  }

  /** The worker takes the post at the head of the channel, a download puts its post at the end. */
  lemma ChannelSteps(s: State, i: nat)
    ensures Enabled(s, Begin) ==>
      var t := Apply(s, Begin);
      && s.stages[s.channel[0]].Queued? && t.stages == s.stages[s.channel[0] := Decoding]
      && s.channel == [s.channel[0]] + t.channel
    ensures Enabled(s, Send(i)) ==>
      var t := Apply(s, Send(i));
      t.stages == s.stages[i := Queued] && t.channel == s.channel + [i]
  {}

  lemma ChannelStep(s: State, e: Event)
    requires Enabled(s, e)
    ensures s.channel + Put(e) == Taken(s, e) + Apply(s, e).channel
  {
    ChannelSteps(s, if e.Send? then e.i else 0);
  }

  /** First in, first out: what was sent is what was begun followed by what still waits in the channel. */
  lemma {:induction false} ChannelIsFifo(s: State, evs: seq<Event>)
    requires Possible(s, evs)
    ensures s.channel + Sent(evs) == Begun(s, evs) + Run(s, evs).channel
  {
    if evs != [] {
      var init, last := evs[..|evs| - 1], evs[|evs| - 1];
      ChannelIsFifo(s, init);
      ChannelStep(Run(s, init), last);
      var c, m, t := s.channel, Run(s, init).channel, Run(s, evs).channel;
      AppendAssociates(c, Sent(init), Put(last));
      AppendAssociates(Begun(s, init), m, Put(last));
      AppendAssociates(Begun(s, init), Taken(Run(s, init), last), t);
    }
  }

  // ---------- Imported or not ----------

  /** The steps that fail post i: the failures of its own commands, and a check that finds a duplicate. */
  predicate Fails(s: State, e: Event, i: nat)
    requires InRange(s, i)
  {
    || e == DownloadFailed(i) || e == ClassifyUnknown(i) || e == EncodeFailed(i) || e == CheckFailed(i)
    || e == VideoFailed(i) || (e.FinalizeFailed? && e.i == i)
    || (e == Check(i) && s.stages[i].Checking? && HasDuplicate(s.db.rows, s.ids[i], s.stages[i].hash))
  }

  predicate HasFailed(st: Stage) {
    || st.Dropping? || st.Dropped? || st.Deleting?
    || ((st.Returned? || st.Counted? || st.Publishing? || st.Resolved?) && !st.ok)
  }

  lemma FailureMoves(s: State, e: Event, i: nat)
    requires |s.stages| == |s.ids| && InRange(s, i) && Enabled(s, e) && !e.NextBatch?
    ensures InRange(Apply(s, e), i)
    ensures HasFailed(Apply(s, e).stages[i]) <==> HasFailed(s.stages[i]) || Fails(s, e, i)
  {
    if Internal(e) && Target(s, e) == i {
      OwnMove(s, e);
    }
  }

  lemma OwnMove(s: State, e: Event)
    requires Enabled(s, e) && Internal(e)
    ensures var i := Target(s, e);
      HasFailed(NextStage(s, e)) <==> HasFailed(s.stages[i]) || Fails(s, e, i)
  {}

  /** Some step of the run fails post i. */
  ghost predicate FailsIn(s: State, evs: seq<Event>, i: nat)
    requires Possible(s, evs) && OneBatch(evs) && |s.stages| == |s.ids| && InRange(s, i)
    decreases |evs|
  {
    evs != [] &&
    var init, last := evs[..|evs| - 1], evs[|evs| - 1];
    SameBatch(s, init);
    FailsIn(s, init, i) || Fails(Run(s, init), last, i)
  }

  lemma {:induction false} SameBatch(s: State, evs: seq<Event>)
    requires Possible(s, evs) && OneBatch(evs)
    ensures Run(s, evs).ids == s.ids && |Run(s, evs).stages| == |s.stages|
  {
    if evs != [] {
      SameBatch(s, evs[..|evs| - 1]);
    }
  }

  lemma {:induction false} FailedIff(s: State, evs: seq<Event>, i: nat)
    requires Possible(s, evs) && OneBatch(evs) && |s.stages| == |s.ids| && InRange(s, i) && !HasFailed(s.stages[i])
    ensures InRange(Run(s, evs), i) && (HasFailed(Run(s, evs).stages[i]) <==> FailsIn(s, evs, i))
  {
    if evs != [] {
      var init, last := evs[..|evs| - 1], evs[|evs| - 1];
      SameBatch(s, init);
      FailedIff(s, init, i);
      FailureMoves(Run(s, init), last, i);
    }
  }

  /** When a batch is done, the imported posts are exactly those that no step has failed. */
  lemma ImportedIff(s: State, ids: seq<Id>, evs: seq<Event>, i: nat)
    requires Enabled(s, NextBatch(ids)) && i < |ids|
    requires var t := Apply(s, NextBatch(ids)); Possible(t, evs) && OneBatch(evs) && Done(Run(t, evs))
    ensures
      var t := Apply(s, NextBatch(ids));
      var end := Run(t, evs);
      && |end.stages| == |ids|
      && (end.stages[i] == Resolved(true) <==> !FailsIn(t, evs, i))
      && (end.stages[i] == Resolved(false) || end.stages[i] == Dropped <==> FailsIn(t, evs, i))
  {
    var t := Apply(s, NextBatch(ids));
    SameBatch(t, evs);
    FailedIff(t, evs, i);
    assert IsDone(Run(t, evs).stages[i]);
  }

  // ---------- The rows of imported posts ----------

  /** An unfailed post on its way: what it will be finalized with, and what its row holds. */
  predicate OnTrack(s: State, i: nat, image: bool, hash: Hash) {
    && |s.stages| == |s.ids| && InRange(s, i) && s.ids[i] in s.db.rows
    && var st, row := s.stages[i], s.db.rows[s.ids[i]];
       match st
       case Encoding => image && row.dirty
       case ProcessingVideo => !image && row.dirty
       case Checking(h) => image && h == hash && row.dirty
       case Finalizing(im, h) => im == image && h == hash && row.dirty
       case Returned(_) => !row.dirty && row.image == image && row.hash == hash
       case Counted(_) => !row.dirty && row.image == image && row.hash == hash
       case Publishing(_) => !row.dirty && row.image == image && row.hash == hash
       case Resolved(_) => !row.dirty && row.image == image && row.hash == hash
       case _ => row.dirty
  }

  /** The file is an image with this hash, or a video; nobody removes its row under the pipeline. */
  predicate Expected(e: Event, i: nat, id: Id, image: bool, hash: Hash) {
    && e != DeleteDirty(id)
    && e != (if image then ClassifyVideo(i) else ClassifyImage(i))
    && (e.Encoded? && e.i == i ==> e.hash == hash)
  }

  lemma OwnStepOnTrack(s: State, e: Event, image: bool, hash: Hash)
    requires Enabled(s, e) && Internal(e) && OnTrack(s, Target(s, e), image, hash) && !Fails(s, e, Target(s, e))
    requires Expected(e, Target(s, e), s.ids[Target(s, e)], image, hash) && (image || hash == NO_HASH)
    requires !HasFailed(s.stages[Target(s, e)])
    ensures OnTrack(Apply(s, e), Target(s, e), image, hash)
  {}

  /** A row as it is apart from the soft-delete flag. */
  predicate SameRow(before: map<Id, Row>, after: map<Id, Row>, id: Id)
    requires id in before
  {
    id in after && after[id].(deleted := before[id].deleted) == before[id]
  }

  lemma OtherRow(s: State, e: Event, id: Id)
    requires Enabled(s, e) && id in s.db.rows && e != DeleteDirty(id)
    requires Internal(e) ==> s.ids[Target(s, e)] != id
    ensures SameRow(s.db.rows, Apply(s, e).db.rows, id)
  {}

  lemma SameTrack(s: State, t: State, i: nat, image: bool, hash: Hash)
    requires OnTrack(s, i, image, hash) && SameRow(s.db.rows, t.db.rows, s.ids[i])
    requires t.ids == s.ids && |t.stages| == |s.stages| && t.stages[i] == s.stages[i]
    ensures OnTrack(t, i, image, hash)
  {}

  lemma OtherStepOnTrack(s: State, e: Event, i: nat, image: bool, hash: Hash)
    requires Distinct(s.ids) && Enabled(s, e) && OnTrack(s, i, image, hash) && !e.NextBatch?
    requires Internal(e) ==> Target(s, e) != i
    requires e != DeleteDirty(s.ids[i])
    ensures OnTrack(Apply(s, e), i, image, hash)
  {
    OtherRow(s, e, s.ids[i]);
    SameTrack(s, Apply(s, e), i, image, hash);
  }

  lemma {:induction false} StaysOnTrack(s: State, evs: seq<Event>, i: nat, image: bool, hash: Hash)
    requires Possible(s, evs) && OneBatch(evs) && OnTrack(s, i, image, hash) && Distinct(s.ids)
    requires !HasFailed(s.stages[i]) && !FailsIn(s, evs, i) && (image || hash == NO_HASH)
    requires forall k :: 0 <= k < |evs| ==> Expected(evs[k], i, s.ids[i], image, hash)
    ensures OnTrack(Run(s, evs), i, image, hash)
  {
    if evs != [] {
      var init, last := evs[..|evs| - 1], evs[|evs| - 1];
      SameBatch(s, init);
      StaysOnTrack(s, init, i, image, hash);
      FailedIff(s, init, i);
      var m := Run(s, init);
      if Internal(last) && Target(m, last) == i {
        OwnStepOnTrack(m, last, image, hash);
      } else {
        OtherStepOnTrack(m, last, i, image, hash);
      }
    }
  }

  /**
   * A post that no step fails ends imported and its row clean: an image with
   * the hash it was encoded to, a video with the zero hash.
   */
  lemma ImportedRow(s: State, ids: seq<Id>, evs: seq<Event>, i: nat, image: bool, hash: Hash)
    requires Enabled(s, NextBatch(ids)) && i < |ids|
    requires var t := Apply(s, NextBatch(ids));
      Possible(t, evs) && OneBatch(evs) && Done(Run(t, evs)) && !FailsIn(t, evs, i)
    requires forall k :: 0 <= k < |evs| ==> Expected(evs[k], i, ids[i], image, hash)
    requires image || hash == NO_HASH
    ensures
      var end := Run(Apply(s, NextBatch(ids)), evs);
      && |end.stages| == |ids| && end.stages[i] == Resolved(true)
      && ids[i] in end.db.rows
      && var row := end.db.rows[ids[i]];
         !row.dirty && row.image == image && row.hash == hash
  {
    var t := Apply(s, NextBatch(ids));
    StartOnTrack(s, ids, i, image, hash);
    ImportedIff(s, ids, evs, i);
    StaysOnTrack(t, evs, i, image, hash);
    SameBatch(t, evs);
  }

  lemma StartOnTrack(s: State, ids: seq<Id>, i: nat, image: bool, hash: Hash)
    requires Enabled(s, NextBatch(ids)) && i < |ids|
    ensures var t := Apply(s, NextBatch(ids));
      OnTrack(t, i, image, hash) && t.ids == ids && Distinct(t.ids) && !HasFailed(t.stages[i])
  {
    assert ids[i] in s.db.rows;
  }

  // ---------- Nothing dirty is left behind ----------

  /** Past the command that writes or deletes the row. */
  predicate IsWritten(st: Stage) {
    st.Dropped? || st.Returned? || st.Counted? || st.Publishing? || st.Resolved?
  }

  predicate IsDirty(rows: map<Id, Row>, id: Id) {
    id in rows && rows[id].dirty
  }

  /** No row of a written post is dirty. */
  ghost predicate WrittenIsClean(s: State) {
    && |s.stages| == |s.ids| && Distinct(s.ids)
    && forall i: nat :: InRange(s, i) && IsWritten(s.stages[i]) ==> !IsDirty(s.db.rows, s.ids[i])
  }

  predicate LosesDelete(e: Event) {
    (e.DropRow? || e.DeleteRow?) && !e.ok
  }

  /** Only the arrival of a new post, never one of the batch, makes a row dirty. */
  lemma DirtyGrowsOnly(s: State, e: Event, id: Id)
    requires Enabled(s, e) && IsDirty(Apply(s, e).db.rows, id) && !IsDirty(s.db.rows, id)
    ensures e == Create(id) && id !in s.ids
  {}

  lemma WrittenStep(s: State, e: Event)
    requires WrittenIsClean(s) && Enabled(s, e) && !e.NextBatch? && !LosesDelete(e)
    ensures WrittenIsClean(Apply(s, e))
  {
    var t := Apply(s, e);
    forall i: nat | InRange(t, i) && IsWritten(t.stages[i]) ensures !IsDirty(t.db.rows, t.ids[i]) {
      assert InRange(s, i);
      if IsDirty(t.db.rows, t.ids[i]) && !IsDirty(s.db.rows, s.ids[i]) {
        DirtyGrowsOnly(s, e, s.ids[i]);
      }
      if !IsWritten(s.stages[i]) {
        assert Internal(e) && Target(s, e) == i;
        WriteCleans(s, e);
      }
    }
  }

  lemma WriteCleans(s: State, e: Event)
    requires Enabled(s, e) && Internal(e) && !LosesDelete(e)
    requires !IsWritten(s.stages[Target(s, e)]) && IsWritten(NextStage(s, e))
    ensures !IsDirty(Apply(s, e).db.rows, s.ids[Target(s, e)])
  {}

  lemma {:induction false} WrittenRun(s: State, evs: seq<Event>)
    requires WrittenIsClean(s) && Possible(s, evs) && OneBatch(evs)
    requires forall k :: 0 <= k < |evs| ==> !LosesDelete(evs[k])
    ensures WrittenIsClean(Run(s, evs))
  {
    if evs != [] {
      WrittenRun(s, evs[..|evs| - 1]);
      WrittenStep(Run(s, evs[..|evs| - 1]), evs[|evs| - 1]);
    }
  }

  /** A batch takes up every dirty undeleted row, and if no delete is lost none of them is dirty when it is done. */
  lemma BatchLeavesNothingDirty(s: State, ids: seq<Id>, evs: seq<Event>, id: Id)
    requires Enabled(s, NextBatch(ids))
    requires var t := Apply(s, NextBatch(ids)); Possible(t, evs) && OneBatch(evs) && Done(Run(t, evs))
    requires forall k :: 0 <= k < |evs| ==> !LosesDelete(evs[k])
    requires id in s.db.rows && s.db.rows[id].dirty && !s.db.rows[id].deleted
    ensures
      var end := Run(Apply(s, NextBatch(ids)), evs);
      id in end.db.rows ==> !end.db.rows[id].dirty
  {
    var t := Apply(s, NextBatch(ids));
    StartIsClean(s, ids);
    WrittenRun(t, evs);
    SameBatch(t, evs);
    var i :| 0 <= i < |ids| && ids[i] == id;
    DoneIsClean(Run(t, evs), i);
  }

  lemma StartIsClean(s: State, ids: seq<Id>)
    requires Enabled(s, NextBatch(ids))
    ensures WrittenIsClean(Apply(s, NextBatch(ids)))
  {
    assert Distinct(ids);
  }

  lemma DoneIsClean(s: State, i: nat)
    requires WrittenIsClean(s) && Done(s) && InRange(s, i)
    ensures !IsDirty(s.db.rows, s.ids[i])
  {
    assert IsDone(s.stages[i]);
  }

  /** A soft-deleted dirty row is not taken up: whatever happens to the batch, the row stays as it is. */
  lemma SoftDeletedIsLeftAlone(s: State, ids: seq<Id>, evs: seq<Event>, id: Id)
    requires Enabled(s, NextBatch(ids)) && id in s.db.rows && s.db.rows[id].deleted
    requires var t := Apply(s, NextBatch(ids)); Possible(t, evs) && OneBatch(evs)
    requires DeleteDirty(id) !in evs
    ensures
      var end := Run(Apply(s, NextBatch(ids)), evs);
      id in end.db.rows && end.db.rows[id] == s.db.rows[id]
  {
    forall i | 0 <= i < |ids| ensures ids[i] != id {
      assert !s.db.rows[ids[i]].deleted;
    }
    OutsideStays(Apply(s, NextBatch(ids)), evs, id);
  }

  lemma {:induction false} OutsideStays(s: State, evs: seq<Event>, id: Id)
    requires Possible(s, evs) && OneBatch(evs) && DeleteDirty(id) !in evs
    requires id in s.db.rows && s.db.rows[id].deleted && id !in s.ids
    ensures var t := Run(s, evs); id in t.db.rows && t.db.rows[id] == s.db.rows[id] && t.ids == s.ids
  {
    if evs != [] {
      var init, last := evs[..|evs| - 1], evs[|evs| - 1];
      assert evs == init + [last];
      OutsideStays(s, init, id);
      OutsideStep(Run(s, init), last, id);
    }
  }

  lemma OutsideStep(s: State, e: Event, id: Id)
    requires Enabled(s, e) && e != DeleteDirty(id) && !e.NextBatch?
    requires id in s.db.rows && s.db.rows[id].deleted && id !in s.ids
    ensures var t := Apply(s, e); id in t.db.rows && t.db.rows[id] == s.db.rows[id] && t.ids == s.ids
  {
    OtherRow(s, e, id);
  }

  // ---------- The final counts ----------

  /** The indices below n with this stage. */
  function Ending(stages: seq<Stage>, st: Stage): set<nat> {
    set i: nat | i < |stages| && stages[i] == st
  }

  lemma {:induction false} TotalCounts(stages: seq<Stage>, p: Stage -> bool)
    ensures Total(stages, p) == |set i: nat | i < |stages| && p(stages[i])|
  {
    var n := |stages| - 1;
    var all := set i: nat | i < |stages| && p(stages[i]);
    if stages == [] {
      assert all == {};
    } else {
      TotalCounts(stages[..n], p);
      var before := set i: nat | i < |stages[..n]| && p(stages[..n][i]);
      assert all == if p(stages[n]) then before + {n} else before;
    }
  }

  /** How many posts are in a class of stages. */
  function Number(stages: seq<Stage>, p: Stage -> bool): nat {
    |set i: nat | i < |stages| && p(stages[i])|
  }

  /** In every reachable state the counters are the numbers of posts in these stages. */
  lemma CountersMeaning(s: State)
    requires CountersInv(s)
    ensures s.counts.active == Number(s.stages, (st: Stage) =>
      st.Decoding? || st.Encoding? || st.Checking? || st.ProcessingVideo? || st.Finalizing? || st.Deleting?
      || st.Returned?)
    ensures s.counts.processed == Number(s.stages, (st: Stage) => st.Counted? || st.Publishing? || st.Resolved?)
    ensures s.counts.imported == Number(s.stages, (st: Stage) => st == Publishing(true) || st == Resolved(true))
    ensures s.counts.failed == Number(s.stages, (st: Stage) => st == Publishing(false) || st == Resolved(false))
  {
    SameNumber(s.stages, IsActive, (st: Stage) =>
      st.Decoding? || st.Encoding? || st.Checking? || st.ProcessingVideo? || st.Finalizing? || st.Deleting?
      || st.Returned?);
    SameNumber(s.stages, IsProcessed, (st: Stage) => st.Counted? || st.Publishing? || st.Resolved?);
    SameNumber(s.stages, IsImported, (st: Stage) => st == Publishing(true) || st == Resolved(true));
    SameNumber(s.stages, IsFailed, (st: Stage) => st == Publishing(false) || st == Resolved(false));
  }

  lemma SameNumber(stages: seq<Stage>, p: Stage -> bool, q: Stage -> bool)
    requires forall st :: p(st) == q(st)
    ensures Total(stages, p) == Number(stages, q)
  {
    TotalCounts(stages, p);
    assert (set i: nat | i < |stages| && p(stages[i])) == set i: nat | i < |stages| && q(stages[i]);
  }

  /** While a batch runs its pending posts are the ones no worker has begun. */
  lemma PendingMeaning(s: State)
    requires CountersInv(s) && s.running
    ensures s.counts.pending == Number(s.stages, (st: Stage) =>
      st.Waiting? || st.Downloading? || st.Dropping? || st.Dropped? || st.Sending? || st.Queued?)
  {
    SameNumber(s.stages, IsPending, (st: Stage) =>
      st.Waiting? || st.Downloading? || st.Dropping? || st.Dropped? || st.Sending? || st.Queued?);
    PendingTotals(s.stages);
  }

  /** A post is in flight from the start of its download until its worker has come back or the download has failed. */
  lemma InFlightMeaning(s: State, i: nat)
    requires |s.stages| == |s.ids| && TrackedInv(s) && InRange(s, i)
    ensures
      var st := s.stages[i];
      s.ids[i] in s.inFlight
      <==> !st.Waiting? && !st.Dropping? && !st.Dropped? && !st.Counted? && !st.Publishing? && !st.Resolved?
  {}

  predicate IsPending(st: Stage) { !IsBegun(st) }

  lemma {:induction false} PendingTotals(stages: seq<Stage>)
    ensures Total(stages, IsPending) == |stages| - Total(stages, IsBegun)
  {
    if stages != [] {
      PendingTotals(stages[..|stages| - 1]);
    }
  }

  /**
   * What makes a post wait: a full channel of twice the larger limit, no free
   * worker, or a download slot that earlier posts are still to take.
   */
  lemma WaitsIff(s: State, i: nat)
    requires Shape(s) && ChannelInv(s) && InRange(s, i)
    ensures s.stages[i].Sending? ==>
      (Enabled(s, Send(i)) <==> |s.channel| < 2 * s.cfg.concurrency || |s.channel| < 2 * s.cfg.downloads)
    ensures s.channel != [] ==> (Enabled(s, Begin) <==> Number(s.stages, IsWorking) < s.cfg.concurrency)
    ensures s.stages[i].Waiting? ==>
      (Enabled(s, StartDownload(i))
       <==> Number(s.stages, IsDownload) < s.cfg.downloads && forall j :: 0 <= j < i ==> !s.stages[j].Waiting?)
  {
    TotalCounts(s.stages, IsWorking);
    TotalCounts(s.stages, IsDownload);
    if s.channel != [] {
      assert s.channel[0] in s.channel;
    }
  }

  /** When a batch is done the counters hold the numbers of imported and of failed posts. */
  lemma CountsAreOutcomes(s: State)
    requires Inv(s) && Done(s)
    ensures s.counts.imported == |Ending(s.stages, Resolved(true))|
    ensures s.counts.failed == |Ending(s.stages, Resolved(false))|
    ensures s.running ==> s.counts.pending == |Ending(s.stages, Dropped)|
  {
    forall i | 0 <= i < |s.stages| ensures IsDone(s.stages[i]) {}
    EndingCounts(s.stages, IsImported, Resolved(true));
    EndingCounts(s.stages, IsFailed, Resolved(false));
    EndingCounts(s.stages, IsDropped, Dropped);
    BatchComplete(s);
  }

  lemma EndingCounts(stages: seq<Stage>, p: Stage -> bool, st: Stage)
    requires forall i :: 0 <= i < |stages| ==> (p(stages[i]) <==> stages[i] == st)
    ensures Total(stages, p) == |Ending(stages, st)|
  {
    TotalCounts(stages, p);
    assert (set i: nat | i < |stages| && p(stages[i])) == Ending(stages, st);
  }
}
