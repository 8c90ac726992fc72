/**
 * The vote buffer of one entity type as the program runs it: fields updated in
 * place, one command at a time. Before every command of the flush worker the
 * casts that `arrivals` schedules for that moment land, and `faults` decides
 * how the command itself ends, so a proof for all buffers covers every
 * interleaving and every pattern of failures. The ghost log records each
 * command as a step of VoteFlush.
 */
module FlushWorker {
  import opened Prelude
  import opened VoteCache
  import opened VoteFlush

  class VoteBuffer {
    var keys: map<Id, Entity>
    var dirty: set<Id>
    var db: map<Id, Row>
    var clock: nat
    const arrivals: nat -> seq<(Id, Ballot)>
    const faults: nat -> Fault

    ghost var worker: Worker
    ghost var lost: set<Id>
    ghost var log: seq<Event>
    ghost const start: State

    ghost function Now(): State
      reads this
    {
      State(keys, dirty, db, worker, lost)
    }

    ghost predicate Valid()
      reads this
    {
      Possible(start, log) && Run(start, log) == Now() && SameProcess(log)
    }

    /** From this moment on no casts arrive and nothing fails. */
    ghost predicate QuietFrom(now: nat) {
      forall t: nat :: now <= t ==> arrivals(t) == [] && faults(t).Fine?
    }

    constructor (keys: map<Id, Entity>, dirty: set<Id>, db: map<Id, Row>,
                 arrivals: nat -> seq<(Id, Ballot)>, faults: nat -> Fault)
      ensures Valid() && worker.Idle? && log == []
      ensures Now() == start == State(keys, dirty, db, Idle, {})
      ensures this.arrivals == arrivals && this.faults == faults
    {
      this.keys, this.dirty, this.db, this.clock := keys, dirty, db, 0;
      this.arrivals, this.faults := arrivals, faults;
      worker, lost, log, start := Idle, {}, [], State(keys, dirty, db, Idle, {});
    }

    twostate lemma Stepped(ev: Event)
      requires old(Valid()) && Enabled(old(Now()), ev)
      requires Now() == Apply(old(Now()), ev) && log == old(log) + [ev] && !ev.Die?
      ensures Valid()
    {
      RunSnoc(start, old(log), ev);
    }

    /** The cast script, command by command. */
    method CastVote(id: Id, user: UserId, vote: int) returns (delta: int)
      requires Valid()
      modifies this`keys, this`dirty, this`lost, this`log
      ensures Valid() && log == old(log) + [Event.CastVote(id, Ballot(user, vote))]
      ensures Now() == Apply(old(Now()), Event.CastVote(id, Ballot(user, vote)))
      ensures delta == vote - VoteOf(KeysOf(old(keys), id).votes, user)
      ensures dirty == old(dirty) + (if delta != 0 then {id} else {})
      ensures lost == if delta != 0 then old(lost) - {id} else old(lost)
      ensures
        var e, f := KeysOf(old(keys), id), KeysOf(keys, id);
        && f.votes == (if vote == 0 then e.votes - {user} else e.votes[user := vote])
        && f.deleted == (if vote == 0 then e.deleted + {user} else e.deleted - {user})
        && ScoreOf(f) == ScoreOf(e) + delta && (delta == 0 ==> f.score == e.score)
      ensures forall i :: i != id ==> KeysOf(keys, i) == KeysOf(old(keys), i)
    {
      var k;
      k, delta := CastInto(KeysOf(keys, id), user, vote);
      if delta != 0 {
        dirty := dirty + {id};
        lost := lost - {id};
      }
      keys := keys[id := k];
      log := log + [Event.CastVote(id, Ballot(user, vote))];
      Stepped(Event.CastVote(id, Ballot(user, vote)));
    }

    /** What the script does to the entity's votes hash, deleted set and score. */
    static method CastInto(e: Entity, user: UserId, vote: int) returns (k: Entity, delta: int)
      ensures k == Cast(e, Ballot(user, vote)) && delta == vote - VoteOf(e.votes, user)
      ensures k.votes == if vote == 0 then e.votes - {user} else e.votes[user := vote]
      ensures k.deleted == if vote == 0 then e.deleted + {user} else e.deleted - {user}
      ensures ScoreOf(k) == ScoreOf(e) + delta && (delta == 0 ==> k.score == e.score)
    {
      k := e;
      var oldVote := 0;
      if user in k.votes {
        oldVote := k.votes[user];
      }
      delta := vote - oldVote;
      if vote == 0 {
        k := k.(votes := k.votes - {user});
        k := k.(deleted := k.deleted + {user});
      } else {
        k := k.(votes := k.votes[user := vote]);
        k := k.(deleted := k.deleted - {user});
      }
      if delta != 0 {
        k := k.(score := Some(k.score.GetOr(0) + delta));
      }
    }

    /** Seeds each missing score with the total of the entity's rows; a live score is never overwritten. */
    method PreloadScores()
      requires Valid()
      modifies this`keys, this`log
      ensures Valid() && old(log) <= log
      ensures forall id :: KeysOf(keys, id) == Seeded(KeysOf(old(keys), id), RowOf(db, id))
      ensures forall id :: id in db && db[id].rows != map[] && KeysOf(old(keys), id).score.None? ==>
        KeysOf(keys, id).score == Some(Sum(db[id].rows))
      ensures forall id :: KeysOf(old(keys), id).score.Some? || id !in db || db[id].rows == map[] ==>
        KeysOf(keys, id).score == KeysOf(old(keys), id).score
      ensures forall id :: KeysOf(keys, id).votes == KeysOf(old(keys), id).votes
      ensures forall id :: KeysOf(keys, id).deleted == KeysOf(old(keys), id).deleted
    {
      var rest := db.Keys;
      while rest != {}
        invariant rest <= db.Keys && Valid() && old(log) <= log
        invariant forall id :: id in db && id !in rest ==>
          KeysOf(keys, id) == Seeded(KeysOf(old(keys), id), RowOf(db, id))
        invariant forall id :: id !in db || id in rest ==> KeysOf(keys, id) == KeysOf(old(keys), id)
        decreases |rest|
      {
        ghost var _ := SomeElement(rest);
        var id :| id in rest;
        rest := rest - {id};
        if db[id].rows != map[] {
          SetNX(id);
        }
      }
    }

    method SetNX(id: Id)
      requires Valid() && id in db && db[id].rows != map[]
      modifies this`keys, this`log
      ensures Valid() && log == old(log) + [Preload(id)]
      ensures KeysOf(keys, id) == Seeded(KeysOf(old(keys), id), db[id])
      ensures forall i :: i != id ==> KeysOf(keys, i) == KeysOf(old(keys), i)
    {
      var total := Total(db[id].rows);
      var k := KeysOf(keys, id);
      if k.score.None? {
        keys := keys[id := k.(score := Some(total))];
      }
      log := log + [Preload(id)];
      Stepped(Preload(id));
    }

    static method Total(rows: Votes) returns (total: int)
      ensures total == Sum(rows)
    {
      total := 0;
      var rest := rows;
      while rest.Keys != {}
        invariant rest.Keys <= rows.Keys && forall u :: u in rest ==> rest[u] == rows[u]
        invariant total + Sum(rest) == Sum(rows)
        decreases |rest.Keys|
      {
        ghost var _ := SomeElement(rest.Keys);
        var u :| u in rest.Keys;
        SumSplit(rest, u);
        total := total + rest[u];
        rest := rest - {u};
      }
      assert rest == map[];
    }

    /** The user's current vote, 0 when there is none. */
    method GetUserVote(id: Id, user: UserId) returns (vote: int)
      ensures vote == VoteOf(KeysOf(keys, id).votes, user)
    {
      vote := 0;
      if id in keys && user in keys[id].votes {
        vote := keys[id].votes[user];
      }
    }

    /** Other clients' casts that land before the worker's next command. */
    method Interlude()
      requires Valid()
      modifies this`keys, this`dirty, this`lost, this`log, this`clock
      ensures Valid() && clock == old(clock) + 1
      ensures old(log) <= log
      ensures arrivals(old(clock)) == [] ==> keys == old(keys) && dirty == old(dirty) && lost == old(lost)
    {
      var casts := arrivals(clock);
      for i := 0 to |casts|
        invariant Valid() && old(log) <= log && clock == old(clock) && worker == old(worker)
        invariant casts == [] ==> keys == old(keys) && dirty == old(dirty) && lost == old(lost)
      {
        var _ := CastVote(casts[i].0, casts[i].1.user, casts[i].1.vote);
      }
      clock := clock + 1;
    }

    /** The transaction of the next entity; a failed one may or may not have been applied. */
    method WriteEntityTx(id: Id, sn: Snap) returns (ok: bool)
      requires Valid() && Enabled(Now(), Commit) && worker.ids[worker.next] == id && worker.snaps[worker.next] == sn
      modifies this`db, this`worker, this`log, this`clock
      ensures Valid() && clock == old(clock) + 1 && ok == faults(old(clock)).Fine?
      ensures log == old(log) + [if ok then Commit else TxFailed(faults(old(clock)).FailsAfterApplying?)]
      ensures !faults(old(clock)).Fails? ==> db == old(db)[id := Written(RowOf(old(db), id), sn)]
      ensures faults(old(clock)).Fails? ==> db == old(db)
      ensures worker == AfterTx(old(worker), ok, sn.deleted)
    {
      var batch := QueueBatch(sn);
      var row := SendBatch(RowOf(db, id), batch);
      ok := EndTx(id, sn, row);
    }

    /** The end of a transaction that has computed `row`. */
    method EndTx(id: Id, sn: Snap, row: Row) returns (ok: bool)
      requires Valid() && Enabled(Now(), Commit) && worker.ids[worker.next] == id && worker.snaps[worker.next] == sn
      requires row == Written(RowOf(db, id), sn)
      modifies this`db, this`worker, this`log, this`clock
      ensures Valid() && clock == old(clock) + 1 && ok == faults(old(clock)).Fine?
      ensures log == old(log) + [if ok then Commit else TxFailed(faults(old(clock)).FailsAfterApplying?)]
      ensures db == if faults(old(clock)).Fails? then old(db) else old(db)[id := row]
      ensures worker == AfterTx(old(worker), ok, sn.deleted)
    {
      var fault := faults(clock);
      clock := clock + 1;
      ok := fault.Fine?;
      if !fault.Fails? {
        db := db[id := row];
      }
      ghost var ev := if ok then Commit else TxFailed(fault.FailsAfterApplying?);
      worker := AfterTx(worker, ok, sn.deleted);
      log := log + [ev];
      Stepped(ev);
    }

    /** The database executes the statements of a batch in the order they were queued. */
    static method SendBatch(before: Row, batch: seq<Statement>) returns (row: Row)
      ensures row == ExecAll(before, batch)
    {
      row := before;
      for i := 0 to |batch|
        invariant row == ExecAll(before, batch[..i])
      {
        assert batch[..i + 1][..i] == batch[..i];
        row := Exec(row, batch[i]);
      }
      assert batch[..|batch|] == batch;
    }

    /**
     * Queues the statements in whatever order the map and the set are
     * iterated: executed on any row they leave the row the snapshot asks for.
     */
    static method QueueBatch(sn: Snap) returns (batch: seq<Statement>)
      ensures forall before: Row :: ExecAll(before, batch) == Written(before, sn)
    {
      var upserts := QueueUpserts(sn.votes);
      var deletes := QueueDeletes(sn.deleted);
      batch := upserts + deletes + [SetScore(sn.score)];
      forall before: Row ensures ExecAll(before, batch) == Written(before, sn) {
        BatchOrderIrrelevant(before, upserts, deletes, sn);
      }
    }

    static method QueueUpserts(votes: Votes) returns (batch: seq<Statement>)
      ensures AreUpserts(batch, votes)
    {
      batch := [];
      var rest := votes.Keys;
      while rest != {}
        invariant rest <= votes.Keys && UsersOf(batch) == votes.Keys - rest
        invariant forall st :: st in batch ==> st.Upsert? && st.user in votes && st.vote == votes[st.user]
        decreases |rest|
      {
        ghost var _ := SomeElement(rest);
        var u :| u in rest;
        UsersOfSnoc(batch, Upsert(u, votes[u]));
        batch := batch + [Upsert(u, votes[u])];
        rest := rest - {u};
      }
    }

    static method QueueDeletes(users: set<UserId>) returns (batch: seq<Statement>)
      ensures AreDeletes(batch, users)
    {
      batch := [];
      var rest := users;
      while rest != {}
        invariant rest <= users && UsersOf(batch) == users - rest
        invariant forall st :: st in batch ==> st.Delete?
        decreases |rest|
      {
        ghost var _ := SomeElement(rest);
        var u :| u in rest;
        UsersOfSnoc(batch, Delete(u));
        batch := batch + [Delete(u)];
        rest := rest - {u};
      }
    }

    /** The reads of one pipeline: votes, score and deleted set of each entity, with casts landing in between. */
    method ReadSnapshots(ids: seq<Id>) returns (snaps: seq<Snap>)
      requires Valid() && worker == Reading(ids, [], NoneRead)
      modifies this`keys, this`dirty, this`lost, this`worker, this`log, this`clock
      ensures Valid() && old(log) <= log && clock >= old(clock)
      ensures worker == Reading(ids, snaps, NoneRead) && |snaps| == |ids|
      ensures QuietFrom(old(clock)) ==> keys == old(keys) && dirty == old(dirty) && lost == old(lost)
      ensures QuietFrom(old(clock)) ==> Untorn(keys, ids, snaps)
    {
      snaps := [];
      for i := 0 to |ids|
        invariant Valid() && old(log) <= log && clock >= old(clock)
        invariant |snaps| == i && worker == Reading(ids, snaps, NoneRead)
        invariant QuietFrom(old(clock)) ==> Untorn(keys, ids, snaps)
        invariant QuietFrom(old(clock)) ==> keys == old(keys) && dirty == old(dirty) && lost == old(lost)
      {
        var snap := ReadOne(ids, snaps);
        ghost var before := snaps;
        snaps := snaps + [snap];
        if QuietFrom(old(clock)) {
          UntornNext(keys, ids, before, snap);
        }
      }
    }

    method ReadOne(ids: seq<Id>, snaps: seq<Snap>) returns (snap: Snap)
      requires Valid() && worker == Reading(ids, snaps, NoneRead) && |snaps| < |ids|
      modifies this`keys, this`dirty, this`lost, this`worker, this`log, this`clock
      ensures Valid() && old(log) <= log && clock >= old(clock)
      ensures worker == Reading(ids, snaps + [snap], NoneRead)
      ensures QuietFrom(old(clock)) ==> keys == old(keys) && dirty == old(dirty) && lost == old(lost)
      ensures QuietFrom(old(clock)) ==> snap == SnapOf(KeysOf(keys, ids[|snaps|]))
    {
      var votes := ReadVotes(ids, snaps);
      var score := ReadScore(ids, snaps, votes);
      snap := ReadDeleted(ids, snaps, votes, score);
    }

    /** HGETALL of the next entity's votes. */
    method ReadVotes(ids: seq<Id>, snaps: seq<Snap>) returns (votes: Votes)
      requires Valid() && worker == Reading(ids, snaps, NoneRead) && |snaps| < |ids|
      modifies this`keys, this`dirty, this`lost, this`worker, this`log, this`clock
      ensures Valid() && old(log) <= log && clock == old(clock) + 1
      ensures worker == Reading(ids, snaps, VotesRead(votes)) && votes == KeysOf(keys, ids[|snaps|]).votes
      ensures arrivals(old(clock)) == [] ==> keys == old(keys) && dirty == old(dirty) && lost == old(lost)
    {
      Interlude();
      votes := KeysOf(keys, ids[|snaps|]).votes;
      RecordRead(Reading(ids, snaps, VotesRead(votes)));
    }

    /** GET of its score, 0 when the key is missing. */
    method ReadScore(ids: seq<Id>, snaps: seq<Snap>, votes: Votes) returns (score: int)
      requires Valid() && worker == Reading(ids, snaps, VotesRead(votes)) && |snaps| < |ids|
      modifies this`keys, this`dirty, this`lost, this`worker, this`log, this`clock
      ensures Valid() && old(log) <= log && clock == old(clock) + 1
      ensures worker == Reading(ids, snaps, ScoreRead(votes, score)) && score == ScoreOf(KeysOf(keys, ids[|snaps|]))
      ensures arrivals(old(clock)) == [] ==> keys == old(keys) && dirty == old(dirty) && lost == old(lost)
    {
      Interlude();
      score := KeysOf(keys, ids[|snaps|]).score.GetOr(0);
      RecordRead(Reading(ids, snaps, ScoreRead(votes, score)));
    }

    /** SMEMBERS of its deleted set, which completes the snapshot. */
    method ReadDeleted(ids: seq<Id>, snaps: seq<Snap>, votes: Votes, score: int) returns (snap: Snap)
      requires Valid() && worker == Reading(ids, snaps, ScoreRead(votes, score)) && |snaps| < |ids|
      modifies this`keys, this`dirty, this`lost, this`worker, this`log, this`clock
      ensures Valid() && old(log) <= log && clock == old(clock) + 1
      ensures worker == Reading(ids, snaps + [snap], NoneRead)
      ensures snap == Snap(votes, score, KeysOf(keys, ids[|snaps|]).deleted)
      ensures arrivals(old(clock)) == [] ==> keys == old(keys) && dirty == old(dirty) && lost == old(lost)
    {
      Interlude();
      snap := Snap(votes, score, KeysOf(keys, ids[|snaps|]).deleted);
      RecordRead(Reading(ids, snaps + [snap], NoneRead));
    }

    ghost method RecordRead(next: Worker)
      requires Valid() && Enabled(Now(), Read) && next == ReadNext(Now())
      modifies this`worker, this`log
      ensures Valid() && log == old(log) + [Read] && worker == next
    {
      worker, log := next, log + [Read];
      Stepped(Read);
    }

    ghost method RecordGrab(ids: seq<Id>)
      requires Valid() && worker.Idle? && ids != [] && Distinct(ids) && Elements(ids) == dirty
      modifies this`worker, this`log
      ensures Valid() && log == old(log) + [Grab(ids)] && worker == Grabbed(ids)
    {
      worker, log := Grabbed(ids), log + [Grab(ids)];
      Stepped(Grab(ids));
    }

    ghost method RecordReadsDone()
      requires Valid() && worker.Reading? && |worker.snaps| == |worker.ids|
      modifies this`worker, this`log
      ensures Valid() && log == old(log) + [ReadsDone]
      ensures worker == Writing(old(worker).ids, old(worker).snaps, 0)
    {
      worker, log := Writing(worker.ids, worker.snaps, 0), log + [ReadsDone];
      Stepped(ReadsDone);
    }

    ghost method RecordFinish()
      requires Valid() && worker.Writing? && worker.next == |worker.ids|
      modifies this`worker, this`log
      ensures Valid() && log == old(log) + [Finish] && worker.Idle?
    {
      worker, log := Idle, log + [Finish];
      Stepped(Finish);
    }

    /** Removes the dirty marks before anything is read; the error of this command is ignored. */
    method Unmark(ids: seq<Id>)
      requires Valid() && worker == Grabbed(ids)
      modifies this`dirty, this`worker, this`log, this`clock
      ensures Valid() && clock == old(clock) + 1 && log == old(log) + [Event.Unmark(!faults(old(clock)).Fails?)]
      ensures worker == Reading(ids, [], NoneRead)
      ensures dirty == if faults(old(clock)).Fails? then old(dirty) else old(dirty) - Elements(ids)
    {
      ghost var ev := Event.Unmark(!faults(clock).Fails?);
      if !faults(clock).Fails? {
        dirty := dirty - Elements(ids);
      }
      clock := clock + 1;
      worker := Reading(ids, [], NoneRead);
      log := log + [ev];
      Stepped(ev);
    }

    /** Removes the deletions that the committed transaction carried out; errors are ignored. */
    method Acknowledge(id: Id, deleted: set<UserId>)
      requires Valid() && Enabled(Now(), Ack(true))
      requires worker.ids[worker.next] == id && worker.snaps[worker.next].deleted == deleted
      modifies this`keys, this`worker, this`log, this`clock
      ensures Valid() && clock == old(clock) + 1 && log == old(log) + [Ack(!faults(old(clock)).Fails?)]
      ensures worker == Writing(old(worker).ids, old(worker).snaps, old(worker).next + 1)
      ensures SameVotes(old(keys), keys)
      ensures if faults(old(clock)).Fails? then keys == old(keys) else Dropped(old(keys), keys, id, deleted)
    {
      ghost var ev := Ack(!faults(clock).Fails?);
      if !faults(clock).Fails? {
        var k := KeysOf(keys, id);
        keys := keys[id := k.(deleted := k.deleted - deleted)];
      }
      clock := clock + 1;
      worker := Writing(worker.ids, worker.snaps, worker.next + 1);
      log := log + [ev];
      Stepped(ev);
    }

    ghost method RecordReadsFailed(ids: seq<Id>)
      requires Valid() && worker.Reading? && worker.ids == ids
      modifies this`worker, this`log
      ensures Valid() && log == old(log) + [ReadsFailed] && worker == ReadFailed(ids)
    {
      worker, log := ReadFailed(ids), log + [ReadsFailed];
      Stepped(ReadsFailed);
    }

    /** After a failed pipeline: marks the whole batch dirty again for the next flush; the error is ignored. */
    method RemarkBatch(ids: seq<Id>)
      requires Valid() && worker == ReadFailed(ids)
      modifies this`dirty, this`lost, this`worker, this`log, this`clock
      ensures Valid() && worker.Idle? && clock == old(clock) + 1
      ensures log == old(log) + [Event.RemarkBatch(!faults(old(clock)).Fails?)]
      ensures if faults(old(clock)).Fails? then dirty == old(dirty) && lost == old(lost) + (Elements(ids) - old(dirty))
              else dirty == old(dirty) + Elements(ids) && lost == old(lost)
    {
      ghost var ev := Event.RemarkBatch(!faults(clock).Fails?);
      if !faults(clock).Fails? {
        dirty := dirty + Elements(ids);
      } else {
        lost := lost + (Elements(ids) - dirty);
      }
      clock := clock + 1;
      worker, log := Idle, log + [ev];
      Stepped(ev);
    }

    /** After a failed transaction: marks the entity dirty again for the next flush; the error is ignored. */
    method Remark(id: Id)
      requires Valid() && Enabled(Now(), Event.Remark(true)) && worker.ids[worker.next] == id
      modifies this`dirty, this`lost, this`worker, this`log, this`clock
      ensures Valid() && clock == old(clock) + 1
      ensures worker == Writing(old(worker).ids, old(worker).snaps, old(worker).next + 1)
      ensures log == old(log) + [Event.Remark(!faults(old(clock)).Fails?)]
      ensures if faults(old(clock)).Fails? then dirty == old(dirty) && lost == old(lost) + ({id} - old(dirty))
              else dirty == old(dirty) + {id} && lost == old(lost)
    {
      ghost var ev := Event.Remark(!faults(clock).Fails?);
      if !faults(clock).Fails? {
        dirty := dirty + {id};
      } else {
        lost := lost + ({id} - dirty);
      }
      clock := clock + 1;
      worker := Writing(worker.ids, worker.snaps, worker.next + 1);
      log := log + [ev];
      Stepped(ev);
    }

    /** SMEMBERS: the members of a set in some order. */
    static method Members(s: set<Id>) returns (ids: seq<Id>)
      ensures Distinct(ids) && Elements(ids) == s
    {
      ids := [];
      var rest := s;
      while rest != {}
        invariant rest <= s && Distinct(ids) && Elements(ids) == s - rest
        decreases |rest|
      {
        ghost var _ := SomeElement(rest);
        var id :| id in rest;
        assert id !in Elements(ids);
        ElementsSnoc(ids, id);
        ids, rest := ids + [id], rest - {id};
      }
    }

    /**
     * One flush of this entity type. Whatever arrives and whatever fails, the
     * log stays a run of the step system; with no arrivals and no failures the
     * dirty set is drained and the votes and scores in Redis are untouched.
     */
    method FlushEntityType() returns (err: bool)
      requires Valid() && worker.Idle?
      modifies this`keys, this`dirty, this`lost, this`db, this`worker, this`log, this`clock
      ensures Valid() && worker.Idle? && old(log) <= log
      ensures QuietFrom(old(clock)) ==> !err && dirty == {} && SameVotes(old(keys), keys) && lost == old(lost)
      ensures QuietFrom(old(clock)) ==> forall id :: id in old(dirty) ==> KeysOf(keys, id).deleted == {}
    {
      var ids;
      err, ids := DirtyMembers();
      if err || ids == [] {
        return;
      }
      RecordGrab(ids);
      var snaps;
      err, snaps := Collect(ids);
      if !err {
        ghost var before := keys;
        WriteAll(ids, snaps);
        if QuietFrom(old(clock)) {
          forall id | id in old(dirty) ensures KeysOf(keys, id).deleted == {} {
            assert id in Elements(ids);
            var k :| 0 <= k < |ids| && ids[k] == id;
            assert snaps[k] == SnapOf(KeysOf(before, id));
          }
        }
      }
    }

    method DirtyMembers() returns (err: bool, ids: seq<Id>)
      requires Valid()
      modifies this`keys, this`dirty, this`lost, this`log, this`clock
      ensures Valid() && old(log) <= log && clock >= old(clock)
      ensures Distinct(ids) && (!err ==> Elements(ids) == dirty && (ids == [] ==> dirty == {}))
      ensures QuietFrom(old(clock)) ==> !err && keys == old(keys) && dirty == old(dirty) && lost == old(lost)
    {
      Interlude();
      err, ids := !faults(clock).Fine?, [];
      clock := clock + 1;
      if !err {
        ids := Members(dirty);
      }
    }

    /** Takes the batch out of the dirty set and reads it; after a failed pipeline the batch is marked again. */
    method Collect(ids: seq<Id>) returns (failed: bool, snaps: seq<Snap>)
      requires Valid() && worker == Grabbed(ids)
      modifies this`keys, this`dirty, this`lost, this`worker, this`log, this`clock
      ensures Valid() && old(log) <= log && clock >= old(clock)
      ensures failed ==> worker.Idle?
      ensures !failed ==> |snaps| == |ids| && worker == Reading(ids, snaps, NoneRead)
      ensures QuietFrom(old(clock)) && !failed ==> Untorn(keys, ids, snaps)
      ensures QuietFrom(old(clock)) ==>
        !failed && dirty == old(dirty) - Elements(ids) && keys == old(keys) && lost == old(lost)
    {
      TakeBatch(ids);
      snaps := ReadSnapshots(ids);
      Interlude();
      failed := !faults(clock).Fine?;
      clock := clock + 1;
      if failed {
        MarkBatchAgain(ids);
      }
    }

    method MarkBatchAgain(ids: seq<Id>)
      requires Valid() && worker.Reading? && worker.ids == ids
      modifies this`keys, this`dirty, this`lost, this`worker, this`log, this`clock
      ensures Valid() && worker.Idle? && old(log) <= log && clock >= old(clock)
    {
      RecordReadsFailed(ids);
      Interlude();
      RemarkBatch(ids);
    }

    method TakeBatch(ids: seq<Id>)
      requires Valid() && worker == Grabbed(ids)
      modifies this`keys, this`dirty, this`lost, this`worker, this`log, this`clock
      ensures Valid() && old(log) <= log && clock >= old(clock) && worker == Reading(ids, [], NoneRead)
      ensures QuietFrom(old(clock)) ==> dirty == old(dirty) - Elements(ids) && keys == old(keys) && lost == old(lost)
    {
      Interlude();
      Unmark(ids);
    }

    method WriteAll(ids: seq<Id>, snaps: seq<Snap>)
      requires Valid() && |ids| == |snaps| && Distinct(ids) && worker == Reading(ids, snaps, NoneRead)
      modifies this`keys, this`dirty, this`lost, this`db, this`worker, this`log, this`clock
      ensures Valid() && worker.Idle? && old(log) <= log && clock >= old(clock)
      ensures QuietFrom(old(clock)) ==> dirty == old(dirty) && SameVotes(old(keys), keys) && lost == old(lost)
      ensures QuietFrom(old(clock)) ==> DroppedUpTo(old(keys), keys, ids, snaps, |ids|)
    {
      RecordReadsDone();
      for i := 0 to |ids|
        invariant Valid() && worker == Writing(ids, snaps, i) && old(log) <= log && clock >= old(clock)
        invariant QuietFrom(old(clock)) ==> DroppedUpTo(old(keys), keys, ids, snaps, i)
        invariant QuietFrom(old(clock)) ==> dirty == old(dirty) && SameVotes(old(keys), keys) && lost == old(lost)
      {
        Interlude();
        ghost var before := keys;
        WriteOne(ids, snaps, i);
        if QuietFrom(old(clock)) {
          DroppedNext(old(keys), before, keys, ids, snaps, i);
        }
      }
      RecordFinish();
    }

    method WriteOne(ids: seq<Id>, snaps: seq<Snap>, i: nat)
      requires Valid() && i < |ids| == |snaps| && worker == Writing(ids, snaps, i)
      modifies this`keys, this`dirty, this`lost, this`db, this`worker, this`log, this`clock
      ensures Valid() && worker == Writing(ids, snaps, i + 1) && old(log) <= log && clock >= old(clock)
      ensures QuietFrom(old(clock)) ==> dirty == old(dirty) && SameVotes(old(keys), keys) && lost == old(lost)
      ensures QuietFrom(old(clock)) ==> Dropped(old(keys), keys, ids[i], snaps[i].deleted)
    {
      var ok := WriteEntityTx(ids[i], snaps[i]);
      if !ok {
        MarkAgain(ids, snaps, i);
      } else if snaps[i].deleted != {} {
        DropDeleted(ids, snaps, i);
      }
    }

    method MarkAgain(ids: seq<Id>, snaps: seq<Snap>, i: nat)
      requires Valid() && i < |ids| && worker == WriteFailed(ids, snaps, i)
      modifies this`keys, this`dirty, this`lost, this`worker, this`log, this`clock
      ensures Valid() && worker == Writing(ids, snaps, i + 1) && old(log) <= log && clock >= old(clock)
    {
      Interlude();
      Remark(ids[i]);
    }

    method DropDeleted(ids: seq<Id>, snaps: seq<Snap>, i: nat)
      requires Valid() && i < |ids| && i < |snaps| && worker == Acking(ids, snaps, i)
      modifies this`keys, this`dirty, this`lost, this`worker, this`log, this`clock
      ensures Valid() && worker == Writing(ids, snaps, i + 1) && old(log) <= log && clock >= old(clock)
      ensures QuietFrom(old(clock)) ==> dirty == old(dirty) && SameVotes(old(keys), keys) && lost == old(lost)
      ensures QuietFrom(old(clock)) ==> Dropped(old(keys), keys, ids[i], snaps[i].deleted)
    {
      Interlude();
      Acknowledge(ids[i], snaps[i].deleted);
    }
  }

  /** The process that runs the buffer does not end; what a later one makes of its keys is in VoteFlush. */
  ghost predicate SameProcess(log: seq<Event>) {
    forall ev :: ev in log ==> !ev.Die?
  }

  /** Where a transaction leaves the worker: about to mark the entity again, about to acknowledge, or at the next. */
  ghost function AfterTx(w: Worker, ok: bool, deleted: set<UserId>): Worker
    requires w.Writing?
  {
    if !ok then WriteFailed(w.ids, w.snaps, w.next)
    else if deleted == {} then Writing(w.ids, w.snaps, w.next + 1)
    else Acking(w.ids, w.snaps, w.next)
  }

  /** One entity's deleted set has lost these users, all others are as before. */
  ghost predicate Dropped(before: map<Id, Entity>, after: map<Id, Entity>, id: Id, users: set<UserId>) {
    && KeysOf(after, id).deleted == KeysOf(before, id).deleted - users
    && forall i :: i != id ==> KeysOf(after, i).deleted == KeysOf(before, i).deleted
  }

  /** The first n entities of a batch have lost the deletions in their snapshots. */
  ghost predicate DroppedUpTo(before: map<Id, Entity>, after: map<Id, Entity>, ids: seq<Id>, snaps: seq<Snap>, n: nat) {
    |ids| == |snaps| && forall k :: 0 <= k < |ids| ==>
      KeysOf(after, ids[k]).deleted == KeysOf(before, ids[k]).deleted - if k < n then snaps[k].deleted else {}
  }

  lemma DroppedNext(start: map<Id, Entity>, before: map<Id, Entity>, after: map<Id, Entity>,
                    ids: seq<Id>, snaps: seq<Snap>, n: nat)
    requires Distinct(ids) && n < |ids| && DroppedUpTo(start, before, ids, snaps, n)
    requires Dropped(before, after, ids[n], snaps[n].deleted)
    ensures DroppedUpTo(start, after, ids, snaps, n + 1)
  {}

  /** An untorn snapshot. */
  function SnapOf(e: Entity): Snap {
    Snap(e.votes, ScoreOf(e), e.deleted)
  }

  /** Each snapshot shows its entity as it is. */
  ghost predicate Untorn(keys: map<Id, Entity>, ids: seq<Id>, snaps: seq<Snap>) {
    |snaps| <= |ids| && forall k :: 0 <= k < |snaps| ==> snaps[k] == SnapOf(KeysOf(keys, ids[k]))
  }

  lemma UntornNext(keys: map<Id, Entity>, ids: seq<Id>, snaps: seq<Snap>, snap: Snap)
    requires Untorn(keys, ids, snaps) && |snaps| < |ids| && snap == SnapOf(KeysOf(keys, ids[|snaps|]))
    ensures Untorn(keys, ids, snaps + [snap])
  {}

  /** The same votes and scores for every entity; only deleted sets may differ. */
  ghost predicate SameVotes(before: map<Id, Entity>, after: map<Id, Entity>) {
    forall id :: KeysOf(after, id).votes == KeysOf(before, id).votes
                 && KeysOf(after, id).score == KeysOf(before, id).score
  }

  /** The keys of an entity after a preload from its rows. */
  ghost function Seeded(e: Entity, r: Row): Entity {
    if e.score.None? && r.rows != map[] then e.(score := Some(Sum(r.rows))) else e
  }

  /** The state a buffer is left in when nothing is dirty and the worker rests: the database equals Redis. */
  lemma {:induction false} DrainedAgrees(s0: State, evs: seq<Event>, id: Id)
    requires Inv(s0) && Possible(s0, evs)
    requires Run(s0, evs).worker.Idle? && Run(s0, evs).dirty == {} && id !in Run(s0, evs).lost
    ensures var s := Run(s0, evs); Agree(KeysOf(s.keys, id), RowOf(s.db, id))
  {
    RunKeepsInv(s0, evs);
    assert IdInv(Run(s0, evs), id);
  }

  ghost predicate InSync(keys: map<Id, Entity>, db: map<Id, Row>, lost: set<Id>) {
    forall id :: id !in lost ==> Agree(KeysOf(keys, id), RowOf(db, id))
  }

  /** What an undisturbed flush achieves: nothing dirty, nothing newly lost, the database equal to Redis. */
  ghost predicate Flushed(b: VoteBuffer, keys: map<Id, Entity>, lost: set<Id>)
    reads b
  {
    b.dirty == {} && b.lost == lost && InSync(b.keys, b.db, lost) && SameVotes(keys, b.keys)
  }

  /** Flushes every entity type in turn; an error in one does not stop the others. */
  method FlushAll(buffers: seq<VoteBuffer>)
    requires forall i, j :: 0 <= i < j < |buffers| ==> buffers[i] != buffers[j]
    requires forall b :: b in buffers ==> b.Valid() && b.worker.Idle? && Inv(b.start)
    modifies buffers
    ensures forall b :: b in buffers ==> b.Valid() && b.worker.Idle? && old(b.log) <= b.log
    ensures forall b :: b in buffers && b.QuietFrom(old(b.clock)) ==> Flushed(b, old(b.keys), old(b.lost))
  {
    for i := 0 to |buffers|
      invariant forall b :: b in buffers ==> b.Valid() && b.worker.Idle? && old(b.log) <= b.log
      invariant forall j :: i <= j < |buffers| ==> unchanged(buffers[j])
      invariant forall j :: 0 <= j < i && buffers[j].QuietFrom(old(buffers[j].clock)) ==>
        Flushed(buffers[j], old(buffers[j].keys), old(buffers[j].lost))
    {
      var b := buffers[i];
      var _ := b.FlushEntityType();
      if b.QuietFrom(old(b.clock)) {
        forall id | id !in b.lost ensures Agree(KeysOf(b.keys, id), RowOf(b.db, id)) {
          DrainedAgrees(b.start, b.log, id);
        }
      }
    }
  }
}
