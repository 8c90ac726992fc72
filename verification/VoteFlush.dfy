/**
 * The flush protocol as interleavable steps. Casts may land between any two
 * commands of the worker; the three reads of one entity are separate commands,
 * so a snapshot can be torn. Reads may fail as a whole, each transaction may
 * fail (with or without having been applied), the four set updates whose
 * errors the worker ignores may be lost, and the process may end at any point.
 */
module VoteFlush {
  import opened Prelude
  import opened VoteCache

  type Id = int

  /** One entity's vote rows and its denormalised score column. */
  datatype Row = Row(rows: Votes, score: int)

  /** What the three reads of one entity returned. */
  datatype Snap = Snap(votes: Votes, score: int, deleted: set<UserId>)

  /** How far the reads of the current entity have come. */
  datatype Partial = NoneRead | VotesRead(votes: Votes) | ScoreRead(votes: Votes, score: int)

  datatype Worker =
    | Idle
    | Grabbed(ids: seq<Id>)
    | Reading(ids: seq<Id>, snaps: seq<Snap>, part: Partial)
    | ReadFailed(ids: seq<Id>)                                     // the batch is to be marked again
    | Writing(ids: seq<Id>, snaps: seq<Snap>, next: nat)
    | WriteFailed(ids: seq<Id>, snaps: seq<Snap>, next: nat)       // entity `next` is to be marked again
    | Acking(ids: seq<Id>, snaps: seq<Snap>, next: nat)

  /** `lost` holds the entities whose re-mark was lost, or never sent, and whose score no cast has changed since. */
  datatype State = State(keys: map<Id, Entity>, dirty: set<Id>, db: map<Id, Row>, worker: Worker, lost: set<Id>)

  function KeysOf(keys: map<Id, Entity>, id: Id): Entity {
    if id in keys then keys[id] else NO_KEYS
  }

  function RowOf(db: map<Id, Row>, id: Id): Row {
    if id in db then db[id] else Row(map[], 0)
  }

  // ---------- One entity's transaction ----------

  datatype Statement = Upsert(user: UserId, vote: int) | Delete(user: UserId) | SetScore(score: int)

  function Exec(r: Row, st: Statement): Row {
    match st
    case Upsert(u, v) => r.(rows := r.rows[u := v])
    case Delete(u) => r.(rows := r.rows - {u})
    case SetScore(n) => r.(score := n)
  }

  function ExecAll(r: Row, batch: seq<Statement>): Row {
    if batch == [] then r else Exec(ExecAll(r, batch[..|batch| - 1]), batch[|batch| - 1])
  }

  /** The row a committed transaction leaves behind. */
  function Written(r: Row, sn: Snap): Row {
    Row(r.rows + sn.votes - sn.deleted, sn.score)
  }

  // ---------- Steps ----------

  datatype Event =
    | CastVote(id: Id, ballot: Ballot)
    | Preload(id: Id)
    | Grab(ids: seq<Id>)
    | Unmark(ok: bool)
    | Read
    | ReadsDone
    | ReadsFailed
    | RemarkBatch(ok: bool)
    | Commit
    | TxFailed(applied: bool)
    | Remark(ok: bool)
    | Ack(ok: bool)
    | Finish
    | Die       // the process ends in mid-flush; the next one starts idle

  ghost predicate Enabled(s: State, e: Event) {
    match e
    case CastVote(_, _) => true
    case Preload(id) => RowOf(s.db, id).rows != map[]
    case Grab(ids) => s.worker.Idle? && ids != [] && Distinct(ids) && Elements(ids) == s.dirty
    case Unmark(_) => s.worker.Grabbed?
    case Read => s.worker.Reading? && |s.worker.snaps| < |s.worker.ids|
    case ReadsDone => s.worker.Reading? && |s.worker.snaps| == |s.worker.ids|
    case ReadsFailed => s.worker.Reading?
    case RemarkBatch(_) => s.worker.ReadFailed?
    case Remark(_) => s.worker.WriteFailed? && s.worker.next < |s.worker.ids|
    case Commit => s.worker.Writing? && s.worker.next < |s.worker.ids| && s.worker.next < |s.worker.snaps|
    case TxFailed(_) => s.worker.Writing? && s.worker.next < |s.worker.ids| && s.worker.next < |s.worker.snaps|
    case Ack(_) => s.worker.Acking? && s.worker.next < |s.worker.ids| && s.worker.next < |s.worker.snaps|
    case Finish => s.worker.Writing? && s.worker.next == |s.worker.ids|
    case Die => !s.worker.Idle?
  }

  function Elements(ids: seq<Id>): set<Id> {
    set i | i in ids
  }

  lemma ElementsSnoc(ids: seq<Id>, id: Id)
    ensures Elements(ids + [id]) == Elements(ids) + {id}
  {}

  ghost function ReadNext(s: State): Worker
    requires Enabled(s, Read)
  {
    var w := s.worker;
    var e := KeysOf(s.keys, w.ids[|w.snaps|]);
    match w.part
    case NoneRead => w.(part := VotesRead(e.votes))
    case VotesRead(votes) => w.(part := ScoreRead(votes, ScoreOf(e)))
    case ScoreRead(votes, score) => w.(snaps := w.snaps + [Snap(votes, score, e.deleted)], part := NoneRead)
  }

  /** The part of the batch whose transaction has not been dealt with. */
  function Unfinished(w: Worker): set<Id> {
    match w
    case Idle => {}
    case Grabbed(ids) => Elements(ids)
    case Reading(ids, _, _) => Elements(ids)
    case ReadFailed(ids) => Elements(ids)
    case Writing(ids, _, next) => if next <= |ids| then Elements(ids[next..]) else {}
    case WriteFailed(ids, _, next) => if next <= |ids| then Elements(ids[next..]) else {}
    case Acking(ids, _, next) => if next < |ids| then Elements(ids[next + 1..]) else {}
  }

  /** The effect of a re-mark: a lost one leaves those entities that are not dirty anyway without a mark. */
  ghost function Remarked(s: State, ids: set<Id>, ok: bool): State {
    if ok then s.(dirty := s.dirty + ids) else s.(lost := s.lost + (ids - s.dirty))
  }

  ghost function Apply(s: State, e: Event): State
    requires Enabled(s, e)
  {
    var w := s.worker;
    match e
    case CastVote(id, b) =>
      var k := KeysOf(s.keys, id);
      s.(keys := s.keys[id := Cast(k, b)],
         dirty := if Delta(k, b) == 0 then s.dirty else s.dirty + {id},
         lost := if Delta(k, b) == 0 then s.lost else s.lost - {id})
    case Preload(id) =>
      var k := KeysOf(s.keys, id);
      if k.score.Some? then s
      else s.(keys := s.keys[id := k.(score := Some(Sum(RowOf(s.db, id).rows)))])
    case Grab(ids) => s.(worker := Grabbed(ids))
    case Unmark(ok) =>
      s.(worker := Reading(w.ids, [], NoneRead), dirty := if ok then s.dirty - Elements(w.ids) else s.dirty)
    case Read => s.(worker := ReadNext(s))
    case ReadsDone => s.(worker := Writing(w.ids, w.snaps, 0))
    case ReadsFailed => s.(worker := ReadFailed(w.ids))
    case RemarkBatch(ok) => Remarked(s, Elements(w.ids), ok).(worker := Idle)
    case Commit =>
      var id, sn := w.ids[w.next], w.snaps[w.next];
      s.(db := s.db[id := Written(RowOf(s.db, id), sn)],
         worker := if sn.deleted == {} then Writing(w.ids, w.snaps, w.next + 1) else Acking(w.ids, w.snaps, w.next))
    case TxFailed(applied) =>
      var id, sn := w.ids[w.next], w.snaps[w.next];
      s.(db := if applied then s.db[id := Written(RowOf(s.db, id), sn)] else s.db,
         worker := WriteFailed(w.ids, w.snaps, w.next))
    case Remark(ok) => Remarked(s, {w.ids[w.next]}, ok).(worker := Writing(w.ids, w.snaps, w.next + 1))
    case Ack(ok) =>
      var id, sn := w.ids[w.next], w.snaps[w.next];
      var k := KeysOf(s.keys, id);
      s.(keys := if ok then s.keys[id := k.(deleted := k.deleted - sn.deleted)] else s.keys,
         worker := Writing(w.ids, w.snaps, w.next + 1))
    case Finish => s.(worker := Idle)
    case Die => s.(worker := Idle, lost := s.lost + (Unfinished(w) - s.dirty))
  }

  // ---------- The invariant ----------

  /** The database holds exactly what Redis holds. */
  predicate Agree(e: Entity, r: Row) {
    r.rows == e.votes && r.score == ScoreOf(e)
  }

  /** Where one entity stands in the worker's current batch. */
  datatype Role =
    | Settled
    | Marked
    | Partly(part: Partial)
    | Snapped(sn: Snap)
    | Committed(sn: Snap)

  function Index(ids: seq<Id>, id: Id): (k: nat)
    requires id in ids
    ensures k < |ids| && ids[k] == id
  {
    if ids[0] == id then 0 else 1 + Index(ids[1..], id)
  }

  function RoleOf(w: Worker, id: Id): Role {
    if w.Idle? || id !in w.ids then Settled
    else
      var k := Index(w.ids, id);
      match w
      case Grabbed(_) => Marked
      case Reading(_, snaps, part) =>
        if k < |snaps| then Snapped(snaps[k]) else if k == |snaps| then Partly(part) else Partly(NoneRead)
      case ReadFailed(_) => Partly(NoneRead)
      case Writing(_, snaps, next) =>
        if next <= k < |snaps| then Snapped(snaps[k]) else Settled
      case WriteFailed(_, snaps, next) =>
        if k == next then Partly(NoneRead) else if next < k < |snaps| then Snapped(snaps[k]) else Settled
      case Acking(_, snaps, next) =>
        if k == next < |snaps| then Committed(snaps[k]) else if next < k < |snaps| then Snapped(snaps[k]) else Settled
  }

  ghost predicate Shape(w: Worker) {
    match w
    case Idle => true
    case Grabbed(ids) => Distinct(ids)
    case Reading(ids, snaps, part) =>
      Distinct(ids) && |snaps| <= |ids| && (|snaps| == |ids| ==> part.NoneRead?)
    case ReadFailed(ids) => Distinct(ids)
    case Writing(ids, snaps, next) => Distinct(ids) && |snaps| == |ids| && next <= |ids|
    case WriteFailed(ids, snaps, next) => Distinct(ids) && |snaps| == |ids| && next < |ids|
    case Acking(ids, snaps, next) => Distinct(ids) && |snaps| == |ids| && next < |ids|
  }

  /** A retracting or re-voting user never leaves both sets, so a stale read of the hash stays covered. */
  ghost predicate Covered(users: set<UserId>, e: Entity) {
    users <= e.votes.Keys + e.deleted
  }

  ghost predicate RoleInv(e: Entity, r: Row, dirty: bool, lost: bool, role: Role) {
    match role
    case Settled => !dirty && !lost ==> Agree(e, r)
    case Marked => dirty
    case Partly(NoneRead) => true
    case Partly(VotesRead(votes)) => Covered(votes.Keys, e) && (!dirty ==> votes == e.votes)
    case Partly(ScoreRead(votes, score)) =>
      Covered(votes.Keys, e) && (!dirty ==> votes == e.votes && score == ScoreOf(e))
    case Snapped(sn) =>
      && Covered(sn.votes.Keys, e)
      && (!dirty ==> sn.votes == e.votes && sn.score == ScoreOf(e) && sn.deleted <= e.deleted
                     && r.rows.Keys <= e.votes.Keys + sn.deleted)
    case Committed(sn) => r.rows.Keys !! sn.deleted && (!dirty ==> Agree(e, r))
  }

  ghost predicate CellInv(e: Entity, r: Row, dirty: bool, lost: bool, role: Role) {
    && NoZeroStored(e.votes) && e.votes.Keys !! e.deleted
    && Covered(r.rows.Keys, e)
    && (lost ==> !dirty && role.Settled?)
    && (e.score.None? ==> Agree(e, r) && Sum(e.votes) == 0 && !dirty && !lost && role.Settled?)
    && RoleInv(e, r, dirty, lost, role)
  }

  ghost predicate IdInv(s: State, id: Id) {
    CellInv(KeysOf(s.keys, id), RowOf(s.db, id), id in s.dirty, id in s.lost, RoleOf(s.worker, id))
  }

  ghost predicate Inv(s: State) {
    Shape(s.worker) && forall id :: IdInv(s, id)
  }

  /** Redis and the database agree, nothing is dirty and the worker rests. */
  ghost predicate Fresh(s: State) {
    && s.worker.Idle? && s.dirty == {} && s.lost == {}
    && forall id :: FreshId(KeysOf(s.keys, id), RowOf(s.db, id))
  }

  ghost predicate FreshId(e: Entity, r: Row) {
    Agree(e, r) && NoZeroStored(e.votes) && e.votes.Keys !! e.deleted && (e.score.None? ==> Sum(e.votes) == 0)
  }

  // ---------- Every step keeps it ----------

  lemma CastKeepsCell(e: Entity, r: Row, dirty: bool, lost: bool, role: Role, b: Ballot)
    requires CellInv(e, r, dirty, lost, role)
    ensures CellInv(Cast(e, b), r, dirty || Delta(e, b) != 0, lost && Delta(e, b) == 0, role)
  {
    var f := Cast(e, b);
    forall users: set<UserId> | Covered(users, e) ensures Covered(users, f) {}
    if Delta(e, b) == 0 {
      assert f.votes == e.votes;
    }
  }

  lemma CommitKeepsCell(e: Entity, r: Row, dirty: bool, lost: bool, sn: Snap)
    requires CellInv(e, r, dirty, lost, Snapped(sn))
    ensures Covered(Written(r, sn).rows.Keys, e)
    ensures Written(r, sn).rows.Keys !! sn.deleted
    ensures !dirty ==> Agree(e, Written(r, sn))
  {
    if !dirty {
      assert Written(r, sn).rows == e.votes;
    }
  }

  lemma IndexUnique(ids: seq<Id>, k: nat)
    requires Distinct(ids) && k < |ids|
    ensures Index(ids, ids[k]) == k
  {}

  lemma StepKeepsShape(s: State, ev: Event)
    requires Inv(s) && Enabled(s, ev)
    ensures Shape(Apply(s, ev).worker)
  {}

  lemma CastKeepsId(s: State, cast: Event, id: Id)
    requires Inv(s) && cast.CastVote?
    ensures IdInv(Apply(s, cast), id)
  {
    assert IdInv(s, id);
    var e, r := KeysOf(s.keys, id), RowOf(s.db, id);
    CastKeepsCell(e, r, id in s.dirty, id in s.lost, RoleOf(s.worker, id), cast.ballot);
  }

  lemma ReadKeepsId(s: State, id: Id)
    requires Inv(s) && Enabled(s, Read)
    ensures IdInv(Apply(s, Read), id)
  {
    assert IdInv(s, id);
    IndexUnique(s.worker.ids, |s.worker.snaps|);
  }

  lemma TransactionKeepsId(s: State, tx: Event, id: Id)
    requires Inv(s) && (tx.Commit? || tx.TxFailed?) && Enabled(s, tx)
    ensures IdInv(Apply(s, tx), id)
  {
    assert IdInv(s, id);
    var w := s.worker;
    IndexUnique(w.ids, w.next);
    if id == w.ids[w.next] {
      var e, r, sn := KeysOf(s.keys, id), RowOf(s.db, id), w.snaps[w.next];
      CommitKeepsCell(e, r, id in s.dirty, id in s.lost, sn);
      if tx.TxFailed? {
        assert RoleOf(Apply(s, tx).worker, id) == Partly(NoneRead);
      } else if sn.deleted != {} {
        assert RoleOf(Apply(s, tx).worker, id) == Committed(sn);
      } else {
        assert RoleOf(Apply(s, tx).worker, id) == Settled;
      }
    } else {
      OtherTransaction(s, tx, id);
    }
  }

  lemma OtherTransaction(s: State, tx: Event, id: Id)
    requires Inv(s) && (tx.Commit? || tx.TxFailed?) && Enabled(s, tx) && id != s.worker.ids[s.worker.next]
    ensures IdInv(Apply(s, tx), id)
  {
    assert IdInv(s, id);
    assert RoleOf(Apply(s, tx).worker, id) == RoleOf(s.worker, id);
  }

  lemma RemarkKeepsId(s: State, ok: bool, id: Id)
    requires Inv(s) && Enabled(s, Remark(ok))
    ensures IdInv(Apply(s, Remark(ok)), id)
  {
    assert IdInv(s, id);
    IndexUnique(s.worker.ids, s.worker.next);
  }

  lemma RemarkBatchKeepsId(s: State, ok: bool, id: Id)
    requires Inv(s) && Enabled(s, RemarkBatch(ok))
    ensures IdInv(Apply(s, RemarkBatch(ok)), id)
  {
    assert IdInv(s, id);
  }

  lemma AckKeepsId(s: State, ok: bool, id: Id)
    requires Inv(s) && Enabled(s, Ack(ok))
    ensures IdInv(Apply(s, Ack(ok)), id)
  {
    assert IdInv(s, id);
    IndexUnique(s.worker.ids, s.worker.next);
  }

  lemma OutsideUnfinished(w: Worker, id: Id)
    requires Shape(w) && id !in Unfinished(w)
    ensures RoleOf(w, id).Settled? || RoleOf(w, id).Committed?
  {
    if (w.Writing? || w.WriteFailed? || w.Acking?) && id in w.ids {
      var k := Index(w.ids, id);
      var from := if w.Acking? then w.next + 1 else w.next;
      forall j | from <= j < |w.ids| ensures w.ids[j] in Unfinished(w) {
        assert w.ids[from..][j - from] == w.ids[j];
      }
    }
  }

  lemma UnfinishedIsNotSettled(w: Worker, id: Id)
    requires Shape(w) && id in Unfinished(w)
    ensures !RoleOf(w, id).Settled?
  {
    if w.Writing? || w.WriteFailed? || w.Acking? {
      var from := if w.Acking? then w.next + 1 else w.next;
      var j :| 0 <= j < |w.ids[from..]| && w.ids[from..][j] == id;
      IndexUnique(w.ids, from + j);
    }
  }

  /** What is left of the batch: from the current entity on while writing, behind it while acknowledging. */
  lemma UnfinishedIff(w: Worker, k: nat)
    requires Shape(w) && !w.Idle? && k < |w.ids|
    ensures w.Writing? || w.WriteFailed? ==> (w.ids[k] in Unfinished(w) <==> k >= w.next)
    ensures w.Acking? ==> (w.ids[k] in Unfinished(w) <==> k > w.next)
    ensures w.Grabbed? || w.Reading? || w.ReadFailed? ==> w.ids[k] in Unfinished(w)
  {
    if w.Writing? || w.WriteFailed? || w.Acking? {
      var from := if w.Acking? then w.next + 1 else w.next;
      if k >= from {
        assert w.ids[from..][k - from] == w.ids[k];
      }
    }
  }

  lemma DieKeepsId(s: State, id: Id)
    requires Inv(s) && Enabled(s, Die)
    ensures IdInv(Apply(s, Die), id)
  {
    assert IdInv(s, id);
    if id in Unfinished(s.worker) {
      UnfinishedIsNotSettled(s.worker, id);
    } else {
      OutsideUnfinished(s.worker, id);
    }
  }

  lemma StepKeepsId(s: State, ev: Event, id: Id)
    requires Inv(s) && Enabled(s, ev)
    ensures IdInv(Apply(s, ev), id)
  {
    match ev
    case CastVote(_, _) => CastKeepsId(s, ev, id);
    case Read => ReadKeepsId(s, id);
    case Commit => TransactionKeepsId(s, ev, id);
    case TxFailed(_) => TransactionKeepsId(s, ev, id);
    case Remark(ok) => RemarkKeepsId(s, ok, id);
    case RemarkBatch(ok) => RemarkBatchKeepsId(s, ok, id);
    case Ack(ok) => AckKeepsId(s, ok, id);
    case Die => DieKeepsId(s, id);
    case _ => assert IdInv(s, id);
  }

  lemma StepKeepsInv(s: State, ev: Event)
    requires Inv(s) && Enabled(s, ev)
    ensures Inv(Apply(s, ev))
  {
    StepKeepsShape(s, ev);
    forall id ensures IdInv(Apply(s, ev), id) {
      StepKeepsId(s, ev, id);
    }
  }

  // ---------- Runs ----------

  ghost function Run(s: State, evs: seq<Event>): State
    requires Possible(s, evs)
    decreases |evs|, 1
  {
    if evs == [] then s
    else Apply(Run(s, evs[..|evs| - 1]), evs[|evs| - 1])
  }

  ghost predicate Possible(s: State, evs: seq<Event>)
    decreases |evs|, 0
  {
    evs == [] || (Possible(s, evs[..|evs| - 1]) && Enabled(Run(s, evs[..|evs| - 1]), evs[|evs| - 1]))
  }

  lemma FreshIsInv(s: State)
    requires Fresh(s)
    ensures Inv(s)
  {
    forall id ensures IdInv(s, id) {
      assert FreshId(KeysOf(s.keys, id), RowOf(s.db, id));
    }
  }

  lemma {:induction false} RunKeepsInv(s: State, evs: seq<Event>)
    requires Inv(s) && Possible(s, evs)
    ensures Inv(Run(s, evs))
  {
    if evs != [] {
      RunKeepsInv(s, evs[..|evs| - 1]);
      StepKeepsInv(Run(s, evs[..|evs| - 1]), evs[|evs| - 1]);
    }
  }

  /**
   * In every state any interleaving can reach, an entity that is neither dirty
   * nor waiting in the worker's batch has the same votes and score in the
   * database as in Redis, unless its re-mark after a failure was lost.
   */
  lemma {:induction false} CleanEntitiesAgree(s0: State, evs: seq<Event>, id: Id)
    requires Fresh(s0) && Possible(s0, evs)
    requires id !in Run(s0, evs).dirty && id !in Unfinished(Run(s0, evs).worker) && id !in Run(s0, evs).lost
    ensures var s := Run(s0, evs); Agree(KeysOf(s.keys, id), RowOf(s.db, id))
  {
    FreshIsInv(s0);
    RunKeepsInv(s0, evs);
    var s := Run(s0, evs);
    assert IdInv(s, id);
    OutsideUnfinished(s.worker, id);
  }

  /** In every reachable state a row without a Redis vote is still scheduled for deletion. */
  lemma {:induction false} NoOrphanRows(s0: State, evs: seq<Event>, id: Id, u: UserId)
    requires Fresh(s0) && Possible(s0, evs)
    ensures
      var s := Run(s0, evs);
      var e, r := KeysOf(s.keys, id), RowOf(s.db, id);
      && !(u in e.votes && u in e.deleted)
      && (u in r.rows ==> u in e.votes || u in e.deleted)
  {
    FreshIsInv(s0);
    RunKeepsInv(s0, evs);
    assert IdInv(Run(s0, evs), id);
  }

  /** From an agreeing start, preloading never changes a score, and no dirty or grabbed entity lacks its key. */
  lemma {:induction false} PreloadIsIdle(s0: State, evs: seq<Event>, id: Id)
    requires Fresh(s0) && Possible(s0, evs)
    ensures
      var s := Run(s0, evs);
      && (Enabled(s, Preload(id)) ==>
            var t := Apply(s, Preload(id));
            && t.dirty == s.dirty && t.db == s.db && t.worker == s.worker && t.lost == s.lost
            && forall i :: SameValues(KeysOf(s.keys, i), KeysOf(t.keys, i)))
      && (id in s.dirty || id in Unfinished(s.worker) ==> KeysOf(s.keys, id).score.Some?)
  {
    FreshIsInv(s0);
    RunKeepsInv(s0, evs);
    var s := Run(s0, evs);
    assert IdInv(s, id);
    if id in Unfinished(s.worker) {
      UnfinishedIsNotSettled(s.worker, id);
    }
  }

  /** The same votes, deleted set and score; a missing score key reads as 0. */
  predicate SameValues(e: Entity, f: Entity) {
    e.votes == f.votes && e.deleted == f.deleted && ScoreOf(e) == ScoreOf(f)
  }

  /** The steps that leave entities without the mark they need: the two lost re-marks and the end of the process. */
  predicate LosesMark(ev: Event) {
    ev == RemarkBatch(false) || ev == Remark(false) || ev.Die?
  }

  /** No other step adds to the lost entities, and those three add only entities of the batch in hand. */
  lemma LostGrowsOnly(s: State, ev: Event, id: Id)
    requires Enabled(s, ev) && id in Apply(s, ev).lost && id !in s.lost
    ensures LosesMark(ev) && !s.worker.Idle? && id in s.worker.ids && id !in Apply(s, ev).dirty
  {
    if ev.Die? {
      UnfinishedIsListed(s.worker, id);
    }
  }

  lemma UnfinishedIsListed(w: Worker, id: Id)
    requires id in Unfinished(w)
    ensures !w.Idle? && id in w.ids
  {}

  ghost predicate NoneLost(evs: seq<Event>) {
    forall i :: 0 <= i < |evs| ==> !LosesMark(evs[i])
  }

  lemma {:induction false} NothingLost(s0: State, evs: seq<Event>)
    requires Possible(s0, evs) && s0.lost == {} && NoneLost(evs)
    ensures Run(s0, evs).lost == {}
  {
    if evs != [] {
      var init, last := evs[..|evs| - 1], evs[|evs| - 1];
      NothingLost(s0, init);
      forall id ensures id !in Apply(Run(s0, init), last).lost {
        if id in Apply(Run(s0, init), last).lost {
          LostGrowsOnly(Run(s0, init), last, id);
        }
      }
    }
  }

  /**
   * Without a lost re-mark or a death every clean finished entity agrees, in
   * every run, failed reads and failed transactions included.
   */
  lemma {:induction false} MarkedRunsAgree(s0: State, evs: seq<Event>, id: Id)
    requires Fresh(s0) && Possible(s0, evs) && NoneLost(evs)
    requires id !in Run(s0, evs).dirty && id !in Unfinished(Run(s0, evs).worker)
    ensures var s := Run(s0, evs); Agree(KeysOf(s.keys, id), RowOf(s.db, id))
  {
    NothingLost(s0, evs);
    CleanEntitiesAgree(s0, evs, id);
  }

  /** A lost entity is left alone by every step until a cast changes its score. */
  lemma {:induction false} LostStays(s: State, ev: Event, id: Id)
    requires Inv(s) && Enabled(s, ev) && id in s.lost
    requires ev.CastVote? && ev.id == id ==> Delta(KeysOf(s.keys, id), ev.ballot) == 0
    ensures var t := Apply(s, ev); id in t.lost && id !in t.dirty && RowOf(t.db, id) == RowOf(s.db, id)
  {
    assert IdInv(s, id);
    StepKeepsId(s, ev, id);
    var w := s.worker;
    if ev.Commit? || ev.TxFailed? {
      IndexUnique(w.ids, w.next);
    }
  }

  /** The shortest such run: one vote, a failed read and a lost re-mark leave a clean entity without its row. */
  lemma LostRemarkExample()
    ensures
      var s0 := State(map[], {}, map[], Idle, {});
      var evs := [CastVote(1, Ballot(7, 1)), Grab([1]), Unmark(true), ReadsFailed, RemarkBatch(false)];
      && Fresh(s0) && Possible(s0, evs)
      && var s := Run(s0, evs);
         s.worker.Idle? && s.dirty == {} && s.lost == {1} && !Agree(KeysOf(s.keys, 1), RowOf(s.db, 1))
  {
    var s0 := State(map[], {}, map[], Idle, {});
    var cast := CastVote(1, Ballot(7, 1));
    RunSnoc(s0, [], cast);
    assert [] + [cast] == [cast];
    LoseRemark(s0, [cast], 1);
    assert [cast] + [Grab([1])] + [Unmark(true)] + [ReadsFailed] + [RemarkBatch(false)]
           == [cast, Grab([1]), Unmark(true), ReadsFailed, RemarkBatch(false)];
  }

  lemma {:induction false} LoseRemark(s0: State, evs: seq<Event>, id: Id)
    requires Possible(s0, evs)
    requires var s := Run(s0, evs); s.worker.Idle? && s.dirty == {id} && s.lost == {}
    ensures var next := evs + [Grab([id])] + [Unmark(true)] + [ReadsFailed] + [RemarkBatch(false)];
      Possible(s0, next) && Run(s0, next) == Run(s0, evs).(dirty := {}, lost := {id})
  {
    StartFlush(s0, evs, id);
    var started := evs + [Grab([id])] + [Unmark(true)];
    RunSnoc(s0, started, ReadsFailed);
    RunSnoc(s0, started + [ReadsFailed], RemarkBatch(false));
  }

  lemma {:induction false} RunSnoc(s: State, evs: seq<Event>, ev: Event)
    requires Possible(s, evs) && Enabled(Run(s, evs), ev)
    ensures Possible(s, evs + [ev])
    ensures Run(s, evs + [ev]) == Apply(Run(s, evs), ev)
  {
    assert (evs + [ev])[..|evs|] == evs;
  }

  // ---------- Batches: the order in which statements are queued does not matter ----------

  lemma {:induction false} ExecConcat(r: Row, a: seq<Statement>, b: seq<Statement>)
    ensures ExecAll(r, a + b) == ExecAll(ExecAll(r, a), b)
    decreases |b|
  {
    if b == [] {
      assert a + b == a;
    } else {
      ExecConcat(r, a, b[..|b| - 1]);
      assert (a + b)[..|a + b| - 1] == a + b[..|b| - 1];
    }
  }

  function UserOf(st: Statement): UserId {
    if st.SetScore? then 0 else st.user
  }

  function UsersOf(batch: seq<Statement>): set<UserId> {
    if batch == [] then {} else UsersOf(batch[..|batch| - 1]) + {UserOf(batch[|batch| - 1])}
  }

  lemma UsersOfSnoc(batch: seq<Statement>, st: Statement)
    ensures UsersOf(batch + [st]) == UsersOf(batch) + {UserOf(st)}
  {
    assert (batch + [st])[..|batch|] == batch;
  }

  /** One upsert for each vote, in any order. */
  ghost predicate AreUpserts(batch: seq<Statement>, votes: Votes) {
    UsersOf(batch) == votes.Keys
    && forall st :: st in batch ==> st.Upsert? && st.user in votes && st.vote == votes[st.user]
  }

  /** One delete for each user, in any order. */
  ghost predicate AreDeletes(batch: seq<Statement>, users: set<UserId>) {
    UsersOf(batch) == users && forall st :: st in batch ==> st.Delete?
  }

  lemma {:induction false} ExecUpserts(r: Row, batch: seq<Statement>, votes: Votes)
    requires forall st :: st in batch ==> st.Upsert? && st.user in votes && st.vote == votes[st.user]
    ensures ExecAll(r, batch).rows.Keys == r.rows.Keys + UsersOf(batch)
    ensures forall u :: u in ExecAll(r, batch).rows ==>
      ExecAll(r, batch).rows[u] == if u in UsersOf(batch) && u in votes then votes[u] else VoteOf(r.rows, u)
  {
    if batch != [] {
      ExecUpserts(r, batch[..|batch| - 1], votes);
      assert batch[|batch| - 1] in batch;
    }
  }

  lemma {:induction false} ExecDeletes(r: Row, batch: seq<Statement>)
    requires forall st :: st in batch ==> st.Delete?
    ensures ExecAll(r, batch).rows == r.rows - UsersOf(batch)
  {
    if batch == [] {
      assert r.rows - {} == r.rows;
    } else {
      var init, last := batch[..|batch| - 1], batch[|batch| - 1];
      ExecDeletes(r, init);
      assert last in batch;
      assert r.rows - UsersOf(init) - {last.user} == r.rows - UsersOf(batch);
    }
  }

  lemma UpsertsWrite(r: Row, batch: seq<Statement>, votes: Votes)
    requires AreUpserts(batch, votes)
    ensures ExecAll(r, batch).rows == r.rows + votes
  {
    ExecUpserts(r, batch, votes);
    var after := ExecAll(r, batch).rows;
    assert after.Keys == (r.rows + votes).Keys;
    forall u | u in after ensures after[u] == (r.rows + votes)[u] {}
  }

  /** Whatever order the votes and the deletions are queued in, the transaction writes the same row. */
  lemma BatchOrderIrrelevant(r: Row, upserts: seq<Statement>, deletes: seq<Statement>, sn: Snap)
    requires AreUpserts(upserts, sn.votes) && AreDeletes(deletes, sn.deleted)
    ensures ExecAll(r, upserts + deletes + [SetScore(sn.score)]) == Written(r, sn)
  {
    ExecConcat(r, upserts + deletes, [SetScore(sn.score)]);
    ExecConcat(r, upserts, deletes);
    UpsertsWrite(r, upserts, sn.votes);
    ExecDeletes(ExecAll(r, upserts), deletes);
    var before := ExecAll(r, upserts + deletes);
    var one := [SetScore(sn.score)];
    assert one[..|one| - 1] == [];
    assert ExecAll(before, one) == Exec(before, one[0]);
  }

  // ---------- A cold cache ----------

  /** A flush makes the rows equal the hash exactly when every other row is listed for deletion. */
  lemma FlushAgreesIff(e: Entity, r: Row)
    ensures
      Written(r, Snap(e.votes, ScoreOf(e), e.deleted)).rows == e.votes
      <==> e.votes.Keys !! e.deleted && r.rows.Keys <= e.votes.Keys + e.deleted
  {
    var after := Written(r, Snap(e.votes, ScoreOf(e), e.deleted)).rows;
    if after == e.votes {
      assert after.Keys == r.rows.Keys + e.votes.Keys - e.deleted;
    }
    if e.votes.Keys !! e.deleted && r.rows.Keys <= e.votes.Keys + e.deleted {
      assert after == e.votes;
    }
  }

  lemma {:induction false} SumUnion(a: Votes, b: Votes)
    requires a.Keys !! b.Keys
    ensures Sum(a + b) == Sum(a) + Sum(b)
    decreases b
  {
    var voters := b.Keys;
    if voters == {} {
      assert a + b == a;
      assert Sum(b) == 0;
    } else {
      var u := SomeElement(voters);
      SumUnion(a, b - {u});
      SumSplit(b, u);
      SumSplit(a + b, u);
      assert a + b - {u} == a + (b - {u});
    }
  }

  /**
   * With rows in the database, an empty Redis and a score preloaded from those
   * rows, any casts and then a flush leave a score that exceeds the rows' total
   * by exactly the preloaded votes of the users who have cast again.
   */
  lemma ColdPreloadDrift(r: Row, bs: seq<Ballot>)
    ensures
      var e := CastAll(NO_KEYS.(score := Some(Sum(r.rows))), bs);
      var w := Written(r, Snap(e.votes, ScoreOf(e), e.deleted));
      var again := map u | u in r.rows && u in e.votes.Keys + e.deleted :: r.rows[u];
      w.score - Sum(w.rows) == Sum(again)
  {
    var cold := NO_KEYS.(score := Some(Sum(r.rows)));
    CastsRefineLastWrite(cold, bs);
    var e := CastAll(cold, bs);
    var touched := e.votes.Keys + e.deleted;
    var again := map u | u in r.rows && u in touched :: r.rows[u];
    var kept := r.rows - touched;
    assert r.rows == kept + again;
    SumUnion(kept, again);
    assert r.rows + e.votes - e.deleted == kept + e.votes;
    SumUnion(kept, e.votes);
    assert Sum(map[]) == 0;
  }

  /** The shortest drift: user 7 voted before the restart and casts the same vote again. */
  lemma ColdPreloadExample()
    ensures
      var r := Row(map[7 := 1], 1);
      var e := CastAll(NO_KEYS.(score := Some(Sum(r.rows))), [Ballot(7, 1)]);
      Written(r, Snap(e.votes, ScoreOf(e), e.deleted)) == Row(map[7 := 1], 2)
  {
    var votes: Votes := map[7 := 1];
    SumSplit(votes, 7);
    assert votes - {7} == map[];
    assert Sum(map[]) == 0;
    var bs := [Ballot(7, 1)];
    assert bs[..0] == [];
  }

  // ---------- Exactly the starts that keep agreement ----------

  ghost predicate AgreesAfter(s0: State, evs: seq<Event>, id: Id) {
    Possible(s0, evs) ==>
      var s := Run(s0, evs);
      id !in s.dirty && id !in Unfinished(s.worker) && id !in s.lost ==> Agree(KeysOf(s.keys, id), RowOf(s.db, id))
  }

  /**
   * From an idle start with nothing marked, agreement of the clean entities
   * holds in every run if and only if every entity agrees at the start, stores
   * no zero, has no user in both sets, and has votes that add up to 0 if its
   * score key is missing.
   */
  lemma {:induction false} AgreementIff(s0: State)
    requires s0.worker.Idle? && s0.dirty == {} && s0.lost == {}
    ensures
      (forall evs, id :: AgreesAfter(s0, evs, id))
      <==> (forall id :: FreshId(KeysOf(s0.keys, id), RowOf(s0.db, id)))
  {
    if forall id :: FreshId(KeysOf(s0.keys, id), RowOf(s0.db, id)) {
      forall evs, id ensures AgreesAfter(s0, evs, id) {
        if Possible(s0, evs) {
          var s := Run(s0, evs);
          if id !in s.dirty && id !in Unfinished(s.worker) && id !in s.lost {
            CleanEntitiesAgree(s0, evs, id);
          }
        }
      }
    } else {
      var id :| !FreshId(KeysOf(s0.keys, id), RowOf(s0.db, id));
      var evs := BreakAgreement(s0, id);
      assert !AgreesAfter(s0, evs, id);
    }
  }

  lemma {:induction false} BreakAgreement(s0: State, id: Id) returns (evs: seq<Event>)
    requires s0.worker.Idle? && s0.dirty == {} && s0.lost == {}
    requires !FreshId(KeysOf(s0.keys, id), RowOf(s0.db, id))
    ensures !AgreesAfter(s0, evs, id)
  {
    var e, r := KeysOf(s0.keys, id), RowOf(s0.db, id);
    if !Agree(e, r) {
      evs := [];
    } else if !NoZeroStored(e.votes) {
      var u :| u in e.votes && e.votes[u] == 0;
      evs := ForgetZero(s0, id, u);
    } else if e.score.None? && Sum(e.votes) != 0 {
      evs := [Preload(id)];
      assert r.rows != map[];
      assert evs[..0] == [];
      RunSnoc(s0, [], Preload(id));
    } else {
      var u := SharedElement(e.votes.Keys, e.deleted);
      evs := DeleteVoter(s0, id, u);
    }
  }

  /** A stored zero can be retracted without a mark. */
  lemma {:induction false} ForgetZero(s0: State, id: Id, u: UserId) returns (evs: seq<Event>)
    requires s0.worker.Idle? && s0.dirty == {} && s0.lost == {} && Agree(KeysOf(s0.keys, id), RowOf(s0.db, id))
    requires var e := KeysOf(s0.keys, id); u in e.votes && e.votes[u] == 0
    ensures !AgreesAfter(s0, evs, id)
  {
    var cast := CastVote(id, Ballot(u, 0));
    evs := [] + [cast];
    RunSnoc(s0, [], cast);
    var s := Run(s0, evs);
    assert u in RowOf(s.db, id).rows && u !in KeysOf(s.keys, id).votes;
  }

  /** The commands of an undisturbed flush of one entity, up to its commit. */
  function FlushSteps(id: Id): seq<Event> {
    [Grab([id]), Unmark(true), Read, Read, Read, ReadsDone, Commit]
  }

  lemma {:induction false} FlushOne(s0: State, evs: seq<Event>, id: Id)
    requires Possible(s0, evs)
    requires var s := Run(s0, evs); s.worker.Idle? && s.dirty == {id} && s.lost == {}
    ensures Possible(s0, evs + FlushSteps(id))
    ensures
      var s, t := Run(s0, evs), Run(s0, evs + FlushSteps(id));
      var e := KeysOf(s.keys, id);
      && t.keys == s.keys && t.dirty == {} && t.lost == {} && Unfinished(t.worker) == {}
      && RowOf(t.db, id) == Written(RowOf(s.db, id), Snap(e.votes, ScoreOf(e), e.deleted))
  {
    var e := KeysOf(Run(s0, evs).keys, id);
    var started := evs + [Grab([id])] + [Unmark(true)];
    StartFlush(s0, evs, id);
    ReadSnap(s0, started, id);
    var whole := started + [Read] + [Read] + [Read];
    WriteSnap(s0, whole, id, Snap(e.votes, ScoreOf(e), e.deleted));
    assert whole + [ReadsDone] + [Commit] == evs + FlushSteps(id);
  }

  lemma {:induction false} StartFlush(s0: State, evs: seq<Event>, id: Id)
    requires Possible(s0, evs)
    requires var s := Run(s0, evs); s.worker.Idle? && s.dirty == {id}
    ensures var next := evs + [Grab([id])] + [Unmark(true)];
      Possible(s0, next) && Run(s0, next) == Run(s0, evs).(dirty := {}, worker := Reading([id], [], NoneRead))
  {
    var ids: seq<Id> := [id];
    assert Elements(ids) == {id};
    RunSnoc(s0, evs, Grab(ids));
    RunSnoc(s0, evs + [Grab(ids)], Unmark(true));
  }

  lemma {:induction false} ReadSnap(s0: State, evs: seq<Event>, id: Id)
    requires Possible(s0, evs) && Run(s0, evs).worker == Reading([id], [], NoneRead)
    ensures
      var next, s := evs + [Read] + [Read] + [Read], Run(s0, evs);
      var e := KeysOf(s.keys, id);
      && Possible(s0, next)
      && Run(s0, next) == s.(worker := Reading([id], [Snap(e.votes, ScoreOf(e), e.deleted)], NoneRead))
  {
    var s := Run(s0, evs);
    var e := KeysOf(s.keys, id);
    var one := s.(worker := Reading([id], [], VotesRead(e.votes)));
    var two := s.(worker := Reading([id], [], ScoreRead(e.votes, ScoreOf(e))));
    ReadsOfOne(s, id);
    Extend(s0, evs, Read, s, one);
    Extend(s0, evs + [Read], Read, one, two);
    Extend(s0, evs + [Read] + [Read], Read, two, Apply(two, Read));
  }

  lemma ReadsOfOne(s: State, id: Id)
    requires s.worker == Reading([id], [], NoneRead)
    ensures
      var e := KeysOf(s.keys, id);
      var one := s.(worker := Reading([id], [], VotesRead(e.votes)));
      var two := s.(worker := Reading([id], [], ScoreRead(e.votes, ScoreOf(e))));
      && Enabled(s, Read) && Apply(s, Read) == one
      && Enabled(one, Read) && Apply(one, Read) == two
      && Enabled(two, Read)
      && Apply(two, Read) == s.(worker := Reading([id], [Snap(e.votes, ScoreOf(e), e.deleted)], NoneRead))
  {
    var none: seq<Snap> := [];
    assert none + [Snap(KeysOf(s.keys, id).votes, ScoreOf(KeysOf(s.keys, id)), KeysOf(s.keys, id).deleted)]
           == [Snap(KeysOf(s.keys, id).votes, ScoreOf(KeysOf(s.keys, id)), KeysOf(s.keys, id).deleted)];
  }

  lemma {:induction false} Extend(s0: State, evs: seq<Event>, ev: Event, s: State, t: State)
    requires Possible(s0, evs) && Run(s0, evs) == s && Enabled(s, ev) && Apply(s, ev) == t
    ensures Possible(s0, evs + [ev]) && Run(s0, evs + [ev]) == t
  {
    RunSnoc(s0, evs, ev);
  }

  lemma {:induction false} WriteSnap(s0: State, evs: seq<Event>, id: Id, sn: Snap)
    requires Possible(s0, evs) && Run(s0, evs).worker == Reading([id], [sn], NoneRead)
    ensures Possible(s0, evs + [ReadsDone] + [Commit])
    ensures
      var s, t := Run(s0, evs), Run(s0, evs + [ReadsDone] + [Commit]);
      && t.keys == s.keys && t.dirty == s.dirty && t.lost == s.lost && Unfinished(t.worker) == {}
      && RowOf(t.db, id) == Written(RowOf(s.db, id), sn)
  {
    var s := Run(s0, evs);
    var ready := s.(worker := Writing([id], [sn], 0));
    WritesOfOne(s, id, sn);
    Extend(s0, evs, ReadsDone, s, ready);
    Extend(s0, evs + [ReadsDone], Commit, ready, Apply(ready, Commit));
  }

  lemma WritesOfOne(s: State, id: Id, sn: Snap)
    requires s.worker == Reading([id], [sn], NoneRead)
    ensures Enabled(s, ReadsDone)
    ensures
      var ready := s.(worker := Writing([id], [sn], 0));
      && Apply(s, ReadsDone) == ready && Enabled(ready, Commit)
      && var t := Apply(ready, Commit);
         && t.keys == s.keys && t.dirty == s.dirty && t.lost == s.lost && Unfinished(t.worker) == {}
         && RowOf(t.db, id) == Written(RowOf(s.db, id), sn)
  {
    var ids: seq<Id> := [id];
    assert ids[1..] == [];
  }

  /** A voter who is listed for deletion loses the row at the next flush. */
  lemma {:induction false} DeleteVoter(s0: State, id: Id, u: UserId) returns (evs: seq<Event>)
    requires s0.worker.Idle? && s0.dirty == {} && s0.lost == {}
    requires var e := KeysOf(s0.keys, id); u in e.votes && u in e.deleted
    ensures !AgreesAfter(s0, evs, id)
  {
    var v := u + 1;
    var before := VoteOf(KeysOf(s0.keys, id).votes, v);
    var cast := CastVote(id, Ballot(v, if before == -1 then 1 else before + 1));
    RunSnoc(s0, [], cast);
    FlushOne(s0, [] + [cast], id);
    evs := [] + [cast] + FlushSteps(id);
    var s := Run(s0, evs);
    assert u in KeysOf(s.keys, id).votes && u !in RowOf(s.db, id).rows;
  }
}
