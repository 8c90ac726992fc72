/**
 * The LMOVE-based reliable queue of image-regeneration items: two Redis lists,
 * a worker that may crash at any point, and recovery at startup. Every command
 * of the worker may fail, with or without having been applied.
 */
module RegenQueue {
  import opened Prelude

  type Raw = string

  // ---------- Redis list commands ----------

  /** LREM key 1 x: removes the first occurrence of x, if any. */
  function RemoveFirst(s: seq<Raw>, x: Raw): seq<Raw> {
    if s == [] then [] else if s[0] == x then s[1..] else [s[0]] + RemoveFirst(s[1..], x)
  }

  lemma {:induction false} RemoveFirstFromLeft(a: seq<Raw>, b: seq<Raw>, x: Raw)
    requires x in a
    ensures RemoveFirst(a + b, x) == RemoveFirst(a, x) + b
  {
    if a[0] == x {
      assert (a + b)[1..] == a[1..] + b;
    } else {
      RemoveFirstFromLeft(a[1..], b, x);
      assert (a + b)[1..] == a[1..] + b;
    }
  }

  lemma {:induction false} RemoveFirstAt(s: seq<Raw>, x: Raw, i: nat)
    requires i <= |s| && x !in s[..i] && (i < |s| ==> s[i] == x)
    ensures RemoveFirst(s, x) == if i < |s| then s[..i] + s[i + 1..] else s
  {
    if i > 0 {
      assert s[0] in s[..i] && s[1..][..i - 1] == s[..i][1..];
      RemoveFirstAt(s[1..], x, i - 1);
      assert s == [s[0]] + s[1..];
    }
  }

  lemma HeadCounts(x: Raw, s: seq<Raw>)
    ensures multiset([x] + s) == multiset{x} + multiset(s)
  {}

  lemma {:induction false} RemoveFirstMultiset(s: seq<Raw>, x: Raw)
    ensures multiset(RemoveFirst(s, x)) == multiset(s) - multiset{x}
  {
    if s != [] {
      HeadCounts(s[0], s[1..]);
      assert s == [s[0]] + s[1..];
      if s[0] != x {
        RemoveFirstMultiset(s[1..], x);
        HeadCounts(s[0], RemoveFirst(s[1..], x));
        MinusOther(multiset(s[1..]), s[0], x);
      }
    }
  }

  lemma MinusOther(m: multiset<Raw>, y: Raw, x: Raw)
    requires y != x
    ensures multiset{y} + m - multiset{x} == multiset{y} + (m - multiset{x})
  {}

  // ---------- The two lists as a step system ----------

  /** `held` is what the running worker has in memory: popped, not yet acknowledged, discarded or given up. */
  datatype State = State(queue: seq<Raw>, processing: seq<Raw>, held: multiset<Raw>)

  datatype Event =
    | Push(raw: Raw)      // the backend appends an item
    | Pop                 // LMOVE queue left -> processing right
    | Ack(raw: Raw)       // LREM after the item is done
    | Discard(raw: Raw)   // LREM of an item that does not parse
    | GiveUp(raw: Raw)    // the reply to the pop, or the LREM, was lost
    | Crash
    | Recover             // LMOVE processing right -> queue left

  const EMPTY := State([], [], multiset{})

  ghost predicate Enabled(s: State, e: Event) {
    match e
    case Push(_) => true
    case Pop => s.queue != []
    case Ack(x) => x in s.held
    case Discard(x) => x in s.held
    case GiveUp(x) => x in s.held
    case Crash => true
    case Recover => s.held == multiset{} && s.processing != []
  }

  ghost function Apply(s: State, e: Event): State
    requires Enabled(s, e)
  {
    match e
    case Push(x) => s.(queue := s.queue + [x])
    case Pop => State(s.queue[1..], s.processing + [s.queue[0]], s.held + multiset{s.queue[0]})
    case Ack(x) => s.(processing := RemoveFirst(s.processing, x), held := s.held - multiset{x})
    case Discard(x) => s.(processing := RemoveFirst(s.processing, x), held := s.held - multiset{x})
    case GiveUp(x) => s.(held := s.held - multiset{x})
    case Crash => s.(held := multiset{})
    case Recover =>
      var n := |s.processing| - 1;
      s.(processing := s.processing[..n], queue := [s.processing[n]] + s.queue)
  }

  ghost predicate Possible(s: State, evs: seq<Event>)
    decreases |evs|, 0
  {
    evs == [] || (Possible(s, evs[..|evs| - 1]) && Enabled(Run(s, evs[..|evs| - 1]), evs[|evs| - 1]))
  }

  ghost function Run(s: State, evs: seq<Event>): State
    requires Possible(s, evs)
    decreases |evs|, 1
  {
    if evs == [] then s else Apply(Run(s, evs[..|evs| - 1]), evs[|evs| - 1])
  }

  lemma RunSnoc(s: State, evs: seq<Event>, ev: Event)
    requires Possible(s, evs) && Enabled(Run(s, evs), ev)
    ensures Possible(s, evs + [ev])
    ensures Run(s, evs + [ev]) == Apply(Run(s, evs), ev)
  {
    assert (evs + [ev])[..|evs|] == evs;
  }

  // ---------- The reference: one list, changed only by pushes and removals ----------

  /** The n-th item ever pushed. */
  datatype Ticket = Ticket(n: nat, raw: Raw)

  function Pushes(evs: seq<Event>): seq<Raw> {
    if evs == [] then []
    else
      var before, e := Pushes(evs[..|evs| - 1]), evs[|evs| - 1];
      if e.Push? then before + [e.raw] else before
  }

  function Removals(evs: seq<Event>): multiset<Raw> {
    if evs == [] then multiset{}
    else
      var before, e := Removals(evs[..|evs| - 1]), evs[|evs| - 1];
      if e.Ack? || e.Discard? then before + multiset{e.raw} else before
  }

  function RemoveTicket(ts: seq<Ticket>, x: Raw): seq<Ticket> {
    if ts == [] then [] else if ts[0].raw == x then ts[1..] else [ts[0]] + RemoveTicket(ts[1..], x)
  }

  /** The items not yet acknowledged or discarded, oldest first. Crashes, pops and recovery do not appear in it. */
  function Outstanding(evs: seq<Event>): seq<Ticket> {
    if evs == [] then []
    else
      var before, e := Outstanding(evs[..|evs| - 1]), evs[|evs| - 1];
      match e
      case Push(x) => before + [Ticket(|Pushes(evs[..|evs| - 1])|, x)]
      case Ack(x) => RemoveTicket(before, x)
      case Discard(x) => RemoveTicket(before, x)
      case _ => before
  }

  function Raws(ts: seq<Ticket>): (r: seq<Raw>) {
    seq(|ts|, i requires 0 <= i < |ts| => ts[i].raw)
  }

  lemma {:induction false} RemoveTicketRaws(ts: seq<Ticket>, x: Raw)
    ensures Raws(RemoveTicket(ts, x)) == RemoveFirst(Raws(ts), x)
  {
    if ts != [] {
      RemoveTicketRaws(ts[1..], x);
      assert Raws(ts)[1..] == Raws(ts[1..]);
      if ts[0].raw != x {
        assert Raws(RemoveTicket(ts, x)) == [ts[0].raw] + Raws(RemoveTicket(ts[1..], x));
      }
    }
  }

  ghost predicate Ascending(ts: seq<Ticket>) {
    forall i, j :: 0 <= i < j < |ts| ==> ts[i].n < ts[j].n
  }

  lemma {:induction false} RemoveTicketKeeps(ts: seq<Ticket>, x: Raw)
    requires Ascending(ts)
    ensures Ascending(RemoveTicket(ts, x))
    ensures forall t :: t in RemoveTicket(ts, x) ==> t in ts
  {
    if ts != [] && ts[0].raw != x {
      var rest := RemoveTicket(ts[1..], x);
      RemoveTicketKeeps(ts[1..], x);
      forall i | 0 <= i < |rest| ensures ts[0].n < rest[i].n {
        assert rest[i] in ts[1..];
      }
    }
  }

  ghost predicate Inv(s: State, evs: seq<Event>) {
    && s.held <= multiset(s.processing)
    && s.processing + s.queue == Raws(Outstanding(evs))
    && multiset(Pushes(evs)) == multiset(s.processing + s.queue) + Removals(evs)
  }

  lemma PushKeepsInv(s: State, evs: seq<Event>, x: Raw)
    requires Inv(s, evs)
    ensures Inv(Apply(s, Push(x)), evs + [Push(x)])
  {
    assert (evs + [Push(x)])[..|evs|] == evs;
    var ts, t := Outstanding(evs), Ticket(|Pushes(evs)|, x);
    assert Raws(ts + [t]) == Raws(ts) + [x];
    AppendAssociates(s.processing, s.queue, [x]);
  }

  lemma HeadMoves(p: seq<Raw>, q: seq<Raw>)
    requires q != []
    ensures (p + [q[0]]) + q[1..] == p + q
    ensures multiset(p + [q[0]]) == multiset(p) + multiset{q[0]}
  {}

  lemma LastMoves(p: seq<Raw>, q: seq<Raw>)
    requires p != []
    ensures p[..|p| - 1] + ([p[|p| - 1]] + q) == p + q
  {}

  lemma MoveKeepsInv(s: State, evs: seq<Event>, e: Event)
    requires Inv(s, evs) && (e.Pop? || e.Recover?) && Enabled(s, e)
    ensures Inv(Apply(s, e), evs + [e])
  {
    assert (evs + [e])[..|evs|] == evs;
    if e.Pop? {
      HeadMoves(s.processing, s.queue);
    } else {
      LastMoves(s.processing, s.queue);
    }
    var t := Apply(s, e);
    assert t.processing + t.queue == s.processing + s.queue;
    assert t.held <= multiset(t.processing);
  }

  lemma StepKeepsInv(s: State, evs: seq<Event>, e: Event)
    requires Inv(s, evs) && Enabled(s, e)
    ensures Inv(Apply(s, e), evs + [e])
  {
    match e
    case Push(x) => PushKeepsInv(s, evs, x);
    case Pop => MoveKeepsInv(s, evs, e);
    case Recover => MoveKeepsInv(s, evs, e);
    case Ack(x) => RemovalKeepsInv(s, evs, e);
    case Discard(x) => RemovalKeepsInv(s, evs, e);
    case _ => assert (evs + [e])[..|evs|] == evs;
  }

  lemma RemovalKeepsInv(s: State, evs: seq<Event>, e: Event)
    requires Inv(s, evs) && (e.Ack? || e.Discard?) && Enabled(s, e)
    ensures Inv(Apply(s, e), evs + [e])
  {
    assert (evs + [e])[..|evs|] == evs;
    var x := e.raw;
    assert x in s.processing by { assert x in multiset(s.processing); }
    RemoveTicketRaws(Outstanding(evs), x);
    RemoveFirstFromLeft(s.processing, s.queue, x);
    RemoveFirstMultiset(s.processing + s.queue, x);
    RemoveFirstMultiset(s.processing, x);
    MoveOne(multiset(s.processing + s.queue), Removals(evs), x);
  }

  lemma MoveOne(m: multiset<Raw>, r: multiset<Raw>, x: Raw)
    requires x in m
    ensures m + r == (m - multiset{x}) + (r + multiset{x})
  {}

  lemma {:induction false} RunKeepsInv(evs: seq<Event>)
    requires Possible(EMPTY, evs)
    ensures Inv(Run(EMPTY, evs), evs)
  {
    if evs != [] {
      var init := evs[..|evs| - 1];
      RunKeepsInv(init);
      StepKeepsInv(Run(EMPTY, init), init, evs[|evs| - 1]);
      assert evs == init + [evs[|evs| - 1]];
    }
  }

  lemma {:induction false} OutstandingAscends(evs: seq<Event>)
    ensures Ascending(Outstanding(evs))
    ensures forall t :: t in Outstanding(evs) ==> t.n < |Pushes(evs)| && Pushes(evs)[t.n] == t.raw
  {
    if evs != [] {
      var init, e := evs[..|evs| - 1], evs[|evs| - 1];
      OutstandingAscends(init);
      if e.Ack? || e.Discard? {
        RemoveTicketKeeps(Outstanding(init), e.raw);
      }
    }
  }

  /**
   * For every run with pushes, pops, removals in any order, crashes and
   * recoveries: the two lists joined are exactly the outstanding items in the
   * order they were pushed, and what is missing was acknowledged or discarded.
   */
  lemma {:induction false} ReliableQueue(evs: seq<Event>)
    requires Possible(EMPTY, evs)
    ensures
      var s, ts := Run(EMPTY, evs), Outstanding(evs);
      && s.processing + s.queue == Raws(ts)
      && Ascending(ts) && (forall t :: t in ts ==> t.n < |Pushes(evs)| && Pushes(evs)[t.n] == t.raw)
      && multiset(Pushes(evs)) == multiset(s.processing) + multiset(s.queue) + Removals(evs)
      && s.held <= multiset(s.processing)
  {
    RunKeepsInv(evs);
    OutstandingAscends(evs);
  }

  /** The lists after recovery has moved everything from position k on. */
  function Recovered(s: State, k: nat): State
    requires k <= |s.processing|
  {
    State(s.processing[k..] + s.queue, s.processing[..k], s.held)
  }

  lemma RecoverStep(s: State, k: nat)
    requires s.held == multiset{} && k < |s.processing|
    ensures Enabled(Recovered(s, k + 1), Recover)
    ensures Apply(Recovered(s, k + 1), Recover) == Recovered(s, k)
  {
    var r := Recovered(s, k + 1);
    assert r.processing[..k] == s.processing[..k];
    assert [s.processing[k]] + (s.processing[k + 1..] + s.queue) == s.processing[k..] + s.queue;
  }

  function Recoveries(n: nat): seq<Event> {
    if n == 0 then [] else Recoveries(n - 1) + [Recover]
  }

  lemma {:induction false} RecoverMany(s: State, n: nat)
    requires s.held == multiset{} && n <= |s.processing|
    ensures Possible(s, Recoveries(n)) && Run(s, Recoveries(n)) == Recovered(s, |s.processing| - n)
  {
    if n == 0 {
      assert s.processing[|s.processing|..] + s.queue == s.queue;
      assert s.processing[..|s.processing|] == s.processing;
    } else {
      RecoverMany(s, n - 1);
      RecoverStep(s, |s.processing| - n);
      RunSnoc(s, Recoveries(n - 1), Recover);
    }
  }

  /**
   * Whatever happened before: after a crash, recovery can run to its end, and
   * then every outstanding item is in the queue again, oldest first.
   */
  lemma CrashThenRecoverAll(evs: seq<Event>)
    requires Possible(EMPTY, evs)
    ensures
      var s := Apply(Run(EMPTY, evs), Crash);
      var recoveries := Recoveries(|s.processing|);
      Possible(s, recoveries) && Run(s, recoveries) == State(Raws(Outstanding(evs)), [], multiset{})
  {
    ReliableQueue(evs);
    var s := Apply(Run(EMPTY, evs), Crash);
    RecoverMany(s, |s.processing|);
    assert s.processing[0..] == s.processing;
  }

  // ---------- The worker's loops, on the lists in place ----------

  /** An item; `raw` is the exact string to remove once it is done. */
  datatype RegenItem = RegenItem(postId: int, filename: string, thumbnail: string, jobKey: string, raw: Raw)

  const POP_BATCH: nat := 500

  /** The items among xs that parse, each with its own string attached. */
  function ParseAll(parse: Raw -> Option<RegenItem>, xs: seq<Raw>): seq<RegenItem> {
    if xs == [] then []
    else
      var n := |xs| - 1;
      match parse(xs[n])
      case Some(item) => ParseAll(parse, xs[..n]) + [item.(raw := xs[n])]
      case None => ParseAll(parse, xs[..n])
  }

  /** The strings among xs that do not parse. */
  function Bad(parse: Raw -> Option<RegenItem>, xs: seq<Raw>): seq<Raw> {
    if xs == [] then []
    else
      var n := |xs| - 1;
      if parse(xs[n]).None? then Bad(parse, xs[..n]) + [xs[n]] else Bad(parse, xs[..n])
  }

  /** LREM of one string after the other. */
  function RemoveAll(list: seq<Raw>, xs: seq<Raw>): seq<Raw> {
    if xs == [] then list else RemoveFirst(RemoveAll(list, xs[..|xs| - 1]), xs[|xs| - 1])
  }

  lemma MinusSnoc(m: multiset<Raw>, xs: seq<Raw>, x: Raw)
    ensures m - multiset(xs) - multiset{x} == m - multiset(xs + [x])
  {}

  lemma {:induction false} RemoveAllMultiset(list: seq<Raw>, xs: seq<Raw>)
    ensures multiset(RemoveAll(list, xs)) == multiset(list) - multiset(xs)
  {
    if xs != [] {
      var init, x := xs[..|xs| - 1], xs[|xs| - 1];
      assert xs == init + [x];
      RemoveAllMultiset(list, init);
      var before := RemoveAll(list, init);
      assert RemoveAll(list, xs) == RemoveFirst(before, x);
      RemoveFirstMultiset(before, x);
      MinusSnoc(multiset(list), init, x);
    }
  }

  lemma {:induction false} RemoveAllConcat(list: seq<Raw>, xs: seq<Raw>, ys: seq<Raw>)
    ensures RemoveAll(list, xs + ys) == RemoveAll(RemoveAll(list, xs), ys)
    decreases |ys|
  {
    if ys == [] {
      assert xs + ys == xs;
    } else {
      RemoveAllConcat(list, xs, ys[..|ys| - 1]);
      assert (xs + ys)[..|xs + ys| - 1] == xs + ys[..|ys| - 1];
    }
  }

  lemma {:induction false} RemoveAllFromLeft(l: seq<Raw>, r: seq<Raw>, xs: seq<Raw>)
    requires multiset(xs) <= multiset(l)
    ensures RemoveAll(l + r, xs) == RemoveAll(l, xs) + r
  {
    if xs != [] {
      var init, x := xs[..|xs| - 1], xs[|xs| - 1];
      assert xs == init + [x];
      RemoveAllFromLeft(l, r, init);
      RemoveAllMultiset(l, init);
      assert x in multiset(RemoveAll(l, init));
      RemoveFirstFromLeft(RemoveAll(l, init), r, x);
    }
  }

  lemma {:induction false} BadConcat(parse: Raw -> Option<RegenItem>, a: seq<Raw>, b: seq<Raw>)
    ensures Bad(parse, a + b) == Bad(parse, a) + Bad(parse, b)
    decreases |b|
  {
    if b == [] {
      assert a + b == a;
    } else {
      BadConcat(parse, a, b[..|b| - 1]);
      assert (a + b)[..|a + b| - 1] == a + b[..|b| - 1];
    }
  }

  /** Every string either parses or is bad. */
  lemma {:induction false} GoodAndBad(parse: Raw -> Option<RegenItem>, xs: seq<Raw>)
    ensures multiset(xs) == Bag(ParseAll(parse, xs)) + multiset(Bad(parse, xs))
  {
    if xs != [] {
      var n := |xs| - 1;
      GoodAndBad(parse, xs[..n]);
      assert xs == xs[..n] + [xs[n]];
      if parse(xs[n]).Some? {
        AddItem(ParseAll(parse, xs[..n]), parse(xs[n]).value.(raw := xs[n]));
      }
    }
  }

  /** What is removed after each round may as well be removed after all of them. */
  lemma RoundsJoin(before: seq<Raw>, a: seq<Raw>, x: seq<Raw>, b: seq<Raw>, y: seq<Raw>)
    requires multiset(x) <= multiset(before + a)
    ensures RemoveAll(RemoveAll(before + a, x) + b, y) == RemoveAll(before + (a + b), x + y)
  {
    RemoveAllFromLeft(before + a, b, x);
    RemoveAllConcat(before + a + b, x, y);
    AppendAssociates(before, a, b);
  }

  /** Popping in rounds removes the same strings as popping everything first and then removing the bad ones. */
  lemma RoundsAgree(parse: Raw -> Option<RegenItem>, before: seq<Raw>, a: seq<Raw>, b: seq<Raw>)
    ensures
      RemoveAll(RemoveAll(before + a, Bad(parse, a)) + b, Bad(parse, b))
      == RemoveAll(before + (a + b), Bad(parse, a + b))
  {
    BadIsThere(parse, before, a);
    RoundsJoin(before, a, Bad(parse, a), b, Bad(parse, b));
    BadConcat(parse, a, b);
  }

  lemma DoneAndBad(parse: Raw -> Option<RegenItem>, moved: seq<Raw>, gone: seq<Raw>, acked: seq<Raw>)
    requires multiset(gone) <= multiset(Bad(parse, moved)) && multiset(acked) <= Bag(ParseAll(parse, moved))
    ensures multiset(gone + acked) <= multiset(moved)
  {
    GoodAndBad(parse, moved);
    PartsJoin(gone, acked, multiset(Bad(parse, moved)), Bag(ParseAll(parse, moved)));
  }

  lemma AddThenTake(m: multiset<Raw>, b: multiset<Raw>)
    ensures m + b - b == m
  {}

  lemma PartsJoin(x: seq<Raw>, y: seq<Raw>, a: multiset<Raw>, b: multiset<Raw>)
    requires multiset(x) <= a && multiset(y) <= b
    ensures multiset(x + y) <= a + b
  {}

  lemma BadIsThere(parse: Raw -> Option<RegenItem>, before: seq<Raw>, a: seq<Raw>)
    ensures multiset(Bad(parse, a)) <= multiset(before + a)
  {
    GoodAndBad(parse, a);
  }

  /** The order in which concurrent items finish, as the scheduler picks them. */
  function Finish(items: seq<RegenItem>, pick: nat -> nat): seq<RegenItem>
    decreases |items|
  {
    if items == [] then []
    else
      var k := pick(|items|) % |items|;
      [items[k]] + Finish(items[..k] + items[k + 1..], pick)
  }

  lemma {:induction false} FinishPermutes(items: seq<RegenItem>, pick: nat -> nat)
    ensures Bag(Finish(items, pick)) == Bag(items)
    decreases |items|
  {
    if items != [] {
      var k := pick(|items|) % |items|;
      WithoutItem(items, k);
      FinishPermutes(items[..k] + items[k + 1..], pick);
      JoinItems([items[k]], Finish(items[..k] + items[k + 1..], pick));
      AddItem([], items[k]);
      assert [] + [items[k]] == [items[k]];
    }
  }

  function RawsOf(items: seq<RegenItem>): seq<Raw> {
    seq(|items|, i requires 0 <= i < |items| => items[i].raw)
  }

  /** The strings to remove once these items are done. */
  function Bag(items: seq<RegenItem>): multiset<Raw> {
    multiset(RawsOf(items))
  }

  lemma {:induction false} ParseAllConcat(parse: Raw -> Option<RegenItem>, a: seq<Raw>, b: seq<Raw>)
    ensures ParseAll(parse, a + b) == ParseAll(parse, a) + ParseAll(parse, b)
    decreases |b|
  {
    if b == [] {
      assert a + b == a;
    } else {
      var n := |b| - 1;
      ParseAllConcat(parse, a, b[..n]);
      assert (a + b)[..|a + b| - 1] == a + b[..n];
    }
  }

  /** Every string that parses gives its item, with the string itself attached, in the order of the list. */
  lemma ParseAllInOrder(parse: Raw -> Option<RegenItem>, a: seq<Raw>, x: Raw, b: seq<Raw>)
    ensures
      var one := match parse(x) case Some(item) => [item.(raw := x)] case None => [];
      ParseAll(parse, a + [x] + b) == ParseAll(parse, a) + one + ParseAll(parse, b)
    ensures Bad(parse, a + [x] + b) == Bad(parse, a) + (if parse(x).None? then [x] else []) + Bad(parse, b)
  {
    ParseAllConcat(parse, a + [x], b);
    ParseAllConcat(parse, a, [x]);
    BadConcat(parse, a + [x], b);
    BadConcat(parse, a, [x]);
    var one: seq<Raw> := [x];
    assert one[..0] == [] && ParseAll(parse, one[..0]) == [] && Bad(parse, one[..0]) == [];
  }

  /** Taking the next string of a batch from the held ones, to keep it with the parsed items or to drop it. */
  lemma TakeNext(others: multiset<Raw>, batch: seq<Raw>, i: nat)
    requires i < |batch|
    ensures batch[i] in others + multiset(batch[i..])
    ensures others + multiset(batch[i..]) == others + multiset{batch[i]} + multiset(batch[i + 1..])
    ensures others + multiset(batch[i..]) - multiset{batch[i]} == others + multiset(batch[i + 1..])
  {
    assert batch[i..] == [batch[i]] + batch[i + 1..];
  }

  lemma ParseNext(parse: Raw -> Option<RegenItem>, batch: seq<Raw>, i: nat)
    requires i < |batch|
    ensures parse(batch[i]).Some? ==>
      && ParseAll(parse, batch[..i + 1]) == ParseAll(parse, batch[..i]) + [parse(batch[i]).value.(raw := batch[i])]
      && Bad(parse, batch[..i + 1]) == Bad(parse, batch[..i])
    ensures parse(batch[i]).None? ==>
      && ParseAll(parse, batch[..i + 1]) == ParseAll(parse, batch[..i])
      && Bad(parse, batch[..i + 1]) == Bad(parse, batch[..i]) + [batch[i]]
  {
    assert batch[..i + 1][..i] == batch[..i];
  }

  lemma PartsSnoc(part: seq<Raw>, whole: seq<Raw>, i: nat)
    requires i < |whole| && multiset(part) <= multiset(whole[..i])
    ensures multiset(part) <= multiset(whole[..i + 1]) && multiset(part + [whole[i]]) <= multiset(whole[..i + 1])
    ensures whole[..i + 1] == whole[..i] + [whole[i]]
  {
    assert whole[..i + 1] == whole[..i] + [whole[i]];
  }

  lemma RemoveAllSnoc(list: seq<Raw>, xs: seq<Raw>, x: Raw)
    ensures RemoveAll(list, xs + [x]) == RemoveFirst(RemoveAll(list, xs), x)
  {
    assert (xs + [x])[..|xs|] == xs;
  }

  lemma AddItem(items: seq<RegenItem>, item: RegenItem)
    ensures Bag(items + [item]) == Bag(items) + multiset{item.raw}
  {
    assert RawsOf(items + [item]) == RawsOf(items) + [item.raw];
  }

  /** A parsed string moves from the unread part of the batch to the items; any other leaves the held ones. */
  lemma KeepOrDrop(parse: Raw -> Option<RegenItem>, others: multiset<Raw>, items: seq<RegenItem>,
                   batch: seq<Raw>, i: nat)
    requires i < |batch|
    ensures
      var held, x := others + Bag(items) + multiset(batch[i..]), batch[i];
      && x in held
      && (parse(x).Some? ==> held == others + Bag(items + [parse(x).value.(raw := x)]) + multiset(batch[i + 1..]))
      && held - multiset{x} == others + Bag(items) + multiset(batch[i + 1..])
  {
    TakeNext(others + Bag(items), batch, i);
    if parse(batch[i]).Some? {
      AddItem(items, parse(batch[i]).value.(raw := batch[i]));
    }
  }

  lemma JoinItems(a: seq<RegenItem>, b: seq<RegenItem>)
    ensures Bag(a + b) == Bag(a) + Bag(b)
  {
    assert RawsOf(a + b) == RawsOf(a) + RawsOf(b);
  }

  lemma WithoutItem(items: seq<RegenItem>, k: nat)
    requires k < |items|
    ensures Bag(items) == Bag(items[..k] + items[k + 1..]) + multiset{items[k].raw}
  {
    var front, back := items[..k], items[k + 1..];
    AddItem(front, items[k]);
    JoinItems(front + [items[k]], back);
    JoinItems(front, back);
    assert items == front + [items[k]] + back;
  }

  /** After `batch` has been moved from q to p, `rest` is left; its head is the next to move. */
  lemma MovedOne(q: seq<Raw>, p: seq<Raw>, rest: seq<Raw>, batch: seq<Raw>)
    requires rest != [] && q == batch + rest
    ensures q == (batch + [rest[0]]) + rest[1..]
    ensures p + batch + [rest[0]] == p + (batch + [rest[0]])
    ensures multiset(batch + [rest[0]]) == multiset(batch) + multiset{rest[0]}
  {
    AppendAssociates(p, batch, [rest[0]]);
    assert rest == [rest[0]] + rest[1..];
    AppendAssociates(batch, [rest[0]], rest[1..]);
  }

  class RegenRedis {
    var queue: seq<Raw>
    var processing: seq<Raw>
    var clock: nat
    const parse: Raw -> Option<RegenItem>
    const faults: nat -> Fault
    ghost var held: multiset<Raw>
    ghost var log: seq<Event>

    ghost function Now(): State
      reads this
    {
      State(queue, processing, held)
    }

    ghost predicate Valid()
      reads this
    {
      Possible(EMPTY, log) && Run(EMPTY, log) == Now()
    }

    /** From this moment on nothing fails. */
    ghost predicate QuietFrom(now: nat) {
      forall t: nat :: now <= t ==> faults(t).Fine?
    }

    constructor (parse: Raw -> Option<RegenItem>, faults: nat -> Fault)
      ensures Valid() && Now() == EMPTY && this.parse == parse && this.faults == faults
    {
      this.parse, this.faults, queue, processing, clock := parse, faults, [], [], 0;
      held, log := multiset{}, [];
    }

    twostate lemma Stepped(ev: Event)
      requires old(Valid()) && Enabled(old(Now()), ev)
      requires Now() == Apply(old(Now()), ev) && log == old(log) + [ev]
      ensures Valid()
    {
      RunSnoc(EMPTY, old(log), ev);
    }

    /** RPUSH by the backend. */
    method RPush(raw: Raw)
      requires Valid()
      modifies this`queue, this`log
      ensures Valid() && log == old(log) + [Push(raw)] && queue == old(queue) + [raw]
    {
      queue, log := queue + [raw], log + [Push(raw)];
      Stepped(Push(raw));
    }

    /** LMOVE queue -> processing; `raw` is what the server moved, whether or not the reply arrives. */
    method MoveToProcessing() returns (raw: Option<Raw>, ok: bool)
      requires Valid()
      modifies this`queue, this`processing, this`held, this`log, this`clock
      ensures Valid() && old(log) <= log && clock == old(clock) + 1 && ok == faults(old(clock)).Fine?
      ensures raw.None? <==> old(queue) == [] || faults(old(clock)).Fails?
      ensures raw.None? ==> Now() == old(Now())
      ensures raw.Some? ==> raw.value == old(queue)[0] && Now() == Apply(old(Now()), Pop)
    {
      var fault := faults(clock);
      clock, ok := clock + 1, fault.Fine?;
      if queue == [] || fault.Fails? {
        return None, ok;
      }
      var x := queue[0];
      queue, processing := queue[1..], processing + [x];
      held, log := held + multiset{x}, log + [Pop];
      Stepped(Pop);
      raw := Some(x);
    }

    /** LREM list 1 x. */
    static method LRem(list: seq<Raw>, x: Raw) returns (out: seq<Raw>)
      ensures out == RemoveFirst(list, x)
    {
      var i := 0;
      while i < |list| && list[i] != x
        invariant 0 <= i <= |list|
        invariant x !in list[..i]
      {
        i := i + 1;
      }
      RemoveFirstAt(list, x, i);
      if i < |list| {
        out := list[..i] + list[i + 1..];
      } else {
        out := list;
      }
    }

    /**
     * Removes a held string, after success or failure alike (done) or because
     * it does not parse; a command that is lost leaves it where it is.
     */
    method Remove(raw: Raw, ghost done: bool) returns (removed: bool)
      requires Valid() && raw in held
      modifies this`processing, this`held, this`log, this`clock
      ensures Valid() && clock == old(clock) + 1 && removed == !faults(old(clock)).Fails?
      ensures log == old(log) + [if !removed then GiveUp(raw) else if done then Ack(raw) else Discard(raw)]
      ensures processing == if removed then RemoveFirst(old(processing), raw) else old(processing)
      ensures held == old(held) - multiset{raw}
    {
      removed := !faults(clock).Fails?;
      clock := clock + 1;
      if removed {
        processing := LRem(processing, raw);
      }
      ghost var ev := if !removed then GiveUp(raw) else if done then Ack(raw) else Discard(raw);
      held, log := held - multiset{raw}, log + [ev];
      Stepped(ev);
    }

    ghost method ForgetOne(raw: Raw)
      requires Valid() && raw in held
      modifies this`held, this`log
      ensures Valid() && log == old(log) + [GiveUp(raw)] && held == old(held) - multiset{raw}
    {
      held, log := held - multiset{raw}, log + [GiveUp(raw)];
      Stepped(GiveUp(raw));
    }

    /** The worker forgets strings it holds. */
    ghost method Forget(raws: seq<Raw>, others: multiset<Raw>)
      requires Valid() && held == others + multiset(raws)
      modifies this`held, this`log
      ensures Valid() && old(log) <= log && held == others
    {
      for i := 0 to |raws|
        invariant Valid() && old(log) <= log && held == others + multiset(raws[i..])
      {
        TakeNext(others, raws, i);
        ForgetOne(raws[i]);
      }
    }

    /** One pipelined round of up to 500 moves; if any reply is lost, all of them are. */
    method MoveBatch() returns (failed: bool, batch: seq<Raw>, ghost moved: seq<Raw>)
      requires Valid()
      modifies this`queue, this`processing, this`held, this`log, this`clock
      ensures Valid() && old(log) <= log && clock >= old(clock)
      ensures old(queue) == moved + queue && processing == old(processing) + moved
      ensures failed ==> batch == [] && held == old(held)
      ensures !failed ==> batch == moved && held == old(held) + multiset(batch)
      ensures !failed ==> |batch| <= 500 && (|batch| < 500 ==> queue == [])
      ensures QuietFrom(old(clock)) ==> !failed
    {
      failed, batch, moved := false, [], [];
      for k := 0 to POP_BATCH
        invariant Valid() && old(log) <= log && clock == old(clock) + k && batch == moved
        invariant old(queue) == moved + queue && processing == old(processing) + moved
        invariant held == old(held) + multiset(moved)
        invariant !failed ==> |moved| <= k && (|moved| < k ==> queue == [])
        invariant QuietFrom(old(clock)) ==> !failed
      {
        ghost var before := queue;
        var raw, ok := MoveToProcessing();
        if raw.Some? {
          MovedOne(old(queue), old(processing), before, moved);
          batch, moved := batch + [raw.value], moved + [raw.value];
        }
        failed := failed || !ok;
      }
      if failed {
        Forget(moved, old(held));
        batch := [];
      }
    }

    /** Parses one batch; strings that do not parse are removed from the processing list, `gone` those that are. */
    method ParseBatch(batch: seq<Raw>, ghost others: multiset<Raw>)
      returns (items: seq<RegenItem>, ghost gone: seq<Raw>)
      requires Valid() && held == others + multiset(batch)
      modifies this`processing, this`held, this`log, this`clock
      ensures Valid() && old(log) <= log && clock >= old(clock)
      ensures items == ParseAll(parse, batch) && held == others + Bag(items)
      ensures processing == RemoveAll(old(processing), gone) && multiset(gone) <= multiset(Bad(parse, batch))
      ensures QuietFrom(old(clock)) ==> gone == Bad(parse, batch)
    {
      items, gone := [], [];
      for i := 0 to |batch|
        invariant Valid() && old(log) <= log && clock >= old(clock)
        invariant items == ParseAll(parse, batch[..i])
        invariant processing == RemoveAll(old(processing), gone) && multiset(gone) <= multiset(Bad(parse, batch[..i]))
        invariant QuietFrom(old(clock)) ==> gone == Bad(parse, batch[..i])
        invariant held == others + Bag(items) + multiset(batch[i..])
      {
        KeepOrDrop(parse, others, items, batch, i);
        ParseNext(parse, batch, i);
        match parse(batch[i]) {
          case Some(parsed) =>
            items := items + [parsed.(raw := batch[i])];
          case None =>
            var removed := Remove(batch[i], false);
            if removed {
              RemoveAllSnoc(old(processing), gone, batch[i]);
              gone := gone + [batch[i]];
            }
        }
      }
      assert batch[..|batch|] == batch;
    }

    /** Moves and parses one batch; an empty batch has nothing to parse. */
    method PopBatch()
      returns (failed: bool, batch: seq<Raw>, items: seq<RegenItem>, ghost moved: seq<Raw>, ghost gone: seq<Raw>)
      requires Valid()
      modifies this`queue, this`processing, this`held, this`log, this`clock
      ensures Valid() && old(log) <= log && clock >= old(clock) && old(queue) == moved + queue
      ensures processing == RemoveAll(old(processing) + moved, gone) && multiset(gone) <= multiset(Bad(parse, moved))
      ensures failed ==> batch == [] && items == [] && held == old(held)
      ensures !failed ==> batch == moved && items == ParseAll(parse, batch) && held == old(held) + Bag(items)
      ensures !failed ==> |batch| <= POP_BATCH && (|batch| < POP_BATCH ==> queue == [])
      ensures QuietFrom(old(clock)) ==> !failed && gone == Bad(parse, batch)
    {
      failed, batch, moved := MoveBatch();
      items, gone := [], [];
      if |batch| > 0 {
        items, gone := ParseBatch(batch, old(held));
      } else {
        assert RawsOf(items) == [];
      }
    }

    /** One more round after the strings in `taken`; `before` and `others` are what the lists held at first. */
    method PopRound(items: seq<RegenItem>, ghost taken: seq<Raw>, ghost gone: seq<Raw>,
                    ghost before: seq<Raw>, ghost others: multiset<Raw>)
      returns (failed: bool, batch: seq<Raw>, all: seq<RegenItem>, ghost moved: seq<Raw>, ghost allGone: seq<Raw>)
      requires Valid() && items == ParseAll(parse, taken) && held == others + Bag(items)
      requires processing == RemoveAll(before + taken, gone) && multiset(gone) <= multiset(Bad(parse, taken))
      modifies this`queue, this`processing, this`held, this`log, this`clock
      ensures Valid() && old(log) <= log && clock >= old(clock) && old(queue) == moved + queue
      ensures processing == RemoveAll(before + (taken + moved), allGone)
      ensures multiset(allGone) <= multiset(Bad(parse, taken + moved))
      ensures failed ==> all == items && held == others + Bag(items)
      ensures !failed ==> batch == moved && all == ParseAll(parse, taken + moved) && held == others + Bag(all)
      ensures !failed ==> |batch| <= POP_BATCH && (|batch| < POP_BATCH ==> queue == [])
      ensures QuietFrom(old(clock)) ==> !failed && (gone == Bad(parse, taken) ==> allGone == Bad(parse, taken + moved))
    {
      var more;
      ghost var now;
      failed, batch, more, moved, now := PopBatch();
      BadIsThere(parse, before, taken);
      RoundsJoin(before, taken, gone, moved, now);
      BadConcat(parse, taken, moved);
      PartsJoin(gone, now, multiset(Bad(parse, taken)), multiset(Bad(parse, moved)));
      allGone := gone + now;
      ParseAllConcat(parse, taken, moved);
      JoinItems(items, more);
      all := items + more;
    }

    /**
     * Moves everything from the queue to the processing list and returns the
     * parsed items. Ends for every queue length, also for exact multiples of
     * the batch size, where one further empty round is made. On an error the
     * items of earlier rounds are forgotten; they stay in the processing list.
     */
    method PopRegenItems() returns (failed: bool, items: seq<RegenItem>, ghost moved: seq<Raw>, ghost gone: seq<Raw>)
      requires Valid()
      modifies this`queue, this`processing, this`held, this`log, this`clock
      ensures Valid() && old(log) <= log && clock >= old(clock) && old(queue) == moved + queue
      ensures processing == RemoveAll(old(processing) + moved, gone) && multiset(gone) <= multiset(Bad(parse, moved))
      ensures failed ==> items == [] && held == old(held)
      ensures !failed ==> queue == [] && items == ParseAll(parse, old(queue)) && held == old(held) + Bag(items)
      ensures QuietFrom(old(clock)) ==> !failed && multiset(processing) == multiset(old(processing)) + Bag(items)
    {
      var connected := faults(clock).Fine?;
      clock := clock + 1;
      if !connected {
        failed, items, moved, gone := true, [], [], [];
        assert old(processing) + moved == old(processing);
        return;
      }
      failed, items, moved, gone := MoveAll();
      if failed {
        Forget(RawsOf(items), old(held));
        items := [];
      } else {
        assert moved == old(queue);
        RemoveAllMultiset(old(processing) + old(queue), gone);
        GoodAndBad(parse, old(queue));
      }
    }

    method MoveAll() returns (failed: bool, items: seq<RegenItem>, ghost taken: seq<Raw>, ghost gone: seq<Raw>)
      requires Valid()
      modifies this`queue, this`processing, this`held, this`log, this`clock
      ensures Valid() && old(log) <= log && clock >= old(clock) && old(queue) == taken + queue
      ensures processing == RemoveAll(old(processing) + taken, gone) && multiset(gone) <= multiset(Bad(parse, taken))
      ensures held == old(held) + Bag(items) && (!failed ==> queue == [] && items == ParseAll(parse, taken))
      ensures QuietFrom(old(clock)) ==> !failed && gone == Bad(parse, taken)
    {
      failed, items, taken, gone := false, [], [], [];
      assert processing + taken == processing;
      while true
        invariant Valid() && old(log) <= log && clock >= old(clock) && !failed
        invariant old(queue) == taken + queue && items == ParseAll(parse, taken)
        invariant held == old(held) + Bag(items)
        invariant processing == RemoveAll(old(processing) + taken, gone)
        invariant multiset(gone) <= multiset(Bad(parse, taken))
        invariant QuietFrom(old(clock)) ==> gone == Bad(parse, taken)
        decreases |queue|
      {
        var batch, all;
        ghost var moved, allGone;
        failed, batch, all, moved, allGone := PopRound(items, taken, gone, old(processing), old(held));
        AppendAssociates(taken, moved, queue);
        items, taken, gone := all, taken + moved, allGone;
        if failed || |batch| < POP_BATCH {
          break;
        }
      }
    }

    /**
     * Moves what a crashed worker left behind to the front of the queue, oldest
     * first; it gives up at the first error, which leaves the older part.
     */
    method RecoverProcessingList()
      requires Valid() && held == multiset{}
      modifies this`queue, this`processing, this`log, this`clock
      ensures Valid() && old(log) <= log
      ensures processing <= old(processing) && processing + queue == old(processing) + old(queue)
      ensures QuietFrom(old(clock)) ==> processing == []
    {
      var connected := faults(clock).Fine?;
      clock := clock + 1;
      if !connected {
        return;
      }
      var pending := if faults(clock).Fine? then |processing| else 0;
      clock := clock + 1;
      if pending == 0 {
        return;
      }
      var more := true;
      while more
        invariant Valid() && old(log) <= log && held == multiset{} && clock >= old(clock)
        invariant processing <= old(processing) && processing + queue == old(processing) + old(queue)
        invariant QuietFrom(old(clock)) && !more ==> processing == []
        decreases |processing|, more
      {
        more := RecoverOne();
      }
    }

    /** LMOVE processing -> queue, from the right end to the left; false at the end of the list or on an error. */
    method RecoverOne() returns (more: bool)
      requires Valid() && held == multiset{}
      modifies this`queue, this`processing, this`log, this`clock
      ensures Valid() && old(log) <= log && clock == old(clock) + 1
      ensures processing <= old(processing) && processing + queue == old(processing) + old(queue)
      ensures more ==> |processing| < |old(processing)|
      ensures !more ==> old(processing) == [] || !faults(old(clock)).Fine?
    {
      var fault := faults(clock);
      clock := clock + 1;
      if processing == [] || fault.Fails? {
        return false;
      }
      var n := |processing| - 1;
      LastMoves(processing, queue);
      queue, processing := [processing[n]] + queue, processing[..n];
      log := log + [Recover];
      Stepped(Recover);
      more := fault.Fine?;
    }

    /**
     * Pops everything and acknowledges each item once it is done, in whatever
     * order `pick` makes them finish. What was popped and is not gone is in the
     * processing list; with no failures the queue is left empty and the
     * processing list is what it was before.
     */
    method DrainRegen(pick: nat -> nat) returns (ghost moved: seq<Raw>, ghost gone: seq<Raw>)
      requires Valid()
      modifies this`queue, this`processing, this`held, this`log, this`clock
      ensures Valid() && old(log) <= log && held == old(held) && old(queue) == moved + queue
      ensures processing == RemoveAll(old(processing) + moved, gone) && multiset(gone) <= multiset(moved)
      ensures QuietFrom(old(clock)) ==> queue == [] && multiset(processing) == multiset(old(processing))
    {
      var failed, items;
      failed, items, moved, gone := PopRegenItems();
      if failed {
        GoodAndBad(parse, moved);
        return;
      }
      assert moved == old(queue);
      AddThenTake(multiset(old(processing)), Bag(items));
      ghost var acked := AckInOrder(items, pick, old(held));
      RemoveAllConcat(old(processing) + moved, gone, acked);
      DoneAndBad(parse, moved, gone, acked);
      gone := gone + acked;
    }

    method AckInOrder(items: seq<RegenItem>, pick: nat -> nat, ghost others: multiset<Raw>)
      returns (ghost acked: seq<Raw>)
      requires Valid() && held == others + Bag(items)
      modifies this`processing, this`held, this`log, this`clock
      ensures Valid() && old(log) <= log && held == others
      ensures processing == RemoveAll(old(processing), acked) && multiset(acked) <= Bag(items)
      ensures QuietFrom(old(clock)) ==> multiset(processing) == multiset(old(processing)) - Bag(items)
    {
      FinishPermutes(items, pick);
      acked := AckAll(Finish(items, pick), others);
    }

    /** LREM of each finished item, in the order they finish; `acked` are those that took effect. */
    method AckAll(items: seq<RegenItem>, ghost others: multiset<Raw>) returns (ghost acked: seq<Raw>)
      requires Valid() && held == others + Bag(items)
      modifies this`processing, this`held, this`log, this`clock
      ensures Valid() && old(log) <= log && held == others
      ensures processing == RemoveAll(old(processing), acked) && multiset(acked) <= Bag(items)
      ensures QuietFrom(old(clock)) ==> multiset(processing) == multiset(old(processing)) - Bag(items)
    {
      acked := [];
      ghost var raws := RawsOf(items);
      for i := 0 to |items|
        invariant Valid() && old(log) <= log && clock == old(clock) + i
        invariant held == others + multiset(raws[i..])
        invariant processing == RemoveAll(old(processing), acked) && multiset(acked) <= multiset(raws[..i])
        invariant QuietFrom(old(clock)) ==> acked == raws[..i]
      {
        TakeNext(others, raws, i);
        PartsSnoc(acked, raws, i);
        var removed := Remove(items[i].raw, true);
        if removed {
          RemoveAllSnoc(old(processing), acked, raws[i]);
          acked := acked + [raws[i]];
        }
      }
      assert raws[..|items|] == raws;
      RemoveAllMultiset(old(processing), acked);
    }
  }
}
