/**
 * Grouping a newest-first list of private messages into one summary per
 * partner. Times are integers, 0 being the zero time; an absent sender is the
 * empty name.
 */
module Conversations {
  import opened Prelude

  type Name = string

  datatype Message = Message(from: Name, to: Name, body: string, at: int, read: bool)

  datatype Conversation = Conversation(partner: Name, lastAt: int, unread: nat, lastBody: string)

  // ---------- Reference ----------

  function Partner(m: Message, me: Name): Name {
    if m.to == me then m.from else m.to
  }

  predicate IsUnread(m: Message, me: Name) {
    m.to == me && !m.read
  }

  /** The messages exchanged with p, in the order of the list. */
  function With(msgs: seq<Message>, me: Name, p: Name): seq<Message> {
    if msgs == [] then []
    else
      var n := |msgs| - 1;
      if Partner(msgs[n], me) == p then With(msgs[..n], me, p) + [msgs[n]] else With(msgs[..n], me, p)
  }

  /** Named partners in the order of their first appearance. */
  function Partners(msgs: seq<Message>, me: Name): seq<Name> {
    if msgs == [] then []
    else
      var n := |msgs| - 1;
      var before, p := Partners(msgs[..n], me), Partner(msgs[n], me);
      if p == "" || p in before then before else before + [p]
  }

  function CountUnread(msgs: seq<Message>, me: Name): nat {
    if msgs == [] then 0
    else CountUnread(msgs[..|msgs| - 1], me) + if IsUnread(msgs[|msgs| - 1], me) then 1 else 0
  }

  /** One more message folded into a partner's summary: the first non-zero time fixes time and body. */
  function Update(c: Conversation, m: Message, me: Name): Conversation {
    var timed := if c.lastAt == 0 then c.(lastAt := m.at, lastBody := m.body) else c;
    if IsUnread(m, me) then timed.(unread := timed.unread + 1) else timed
  }

  function Fold(own: seq<Message>, me: Name, p: Name): Conversation {
    if own == [] then Conversation(p, 0, 0, "") else Update(Fold(own[..|own| - 1], me, p), own[|own| - 1], me)
  }

  function Summary(msgs: seq<Message>, me: Name, p: Name): Conversation {
    Fold(With(msgs, me, p), me, p)
  }

  function Summaries(msgs: seq<Message>, me: Name, ps: seq<Name>): seq<Conversation> {
    if ps == [] then [] else Summaries(msgs, me, ps[..|ps| - 1]) + [Summary(msgs, me, ps[|ps| - 1])]
  }

  /** The positions of the messages with a property. */
  function Places(msgs: seq<Message>, f: Message -> bool): set<nat> {
    set i: nat | i < |msgs| && f(msgs[i])
  }

  lemma PlacesSnoc(msgs: seq<Message>, f: Message -> bool)
    requires msgs != []
    ensures var n := |msgs| - 1; |Places(msgs, f)| == |Places(msgs[..n], f)| + if f(msgs[n]) then 1 else 0
  {
    var n := |msgs| - 1;
    assert Places(msgs, f) == Places(msgs[..n], f) + if f(msgs[n]) then {n} else {};
  }

  /** The unread messages from p to me. */
  function UnreadFrom(me: Name, p: Name): Message -> bool {
    (m: Message) => m.to == me && m.from == p && !m.read
  }

  lemma {:induction false} CountIsUnreadFrom(msgs: seq<Message>, me: Name, p: Name)
    ensures CountUnread(With(msgs, me, p), me) == |Places(msgs, UnreadFrom(me, p))|
  {
    if msgs != [] {
      var n := |msgs| - 1;
      CountIsUnreadFrom(msgs[..n], me, p);
      PlacesSnoc(msgs, UnreadFrom(me, p));
      var own := With(msgs[..n], me, p);
      assert (own + [msgs[n]])[..|own|] == own;
    }
  }

  /** Zero times are passed over: the first message with a time gives time and body, without one the last body shows. */
  lemma {:induction false} FoldTimes(own: seq<Message>, me: Name, p: Name, k: nat)
    requires k <= |own| && forall i :: 0 <= i < k ==> own[i].at == 0
    requires k < |own| ==> own[k].at != 0
    ensures
      var c := Fold(own, me, p);
      if k < |own| then c.lastAt == own[k].at && c.lastBody == own[k].body
      else c.lastAt == 0 && c.lastBody == if own == [] then "" else own[k - 1].body
    decreases |own|
  {
    if own != [] {
      var n := |own| - 1;
      FoldTimes(own[..n], me, p, if k <= n then k else n);
    }
  }

  /** With proper times a summary shows the newest message and the number of unread ones. */
  lemma {:induction false} FoldMeaning(own: seq<Message>, me: Name, p: Name)
    requires own != [] && forall m :: m in own ==> m.at != 0
    ensures Fold(own, me, p) == Conversation(p, own[0].at, CountUnread(own, me), own[0].body)
  {
    var n := |own| - 1;
    assert own[n] in own && own[0] in own;
    if n > 0 {
      FoldMeaning(own[..n], me, p);
    } else {
      assert own[..n] == [];
    }
  }

  // ---------- The grouping loop ----------

  /** A summary per partner seen so far, and the order of first appearance. */
  ghost predicate Grouped(byPartner: map<Name, Conversation>, order: seq<Name>, msgs: seq<Message>, me: Name) {
    && order == Partners(msgs, me)
    && (forall p :: p in byPartner <==> p in order)
    && (forall p :: p in byPartner ==> byPartner[p] == Summary(msgs, me, p))
  }

  lemma {:induction false} UnseenHasNone(msgs: seq<Message>, me: Name, p: Name)
    requires p != "" && p !in Partners(msgs, me)
    ensures With(msgs, me, p) == []
  {
    if msgs != [] {
      UnseenHasNone(msgs[..|msgs| - 1], me, p);
    }
  }

  lemma SummaryNext(msgs: seq<Message>, m: Message, me: Name, p: Name)
    ensures Summary(msgs + [m], me, p) ==
      if Partner(m, me) == p then Update(Summary(msgs, me, p), m, me) else Summary(msgs, me, p)
  {
    assert (msgs + [m])[..|msgs|] == msgs;
    var own := With(msgs, me, p);
    assert (own + [m])[..|own|] == own;
  }

  lemma PartnersNext(msgs: seq<Message>, m: Message, me: Name)
    ensures
      var before, p := Partners(msgs, me), Partner(m, me);
      Partners(msgs + [m], me) == if p == "" || p in before then before else before + [p]
  {
    assert (msgs + [m])[..|msgs|] == msgs;
  }

  lemma GroupNext(byPartner: map<Name, Conversation>, order: seq<Name>, msgs: seq<Message>, m: Message, me: Name)
    requires Grouped(byPartner, order, msgs, me)
    ensures
      var p := Partner(m, me);
      if p == "" then Grouped(byPartner, order, msgs + [m], me)
      else
        var c := if p in byPartner then byPartner[p] else Conversation(p, 0, 0, "");
        Grouped(byPartner[p := Update(c, m, me)], if p in byPartner then order else order + [p], msgs + [m], me)
  {
    PartnersNext(msgs, m, me);
    NoEmptyPartner(msgs, me);
    forall p ensures Summary(msgs + [m], me, p) ==
      if Partner(m, me) == p then Update(Summary(msgs, me, p), m, me) else Summary(msgs, me, p)
    {
      SummaryNext(msgs, m, me, p);
    }
    if Partner(m, me) != "" && Partner(m, me) !in order {
      UnseenHasNone(msgs, me, Partner(m, me));
    }
  }

  lemma {:induction false} NoEmptyPartner(msgs: seq<Message>, me: Name)
    ensures "" !in Partners(msgs, me)
  {
    if msgs != [] {
      NoEmptyPartner(msgs[..|msgs| - 1], me);
    }
  }

  method GroupByPartner(msgs: seq<Message>, me: Name) returns (byPartner: map<Name, Conversation>, order: seq<Name>)
    ensures Grouped(byPartner, order, msgs, me)
  {
    byPartner, order := map[], [];
    for i := 0 to |msgs|
      invariant Grouped(byPartner, order, msgs[..i], me)
    {
      GroupNext(byPartner, order, msgs[..i], msgs[i], me);
      assert msgs[..i + 1] == msgs[..i] + [msgs[i]];
      var m := msgs[i];
      var partner := m.to;
      if m.to == me {
        partner := m.from;
      }
      if partner != "" {
        var c := Conversation(partner, 0, 0, "");
        if partner in byPartner {
          c := byPartner[partner];
        } else {
          order := order + [partner];
        }
        if c.lastAt == 0 {
          c := c.(lastAt := m.at, lastBody := m.body);
        }
        if m.to == me && !m.read {
          c := c.(unread := c.unread + 1);
        }
        byPartner := byPartner[partner := c];
      }
    }
    assert msgs[..|msgs|] == msgs;
  }

  // ---------- Sorting ----------

  ghost predicate NewestFirst(cs: seq<Conversation>) {
    forall i, j :: 0 <= i < j < |cs| ==> cs[i].lastAt >= cs[j].lastAt
  }

  /** Sorts by time, newest first; entries with equal times may come in any order. */
  method SortNewestFirst(cs: seq<Conversation>) returns (r: seq<Conversation>)
    ensures NewestFirst(r) && multiset(r) == multiset(cs)
  {
    r := [];
    for i := 0 to |cs|
      invariant NewestFirst(r) && multiset(r) == multiset(cs[..i])
    {
      assert cs[..i + 1] == cs[..i] + [cs[i]];
      r := InsertByTime(r, cs[i]);
    }
    assert cs[..|cs|] == cs;
  }

  method InsertByTime(cs: seq<Conversation>, c: Conversation) returns (r: seq<Conversation>)
    requires NewestFirst(cs)
    ensures NewestFirst(r) && multiset(r) == multiset(cs) + multiset{c}
  {
    var k := 0;
    while k < |cs| && cs[k].lastAt > c.lastAt
      invariant 0 <= k <= |cs| && forall i :: 0 <= i < k ==> cs[i].lastAt > c.lastAt
    {
      k := k + 1;
    }
    r := cs[..k] + [c] + cs[k..];
    assert cs == cs[..k] + cs[k..];
  }

  /** Newest-first summaries of all named partners. */
  method BuildConversations(msgs: seq<Message>, me: Name) returns (r: seq<Conversation>)
    ensures NewestFirst(r)
    ensures multiset(r) == multiset(Summaries(msgs, me, Partners(msgs, me)))
  {
    var byPartner, order := GroupByPartner(msgs, me);
    var result := [];
    for i := 0 to |order|
      invariant result == Summaries(msgs, me, order[..i])
    {
      assert order[..i + 1][..i] == order[..i];
      assert order[i] in order;
      result := result + [byPartner[order[i]]];
    }
    assert order[..|order|] == order;
    r := SortNewestFirst(result);
  }

  // ---------- Every partner once, with the newest message ----------

  lemma {:induction false} WithMembers(msgs: seq<Message>, me: Name, p: Name, m: Message)
    ensures m in With(msgs, me, p) <==> m in msgs && Partner(m, me) == p
  {
    if msgs != [] {
      var n := |msgs| - 1;
      WithMembers(msgs[..n], me, p, m);
      assert msgs == msgs[..n] + [msgs[n]];
    }
  }

  lemma NoneBetween(msgs: seq<Message>, me: Name, p: Name)
    ensures (exists m :: m in msgs && IsBetween(m, me, p)) <==> With(msgs, me, p) != []
  {
    if m :| m in msgs && IsBetween(m, me, p) {
      WithMembers(msgs, me, p, m);
    } else if With(msgs, me, p) != [] {
      WithMembers(msgs, me, p, With(msgs, me, p)[0]);
    }
  }

  /** The partners are exactly the names messages were exchanged with, each listed once. */
  lemma {:induction false} PartnersMeaning(msgs: seq<Message>, me: Name)
    ensures Distinct(Partners(msgs, me))
    ensures forall p :: p in Partners(msgs, me) <==> p != "" && With(msgs, me, p) != []
    ensures forall p :: p in Partners(msgs, me) <==> p != "" && exists m :: m in msgs && IsBetween(m, me, p)
  {
    if msgs != [] {
      var n := |msgs| - 1;
      PartnersMeaning(msgs[..n], me);
      forall p ensures (exists m :: m in msgs && IsBetween(m, me, p)) <==> With(msgs, me, p) != [] {
        NoneBetween(msgs, me, p);
      }
    }
  }

  ghost predicate Chronological(msgs: seq<Message>) {
    (forall i, j :: 0 <= i < j < |msgs| ==> msgs[i].at >= msgs[j].at) && forall m :: m in msgs ==> m.at != 0
  }

  lemma {:induction false} FirstIsNewest(msgs: seq<Message>, me: Name, p: Name)
    requires Chronological(msgs) && With(msgs, me, p) != []
    ensures With(msgs, me, p)[0] in msgs
    ensures forall m :: m in msgs && Partner(m, me) == p ==> m.at <= With(msgs, me, p)[0].at
  {
    var n := |msgs| - 1;
    var init := msgs[..n];
    assert msgs == init + [msgs[n]];
    if With(init, me, p) != [] {
      FirstIsNewest(init, me, p);
    } else {
      forall m | m in init ensures Partner(m, me) != p {
        WithMembers(init, me, p, m);
      }
    }
  }

  /** A message that p sent to me, or that went to p and not to me. */
  predicate IsBetween(m: Message, me: Name, p: Name) {
    (m.to == me && m.from == p) || (m.to != me && m.to == p)
  }

  /** The summary of a partner shows the newest message exchanged with them and how many of theirs are unread. */
  lemma SummaryMeaning(msgs: seq<Message>, me: Name, p: Name)
    requires Chronological(msgs) && p in Partners(msgs, me)
    ensures
      var own, c := With(msgs, me, p), Summary(msgs, me, p);
      && own != [] && own[0] in msgs && IsBetween(own[0], me, p)
      && c == Conversation(p, own[0].at, |Places(msgs, UnreadFrom(me, p))|, own[0].body)
      && forall m :: m in msgs && IsBetween(m, me, p) ==> m.at <= c.lastAt
  {
    CountIsUnreadFrom(msgs, me, p);
    PartnersMeaning(msgs, me);
    var own := With(msgs, me, p);
    FirstIsNewest(msgs, me, p);
    WithMembers(msgs, me, p, own[0]);
    forall m | m in own ensures m.at != 0 {
      WithMembers(msgs, me, p, m);
    }
    FoldMeaning(own, me, p);
  }

  lemma {:induction false} SummariesAt(msgs: seq<Message>, me: Name, ps: seq<Name>, i: nat)
    requires i < |ps|
    ensures |Summaries(msgs, me, ps)| == |ps| && Summaries(msgs, me, ps)[i] == Summary(msgs, me, ps[i])
  {
    var n := |ps| - 1;
    if i < n {
      SummariesAt(msgs, me, ps[..n], i);
    } else if n > 0 {
      SummariesAt(msgs, me, ps[..n], 0);
    }
  }

  lemma {:induction false} FoldPartner(own: seq<Message>, me: Name, p: Name)
    ensures Fold(own, me, p).partner == p && Fold(own, me, p).unread == CountUnread(own, me)
  {
    if own != [] {
      FoldPartner(own[..|own| - 1], me, p);
    }
  }

  // ---------- Totals and order survive the sort ----------

  function SumOf(cs: seq<Conversation>, f: Conversation -> int): int {
    if cs == [] then 0 else SumOf(cs[..|cs| - 1], f) + f(cs[|cs| - 1])
  }

  lemma {:induction false} SumWithout(cs: seq<Conversation>, f: Conversation -> int, k: nat)
    requires k < |cs|
    ensures SumOf(cs, f) == SumOf(cs[..k] + cs[k + 1..], f) + f(cs[k])
  {
    var n := |cs| - 1;
    var rest := cs[..k] + cs[k + 1..];
    if k < n {
      SumWithout(cs[..n], f, k);
      assert rest[..|rest| - 1] == cs[..n][..k] + cs[..n][k + 1..];
    } else {
      assert rest == cs[..n];
    }
  }

  lemma DropOne(cs: seq<Conversation>, k: nat)
    requires k < |cs|
    ensures multiset(cs[..k] + cs[k + 1..]) == multiset(cs) - multiset{cs[k]}
  {
    assert cs == cs[..k] + [cs[k]] + cs[k + 1..];
  }

  /** Sums do not depend on the order. */
  lemma {:induction false} SumPermuted(xs: seq<Conversation>, ys: seq<Conversation>, f: Conversation -> int)
    requires multiset(xs) == multiset(ys)
    ensures SumOf(xs, f) == SumOf(ys, f) && |xs| == |ys|
    decreases |xs|
  {
    if xs == [] {
      assert |multiset(ys)| == 0;
    } else {
      var n := |xs| - 1;
      assert xs[n] in multiset(ys);
      var k :| 0 <= k < |ys| && ys[k] == xs[n];
      DropOne(xs, n);
      DropOne(ys, k);
      assert xs[..n] + xs[n + 1..] == xs[..n];
      SumPermuted(xs[..n], ys[..k] + ys[k + 1..], f);
      SumWithout(ys, f, k);
    }
  }

  function Reaches(t: int): Conversation -> int {
    (c: Conversation) => if c.lastAt >= t then 1 else 0
  }

  /** In a sorted list the entries that reach time t are the first ones. */
  lemma {:induction false} SortedReach(cs: seq<Conversation>, t: int, i: nat)
    requires NewestFirst(cs) && i < |cs|
    ensures 0 <= SumOf(cs, Reaches(t)) <= |cs|
    ensures cs[i].lastAt >= t <==> SumOf(cs, Reaches(t)) > i
  {
    var n := |cs| - 1;
    if n > 0 {
      SortedReach(cs[..n], t, if i < n then i else n - 1);
    }
  }

  /** Sorting a list that is already newest-first moves only entries with equal times. */
  lemma SortKeepsTimes(xs: seq<Conversation>, ys: seq<Conversation>, i: nat)
    requires NewestFirst(xs) && NewestFirst(ys) && multiset(xs) == multiset(ys) && i < |xs|
    ensures |ys| == |xs| && xs[i].lastAt == ys[i].lastAt
  {
    SumPermuted(xs, ys, Reaches(xs[i].lastAt));
    SumPermuted(xs, ys, Reaches(ys[i].lastAt));
    SortedReach(xs, xs[i].lastAt, i);
    SortedReach(ys, xs[i].lastAt, i);
    SortedReach(xs, ys[i].lastAt, i);
    SortedReach(ys, ys[i].lastAt, i);
  }

  /** For a newest-first list of messages, the summaries come out of the grouping in order already. */
  lemma {:induction false} GroupingIsSorted(msgs: seq<Message>, me: Name)
    requires Chronological(msgs)
    ensures NewestFirst(Summaries(msgs, me, Partners(msgs, me)))
  {
    var ps := Partners(msgs, me);
    var cs := Summaries(msgs, me, ps);
    if ps != [] { SummariesAt(msgs, me, ps, 0); }
    forall i, j | 0 <= i < j < |cs| ensures cs[i].lastAt >= cs[j].lastAt {
      SummariesAt(msgs, me, ps, i);
      SummariesAt(msgs, me, ps, j);
      SummaryMeaning(msgs, me, ps[i]);
      SummaryMeaning(msgs, me, ps[j]);
      EarlierPartnerNewer(msgs, me, i, j);
    }
  }

  lemma {:induction false} EarlierPartnerNewer(msgs: seq<Message>, me: Name, i: nat, j: nat)
    requires Chronological(msgs) && i < j < |Partners(msgs, me)|
    ensures
      var a, b := With(msgs, me, Partners(msgs, me)[i]), With(msgs, me, Partners(msgs, me)[j]);
      a != [] && b != [] && a[0].at >= b[0].at
  {
    var n := |msgs| - 1;
    var init, ps := msgs[..n], Partners(msgs, me);
    PartnersMeaning(msgs, me);
    PartnersMeaning(init, me);
    assert ps[i] in ps && ps[j] in ps;
    if j < |Partners(init, me)| {
      EarlierPartnerNewer(init, me, i, j);
    } else {
      assert ps[i] == Partners(init, me)[i];
      FirstIsNewest(init, me, ps[i]);
      assert With(init, me, ps[i])[0] in init;
    }
  }

  // ---------- Unread totals ----------

  function UnreadOver(msgs: seq<Message>, me: Name, ps: seq<Name>): nat {
    if ps == [] then 0
    else UnreadOver(msgs, me, ps[..|ps| - 1]) + CountUnread(With(msgs, me, ps[|ps| - 1]), me)
  }

  /** Unread messages to me from someone with a name. */
  function NamedUnread(msgs: seq<Message>, me: Name): nat {
    if msgs == [] then 0
    else
      var m := msgs[|msgs| - 1];
      NamedUnread(msgs[..|msgs| - 1], me) + if IsUnread(m, me) && m.from != "" then 1 else 0
  }

  lemma {:induction false} NamedUnreadCounts(msgs: seq<Message>, me: Name)
    ensures NamedUnread(msgs, me) == |Places(msgs, (m: Message) => m.to == me && m.from != "" && !m.read)|
  {
    if msgs != [] {
      NamedUnreadCounts(msgs[..|msgs| - 1], me);
      PlacesSnoc(msgs, (m: Message) => m.to == me && m.from != "" && !m.read);
    }
  }

  lemma {:induction false} UnreadOverNext(msgs: seq<Message>, me: Name, ps: seq<Name>)
    requires msgs != [] && Distinct(ps)
    ensures
      var m := msgs[|msgs| - 1];
      UnreadOver(msgs, me, ps) ==
        UnreadOver(msgs[..|msgs| - 1], me, ps) + if IsUnread(m, me) && Partner(m, me) in ps then 1 else 0
  {
    if ps != [] {
      var n := |ps| - 1;
      UnreadOverNext(msgs, me, ps[..n]);
      assert ps == ps[..n] + [ps[n]];
    }
  }

  lemma {:induction false} UnreadOverPartners(msgs: seq<Message>, me: Name)
    ensures UnreadOver(msgs, me, Partners(msgs, me)) == NamedUnread(msgs, me)
  {
    if msgs != [] {
      var n := |msgs| - 1;
      var init, before, after := msgs[..n], Partners(msgs[..n], me), Partners(msgs, me);
      UnreadOverPartners(init, me);
      PartnersMeaning(msgs, me);
      PartnersMeaning(init, me);
      NoEmptyPartner(init, me);
      UnreadOverNext(msgs, me, after);
      if after != before {
        UnseenHasNone(init, me, Partner(msgs[n], me));
        assert after[..|before|] == before;
      }
    }
  }

  lemma {:induction false} SummariesUnread(msgs: seq<Message>, me: Name, ps: seq<Name>)
    ensures SumOf(Summaries(msgs, me, ps), (c: Conversation) => c.unread) == UnreadOver(msgs, me, ps)
  {
    if ps != [] {
      var n := |ps| - 1;
      SummariesUnread(msgs, me, ps[..n]);
      FoldPartner(With(msgs, me, ps[n]), me, ps[n]);
      var cs := Summaries(msgs, me, ps);
      assert cs[..|cs| - 1] == Summaries(msgs, me, ps[..n]);
    }
  }

  function IsWith(p: Name): Conversation -> int {
    (c: Conversation) => if c.partner == p then 1 else 0
  }

  lemma {:induction false} SummariesCount(msgs: seq<Message>, me: Name, ps: seq<Name>, p: Name)
    requires Distinct(ps)
    ensures SumOf(Summaries(msgs, me, ps), IsWith(p)) == if p in ps then 1 else 0
  {
    if ps != [] {
      var n := |ps| - 1;
      SummariesCount(msgs, me, ps[..n], p);
      FoldPartner(With(msgs, me, ps[n]), me, ps[n]);
      var cs := Summaries(msgs, me, ps);
      assert cs[..|cs| - 1] == Summaries(msgs, me, ps[..n]) && ps == ps[..n] + [ps[n]];
    }
  }

  /** Every named partner has exactly one entry, and nobody else has any. */
  lemma {:induction false} EachPartnerOnce(msgs: seq<Message>, me: Name, r: seq<Conversation>, p: Name)
    requires multiset(r) == multiset(Summaries(msgs, me, Partners(msgs, me)))
    ensures SumOf(r, IsWith(p)) == if p != "" && (exists m :: m in msgs && IsBetween(m, me, p)) then 1 else 0
    ensures p in Partners(msgs, me) ==> Summary(msgs, me, p) in r
  {
    var ps := Partners(msgs, me);
    var cs := Summaries(msgs, me, ps);
    PartnersMeaning(msgs, me);
    SummariesCount(msgs, me, ps, p);
    SumPermuted(r, cs, IsWith(p));
    if m :| m in msgs && IsBetween(m, me, p) {
      WithMembers(msgs, me, p, m);
    } else if With(msgs, me, p) != [] {
      WithMembers(msgs, me, p, With(msgs, me, p)[0]);
    }
    if p in ps {
      var i :| 0 <= i < |ps| && ps[i] == p;
      SummariesAt(msgs, me, ps, i);
      assert Summary(msgs, me, p) in multiset(cs);
      assert Summary(msgs, me, p) in multiset(r);
    }
  }

  /**
   * What the inbox shows: the unread counts add up to the unread messages with
   * a named sender, and for a newest-first list the entries at each position
   * have the time they had before the final sort.
   */
  lemma {:induction false} InboxMeaning(msgs: seq<Message>, me: Name, r: seq<Conversation>)
    requires NewestFirst(r) && multiset(r) == multiset(Summaries(msgs, me, Partners(msgs, me)))
    ensures SumOf(r, (c: Conversation) => c.unread)
            == |Places(msgs, (m: Message) => m.to == me && m.from != "" && !m.read)|
    ensures |r| == |Partners(msgs, me)|
    ensures Chronological(msgs) ==>
      forall i :: 0 <= i < |r| ==> r[i].lastAt == Summary(msgs, me, Partners(msgs, me)[i]).lastAt
  {
    var ps := Partners(msgs, me);
    var cs := Summaries(msgs, me, ps);
    SumPermuted(r, cs, (c: Conversation) => c.unread);
    SummariesUnread(msgs, me, ps);
    UnreadOverPartners(msgs, me);
    NamedUnreadCounts(msgs, me);
    if ps != [] { SummariesAt(msgs, me, ps, 0); }
    if Chronological(msgs) {
      GroupingIsSorted(msgs, me);
      forall i | 0 <= i < |r| ensures r[i].lastAt == Summary(msgs, me, ps[i]).lastAt {
        SortKeepsTimes(cs, r, i);
        SummariesAt(msgs, me, ps, i);
      }
    }
  }
}
