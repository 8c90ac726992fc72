/**
 * The cursor feed: two keyset queries, the page trimming of the API, and the
 * client list that loads older and newer pages at both ends. The visible posts
 * of one moment are their ids in ascending order; they may change arbitrarily
 * between any two steps.
 */
module Feed {
  import opened Prelude

  type Id = int

  const PAGE: nat := 50

  ghost predicate Ascending(ids: seq<Id>) {
    forall i, j :: 0 <= i < j < |ids| ==> ids[i] < ids[j]
  }

  ghost predicate Descending(ids: seq<Id>) {
    forall i, j :: 0 <= i < j < |ids| ==> ids[i] > ids[j]
  }

  function Reverse(s: seq<Id>): (r: seq<Id>)
    ensures |r| == |s| && forall i :: 0 <= i < |s| ==> r[i] == s[|s| - 1 - i]
  {
    if s == [] then [] else Reverse(s[1..]) + [s[0]]
  }

  /** How many visible ids are below b. */
  function Below(vis: seq<Id>, b: Id): (k: nat)
    requires Ascending(vis)
    ensures k <= |vis|
    ensures forall i :: 0 <= i < |vis| ==> (vis[i] < b <==> i < k)
  {
    if vis == [] || vis[0] >= b then 0 else 1 + Below(vis[1..], b)
  }

  lemma {:induction false} BelowAt(vis: seq<Id>, j: nat)
    requires Ascending(vis) && j < |vis|
    ensures Below(vis, vis[j]) == j && Below(vis, vis[j] + 1) == j + 1
  {
    if j > 0 {
      BelowAt(vis[1..], j - 1);
    } else if |vis| > 1 {
      assert Below(vis[1..], vis[0] + 1) == 0;
    }
  }

  lemma BlockReversed(vis: seq<Id>, lo: nat, hi: nat)
    requires Ascending(vis) && lo <= hi <= |vis|
    ensures Descending(Reverse(vis[lo..hi]))
    ensures forall i :: 0 <= i < hi - lo ==> Reverse(vis[lo..hi])[i] == vis[hi - 1 - i]
  {}

  lemma JoinDescending(a: seq<Id>, b: seq<Id>)
    requires Descending(a) && Descending(b)
    requires a != [] && b != [] ==> a[|a| - 1] > b[0]
    ensures Descending(a + b)
  {
    forall i, j | 0 <= i < j < |a + b| ensures (a + b)[i] > (a + b)[j] {
      if i < |a| <= j {
        assert a[i] >= a[|a| - 1] > b[0] >= b[j - |a|];
      }
    }
  }

  function Min(a: int, b: int): int { if a < b then a else b }

  function Max(a: int, b: int): int { if a < b then b else a }

  // ---------- Queries ----------

  /** WHERE id < before ORDER BY id DESC LIMIT limit. */
  function OlderThan(vis: seq<Id>, before: Id, limit: nat): seq<Id>
    requires Ascending(vis)
  {
    var k := Below(vis, before);
    Reverse(vis[Max(0, k - limit)..k])
  }

  /** WHERE id > after ORDER BY id ASC LIMIT limit. */
  function NewerThanAsc(vis: seq<Id>, after: Id, limit: nat): seq<Id>
    requires Ascending(vis)
  {
    var k := Below(vis, after + 1);
    vis[k..Min(k + limit, |vis|)]
  }

  /** The older query returns the visible ids below the cursor that are among the `limit` nearest ones. */
  lemma {:induction false} OlderThanMeaning(vis: seq<Id>, before: Id, limit: nat, x: Id)
    requires Ascending(vis)
    ensures
      x in OlderThan(vis, before, limit)
      <==> x in vis && x < before && Below(vis, before) - Below(vis, x) <= limit
  {
    var k := Below(vis, before);
    var lo := Max(0, k - limit);
    BlockMembers(vis, lo, k, x);
    if x in vis {
      var j :| 0 <= j < |vis| && vis[j] == x;
      BelowAt(vis, j);
      PositionUnique(vis, j);
    }
  }

  lemma BlockMembers(vis: seq<Id>, lo: nat, hi: nat, x: Id)
    requires Ascending(vis) && lo <= hi <= |vis|
    ensures x in Reverse(vis[lo..hi]) <==> exists j :: lo <= j < hi && vis[j] == x
  {
    var r := Reverse(vis[lo..hi]);
    BlockReversed(vis, lo, hi);
    if x in r {
      var i :| 0 <= i < |r| && r[i] == x;
      assert vis[hi - 1 - i] == x;
    }
    if j :| lo <= j < hi && vis[j] == x {
      assert r[hi - 1 - j] == x;
    }
  }

  lemma PositionUnique(vis: seq<Id>, j: nat)
    requires Ascending(vis) && j < |vis|
    ensures forall i :: 0 <= i < |vis| && vis[i] == vis[j] ==> i == j
  {}

  /** Reverses a page in place, two ends at a time. */
  method ReverseInPlace(a: array<Id>)
    modifies a
    ensures a[..] == Reverse(old(a[..]))
  {
    var i, j := 0, a.Length - 1;
    while i < j
      invariant 0 <= i <= a.Length && j == a.Length - 1 - i && i <= j + 1
      invariant forall k :: 0 <= k < i || j < k < a.Length ==> a[k] == old(a[a.Length - 1 - k])
      invariant forall k :: i <= k <= j ==> a[k] == old(a[k])
    {
      a[i], a[j] := a[j], a[i];
      i, j := i + 1, j - 1;
    }
    ghost var was := old(a[..]);
    assert forall k :: 0 <= k < a.Length ==> a[..][k] == Reverse(was)[k];
  }

  // ---------- Pages ----------

  datatype Page = Page(posts: seq<Id>, hasMore: bool)

  /** One row more than a page is fetched; if it came, the last row of the descending list is cut off. */
  function Trim(fetched: seq<Id>): Page {
    if |fetched| > PAGE then Page(fetched[..PAGE], true) else Page(fetched, false)
  }

  function OlderPage(vis: seq<Id>, before: Id): Page
    requires Ascending(vis)
  {
    Trim(OlderThan(vis, before, PAGE + 1))
  }

  function NewerPage(vis: seq<Id>, after: Id): Page
    requires Ascending(vis)
  {
    Trim(Reverse(NewerThanAsc(vis, after, PAGE + 1)))
  }

  /** The cursor endpoint, with the reversal of the newer query done in place. */
  method GetPostsCursor(vis: seq<Id>, before: Option<Id>, after: Option<Id>) returns (page: Option<Page>)
    requires Ascending(vis)
    ensures page == if before.Some? then Some(OlderPage(vis, before.value))
                    else if after.Some? then Some(NewerPage(vis, after.value)) else None
  {
    var posts := [];
    if before.Some? {
      posts := OlderThan(vis, before.value, PAGE + 1);
    } else if after.Some? {
      var asc := NewerThanAsc(vis, after.value, PAGE + 1);
      var rows := new Id[|asc|](i requires 0 <= i < |asc| => asc[i]);
      assert rows[..] == asc;
      ReverseInPlace(rows);
      posts := rows[..];
    } else {
      return None;
    }
    var hasMore := false;
    if |posts| > PAGE {
      hasMore, posts := true, posts[..PAGE];
    }
    page := Some(Page(posts, hasMore));
  }

  /** The page is the next block of visible ids below the cursor, and hasMore says whether any are left. */
  lemma OlderPageIsNextBlock(vis: seq<Id>, before: Id)
    requires Ascending(vis)
    ensures
      var k, page := Below(vis, before), OlderPage(vis, before);
      page.posts == Reverse(vis[Max(0, k - PAGE)..k]) && (page.hasMore <==> k > PAGE)
  {
    var k := Below(vis, before);
    var f, g := OlderThan(vis, before, PAGE + 1), Reverse(vis[Max(0, k - PAGE)..k]);
    if k > PAGE {
      assert f[..PAGE] == g;
    }
  }

  /** The newer page misses the visible ids nearest to the cursor exactly when there are more than a page of them. */
  lemma NewerPageGapFreeIff(vis: seq<Id>, after: Id)
    requires Ascending(vis)
    ensures
      var page := NewerPage(vis, after);
      (forall x :: x in vis && x > after && page.posts != [] && x <= page.posts[0] ==> x in page.posts)
      <==> |vis| - Below(vis, after + 1) <= PAGE
  {
    var k := Below(vis, after + 1);
    if |vis| - k > PAGE {
      NearestMissed(vis, after);
      assert vis[k] in vis;
    } else {
      NoneMissed(vis, after);
    }
  }

  /** With more than a page above the cursor, the nearest of them is the row cut off. */
  lemma NearestMissed(vis: seq<Id>, after: Id)
    requires Ascending(vis) && |vis| - Below(vis, after + 1) > PAGE
    ensures
      var k, posts := Below(vis, after + 1), NewerPage(vis, after).posts;
      posts != [] && posts[0] == vis[k + PAGE] && vis[k] > after && vis[k] !in posts
  {
    var k, posts := Below(vis, after + 1), NewerPage(vis, after).posts;
    var asc := NewerThanAsc(vis, after, PAGE + 1);
    assert posts[0] == asc[PAGE];
    forall i | 0 <= i < |posts| ensures posts[i] > vis[k] {
      assert posts[i] == asc[PAGE - i] == vis[k + PAGE - i];
    }
  }

  lemma NoneMissed(vis: seq<Id>, after: Id)
    requires Ascending(vis) && |vis| - Below(vis, after + 1) <= PAGE
    ensures forall x :: x in vis && x > after ==> x in NewerPage(vis, after).posts
  {
    var k, posts := Below(vis, after + 1), NewerPage(vis, after).posts;
    var asc := NewerThanAsc(vis, after, PAGE + 1);
    forall x | x in vis && x > after ensures x in posts {
      var j :| 0 <= j < |vis| && vis[j] == x;
      assert asc[j - k] == x;
      assert posts[|asc| - 1 - (j - k)] == x;
    }
  }

  /**
   * The newer page: hasMore says whether more than a page is above the cursor.
   * If so the page leaves out the nearest post and holds the 50 after it.
   */
  lemma NewerPageMeaning(vis: seq<Id>, after: Id, x: Id)
    requires Ascending(vis)
    ensures
      var page, k := NewerPage(vis, after), Below(vis, after + 1);
      && (page.hasMore <==> |vis| - k > 50)
      && (x in page.posts <==> x in vis && x > after && (|vis| - k <= 50 || 1 <= Below(vis, x) - k <= 50))
  {
    var k := Below(vis, after + 1);
    var hi := Min(k + PAGE + 1, |vis|);
    var lo := if |vis| - k > PAGE then k + 1 else k;
    NewerPageIsBlock(vis, after);
    BlockMembers(vis, lo, hi, x);
    if x in vis {
      var j :| 0 <= j < |vis| && vis[j] == x;
      BelowAt(vis, j);
      PositionUnique(vis, j);
    }
  }

  lemma NewerPageIsBlock(vis: seq<Id>, after: Id)
    requires Ascending(vis)
    ensures
      var page, k := NewerPage(vis, after), Below(vis, after + 1);
      && (page.hasMore <==> |vis| - k > PAGE)
      && page.posts == Reverse(vis[if |vis| - k > PAGE then k + 1 else k..Min(k + PAGE + 1, |vis|)])
  {
    var k := Below(vis, after + 1);
    if |vis| - k > PAGE {
      assert Reverse(vis[k..k + PAGE + 1])[..PAGE] == Reverse(vis[k + 1..k + PAGE + 1]);
    }
  }

  lemma OlderPageMeaning(vis: seq<Id>, before: Id, x: Id)
    requires Ascending(vis)
    ensures
      var page, k := OlderPage(vis, before), Below(vis, before);
      && (page.hasMore <==> k > 50)
      && (x in page.posts <==> x in vis && x < before && k - Below(vis, x) <= 50)
  {
    var k := Below(vis, before);
    OlderPageIsNextBlock(vis, before);
    BlockMembers(vis, Max(0, k - PAGE), k, x);
    if x in vis {
      var j :| 0 <= j < |vis| && vis[j] == x;
      BelowAt(vis, j);
      PositionUnique(vis, j);
    }
  }

  /** Everything in a page that lies on one side of its cursor. */
  ghost predicate AllBelow(ids: seq<Id>, c: Id) {
    forall i :: 0 <= i < |ids| ==> ids[i] < c
  }

  ghost predicate AllAbove(ids: seq<Id>, c: Id) {
    forall i :: 0 <= i < |ids| ==> ids[i] > c
  }

  lemma OlderBelowCursor(vis: seq<Id>, c: Id)
    requires Ascending(vis)
    ensures Descending(OlderPage(vis, c).posts) && AllBelow(OlderPage(vis, c).posts, c)
  {
    OlderPageIsNextBlock(vis, c);
    BlockBelow(vis, Max(0, Below(vis, c) - PAGE), c);
  }

  lemma BlockBelow(vis: seq<Id>, lo: nat, c: Id)
    requires Ascending(vis) && lo <= Below(vis, c)
    ensures var block := Reverse(vis[lo..Below(vis, c)]); Descending(block) && AllBelow(block, c)
  {
    BlockReversed(vis, lo, Below(vis, c));
  }

  lemma NewerAboveCursor(vis: seq<Id>, c: Id)
    requires Ascending(vis)
    ensures Descending(NewerPage(vis, c).posts) && AllAbove(NewerPage(vis, c).posts, c)
  {
    var k := Below(vis, c + 1);
    var hi := Min(k + PAGE + 1, |vis|);
    BlockAbove(vis, hi, c);
    var block := Reverse(vis[k..hi]);
    TrimKeepsAbove(block, c);
    assert NewerPage(vis, c) == Trim(block);
  }

  lemma BlockAbove(vis: seq<Id>, hi: nat, c: Id)
    requires Ascending(vis) && Below(vis, c + 1) <= hi <= |vis|
    ensures var block := Reverse(vis[Below(vis, c + 1)..hi]); Descending(block) && AllAbove(block, c)
  {
    BlockReversed(vis, Below(vis, c + 1), hi);
  }

  lemma TrimKeepsAbove(ids: seq<Id>, c: Id)
    requires Descending(ids) && AllAbove(ids, c)
    ensures Descending(Trim(ids).posts) && AllAbove(Trim(ids).posts, c)
  {}

  // ---------- The window around one post ----------

  datatype Around = Around(posts: seq<Id>, hasNewer: bool, hasOlder: bool)

  /** What is visible to each of the three queries; posts may come and go in between. */
  datatype Views = Views(newer: seq<Id>, older: seq<Id>, target: seq<Id>) {
    ghost predicate Valid() {
      Ascending(newer) && Ascending(older) && Ascending(target)
    }
  }

  /** Newer page, the post itself if it is visible, older page. */
  function Window(v: Views, id: Id): Around
    requires v.Valid()
  {
    var newer, older := NewerPage(v.newer, id), OlderPage(v.older, id);
    Around(newer.posts + (if id in v.target then [id] else []) + older.posts, newer.hasMore, older.hasMore)
  }

  /**
   * What a window around a post shows: the post if it is visible, the visible
   * posts below it that are among the 50 nearest, and those above it, of which
   * the nearest is left out and 50 are shown if there are more than 50.
   */
  ghost predicate Shown(v: Views, id: Id, x: Id)
    requires v.Valid()
  {
    var above := Below(v.newer, id + 1);
    || (x == id && x in v.target)
    || (x in v.older && x < id && Below(v.older, id) - Below(v.older, x) <= 50)
    || (x in v.newer && x > id && (|v.newer| - above <= 50 || 1 <= Below(v.newer, x) - above <= 50))
  }

  lemma WindowMeaning(v: Views, id: Id)
    requires v.Valid()
    ensures
      var r := Window(v, id);
      && (forall x :: x in r.posts <==> Shown(v, id, x))
      && (r.hasOlder <==> Below(v.older, id) > 50)
      && (r.hasNewer <==> |v.newer| - Below(v.newer, id + 1) > 50)
  {
    var r := Window(v, id);
    OlderPageMeaning(v.older, id, id);
    NewerPageMeaning(v.newer, id, id);
    forall x ensures x in r.posts <==> Shown(v, id, x) {
      OlderPageMeaning(v.older, id, x);
      NewerPageMeaning(v.newer, id, x);
    }
  }

  lemma WindowDescends(v: Views, id: Id)
    requires v.Valid()
    ensures Descending(Window(v, id).posts)
  {
    var newer, older := NewerPage(v.newer, id).posts, OlderPage(v.older, id).posts;
    var target := if id in v.target then [id] else [];
    OlderBelowCursor(v.older, id);
    NewerAboveCursor(v.newer, id);
    JoinDescending(newer, target);
    JoinDescending(newer + target, older);
  }

  method GetPostsAround(v: Views, id: Id) returns (r: Around)
    requires v.Valid()
    ensures r == Window(v, id) && Descending(r.posts)
    ensures forall x :: x in r.posts <==> Shown(v, id, x)
    ensures r.hasOlder <==> Below(v.older, id) > 50
    ensures r.hasNewer <==> |v.newer| - Below(v.newer, id + 1) > 50
  {
    var newer := GetPostsCursor(v.newer, None, Some(id));
    var older := GetPostsCursor(v.older, Some(id), None);
    var posts := newer.value.posts;
    if id in v.target {
      posts := posts + [id];
    }
    r := Around(posts + older.value.posts, newer.value.hasMore, older.value.hasMore);
    WindowDescends(v, id);
    WindowMeaning(v, id);
  }

  /** COUNT of visible ids above a post. */
  function PostOffset(vis: seq<Id>, id: Id): nat
    requires Ascending(vis)
  {
    |vis| - Below(vis, id + 1)
  }

  /** Offset and page number point at the post in the list of all visible posts, newest first. */
  lemma PositionPointsAtPost(vis: seq<Id>, id: Id)
    requires Ascending(vis) && id in vis
    ensures
      var offset := PostOffset(vis, id);
      var page := offset / PAGE + 1;
      var all := Reverse(vis);
      && offset < |all| && all[offset] == id
      && (page - 1) * PAGE <= offset < page * PAGE
  {
    var j :| 0 <= j < |vis| && vis[j] == id;
    BelowAt(vis, j);
  }

  // ---------- The client list ----------

  /**
   * The list and its flags; requests in flight are held by the cursors or ids
   * they were sent with, any number of each kind.
   */
  datatype Client = Client(
    posts: seq<Id>,
    hasOlder: bool, hasNewer: bool,
    olderLoading: bool, newerLoading: bool,
    older: seq<Id>, newer: seq<Id>, windows: seq<Id>)

  datatype Event =
    | RequestOlder
    | RequestNewer
    | RequestWindow(id: Id)
    | OlderArrives(k: nat, vis: seq<Id>)
    | NewerArrives(k: nat, vis: seq<Id>)
    | WindowArrives(k: nat, views: Views)
    | OlderFails(k: nat)
    | NewerFails(k: nat)
    | WindowFails(k: nat)

  ghost predicate Enabled(s: Client, e: Event) {
    match e
    case RequestOlder => s.hasOlder && !s.olderLoading && s.posts != []
    case RequestNewer => s.hasNewer && !s.newerLoading && s.posts != []
    case RequestWindow(_) => true
    case OlderArrives(k, vis) => k < |s.older| && Ascending(vis)
    case NewerArrives(k, vis) => k < |s.newer| && Ascending(vis)
    case WindowArrives(k, views) => k < |s.windows| && views.Valid()
    case OlderFails(k) => k < |s.older|
    case NewerFails(k) => k < |s.newer|
    case WindowFails(k) => k < |s.windows|
  }

  function Smallest(ids: seq<Id>): Id
    requires ids != []
  {
    if |ids| == 1 then ids[0] else Min(ids[0], Smallest(ids[1..]))
  }

  function Largest(ids: seq<Id>): Id
    requires ids != []
  {
    if |ids| == 1 then ids[0] else Max(ids[0], Largest(ids[1..]))
  }

  function Without(ids: seq<Id>, k: nat): seq<Id>
    requires k < |ids|
  {
    ids[..k] + ids[k + 1..]
  }

  /** An answer is used whatever became of the list; a window replaces the list and clears both loading flags. */
  ghost function Apply(s: Client, e: Event): Client
    requires Enabled(s, e)
  {
    match e
    case RequestOlder => s.(older := s.older + [Smallest(s.posts)], olderLoading := true)
    case RequestNewer => s.(newer := s.newer + [Largest(s.posts)], newerLoading := true)
    case RequestWindow(id) => s.(windows := s.windows + [id])
    case OlderArrives(k, vis) =>
      var page := OlderPage(vis, s.older[k]);
      s.(posts := s.posts + page.posts, hasOlder := page.hasMore, olderLoading := false, older := Without(s.older, k))
    case NewerArrives(k, vis) =>
      var page := NewerPage(vis, s.newer[k]);
      s.(posts := page.posts + s.posts, hasNewer := page.hasMore, newerLoading := false, newer := Without(s.newer, k))
    case WindowArrives(k, views) =>
      var r := Window(views, s.windows[k]);
      s.(posts := r.posts, hasNewer := r.hasNewer, hasOlder := r.hasOlder,
         olderLoading := false, newerLoading := false, windows := Without(s.windows, k))
    case OlderFails(k) => s.(olderLoading := false, older := Without(s.older, k))
    case NewerFails(k) => s.(newerLoading := false, newer := Without(s.newer, k))
    case WindowFails(k) => s.(windows := Without(s.windows, k))
  }

  lemma {:induction false} EndsOfDescending(ids: seq<Id>)
    requires ids != [] && Descending(ids)
    ensures Smallest(ids) == ids[|ids| - 1] && Largest(ids) == ids[0]
  {
    if |ids| > 1 {
      EndsOfDescending(ids[1..]);
    }
  }

  ghost predicate Possible(s: Client, evs: seq<Event>)
    decreases |evs|
  {
    evs == [] || (Enabled(s, evs[0]) && Possible(Apply(s, evs[0]), evs[1..]))
  }

  ghost function Run(s: Client, evs: seq<Event>): Client
    requires Possible(s, evs)
    decreases |evs|
  {
    if evs == [] then s else Run(Apply(s, evs[0]), evs[1..])
  }

  // ---------- One answer ----------

  /** The list ends at or above the cursor of an older request. */
  predicate EndsAbove(posts: seq<Id>, cursor: Id) {
    posts == [] || posts[|posts| - 1] >= cursor
  }

  /** The list begins at or below the cursor of a newer request. */
  predicate BeginsBelow(posts: seq<Id>, cursor: Id) {
    posts == [] || posts[0] <= cursor
  }

  lemma SingleOlder(c: Id)
    ensures OlderPage([c - 1], c) == Page([c - 1], false)
  {
    BelowAt([c - 1], 0);
    assert Below([c - 1], c) == 1;
    assert [c - 1][0..1] == [c - 1];
  }

  lemma SingleNewer(c: Id)
    ensures NewerPage([c + 1], c) == Page([c + 1], false)
  {
    assert Below([c + 1], c + 1) == 0;
    assert [c + 1][0..1] == [c + 1];
  }

  lemma OlderJoins(posts: seq<Id>, vis: seq<Id>, cursor: Id)
    requires Descending(posts) && Ascending(vis) && EndsAbove(posts, cursor)
    ensures Descending(posts + OlderPage(vis, cursor).posts)
  {
    OlderBelowCursor(vis, cursor);
    JoinDescending(posts, OlderPage(vis, cursor).posts);
  }

  lemma NewerJoins(posts: seq<Id>, vis: seq<Id>, cursor: Id)
    requires Descending(posts) && Ascending(vis) && BeginsBelow(posts, cursor)
    ensures Descending(NewerPage(vis, cursor).posts + posts)
  {
    NewerAboveCursor(vis, cursor);
    JoinDescending(NewerPage(vis, cursor).posts, posts);
  }

  /**
   * Whatever an older answer will contain, appending it keeps the list
   * descending exactly when the list still ends at or above the cursor.
   */
  lemma StaleOlderPage(posts: seq<Id>, cursor: Id)
    requires Descending(posts)
    ensures
      (forall vis :: Ascending(vis) ==> Descending(posts + OlderPage(vis, cursor).posts))
      <==> EndsAbove(posts, cursor)
  {
    if EndsAbove(posts, cursor) {
      forall vis | Ascending(vis) ensures Descending(posts + OlderPage(vis, cursor).posts) {
        OlderJoins(posts, vis, cursor);
      }
    } else {
      var vis := [cursor - 1];
      SingleOlder(cursor);
      var all := posts + OlderPage(vis, cursor).posts;
      assert all[|posts| - 1] <= all[|posts|];
    }
  }

  /** The same for a newer answer and the beginning of the list. */
  lemma StaleNewerPage(posts: seq<Id>, cursor: Id)
    requires Descending(posts)
    ensures
      (forall vis :: Ascending(vis) ==> Descending(NewerPage(vis, cursor).posts + posts))
      <==> BeginsBelow(posts, cursor)
  {
    if BeginsBelow(posts, cursor) {
      forall vis | Ascending(vis) ensures Descending(NewerPage(vis, cursor).posts + posts) {
        NewerJoins(posts, vis, cursor);
      }
    } else {
      var vis := [cursor + 1];
      SingleNewer(cursor);
      var all := NewerPage(vis, cursor).posts + posts;
      assert all[0] <= all[1];
    }
  }

  // ---------- Every run ----------

  /** An older request is in flight and another one can be sent before its answer. */
  predicate OlderCanOvertake(s: Client) {
    s.older != [] && s.hasOlder && !s.olderLoading && (s.posts != [] || s.newer != [])
  }

  predicate NewerCanOvertake(s: Client) {
    s.newer != [] && s.hasNewer && !s.newerLoading && (s.posts != [] || s.older != [])
  }

  /**
   * At most one request in each direction, now and until its answer; the list
   * lies between the cursors; and with an empty list the two answers will not
   * cross.
   */
  ghost predicate Safe(s: Client) {
    && Descending(s.posts)
    && |s.older| <= 1 && |s.newer| <= 1
    && !OlderCanOvertake(s) && !NewerCanOvertake(s)
    && (forall c :: c in s.older ==> EndsAbove(s.posts, c))
    && (forall d :: d in s.newer ==> BeginsBelow(s.posts, d))
    && (forall c, d :: c in s.older && d in s.newer && s.posts == [] ==> c <= d + 1)
  }

  lemma OlderKeepsSafe(s: Client, e: Event)
    requires Safe(s) && Enabled(s, e) && (e.RequestOlder? || e.OlderArrives? || e.OlderFails?)
    ensures Safe(Apply(s, e))
  {
    if s.posts != [] {
      EndsOfDescending(s.posts);
    }
    if e.OlderArrives? {
      assert s.older[e.k] in s.older;
      OlderJoins(s.posts, e.vis, s.older[e.k]);
      OlderBelowCursor(e.vis, s.older[e.k]);
    }
  }

  lemma NewerKeepsSafe(s: Client, e: Event)
    requires Safe(s) && Enabled(s, e) && (e.RequestNewer? || e.NewerArrives? || e.NewerFails?)
    ensures Safe(Apply(s, e))
  {
    if s.posts != [] {
      EndsOfDescending(s.posts);
    }
    if e.NewerArrives? {
      assert s.newer[e.k] in s.newer;
      NewerJoins(s.posts, e.vis, s.newer[e.k]);
      NewerAboveCursor(e.vis, s.newer[e.k]);
    }
  }

  lemma StepKeepsSafe(s: Client, e: Event)
    requires Safe(s) && Enabled(s, e) && !e.WindowArrives?
    ensures Safe(Apply(s, e))
  {
    if e.RequestOlder? || e.OlderArrives? || e.OlderFails? {
      OlderKeepsSafe(s, e);
    } else if e.RequestNewer? || e.NewerArrives? || e.NewerFails? {
      NewerKeepsSafe(s, e);
    }
  }

  /** A window that arrives while no load is in flight is always safe. */
  lemma {:induction false} WindowWhileIdle(s: Client, e: Event)
    requires Enabled(s, e) && e.WindowArrives? && s.older == [] && s.newer == []
    ensures Safe(Apply(s, e))
  {
    WindowDescends(e.views, s.windows[e.k]);
  }

  /** Every window that arrives on the way leaves a safe state. */
  ghost predicate WindowsSafe(s: Client, evs: seq<Event>)
    requires Possible(s, evs)
    decreases |evs|
  {
    evs != [] ==>
      (evs[0].WindowArrives? ==> Safe(Apply(s, evs[0]))) && WindowsSafe(Apply(s, evs[0]), evs[1..])
  }

  /**
   * Under every interleaving of older, newer and window loads, any number of
   * them in flight, each answered from whatever is visible at that moment, the
   * list stays strictly descending, hence free of duplicates, as long as every
   * window that arrives leaves a safe state.
   */
  lemma {:induction false} ListStaysDescending(s: Client, evs: seq<Event>)
    requires Safe(s) && Possible(s, evs) && WindowsSafe(s, evs)
    ensures Safe(Run(s, evs)) && Descending(Run(s, evs).posts)
    decreases |evs|
  {
    if evs != [] {
      if !evs[0].WindowArrives? {
        StepKeepsSafe(s, evs[0]);
      }
      ListStaysDescending(Apply(s, evs[0]), evs[1..]);
    }
  }

  ghost predicate NoWindow(evs: seq<Event>) {
    forall i :: 0 <= i < |evs| ==> !evs[i].WindowArrives?
  }

  ghost predicate StaysDescending(s: Client, evs: seq<Event>) {
    Possible(s, evs) && NoWindow(evs) ==> Descending(Run(s, evs).posts)
  }

  /** Safe is exact: until the next window, every run keeps the list descending if and only if the state is safe. */
  lemma {:induction false} SafeIff(s: Client)
    ensures (forall evs :: StaysDescending(s, evs)) <==> Safe(s)
  {
    if Safe(s) {
      forall evs ensures StaysDescending(s, evs) {
        if Possible(s, evs) && NoWindow(evs) {
          NoWindowIsSafe(s, evs);
          ListStaysDescending(s, evs);
        }
      }
    } else {
      var evs := Break(s);
      assert !StaysDescending(s, evs);
    }
  }

  lemma {:induction false} NoWindowIsSafe(s: Client, evs: seq<Event>)
    requires Possible(s, evs) && NoWindow(evs)
    ensures WindowsSafe(s, evs)
    decreases |evs|
  {
    if evs != [] {
      NoWindowIsSafe(Apply(s, evs[0]), evs[1..]);
    }
  }

  // ---------- A condition on the windows alone, for a patient client ----------

  /** Every answer in flight still fits the list. */
  ghost predicate Timely(s: Client) {
    (forall c :: c in s.older ==> EndsAbove(s.posts, c)) && (forall d :: d in s.newer ==> BeginsBelow(s.posts, d))
  }

  /** Windows leave the answers in flight timely, and no request follows one that has not been answered. */
  ghost predicate Patient(s: Client, evs: seq<Event>)
    requires Possible(s, evs)
    decreases |evs|
  {
    evs != [] ==>
      && (evs[0].WindowArrives? ==> Timely(Apply(s, evs[0])))
      && (evs[0].RequestOlder? ==> s.older == []) && (evs[0].RequestNewer? ==> s.newer == [])
      && Patient(Apply(s, evs[0]), evs[1..])
  }

  ghost predicate Ordered(s: Client) {
    && Descending(s.posts) && Timely(s)
    && |s.older| <= 1 && |s.newer| <= 1
    && forall c, d :: c in s.older && d in s.newer ==> c <= d
  }

  lemma OlderKeepsOrdered(s: Client, e: Event)
    requires Ordered(s) && Enabled(s, e) && (e.RequestOlder? || e.OlderArrives? || e.OlderFails?)
    requires e.RequestOlder? ==> s.older == []
    ensures Ordered(Apply(s, e))
  {
    if e.RequestOlder? {
      EndsOfDescending(s.posts);
      assert s.posts[|s.posts| - 1] <= s.posts[0];
    } else if e.OlderArrives? {
      assert s.older[e.k] in s.older;
      OlderJoins(s.posts, e.vis, s.older[e.k]);
      OlderBelowCursor(e.vis, s.older[e.k]);
    }
  }

  lemma NewerKeepsOrdered(s: Client, e: Event)
    requires Ordered(s) && Enabled(s, e) && (e.RequestNewer? || e.NewerArrives? || e.NewerFails?)
    requires e.RequestNewer? ==> s.newer == []
    ensures Ordered(Apply(s, e))
  {
    if e.RequestNewer? {
      EndsOfDescending(s.posts);
      assert s.posts[|s.posts| - 1] <= s.posts[0];
    } else if e.NewerArrives? {
      assert s.newer[e.k] in s.newer;
      NewerJoins(s.posts, e.vis, s.newer[e.k]);
      NewerAboveCursor(e.vis, s.newer[e.k]);
    }
  }

  lemma WindowKeepsOrdered(s: Client, e: Event)
    requires Ordered(s) && Enabled(s, e) && e.WindowArrives? && Timely(Apply(s, e))
    ensures Ordered(Apply(s, e))
  {
    WindowDescends(e.views, s.windows[e.k]);
  }

  lemma StepKeepsOrdered(s: Client, e: Event)
    requires Ordered(s) && Enabled(s, e)
    requires (e.RequestOlder? ==> s.older == []) && (e.RequestNewer? ==> s.newer == [])
    requires e.WindowArrives? ==> Timely(Apply(s, e))
    ensures Ordered(Apply(s, e))
  {
    if e.RequestOlder? || e.OlderArrives? || e.OlderFails? {
      OlderKeepsOrdered(s, e);
    } else if e.RequestNewer? || e.NewerArrives? || e.NewerFails? {
      NewerKeepsOrdered(s, e);
    } else if e.WindowArrives? {
      WindowKeepsOrdered(s, e);
    }
  }

  /**
   * For a client that sends no request after an unanswered one it is enough
   * that each window fits the cursors in flight when it arrives.
   */
  lemma {:induction false} PatientListDescends(s: Client, evs: seq<Event>)
    requires Ordered(s) && Possible(s, evs) && Patient(s, evs)
    ensures Ordered(Run(s, evs)) && Descending(Run(s, evs).posts)
    decreases |evs|
  {
    if evs != [] {
      StepKeepsOrdered(s, evs[0]);
      PatientListDescends(Apply(s, evs[0]), evs[1..]);
    }
  }

  /** Patience is needed: a window that fits every cursor in flight still leaves a run that breaks the list. */
  lemma ImpatientClientBreaks(s: Client)
    requires Ordered(s) && s.older != [] && s.posts != [] && s.hasOlder && !s.olderLoading
    ensures exists evs :: !StaysDescending(s, evs)
  {
    var evs := BreakOvertakenOlder(s);
  }

  // ---------- How an unsafe state breaks ----------

  lemma Before(s: Client, e: Event, evs: seq<Event>) returns (all: seq<Event>)
    requires Enabled(s, e) && !e.WindowArrives? && !StaysDescending(Apply(s, e), evs)
    ensures !StaysDescending(s, all)
  {
    all := [e] + evs;
    assert all[1..] == evs;
  }

  lemma BreakNow(s: Client, e: Event) returns (evs: seq<Event>)
    requires Enabled(s, e) && !e.WindowArrives? && !Descending(Apply(s, e).posts)
    ensures !StaysDescending(s, evs)
  {
    evs := Before(s, e, []);
  }

  /** The list has moved below the cursor. */
  lemma BreakOlder(s: Client, k: nat) returns (evs: seq<Event>)
    requires k < |s.older| && !EndsAbove(s.posts, s.older[k])
    ensures !StaysDescending(s, evs)
  {
    var c := s.older[k];
    SingleOlder(c);
    var all := s.posts + [c - 1];
    assert all[|s.posts| - 1] <= all[|s.posts|];
    evs := BreakNow(s, OlderArrives(k, [c - 1]));
  }

  lemma BreakNewer(s: Client, k: nat) returns (evs: seq<Event>)
    requires k < |s.newer| && !BeginsBelow(s.posts, s.newer[k])
    ensures !StaysDescending(s, evs)
  {
    var d := s.newer[k];
    SingleNewer(d);
    var all := [d + 1] + s.posts;
    assert all[0] <= all[1];
    evs := BreakNow(s, NewerArrives(k, [d + 1]));
  }

  /** An older answer that brings the one post below its cursor. */
  lemma OneOlder(s: Client, k: nat)
    requires k < |s.older|
    ensures
      var c := s.older[k];
      Apply(s, OlderArrives(k, [c - 1]))
      == s.(posts := s.posts + [c - 1], hasOlder := false, olderLoading := false, older := Without(s.older, k))
  {
    SingleOlder(s.older[k]);
  }

  lemma OneNewer(s: Client, k: nat)
    requires k < |s.newer|
    ensures
      var d := s.newer[k];
      Apply(s, NewerArrives(k, [d + 1]))
      == s.(posts := [d + 1] + s.posts, hasNewer := false, newerLoading := false, newer := Without(s.newer, k))
  {
    SingleNewer(s.newer[k]);
  }

  /** Of two older requests, the answer with the higher cursor can come last. */
  lemma BreakTwoOlder(s: Client) returns (evs: seq<Event>)
    requires |s.older| >= 2
    ensures !StaysDescending(s, evs)
  {
    var k := if s.older[0] <= s.older[1] then 0 else 1;
    var e := OlderArrives(k, [s.older[k] - 1]);
    OneOlder(s, k);
    assert Without(s.older, k)[0] == s.older[1 - k];
    evs := BreakOlder(Apply(s, e), 0);
    evs := Before(s, e, evs);
  }

  lemma BreakTwoNewer(s: Client) returns (evs: seq<Event>)
    requires |s.newer| >= 2
    ensures !StaysDescending(s, evs)
  {
    var k := if s.newer[0] >= s.newer[1] then 0 else 1;
    var e := NewerArrives(k, [s.newer[k] + 1]);
    OneNewer(s, k);
    assert Without(s.newer, k)[0] == s.newer[1 - k];
    evs := BreakNewer(Apply(s, e), 0);
    evs := Before(s, e, evs);
  }

  /**
   * A window cleared the loading flag: a second request overtakes the first,
   * even if the list still ends above the first one's cursor.
   */
  lemma BreakOvertakenOlder(s: Client) returns (evs: seq<Event>)
    requires OlderCanOvertake(s)
    ensures !StaysDescending(s, evs)
  {
    if s.posts != [] {
      evs := BreakTwoOlder(Apply(s, RequestOlder));
      evs := Before(s, RequestOlder, evs);
    } else {
      var d := s.newer[0];
      SingleNewer(d);
      var t := Apply(s, NewerArrives(0, [d + 1]));
      evs := BreakTwoOlder(Apply(t, RequestOlder));
      evs := Before(t, RequestOlder, evs);
      evs := Before(s, NewerArrives(0, [d + 1]), evs);
    }
  }

  lemma BreakOvertakenNewer(s: Client) returns (evs: seq<Event>)
    requires NewerCanOvertake(s)
    ensures !StaysDescending(s, evs)
  {
    if s.posts != [] {
      evs := BreakTwoNewer(Apply(s, RequestNewer));
      evs := Before(s, RequestNewer, evs);
    } else {
      var c := s.older[0];
      SingleOlder(c);
      var t := Apply(s, OlderArrives(0, [c - 1]));
      evs := BreakTwoNewer(Apply(t, RequestNewer));
      evs := Before(t, RequestNewer, evs);
      evs := Before(s, OlderArrives(0, [c - 1]), evs);
    }
  }

  /** Two answers to an empty list can cross. */
  lemma BreakCrossed(s: Client, c: Id, d: Id) returns (evs: seq<Event>)
    requires s.older == [c] && s.newer == [d] && s.posts == [] && c > d + 1
    ensures !StaysDescending(s, evs)
  {
    SingleOlder(c);
    var t := Apply(s, OlderArrives(0, [c - 1]));
    evs := BreakNewer(t, 0);
    evs := Before(s, OlderArrives(0, [c - 1]), evs);
  }

  lemma Break(s: Client) returns (evs: seq<Event>)
    requires !Safe(s)
    ensures !StaysDescending(s, evs)
  {
    if !Descending(s.posts) {
      evs := [];
    } else if |s.older| >= 2 {
      evs := BreakTwoOlder(s);
    } else if |s.newer| >= 2 {
      evs := BreakTwoNewer(s);
    } else if OlderCanOvertake(s) {
      evs := BreakOvertakenOlder(s);
    } else if NewerCanOvertake(s) {
      evs := BreakOvertakenNewer(s);
    } else if s.older != [] && !EndsAbove(s.posts, s.older[0]) {
      evs := BreakOlder(s, 0);
    } else if s.newer != [] && !BeginsBelow(s.posts, s.newer[0]) {
      evs := BreakNewer(s, 0);
    } else {
      evs := BreakCrossed(s, s.older[0], s.newer[0]);
    }
  }

  /** Opening post 1 while older posts of 9 are loading shows 3 and 2 once more below 1. */
  lemma StaleOlderPageExample()
    ensures
      var vis := [1, 2, 3, 9];
      var s := Client([9], true, false, true, false, [9], [], [1]);
      var evs := [WindowArrives(0, Views(vis, vis, vis)), OlderArrives(0, vis)];
      Safe(s) && Possible(s, evs) && Run(s, evs).posts == [9, 3, 2, 1, 3, 2, 1]
  {
    var vis := [1, 2, 3, 9];
    var s := Client([9], true, false, true, false, [9], [], [1]);
    var window, answer := WindowArrives(0, Views(vis, vis, vis)), OlderArrives(0, vis);
    ExamplePages();
    var t := Apply(s, window);
    assert t == Client([9, 3, 2, 1], false, false, false, false, [9], [], []);
    RunTwo(s, window, answer);
  }

  lemma RunTwo(s: Client, e: Event, f: Event)
    requires Enabled(s, e) && Enabled(Apply(s, e), f)
    ensures Possible(s, [e, f]) && Run(s, [e, f]) == Apply(Apply(s, e), f)
  {
    var t, last := Apply(s, e), [f];
    assert last[1..] == [];
    assert Possible(Apply(t, f), last[1..]) && Run(Apply(t, f), last[1..]) == Apply(t, f);
    assert Possible(t, last) && Run(t, last) == Apply(t, f);
    assert [e, f][1..] == last;
  }

  lemma ExamplePages()
    ensures
      var vis := [1, 2, 3, 9];
      OlderPage(vis, 9).posts == [3, 2, 1] && Window(Views(vis, vis, vis), 1) == Around([9, 3, 2, 1], false, false)
  {
    var vis := [1, 2, 3, 9];
    assert Below(vis, 9) == 3 by { BelowAt(vis, 3); }
    assert Below(vis, 1) == 0 && Below(vis, 2) == 1 by { BelowAt(vis, 0); }
    ReverseThree(3, 2, 1);
    ReverseThree(9, 3, 2);
    assert vis[0..3] == [1, 2, 3] && vis[1..4] == [2, 3, 9] && vis[0..0] == [];
  }

  lemma ReverseThree(a: Id, b: Id, c: Id)
    ensures Reverse([c, b, a]) == [a, b, c]
  {}

  // ---------- Loading to the end ----------

  class PostStore {
    var posts: seq<Id>
    var hasOlder: bool
    var hasNewer: bool

    constructor (posts: seq<Id>, hasOlder: bool, hasNewer: bool)
      ensures this.posts == posts && this.hasOlder == hasOlder && this.hasNewer == hasNewer
    {
      this.posts, this.hasOlder, this.hasNewer := posts, hasOlder, hasNewer;
    }

    /** Replaces the list by the window around a post. */
    method FetchAroundPost(v: Views, id: Id)
      requires v.Valid()
      modifies this
      ensures posts == Window(v, id).posts && Descending(posts) && forall x :: x in posts <==> Shown(v, id, x)
      ensures hasOlder <==> Below(v.older, id) > 50
      ensures hasNewer <==> |v.newer| - Below(v.newer, id + 1) > 50
    {
      var r := GetPostsAround(v, id);
      posts, hasNewer, hasOlder := r.posts, r.hasNewer, r.hasOlder;
    }

    /** Appends the page below the smallest id in the list. */
    method LoadOlderPosts(vis: seq<Id>)
      requires Ascending(vis) && Descending(posts)
      modifies this`posts, this`hasOlder
      ensures Descending(posts)
      ensures !old(hasOlder) || old(posts) == [] ==> posts == old(posts) && hasOlder == old(hasOlder)
      ensures old(hasOlder) && old(posts) != [] ==>
        var page := OlderPage(vis, old(posts)[|old(posts)| - 1]);
        posts == old(posts) + page.posts && hasOlder == page.hasMore
    {
      if !hasOlder || |posts| == 0 {
        return;
      }
      EndsOfDescending(posts);
      var minId := Smallest(posts);
      var page := GetPostsCursor(vis, Some(minId), None);
      OlderBelowCursor(vis, minId);
      JoinDescending(posts, page.value.posts);
      posts, hasOlder := posts + page.value.posts, page.value.hasMore;
    }

    /** Prepends the page above the largest id in the list. */
    method LoadNewerPosts(vis: seq<Id>)
      requires Ascending(vis) && Descending(posts)
      modifies this`posts, this`hasNewer
      ensures Descending(posts)
      ensures !old(hasNewer) || old(posts) == [] ==> posts == old(posts) && hasNewer == old(hasNewer)
      ensures old(hasNewer) && old(posts) != [] ==>
        var page := NewerPage(vis, old(posts)[0]);
        posts == page.posts + old(posts) && hasNewer == page.hasMore
    {
      if !hasNewer || |posts| == 0 {
        return;
      }
      EndsOfDescending(posts);
      var maxId := Largest(posts);
      var page := GetPostsCursor(vis, None, Some(maxId));
      NewerAboveCursor(vis, maxId);
      JoinDescending(page.value.posts, posts);
      posts, hasNewer := page.value.posts + posts, page.value.hasMore;
    }

    /**
     * With a fixed visible set, loading older pages until none are left ends
     * and appends every visible post below the list exactly once, newest first.
     */
    method LoadAllOlder(vis: seq<Id>)
      requires Ascending(vis) && Descending(posts) && posts != [] && hasOlder
      modifies this`posts, this`hasOlder
      ensures !hasOlder && Descending(posts)
      ensures posts == old(posts) + Reverse(vis[..Below(vis, old(posts)[|old(posts)| - 1])])
    {
      ghost var all := Below(vis, posts[|posts| - 1]);
      ghost var k := all;
      while hasOlder
        invariant Descending(posts) && posts != [] && 0 <= k <= all
        invariant k == Below(vis, posts[|posts| - 1])
        invariant posts == old(posts) + Reverse(vis[k..all])
        invariant !hasOlder ==> k == 0
        decreases k, hasOlder
      {
        NextPage(vis, old(posts), posts, k, all);
        LoadOlderPosts(vis);
        k := Max(0, k - PAGE);
      }
    }
  }

  /** A load is a request and its answer, a fetch likewise; a load that fails leaves the client as it was. */
  lemma LoadsAreSteps(s: Client, vis: seq<Id>, views: Views, id: Id)
    requires Descending(s.posts) && Ascending(vis) && views.Valid()
    ensures Enabled(s, RequestOlder) ==>
      var t, page := Apply(s, RequestOlder), OlderPage(vis, s.posts[|s.posts| - 1]);
      && Apply(t, OlderArrives(|s.older|, vis)) == s.(posts := s.posts + page.posts, hasOlder := page.hasMore)
      && Apply(t, OlderFails(|s.older|)) == s
    ensures Enabled(s, RequestNewer) ==>
      var t, page := Apply(s, RequestNewer), NewerPage(vis, s.posts[0]);
      && Apply(t, NewerArrives(|s.newer|, vis)) == s.(posts := page.posts + s.posts, hasNewer := page.hasMore)
      && Apply(t, NewerFails(|s.newer|)) == s
    ensures
      var t, r := Apply(s, RequestWindow(id)), Window(views, id);
      && Apply(t, WindowArrives(|s.windows|, views))
         == s.(posts := r.posts, hasNewer := r.hasNewer, hasOlder := r.hasOlder,
               olderLoading := false, newerLoading := false)
      && Apply(t, WindowFails(|s.windows|)) == s
  {
    if s.posts != [] {
      EndsOfDescending(s.posts);
      WithoutLast(s.older, Smallest(s.posts));
      WithoutLast(s.newer, Largest(s.posts));
    }
    WithoutLast(s.windows, id);
  }

  lemma WithoutLast(ids: seq<Id>, id: Id)
    ensures Without(ids + [id], |ids|) == ids
  {}

  /** Appending one more block keeps the list the part above it, and moves the cursor to the block's end. */
  lemma NextBlock(vis: seq<Id>, start: seq<Id>, posts: seq<Id>, next: nat, k: nat, all: nat)
    requires Ascending(vis) && posts != [] && next <= k <= all <= |vis|
    requires posts == start + Reverse(vis[k..all]) && k == Below(vis, posts[|posts| - 1])
    ensures
      var after := posts + Reverse(vis[next..k]);
      after == start + Reverse(vis[next..all]) && next == Below(vis, after[|after| - 1])
  {
    BlocksJoin(vis, next, k, all);
    var block := Reverse(vis[next..k]);
    assert posts + block == start + (Reverse(vis[k..all]) + block);
    if next < k {
      assert (posts + block)[|posts + block| - 1] == vis[next];
      BelowAt(vis, next);
    } else {
      assert posts + block == posts;
    }
  }

  lemma NextPage(vis: seq<Id>, start: seq<Id>, posts: seq<Id>, k: nat, all: nat)
    requires Ascending(vis) && posts != [] && k <= all <= |vis|
    requires posts == start + Reverse(vis[k..all]) && k == Below(vis, posts[|posts| - 1])
    ensures
      var page, next := OlderPage(vis, posts[|posts| - 1]), Max(0, k - PAGE);
      var after := posts + page.posts;
      && after == start + Reverse(vis[next..all]) && next == Below(vis, after[|after| - 1])
      && (page.hasMore <==> k > PAGE)
  {
    OlderPageIsNextBlock(vis, posts[|posts| - 1]);
    NextBlock(vis, start, posts, Max(0, k - PAGE), k, all);
  }

  lemma BlocksJoin(vis: seq<Id>, lo: nat, mid: nat, hi: nat)
    requires lo <= mid <= hi <= |vis|
    ensures Reverse(vis[mid..hi]) + Reverse(vis[lo..mid]) == Reverse(vis[lo..hi])
  {}
}
