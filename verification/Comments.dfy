/**
 * The comment forest: a flat list of comments is regrouped into roots and
 * replies by parent id. Nodes are named by their ids.
 */
module Comments {
  import opened Prelude

  type Id = nat

  /** parent is 0 when the comment answers nothing. */
  datatype Comment = Comment(id: Id, parent: int)

  type Index = map<Id, Comment>

  /** The grouped list: the ids of the roots, and the replies of each comment. */
  datatype Forest = Forest(roots: seq<Id>, replies: map<Id, seq<Id>>)

  /** Whether a comment hangs below another one of the list; otherwise it is a root. */
  predicate HasParent(byId: Index, id: Id) {
    id in byId && byId[id].parent > 0 && byId[id].parent in byId
  }

  function ParentOf(byId: Index, id: Id): Id
    requires HasParent(byId, id)
  {
    byId[id].parent
  }

  /** The list a comment belongs in: the replies of its parent, or the roots. */
  function Place(byId: Index, id: Id): Option<Id> {
    if HasParent(byId, id) then Some(ParentOf(byId, id)) else None
  }

  ghost predicate Ascending(ids: seq<Id>) {
    forall i, j :: 0 <= i < j < |ids| ==> ids[i] < ids[j]
  }

  /** The ids of one list, in the order they are visited. */
  function Children(byId: Index, order: seq<Id>, place: Option<Id>): seq<Id> {
    if order == [] then []
    else
      var n := |order| - 1;
      var before := Children(byId, order[..n], place);
      if Place(byId, order[n]) == place then before + [order[n]] else before
  }

  /** The last comment with each id. */
  function ById(flat: seq<Comment>): Index {
    if flat == [] then map[] else ById(flat[..|flat| - 1])[flat[|flat| - 1].id := flat[|flat| - 1]]
  }

  lemma {:induction false} ChildrenMembers(byId: Index, order: seq<Id>, place: Option<Id>, id: Id)
    ensures id in Children(byId, order, place) <==> id in order && Place(byId, id) == place
  {
    if order != [] {
      var n := |order| - 1;
      ChildrenMembers(byId, order[..n], place, id);
      assert order == order[..n] + [order[n]];
    }
  }

  /** Siblings stay in the order of the keys. */
  lemma {:induction false} ChildrenAscend(byId: Index, order: seq<Id>, place: Option<Id>)
    requires Ascending(order)
    ensures Ascending(Children(byId, order, place))
  {
    if order != [] {
      var n := |order| - 1;
      ChildrenAscend(byId, order[..n], place);
      var before := Children(byId, order[..n], place);
      forall i | 0 <= i < |before| ensures before[i] < order[n] {
        assert before[i] in before;
        ChildrenMembers(byId, order[..n], place, before[i]);
      }
    }
  }

  /** The comment at position k is the last of the list with its id. */
  ghost predicate IsLast(flat: seq<Comment>, k: nat) {
    k < |flat| && forall j :: k < j < |flat| ==> flat[j].id != flat[k].id
  }

  /** The comment at position k answers a comment of the list. */
  ghost predicate Answers(flat: seq<Comment>, k: nat)
    requires k < |flat|
  {
    flat[k].parent > 0 && exists j :: 0 <= j < |flat| && flat[j].id == flat[k].parent
  }

  lemma {:induction false} LastWins(flat: seq<Comment>, k: nat)
    requires IsLast(flat, k)
    ensures flat[k].id in ById(flat) && ById(flat)[flat[k].id] == flat[k]
  {
    var n := |flat| - 1;
    if k < n {
      LastWins(flat[..n], k);
    }
  }

  lemma {:induction false} ListedIff(flat: seq<Comment>, id: Id)
    ensures id in ById(flat) <==> exists j :: 0 <= j < |flat| && flat[j].id == id
  {
    if flat != [] {
      var n := |flat| - 1;
      ListedIff(flat[..n], id);
      assert flat[n].id in ById(flat);
    }
  }

  /** A comment goes to the roots unless it answers one of the list, whose replies it then belongs to. */
  lemma PlaceMeaning(flat: seq<Comment>, keys: seq<Id>, k: nat)
    requires IsLast(flat, k) && forall id :: id in keys <==> id in ById(flat)
    ensures flat[k].id in Children(ById(flat), keys, None) <==> !Answers(flat, k)
    ensures forall p: Id ::
      flat[k].id in Children(ById(flat), keys, Some(p)) <==> Answers(flat, k) && flat[k].parent == p
  {
    LastWins(flat, k);
    if flat[k].parent > 0 {
      ListedIff(flat, flat[k].parent);
    }
    ChildrenMembers(ById(flat), keys, None, flat[k].id);
    forall p: Id ensures
      flat[k].id in Children(ById(flat), keys, Some(p)) <==> Answers(flat, k) && flat[k].parent == p
    {
      ChildrenMembers(ById(flat), keys, Some(p), flat[k].id);
    }
  }

  // ---------- Building ----------

  class TreeBuilder {
    var byId: Index
    var replies: map<Id, seq<Id>>
    var roots: seq<Id>

    constructor ()
      ensures byId == map[] && replies == map[] && roots == []
    {
      byId, replies, roots := map[], map[], [];
    }

    /** First pass: every comment gets an empty list of replies. */
    method IndexAll(flat: seq<Comment>)
      requires byId == map[] && replies == map[]
      modifies this`byId, this`replies
      ensures byId == ById(flat)
      ensures replies.Keys == byId.Keys && forall p :: p in replies ==> replies[p] == []
    {
      for i := 0 to |flat|
        invariant byId == ById(flat[..i])
        invariant replies.Keys == byId.Keys && forall p :: p in replies ==> replies[p] == []
      {
        assert flat[..i + 1][..i] == flat[..i];
        byId := byId[flat[i].id := flat[i]];
        replies := replies[flat[i].id := []];
      }
      assert flat[..|flat|] == flat;
    }

    /** Second pass: every comment is pushed to the replies of its parent or to the roots. */
    method AttachAll(keys: seq<Id>)
      requires roots == [] && replies.Keys == byId.Keys && forall p :: p in replies ==> replies[p] == []
      requires forall id :: id in keys ==> id in byId
      modifies this`replies, this`roots
      ensures replies.Keys == byId.Keys && roots == Children(byId, keys, None)
      ensures forall p :: p in replies ==> replies[p] == Children(byId, keys, Some(p))
    {
      for i := 0 to |keys|
        invariant replies.Keys == byId.Keys && roots == Children(byId, keys[..i], None)
        invariant forall p :: p in replies ==> replies[p] == Children(byId, keys[..i], Some(p))
      {
        assert keys[..i + 1][..i] == keys[..i];
        var id := keys[i];
        var pid := byId[id].parent;
        if pid > 0 && pid in byId {
          replies := replies[pid := replies[pid] + [id]];
        } else {
          roots := roots + [id];
        }
      }
      assert keys[..|keys|] == keys;
    }
  }

  /** The visiting order of an object whose keys are numbers: ascending. */
  method AscendingKeys(ids: set<Id>) returns (keys: seq<Id>)
    ensures Ascending(keys) && forall id :: id in keys <==> id in ids
  {
    keys := [];
    var rest := ids;
    while rest != {}
      invariant rest <= ids && Ascending(keys)
      invariant forall id :: id in keys <==> id in ids && id !in rest
      invariant forall i, id :: 0 <= i < |keys| && id in rest ==> keys[i] < id
      decreases |rest|
    {
      var least := Least(rest);
      keys, rest := keys + [least], rest - {least};
    }
  }

  method Least(ids: set<Id>) returns (least: Id)
    requires ids != {}
    ensures least in ids && forall id :: id in ids ==> least <= id
  {
    ghost var _ := SomeElement(ids);
    least :| least in ids;
    var rest := ids - {least};
    while rest != {}
      invariant rest <= ids && least in ids && forall id :: id in ids && id !in rest ==> least <= id
      decreases |rest|
    {
      ghost var _ := SomeElement(rest);
      var id :| id in rest;
      if id < least { least := id; }
      rest := rest - {id};
    }
  }

  /** Regroups a flat list. */
  method BuildCommentTree(flat: seq<Comment>) returns (f: Forest, ghost keys: seq<Id>)
    ensures Ascending(keys) && forall id :: id in keys <==> id in ById(flat)
    ensures f.replies.Keys == ById(flat).Keys && f.roots == Children(ById(flat), keys, None)
    ensures forall p :: p in f.replies ==> f.replies[p] == Children(ById(flat), keys, Some(p))
    ensures forall k: nat :: IsLast(flat, k) ==> (flat[k].id in f.roots <==> !Answers(flat, k))
    ensures forall k: nat, p :: IsLast(flat, k) && p in f.replies ==>
      (flat[k].id in f.replies[p] <==> Answers(flat, k) && flat[k].parent == p)
  {
    var b := new TreeBuilder();
    b.IndexAll(flat);
    var order := AscendingKeys(b.byId.Keys);
    b.AttachAll(order);
    f, keys := Forest(b.roots, b.replies), order;
    forall k: nat | IsLast(flat, k)
      ensures flat[k].id in f.roots <==> !Answers(flat, k)
      ensures forall p :: p in f.replies ==> (flat[k].id in f.replies[p] <==> Answers(flat, k) && flat[k].parent == p)
    {
      PlaceMeaning(flat, keys, k);
    }
  }

  /** For any input, each comment is in exactly one list, and there once. */
  lemma ExactlyOnePlace(byId: Index, keys: seq<Id>, id: Id)
    requires Ascending(keys) && (forall k :: k in keys <==> k in byId) && id in byId
    ensures id in Children(byId, keys, Place(byId, id))
    ensures Place(byId, id).Some? ==> Place(byId, id).value in byId
    ensures forall place :: id in Children(byId, keys, place) ==> place == Place(byId, id)
    ensures forall place, i, j :: 0 <= i < j < |Children(byId, keys, place)| ==>
      Children(byId, keys, place)[i] < Children(byId, keys, place)[j]
  {
    ChildrenMembers(byId, keys, Place(byId, id), id);
    forall place ensures id in Children(byId, keys, place) ==> place == Place(byId, id) {
      ChildrenMembers(byId, keys, place, id);
    }
    forall place ensures Ascending(Children(byId, keys, place)) {
      ChildrenAscend(byId, keys, place);
    }
  }

  // ---------- The order of the list ----------

  function Ids(flat: seq<Comment>): (r: seq<Id>)
    ensures |r| == |flat| && forall i :: 0 <= i < |flat| ==> r[i] == flat[i].id
  {
    seq(|flat|, i requires 0 <= i < |flat| => flat[i].id)
  }

  lemma {:induction false} ByIdMembers(flat: seq<Comment>, id: Id)
    ensures id in ById(flat) <==> id in Ids(flat)
  {
    if flat != [] {
      var n := |flat| - 1;
      ByIdMembers(flat[..n], id);
      assert Ids(flat) == Ids(flat[..n]) + [flat[n].id];
    }
  }

  /** There is one ascending list with given members. */
  lemma {:induction false} AscendingEqual(a: seq<Id>, b: seq<Id>)
    requires Ascending(a) && Ascending(b) && forall x :: x in a <==> x in b
    ensures a == b
    decreases |a|
  {
    if a != [] { NonEmptyToo(a, b); }
    if b != [] { NonEmptyToo(b, a); }
    if a != [] && b != [] {
      LastIsSame(a, b);
      var m, n := |a| - 1, |b| - 1;
      forall x ensures x in a[..m] <==> x in b[..n] {
        InitMembers(a, x);
        InitMembers(b, x);
      }
      AscendingEqual(a[..m], b[..n]);
      assert a == a[..m] + [a[m]] && b == b[..n] + [b[n]];
    }
  }

  lemma NonEmptyToo(a: seq<Id>, b: seq<Id>)
    requires a != [] && forall x :: x in a ==> x in b
    ensures b != []
  {
    assert a[0] in b;
  }

  lemma InitMembers(a: seq<Id>, x: Id)
    requires a != [] && Ascending(a)
    ensures x in a[..|a| - 1] <==> x in a && x != a[|a| - 1]
  {
    assert a == a[..|a| - 1] + [a[|a| - 1]];
  }

  lemma LastIsSame(a: seq<Id>, b: seq<Id>)
    requires a != [] && b != [] && Ascending(a) && Ascending(b) && forall x :: x in a <==> x in b
    ensures a[|a| - 1] == b[|b| - 1]
  {
    var x, y := a[|a| - 1], b[|b| - 1];
    assert x in a && y in b;
    var i :| 0 <= i < |b| && b[i] == x;
    var j :| 0 <= j < |a| && a[j] == y;
  }

  /**
   * Siblings come in the order of the list exactly when that order ascends;
   * it does for a list sorted by id, as the query delivers it.
   */
  lemma InsertionOrderIff(flat: seq<Comment>, keys: seq<Id>, place: Option<Id>)
    requires Ascending(keys) && forall id :: id in keys <==> id in ById(flat)
    ensures
      var inOrder := Children(ById(flat), Ids(flat), place);
      && (Children(ById(flat), keys, place) == inOrder <==> Ascending(inOrder))
      && (Ascending(Ids(flat)) ==> Ascending(inOrder))
  {
    var byId := ById(flat);
    var sorted, inOrder := Children(byId, keys, place), Children(byId, Ids(flat), place);
    ChildrenAscend(byId, keys, place);
    if Ascending(Ids(flat)) {
      ChildrenAscend(byId, Ids(flat), place);
    }
    if Ascending(inOrder) {
      forall x ensures x in sorted <==> x in inOrder {
        ChildrenMembers(byId, keys, place, x);
        ChildrenMembers(byId, Ids(flat), place, x);
        ByIdMembers(flat, x);
      }
      AscendingEqual(sorted, inOrder);
    }
  }

  // ---------- Ancestors ----------

  /** The comment n steps up from x. */
  function Ancestor(byId: Index, x: Id, n: nat): Option<Id>
    decreases n
  {
    if n == 0 then Some(x) else if HasParent(byId, x) then Ancestor(byId, ParentOf(byId, x), n - 1) else None
  }

  /** a is x or an ancestor of x. */
  ghost predicate Leads(byId: Index, a: Id, x: Id) {
    exists n: nat :: Ancestor(byId, x, n) == Some(a)
  }

  /** x hangs, however far down, below a root. */
  ghost predicate Rooted(byId: Index, x: Id) {
    exists r :: r in byId && Place(byId, r) == None && Leads(byId, r, x)
  }

  /** Going up from s, at least one step, one comes to x. */
  ghost predicate ClimbsTo(byId: Index, s: Id, x: Id) {
    exists n: nat :: n > 0 && Ancestor(byId, s, n) == Some(x)
  }

  /** Some comment is its own ancestor. */
  ghost predicate Cyclic(byId: Index) {
    exists x :: x in byId && ClimbsTo(byId, x, x)
  }

  lemma {:induction false} AncestorSum(byId: Index, x: Id, m: nat, n: nat)
    requires Ancestor(byId, x, m).Some?
    ensures Ancestor(byId, x, m + n) == Ancestor(byId, Ancestor(byId, x, m).value, n)
    decreases m
  {
    if m > 0 {
      AncestorSum(byId, ParentOf(byId, x), m - 1, n);
    }
  }

  lemma {:induction false} AncestorBefore(byId: Index, x: Id, m: nat, n: nat)
    requires m <= n && Ancestor(byId, x, n).Some?
    ensures Ancestor(byId, x, m).Some?
    decreases m
  {
    if m > 0 {
      AncestorBefore(byId, ParentOf(byId, x), m - 1, n - 1);
    }
  }

  lemma {:induction false} AncestorIsListed(byId: Index, x: Id, n: nat)
    requires x in byId && Ancestor(byId, x, n).Some?
    ensures Ancestor(byId, x, n).value in byId
    decreases n
  {
    if n > 0 {
      AncestorIsListed(byId, ParentOf(byId, x), n - 1);
    }
  }

  lemma ClimbOneMore(byId: Index, s: Id, x: Id)
    requires HasParent(byId, x) && (s == x || ClimbsTo(byId, s, x))
    ensures ClimbsTo(byId, s, ParentOf(byId, x))
  {
    var p := ParentOf(byId, x);
    assert Ancestor(byId, p, 0) == Some(p);
    assert Ancestor(byId, x, 1) == Some(p);
    if s != x {
      var n: nat :| n > 0 && Ancestor(byId, s, n) == Some(x);
      AncestorSum(byId, s, n, 1);
      assert Ancestor(byId, s, n + 1) == Some(p);
    }
  }

  /** Going up from a comment without finding a root ends in a cycle. */
  lemma {:induction false} RootedOrCyclic(byId: Index, x: Id, seen: set<Id>)
    requires x in byId && seen <= byId.Keys && forall s :: s in seen ==> ClimbsTo(byId, s, x)
    ensures Rooted(byId, x) || Cyclic(byId)
    decreases |byId.Keys - seen|
  {
    if x !in seen {
      if HasParent(byId, x) {
        var p := ParentOf(byId, x);
        forall s | s in seen + {x} ensures ClimbsTo(byId, s, p) {
          ClimbOneMore(byId, s, x);
        }
        FewerLeft(byId.Keys, seen, x);
        RootedOrCyclic(byId, p, seen + {x});
        if Rooted(byId, p) {
          RootedBelow(byId, x);
        }
      } else {
        assert Ancestor(byId, x, 0) == Some(x);
        assert Leads(byId, x, x);
      }
    }
  }

  lemma RootedBelow(byId: Index, x: Id)
    requires HasParent(byId, x) && Rooted(byId, ParentOf(byId, x))
    ensures Rooted(byId, x)
  {
    var p := ParentOf(byId, x);
    var r :| r in byId && Place(byId, r) == None && Leads(byId, r, p);
    var n: nat :| Ancestor(byId, p, n) == Some(r);
    assert Ancestor(byId, x, n + 1) == Some(r);
    assert Leads(byId, r, x);
  }

  lemma FewerLeft(all: set<Id>, seen: set<Id>, x: Id)
    requires x in all && x !in seen
    ensures |all - (seen + {x})| < |all - seen|
  {
    assert all - seen == (all - (seen + {x})) + {x};
  }

  lemma {:induction false} CycleGoesOn(byId: Index, x: Id, n: nat, k: nat)
    requires n > 0 && Ancestor(byId, x, n) == Some(x)
    ensures Ancestor(byId, x, k).Some?
    decreases k
  {
    if k <= n {
      AncestorBefore(byId, x, k, n);
    } else {
      CycleGoesOn(byId, x, n, k - n);
      AncestorSum(byId, x, n, k - n);
    }
  }

  lemma CycleIsNotRooted(byId: Index, x: Id, n: nat)
    requires n > 0 && Ancestor(byId, x, n) == Some(x)
    ensures !Rooted(byId, x)
  {
    forall r | r in byId && Leads(byId, r, x) ensures Place(byId, r) != None {
      var m: nat :| Ancestor(byId, x, m) == Some(r);
      AncestorSum(byId, x, m, 1);
      CycleGoesOn(byId, x, n, m + 1);
      assert Ancestor(byId, r, 1).Some?;
    }
  }

  // ---------- Reading the forest in preorder ----------

  ghost predicate Lists(byId: Index, keys: seq<Id>) {
    Ascending(keys) && forall k :: k in keys <==> k in byId
  }

  /** What has been passed on the way down, with every parent in it. */
  ghost predicate IsPath(byId: Index, path: set<Id>) {
    path <= byId.Keys && forall a :: a in path && HasParent(byId, a) ==> ParentOf(byId, a) in path
  }

  /** c can be visited below the path. */
  ghost predicate IsNext(byId: Index, path: set<Id>, c: Id) {
    c in byId && c !in path && (HasParent(byId, c) ==> ParentOf(byId, c) in path)
  }

  ghost predicate AllNext(byId: Index, path: set<Id>, ids: seq<Id>) {
    forall c :: c in ids ==> IsNext(byId, path, c)
  }

  /** The replies of a visited comment are not on the path to it, so the walk goes down and ends. */
  lemma Deeper(byId: Index, keys: seq<Id>, path: set<Id>, id: Id)
    requires Lists(byId, keys) && IsPath(byId, path) && IsNext(byId, path, id)
    ensures IsPath(byId, path + {id}) && AllNext(byId, path + {id}, Children(byId, keys, Some(id)))
    ensures |byId.Keys - (path + {id})| < |byId.Keys - path|
  {
    FewerLeft(byId.Keys, path, id);
    forall c | c in Children(byId, keys, Some(id)) ensures IsNext(byId, path + {id}, c) {
      ChildrenMembers(byId, keys, Some(id), c);
    }
  }

  /** A comment followed by everything below it. */
  ghost function Walk(byId: Index, keys: seq<Id>, path: set<Id>, id: Id): seq<Id>
    requires Lists(byId, keys) && IsPath(byId, path) && IsNext(byId, path, id)
    decreases |byId.Keys - path|, 0, 0
  {
    Deeper(byId, keys, path, id);
    [id] + WalkAll(byId, keys, path + {id}, Children(byId, keys, Some(id)))
  }

  ghost function WalkAll(byId: Index, keys: seq<Id>, path: set<Id>, ids: seq<Id>): seq<Id>
    requires Lists(byId, keys) && IsPath(byId, path) && AllNext(byId, path, ids)
    decreases |byId.Keys - path|, 1, |ids|
  {
    if ids == [] then [] else Walk(byId, keys, path, ids[0]) + WalkAll(byId, keys, path, ids[1..])
  }

  /** Some id of the list leads to x. */
  ghost predicate AnyLeads(byId: Index, ids: seq<Id>, x: Id) {
    exists c :: c in ids && Leads(byId, c, x)
  }

  /** Below a comment is what is below its replies. */
  lemma LeadsByChildren(byId: Index, keys: seq<Id>, a: Id, x: Id)
    requires Lists(byId, keys) && x in byId
    ensures Leads(byId, a, x) <==> a == x || AnyLeads(byId, Children(byId, keys, Some(a)), x)
  {
    var below := Children(byId, keys, Some(a));
    assert Ancestor(byId, x, 0) == Some(x);
    if a != x && Leads(byId, a, x) {
      var n: nat :| Ancestor(byId, x, n) == Some(a);
      AncestorBefore(byId, x, n - 1, n);
      AncestorSum(byId, x, n - 1, 1);
      AncestorIsListed(byId, x, n - 1);
      var c := Ancestor(byId, x, n - 1).value;
      assert Ancestor(byId, c, 1) == Some(a) && Ancestor(byId, ParentOf(byId, c), 0) == Some(a);
      ChildrenMembers(byId, keys, Some(a), c);
      assert Leads(byId, c, x);
    }
    if AnyLeads(byId, below, x) {
      var c :| c in below && Leads(byId, c, x);
      var n: nat :| Ancestor(byId, x, n) == Some(c);
      ChildrenMembers(byId, keys, Some(a), c);
      AncestorSum(byId, x, n, 1);
      assert Ancestor(byId, ParentOf(byId, c), 0) == Some(a);
      assert Ancestor(byId, x, n + 1) == Some(a);
    }
  }

  /** A walk visits exactly what its start leads to. */
  lemma {:induction false} WalkMembers(byId: Index, keys: seq<Id>, path: set<Id>, id: Id, x: Id)
    requires Lists(byId, keys) && IsPath(byId, path) && IsNext(byId, path, id)
    ensures x in Walk(byId, keys, path, id) <==> x in byId && Leads(byId, id, x)
    decreases |byId.Keys - path|, 0, 0
  {
    Deeper(byId, keys, path, id);
    WalkAllMembers(byId, keys, path + {id}, Children(byId, keys, Some(id)), x);
    if x in byId {
      LeadsByChildren(byId, keys, id, x);
    }
  }

  lemma {:induction false} WalkAllMembers(byId: Index, keys: seq<Id>, path: set<Id>, ids: seq<Id>, x: Id)
    requires Lists(byId, keys) && IsPath(byId, path) && AllNext(byId, path, ids)
    ensures x in WalkAll(byId, keys, path, ids) <==> x in byId && AnyLeads(byId, ids, x)
    decreases |byId.Keys - path|, 1, |ids|
  {
    if ids != [] {
      assert ids[0] in ids && ids == [ids[0]] + ids[1..];
      WalkMembers(byId, keys, path, ids[0], x);
      WalkAllMembers(byId, keys, path, ids[1..], x);
    }
  }

  lemma {:induction false} PathGoesUp(byId: Index, path: set<Id>, p: Id, n: nat)
    requires IsPath(byId, path) && p in path && Ancestor(byId, p, n).Some?
    ensures Ancestor(byId, p, n).value in path
    decreases n
  {
    if n > 0 {
      PathGoesUp(byId, path, ParentOf(byId, p), n - 1);
    }
  }

  /** What can be visited next is no proper ancestor of what can be visited next. */
  lemma NextIsNotAbove(byId: Index, path: set<Id>, a: Id, b: Id, n: nat)
    requires IsPath(byId, path) && IsNext(byId, path, a) && b !in path
    requires Ancestor(byId, a, n) == Some(b)
    ensures n == 0 && a == b
  {
    if n > 0 {
      PathGoesUp(byId, path, ParentOf(byId, a), n - 1);
    }
  }

  /** The trees below two siblings have nothing in common. */
  lemma SiblingsApart(byId: Index, path: set<Id>, a: Id, b: Id, x: Id)
    requires IsPath(byId, path) && IsNext(byId, path, a) && IsNext(byId, path, b) && a != b
    requires Leads(byId, a, x)
    ensures !Leads(byId, b, x)
  {
    var m: nat :| Ancestor(byId, x, m) == Some(a);
    forall n: nat ensures Ancestor(byId, x, n) != Some(b) {
      if Ancestor(byId, x, n) == Some(b) {
        if m <= n {
          AncestorSum(byId, x, m, n - m);
          NextIsNotAbove(byId, path, a, b, n - m);
        } else {
          AncestorSum(byId, x, n, m - n);
          NextIsNotAbove(byId, path, b, a, m - n);
        }
      }
    }
  }

  lemma {:induction false} WalkDistinct(byId: Index, keys: seq<Id>, path: set<Id>, id: Id)
    requires Lists(byId, keys) && IsPath(byId, path) && IsNext(byId, path, id)
    ensures Distinct(Walk(byId, keys, path, id))
    decreases |byId.Keys - path|, 0, 0
  {
    var below := Children(byId, keys, Some(id));
    Deeper(byId, keys, path, id);
    ChildrenAscend(byId, keys, Some(id));
    WalkAllDistinct(byId, keys, path + {id}, below);
    WalkAllMembers(byId, keys, path + {id}, below, id);
    forall c | c in below ensures !Leads(byId, c, id) {
      forall n: nat ensures Ancestor(byId, id, n) != Some(c) {
        if Ancestor(byId, id, n) == Some(c) {
          NextIsNotAbove(byId, path, id, c, n);
        }
      }
    }
    JoinDistinct([id], WalkAll(byId, keys, path + {id}, below));
  }

  lemma {:induction false} WalkAllDistinct(byId: Index, keys: seq<Id>, path: set<Id>, ids: seq<Id>)
    requires Lists(byId, keys) && IsPath(byId, path) && AllNext(byId, path, ids) && Ascending(ids)
    ensures Distinct(WalkAll(byId, keys, path, ids))
    decreases |byId.Keys - path|, 1, |ids|
  {
    if ids != [] {
      assert ids[0] in ids && ids == [ids[0]] + ids[1..];
      var first, rest := Walk(byId, keys, path, ids[0]), WalkAll(byId, keys, path, ids[1..]);
      WalkDistinct(byId, keys, path, ids[0]);
      WalkAllDistinct(byId, keys, path, ids[1..]);
      forall x | x in first ensures x !in rest {
        WalkMembers(byId, keys, path, ids[0], x);
        WalkAllMembers(byId, keys, path, ids[1..], x);
        forall c | c in ids[1..] ensures !Leads(byId, c, x) {
          SiblingsApart(byId, path, ids[0], c, x);
        }
      }
      JoinDistinct(first, rest);
    }
  }

  lemma JoinDistinct(a: seq<Id>, b: seq<Id>)
    requires Distinct(a) && Distinct(b) && forall x :: x in a ==> x !in b
    ensures Distinct(a + b)
  {
    forall i, j | 0 <= i < j < |a + b| ensures (a + b)[i] != (a + b)[j] {
      if i < |a| <= j {
        assert a[i] in a && b[j - |a|] in b;
      }
    }
  }

  lemma RootsAreNext(byId: Index, keys: seq<Id>)
    requires Lists(byId, keys)
    ensures IsPath(byId, {}) && AllNext(byId, {}, Children(byId, keys, None))
  {
    forall c | c in Children(byId, keys, None) ensures IsNext(byId, {}, c) {
      ChildrenMembers(byId, keys, None, c);
    }
  }

  /** The whole forest, read from its roots. */
  ghost function Preorder(byId: Index, keys: seq<Id>): seq<Id>
    requires Lists(byId, keys)
  {
    RootsAreNext(byId, keys);
    WalkAll(byId, keys, {}, Children(byId, keys, None))
  }

  /** For any list, reading the forest ends, meets nothing twice, and meets exactly what hangs below a root. */
  lemma PreorderMembers(byId: Index, keys: seq<Id>)
    requires Lists(byId, keys)
    ensures Distinct(Preorder(byId, keys))
    ensures forall x :: x in Preorder(byId, keys) <==> x in byId && Rooted(byId, x)
  {
    var roots := Children(byId, keys, None);
    RootsAreNext(byId, keys);
    ChildrenAscend(byId, keys, None);
    WalkAllDistinct(byId, keys, {}, roots);
    forall x ensures x in Preorder(byId, keys) <==> x in byId && Rooted(byId, x) {
      WalkAllMembers(byId, keys, {}, roots, x);
      RootedByRoots(byId, keys, x);
    }
  }

  /** Every parent is on the path or earlier in the list. */
  ghost predicate ParentsFirst(byId: Index, path: set<Id>, ids: seq<Id>) {
    forall i :: 0 <= i < |ids| && HasParent(byId, ids[i]) ==>
      ParentOf(byId, ids[i]) in path || ParentOf(byId, ids[i]) in ids[..i]
  }

  lemma {:induction false} WalkParentsFirst(byId: Index, keys: seq<Id>, path: set<Id>, id: Id)
    requires Lists(byId, keys) && IsPath(byId, path) && IsNext(byId, path, id)
    ensures ParentsFirst(byId, path, Walk(byId, keys, path, id))
    decreases |byId.Keys - path|, 0, 0
  {
    Deeper(byId, keys, path, id);
    var rest := WalkAll(byId, keys, path + {id}, Children(byId, keys, Some(id)));
    WalkAllParentsFirst(byId, keys, path + {id}, Children(byId, keys, Some(id)));
    ParentsFirstBelow(byId, path, id, rest);
  }

  lemma ParentsFirstBelow(byId: Index, path: set<Id>, id: Id, rest: seq<Id>)
    requires IsNext(byId, path, id) && ParentsFirst(byId, path + {id}, rest)
    ensures ParentsFirst(byId, path, [id] + rest)
  {
    var walk := [id] + rest;
    forall i | 0 <= i < |walk| && HasParent(byId, walk[i])
      ensures ParentOf(byId, walk[i]) in path || ParentOf(byId, walk[i]) in walk[..i]
    {
      if i > 0 {
        assert walk[..i] == [id] + rest[..i - 1];
      }
    }
  }

  lemma {:induction false} WalkAllParentsFirst(byId: Index, keys: seq<Id>, path: set<Id>, ids: seq<Id>)
    requires Lists(byId, keys) && IsPath(byId, path) && AllNext(byId, path, ids)
    ensures ParentsFirst(byId, path, WalkAll(byId, keys, path, ids))
    decreases |byId.Keys - path|, 1, |ids|
  {
    if ids != [] {
      assert ids[0] in ids && ids == [ids[0]] + ids[1..];
      WalkParentsFirst(byId, keys, path, ids[0]);
      WalkAllParentsFirst(byId, keys, path, ids[1..]);
      ParentsFirstJoin(byId, path, Walk(byId, keys, path, ids[0]), WalkAll(byId, keys, path, ids[1..]));
    }
  }

  lemma ParentsFirstJoin(byId: Index, path: set<Id>, a: seq<Id>, b: seq<Id>)
    requires ParentsFirst(byId, path, a) && ParentsFirst(byId, path, b)
    ensures ParentsFirst(byId, path, a + b)
  {
    var all := a + b;
    forall i | 0 <= i < |all| && HasParent(byId, all[i])
      ensures ParentOf(byId, all[i]) in path || ParentOf(byId, all[i]) in all[..i]
    {
      if i < |a| {
        assert all[..i] == a[..i];
      } else {
        assert all[..i] == a + b[..i - |a|];
      }
    }
  }

  /** Reading the forest one meets every comment after the comment it answers. */
  lemma PreorderParentsFirst(byId: Index, keys: seq<Id>, i: nat)
    requires Lists(byId, keys) && i < |Preorder(byId, keys)| && HasParent(byId, Preorder(byId, keys)[i])
    ensures ParentOf(byId, Preorder(byId, keys)[i]) in Preorder(byId, keys)[..i]
  {
    RootsAreNext(byId, keys);
    WalkAllParentsFirst(byId, keys, {}, Children(byId, keys, None));
  }

  lemma RootedByRoots(byId: Index, keys: seq<Id>, x: Id)
    requires Lists(byId, keys)
    ensures Rooted(byId, x) <==> AnyLeads(byId, Children(byId, keys, None), x)
  {
    forall r: Id ensures r in Children(byId, keys, None) <==> r in byId && Place(byId, r) == None {
      ChildrenMembers(byId, keys, None, r);
    }
  }

  /** The forest holds every comment if and only if no comment is its own ancestor. */
  lemma PreorderCoversIff(byId: Index, keys: seq<Id>)
    requires Lists(byId, keys)
    ensures (forall x :: x in byId ==> x in Preorder(byId, keys)) <==> !Cyclic(byId)
  {
    PreorderMembers(byId, keys);
    RootedIff(byId);
  }

  lemma RootedIff(byId: Index)
    ensures (forall x :: x in byId ==> Rooted(byId, x)) <==> !Cyclic(byId)
  {
    if Cyclic(byId) {
      var x :| x in byId && ClimbsTo(byId, x, x);
      var n: nat :| n > 0 && Ancestor(byId, x, n) == Some(x);
      CycleIsNotRooted(byId, x, n);
    } else {
      forall x | x in byId ensures Rooted(byId, x) {
        RootedOrCyclic(byId, x, {});
      }
    }
  }

  /** Replies are younger than what they answer. */
  ghost predicate ParentsEarlier(byId: Index) {
    forall id :: HasParent(byId, id) ==> ParentOf(byId, id) < id
  }

  lemma {:induction false} AncestorsEarlier(byId: Index, x: Id, n: nat)
    requires ParentsEarlier(byId) && n > 0 && Ancestor(byId, x, n).Some?
    ensures Ancestor(byId, x, n).value < x
    decreases n
  {
    if n > 1 {
      AncestorsEarlier(byId, ParentOf(byId, x), n - 1);
    } else {
      assert Ancestor(byId, ParentOf(byId, x), 0) == Some(ParentOf(byId, x));
    }
  }

  /** If every resolvable parent is older than its reply, the forest read in preorder is a permutation of the list. */
  lemma PreorderIsPermutation(byId: Index, keys: seq<Id>)
    requires Lists(byId, keys) && ParentsEarlier(byId)
    ensures Distinct(Preorder(byId, keys)) && forall x :: x in Preorder(byId, keys) <==> x in keys
  {
    PreorderMembers(byId, keys);
    forall x: Id ensures !ClimbsTo(byId, x, x) {
      forall n: nat | n > 0 ensures Ancestor(byId, x, n) != Some(x) {
        if Ancestor(byId, x, n).Some? {
          AncestorsEarlier(byId, x, n);
        }
      }
    }
    PreorderCoversIff(byId, keys);
  }
}
