/**
 * The materials page tree and its drag-and-drop rearrangement: detaching a
 * page, inserting it under a new parent, renumbering positions, looking pages
 * up and listing every page's place. All operations build new forests.
 */
module MaterialsTree {
  import opened Wrappers

  /** The deepest level a page may be dropped at. */
  const MaxDepth: int := 3

  /** A page; `position` is its index among its siblings once renumbered. */
  datatype Node = Node(id: string, title: string, position: int, children: seq<Node>)

  /** A page's place: its id, its parent's id (None at the root) and its index among its siblings. */
  datatype Place = Place(id: string, parentId: Option<string>, index: int)

  /** What `detachNode` reports: the forest without the page, the page, where it was. */
  datatype Detached = Detached(tree: seq<Node>, removed: Option<Node>, parentId: Option<string>, index: int)

  /** Where a page is dropped: between siblings of a parent, or inside a page (as its last child). */
  datatype DropData =
    | Between(parentId: Option<string>, position: int, depth: int)
    | Inside(nodeId: string, depth: int)

  /** An accepted drop: the renumbered forest and the move that is sent to the server. */
  datatype Move = Move(tree: seq<Node>, pageId: string, parentId: Option<string>, position: int)

  // ---------------------------------------------------------------- reference walks

  /** A page without its subtree. */
  function Bare(n: Node): Node {
    n.(children := [])
  }

  /** Every page of the forest in preorder, each without its subtree. */
  function Preorder(nodes: seq<Node>): seq<Node>
    decreases nodes
  {
    if nodes == [] then [] else [Bare(nodes[0])] + Preorder(nodes[0].children) + Preorder(nodes[1..])
  }

  /** The ids of the forest in preorder. */
  function Ids(nodes: seq<Node>): seq<string>
    decreases nodes
  {
    if nodes == [] then [] else [nodes[0].id] + Ids(nodes[0].children) + Ids(nodes[1..])
  }

  predicate NoDuplicates(s: seq<string>) {
    forall i, j :: 0 <= i < j < |s| ==> s[i] != s[j]
  }

  /** The least index of a page with this id, or -1. */
  function FirstWithId(s: seq<Node>, id: string): (k: int)
    ensures -1 <= k < |s|
    ensures k >= 0 ==> s[k].id == id && forall j :: 0 <= j < k ==> s[j].id != id
    ensures k < 0 ==> forall j :: 0 <= j < |s| ==> s[j].id != id
  {
    if s == [] then -1
    else if s[0].id == id then 0
    else
      var k := FirstWithId(s[1..], id);
      if k < 0 then -1 else k + 1
  }

  // ---------------------------------------------------------------- the operations

  /** `findNode`: the first page in preorder with this id. */
  function FindNode(nodes: seq<Node>, id: string): (r: Option<Node>)
    ensures r.Some? ==> r.value.id == id
    decreases nodes
  {
    if nodes == [] then None
    else if nodes[0].id == id then Some(nodes[0])
    else if |nodes[0].children| > 0 && FindNode(nodes[0].children, id).Some? then FindNode(nodes[0].children, id)
    else FindNode(nodes[1..], id)
  }

  /** `getChildCount`: how many children the page has, or 0 when there is no such page. */
  function GetChildCount(nodes: seq<Node>, id: string): (n: nat)
    ensures FindNode(nodes, id).Some? ==> n == |FindNode(nodes, id).value.children|
    ensures FindNode(nodes, id).None? ==> n == 0
  {
    match FindNode(nodes, id)
    case Some(found) => |found.children|
    case None => 0
  }

  /** `collectPositions` over `nodes[..]`, numbering the siblings from `offset`. */
  function CollectFrom(nodes: seq<Node>, parentId: Option<string>, offset: int): seq<Place>
    decreases nodes
  {
    if nodes == [] then []
    else
      [Place(nodes[0].id, parentId, offset)]
      + (if |nodes[0].children| > 0 then CollectFrom(nodes[0].children, Some(nodes[0].id), 0) else [])
      + CollectFrom(nodes[1..], parentId, offset + 1)
  }

  /** `collectPositions`: every page's place, in preorder. */
  function CollectPositions(nodes: seq<Node>, parentId: Option<string>): seq<Place> {
    CollectFrom(nodes, parentId, 0)
  }

  /** `detachNode` over `nodes`, whose first element has index `offset` among its siblings. */
  function DetachFrom(nodes: seq<Node>, id: string, parentId: Option<string>, offset: int): (r: Detached)
    ensures r.removed.Some? ==> r.removed.value.id == id
    ensures r.removed.None? ==> r.parentId.None? && r.index == -1
    ensures r.removed.Some? && offset >= 0 ==> r.index >= 0
    decreases nodes
  {
    if nodes == [] then Detached([], None, None, -1)
    else
      var n := nodes[0];
      if n.id == id then Detached(nodes[1..], Some(n), parentId, offset)
      else
        var sub := if |n.children| > 0 then DetachFrom(n.children, id, Some(n.id), 0) else Detached([], None, None, -1);
        if sub.removed.Some? then
          Detached([n.(children := sub.tree)] + nodes[1..], sub.removed, sub.parentId, sub.index)
        else
          var rest := DetachFrom(nodes[1..], id, parentId, offset + 1);
          Detached([n] + rest.tree, rest.removed, rest.parentId, rest.index)
  }

  /** `detachNode(nodes, id)`: takes out the first page with this id, with its subtree. */
  function Detach(nodes: seq<Node>, id: string): Detached {
    DetachFrom(nodes, id, None, 0)
  }

  /** Where `Array.prototype.splice` inserts for a start index `index` into a list of length `len`. */
  function SpliceIndex(len: nat, index: int): (j: nat)
    ensures j <= len
    ensures 0 <= index <= len ==> j == index
    ensures index > len ==> j == len
  {
    if index < 0 then (if len + index < 0 then 0 else len + index)
    else if index > len then len
    else index
  }

  /** `copy.splice(index, 0, x)`. */
  function SpliceIn(s: seq<Node>, index: int, x: Node): (r: seq<Node>)
    ensures |r| == |s| + 1
    ensures r[SpliceIndex(|s|, index)] == x
    ensures r[..SpliceIndex(|s|, index)] == s[..SpliceIndex(|s|, index)]
    ensures r[SpliceIndex(|s|, index) + 1..] == s[SpliceIndex(|s|, index)..]
  {
    var j := SpliceIndex(|s|, index);
    s[..j] + [x] + s[j..]
  }

  /** `insertNode` for a parent id: every page with that id gets `x` spliced into its children. */
  function InsertUnder(nodes: seq<Node>, x: Node, parent: string, index: int): (r: seq<Node>)
    ensures |r| == |nodes|
    decreases nodes
  {
    if nodes == [] then []
    else
      var n := nodes[0];
      var n' :=
        if n.id == parent then n.(children := SpliceIn(n.children, index, x))
        else if |n.children| > 0 then n.(children := InsertUnder(n.children, x, parent, index))
        else n;
      [n'] + InsertUnder(nodes[1..], x, parent, index)
  }

  /** `insertNode`: at the root for no parent, else under the parent. */
  function InsertNode(nodes: seq<Node>, x: Node, parentId: Option<string>, index: int): seq<Node> {
    match parentId
    case None => SpliceIn(nodes, index, x)
    case Some(p) => InsertUnder(nodes, x, p, index)
  }

  /** Every page's position is its index among its siblings, at every depth. */
  predicate Numbered(nodes: seq<Node>)
    decreases nodes
  {
    forall k :: 0 <= k < |nodes| ==> nodes[k].position == k && Numbered(nodes[k].children)
  }

  /** `updatePositions`: renumbers every page by its index among its siblings. */
  function UpdatePositions(nodes: seq<Node>): (r: seq<Node>)
    ensures |r| == |nodes|
    ensures forall k :: 0 <= k < |r| ==> r[k].id == nodes[k].id && r[k].title == nodes[k].title
    ensures Numbered(r)
    decreases nodes
  {
    seq(|nodes|, k requires 0 <= k < |nodes| => nodes[k].(position := k, children := UpdatePositions(nodes[k].children)))
  }

  /** The drop index, moved one step left when the page moves forward among its own siblings. */
  function AdjustIndex(oldParent: Option<string>, oldIndex: int, targetParent: Option<string>, targetIndex: int): (r: int)
    ensures 0 <= targetIndex ==> 0 <= r && targetIndex - 1 <= r <= targetIndex
    ensures r != targetIndex <==> oldParent == targetParent && oldIndex < targetIndex && targetIndex != 0
  {
    if oldParent == targetParent && oldIndex < targetIndex then
      (if targetIndex - 1 < 0 then 0 else targetIndex - 1)
    else targetIndex
  }

  /**
   * The tree part of `handleDragEnd`: None when the drop is abandoned and the
   * snapshot is restored (no drop target, no such page, too deep).
   */
  function DragEnd(nodes: seq<Node>, activeId: string, drop: Option<DropData>): (r: Option<Move>)
    ensures drop.Some? && drop.value.depth > MaxDepth ==> r.None?
    ensures Detach(nodes, activeId).removed.None? ==> r.None?
    ensures r.Some? ==> Numbered(r.value.tree) && r.value.pageId == activeId
  {
    if drop.None? then None
    else
      var d := Detach(nodes, activeId);
      if d.removed.None? || drop.value.depth > MaxDepth then None
      else
        var targetParent := if drop.value.Inside? then Some(drop.value.nodeId) else drop.value.parentId;
        var targetIndex := if drop.value.Inside? then GetChildCount(d.tree, drop.value.nodeId) else drop.value.position;
        var adjusted := AdjustIndex(d.parentId, d.index, targetParent, targetIndex);
        var inserted := InsertNode(d.tree, d.removed.value, targetParent, adjusted);
        Some(Move(UpdatePositions(inserted), activeId, targetParent, adjusted))
  }

  // ---------------------------------------------------------------- sequence facts

  lemma {:induction false} FirstWithIdAppend(a: seq<Node>, b: seq<Node>, id: string)
    ensures FirstWithId(a + b, id) ==
      if FirstWithId(a, id) >= 0 then FirstWithId(a, id)
      else if FirstWithId(b, id) >= 0 then |a| + FirstWithId(b, id)
      else -1
  {
    if a != [] {
      assert (a + b)[1..] == a[1..] + b;
      FirstWithIdAppend(a[1..], b, id);
    } else {
      assert a + b == b;
    }
  }

  lemma NoDuplicatesSplit(a: seq<string>, b: seq<string>)
    requires NoDuplicates(a + b)
    ensures NoDuplicates(a) && NoDuplicates(b)
    ensures forall x :: x in a ==> x !in b
  {
    forall i, j | 0 <= i < j < |a| ensures a[i] != a[j] {
      assert a[i] == (a + b)[i] && a[j] == (a + b)[j];
    }
    forall i, j | 0 <= i < j < |b| ensures b[i] != b[j] {
      assert b[i] == (a + b)[|a| + i] && b[j] == (a + b)[|a| + j];
    }
    forall i, j | 0 <= i < |a| && 0 <= j < |b| ensures a[i] != b[j] {
      assert a[i] == (a + b)[i] && b[j] == (a + b)[|a| + j];
    }
  }

  /** The facts about a node list's ids that the proofs below take apart. */
  lemma NoDuplicatesNodes(nodes: seq<Node>)
    requires nodes != [] && NoDuplicates(Ids(nodes))
    ensures NoDuplicates(Ids(nodes[0].children)) && NoDuplicates(Ids(nodes[1..]))
    ensures nodes[0].id !in Ids(nodes[0].children) && nodes[0].id !in Ids(nodes[1..])
    ensures forall x :: x in Ids(nodes[0].children) ==> x !in Ids(nodes[1..])
  {
    var c := Ids(nodes[0].children);
    var r := Ids(nodes[1..]);
    assert Ids(nodes) == [nodes[0].id] + c + r;
    NoDuplicatesThree(nodes[0].id, c, r);
  }

  /** A duplicate-free list of one id, then `c`, then `r`, split into its three parts. */
  lemma NoDuplicatesThree(x: string, c: seq<string>, r: seq<string>)
    requires NoDuplicates([x] + c + r)
    ensures NoDuplicates(c) && NoDuplicates(r) && x !in c && x !in r
    ensures forall y :: y in c ==> y !in r
  {
    assert [x] + c + r == [x] + (c + r);
    NoDuplicatesSplit([x], c + r);
    assert x in [x];
    NoDuplicatesSplit(c, r);
  }

  // ---------------------------------------------------------------- findNode and collectPositions

  /** An id occurs in the forest exactly when some page in preorder has it. */
  lemma {:induction false} FirstWithIdIds(nodes: seq<Node>, id: string)
    ensures FirstWithId(Preorder(nodes), id) >= 0 <==> id in Ids(nodes)
    decreases nodes
  {
    if nodes != [] {
      var n := nodes[0];
      FirstWithIdIds(n.children, id);
      FirstWithIdIds(nodes[1..], id);
      FirstWithIdAppend([Bare(n)], Preorder(n.children), id);
      FirstWithIdAppend([Bare(n)] + Preorder(n.children), Preorder(nodes[1..]), id);
    }
  }

  /** `findNode` finds exactly the first page in preorder with the id. */
  lemma {:induction false} FindNodeIsFirst(nodes: seq<Node>, id: string)
    ensures FindNode(nodes, id).Some? <==> FirstWithId(Preorder(nodes), id) >= 0
    ensures FindNode(nodes, id).Some? ==>
      Bare(FindNode(nodes, id).value) == Preorder(nodes)[FirstWithId(Preorder(nodes), id)]
    decreases nodes
  {
    if nodes != [] {
      var n := nodes[0];
      FindNodeIsFirst(n.children, id);
      FindNodeIsFirst(nodes[1..], id);
      FirstWithIdAppend([Bare(n)], Preorder(n.children), id);
      FirstWithIdAppend([Bare(n)] + Preorder(n.children), Preorder(nodes[1..]), id);
    }
  }

  /** `collectPositions` gives one place per page of the preorder walk. */
  lemma {:induction false} CollectLength(nodes: seq<Node>, parentId: Option<string>, offset: int)
    ensures |CollectFrom(nodes, parentId, offset)| == |Preorder(nodes)|
    decreases nodes
  {
    if nodes != [] {
      var n := nodes[0];
      CollectLength(n.children, Some(n.id), 0);
      CollectLength(nodes[1..], parentId, offset + 1);
    }
  }

  /** `collectPositions` lists the pages in preorder, one place per page. */
  lemma {:induction false} CollectFollowsPreorder(nodes: seq<Node>, parentId: Option<string>, offset: int)
    ensures |CollectFrom(nodes, parentId, offset)| == |Preorder(nodes)|
    ensures forall k :: 0 <= k < |Preorder(nodes)| ==> CollectFrom(nodes, parentId, offset)[k].id == Preorder(nodes)[k].id
    decreases nodes
  {
    if nodes != [] {
      var n := nodes[0];
      CollectFollowsPreorder(n.children, Some(n.id), 0);
      CollectFollowsPreorder(nodes[1..], parentId, offset + 1);
      var kids := if |n.children| > 0 then CollectFrom(n.children, Some(n.id), 0) else [];
      assert SameIds(kids, Preorder(n.children));
      var head := [Place(n.id, parentId, offset)];
      SameIdsConcat(head, kids, [Bare(n)], Preorder(n.children));
      SameIdsConcat(head + kids, CollectFrom(nodes[1..], parentId, offset + 1), [Bare(n)] + Preorder(n.children), Preorder(nodes[1..]));
    }
  }

  /** Places and pages with the same ids at the same indices. */
  predicate SameIds(ps: seq<Place>, ns: seq<Node>) {
    |ps| == |ns| && forall k :: 0 <= k < |ps| ==> ps[k].id == ns[k].id
  }

  lemma SameIdsConcat(p1: seq<Place>, p2: seq<Place>, n1: seq<Node>, n2: seq<Node>)
    requires SameIds(p1, n1) && SameIds(p2, n2)
    ensures SameIds(p1 + p2, n1 + n2)
  {
    forall k | 0 <= k < |p1 + p2| ensures (p1 + p2)[k].id == (n1 + n2)[k].id {
      if k < |p1| {
        assert (p1 + p2)[k] == p1[k] && (n1 + n2)[k] == n1[k];
      } else {
        assert (p1 + p2)[k] == p2[k - |p1|] && (n1 + n2)[k] == n2[k - |p1|];
      }
    }
  }

  // ---------------------------------------------------------------- detachNode

  /** Detach finds a page exactly when the id occurs, and leaves the forest alone when it does not. */
  lemma DetachFindsIff(nodes: seq<Node>, id: string, parentId: Option<string>, offset: int)
    ensures DetachFrom(nodes, id, parentId, offset).removed.Some? <==> id in Ids(nodes)
    ensures id !in Ids(nodes) ==> DetachFrom(nodes, id, parentId, offset).tree == nodes
  {
    DetachFinds(nodes, id, parentId, offset);
    if id !in Ids(nodes) {
      DetachKeeps(nodes, id, parentId, offset);
    }
  }

  lemma {:induction false} DetachFinds(nodes: seq<Node>, id: string, parentId: Option<string>, offset: int)
    ensures DetachFrom(nodes, id, parentId, offset).removed.Some? <==> id in Ids(nodes)
    decreases nodes
  {
    if nodes != [] {
      var n := nodes[0];
      var rest := nodes[1..];
      DetachFinds(n.children, id, Some(n.id), 0);
      DetachFinds(rest, id, parentId, offset + 1);
      assert Ids(nodes) == [n.id] + Ids(n.children) + Ids(rest);
    }
  }

  lemma {:induction false} DetachKeeps(nodes: seq<Node>, id: string, parentId: Option<string>, offset: int)
    requires id !in Ids(nodes)
    ensures DetachFrom(nodes, id, parentId, offset).tree == nodes
    decreases nodes
  {
    if nodes != [] {
      var n := nodes[0];
      var rest := nodes[1..];
      assert Ids(nodes) == [n.id] + Ids(n.children) + Ids(rest);
      DetachFinds(n.children, id, Some(n.id), 0);
      DetachKeeps(rest, id, parentId, offset + 1);
      assert nodes == [n] + rest;
    }
  }

  /** The page a detach removed and the place it reports, as `DetachReportsPlace` states them. */
  predicate ReportsPlace(nodes: seq<Node>, id: string, parentId: Option<string>, offset: int, r: Detached) {
    var k := FirstWithId(Preorder(nodes), id);
    var places := CollectFrom(nodes, parentId, offset);
    r.removed.Some? && 0 <= k < |places| && k < |Preorder(nodes)|
    && Bare(r.removed.value) == Preorder(nodes)[k]
    && places[k] == Place(id, r.parentId, r.index)
  }

  /** A place reported inside a sub-forest `sub` is at the same spot of the whole forest's walk and places. */
  lemma ReportsPlaceLift(nodes: seq<Node>, id: string, parentId: Option<string>, offset: int, r: Detached,
                         sub: seq<Node>, subParent: Option<string>, subOffset: int,
                         b: seq<Node>, d: seq<Node>, pb: seq<Place>, pd: seq<Place>)
    requires ReportsPlace(sub, id, subParent, subOffset, r)
    requires |pb| == |b| && |CollectFrom(sub, subParent, subOffset)| == |Preorder(sub)|
    requires Preorder(nodes) == b + Preorder(sub) + d
    requires CollectFrom(nodes, parentId, offset) == pb + CollectFrom(sub, subParent, subOffset) + pd
    requires FirstWithId(Preorder(nodes), id) == |b| + FirstWithId(Preorder(sub), id)
    ensures ReportsPlace(nodes, id, parentId, offset, r)
  {
    var ks := FirstWithId(Preorder(sub), id);
    assert Preorder(nodes)[|b| + ks] == Preorder(sub)[ks];
    assert CollectFrom(nodes, parentId, offset)[|b| + ks] == CollectFrom(sub, subParent, subOffset)[ks];
  }

  /**
   * Detach takes out the first page in preorder with the id and reports the
   * place `collectPositions` gives that page.
   */
  lemma {:induction false} DetachReportsPlace(nodes: seq<Node>, id: string, parentId: Option<string>, offset: int)
    requires id in Ids(nodes)
    ensures ReportsPlace(nodes, id, parentId, offset, DetachFrom(nodes, id, parentId, offset))
    decreases nodes, 1
  {
    var n := nodes[0];
    assert Ids(nodes) == [n.id] + Ids(n.children) + Ids(nodes[1..]);
    FirstWithIdNode(nodes, id);
    if n.id == id {
      var places := CollectFrom(nodes, parentId, offset);
      assert places[0] == Place(n.id, parentId, offset);
      assert Preorder(nodes)[0] == Bare(n);
    } else if id in Ids(n.children) {
      DetachReportsPlaceChild(nodes, id, parentId, offset);
    } else {
      DetachReportsPlaceRest(nodes, id, parentId, offset);
    }
  }

  /** The case of `DetachReportsPlace` where the page sits in the first node's subtree. */
  lemma {:induction false} DetachReportsPlaceChild(nodes: seq<Node>, id: string, parentId: Option<string>, offset: int)
    requires nodes != [] && nodes[0].id != id && id in Ids(nodes[0].children)
    ensures ReportsPlace(nodes, id, parentId, offset, DetachFrom(nodes, id, parentId, offset))
    decreases nodes, 0
  {
    var n := nodes[0];
    var rest := nodes[1..];
    FirstWithIdNode(nodes, id);
    DetachFindsIff(n.children, id, Some(n.id), 0);
    DetachReportsPlace(n.children, id, Some(n.id), 0);
    CollectLength(n.children, Some(n.id), 0);
    var sub := DetachFrom(n.children, id, Some(n.id), 0);
    var r := DetachFrom(nodes, id, parentId, offset);
    assert r == Detached([n.(children := sub.tree)] + rest, sub.removed, sub.parentId, sub.index);
    var pb := [Place(n.id, parentId, offset)];
    assert Preorder(nodes) == [Bare(n)] + Preorder(n.children) + Preorder(rest);
    assert CollectFrom(nodes, parentId, offset)
      == pb + CollectFrom(n.children, Some(n.id), 0) + CollectFrom(rest, parentId, offset + 1);
    ReportsPlaceLift(nodes, id, parentId, offset, r, n.children, Some(n.id), 0, [Bare(n)], Preorder(rest), pb, CollectFrom(rest, parentId, offset + 1));
  }

  /** The walk and the places of a forest, split into its first tree and the rest. */
  lemma ForestShape(nodes: seq<Node>, parentId: Option<string>, offset: int)
    requires nodes != []
    ensures var n := nodes[0];
      var pb := [Place(n.id, parentId, offset)] + (if |n.children| > 0 then CollectFrom(n.children, Some(n.id), 0) else []);
      |pb| == 1 + |Preorder(n.children)|
      && Preorder(nodes) == ([Bare(n)] + Preorder(n.children)) + Preorder(nodes[1..]) + []
      && CollectFrom(nodes, parentId, offset) == pb + CollectFrom(nodes[1..], parentId, offset + 1) + []
  {
    CollectLength(nodes[0].children, Some(nodes[0].id), 0);
  }

  /** The case of `DetachReportsPlace` where the page comes after the first node's subtree. */
  lemma {:induction false} DetachReportsPlaceRest(nodes: seq<Node>, id: string, parentId: Option<string>, offset: int)
    requires nodes != [] && nodes[0].id != id && id !in Ids(nodes[0].children) && id in Ids(nodes[1..])
    ensures ReportsPlace(nodes, id, parentId, offset, DetachFrom(nodes, id, parentId, offset))
    decreases nodes, 0
  {
    var n := nodes[0];
    var rest := nodes[1..];
    var sr := DetachFrom(rest, id, parentId, offset + 1);
    var r := DetachFrom(nodes, id, parentId, offset);
    DetachFindsIff(n.children, id, Some(n.id), 0);
    assert r == Detached([n] + sr.tree, sr.removed, sr.parentId, sr.index);
    DetachReportsPlace(rest, id, parentId, offset + 1);
    CollectLength(rest, parentId, offset + 1);
    ForestShape(nodes, parentId, offset);
    FirstWithIdNode(nodes, id);
    var pb := [Place(n.id, parentId, offset)] + (if |n.children| > 0 then CollectFrom(n.children, Some(n.id), 0) else []);
    ReportsPlaceLift(nodes, id, parentId, offset, r, rest, parentId, offset + 1, [Bare(n)] + Preorder(n.children), [], pb, []);
  }

  /** `rest` is `whole` with the run `m` that starts at `k` cut out. */
  predicate CutAt(whole: seq<Node>, k: int, m: seq<Node>, rest: seq<Node>) {
    0 <= k && k + |m| <= |whole| && whole[k..k + |m|] == m && rest == whole[..k] + whole[k + |m|..]
  }

  /** Cutting `m` out of the middle part `c` of `whole == b + c + d`, where it sits at `ks` in `c`. */
  lemma CutOutOfMiddle(b: seq<Node>, c: seq<Node>, d: seq<Node>, m: seq<Node>, ks: int, t: seq<Node>,
                       whole: seq<Node>, k: int, rest: seq<Node>)
    requires CutAt(c, ks, m, t)
    requires whole == b + c + d && k == |b| + ks && rest == b + t + d
    ensures CutAt(whole, k, m, rest)
  {
    assert whole[k..k + |m|] == c[ks..ks + |m|];
    assert whole[..k] == b + c[..ks];
    assert whole[k + |m|..] == c[ks + |m|..] + d;
  }

  /** Where the first page with the id sits in the preorder walk, by where it is in the forest. */
  lemma FirstWithIdNode(nodes: seq<Node>, id: string)
    requires nodes != []
    ensures var n := nodes[0];
      FirstWithId(Preorder(nodes), id) ==
        if n.id == id then 0
        else if id in Ids(n.children) then 1 + FirstWithId(Preorder(n.children), id)
        else if id in Ids(nodes[1..]) then 1 + |Preorder(n.children)| + FirstWithId(Preorder(nodes[1..]), id)
        else -1
  {
    var n := nodes[0];
    assert Preorder(nodes) == [Bare(n)] + Preorder(n.children) + Preorder(nodes[1..]);
    FirstWithIdAppend([Bare(n)], Preorder(n.children), id);
    FirstWithIdAppend([Bare(n)] + Preorder(n.children), Preorder(nodes[1..]), id);
    FirstWithIdIds(n.children, id);
    FirstWithIdIds(nodes[1..], id);
  }

  /** The removed subtree and the rest of the walk of a detach, as `DetachKeepsOrder` states them. */
  predicate CutsOutFirst(nodes: seq<Node>, id: string, r: Detached) {
    r.removed.Some?
    && CutAt(Preorder(nodes), FirstWithId(Preorder(nodes), id), Preorder([r.removed.value]), Preorder(r.tree))
  }

  /** A cut made inside a sub-forest `sub` is a cut of the forest whose walk is `b`, then `sub`'s walk, then `d`. */
  lemma CutsOutFirstLift(nodes: seq<Node>, id: string, r: Detached, sub: seq<Node>, sr: Detached, b: seq<Node>, d: seq<Node>)
    requires CutsOutFirst(sub, id, sr) && r.removed == sr.removed
    requires Preorder(nodes) == b + Preorder(sub) + d && Preorder(r.tree) == b + Preorder(sr.tree) + d
    requires FirstWithId(Preorder(nodes), id) == |b| + FirstWithId(Preorder(sub), id)
    ensures CutsOutFirst(nodes, id, r)
  {
    CutOutOfMiddle(b, Preorder(sub), d, Preorder([r.removed.value]), FirstWithId(Preorder(sub), id), Preorder(sr.tree),
      Preorder(nodes), FirstWithId(Preorder(nodes), id), Preorder(r.tree));
  }


  /**
   * Detach cuts the first page with the id out of the preorder walk together
   * with its subtree, and leaves every other page where it was.
   */
  lemma {:induction false} DetachKeepsOrder(nodes: seq<Node>, id: string, parentId: Option<string>, offset: int)
    requires id in Ids(nodes)
    ensures CutsOutFirst(nodes, id, DetachFrom(nodes, id, parentId, offset))
    decreases nodes, 1
  {
    var n := nodes[0];
    assert Ids(nodes) == [n.id] + Ids(n.children) + Ids(nodes[1..]);
    FirstWithIdNode(nodes, id);
    if n.id == id {
      var c := Preorder(n.children);
      assert Preorder(nodes) == [Bare(n)] + c + Preorder(nodes[1..]);
      assert Preorder([n]) == [Bare(n)] + c + Preorder([]);
    } else if id in Ids(n.children) {
      DetachKeepsOrderChild(nodes, id, parentId, offset);
    } else {
      DetachKeepsOrderRest(nodes, id, parentId, offset);
    }
  }

  /** The case of `DetachKeepsOrder` where the page sits in the first node's subtree. */
  lemma {:induction false} DetachKeepsOrderChild(nodes: seq<Node>, id: string, parentId: Option<string>, offset: int)
    requires nodes != [] && nodes[0].id != id && id in Ids(nodes[0].children)
    ensures CutsOutFirst(nodes, id, DetachFrom(nodes, id, parentId, offset))
    decreases nodes, 0
  {
    var n := nodes[0];
    var rest := nodes[1..];
    var c := Preorder(n.children);
    FirstWithIdNode(nodes, id);
    DetachFindsIff(n.children, id, Some(n.id), 0);
    DetachKeepsOrder(n.children, id, Some(n.id), 0);
    var sub := DetachFrom(n.children, id, Some(n.id), 0);
    var r := DetachFrom(nodes, id, parentId, offset);
    assert r == Detached([n.(children := sub.tree)] + rest, sub.removed, sub.parentId, sub.index);
    assert Preorder(r.tree) == [Bare(n)] + Preorder(sub.tree) + Preorder(rest) by {
      assert r.tree[1..] == rest;
      assert Bare(n.(children := sub.tree)) == Bare(n);
    }
    assert Preorder(nodes) == [Bare(n)] + c + Preorder(rest);
    CutsOutFirstLift(nodes, id, r, n.children, sub, [Bare(n)], Preorder(rest));
  }

  /** The case of `DetachKeepsOrder` where the page comes after the first node's subtree. */
  lemma {:induction false} DetachKeepsOrderRest(nodes: seq<Node>, id: string, parentId: Option<string>, offset: int)
    requires nodes != [] && nodes[0].id != id && id !in Ids(nodes[0].children) && id in Ids(nodes[1..])
    ensures CutsOutFirst(nodes, id, DetachFrom(nodes, id, parentId, offset))
    decreases nodes, 0
  {
    var n := nodes[0];
    var rest := nodes[1..];
    var head := [Bare(n)] + Preorder(n.children);
    FirstWithIdNode(nodes, id);
    DetachFindsIff(n.children, id, Some(n.id), 0);
    DetachKeepsOrder(rest, id, parentId, offset + 1);
    var sr := DetachFrom(rest, id, parentId, offset + 1);
    var r := DetachFrom(nodes, id, parentId, offset);
    assert r == Detached([n] + sr.tree, sr.removed, sr.parentId, sr.index);
    assert Preorder(r.tree) == head + Preorder(sr.tree) + [] by {
      assert r.tree[1..] == sr.tree;
    }
    assert Preorder(nodes) == head + Preorder(rest) + [];
    CutsOutFirstLift(nodes, id, r, rest, sr, head, []);
  }

  /** A page detached from directly under `parentId` was the element at `index - offset`. */
  lemma {:induction false} DetachTop(nodes: seq<Node>, id: string, parentId: Option<string>, offset: int)
    requires id in Ids(nodes)
    requires parentId.None? || parentId.value !in Ids(nodes)
    requires DetachFrom(nodes, id, parentId, offset).parentId == parentId
    ensures var r := DetachFrom(nodes, id, parentId, offset);
      var j := r.index - offset;
      0 <= j < |nodes| && r.removed == Some(nodes[j]) && r.tree == nodes[..j] + nodes[j + 1..]
    decreases nodes, 1
  {
    var n := nodes[0];
    var rest := nodes[1..];
    assert Ids(nodes) == [n.id] + Ids(n.children) + Ids(rest);
    DetachFindsIff(n.children, id, Some(n.id), 0);
    if n.id != id {
      if id in Ids(n.children) {
        var sub := DetachFrom(n.children, id, Some(n.id), 0);
        assert DetachFrom(nodes, id, parentId, offset).parentId == sub.parentId;
        DetachParentInside(n.children, id, Some(n.id), 0);
      } else {
        DetachTopRest(nodes, id, parentId, offset);
      }
    }
  }

  /** The case of `DetachTop` where the page comes after the first node's subtree. */
  lemma {:induction false} DetachTopRest(nodes: seq<Node>, id: string, parentId: Option<string>, offset: int)
    requires nodes != [] && nodes[0].id != id && id !in Ids(nodes[0].children) && id in Ids(nodes[1..])
    requires parentId.None? || parentId.value !in Ids(nodes[1..])
    requires DetachFrom(nodes, id, parentId, offset).parentId == parentId
    ensures var r := DetachFrom(nodes, id, parentId, offset);
      var j := r.index - offset;
      0 <= j < |nodes| && r.removed == Some(nodes[j]) && r.tree == nodes[..j] + nodes[j + 1..]
    decreases nodes, 0
  {
    var n := nodes[0];
    var rest := nodes[1..];
    DetachSkip(nodes, id, parentId, offset);
    var sr := DetachFrom(rest, id, parentId, offset + 1);
    DetachTop(rest, id, parentId, offset + 1);
    var j := sr.index - offset - 1;
    ConsCutOut(nodes, rest, sr.tree, j);
  }

  /** Cutting element `j` out of the rest of a list is cutting element `j + 1` out of the list. */
  lemma ConsCutOut(nodes: seq<Node>, rest: seq<Node>, cut: seq<Node>, j: int)
    requires nodes != [] && rest == nodes[1..] && 0 <= j < |rest| && cut == rest[..j] + rest[j + 1..]
    ensures [nodes[0]] + cut == nodes[..j + 1] + nodes[j + 2..] && rest[j] == nodes[j + 1]
  {
  }

  /** The reported parent is the given one, or a page of the forest. */
  lemma {:induction false} DetachParentInside(nodes: seq<Node>, id: string, parentId: Option<string>, offset: int)
    requires id in Ids(nodes)
    ensures var r := DetachFrom(nodes, id, parentId, offset);
      r.parentId == parentId || (r.parentId.Some? && r.parentId.value in Ids(nodes))
    decreases nodes
  {
    var n := nodes[0];
    var rest := nodes[1..];
    assert Ids(nodes) == [n.id] + Ids(n.children) + Ids(rest);
    DetachFindsIff(n.children, id, Some(n.id), 0);
    if n.id != id {
      if id in Ids(n.children) {
        DetachParentInside(n.children, id, Some(n.id), 0);
      } else {
        DetachParentInside(rest, id, parentId, offset + 1);
      }
    }
  }

  // ---------------------------------------------------------------- insertNode

  /** Inserting under a parent id that does not occur changes nothing. */
  lemma {:induction false} InsertAbsent(nodes: seq<Node>, x: Node, parent: string, index: int)
    requires parent !in Ids(nodes)
    ensures InsertUnder(nodes, x, parent, index) == nodes
    decreases nodes
  {
    if nodes != [] {
      assert Ids(nodes) == [nodes[0].id] + Ids(nodes[0].children) + Ids(nodes[1..]);
      InsertAbsent(nodes[0].children, x, parent, index);
      InsertAbsent(nodes[1..], x, parent, index);
      assert nodes == [nodes[0]] + nodes[1..];
    }
  }

  /** After inserting under `parent`, `findNode` sees the parent's children with `x` spliced in. */
  lemma {:induction false} FindAfterInsert(nodes: seq<Node>, x: Node, parent: string, index: int)
    ensures FindNode(InsertUnder(nodes, x, parent, index), parent) ==
      match FindNode(nodes, parent)
      case None => None
      case Some(p) => Some(p.(children := SpliceIn(p.children, index, x)))
    decreases nodes
  {
    if nodes != [] {
      var r := InsertUnder(nodes, x, parent, index);
      FindAfterInsert(nodes[0].children, x, parent, index);
      FindAfterInsert(nodes[1..], x, parent, index);
      assert r[1..] == InsertUnder(nodes[1..], x, parent, index);
    }
  }

  /** A drop inside a page makes the dragged page that page's last child. */
  lemma InsideAppends(nodes: seq<Node>, x: Node, target: string)
    requires FindNode(nodes, target).Some?
    ensures var t := InsertNode(nodes, x, Some(target), GetChildCount(nodes, target));
      FindNode(t, target).Some?
      && FindNode(t, target).value.children == FindNode(nodes, target).value.children + [x]
  {
    FindAfterInsert(nodes, x, target, GetChildCount(nodes, target));
    var c := FindNode(nodes, target).value.children;
    assert SpliceIn(c, |c|, x) == c + [x];
  }

  // ---------------------------------------------------------------- detach and insert undo each other

  /** A page found below the top level goes back where it was when inserted under its reported parent. */
  lemma {:induction false} DetachDeepUndo(nodes: seq<Node>, id: string, parentId: Option<string>, offset: int)
    requires id in Ids(nodes) && NoDuplicates(Ids(nodes))
    requires parentId.None? || parentId.value !in Ids(nodes)
    requires DetachFrom(nodes, id, parentId, offset).parentId != parentId
    ensures var r := DetachFrom(nodes, id, parentId, offset);
      r.parentId.Some? && r.parentId.value in Ids(nodes)
      && InsertUnder(r.tree, r.removed.value, r.parentId.value, r.index) == nodes
    decreases nodes, 1
  {
    var n := nodes[0];
    var rest := nodes[1..];
    assert Ids(nodes) == [n.id] + Ids(n.children) + Ids(rest);
    DetachParentInside(nodes, id, parentId, offset);
    if id in Ids(n.children) && n.id != id {
      DetachDeepUndoChild(nodes, id, parentId, offset);
    } else if n.id != id {
      DetachDeepUndoRest(nodes, id, parentId, offset);
    }
  }

  /** The case of `DetachDeepUndo` where the page comes after the first node's subtree. */
  lemma {:induction false} DetachDeepUndoRest(nodes: seq<Node>, id: string, parentId: Option<string>, offset: int)
    requires nodes != [] && nodes[0].id != id && id !in Ids(nodes[0].children) && id in Ids(nodes[1..])
    requires NoDuplicates(Ids(nodes))
    requires parentId.None? || parentId.value !in Ids(nodes)
    requires DetachFrom(nodes, id, parentId, offset).parentId != parentId
    ensures var r := DetachFrom(nodes, id, parentId, offset);
      r.parentId.Some? && InsertUnder(r.tree, r.removed.value, r.parentId.value, r.index) == nodes
    decreases nodes, 0
  {
    var n := nodes[0];
    var rest := nodes[1..];
    NoDuplicatesNodes(nodes);
    DetachSkip(nodes, id, parentId, offset);
    var sr := DetachFrom(rest, id, parentId, offset + 1);
    assert Ids(nodes) == [n.id] + Ids(n.children) + Ids(rest);
    DetachDeepUndo(rest, id, parentId, offset + 1);
    var q := sr.parentId.value;
    assert q != n.id && q !in Ids(n.children);
    InsertSkip(n, sr.tree, sr.removed.value, q, sr.index);
    assert nodes == [n] + rest;
  }

  /** The case of `DetachDeepUndo` where the page sits in the first node's subtree. */
  lemma {:induction false} DetachDeepUndoChild(nodes: seq<Node>, id: string, parentId: Option<string>, offset: int)
    requires nodes != [] && nodes[0].id != id && id in Ids(nodes[0].children) && NoDuplicates(Ids(nodes))
    requires parentId.None? || parentId.value !in Ids(nodes)
    ensures var r := DetachFrom(nodes, id, parentId, offset);
      r.parentId.Some? && InsertUnder(r.tree, r.removed.value, r.parentId.value, r.index) == nodes
    decreases nodes, 0
  {
    var n := nodes[0];
    var rest := nodes[1..];
    NoDuplicatesNodes(nodes);
    DetachInChild(nodes, id, parentId, offset);
    var sub := DetachFrom(n.children, id, Some(n.id), 0);
    DetachParentInside(n.children, id, Some(n.id), 0);
    ChildrenRestored(n, id);
    assert sub.parentId.value !in Ids(rest);
    InsertFirst(n, sub.tree, rest, sub.removed.value, sub.parentId.value, sub.index);
    assert nodes == [n] + rest;
  }

  /** A page detached from a node's subtree goes back there when inserted at its reported place. */
  lemma ChildrenRestored(n: Node, id: string)
    requires id in Ids(n.children) && NoDuplicates(Ids(n.children)) && n.id !in Ids(n.children)
    ensures var sub := DetachFrom(n.children, id, Some(n.id), 0);
      sub.removed.Some? && sub.parentId.Some?
      && (sub.parentId.value == n.id ==> SpliceIn(sub.tree, sub.index, sub.removed.value) == n.children)
      && (sub.parentId.value != n.id ==> InsertUnder(sub.tree, sub.removed.value, sub.parentId.value, sub.index) == n.children)
    decreases n.children, 2
  {
    var sub := DetachFrom(n.children, id, Some(n.id), 0);
    DetachFindsIff(n.children, id, Some(n.id), 0);
    DetachParentInside(n.children, id, Some(n.id), 0);
    if sub.parentId == Some(n.id) {
      DetachTop(n.children, id, Some(n.id), 0);
      assert SpliceIn(sub.tree, sub.index, sub.removed.value) == n.children;
    } else {
      DetachDeepUndo(n.children, id, Some(n.id), 0);
    }
  }

  /** Detach past a first node that neither is the page nor holds it goes on with the rest. */
  lemma DetachSkip(nodes: seq<Node>, id: string, parentId: Option<string>, offset: int)
    requires nodes != [] && nodes[0].id != id && id !in Ids(nodes[0].children)
    ensures var sr := DetachFrom(nodes[1..], id, parentId, offset + 1);
      DetachFrom(nodes, id, parentId, offset) == Detached([nodes[0]] + sr.tree, sr.removed, sr.parentId, sr.index)
  {
    DetachFindsIff(nodes[0].children, id, Some(nodes[0].id), 0);
  }

  /** Detach of a page inside the first node's subtree takes it out of that subtree. */
  lemma DetachInChild(nodes: seq<Node>, id: string, parentId: Option<string>, offset: int)
    requires nodes != [] && nodes[0].id != id && id in Ids(nodes[0].children)
    ensures var sub := DetachFrom(nodes[0].children, id, Some(nodes[0].id), 0);
      DetachFrom(nodes, id, parentId, offset)
        == Detached([nodes[0].(children := sub.tree)] + nodes[1..], sub.removed, sub.parentId, sub.index)
  {
    DetachFindsIff(nodes[0].children, id, Some(nodes[0].id), 0);
  }

  /** Inserting under a parent outside the first node and its subtree leaves that node alone. */
  lemma InsertSkip(n: Node, t: seq<Node>, x: Node, q: string, index: int)
    requires q != n.id && q !in Ids(n.children)
    ensures InsertUnder([n] + t, x, q, index) == [n] + InsertUnder(t, x, q, index)
  {
    InsertAbsent(n.children, x, q, index);
    assert ([n] + t)[1..] == t;
  }

  /**
   * Inserting into a first node whose children `c` the insertion turns back into
   * the node's own, with the parent outside the rest `t`, restores the node and the rest.
   */
  lemma InsertFirst(n: Node, c: seq<Node>, t: seq<Node>, x: Node, q: string, index: int)
    requires q !in Ids(t)
    requires q == n.id ==> SpliceIn(c, index, x) == n.children
    requires q != n.id ==> InsertUnder(c, x, q, index) == n.children
    ensures InsertUnder([n.(children := c)] + t, x, q, index) == [n] + t
  {
    var ins := InsertUnder([n.(children := c)] + t, x, q, index);
    assert ([n.(children := c)] + t)[1..] == t;
    InsertAbsent(t, x, q, index);
    if q != n.id && c == [] {
      assert InsertUnder(c, x, q, index) == [];
    }
    assert ins[0] == n;
  }

  /** Putting a detached page back at the reported parent and index restores the forest. */
  lemma DetachInsertUndo(nodes: seq<Node>, id: string)
    requires NoDuplicates(Ids(nodes))
    requires Detach(nodes, id).removed.Some?
    ensures var r := Detach(nodes, id);
      InsertNode(r.tree, r.removed.value, r.parentId, r.index) == nodes
  {
    var r := Detach(nodes, id);
    DetachFindsIff(nodes, id, None, 0);
    if r.parentId == None {
      DetachTop(nodes, id, None, 0);
      var j := r.index;
      assert SpliceIn(r.tree, j, r.removed.value) == nodes;
    } else {
      DetachDeepUndo(nodes, id, None, 0);
    }
  }

  // ---------------------------------------------------------------- updatePositions

  /** Two forests with the same ids at the top and the same subtree ids below have the same ids. */
  lemma {:induction false} IdsCongruent(a: seq<Node>, b: seq<Node>)
    requires |a| == |b|
    requires forall k :: 0 <= k < |a| ==> a[k].id == b[k].id && Ids(a[k].children) == Ids(b[k].children)
    ensures Ids(a) == Ids(b)
    decreases a
  {
    if a != [] {
      IdsCongruent(a[1..], b[1..]);
    }
  }

  /** Renumbering keeps every page and the order of the pages. */
  lemma {:induction false} UpdatePositionsKeepsIds(nodes: seq<Node>)
    ensures Ids(UpdatePositions(nodes)) == Ids(nodes)
    decreases nodes
  {
    var u := UpdatePositions(nodes);
    forall k | 0 <= k < |nodes| ensures Ids(u[k].children) == Ids(nodes[k].children) {
      UpdatePositionsKeepsIds(nodes[k].children);
    }
    IdsCongruent(u, nodes);
  }

  /** A forest that is already numbered is left as it is. */
  lemma {:induction false} UpdatePositionsNumbered(nodes: seq<Node>)
    requires Numbered(nodes)
    ensures UpdatePositions(nodes) == nodes
    decreases nodes
  {
    forall k | 0 <= k < |nodes| ensures UpdatePositions(nodes)[k] == nodes[k] {
      UpdatePositionsNumbered(nodes[k].children);
    }
  }

  // ---------------------------------------------------------------- handleDragEnd

  /**
   * Dropping a page between its old siblings, just before or just after
   * itself, gives back the same forest, renumbered: the index adjustment is
   * exactly what makes a forward move land in the right place.
   */
  lemma DropInPlace(nodes: seq<Node>, id: string, after: bool, depth: int)
    requires NoDuplicates(Ids(nodes)) && id in Ids(nodes) && depth <= MaxDepth
    ensures var d := Detach(nodes, id);
      var drop := Between(d.parentId, if after then d.index + 1 else d.index, depth);
      DragEnd(nodes, id, Some(drop)) == Some(Move(UpdatePositions(nodes), id, d.parentId, d.index))
  {
    DetachFindsIff(nodes, id, None, 0);
    DetachInsertUndo(nodes, id);
    var d := Detach(nodes, id);
    var position := if after then d.index + 1 else d.index;
    assert AdjustIndex(d.parentId, d.index, d.parentId, position) == d.index;
    assert InsertNode(d.tree, d.removed.value, d.parentId, d.index) == nodes;
  }
}
