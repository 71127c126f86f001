/**
 * The skeleton view of src/components/node-editor/SkinDetailView.jsx (the
 * `initialGraph` computation): the skin's joints and everything reachable
 * from them through `children`, linked by their in-skeleton children, laid
 * out as a tidy tree and each given a role.
 */
module SkinGraph {
  import opened Wrappers
  import opened Seqs
  import opened TreeLayout
  import opened SceneModel
  import opened GraphTypes
  import SceneGraph

  const VerticalSpacing: real := 100.0
  const HorizontalSpacing: real := 150.0

  /** The children of the first node with that id; none when no node has it. */
  function ChildrenOf(nodes: seq<NodeRecord>, id: string): seq<string> {
    if nodes == [] then []
    else if nodes[0].id == id then nodes[0].children
    else ChildrenOf(nodes[1..], id)
  }

  /** `ChildrenOf` reads the node `find` returns. */
  lemma {:induction false} ChildrenOfFound(nodes: seq<NodeRecord>, id: string)
    ensures SceneGraph.FindNode(nodes, id).None? ==> ChildrenOf(nodes, id) == []
    ensures SceneGraph.FindNode(nodes, id).Some? ==> ChildrenOf(nodes, id) == nodes[SceneGraph.FindNode(nodes, id).value].children
  {
    if nodes != [] && nodes[0].id != id {
      ChildrenOfFound(nodes[1..], id);
      var p := (n: NodeRecord) => n.id == id;
      assert SceneGraph.FindNode(nodes, id) == FindFirst(nodes, p);
      assert SceneGraph.FindNode(nodes[1..], id) == FindFirst(nodes[1..], p);
    }
  }

  /** Every id some node lists as a child: the ids `addDescendants` can add. */
  function ChildIdUniverse(nodes: seq<NodeRecord>): set<string> {
    set i, c | 0 <= i < |nodes| && c in nodes[i].children :: c
  }

  function Unvisited(nodes: seq<NodeRecord>, visited: seq<string>): nat {
    |ChildIdUniverse(nodes) - set x | x in visited|
  }

  /** Every child of `id` is already in the set. */
  ghost predicate Expanded(nodes: seq<NodeRecord>, id: string, visited: seq<string>) {
    forall c :: c in ChildrenOf(nodes, id) ==> c in visited
  }

  /** Each id in `v` is a joint or a child of an id that comes before it. */
  ghost predicate Derived(nodes: seq<NodeRecord>, joints: seq<string>, v: seq<string>) {
    forall i :: 0 <= i < |v| ==> v[i] in joints || ChildOfEarlier(nodes, v, i)
  }

  /** `v[j]` is a child of an id before it. */
  ghost predicate ChildOfEarlier(nodes: seq<NodeRecord>, v: seq<string>, j: nat)
    requires j < |v|
  {
    exists m :: 0 <= m < j && v[j] in ChildrenOf(nodes, v[m])
  }

  ghost predicate Extends(v: seq<string>, v': seq<string>) {
    |v| <= |v'| && forall i :: 0 <= i < |v| ==> v'[i] == v[i]
  }

  lemma {:induction false} ExtendsMembers(v: seq<string>, v': seq<string>)
    requires Extends(v, v')
    ensures forall x :: x in v ==> x in v'
    ensures forall i :: 0 <= i < |v| ==> v'[i] == v[i]
  {
    forall x | x in v ensures x in v' {
      var i :| 0 <= i < |v| && v[i] == x;
      assert v'[i] == x;
    }
  }

  /** Every id of `v` from position `lo` on is expanded. */
  ghost predicate ExpandedFrom(nodes: seq<NodeRecord>, v: seq<string>, lo: nat) {
    forall j :: lo <= j < |v| ==> Expanded(nodes, v[j], v)
  }

  /** Every id of `v` from position `lo` on is a child of an id before it. */
  ghost predicate DerivedFrom(nodes: seq<NodeRecord>, v: seq<string>, lo: nat) {
    forall j :: lo <= j < |v| ==> ChildOfEarlier(nodes, v, j)
  }

  lemma {:induction false} CardSubset(a: set<string>, b: set<string>)
    requires a <= b
    ensures |a| <= |b|
    ensures a < b ==> |a| < |b|
  {
    assert b == a + (b - a);
    assert a * (b - a) == {};
    if a < b {
      var x :| x in b - a;
    }
  }

  lemma {:induction false} UnvisitedShrinks(nodes: seq<NodeRecord>, v: seq<string>, c: string)
    requires c in ChildIdUniverse(nodes) && c !in v
    ensures Unvisited(nodes, v + [c]) < Unvisited(nodes, v)
  {
    var u := ChildIdUniverse(nodes);
    assert (set x | x in v + [c]) == (set x | x in v) + {c};
    assert c in (u - set x | x in v) && c !in (u - set x | x in v + [c]);
    CardSubset(u - (set x | x in v + [c]), u - (set x | x in v));
  }

  lemma {:induction false} UnvisitedMono(nodes: seq<NodeRecord>, v: seq<string>, v': seq<string>)
    requires Extends(v, v')
    ensures Unvisited(nodes, v') <= Unvisited(nodes, v)
  {
    ExtendsMembers(v, v');
    var u := ChildIdUniverse(nodes);
    CardSubset(u - (set x | x in v'), u - (set x | x in v));
  }

  lemma {:induction false} ExtendsTrans(a: seq<string>, b: seq<string>, c: seq<string>)
    requires Extends(a, b) && Extends(b, c)
    ensures Extends(a, c)
  {
  }

  /** Membership only grows, so expanded ids stay expanded. */
  lemma {:induction false} ExpandedGrows(nodes: seq<NodeRecord>, v: seq<string>, v': seq<string>, lo: nat)
    requires Extends(v, v') && ExpandedFrom(nodes, v, lo)
    ensures forall j :: lo <= j < |v| ==> Expanded(nodes, v'[j], v')
  {
    ExtendsMembers(v, v');
    forall j | lo <= j < |v| ensures Expanded(nodes, v'[j], v') {
      assert v'[j] == v[j];
      assert Expanded(nodes, v[j], v);
    }
  }

  /** Prefix tails keep their derivations when the sequence is extended. */
  lemma {:induction false} DerivedGrows(nodes: seq<NodeRecord>, v: seq<string>, v': seq<string>, lo: nat)
    requires Extends(v, v') && DerivedFrom(nodes, v, lo)
    ensures forall j :: lo <= j < |v| ==> ChildOfEarlier(nodes, v', j)
  {
    ExtendsMembers(v, v');
    forall j | lo <= j < |v| ensures ChildOfEarlier(nodes, v', j) {
      assert ChildOfEarlier(nodes, v, j);
      var m :| 0 <= m < j && v[j] in ChildrenOf(nodes, v[m]);
      assert v'[m] == v[m] && v'[j] == v[j];
      assert v'[j] in ChildrenOf(nodes, v'[m]);
    }
  }

  /** The state of the children loop of `addDescendants(id)` after `i` children. */
  ghost predicate Progress(nodes: seq<NodeRecord>, visited: seq<string>, children: seq<string>, i: nat, v: seq<string>) {
    && i <= |children|
    && NoDup(v) && Extends(visited, v)
    && (forall j :: 0 <= j < i ==> children[j] in v)
    && ExpandedFrom(nodes, v, |visited|) && DerivedFrom(nodes, v, |visited|)
    && Unvisited(nodes, v) <= Unvisited(nodes, visited)
  }

  /** One step of the children loop: `c` was appended and expanded. */
  lemma {:induction false} AddChildStep(nodes: seq<NodeRecord>, id: string, visited: seq<string>, before: seq<string>, after: seq<string>,
                     children: seq<string>, i: nat)
    requires id in visited && i < |children| && children == ChildrenOf(nodes, id)
    requires Progress(nodes, visited, children, i, before) && children[i] !in before
    requires NoDup(after) && Extends(before + [children[i]], after)
    requires ExpandedFrom(nodes, after, |before| + 1) && Expanded(nodes, children[i], after)
    requires DerivedFrom(nodes, after, |before| + 1)
    ensures Progress(nodes, visited, children, i + 1, after)
  {
    var c := children[i];
    assert Extends(before, before + [c]);
    ExtendsTrans(before, before + [c], after);
    ExtendsTrans(visited, before, after);
    ExpandedStep(nodes, visited, before, c, after);
    DerivedStep(nodes, id, visited, before, c, after);
    UnvisitedMono(nodes, visited, after);
    assert after[|before|] == (before + [c])[|before|];
    SeenStillIn(children, i, before, after);
  }

  lemma {:induction false} SeenStillIn(children: seq<string>, i: nat, before: seq<string>, after: seq<string>)
    requires i < |children| && children[i] in after
    requires forall j :: 0 <= j < i ==> children[j] in before
    requires Extends(before, after)
    ensures forall j :: 0 <= j < i + 1 ==> children[j] in after
  {
    ExtendsMembers(before, after);
  }

  lemma {:induction false} ExpandedStep(nodes: seq<NodeRecord>, visited: seq<string>, before: seq<string>, c: string, after: seq<string>)
    requires Extends(before, after) && Extends(before + [c], after) && |visited| <= |before|
    requires ExpandedFrom(nodes, before, |visited|)
    requires ExpandedFrom(nodes, after, |before| + 1) && Expanded(nodes, c, after)
    ensures ExpandedFrom(nodes, after, |visited|)
  {
    ExpandedGrows(nodes, before, after, |visited|);
    assert after[|before|] == (before + [c])[|before|];
  }

  lemma {:induction false} DerivedStep(nodes: seq<NodeRecord>, id: string, visited: seq<string>, before: seq<string>, c: string, after: seq<string>)
    requires id in visited && c in ChildrenOf(nodes, id)
    requires Extends(visited, before) && Extends(before, after) && Extends(before + [c], after)
    requires DerivedFrom(nodes, before, |visited|) && DerivedFrom(nodes, after, |before| + 1)
    ensures DerivedFrom(nodes, after, |visited|)
  {
    DerivedGrows(nodes, before, after, |visited|);
    ExtendsMembers(visited, before);
    var k :| 0 <= k < |visited| && visited[k] == id;
    assert after[k] == id;
    assert after[|before|] == (before + [c])[|before|];
    forall j | |visited| <= j < |after| ensures ChildOfEarlier(nodes, after, j) {
      if j == |before| {
        assert after[j] in ChildrenOf(nodes, after[k]);
      }
    }
  }

  /** A child already in the set is skipped. */
  lemma {:induction false} SkipChildStep(nodes: seq<NodeRecord>, visited: seq<string>, children: seq<string>, i: nat, v: seq<string>)
    requires Progress(nodes, visited, children, i, v) && i < |children| && children[i] in v
    ensures Progress(nodes, visited, children, i + 1, v)
  {
  }

  lemma {:induction false} NoDupAppend(v: seq<string>, c: string)
    requires NoDup(v) && c !in v
    ensures NoDup(v + [c]) && c in v + [c]
  {
    assert (v + [c])[|v|] == c;
  }

  /**
   * `addDescendants(id)` on the insertion-ordered set `visited`: every child
   * of `id` not yet in the set is added and expanded in turn. Ids are only
   * appended; `id` and every id it adds end up expanded, and each added id is
   * a child of an id before it.
   */
  method AddDescendants(nodes: seq<NodeRecord>, id: string, visited: seq<string>) returns (visited': seq<string>)
    requires id in visited && NoDup(visited)
    ensures NoDup(visited') && Extends(visited, visited')
    ensures Expanded(nodes, id, visited')
    ensures ExpandedFrom(nodes, visited', |visited|)
    ensures DerivedFrom(nodes, visited', |visited|)
    decreases Unvisited(nodes, visited)
  {
    visited' := visited;
    var found := SceneGraph.FindNode(nodes, id);
    ChildrenOfFound(nodes, id);
    if found.None? {
      return;
    }
    var children := nodes[found.value].children;
    assert Extends(visited, visited');
    for i := 0 to |children|
      invariant Progress(nodes, visited, children, i, visited')
    {
      var c := children[i];
      if c !in visited' {
        ghost var before := visited';
        assert c in ChildIdUniverse(nodes) by {
          assert c in nodes[found.value].children;
        }
        UnvisitedShrinks(nodes, before, c);
        NoDupAppend(visited', c);
        visited' := AddDescendants(nodes, c, visited' + [c]);
        AddChildStep(nodes, id, visited, before, visited', children, i);
      } else {
        SkipChildStep(nodes, visited, children, i, visited');
      }
    }
  }

  /**
   * `allSkeletonNodeIds`: the joints, in first-seen order, followed by what
   * `addDescendants` adds for each joint. The result holds every joint, is
   * closed under `children`, and every id in it is a joint or a child of an
   * earlier id.
   */
  method SkeletonIds(nodes: seq<NodeRecord>, joints: seq<string>) returns (ids: seq<string>)
    ensures NoDup(ids)
    ensures Extends(Dedupe(joints), ids)
    ensures forall j :: j in joints ==> j in ids
    ensures forall i :: 0 <= i < |ids| ==> Expanded(nodes, ids[i], ids)
    ensures Derived(nodes, joints, ids)
  {
    var initial := Dedupe(joints);
    DedupeElements(joints);
    ids := initial;
    for i := 0 to |joints|
      invariant NoDup(ids) && Extends(initial, ids)
      invariant forall j :: 0 <= j < i ==> Expanded(nodes, joints[j], ids)
      invariant ExpandedFrom(nodes, ids, |initial|)
      invariant Derived(nodes, joints, ids)
    {
      ghost var before := ids;
      ExtendsMembers(initial, before);
      assert joints[i] in initial;
      ids := AddDescendants(nodes, joints[i], ids);
      ExtendsTrans(initial, before, ids);
      ExpandedGrows(nodes, before, ids, |initial|);
      ExtendsMembers(before, ids);
      forall j | 0 <= j < i ensures Expanded(nodes, joints[j], ids) {
        assert Expanded(nodes, joints[j], before);
      }
      DerivedExtends(nodes, joints, before, ids);
    }
    ExtendsMembers(initial, ids);
    forall j | 0 <= j < |ids| ensures Expanded(nodes, ids[j], ids) {
      if j < |initial| {
        assert ids[j] in joints;
        var m :| 0 <= m < |joints| && joints[m] == ids[j];
      }
    }
  }

  lemma {:induction false} DerivedExtends(nodes: seq<NodeRecord>, joints: seq<string>, v: seq<string>, v': seq<string>)
    requires Derived(nodes, joints, v) && Extends(v, v') && DerivedFrom(nodes, v', |v|)
    ensures Derived(nodes, joints, v')
  {
    ExtendsMembers(v, v');
    forall j | 0 <= j < |v'| ensures v'[j] in joints || ChildOfEarlier(nodes, v', j) {
      if j < |v| {
        assert v'[j] == v[j];
        if v[j] !in joints {
          assert ChildOfEarlier(nodes, v, j);
          var m :| 0 <= m < j && v[j] in ChildrenOf(nodes, v[m]);
          assert v'[m] == v[m];
        }
      }
    }
  }

  /**
   * The skeleton set is the least set that holds every joint and is closed
   * under `children`: any such set contains it.
   */
  lemma {:induction false} SkeletonIdsLeast(nodes: seq<NodeRecord>, joints: seq<string>, ids: seq<string>,
                                            s: set<string>, n: nat)
    requires Derived(nodes, joints, ids) && n <= |ids|
    requires forall j :: j in joints ==> j in s
    requires forall x, c :: x in s && c in ChildrenOf(nodes, x) ==> c in s
    ensures forall i :: 0 <= i < n ==> ids[i] in s
  {
    if n > 0 {
      SkeletonIdsLeast(nodes, joints, ids, s, n - 1);
      if ids[n - 1] !in joints {
        assert ChildOfEarlier(nodes, ids, n - 1);
        var m :| 0 <= m < n - 1 && ids[n - 1] in ChildrenOf(nodes, ids[m]);
      }
    }
  }

  // ---------------------------------------------------------------- skeleton nodes and links

  /** The first node of each id, in order; ids without a node are dropped. */
  function FoundNodes(nodes: seq<NodeRecord>, ids: seq<string>): (r: seq<NodeRecord>)
    ensures |r| <= |ids|
    ensures forall i :: 0 <= i < |r| ==>
              (r[i].id in ids && SceneGraph.FindNode(nodes, r[i].id).Some? && nodes[SceneGraph.FindNode(nodes, r[i].id).value] == r[i])
    ensures forall j :: 0 <= j < |ids| && SceneGraph.FindNode(nodes, ids[j]).Some? ==> nodes[SceneGraph.FindNode(nodes, ids[j]).value] in r
  {
    if ids == [] then []
    else
      var init := ids[..|ids| - 1];
      var r := FoundNodes(nodes, init);
      var id := ids[|ids| - 1];
      assert forall j :: 0 <= j < |init| ==> init[j] == ids[j];
      match SceneGraph.FindNode(nodes, id)
      case None => r
      case Some(k) => r + [nodes[k]]
  }

  /** No two records share an id. */
  ghost predicate DistinctIds(ns: seq<NodeRecord>) {
    forall i, j :: 0 <= i < j < |ns| ==> ns[i].id != ns[j].id
  }

  /** With distinct ids the found nodes have distinct ids. */
  lemma {:induction false} FoundNodesDistinct(nodes: seq<NodeRecord>, ids: seq<string>)
    requires NoDup(ids)
    ensures DistinctIds(FoundNodes(nodes, ids))
  {
    if ids != [] {
      var init := ids[..|ids| - 1];
      assert NoDup(init) by {
        assert forall a, b :: 0 <= a < b < |init| ==> init[a] == ids[a] && init[b] == ids[b];
      }
      FoundNodesDistinct(nodes, init);
      var id := ids[|ids| - 1];
      assert id !in init;
      var r0 := FoundNodes(nodes, init);
      assert DistinctIds(r0);
      var r := FoundNodes(nodes, ids);
      var found := SceneGraph.FindNode(nodes, id);
      if found.Some? {
        var k := found.value;
        assert nodes[k].id == id;
        assert r == r0 + [nodes[k]];
        forall i, j | 0 <= i < j < |r| ensures r[i].id != r[j].id {
          assert r[i] == r0[i] && r0[i].id in init;
          if j < |r0| {
            assert r[j] == r0[j];
          } else {
            assert r[j] == nodes[k];
          }
        }
      } else {
        assert r == r0;
      }
    }
  }

  /** The `jointChildren` map after the first `n` skeleton nodes: each node's children in the set. */
  function JointChildren(skel: seq<NodeRecord>, inSkeleton: set<string>, n: nat): map<string, seq<string>>
    requires n <= |skel|
  {
    if n == 0 then map[]
    else JointChildren(skel, inSkeleton, n - 1)[skel[n - 1].id := SceneGraph.KeepIn(skel[n - 1].children, inSkeleton)]
  }

  /** The joint-parent map after each of the first `k` skeleton children of `id` is mapped to `id`. */
  function SetParent(m: map<string, string>, id: string, cs: seq<string>, k: nat): map<string, string>
    requires k <= |cs|
  {
    if k == 0 then m else SetParent(m, id, cs, k - 1)[cs[k - 1] := id]
  }

  /** The `jointParents` map after the first `n` skeleton nodes. */
  function JointParents(skel: seq<NodeRecord>, inSkeleton: set<string>, n: nat): map<string, string>
    requires n <= |skel|
  {
    if n == 0 then map[]
    else
      var cs := SceneGraph.KeepIn(skel[n - 1].children, inSkeleton);
      SetParent(JointParents(skel, inSkeleton, n - 1), skel[n - 1].id, cs, |cs|)
  }

  /** Every skeleton node has a `jointChildren` entry, and with distinct ids it is that node's in-skeleton children. */
  lemma {:induction false} JointChildrenEntries(skel: seq<NodeRecord>, inSkeleton: set<string>, n: nat)
    requires n <= |skel|
    requires DistinctIds(skel)
    ensures var m := JointChildren(skel, inSkeleton, n);
      && (forall id :: id in m <==> exists i :: 0 <= i < n && skel[i].id == id)
      && (forall i :: 0 <= i < n ==> m[skel[i].id] == SceneGraph.KeepIn(skel[i].children, inSkeleton))
  {
    if n > 0 {
      JointChildrenEntries(skel, inSkeleton, n - 1);
    }
  }

  lemma {:induction false} SetParentKeys(m: map<string, string>, id: string, cs: seq<string>, k: nat)
    requires k <= |cs|
    ensures var r := SetParent(m, id, cs, k);
      && (forall c :: c in r <==> c in m || c in cs[..k])
      && (forall c :: c in cs[..k] ==> r[c] == id)
      && (forall c :: c in m && c !in cs[..k] ==> r[c] == m[c])
  {
    if k > 0 {
      SetParentKeys(m, id, cs, k - 1);
      assert cs[..k] == cs[..k - 1] + [cs[k - 1]];
    }
  }

  /** Some of the first `n` skeleton nodes lists `c` among its in-skeleton children. */
  ghost predicate ListedChild(skel: seq<NodeRecord>, inSkeleton: set<string>, n: nat, c: string)
    requires n <= |skel|
  {
    exists i :: 0 <= i < n && c in SceneGraph.KeepIn(skel[i].children, inSkeleton)
  }

  /** One of the first `n` skeleton nodes, with id `p`, lists `c` among its in-skeleton children. */
  ghost predicate ListedBy(skel: seq<NodeRecord>, inSkeleton: set<string>, n: nat, c: string, p: string)
    requires n <= |skel|
  {
    exists i :: 0 <= i < n && p == skel[i].id && c in SceneGraph.KeepIn(skel[i].children, inSkeleton)
  }

  /**
   * A child receives a `jointParents` entry exactly when some skeleton node
   * lists it among its in-skeleton children, and the entry names such a node.
   */
  lemma {:induction false} JointParentsKeys(skel: seq<NodeRecord>, inSkeleton: set<string>, n: nat)
    requires n <= |skel|
    ensures forall c :: c in JointParents(skel, inSkeleton, n) <==> ListedChild(skel, inSkeleton, n, c)
    ensures forall c :: c in JointParents(skel, inSkeleton, n) ==> ListedBy(skel, inSkeleton, n, c, JointParents(skel, inSkeleton, n)[c])
  {
    if n > 0 {
      JointParentsKeys(skel, inSkeleton, n - 1);
      var prev := JointParents(skel, inSkeleton, n - 1);
      var id := skel[n - 1].id;
      var cs := SceneGraph.KeepIn(skel[n - 1].children, inSkeleton);
      var m := JointParents(skel, inSkeleton, n);
      assert m == SetParent(prev, id, cs, |cs|);
      SetParentKeys(prev, id, cs, |cs|);
      assert cs[..|cs|] == cs;
      forall c ensures c in m <==> ListedChild(skel, inSkeleton, n, c) {
        if c in m && c !in cs {
          assert ListedChild(skel, inSkeleton, n - 1, c);
          var i :| 0 <= i < n - 1 && c in SceneGraph.KeepIn(skel[i].children, inSkeleton);
        }
        if ListedChild(skel, inSkeleton, n, c) {
          var i :| 0 <= i < n && c in SceneGraph.KeepIn(skel[i].children, inSkeleton);
          if i < n - 1 {
            assert ListedChild(skel, inSkeleton, n - 1, c);
          }
        }
      }
      forall c | c in m ensures ListedBy(skel, inSkeleton, n, c, m[c]) {
        if c in cs {
          assert m[c] == skel[n - 1].id;
        } else {
          assert c in prev && m[c] == prev[c];
          assert ListedBy(skel, inSkeleton, n - 1, c, prev[c]);
          var i :| 0 <= i < n - 1 && prev[c] == skel[i].id && c in SceneGraph.KeepIn(skel[i].children, inSkeleton);
        }
      }
    }
  }

  /** `rootJoints`: the skeleton nodes without a `jointParents` entry. */
  function RootJoints(skel: seq<NodeRecord>, parents: map<string, string>): seq<NodeRecord> {
    Filter(skel, (n: NodeRecord) => n.id !in parents)
  }

  /** Root joints are exactly the skeleton nodes that no skeleton node lists as an in-skeleton child. */
  lemma {:induction false} RootJointsExactly(skel: seq<NodeRecord>, inSkeleton: set<string>, n: NodeRecord)
    ensures var roots := RootJoints(skel, JointParents(skel, inSkeleton, |skel|));
      n in roots <==> n in skel && forall i :: 0 <= i < |skel| ==> n.id !in SceneGraph.KeepIn(skel[i].children, inSkeleton)
  {
    JointParentsKeys(skel, inSkeleton, |skel|);
    var roots := RootJoints(skel, JointParents(skel, inSkeleton, |skel|));
    if n in roots {
      var i :| 0 <= i < |roots| && roots[i] == n;
    }
    if n in skel {
      var i :| 0 <= i < |skel| && skel[i] == n;
    }
  }

  /**
   * On a skeleton set closed under `children`, the in-skeleton filter drops
   * nothing: each skeleton node's in-skeleton children are all its children.
   */
  lemma {:induction false} SkeletonChildrenUnfiltered(nodes: seq<NodeRecord>, ids: seq<string>, i: nat)
    requires forall j :: 0 <= j < |ids| ==> Expanded(nodes, ids[j], ids)
    requires i < |FoundNodes(nodes, ids)|
    ensures var n := FoundNodes(nodes, ids)[i];
      forall c :: c in n.children ==> c in (set x | x in ids)
  {
    var n := FoundNodes(nodes, ids)[i];
    var j :| 0 <= j < |ids| && ids[j] == n.id;
    ChildrenOfFound(nodes, ids[j]);
    assert Expanded(nodes, ids[j], ids);
  }

  // ---------------------------------------------------------------- layout, roles and the graph

  /** The ids the layout finds a node for: those of any scene node. */
  function NodeIdSet(nodes: seq<NodeRecord>): set<string> {
    set i | 0 <= i < |nodes| :: nodes[i].id
  }

  function SkeletonTree(nodes: seq<NodeRecord>, children: map<string, seq<string>>): Tree {
    Tree(NodeIdSet(nodes), children, HorizontalSpacing, VerticalSpacing)
  }

  /** The skeleton's children map inherits the scene's acyclic ranking. */
  lemma {:induction false} SkeletonTreeRanked(nodes: seq<NodeRecord>, rank: map<string, nat>, skel: seq<NodeRecord>, inSkeleton: set<string>)
    requires SceneGraph.Acyclic(nodes, rank)
    requires forall i :: 0 <= i < |skel| ==> skel[i] in nodes
    ensures Ranked(SkeletonTree(nodes, JointChildren(skel, inSkeleton, |skel|)), rank)
  {
    var m := JointChildren(skel, inSkeleton, |skel|);
    JointChildrenKeysRanked(nodes, rank, skel, inSkeleton, |skel|);
  }

  lemma {:induction false} JointChildrenKeysRanked(nodes: seq<NodeRecord>, rank: map<string, nat>, skel: seq<NodeRecord>,
                                                   inSkeleton: set<string>, n: nat)
    requires SceneGraph.Acyclic(nodes, rank) && n <= |skel|
    requires forall i :: 0 <= i < |skel| ==> skel[i] in nodes
    ensures var m := JointChildren(skel, inSkeleton, n);
      forall id :: id in m ==> id in rank && forall c :: c in m[id] ==> c in rank && rank[c] < rank[id]
  {
    if n > 0 {
      JointChildrenKeysRanked(nodes, rank, skel, inSkeleton, n - 1);
      var s := skel[n - 1];
      var k :| 0 <= k < |nodes| && nodes[k] == s;
      var cs := SceneGraph.KeepIn(s.children, inSkeleton);
      forall c | c in cs ensures c in rank && rank[c] < rank[s.id] {
        var i :| 0 <= i < |cs| && cs[i] == c;
        assert c in nodes[k].children;
      }
    }
  }

  /** How a skeleton node is drawn, in priority order. */
  datatype JointRole = SkeletonRoot | Joint | EndNode

  function RoleOf(skin: SkinRecord, id: string): (r: JointRole)
    ensures r == SkeletonRoot <==> skin.skeleton == Some(id)
    ensures r == Joint <==> skin.skeleton != Some(id) && id in skin.joints
    ensures r == EndNode <==> skin.skeleton != Some(id) && id !in skin.joints
  {
    if skin.skeleton == Some(id) then SkeletonRoot
    else if id in skin.joints then Joint
    else EndNode
  }

  datatype SkeletonNode = SkeletonNode(id: string, role: JointRole, position: Pos)

  /** The skeleton view's nodes for the first `n` skeleton nodes. */
  function SkeletonEntries(skel: seq<NodeRecord>, positions: Positions, skin: SkinRecord, n: nat): (r: seq<SkeletonNode>)
    requires n <= |skel|
    ensures |r| == n
    ensures forall i :: 0 <= i < n ==> r[i].id == skel[i].id && r[i].role == RoleOf(skin, skel[i].id)
  {
    if n == 0 then []
    else
      var id := skel[n - 1].id;
      SkeletonEntries(skel, positions, skin, n - 1) + [SkeletonNode(id, RoleOf(skin, id), PositionOr(positions, id, Pos(0.0, 0.0)))]
  }

  /** The `jointChildren` entry of `id`, or none. */
  function KidsOf(children: map<string, seq<string>>, id: string): seq<string> {
    if id in children then children[id] else []
  }

  /** The skeleton view's edges for the first `n` skeleton nodes: one per listed child. */
  function SkeletonEdges(skel: seq<NodeRecord>, children: map<string, seq<string>>, n: nat): seq<GraphEdge>
    requires n <= |skel|
  {
    if n == 0 then []
    else SkeletonEdges(skel, children, n - 1) + SceneGraph.EdgesFrom(skel[n - 1].id, KidsOf(children, skel[n - 1].id), false)
  }

  lemma {:induction false} EdgesFromMembers(source: string, targets: seq<string>, e: GraphEdge)
    ensures e in SceneGraph.EdgesFrom(source, targets, false) <==> e == Edge(source, e.target, false) && e.target in targets
  {
    var es := SceneGraph.EdgesFrom(source, targets, false);
    if e in es {
      var k :| 0 <= k < |es| && es[k] == e;
    }
    if e == Edge(source, e.target, false) && e.target in targets {
      var k :| 0 <= k < |targets| && targets[k] == e.target;
      assert es[k] == e;
    }
  }

  lemma {:induction false} SkeletonEdgesMembers(skel: seq<NodeRecord>, children: map<string, seq<string>>, n: nat, e: GraphEdge)
    requires n <= |skel|
    ensures e in SkeletonEdges(skel, children, n) <==>
            exists i :: 0 <= i < n && e == Edge(skel[i].id, e.target, false) && e.target in KidsOf(children, skel[i].id)
  {
    if n > 0 {
      SkeletonEdgesMembers(skel, children, n - 1, e);
      EdgesFromMembers(skel[n - 1].id, KidsOf(children, skel[n - 1].id), e);
    }
  }

  /**
   * With distinct skeleton ids there is exactly one edge per (skeleton node,
   * in-skeleton child) pair: an edge is in the list iff its source is a
   * skeleton node and its target one of that node's in-skeleton children.
   */
  lemma {:induction false} SkeletonEdgesExactly(skel: seq<NodeRecord>, inSkeleton: set<string>, e: GraphEdge)
    requires DistinctIds(skel)
    ensures e in SkeletonEdges(skel, JointChildren(skel, inSkeleton, |skel|), |skel|) <==>
            exists i :: 0 <= i < |skel| && e == Edge(skel[i].id, e.target, false) && e.target in SceneGraph.KeepIn(skel[i].children, inSkeleton)
  {
    var m := JointChildren(skel, inSkeleton, |skel|);
    JointChildrenEntries(skel, inSkeleton, |skel|);
    SkeletonEdgesMembers(skel, m, |skel|, e);
    if e in SkeletonEdges(skel, m, |skel|) {
      var i :| 0 <= i < |skel| && e == Edge(skel[i].id, e.target, false) && e.target in KidsOf(m, skel[i].id);
      assert KidsOf(m, skel[i].id) == SceneGraph.KeepIn(skel[i].children, inSkeleton);
    }
    if i :| 0 <= i < |skel| && e == Edge(skel[i].id, e.target, false) && e.target in SceneGraph.KeepIn(skel[i].children, inSkeleton) {
      assert KidsOf(m, skel[i].id) == SceneGraph.KeepIn(skel[i].children, inSkeleton);
    }
  }

  datatype SkinView = SkinView(nodes: seq<SkeletonNode>, edges: seq<GraphEdge>)

  /** The skeleton view built over the skeleton ids `ids`. */
  function SkinViewOf(nodes: seq<NodeRecord>, skin: SkinRecord, ids: seq<string>, ghost rank: map<string, nat>): SkinView
    requires SceneGraph.Acyclic(nodes, rank)
  {
    var skel := FoundNodes(nodes, ids);
    var inSkeleton := set x | x in ids;
    var children := JointChildren(skel, inSkeleton, |skel|);
    var roots := RootJoints(skel, JointParents(skel, inSkeleton, |skel|));
    var tree := SkeletonTree(nodes, children);
    SkeletonTreeRanked(nodes, rank, skel, inSkeleton);
    var rootIds := SceneGraph.IdsOf(roots);
    var positions := Forest(tree, rank, rootIds, |rootIds|, map[]).1;
    SkinView(SkeletonEntries(skel, positions, skin, |skel|), SkeletonEdges(skel, children, |skel|))
  }

  /**
   * One view node per skeleton id that has a scene node, in skeleton order,
   * with distinct ids and the role its id calls for.
   */
  lemma {:induction false} SkinViewNodes(nodes: seq<NodeRecord>, skin: SkinRecord, ids: seq<string>, rank: map<string, nat>)
    requires SceneGraph.Acyclic(nodes, rank) && NoDup(ids)
    ensures var view := SkinViewOf(nodes, skin, ids, rank);
      && |view.nodes| == |FoundNodes(nodes, ids)| <= |ids|
      && (forall i :: 0 <= i < |view.nodes| ==> view.nodes[i].id in ids && view.nodes[i].role == RoleOf(skin, view.nodes[i].id))
      && (forall i, j :: 0 <= i < j < |view.nodes| ==> view.nodes[i].id != view.nodes[j].id)
      && (forall j :: 0 <= j < |ids| && SceneGraph.FindNode(nodes, ids[j]).Some? ==> exists i :: 0 <= i < |view.nodes| && view.nodes[i].id == ids[j])
  {
    var skel := FoundNodes(nodes, ids);
    FoundNodesDistinct(nodes, ids);
    var view := SkinViewOf(nodes, skin, ids, rank);
    forall j | 0 <= j < |ids| && SceneGraph.FindNode(nodes, ids[j]).Some?
      ensures exists i :: 0 <= i < |view.nodes| && view.nodes[i].id == ids[j]
    {
      var k := SceneGraph.FindNode(nodes, ids[j]).value;
      assert nodes[k].id == ids[j];
      var i :| 0 <= i < |skel| && skel[i] == nodes[k];
      assert view.nodes[i].id == ids[j];
    }
  }

  // ---------------------------------------------------------------- the builder

  /** The loop filling `jointChildren` and `jointParents`. */
  method LinkSkeleton(skel: seq<NodeRecord>, inSkeleton: set<string>)
    returns (jointChildren: map<string, seq<string>>, jointParents: map<string, string>)
    ensures jointChildren == JointChildren(skel, inSkeleton, |skel|)
    ensures jointParents == JointParents(skel, inSkeleton, |skel|)
  {
    jointChildren, jointParents := map[], map[];
    for i := 0 to |skel|
      invariant jointChildren == JointChildren(skel, inSkeleton, i)
      invariant jointParents == JointParents(skel, inSkeleton, i)
    {
      var node := skel[i];
      var childrenInSkeleton := SceneGraph.KeepIn(node.children, inSkeleton);
      jointChildren := jointChildren[node.id := childrenInSkeleton];
      ghost var before := jointParents;
      for k := 0 to |childrenInSkeleton|
        invariant jointParents == SetParent(before, node.id, childrenInSkeleton, k)
      {
        jointParents := jointParents[childrenInSkeleton[k] := node.id];
      }
    }
  }

  /** The loop pushing one view node and its child edges per skeleton node. */
  method AddSkeletonNodes(skel: seq<NodeRecord>, children: map<string, seq<string>>, positions: Positions, skin: SkinRecord)
    returns (viewNodes: seq<SkeletonNode>, viewEdges: seq<GraphEdge>)
    ensures viewNodes == SkeletonEntries(skel, positions, skin, |skel|)
    ensures viewEdges == SkeletonEdges(skel, children, |skel|)
  {
    viewNodes, viewEdges := [], [];
    for i := 0 to |skel|
      invariant viewNodes == SkeletonEntries(skel, positions, skin, i)
      invariant viewEdges == SkeletonEdges(skel, children, i)
    {
      var joint := skel[i];
      var position := PositionOr(positions, joint.id, Pos(0.0, 0.0));
      var isSkeletonRoot := skin.skeleton == Some(joint.id);
      var isActualJoint := joint.id in skin.joints;
      var role := if isSkeletonRoot then SkeletonRoot else if isActualJoint then Joint else EndNode;
      viewNodes := viewNodes + [SkeletonNode(joint.id, role, position)];
      var childIds := if joint.id in children then children[joint.id] else [];
      viewEdges := SceneGraph.AddEdgesFrom(joint.id, childIds, viewEdges);
    }
  }

  /**
   * `initialGraph`: empty without a skin or a scene; otherwise the view over
   * the skeleton ids, which are returned with the closure properties that
   * pin them down as a set.
   */
  method BuildSkinGraph(skin: Option<SkinRecord>, scene: Option<SceneData>, ghost rank: map<string, nat>)
    returns (view: SkinView, ghost ids: seq<string>)
    requires scene.Some? ==> SceneGraph.Acyclic(scene.value.nodes, rank)
    ensures skin.None? || scene.None? ==> view == SkinView([], [])
    ensures skin.Some? && scene.Some? ==>
      && view == SkinViewOf(scene.value.nodes, skin.value, ids, rank)
      && NoDup(ids)
      && Extends(Dedupe(skin.value.joints), ids)
      && (forall i :: 0 <= i < |ids| ==> Expanded(scene.value.nodes, ids[i], ids))
      && Derived(scene.value.nodes, skin.value.joints, ids)
  {
    ids := [];
    if skin.None? || scene.None? {
      view := SkinView([], []);
      return;
    }
    var nodes := scene.value.nodes;
    var allSkeletonNodeIds := SkeletonIds(nodes, skin.value.joints);
    ids := allSkeletonNodeIds;
    var skeletonNodes := FoundNodes(nodes, allSkeletonNodeIds);
    var inSkeleton := set x | x in allSkeletonNodeIds;
    var jointChildren, jointParents := LinkSkeleton(skeletonNodes, inSkeleton);
    var rootJoints := RootJoints(skeletonNodes, jointParents);
    var tree := SkeletonTree(nodes, jointChildren);
    SkeletonTreeRanked(nodes, rank, skeletonNodes, inSkeleton);
    var positions := LayoutForest(tree, rank, SceneGraph.IdsOf(rootJoints));
    var viewNodes, viewEdges := AddSkeletonNodes(skeletonNodes, jointChildren, positions, skin.value);
    view := SkinView(viewNodes, viewEdges);
  }
}
