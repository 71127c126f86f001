/**
 * The tidy-tree layout shared by the scene graph (`layoutNodeTree` in
 * src/utils/graph/graphBuilder.js) and the skeleton view (`layoutJointTree` in
 * src/components/node-editor/SkinDetailView.jsx). The two differ only in the
 * spacing constants, in which ids count as present and in the children map,
 * so both are instances of `Tree`.
 *
 * A leaf takes one column of width `h` at its start x; a parent spans its
 * children side by side and sits at the midpoint of its first and last
 * child. Row `level` is drawn at `y = level * v + 50`.
 */
module TreeLayout {

  datatype Pos = Pos(x: real, y: real)

  type Positions = map<string, Pos>

  /** The width and the centre x that a layout call returns. */
  datatype Placed = Placed(width: real, centerX: real)

  /**
   * `present`: the ids the layout finds a node for; `kids`: the children map
   * (an id without an entry has no children); `h`, `v`: the spacings.
   */
  datatype Tree = Tree(present: set<string>, kids: map<string, seq<string>>, h: real, v: real)

  function KidsOf(t: Tree, id: string): seq<string> {
    if id in t.kids then t.kids[id] else []
  }

  function Row(t: Tree, level: nat): real {
    level as real * t.v + 50.0
  }

  /**
   * The layout recursion terminates only on an acyclic children map; `rank`
   * witnesses that: every child ranks below its parent. On a cyclic map the
   * source recurses without end, which this model does not cover.
   */
  ghost predicate Ranked(t: Tree, rank: map<string, nat>) {
    forall id :: id in t.kids ==>
      id in rank && forall c :: c in t.kids[id] ==> c in rank && rank[c] < rank[id]
  }

  function Rank(rank: map<string, nat>, id: string): nat {
    if id in rank then rank[id] else 0
  }

  ghost predicate Below(rank: map<string, nat>, ks: seq<string>, bound: nat) {
    forall i :: 0 <= i < |ks| ==> Rank(rank, ks[i]) < bound
  }

  lemma {:induction false} KidsBelow(t: Tree, rank: map<string, nat>, id: string)
    requires Ranked(t, rank)
    ensures Below(rank, KidsOf(t, id), Rank(rank, id))
  {
    if id in t.kids {
      forall i | 0 <= i < |t.kids[id]|
        ensures Rank(rank, t.kids[id][i]) < Rank(rank, id)
      {
        assert t.kids[id][i] in t.kids[id];
      }
    }
  }

  /** The sum of the children's widths. */
  function SumWidths(ls: seq<Placed>): real {
    if ls == [] then 0.0 else SumWidths(ls[..|ls| - 1]) + ls[|ls| - 1].width
  }

  lemma {:induction false} SumWidthsAppend(ls: seq<Placed>, l: Placed)
    ensures SumWidths(ls + [l]) == SumWidths(ls) + l.width
  {
    assert (ls + [l])[..|ls|] == ls;
  }

  /** One layout call: its result and the position map after it. */
  function Subtree(t: Tree, ghost rank: map<string, nat>, id: string, x: real, level: nat, pos: Positions)
    : (Placed, Positions)
    requires Ranked(t, rank)
    decreases Rank(rank, id) + 1, 0
  {
    if id !in t.present then (Placed(0.0, x), pos)
    else
      var ks := KidsOf(t, id);
      if ks == [] then (Placed(t.h, x), pos[id := Pos(x, Row(t, level))])
      else
        KidsBelow(t, rank, id);
        var r := Children(t, rank, ks, |ks|, Rank(rank, id), x, level + 1, pos);
        var center := (r.0[0].centerX + r.0[|r.0| - 1].centerX) / 2.0;
        (Placed(SumWidths(r.0), center), r.1[id := Pos(center, Row(t, level))])
  }

  /**
   * The loop over the first `n` children: each child starts where the previous
   * one's width ends.
   */
  function Children(t: Tree, ghost rank: map<string, nat>, ks: seq<string>, n: nat, ghost bound: nat,
                    x: real, level: nat, pos: Positions): (r: (seq<Placed>, Positions))
    requires Ranked(t, rank) && n <= |ks| && Below(rank, ks, bound)
    ensures |r.0| == n
    decreases bound, n
  {
    if n == 0 then ([], pos)
    else
      var r := Children(t, rank, ks, n - 1, bound, x, level, pos);
      var s := Subtree(t, rank, ks[n - 1], x + SumWidths(r.0), level, r.1);
      (r.0 + [s.0], s.1)
  }

  /**
   * A subtree occupies the x-interval `[x, x + width]`: its centre lies there,
   * every position it writes lies there, it keeps every position it does not
   * write, and a present node is placed at its centre on its row.
   */
  lemma {:induction false} SubtreeBounds(t: Tree, rank: map<string, nat>, id: string, x: real, level: nat, pos: Positions)
    requires Ranked(t, rank) && t.h >= 0.0
    ensures SubtreeWithin(pos, x, Subtree(t, rank, id, x, level, pos))
    ensures var r := Subtree(t, rank, id, x, level, pos);
      id in t.present ==> id in r.1 && r.1[id] == Pos(r.0.centerX, Row(t, level))
    decreases Rank(rank, id) + 1, 0
  {
    var ks := KidsOf(t, id);
    if id in t.present && ks != [] {
      KidsBelow(t, rank, id);
      ChildrenBounds(t, rank, ks, |ks|, Rank(rank, id), x, level + 1, pos);
    }
  }

  /** The layout `s` of one subtree started at `x` occupies `[x, x + width]` over the positions `pos` it started from. */
  ghost predicate SubtreeWithin(pos: Positions, x: real, s: (Placed, Positions)) {
    && s.0.width >= 0.0
    && x <= s.0.centerX <= x + s.0.width
    && (forall k {:trigger k in s.1} :: k in pos ==> k in s.1)
    && (forall k {:trigger s.1[k]} :: k in s.1 ==> (k in pos && s.1[k] == pos[k]) || x <= s.1[k].x <= x + s.0.width)
  }

  /** The laid-out children together occupy `[x, x + SumWidths]`, in the same sense as `SubtreeBounds`. */
  ghost predicate ChildrenWithin(pos: Positions, x: real, r: (seq<Placed>, Positions)) {
    && SumWidths(r.0) >= 0.0
    && (forall i :: 0 <= i < |r.0| ==> x <= r.0[i].centerX <= x + SumWidths(r.0))
    && (forall k {:trigger k in r.1} :: k in pos ==> k in r.1)
    && (forall k {:trigger r.1[k]} :: k in r.1 ==> (k in pos && r.1[k] == pos[k]) || x <= r.1[k].x <= x + SumWidths(r.0))
  }

  lemma {:induction false} ChildrenBounds(t: Tree, rank: map<string, nat>, ks: seq<string>, n: nat, bound: nat,
                                          x: real, level: nat, pos: Positions)
    requires Ranked(t, rank) && t.h >= 0.0 && n <= |ks| && Below(rank, ks, bound)
    ensures ChildrenWithin(pos, x, Children(t, rank, ks, n, bound, x, level, pos))
    decreases bound, n + 1
  {
    if n > 0 {
      ChildrenBounds(t, rank, ks, n - 1, bound, x, level, pos);
      var r := Children(t, rank, ks, n - 1, bound, x, level, pos);
      ChildBounds(t, rank, ks[n - 1], bound, x + SumWidths(r.0), level, r.1);
      ChildrenBoundsNext(t, rank, ks, n, bound, x, level, pos);
    }
  }

  /** A child ranked below `bound` lies within the interval it is started at. */
  lemma {:induction false} ChildBounds(t: Tree, rank: map<string, nat>, id: string, bound: nat,
                                       x: real, level: nat, pos: Positions)
    requires Ranked(t, rank) && t.h >= 0.0 && Rank(rank, id) < bound
    ensures SubtreeWithin(pos, x, Subtree(t, rank, id, x, level, pos))
    decreases bound, 1
  {
    SubtreeBounds(t, rank, id, x, level, pos);
  }

  /** The step of `ChildrenBounds`: the next child's interval starts where the previous ones end. */
  lemma {:induction false} ChildrenBoundsNext(t: Tree, rank: map<string, nat>, ks: seq<string>, n: nat, bound: nat,
                                              x: real, level: nat, pos: Positions)
    requires Ranked(t, rank) && 0 < n <= |ks| && Below(rank, ks, bound)
    requires var r := Children(t, rank, ks, n - 1, bound, x, level, pos);
      && ChildrenWithin(pos, x, r)
      && SubtreeWithin(r.1, x + SumWidths(r.0), Subtree(t, rank, ks[n - 1], x + SumWidths(r.0), level, r.1))
    ensures ChildrenWithin(pos, x, Children(t, rank, ks, n, bound, x, level, pos))
  {
    var r := Children(t, rank, ks, n - 1, bound, x, level, pos);
    var s := Subtree(t, rank, ks[n - 1], x + SumWidths(r.0), level, r.1);
    ChildrenLast(t, rank, ks, n, bound, x, level, pos);
    WithinAppend(pos, x, r, s, Children(t, rank, ks, n, bound, x, level, pos));
  }

  /** The layout of `n` children is that of the first `n - 1` with the last child's appended. */
  lemma {:induction false} ChildrenLast(t: Tree, rank: map<string, nat>, ks: seq<string>, n: nat, bound: nat,
                                        x: real, level: nat, pos: Positions)
    requires Ranked(t, rank) && 0 < n <= |ks| && Below(rank, ks, bound)
    ensures var r := Children(t, rank, ks, n - 1, bound, x, level, pos);
      var s := Subtree(t, rank, ks[n - 1], x + SumWidths(r.0), level, r.1);
      var c := Children(t, rank, ks, n, bound, x, level, pos);
      c.0 == r.0 + [s.0] && c.1 == s.1
  {
  }

  /** One more child: its layout is appended, and its width added. */
  lemma {:induction false} ChildrenStep(t: Tree, rank: map<string, nat>, ks: seq<string>, n: nat, bound: nat,
                                        x: real, level: nat, pos: Positions)
    requires Ranked(t, rank) && 0 < n <= |ks| && Below(rank, ks, bound)
    ensures var r := Children(t, rank, ks, n - 1, bound, x, level, pos);
      var s := Subtree(t, rank, ks[n - 1], x + SumWidths(r.0), level, r.1);
      var c := Children(t, rank, ks, n, bound, x, level, pos);
      c == (r.0 + [s.0], s.1) && SumWidths(c.0) == SumWidths(r.0) + s.0.width
  {
    var r := Children(t, rank, ks, n - 1, bound, x, level, pos);
    var s := Subtree(t, rank, ks[n - 1], x + SumWidths(r.0), level, r.1);
    SumWidthsAppend(r.0, s.0);
  }

  /** Appending a layout that lies in the next interval keeps the children within theirs. */
  lemma {:induction false} WithinAppend(pos: Positions, x: real, r: (seq<Placed>, Positions), s: (Placed, Positions),
                                       c: (seq<Placed>, Positions))
    requires ChildrenWithin(pos, x, r)
    requires SubtreeWithin(r.1, x + SumWidths(r.0), s)
    requires c.0 == r.0 + [s.0] && c.1 == s.1
    ensures ChildrenWithin(pos, x, c)
  {
    SumWidthsAppend(r.0, s.0);
    forall i | 0 <= i < |c.0|
      ensures x <= c.0[i].centerX <= x + SumWidths(c.0)
    {
      if i < |r.0| {
        assert c.0[i] == r.0[i];
      }
    }
  }

  /** The width a subtree takes, from the tree alone: a leaf is `h` wide, a parent as wide as its children together. */
  function Width(t: Tree, ghost rank: map<string, nat>, id: string): real
    requires Ranked(t, rank)
    decreases Rank(rank, id) + 1, 0
  {
    if id !in t.present then 0.0
    else
      var ks := KidsOf(t, id);
      if ks == [] then t.h
      else
        KidsBelow(t, rank, id);
        KidsWidth(t, rank, ks, |ks|, Rank(rank, id))
  }

  function KidsWidth(t: Tree, ghost rank: map<string, nat>, ks: seq<string>, n: nat, ghost bound: nat): real
    requires Ranked(t, rank) && n <= |ks| && Below(rank, ks, bound)
    decreases bound, n
  {
    if n == 0 then 0.0 else KidsWidth(t, rank, ks, n - 1, bound) + Width(t, rank, ks[n - 1])
  }

  /** A laid-out subtree is exactly `Width` wide, wherever and whenever it is laid out. */
  lemma {:induction false} SubtreeWidth(t: Tree, rank: map<string, nat>, id: string, x: real, level: nat, pos: Positions)
    requires Ranked(t, rank)
    ensures Subtree(t, rank, id, x, level, pos).0.width == Width(t, rank, id)
    decreases Rank(rank, id) + 1, 0
  {
    var ks := KidsOf(t, id);
    if id in t.present && ks != [] {
      KidsBelow(t, rank, id);
      ChildrenWidth(t, rank, ks, |ks|, Rank(rank, id), x, level + 1, pos);
    }
  }

  lemma {:induction false} ChildrenWidth(t: Tree, rank: map<string, nat>, ks: seq<string>, n: nat, bound: nat,
                                         x: real, level: nat, pos: Positions)
    requires Ranked(t, rank) && n <= |ks| && Below(rank, ks, bound)
    ensures SumWidths(Children(t, rank, ks, n, bound, x, level, pos).0) == KidsWidth(t, rank, ks, n, bound)
    decreases bound, n, 1
  {
    if n > 0 {
      ChildrenWidth(t, rank, ks, n - 1, bound, x, level, pos);
      ChildWidth(t, rank, ks, n, bound, x, level, pos);
      ChildrenWidthNext(t, rank, ks, n, bound, x, level, pos);
    }
  }

  /** The last of the first `n` children is as wide as its `Width`. */
  lemma {:induction false} ChildWidth(t: Tree, rank: map<string, nat>, ks: seq<string>, n: nat, bound: nat,
                                      x: real, level: nat, pos: Positions)
    requires Ranked(t, rank) && 0 < n <= |ks| && Below(rank, ks, bound)
    ensures var r := Children(t, rank, ks, n - 1, bound, x, level, pos);
      Subtree(t, rank, ks[n - 1], x + SumWidths(r.0), level, r.1).0.width == Width(t, rank, ks[n - 1])
    decreases bound, n, 0
  {
    var r := Children(t, rank, ks, n - 1, bound, x, level, pos);
    SubtreeWidth(t, rank, ks[n - 1], x + SumWidths(r.0), level, r.1);
  }

  /** The step of `ChildrenWidth`: one more child adds its own width. */
  lemma {:induction false} ChildrenWidthNext(t: Tree, rank: map<string, nat>, ks: seq<string>, n: nat, bound: nat,
                                             x: real, level: nat, pos: Positions)
    requires Ranked(t, rank) && 0 < n <= |ks| && Below(rank, ks, bound)
    requires var r := Children(t, rank, ks, n - 1, bound, x, level, pos);
      && SumWidths(r.0) == KidsWidth(t, rank, ks, n - 1, bound)
      && Subtree(t, rank, ks[n - 1], x + SumWidths(r.0), level, r.1).0.width == Width(t, rank, ks[n - 1])
    ensures SumWidths(Children(t, rank, ks, n, bound, x, level, pos).0) == KidsWidth(t, rank, ks, n, bound)
  {
    ChildrenStep(t, rank, ks, n, bound, x, level, pos);
  }

  /** The layouts of a node's children, in order, as its layout call computes them. */
  function Laid(t: Tree, ghost rank: map<string, nat>, id: string, x: real, level: nat, pos: Positions): (r: seq<Placed>)
    requires Ranked(t, rank)
    ensures |r| == |KidsOf(t, id)|
  {
    KidsBelow(t, rank, id);
    Children(t, rank, KidsOf(t, id), |KidsOf(t, id)|, Rank(rank, id), x, level + 1, pos).0
  }

  /**
   * The placement rules: a present leaf is `h` wide and sits at its start x
   * on its row; a present parent is as wide as the `Width` of its children
   * together and sits on its row at the midpoint of its first and last
   * child's centres.
   */
  lemma {:induction false} LayoutRules(t: Tree, rank: map<string, nat>, id: string, x: real, level: nat, pos: Positions)
    requires Ranked(t, rank) && id in t.present
    ensures var r := Subtree(t, rank, id, x, level, pos);
      && (KidsOf(t, id) == [] ==> r.0 == Placed(t.h, x) && id in r.1 && r.1[id] == Pos(x, Row(t, level)))
      && (KidsOf(t, id) != [] ==>
            var cs := Laid(t, rank, id, x, level, pos);
            && r.0.width == Width(t, rank, id)
            && r.0.centerX == (cs[0].centerX + cs[|cs| - 1].centerX) / 2.0
            && id in r.1 && r.1[id] == Pos(r.0.centerX, Row(t, level)))
  {
    SubtreeWidth(t, rank, id, x, level, pos);
    if KidsOf(t, id) != [] {
      ParentUnfold(t, rank, id, x, level, pos);
    }
  }

  /** One unfolding of a present parent's layout call. */
  lemma {:induction false} ParentUnfold(t: Tree, rank: map<string, nat>, id: string, x: real, level: nat, pos: Positions)
    requires Ranked(t, rank) && id in t.present && KidsOf(t, id) != []
    ensures var cs := Laid(t, rank, id, x, level, pos);
      var center := (cs[0].centerX + cs[|cs| - 1].centerX) / 2.0;
      var r := Subtree(t, rank, id, x, level, pos);
      r.0.centerX == center && id in r.1 && r.1[id] == Pos(center, Row(t, level))
  {
    KidsBelow(t, rank, id);
  }

  /** Laying out more children never changes the ones laid out before: child `j` is the same among the first `m` as among the first `n`. */
  lemma {:induction false} ChildrenPrefix(t: Tree, rank: map<string, nat>, ks: seq<string>, n: nat, m: nat, j: nat, bound: nat,
                                          x: real, level: nat, pos: Positions)
    requires Ranked(t, rank) && j < m <= n <= |ks| && Below(rank, ks, bound)
    ensures Children(t, rank, ks, n, bound, x, level, pos).0[j] == Children(t, rank, ks, m, bound, x, level, pos).0[j]
    decreases n
  {
    if m < n {
      ChildrenPrefix(t, rank, ks, n - 1, m, j, bound, x, level, pos);
      ChildrenPrefixNext(t, rank, ks, n, j, bound, x, level, pos);
    }
  }

  /** The step of `ChildrenPrefix`: the `n`-th child leaves the earlier ones as they were. */
  lemma {:induction false} ChildrenPrefixNext(t: Tree, rank: map<string, nat>, ks: seq<string>, n: nat, j: nat, bound: nat,
                                              x: real, level: nat, pos: Positions)
    requires Ranked(t, rank) && j < n - 1 && n <= |ks| && Below(rank, ks, bound)
    ensures Children(t, rank, ks, n, bound, x, level, pos).0[j] == Children(t, rank, ks, n - 1, bound, x, level, pos).0[j]
  {
    ChildrenLast(t, rank, ks, n, bound, x, level, pos);
    var r := Children(t, rank, ks, n - 1, bound, x, level, pos);
    var s := Subtree(t, rank, ks[n - 1], x + SumWidths(r.0), level, r.1);
    AppendIndex(Children(t, rank, ks, n, bound, x, level, pos).0, r.0, s.0, j);
  }

  lemma {:induction false} AppendIndex(a: seq<Placed>, b: seq<Placed>, p: Placed, j: nat)
    requires a == b + [p] && j <= |b|
    ensures a[j] == if j < |b| then b[j] else p
  {
  }

  /**
   * Children sit side by side: child `i` is laid out starting at `x` plus the
   * `Width` of the children before it, after their positions are written.
   */
  lemma {:induction false} ChildStart(t: Tree, rank: map<string, nat>, ks: seq<string>, n: nat, i: nat, bound: nat,
                                      x: real, level: nat, pos: Positions)
    requires Ranked(t, rank) && i < n <= |ks| && Below(rank, ks, bound)
    ensures var before := Children(t, rank, ks, i, bound, x, level, pos);
      Children(t, rank, ks, n, bound, x, level, pos).0[i]
        == Subtree(t, rank, ks[i], x + KidsWidth(t, rank, ks, i, bound), level, before.1).0
  {
    ChildAt(t, rank, ks, n, i, bound, x, level, pos);
    ChildrenWidth(t, rank, ks, i, bound, x, level, pos);
  }

  /** Child `i` is laid out after the children before it, starting where their widths end. */
  lemma {:induction false} ChildAt(t: Tree, rank: map<string, nat>, ks: seq<string>, n: nat, i: nat, bound: nat,
                                   x: real, level: nat, pos: Positions)
    requires Ranked(t, rank) && i < n <= |ks| && Below(rank, ks, bound)
    ensures var r := Children(t, rank, ks, i, bound, x, level, pos);
      Children(t, rank, ks, n, bound, x, level, pos).0[i] == Subtree(t, rank, ks[i], x + SumWidths(r.0), level, r.1).0
  {
    ChildrenPrefix(t, rank, ks, n, i + 1, i, bound, x, level, pos);
    ChildLast(t, rank, ks, i, bound, x, level, pos);
  }

  /** Child `i` of the first `i + 1` is the layout of `ks[i]` after the `i` before it. */
  lemma {:induction false} ChildLast(t: Tree, rank: map<string, nat>, ks: seq<string>, i: nat, bound: nat,
                                     x: real, level: nat, pos: Positions)
    requires Ranked(t, rank) && i < |ks| && Below(rank, ks, bound)
    ensures var r := Children(t, rank, ks, i, bound, x, level, pos);
      Children(t, rank, ks, i + 1, bound, x, level, pos).0[i] == Subtree(t, rank, ks[i], x + SumWidths(r.0), level, r.1).0
  {
    ChildrenLast(t, rank, ks, i + 1, bound, x, level, pos);
    var r := Children(t, rank, ks, i, bound, x, level, pos);
    var s := Subtree(t, rank, ks[i], x + SumWidths(r.0), level, r.1);
    AppendIndex(Children(t, rank, ks, i + 1, bound, x, level, pos).0, r.0, s.0, i);
  }

  /** A subtree's width depends only on the tree below it, not on where or when it is laid out. */
  lemma {:induction false} SubtreeWidthIndependent(t: Tree, rank: map<string, nat>, id: string,
                                x1: real, level1: nat, pos1: Positions,
                                x2: real, level2: nat, pos2: Positions)
    requires Ranked(t, rank)
    ensures Subtree(t, rank, id, x1, level1, pos1).0.width == Subtree(t, rank, id, x2, level2, pos2).0.width
  {
    SubtreeWidth(t, rank, id, x1, level1, pos1);
    SubtreeWidth(t, rank, id, x2, level2, pos2);
  }

  /** `layoutNodeTree(nodeId, startX, level)`, writing into the position map as it recurses. */
  method LayoutTree(t: Tree, ghost rank: map<string, nat>, id: string, x: real, level: nat, positions: Positions)
    returns (placed: Placed, positions': Positions)
    requires Ranked(t, rank)
    ensures (placed, positions') == Subtree(t, rank, id, x, level, positions)
    decreases Rank(rank, id) + 1, 0
  {
    if id !in t.present {
      return Placed(0.0, x), positions;
    }
    var ks := KidsOf(t, id);
    if ks == [] {
      return Placed(t.h, x), positions[id := Pos(x, Row(t, level))];
    }
    KidsBelow(t, rank, id);
    var childX := x;
    var layouts: seq<Placed> := [];
    positions' := positions;
    for j := 0 to |ks|
      invariant (layouts, positions') == Children(t, rank, ks, j, Rank(rank, id), x, level + 1, positions)
      invariant childX == x + SumWidths(layouts)
    {
      var layout, after := LayoutTree(t, rank, ks[j], childX, level + 1, positions');
      assert Children(t, rank, ks, j + 1, Rank(rank, id), x, level + 1, positions) == (layouts + [layout], after);
      SumWidthsAppend(layouts, layout);
      layouts, positions' := layouts + [layout], after;
      childX := childX + layout.width;
    }
    var totalWidth := SumWidths(layouts);
    var parentCenterX := (layouts[0].centerX + layouts[|layouts| - 1].centerX) / 2.0;
    positions' := positions'[id := Pos(parentCenterX, Row(t, level))];
    placed := Placed(totalWidth, parentCenterX);
  }

  /** The root loop over the first `n` roots: each tree starts one spacing right of the previous one. */
  function Forest(t: Tree, ghost rank: map<string, nat>, roots: seq<string>, n: nat, pos: Positions): (real, Positions)
    requires Ranked(t, rank) && n <= |roots|
  {
    if n == 0 then (0.0, pos)
    else
      var r := Forest(t, rank, roots, n - 1, pos);
      var s := Subtree(t, rank, roots[n - 1], r.0, 0, r.1);
      (r.0 + s.0.width + t.h, s.1)
  }

  /**
   * Every position the forest adds has a non-negative x, every position it
   * does not write is kept, and every present root is placed.
   */
  lemma {:induction false} ForestBounds(t: Tree, rank: map<string, nat>, roots: seq<string>, n: nat, pos: Positions)
    requires Ranked(t, rank) && t.h >= 0.0 && n <= |roots|
    ensures var r := Forest(t, rank, roots, n, pos);
      && r.0 >= 0.0
      && (forall k :: k in pos ==> k in r.1)
      && (forall k :: k in r.1 ==> (k in pos && r.1[k] == pos[k]) || r.1[k].x >= 0.0)
      && (forall i :: 0 <= i < n && roots[i] in t.present ==> roots[i] in r.1)
  {
    if n > 0 {
      var r := Forest(t, rank, roots, n - 1, pos);
      ForestBounds(t, rank, roots, n - 1, pos);
      SubtreeBounds(t, rank, roots[n - 1], r.0, 0, r.1);
    }
  }

  /** Where the root after the first `n` starts, from the trees alone: their widths plus one spacing each. */
  function ForestWidth(t: Tree, ghost rank: map<string, nat>, roots: seq<string>, n: nat): real
    requires Ranked(t, rank) && n <= |roots|
  {
    if n == 0 then 0.0 else ForestWidth(t, rank, roots, n - 1) + Width(t, rank, roots[n - 1]) + t.h
  }

  /** The root loop's `rootX` after `n` roots depends only on the trees, never on earlier positions. */
  lemma {:induction false} ForestOffsets(t: Tree, rank: map<string, nat>, roots: seq<string>, n: nat, pos: Positions)
    requires Ranked(t, rank) && n <= |roots|
    ensures Forest(t, rank, roots, n, pos).0 == ForestWidth(t, rank, roots, n)
  {
    if n > 0 {
      var r := Forest(t, rank, roots, n - 1, pos);
      ForestOffsets(t, rank, roots, n - 1, pos);
      SubtreeWidth(t, rank, roots[n - 1], r.0, 0, r.1);
    }
  }

  /** Lay out each root in turn, side by side from an empty position map. */
  method LayoutForest(t: Tree, ghost rank: map<string, nat>, roots: seq<string>) returns (positions: Positions)
    requires Ranked(t, rank)
    ensures positions == Forest(t, rank, roots, |roots|, map[]).1
  {
    positions := map[];
    var rootX := 0.0;
    for j := 0 to |roots|
      invariant (rootX, positions) == Forest(t, rank, roots, j, map[])
    {
      var layout;
      layout, positions := LayoutTree(t, rank, roots[j], rootX, 0, positions);
      rootX := rootX + layout.width + t.h;
    }
  }
}
