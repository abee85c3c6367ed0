/**
  Which nodes the bounded walk reaches: the nodes below the owner in preorder, up to the
  exact point where the step budget runs out.
 */
module WalkOrder {
  import opened Lists
  import opened RoundRobin
  import opened Tree
  import opened Memory
  import opened Dispatch
  import opened Walk
  import opened Rings
  import opened Invariant
  import opened Conserve
  import opened Books
  import opened Soundness

  // ----- preorder

  ghost function Preorder(t: Tree, x: Ptr): (s: seq<Ptr>)
    requires Valid(t) && x in t.nodes
    ensures s != [] && s[0] == x
    decreases t.depth - t.nodes[x].level, if x in t.kids then |t.kids[x]| + 1 else 0
  {
    assert NodeOk(t, x);
    [x] + (if x in t.kids then Below(t, x, 0) else [])
  }

  /** The subtrees of g's children from the i-th on. */
  ghost function Below(t: Tree, g: Ptr, i: nat): seq<Ptr>
    requires Valid(t) && g in t.kids && g in t.nodes && i <= |t.kids[g]|
    decreases t.depth - t.nodes[g].level, |t.kids[g]| - i
  {
    if i == |t.kids[g]| then []
    else
      assert KidOk(t, g, i) && NodeOk(t, t.kids[g][i]);
      Preorder(t, t.kids[g][i]) + Below(t, g, i + 1)
  }

  // ----- what a budget reaches

  /** The steps taken when the j-th node (from zero) of a walk is visited: two for each node
      before it, one for itself, less one for each of its ancestors that is still open. */
  ghost function Cost(t: Tree, s: seq<Ptr>, base: int, j: nat): int
    requires j < |s| && s[j] in t.nodes
  {
    2 * j + 1 - (t.nodes[s[j]].level - base)
  }

  /** The nodes of s visited within a budget of b steps. */
  ghost function Within(t: Tree, s: seq<Ptr>, base: int, b: int): seq<Ptr>
    requires forall i | 0 <= i < |s| :: s[i] in t.nodes
  {
    if s == [] || 1 - (t.nodes[s[0]].level - base) > b then []
    else [s[0]] + Within(t, s[1..], base, b - 2)
  }

  ghost predicate InTree(t: Tree, s: seq<Ptr>, low: int) {
    forall i {:trigger s[i]} | 0 <= i < |s| :: s[i] in t.nodes && low <= t.nodes[s[i]].level
  }

  lemma {:induction false} WithinShift(t: Tree, s: seq<Ptr>, base: int, b: int)
    requires InTree(t, s, 0)
    ensures Within(t, s, base, b) == Within(t, s, base + 1, b + 1)
  {
    if s != [] {
      WithinShift(t, s[1..], base, b - 2);
    }
  }

  lemma {:induction false} WithinAll(t: Tree, s: seq<Ptr>, base: int, b: int)
    requires InTree(t, s, base) && InTree(t, s, 0) && b >= 2 * |s| - 1
    ensures Within(t, s, base, b) == s
  {
    if s != [] {
      WithinAll(t, s[1..], base, b - 2);
    }
  }

  lemma {:induction false} WithinNone(t: Tree, s: seq<Ptr>, base: int, b: int)
    requires InTree(t, s, 0) && (s != [] ==> t.nodes[s[0]].level == base) && b < 1
    ensures Within(t, s, base, b) == []
  {
  }

  lemma InTreeConcat(t: Tree, s: seq<Ptr>, r: seq<Ptr>, low: int)
    requires InTree(t, s, low) && InTree(t, r, low)
    ensures InTree(t, s + r, low)
  {
  }

  lemma {:induction false} WithinConcat(t: Tree, s: seq<Ptr>, r: seq<Ptr>, base: int, b: int)
    requires InTree(t, s, base) && InTree(t, s, 0) && InTree(t, r, 0)
    requires r != [] ==> t.nodes[r[0]].level == base
    ensures InTree(t, s + r, 0)
    ensures Within(t, s + r, base, b)
            == Within(t, s, base, b) + (if b >= 2 * |s| then Within(t, r, base, b - 2 * |s|) else [])
  {
    InTreeConcat(t, s, r, 0);
    if s == [] {
      assert s + r == r;
      if b < 0 {
        WithinNone(t, r, base, b);
      }
    } else {
      var s', w := s[1..], s + r;
      assert w[1..] == s' + r && w[0] == s[0];
      assert InTree(t, s', base) && InTree(t, s', 0);
      WithinConcat(t, s', r, base, b - 2);
      assert t.nodes[s[0]].level >= base;
    }
  }

  // ----- subtrees as sequences

  lemma {:induction false} PreorderInTree(t: Tree, x: Ptr)
    requires Valid(t) && x in t.nodes
    ensures InTree(t, Preorder(t, x), t.nodes[x].level) && InTree(t, Preorder(t, x), 0)
    decreases t.depth - t.nodes[x].level, if x in t.kids then |t.kids[x]| + 1 else 0
  {
    assert NodeOk(t, x);
    if x in t.kids {
      BelowInTree(t, x, 0);
    }
  }

  lemma {:induction false} BelowInTree(t: Tree, g: Ptr, i: nat)
    requires Valid(t) && g in t.kids && g in t.nodes && i <= |t.kids[g]|
    ensures InTree(t, Below(t, g, i), t.nodes[g].level + 1) && InTree(t, Below(t, g, i), 0)
    ensures Below(t, g, i) != [] ==> t.nodes[Below(t, g, i)[0]].level == t.nodes[g].level + 1
    decreases t.depth - t.nodes[g].level, |t.kids[g]| - i
  {
    if i < |t.kids[g]| {
      assert KidOk(t, g, i) && NodeOk(t, t.kids[g][i]);
      PreorderInTree(t, t.kids[g][i]);
      BelowInTree(t, g, i + 1);
    }
  }

  // ----- the walk follows preorder

  /** Budget left over once the subtree of x is done: the walk is then at x, about to look
      for a sibling. */
  ghost function Rest(m: Mem, owner: Ptr, x: Ptr, b: int): seq<Ptr> {
    if b >= 0 then Aside(m, owner, x, b) else []
  }

  lemma {:induction false} VisitWalks(m: Mem, t: Tree, owner: Ptr, x: Ptr, b: nat)
    requires Represents(m, t) && x in t.nodes && x != t.root && x != owner && Above(t, owner, x)
    ensures InTree(t, Preorder(t, x), 0)
    ensures Visit(m, owner, x, b)
            == Within(t, Preorder(t, x), t.nodes[x].level, b)
               + Rest(m, owner, x, b - (2 * |Preorder(t, x)| - 1))
    decreases t.depth - t.nodes[x].level, if x in t.kids then |t.kids[x]| + 1 else 0
  {
    hide Visit, Aside, Preorder, Below, Within, Holds;
    assert NodeOk(t, x);
    PreorderInTree(t, x);
    VisitOnce(m, t, owner, x, b);
    if x in t.kids && |t.kids[x]| > 0 && b > 0 {
      var level, c := t.nodes[x].level, t.kids[x][0];
      assert KidOk(t, x, 0);
      BelowInTree(t, x, 0);
      OwnerStaysAbove(t, owner, x, c);
      KidsWalk(m, t, owner, x, 0, b - 1);
      WithinShift(t, Below(t, x, 0), level, b - 2);
      PreorderOpens(t, x, b);
    }
  }

  /** The first step of a visit, in every case but an open group's, is the whole of it. */
  lemma VisitOnce(m: Mem, t: Tree, owner: Ptr, x: Ptr, b: nat)
    requires Represents(m, t) && x in t.nodes && x != t.root && InTree(t, Preorder(t, x), 0)
    ensures b == 0 ==> Visit(m, owner, x, b) == [] && Within(t, Preorder(t, x), t.nodes[x].level, b) == []
                       && b - (2 * |Preorder(t, x)| - 1) < 0
    ensures b > 0 && !(x in t.kids && |t.kids[x]| > 0) ==>
              Visit(m, owner, x, b) == [x] + Aside(m, owner, x, b - 1)
              && Preorder(t, x) == [x] && Within(t, Preorder(t, x), t.nodes[x].level, b) == [x]
    ensures b > 0 && x in t.kids && |t.kids[x]| > 0 ==>
              Visit(m, owner, x, b) == [x] + Visit(m, owner, t.kids[x][0], b - 1)
  {
    assert Holds(m, t, x);
    if x in t.kids {
      if |t.kids[x]| > 0 {
        assert KidOk(t, x, 0);
        NextInMemory(m, t, t.kids[x][0]);
      } else {
        assert Below(t, x, 0) == [];
      }
    }
    if b > 0 && !(x in t.kids && |t.kids[x]| > 0) {
      assert [x][1..] == [];
      assert Within(t, [x][1..], t.nodes[x].level, b - 2) == [];
    }
  }

  lemma PreorderOpens(t: Tree, x: Ptr, b: nat)
    requires Valid(t) && x in t.kids && x in t.nodes && InTree(t, Preorder(t, x), 0) && InTree(t, Below(t, x, 0), 0)
    ensures |Preorder(t, x)| == |Below(t, x, 0)| + 1
    ensures b > 0 ==> Within(t, Preorder(t, x), t.nodes[x].level, b)
                      == [x] + Within(t, Below(t, x, 0), t.nodes[x].level, b - 2)
  {
    assert Preorder(t, x)[1..] == Below(t, x, 0);
  }

  lemma OwnerStaysAbove(t: Tree, owner: Ptr, x: Ptr, c: Ptr)
    requires Valid(t) && x in t.nodes && c in t.nodes && c != t.root && ParentOf(t, c) == x
    requires Above(t, owner, x)
    ensures Above(t, owner, c) && c != owner
  {
    AboveLevel(t, owner, x);
  }

  lemma {:induction false} KidsWalk(m: Mem, t: Tree, owner: Ptr, g: Ptr, i: nat, b: nat)
    requires Represents(m, t) && g in t.kids && g in t.nodes && i < |t.kids[g]| && Above(t, owner, g)
    ensures InTree(t, Below(t, g, i), 0)
    ensures Visit(m, owner, t.kids[g][i], b)
            == Within(t, Below(t, g, i), t.nodes[g].level + 1, b)
               + (if g == owner then [] else Rest(m, owner, g, b - 2 * |Below(t, g, i)|))
    decreases t.depth - t.nodes[g].level, |t.kids[g]| - i
  {
    hide Visit, Aside, Preorder, Within, Rest, Below;
    var c, n, level := t.kids[g][i], |t.kids[g]|, t.nodes[g].level + 1;
    assert KidOk(t, g, i) && NodeOk(t, c) && KidOk(t, g, 0);
    OwnerStaysAbove(t, owner, g, c);
    VisitWalks(m, t, owner, c, b);
    PreorderInTree(t, c);
    BelowInTree(t, g, i);
    BelowInTree(t, g, i + 1);
    BelowOpens(t, g, i);
    var first, rest := Preorder(t, c), Below(t, g, i + 1);
    WithinConcat(t, first, rest, level, b);
    AsideStep(m, t, owner, g, i, b - (2 * |first| - 1));
    RestNegative(m, owner, g, b - 2 * |first| - 2 * |rest|);
    if i + 1 < n {
      if b >= 2 * |first| {
        KidsWalk(m, t, owner, g, i + 1, b - 2 * |first|);
      }
    } else if b >= 2 * |first| {
      assert Within(t, rest, level, b - 2 * |first|) == [] by { WithinNil(t, rest, level, b - 2 * |first|); }
    }
  }

  lemma WithinNil(t: Tree, s: seq<Ptr>, base: int, b: int)
    requires s == []
    ensures Within(t, s, base, b) == []
  {
  }

  lemma RestNegative(m: Mem, owner: Ptr, x: Ptr, b: int)
    ensures b < 0 ==> Rest(m, owner, x, b) == []
  {
  }

  lemma BelowOpens(t: Tree, g: Ptr, i: nat)
    requires Valid(t) && g in t.kids && g in t.nodes && i < |t.kids[g]|
    ensures t.kids[g][i] in t.nodes && Below(t, g, i) == Preorder(t, t.kids[g][i]) + Below(t, g, i + 1)
    ensures Below(t, g, |t.kids[g]|) == []
  {
  }

  /** From a finished child: to its next sibling, or up, or out. */
  lemma AsideStep(m: Mem, t: Tree, owner: Ptr, g: Ptr, i: nat, b: int)
    requires Represents(m, t) && g in t.kids && g in t.nodes && i < |t.kids[g]|
    ensures Rest(m, owner, t.kids[g][i], b) ==
              if b <= 0 then []
              else if i + 1 < |t.kids[g]| then Visit(m, owner, t.kids[g][i + 1], b - 1)
              else if g == owner then []
              else Rest(m, owner, g, b - 1)
  {
    var c := t.kids[g][i];
    assert KidOk(t, g, i) && KidOk(t, g, 0) && Holds(m, t, g);
    NextInMemory(m, t, c);
    NextInMemory(m, t, After(t, c));
    if i + 1 < |t.kids[g]| {
      assert KidOk(t, g, i + 1);
    }
  }

  /** The sweep's walk: everything below the root, in preorder, as far as the budget goes. */
  lemma WalkIsPreorder(m: Mem, t: Tree, limit: nat)
    requires Represents(m, t)
    ensures t.root in t.nodes && InTree(t, Below(t, t.root, 0), 0)
    ensures WalkTree(m, Head(m, t.root), limit) == Within(t, Below(t, t.root, 0), 1, limit)
  {
    assert NodeOk(t, t.root) && Holds(m, t, t.root);
    BelowInTree(t, t.root, 0);
    if |t.kids[t.root]| > 0 {
      assert KidOk(t, t.root, 0);
      NextInMemory(m, t, t.kids[t.root][0]);
      KidsWalk(m, t, t.root, t.root, 0, limit);
    }
  }

  // ----- exactly which nodes

  /** Going down a preorder, the level grows by at most one at a time. */
  ghost predicate Gradual(t: Tree, s: seq<Ptr>)
    requires InTree(t, s, 0)
  {
    forall i {:trigger s[i]} | 0 <= i && i + 1 < |s| :: t.nodes[s[i + 1]].level <= t.nodes[s[i]].level + 1
  }

  lemma {:induction false} GradualPreorder(t: Tree, x: Ptr)
    requires Valid(t) && x in t.nodes
    ensures InTree(t, Preorder(t, x), t.nodes[x].level) && InTree(t, Preorder(t, x), 0) && Gradual(t, Preorder(t, x))
    decreases t.depth - t.nodes[x].level, if x in t.kids then |t.kids[x]| + 1 else 0
  {
    assert NodeOk(t, x);
    PreorderInTree(t, x);
    if x in t.kids {
      BelowInTree(t, x, 0);
      GradualBelow(t, x, 0);
      GradualConcat(t, [x], Below(t, x, 0));
    }
  }

  lemma GradualConcat(t: Tree, s: seq<Ptr>, r: seq<Ptr>)
    requires InTree(t, s, 0) && InTree(t, r, 0) && Gradual(t, s) && Gradual(t, r)
    requires s != [] && r != [] ==> t.nodes[r[0]].level <= t.nodes[s[|s| - 1]].level + 1
    ensures InTree(t, s + r, 0) && Gradual(t, s + r)
  {
    var w := s + r;
    forall i | 0 <= i && i + 1 < |w| ensures t.nodes[w[i + 1]].level <= t.nodes[w[i]].level + 1 {
      if i + 1 < |s| {
        assert w[i] == s[i] && w[i + 1] == s[i + 1];
      } else if i >= |s| {
        assert w[i] == r[i - |s|] && w[i + 1] == r[i - |s| + 1];
      }
    }
  }

  lemma {:induction false} GradualBelow(t: Tree, g: Ptr, i: nat)
    requires Valid(t) && g in t.kids && g in t.nodes && i <= |t.kids[g]|
    ensures InTree(t, Below(t, g, i), 0) && Gradual(t, Below(t, g, i))
    decreases t.depth - t.nodes[g].level, |t.kids[g]| - i
  {
    BelowInTree(t, g, i);
    if i < |t.kids[g]| {
      var c := t.kids[g][i];
      assert KidOk(t, g, i) && NodeOk(t, c);
      GradualPreorder(t, c);
      GradualBelow(t, g, i + 1);
      BelowInTree(t, g, i + 1);
      var s := Preorder(t, c);
      assert t.nodes[c].level <= t.nodes[s[|s| - 1]].level;
      GradualConcat(t, s, Below(t, g, i + 1));
    }
  }

  /** A gradual sequence is cut exactly where the cost passes the budget. */
  lemma {:induction false} WithinIsCut(t: Tree, s: seq<Ptr>, base: int, b: int)
    requires InTree(t, s, 0) && Gradual(t, s)
    ensures Within(t, s, base, b) <= s
    ensures forall j | 0 <= j < |s| :: j < |Within(t, s, base, b)| <==> Cost(t, s, base, j) <= b
  {
    if s != [] {
      var r := s[1..];
      assert InTree(t, r, 0);
      assert Gradual(t, r) by {
        forall i | 0 <= i && i + 1 < |r| ensures t.nodes[r[i + 1]].level <= t.nodes[r[i]].level + 1 {
          assert r[i] == s[i + 1] && r[i + 1] == s[i + 2];
        }
      }
      WithinIsCut(t, r, base, b - 2);
      var w := Within(t, s, base, b);
      forall j | 0 <= j < |s| ensures j < |w| <==> Cost(t, s, base, j) <= b {
        if w == [] {
          CostGrows(t, s, base, j);
        } else if j > 0 {
          assert s[j] == r[j - 1] && Cost(t, r, base, j - 1) == Cost(t, s, base, j) - 2;
        }
      }
    }
  }

  lemma {:induction false} CostGrows(t: Tree, s: seq<Ptr>, base: int, j: nat)
    requires InTree(t, s, 0) && Gradual(t, s) && j < |s|
    ensures Cost(t, s, base, 0) <= Cost(t, s, base, j)
  {
    if j > 0 {
      CostGrows(t, s, base, j - 1);
      assert s[j] == s[j - 1 + 1] && t.nodes[s[j]].level <= t.nodes[s[j - 1]].level + 1;
    }
  }

  /** The walk reaches the j-th node of the preorder (from zero) at depth d below level one
      if and only if 2j + 1 - d steps are allowed, and it visits them in that order. */
  lemma WalkReaches(m: Mem, t: Tree, limit: nat, j: nat)
    requires Represents(m, t) && t.root in t.nodes && j < |Below(t, t.root, 0)|
    ensures var s, w := Below(t, t.root, 0), WalkTree(m, Head(m, t.root), limit);
            && w <= s && s[j] in t.nodes
            && (j < |w| <==> 2 * j + 1 - (t.nodes[s[j]].level - 1) <= limit)
  {
    hide Within, WalkTree, Below;
    WalkIsPreorder(m, t, limit);
    GradualBelow(t, t.root, 0);
    var s := Below(t, t.root, 0);
    WithinIsCut(t, s, 1, limit);
    assert s[j] in t.nodes;
    assert Cost(t, s, 1, j) == 2 * j + 1 - (t.nodes[s[j]].level - 1);
  }

  // ----- every node, once

  lemma {:induction false} PreorderMembers(t: Tree, x: Ptr, y: Ptr)
    requires Valid(t) && x in t.nodes && y in t.nodes
    ensures y in Preorder(t, x) <==> Above(t, x, y)
    decreases t.depth - t.nodes[x].level, if x in t.kids then |t.kids[x]| + 1 else 0
  {
    assert NodeOk(t, x);
    if x in t.kids {
      BelowMembers(t, x, 0, y);
      if Above(t, x, y) && x != y {
        var c := KidToward(t, x, y);
        assert NodeOk(t, c);
      }
    } else if Above(t, x, y) && x != y {
      LeafAboveOnlyItself(t, x, y);
    }
  }

  /** y is in the subtree of one of g's children, from the i-th on. */
  ghost predicate UnderKid(t: Tree, g: Ptr, i: nat, y: Ptr)
    requires Valid(t) && y in t.nodes
  {
    exists c :: IsKid(t, g, c) && i <= t.nodes[c].pos && Above(t, c, y)
  }

  lemma {:induction false} BelowMembers(t: Tree, g: Ptr, i: nat, y: Ptr)
    requires Valid(t) && g in t.kids && g in t.nodes && y in t.nodes && i <= |t.kids[g]|
    ensures y in Below(t, g, i) <==> UnderKid(t, g, i, y)
    ensures y in Below(t, g, i) ==> Above(t, g, y) && y != g
    decreases t.depth - t.nodes[g].level, |t.kids[g]| - i
  {
    if i < |t.kids[g]| {
      var c := t.kids[g][i];
      assert KidOk(t, g, i) && NodeOk(t, c);
      PreorderMembers(t, c, y);
      BelowMembers(t, g, i + 1, y);
      if Above(t, c, y) {
        assert Above(t, g, c);
        AboveTrans(t, g, c, y);
        AboveLevel(t, c, y);
      }
    }
    if UnderKid(t, g, i, y) {
      var k :| IsKid(t, g, k) && i <= t.nodes[k].pos && Above(t, k, y);
      assert NodeOk(t, k);
    }
  }

  lemma {:induction false} PreorderDistinct(t: Tree, x: Ptr)
    requires Valid(t) && x in t.nodes
    ensures Distinct(Preorder(t, x))
    decreases t.depth - t.nodes[x].level, if x in t.kids then |t.kids[x]| + 1 else 0
  {
    assert NodeOk(t, x);
    if x in t.kids {
      BelowDistinct(t, x, 0);
      BelowMembers(t, x, 0, x);
    }
  }

  lemma {:induction false} BelowDistinct(t: Tree, g: Ptr, i: nat)
    requires Valid(t) && g in t.kids && g in t.nodes && i <= |t.kids[g]|
    ensures Distinct(Below(t, g, i))
    decreases t.depth - t.nodes[g].level, |t.kids[g]| - i
  {
    if i < |t.kids[g]| {
      var c := t.kids[g][i];
      assert KidOk(t, g, i) && NodeOk(t, c);
      PreorderDistinct(t, c);
      BelowDistinct(t, g, i + 1);
      PreorderInTree(t, c);
      forall y | y in Preorder(t, c) ensures y !in Below(t, g, i + 1) {
        SubtreesApart(t, g, i, c, y);
      }
      DistinctConcat(Preorder(t, c), Below(t, g, i + 1));
    }
  }

  lemma DistinctConcat(s: seq<Ptr>, r: seq<Ptr>)
    requires Distinct(s) && Distinct(r) && forall y | y in s :: y !in r
    ensures Distinct(s + r)
  {
    var w := s + r;
    forall i, j | 0 <= i < j < |w| ensures w[i] != w[j] {
      if i < |s| <= j {
        assert w[i] in s && w[j] in r;
      }
    }
  }

  lemma SubtreesApart(t: Tree, g: Ptr, i: nat, c: Ptr, y: Ptr)
    requires Valid(t) && g in t.kids && g in t.nodes && i < |t.kids[g]| && c == t.kids[g][i]
    requires c in t.nodes && y in t.nodes && y in Preorder(t, c)
    ensures y !in Below(t, g, i + 1)
  {
    assert KidOk(t, g, i) && NodeOk(t, c);
    PreorderMembers(t, c, y);
    BelowMembers(t, g, i + 1, y);
    if UnderKid(t, g, i + 1, y) {
      var k :| IsKid(t, g, k) && i + 1 <= t.nodes[k].pos && Above(t, k, y);
      assert NodeOk(t, k);
      AboveComparable(t, c, k, y);
      AboveLevel(t, c, k);
    }
  }

  ghost function Members(s: seq<Ptr>): set<Ptr> {
    set i | 0 <= i < |s| :: s[i]
  }

  lemma {:induction false} DistinctCounts(s: seq<Ptr>)
    requires Distinct(s)
    ensures |Members(s)| == |s|
  {
    if s != [] {
      var r := s[..|s| - 1];
      DistinctCounts(r);
      assert Members(s) == Members(r) + {s[|s| - 1]};
      assert s[|s| - 1] !in Members(r);
    } else {
      assert Members(s) == {};
    }
  }

  /** Preorder lists every node below the root, once. */
  lemma EverybodyOnce(t: Tree)
    requires Valid(t) && t.root in t.nodes
    ensures var s := Below(t, t.root, 0);
            && Distinct(s)
            && (forall x | x in t.nodes :: x in s <==> x != t.root)
            && |s| == |t.nodes| - 1
  {
    var s := Below(t, t.root, 0);
    BelowDistinct(t, t.root, 0);
    BelowInTree(t, t.root, 0);
    forall x | x in t.nodes ensures x in s <==> x != t.root {
      BelowMembers(t, t.root, 0, x);
      if x != t.root {
        RootIsAbove(t, x);
        var c := KidToward(t, t.root, x);
        assert NodeOk(t, c);
      }
    }
    DistinctCounts(s);
    assert Members(s) == t.nodes.Keys - {t.root};
    assert |t.nodes.Keys - {t.root}| == |t.nodes.Keys| - 1;
    assert |t.nodes.Keys| == |t.nodes|;
  }

  /** With 2N - 1 steps for N nodes below the root, everybody is visited exactly once. */
  ghost predicate Covered(t: Tree, limit: nat) {
    limit + 1 >= 2 * (|t.nodes| - 1)
  }

  lemma WalkCovers(m: Mem, t: Tree, limit: nat)
    requires Represents(m, t) && Covered(t, limit)
    ensures var w := WalkTree(m, Head(m, t.root), limit);
            Distinct(w) && forall x | x in t.nodes :: x in w <==> x != t.root
  {
    assert NodeOk(t, t.root);
    WalkIsPreorder(m, t, limit);
    EverybodyOnce(t);
    BelowInTree(t, t.root, 0);
    WithinAll(t, Below(t, t.root, 0), 1, limit);
  }

  /** Whatever the structure, the walk stops within its budget. */
  lemma {:induction false} WalkTerminates(m: Mem, owner: Ptr, p: Ptr, budget: nat)
    ensures |Visit(m, owner, p, budget)| <= budget
    ensures |Aside(m, owner, p, budget)| <= budget
    decreases budget
  {
    if budget > 0 {
      WalkTerminates(m, owner, Head(m, p), budget - 1);
      WalkTerminates(m, owner, p, budget - 1);
      WalkTerminates(m, owner, Next(m, p), budget - 1);
      WalkTerminates(m, owner, Parent(m, p), budget - 1);
    }
  }
}
