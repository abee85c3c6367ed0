/**
  The scheduling tree as a value, and the closed form of nested round robin on it.

  A Tree names nodes by their address.  It records only what never changes while the
  tree stands: who is whose child, in which ring order, and with which slice.
 */
module Tree {
  import opened RoundRobin

  type Ptr = nat

  const NULL: Ptr := 0

  datatype Info = Info(parent: Ptr, pos: nat, level: nat, slice: nat)

  datatype Tree = Tree(root: Ptr, nodes: map<Ptr, Info>, kids: map<Ptr, seq<Ptr>>, depth: nat)

  /** Node x sits where its parent's ring says it does. */
  ghost predicate NodeOk(t: Tree, x: Ptr)
    requires x in t.nodes
  {
    var n := t.nodes[x];
    && 1 <= n.slice
    && n.level < t.depth
    && (x == t.root ==> n.level == 0 && n.parent == NULL)
    && (x != t.root ==>
          && n.parent in t.kids
          && n.parent in t.nodes
          && n.pos < |t.kids[n.parent]|
          && t.kids[n.parent][n.pos] == x
          && n.level == t.nodes[n.parent].level + 1)
  }

  ghost predicate KidOk(t: Tree, g: Ptr, i: nat)
    requires g in t.kids && i < |t.kids[g]|
  {
    var c := t.kids[g][i];
    c in t.nodes && c != t.root && t.nodes[c].parent == g && t.nodes[c].pos == i
  }

  /** t is a rooted tree: the groups are the keys of kids, everything else is a leaf. */
  ghost predicate Valid(t: Tree) {
    && NULL !in t.nodes
    && t.root in t.kids
    && t.kids.Keys <= t.nodes.Keys
    && (forall x {:trigger NodeOk(t, x)} | x in t.nodes :: NodeOk(t, x))
    && (forall g, i {:trigger t.kids[g][i]} | g in t.kids && 0 <= i < |t.kids[g]| :: KidOk(t, g, i))
  }

  ghost function ParentOf(t: Tree, x: Ptr): (g: Ptr)
    requires Valid(t) && x in t.nodes && x != t.root
    ensures g in t.kids && g in t.nodes && t.nodes[x].pos < |t.kids[g]|
    ensures t.kids[g][t.nodes[x].pos] == x && t.nodes[x].level == t.nodes[g].level + 1
  {
    assert NodeOk(t, x);
    t.nodes[x].parent
  }

  /** x is n or one of n's ancestors. */
  ghost predicate Above(t: Tree, x: Ptr, n: Ptr)
    requires Valid(t) && n in t.nodes
    decreases t.nodes[n].level
  {
    x == n || (n != t.root && Above(t, x, ParentOf(t, n)))
  }

  lemma {:induction false} AboveLevel(t: Tree, x: Ptr, n: Ptr)
    requires Valid(t) && n in t.nodes && Above(t, x, n)
    ensures x in t.nodes && t.nodes[x].level <= t.nodes[n].level
    ensures t.nodes[x].level == t.nodes[n].level ==> x == n
    decreases t.nodes[n].level
  {
    if x != n {
      AboveLevel(t, x, ParentOf(t, n));
    }
  }

  lemma {:induction false} RootIsAbove(t: Tree, n: Ptr)
    requires Valid(t) && n in t.nodes
    ensures Above(t, t.root, n)
    decreases t.nodes[n].level
  {
    if n != t.root {
      RootIsAbove(t, ParentOf(t, n));
    }
  }

  ghost predicate IsLeaf(t: Tree, x: Ptr) {
    x in t.nodes && x !in t.kids
  }

  /** Every group has somebody to serve. */
  ghost predicate Staffed(t: Tree) {
    forall g | g in t.kids :: |t.kids[g]| > 0
  }

  /** The slices of g's children, in ring order. */
  ghost function Slices(t: Tree, g: Ptr): (s: seq<nat>)
    requires Valid(t) && g in t.kids
    ensures |s| == |t.kids[g]| && Positive(s)
    ensures forall i | 0 <= i < |s| :: t.kids[g][i] in t.nodes && s[i] == t.nodes[t.kids[g][i]].slice
  {
    assert forall i | 0 <= i < |t.kids[g]| :: t.kids[g][i] in t.nodes && NodeOk(t, t.kids[g][i]);
    seq(|t.kids[g]|, i requires 0 <= i < |t.kids[g]| => t.nodes[t.kids[g][i]].slice)
  }

  /** The leaf that runs node x's own tick number n (counting from zero): divide by the
      lap, find the child that owns the offset, and ask that child about the tick of its
      own that this is. */
  ghost function LeafAt(t: Tree, x: Ptr, n: nat): (leaf: Ptr)
    requires Valid(t) && Staffed(t) && x in t.nodes
    ensures IsLeaf(t, leaf)
    decreases t.depth - t.nodes[x].level
  {
    assert NodeOk(t, x);
    if x !in t.kids then x
    else
      var i := OwnerOfTick(Slices(t, x), n);
      assert KidOk(t, x, i) && NodeOk(t, t.kids[x][i]);
      LeafAt(t, t.kids[x][i], Share(Slices(t, x), i, n))
  }

  /** How many of the first k ticks of the whole tree belong to x's subtree. */
  ghost function Count(t: Tree, x: Ptr, k: nat): nat
    requires Valid(t) && Staffed(t) && x in t.nodes
    decreases t.nodes[x].level
  {
    if x == t.root then k
    else Share(Slices(t, ParentOf(t, x)), t.nodes[x].pos, Count(t, ParentOf(t, x), k))
  }

  /** The index of the child of g that owns g's next tick. */
  ghost function Turn(t: Tree, g: Ptr, k: nat): (i: nat)
    requires Valid(t) && Staffed(t) && g in t.kids
    ensures i < |t.kids[g]|
  {
    OwnerOfTick(Slices(t, g), Count(t, g, k))
  }

  /** Tick number k of the tree runs inside x's subtree. */
  ghost predicate Serves(t: Tree, x: Ptr, k: nat)
    requires Valid(t) && Staffed(t) && x in t.nodes
    decreases t.nodes[x].level
  {
    x == t.root || (Serves(t, ParentOf(t, x), k) && Turn(t, ParentOf(t, x), k) == t.nodes[x].pos)
  }

  /** How much of its current slice x has used: zero when it is not x's turn. */
  ghost function Used(t: Tree, x: Ptr, k: nat): (u: nat)
    requires Valid(t) && Staffed(t) && x in t.nodes && x != t.root
    ensures u < t.nodes[x].slice
  {
    var g, i := ParentOf(t, x), t.nodes[x].pos;
    if Turn(t, g, k) == i then UsedAt(Slices(t, g), Count(t, g, k)) else 0
  }

  lemma RootServes(t: Tree, k: nat)
    requires Valid(t) && Staffed(t)
    ensures t.root in t.nodes && Serves(t, t.root, k)
  {
  }

  lemma {:induction false} ServesLevelUnique(t: Tree, x: Ptr, y: Ptr, k: nat)
    requires Valid(t) && Staffed(t) && x in t.nodes && y in t.nodes
    requires Serves(t, x, k) && Serves(t, y, k) && t.nodes[x].level == t.nodes[y].level
    ensures x == y
    decreases t.nodes[x].level
  {
    assert NodeOk(t, t.root);
    if x != t.root && y != t.root {
      ServesLevelUnique(t, ParentOf(t, x), ParentOf(t, y), k);
    }
  }

  /** The closed form read from the top agrees with the closed form read at any node of
      the path being served. */
  lemma {:induction false} ServedLeaf(t: Tree, x: Ptr, k: nat)
    requires Valid(t) && Staffed(t) && x in t.nodes && Serves(t, x, k)
    ensures LeafAt(t, x, Count(t, x, k)) == LeafAt(t, t.root, k)
    decreases t.nodes[x].level
  {
    if x != t.root {
      ServedLeaf(t, ParentOf(t, x), k);
    }
  }

  /** Counting is counting: a tick adds one to exactly the nodes it serves. */
  lemma {:induction false} CountStep(t: Tree, x: Ptr, k: nat)
    requires Valid(t) && Staffed(t) && x in t.nodes
    ensures Count(t, x, k + 1) == Count(t, x, k) + (if Serves(t, x, k) then 1 else 0)
    decreases t.nodes[x].level
  {
    if x != t.root {
      var g := ParentOf(t, x);
      CountStep(t, g, k);
      if Serves(t, g, k) {
        ShareStep(Slices(t, g), t.nodes[x].pos, Count(t, g, k));
      }
    }
  }

  /** How a tick moves the turn inside a served group: past its child exactly when that
      child's slice is used up, and otherwise not at all. */
  lemma TurnStep(t: Tree, x: Ptr, k: nat)
    requires Valid(t) && Staffed(t) && x in t.nodes && x != t.root && Serves(t, x, k)
    ensures var g := ParentOf(t, x);
            if Used(t, x, k) + 1 < t.nodes[x].slice
            then Turn(t, g, k + 1) == Turn(t, g, k) && Used(t, x, k + 1) == Used(t, x, k) + 1
            else Turn(t, g, k + 1) == Succ(t.nodes[x].pos, |t.kids[g]|)
  {
    hide Share, OwnerOfTick, UsedAt;
    var g := ParentOf(t, x);
    CountStep(t, g, k);
    OwnerStep(Slices(t, g), Count(t, g, k));
  }

  /** A child whose turn just began has used nothing of it. */
  lemma FreshTurn(t: Tree, x: Ptr, k: nat)
    requires Valid(t) && Staffed(t) && x in t.nodes && x != t.root
    requires Serves(t, ParentOf(t, x), k) && Turn(t, ParentOf(t, x), k) != t.nodes[x].pos
    ensures Used(t, x, k + 1) == 0
  {
    hide Share, OwnerOfTick, UsedAt;
    var g := ParentOf(t, x);
    CountStep(t, g, k);
    OwnerStep(Slices(t, g), Count(t, g, k));
  }

  /** A spent slice leaves nothing used, even when the turn comes straight back. */
  lemma SpentTurn(t: Tree, x: Ptr, k: nat)
    requires Valid(t) && Staffed(t) && x in t.nodes && x != t.root && Serves(t, x, k)
    requires Used(t, x, k) + 1 == t.nodes[x].slice
    ensures Used(t, x, k + 1) == 0
  {
    hide Share, OwnerOfTick, UsedAt;
    var g := ParentOf(t, x);
    CountStep(t, g, k);
    OwnerStep(Slices(t, g), Count(t, g, k));
  }

  /** Nothing moves in a group that is not served. */
  lemma PausedTurn(t: Tree, g: Ptr, k: nat)
    requires Valid(t) && Staffed(t) && g in t.kids && !Serves(t, g, k)
    ensures Turn(t, g, k + 1) == Turn(t, g, k)
    ensures Count(t, g, k + 1) == Count(t, g, k)
  {
    CountStep(t, g, k);
  }
}
