/**
 * Scene graph nodes: an intrusive tree where each node links to its
 * parent, the head of its child list and its two siblings, and keeps in
 * `n` the number of nodes of its subtree (a 32-bit unsigned counter). The
 * public `Node` and its `Impl` are one class here.
 */
module SgNode {
  import opened Wrappers

  datatype Error = InvalidArgument

  const U32Limit: nat := 0x1_0000_0000

  /** `uint32_t` addition. */
  function Wrap32(x: nat): (r: nat)
    ensures r < U32Limit
    ensures x < U32Limit ==> r == x
  {
    x % U32Limit
  }

  class Node {
    var parent: Node?
    var child: Node?
    var prevSib: Node?
    var nextSib: Node?
    var n: nat

    /** A fresh node is a root and a leaf, and counts itself. */
    constructor ()
      ensures parent == null && child == null && prevSib == null && nextSib == null
      ensures n == 1
    {
      parent, child, prevSib, nextSib := null, null, null, null;
      n := 1;
    }

    /** `insert(child)`: links `child` as the new head of this node's child
        list and adds its count to this node and every ancestor. `chain` is
        this node followed by its ancestors up to the root. Inserting this
        node or one of its ancestors is refused (see README, Findings). */
    method Insert(child: Node, ghost chain: seq<Node>) returns (r: Outcome<Error>)
      requires IsChain(chain) && chain[0] == this
      modifies this`child, child`parent, child`nextSib, Opt(this.child)`prevSib, chain`n
      ensures r.Fail? <==> child in chain
      ensures r.Fail? ==> r.error == InvalidArgument
      ensures r.Fail? ==> unchanged(this, child, chain) && (old(this.child) != null ==> unchanged(old(this.child)))
      ensures r.Pass? ==> && child.parent == this && this.child == child
                          && child.nextSib == (if old(this.child) != null then old(this.child) else old(child.nextSib))
                          && (old(this.child) != null ==> old(this.child).prevSib == child)
      ensures r.Pass? ==> forall k :: 0 <= k < |chain| ==> chain[k].n == Wrap32(old(chain[k].n) + old(child.n))
      ensures r.Pass? ==> IsChain([child] + chain)
    {
      var isAncestor := HasAncestorOrSelf(child, chain);
      if isAncestor {
        return Fail(InvalidArgument);
      }
      Attach(child, chain);
      return Pass;
    }

    /** `insert` once the argument is known not to be this node or an
        ancestor. */
    method Attach(child: Node, ghost chain: seq<Node>)
      requires IsChain(chain) && chain[0] == this && child !in chain
      modifies this`child, child`parent, child`nextSib, Opt(this.child)`prevSib, chain`n
      ensures child.parent == this && this.child == child
      ensures child.nextSib == if old(this.child) != null then old(this.child) else old(child.nextSib)
      ensures old(this.child) != null ==> old(this.child).prevSib == child
      ensures forall k :: 0 <= k < |chain| ==> chain[k].n == Wrap32(old(chain[k].n) + old(child.n))
      ensures IsChain([child] + chain)
    {
      // A child that has a parent is first passed to `drop`, an empty stub.
      Link(child);
      AddToAncestors(child.n, chain);
      ChainExtend(child, chain);
    }

    /** Whether `node` is this node or one of its ancestors (the source only
        compares with this node). */
    method HasAncestorOrSelf(node: Node, ghost chain: seq<Node>) returns (found: bool)
      requires IsChain(chain) && chain[0] == this
      ensures found <==> node in chain
    {
      if node == this {
        return true;
      }
      var cur := parent;
      ghost var k := 1;
      while cur != null
        invariant 1 <= k <= |chain|
        invariant cur == if k < |chain| then chain[k] else null
        invariant forall m :: 0 <= m < k ==> chain[m] != node
        decreases |chain| - k
      {
        if cur == node {
          return true;
        }
        cur := cur.parent;
        k := k + 1;
      }
      return false;
    }

    /** The pointer updates of `insert`: `child` becomes the head of the
        child list, in front of the old head. */
    method Link(child: Node)
      modifies this`child, child`parent, child`nextSib, Opt(this.child)`prevSib
      ensures child.parent == this && this.child == child
      ensures child.nextSib == if old(this.child) != null then old(this.child) else old(child.nextSib)
      ensures old(this.child) != null ==> old(this.child).prevSib == child
    {
      child.parent := this;
      if this.child != null {
        child.nextSib := this.child;
        this.child.prevSib := child;
      }
      this.child := child;
    }

    /** The `do ... while` loop of `insert`: every node from this one up to
        the root gains `count`. */
    method AddToAncestors(count: nat, ghost chain: seq<Node>)
      requires IsChain(chain) && chain[0] == this
      modifies chain`n
      ensures forall k :: 0 <= k < |chain| ==> chain[k].n == Wrap32(old(chain[k].n) + count)
    {
      var node: Node? := this;
      ghost var k := 0;
      while node != null
        invariant 0 <= k <= |chain|
        invariant node == if k < |chain| then chain[k] else null
        invariant forall m :: 0 <= m < k ==> chain[m].n == Wrap32(old(chain[m].n) + count)
        invariant forall m :: k <= m < |chain| ==> chain[m].n == old(chain[m].n)
        decreases |chain| - k
      {
        node.n := Wrap32(node.n + count);
        node := node.parent;
        k := k + 1;
      }
    }
  }

  /** The node, if any, as a set. */
  function Opt(node: Node?): set<Node>
  {
    if node == null then {} else {node}
  }

  /** `chain` is a node followed by each parent in turn, ending at a root,
      without repetition. */
  ghost predicate IsChain(chain: seq<Node>)
    reads chain`parent
  {
    && |chain| > 0
    && (forall k :: 0 <= k < |chain| - 1 ==> chain[k].parent == chain[k + 1])
    && chain[|chain| - 1].parent == null
    && forall a, b :: 0 <= a < b < |chain| ==> chain[a] != chain[b]
  }

  /** A node whose parent heads a chain, and which is not on it, heads a
      longer chain. */
  lemma ChainExtend(node: Node, chain: seq<Node>)
    requires IsChain(chain) && node.parent == chain[0] && node !in chain
    ensures IsChain([node] + chain)
  {
    var c := [node] + chain;
    forall a, b | 0 <= a < b < |c| ensures c[a] != c[b] {
      if a == 0 {
        assert c[b] == chain[b - 1];
      } else {
        assert c[a] == chain[a - 1] && c[b] == chain[b - 1];
      }
    }
  }

  // ---------------------------------------------------------------------
  // `insert` as written, on parent links alone

  /** The parent links after `insert` as written: `child`'s parent becomes
      `self`, whatever the two nodes' relation. */
  function InsertParentAsWritten(parents: map<nat, nat>, self: nat, child: nat): map<nat, nat>
  {
    parents[child := self]
  }

  /** The node reached after `steps` moves up the parent links, or `None`
      once a root is passed. */
  function Climb(parents: map<nat, nat>, node: nat, steps: nat): Option<nat>
    decreases steps
  {
    if steps == 0 then Some(node)
    else if node in parents then Climb(parents, parents[node], steps - 1)
    else None
  }

  /** Inserting root 0 into its child 1 as written closes a cycle: climbing
      from 1 never passes a root, so the ancestor loop of `insert` never
      ends. */
  lemma {:induction false} AncestorInsertCycles(steps: nat)
    ensures Climb(InsertParentAsWritten(map[1 := 0], 1, 0), 1, 2 * steps) == Some(1)
    ensures Climb(InsertParentAsWritten(map[1 := 0], 1, 0), 1, 2 * steps + 1) == Some(0)
  {
    var p := InsertParentAsWritten(map[1 := 0], 1, 0);
    assert p == map[1 := 0, 0 := 1];
    if steps > 0 {
      AncestorInsertCycles(steps - 1);
      assert Climb(p, 1, 2 * steps) == Climb(p, 0, 2 * steps - 1) == Climb(p, 1, 2 * (steps - 1));
    }
    assert Climb(p, 1, 2 * steps + 1) == Climb(p, 0, 2 * steps);
    if steps > 0 {
      assert Climb(p, 0, 2 * steps) == Climb(p, 1, 2 * steps - 1) == Climb(p, 0, 2 * (steps - 1));
      AncestorInsertFromZero(steps - 1);
    }
  }

  lemma {:induction false} AncestorInsertFromZero(steps: nat)
    ensures Climb(map[1 := 0, 0 := 1], 0, 2 * steps) == Some(0)
  {
    if steps > 0 {
      var p := map[1 := 0, 0 := 1];
      assert Climb(p, 0, 2 * steps) == Climb(p, 1, 2 * steps - 1) == Climb(p, 0, 2 * (steps - 1));
      AncestorInsertFromZero(steps - 1);
    }
  }

  // ---------------------------------------------------------------------
  // The node unit test

  /** Insertions in the manner of the node unit test: `b` under `a`, `c`
      under `b`, then `c` again under `a`. Until the last step each count is
      the size of the subtree; `c` already has a parent then, and `drop`
      being a stub, `b` keeps counting it and `a` counts it twice. */
  method NodeScenario() returns (counts: seq<nat>)
    ensures counts == [4, 2, 1]
  {
    var a := new Node();
    var b := new Node();
    var c := new Node();
    var r := a.Insert(b, [a]);
    assert r.Pass? && b.parent == a && a.n == 2 && b.n == 1 && c.n == 1;
    r := b.Insert(c, [b, a]);
    assert r.Pass? && c.parent == b && a.n == 3 && b.n == 2 && c.n == 1;
    r := a.Insert(c, [a]);
    assert r.Pass? && c.parent == a;
    counts := [a.n, b.n, c.n];
  }
}
