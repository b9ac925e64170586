/**
 The intrusive red-black tree: nodes with parent links, rebalanced in place, and a cached leftmost node.
 The abstract value is `order`, the in-order sequence of the nodes.
 */
module RbTree {
  datatype Color = Red | Black

  /** An intrusive node. `parent` and `color` are halves of `parent_and_color`; an unlinked node is its own parent. */
  class Node {
    var parent: Node?
    var color: Color
    var left: Node?
    var right: Node?
    var key: int        // what the comparison function looks at in the containing object

    ghost var idx: int  // position in the in-order sequence
    ghost var lo: int   // the subtree below this node is order[lo..hi]
    ghost var hi: int
    ghost var bh: nat   // black nodes on every path from here to a leaf, this node included

    constructor (key: int)
      ensures IsEmpty() && this.key == key
    {
      this.key := key;
      parent := this;
      color := Red;
      left, right := null, null;
      idx, lo, hi, bh := 0, 0, 0, 0;
    }

    predicate IsEmpty()
      reads this
    {
      parent == this
    }
  }

  class Tree {
    var root: Node?
    var leftmost: Node?
    ghost var nodes: set<Node>
    ghost var order: seq<Node>

    constructor ()
      ensures Struct() && LeftmostOk() && Colored() && order == [] && nodes == {}
    {
      root, leftmost := null, null;
      nodes, order := {}, [];
    }

    // ---- the shape of the tree ----

    ghost predicate Placed(n: Node)
      reads this`order, n`idx, n`lo, n`hi
    {
      0 <= n.lo <= n.idx < n.hi <= |order| && order[n.idx] == n
    }

    ghost predicate LeftOk(n: Node)
      reads this`nodes, n`left, n`lo, n`idx, nodes`parent, nodes`lo, nodes`hi
    {
      if n.left == null then n.lo == n.idx
      else n.left in nodes && n.left.parent == n && n.left.lo == n.lo && n.left.hi == n.idx
    }

    ghost predicate RightOk(n: Node)
      reads this`nodes, n`right, n`hi, n`idx, nodes`parent, nodes`lo, nodes`hi
    {
      if n.right == null then n.hi == n.idx + 1
      else n.right in nodes && n.right.parent == n && n.right.lo == n.idx + 1 && n.right.hi == n.hi
    }

    ghost predicate ParentOk(n: Node)
      reads this`root, this`nodes, n`parent, nodes`left, nodes`right
    {
      if n.parent == null then n == root
      else n != root && n.parent in nodes && (n.parent.left == n || n.parent.right == n)
    }

    ghost predicate Linked(n: Node)
      reads this`root, this`nodes, this`order, n`parent, n`left, n`right, n`idx, n`lo, n`hi,
        nodes`parent, nodes`left, nodes`right, nodes`idx, nodes`lo, nodes`hi
    {
      Placed(n) && LeftOk(n) && RightOk(n) && ParentOk(n)
    }

    ghost predicate RootOk()
      reads this`root, this`nodes, this`order, nodes`parent, nodes`lo, nodes`hi
    {
      if root == null then order == []
      else root in nodes && root.parent == null && root.lo == 0 && root.hi == |order|
    }

    /** Parent and child links agree, and every subtree covers exactly its stretch of `order`. */
    ghost predicate Struct()
      reads this`root, this`nodes, this`order, nodes`parent, nodes`left, nodes`right, nodes`idx, nodes`lo, nodes`hi
    {
      && (forall n {:trigger Linked(n)} :: n in nodes ==> Linked(n))
      && (forall i :: 0 <= i < |order| ==> order[i] in nodes && order[i].idx == i)
      && RootOk()
    }

    ghost predicate LeftmostOk()
      reads this`leftmost, this`order
    {
      leftmost == if order == [] then null else order[0]
    }

    // ---- the red-black rules ----

    /** Black height of a child link; an absent child has none. */
    ghost function Bh(n: Node?): nat
      reads this`nodes, nodes`bh
    {
      if n != null && n in nodes then n.bh else 0
    }

    /** All paths from n down to a leaf pass the same number of black nodes, and n.bh counts them. */
    ghost predicate BlackOk(n: Node)
      reads this`nodes, n`left, n`right, n`color, n`bh, nodes`bh
    {
      Bh(n.left) == Bh(n.right) && n.bh == Bh(n.left) + (if n.color.Black? then 1 else 0)
    }

    /** A red node has a black parent; in particular the root is black. */
    ghost predicate RedOk(n: Node)
      reads this`nodes, n`color, n`parent, nodes`color
    {
      n.color.Red? ==> n.parent != null && n.parent in nodes && n.parent.color.Black?
    }

    ghost predicate Balanced()
      reads this`nodes, nodes`left, nodes`right, nodes`color, nodes`bh
    {
      forall n {:trigger BlackOk(n)} :: n in nodes ==> BlackOk(n)
    }

    ghost predicate NoRedRedBut(x: Node?)
      reads this`nodes, nodes`color, nodes`parent
    {
      forall n {:trigger RedOk(n)} :: n in nodes && n != x ==> RedOk(n)
    }

    ghost predicate Colored()
      reads this`nodes, nodes`left, nodes`right, nodes`parent, nodes`color, nodes`bh
    {
      Balanced() && NoRedRedBut(null)
    }

    // ---- rotations ----

    // A two-state lemma about several nodes takes them as one tuple, `at`. With a parameter for each, a call of the
    // lemma names two proof dependencies alike under --warn-contradictory-assumptions (Dafny 4.11), and the prover
    // stops.

    /** What a left rotation at x does to every field it touches. */
    twostate predicate RotatedLeft(x: Node, y: Node)
      reads this, nodes
    {
      var p, m := old(x.parent), old(y.left);
      && y == old(x.right) && nodes == old(nodes) && order == old(order)
      && root == (if p == null then y else old(root))
      && (forall n {:trigger n.left} :: n in nodes ==>
            n.left == if n == y then x else if n == p && old(p.left) == x then y else old(n.left))
      && (forall n {:trigger n.right} :: n in nodes ==>
            n.right == if n == x then m else if n == p && old(p.left) != x then y else old(n.right))
      && (forall n {:trigger n.parent} :: n in nodes ==>
            n.parent == if n == x then y else if n == y then p else if n == m then x else old(n.parent))
      && (forall n {:trigger n.idx} :: n in nodes ==> n.idx == old(n.idx))
      && (forall n {:trigger n.lo} :: n in nodes ==> n.lo == if n == y then old(x.lo) else old(n.lo))
      && (forall n {:trigger n.hi} :: n in nodes ==>
            n.hi == if n == y then old(x.hi) else if n == x then old(y.idx) else old(n.hi))
    }

    twostate lemma RotatedLeftKeeps(x: Node)
      requires old(Struct()) && x in old(nodes) && old(x.right) != null
      requires RotatedLeft(x, old(x.right))
      ensures Struct()
    {
      assert old(Linked(x)) && old(Linked(x.right));
      forall n | n in nodes
        ensures Linked(n)
      {
        var at := (x, n);
        RotatedLeftUp(at);
        RotatedLeftDown(at);
      }
    }

    /** The rotation keeps the place and the parent link of node at.1. */
    twostate lemma RotatedLeftUp(at: (Node, Node))
      requires old(Struct()) && at.0 in old(nodes) && old(at.0.right) != null
      requires RotatedLeft(at.0, old(at.0.right)) && at.1 in nodes
      ensures Placed(at.1) && ParentOk(at.1)
    {
      var (x, n) := at;
      var y, p := old(x.right), old(x.parent);
      var m := old(y.left);
      assert old(Linked(x)) && old(Linked(y)) && old(Linked(n));
      if p != null { assert old(Linked(p)); }
      if m != null { assert old(Linked(m)); }
    }

    /** The rotation keeps the child links of node at.1. */
    twostate lemma RotatedLeftDown(at: (Node, Node))
      requires old(Struct()) && at.0 in old(nodes) && old(at.0.right) != null
      requires RotatedLeft(at.0, old(at.0.right)) && at.1 in nodes
      ensures LeftOk(at.1) && RightOk(at.1)
    {
      var (x, n) := at;
      var y, p := old(x.right), old(x.parent);
      var m := old(y.left);
      assert old(Linked(x)) && old(Linked(y)) && old(Linked(n));
      if p != null { assert old(Linked(p)); }
      if m != null { assert old(Linked(m)); }
    }

    lemma RightNeighbours(x: Node)
      requires Struct() && x in nodes && x.right != null
      ensures var y, p := x.right, x.parent; var m := y.left;
              && y in nodes && y != x
              && (p != null ==> p in nodes && p != x && p != y && (p.left == x || p.right == x) && p.left != p.right)
              && (m != null ==> m in nodes && m != x && m != y && m != p)
    {
      assert Linked(x) && Linked(x.right);
      if x.parent != null { assert Linked(x.parent); }
      if x.right.left != null { assert Linked(x.right.left); }
    }

    /** Left rotation at x: its right child takes its place. */
    method RotateLeft(x: Node)
      requires Struct() && x in nodes && x.right != null
      modifies this`root, nodes`parent, nodes`left, nodes`right, nodes`lo, nodes`hi
      ensures Struct()
      ensures RotatedLeft(x, old(x.right))
    {
      hide Struct;
      RightNeighbours(x);
      var y := x.right;
      var p, m := x.parent, y.left;
      x.right := m;
      y.left := x;
      ChangeChild(x, y, p);
      SetParents(x, y, p, m);
      y.lo, y.hi, x.hi := x.lo, x.hi, y.idx;
      RotatedLeftKeeps(x);
    }

    /** What a right rotation at x does to every field it touches. */
    twostate predicate RotatedRight(x: Node, y: Node)
      reads this, nodes
    {
      var p, m := old(x.parent), old(y.right);
      && y == old(x.left) && nodes == old(nodes) && order == old(order)
      && root == (if p == null then y else old(root))
      && (forall n {:trigger n.right} :: n in nodes ==>
            n.right == if n == y then x else if n == p && old(p.left) != x then y else old(n.right))
      && (forall n {:trigger n.left} :: n in nodes ==>
            n.left == if n == x then m else if n == p && old(p.left) == x then y else old(n.left))
      && (forall n {:trigger n.parent} :: n in nodes ==>
            n.parent == if n == x then y else if n == y then p else if n == m then x else old(n.parent))
      && (forall n {:trigger n.idx} :: n in nodes ==> n.idx == old(n.idx))
      && (forall n {:trigger n.hi} :: n in nodes ==> n.hi == if n == y then old(x.hi) else old(n.hi))
      && (forall n {:trigger n.lo} :: n in nodes ==>
            n.lo == if n == y then old(x.lo) else if n == x then old(y.idx) + 1 else old(n.lo))
    }

    twostate lemma RotatedRightKeeps(x: Node)
      requires old(Struct()) && x in old(nodes) && old(x.left) != null
      requires RotatedRight(x, old(x.left))
      ensures Struct()
    {
      assert old(Linked(x)) && old(Linked(x.left));
      forall n | n in nodes
        ensures Linked(n)
      {
        var at := (x, n);
        RotatedRightUp(at);
        RotatedRightDown(at);
      }
    }

    /** The rotation keeps the place and the parent link of node at.1. */
    twostate lemma RotatedRightUp(at: (Node, Node))
      requires old(Struct()) && at.0 in old(nodes) && old(at.0.left) != null
      requires RotatedRight(at.0, old(at.0.left)) && at.1 in nodes
      ensures Placed(at.1) && ParentOk(at.1)
    {
      var (x, n) := at;
      var y, p := old(x.left), old(x.parent);
      var m := old(y.right);
      assert old(Linked(x)) && old(Linked(y)) && old(Linked(n));
      if p != null { assert old(Linked(p)); }
      if m != null { assert old(Linked(m)); }
    }

    /** The rotation keeps the child links of node at.1. */
    twostate lemma RotatedRightDown(at: (Node, Node))
      requires old(Struct()) && at.0 in old(nodes) && old(at.0.left) != null
      requires RotatedRight(at.0, old(at.0.left)) && at.1 in nodes
      ensures LeftOk(at.1) && RightOk(at.1)
    {
      var (x, n) := at;
      var y, p := old(x.left), old(x.parent);
      var m := old(y.right);
      assert old(Linked(x)) && old(Linked(y)) && old(Linked(n));
      if p != null { assert old(Linked(p)); }
      if m != null { assert old(Linked(m)); }
    }

    lemma LeftNeighbours(x: Node)
      requires Struct() && x in nodes && x.left != null
      ensures var y, p := x.left, x.parent; var m := y.right;
              && y in nodes && y != x
              && (p != null ==> p in nodes && p != x && p != y && (p.left == x || p.right == x) && p.left != p.right)
              && (m != null ==> m in nodes && m != x && m != y && m != p)
    {
      assert Linked(x) && Linked(x.left);
      if x.parent != null { assert Linked(x.parent); }
      if x.left.right != null { assert Linked(x.left.right); }
    }

    /** Right rotation at x: its left child takes its place. */
    method RotateRight(x: Node)
      requires Struct() && x in nodes && x.left != null
      modifies this`root, nodes`parent, nodes`left, nodes`right, nodes`lo, nodes`hi
      ensures Struct()
      ensures RotatedRight(x, old(x.left))
    {
      hide Struct;
      LeftNeighbours(x);
      var y := x.left;
      var p, m := x.parent, y.right;
      x.left := m;
      y.right := x;
      ChangeChild(x, y, p);
      SetParents(x, y, p, m);
      y.lo, y.hi, x.lo := x.lo, x.hi, y.idx + 1;
      RotatedRightKeeps(x);
    }

    /** `__ns_rb_change_child`: the link that led to `was` now leads to `now`. */
    method ChangeChild(was: Node, now: Node?, parent: Node?)
      requires parent == null || parent in nodes
      modifies this`root, nodes`left, nodes`right
      ensures root == if parent == null then now else old(root)
      ensures forall n {:trigger n.left} :: n in nodes ==>
                n.left == if n == parent && old(n.left) == was then now else old(n.left)
      ensures forall n {:trigger n.right} :: n in nodes ==>
                n.right == if n == parent && old(n.left) != was then now else old(n.right)
    {
      if parent != null {
        if parent.left == was { parent.left := now; } else { parent.right := now; }
      } else {
        root := now;
      }
    }

    /** The parent links of a rotation: `up` replaces `down` below `p`, and `inner` moves from `up` to `down`. */
    method SetParents(down: Node, up: Node, p: Node?, inner: Node?)
      requires down in nodes && up in nodes && down != up && (inner != null ==> inner in nodes)
      requires inner != down && inner != up
      modifies nodes`parent
      ensures forall n {:trigger n.parent} :: n in nodes ==>
                n.parent == if n == down then up else if n == up then p else if n == inner then down else old(n.parent)
    {
      if inner != null { inner.parent := down; }
      up.parent := p;
      down.parent := up;
    }

    // ---- insertion ----

    /** Case 1: parent and uncle are red. They turn black and their parent g red; g may now have a red parent. */
    method FlipColors(p: Node, u: Node, g: Node, ghost node: Node)
      requires Struct() && Balanced() && NoRedRedBut(node)
      requires g in nodes && node in nodes && node.parent == p && p.color.Red? && u.color.Red?
      requires (g.left == p && g.right == u) || (g.left == u && g.right == p)
      modifies nodes`color, nodes`bh
      ensures Struct() && Balanced() && NoRedRedBut(g) && g.color.Red?
    {
      FlipFacts(g, node);
      u.color := Black;
      p.color := Black;
      g.color := Red;
      u.bh, p.bh := u.bh + 1, p.bh + 1;
      var at := (g, node);
      FlipKeeps(at);
    }

    lemma FlipFacts(g: Node, node: Node)
      requires Struct() && g in nodes && g.left != null && g.right != null && node in nodes && node.parent != null
      requires NoRedRedBut(node) && node.parent.color.Red? && (node.parent == g.left || node.parent == g.right)
      ensures g.left in nodes && g.right in nodes && g.left != g.right && g.left != g && g.right != g
      ensures g.color.Black? && node != g.left && node != g.right
    {
      assert Linked(g) && Linked(g.left) && Linked(g.right) && Linked(node);
      assert RedOk(node.parent);
    }

    /** Recolouring moves no link, so the shape stays as it was. */
    twostate predicate SameLinks()
      reads this, nodes
    {
      && root == old(root) && nodes == old(nodes) && order == old(order)
      && (forall n {:trigger n.left} :: n in nodes ==> n.left == old(n.left))
      && (forall n {:trigger n.right} :: n in nodes ==> n.right == old(n.right))
      && (forall n {:trigger n.parent} :: n in nodes ==> n.parent == old(n.parent))
      && (forall n {:trigger n.idx} :: n in nodes ==> n.idx == old(n.idx))
      && (forall n {:trigger n.lo} :: n in nodes ==> n.lo == old(n.lo))
      && (forall n {:trigger n.hi} :: n in nodes ==> n.hi == old(n.hi))
    }

    twostate lemma SameLinksKeep()
      requires old(Struct()) && SameLinks()
      ensures Struct()
    {
      forall n | n in nodes
        ensures Linked(n)
      {
        assert old(Linked(n));
      }
    }

    twostate predicate Flipped(g: Node, node: Node)
      reads this, nodes
    {
      && old(Struct() && Balanced() && NoRedRedBut(node)) && SameLinks()
      && g in nodes && node in nodes && old(g.color.Black?) && g.left != null && g.right != null
      && g.left in nodes && g.right in nodes && g.left != g.right
      && old(g.left.color.Red? && g.right.color.Red?) && node.parent in {g.left, g.right}
      && (forall n {:trigger n.color} :: n in nodes ==>
            n.color == if n == g then Red else if n == g.left || n == g.right then Black else old(n.color))
      && (forall n {:trigger n.bh} :: n in nodes ==>
            n.bh == old(n.bh) + if n == g.left || n == g.right then 1 else 0)
    }

    twostate lemma FlipKeeps(at: (Node, Node))
      requires Flipped(at.0, at.1)
      ensures Struct() && Balanced() && NoRedRedBut(at.0)
    {
      var (g, node) := at;
      SameLinksKeep();
      forall n | n in nodes
        ensures BlackOk(n) && (n != g ==> RedOk(n))
      {
        var at' := (g, node, n);
        FlippedBlackAt(at');
        FlippedRedAt(at');
      }
    }

    twostate lemma FlippedBlackAt(at: (Node, Node, Node))
      requires Flipped(at.0, at.1) && at.2 in nodes
      ensures BlackOk(at.2)
    {
      var (g, node, n) := at;
      assert old(Linked(g)) && old(Linked(n)) && old(BlackOk(n)) && old(BlackOk(g));
      var gl, gr := old(g.left), old(g.right);
      assert old(Linked(gl)) && old(Linked(gr)) && old(BlackOk(gl)) && old(BlackOk(gr));
      var l, r := old(n.left), old(n.right);
      if l != null { assert old(Linked(l)); }
      if r != null { assert old(Linked(r)); }
    }

    twostate lemma FlippedRedAt(at: (Node, Node, Node))
      requires Flipped(at.0, at.1) && at.2 in nodes
      ensures at.2 != at.0 ==> RedOk(at.2)
    {
      var (g, node, n) := at;
      assert old(Linked(g)) && old(Linked(n));
      var gl, gr, q := old(g.left), old(g.right), old(n.parent);
      assert old(Linked(gl)) && old(Linked(gr));
      if n != node { assert old(RedOk(n)); }
      if q != null { assert old(Linked(q)); }
    }

    /** The red node reached the root: it turns black, which lengthens all paths alike. */
    method PaintRootBlack(node: Node)
      requires Struct() && Balanced() && node in nodes && node.parent == null && node.color.Red? && NoRedRedBut(node)
      modifies nodes`color, nodes`bh
      ensures Struct() && Colored()
    {
      node.color := Black;
      node.bh := node.bh + 1;
      SameLinksKeep();
      forall n | n in nodes
        ensures BlackOk(n) && RedOk(n)
      {
        assert old(Linked(n)) && old(BlackOk(n)) && (n != node ==> old(RedOk(n)));
      }
    }

    /** Case 2: the red node is the inner grandchild; rotating its red parent turns it into the outer one. */
    method InnerRotateLeft(p: Node)
      requires Struct() && Balanced()
      requires p in nodes && p.color.Red? && p.right != null && p.right.color.Red? && NoRedRedBut(p.right)
      modifies this`root, nodes`parent, nodes`left, nodes`right, nodes`lo, nodes`hi
      ensures Struct() && Balanced() && NoRedRedBut(p)
      ensures RotatedLeft(p, old(p.right))
    {
      hide Struct, Balanced, NoRedRedBut;
      RotateLeft(p);
      InnerLeftColored(p);
    }

    twostate predicate InnerLeft(p: Node)
      reads this, nodes
    {
      && old(Struct() && Balanced()) && p in old(nodes) && old(p.color.Red?)
      && old(p.right) != null && old(p.right.color.Red? && NoRedRedBut(p.right))
      && RotatedLeft(p, old(p.right))
      && (forall n {:trigger n.color} :: n in nodes ==> n.color == old(n.color))
      && (forall n {:trigger n.bh} :: n in nodes ==> n.bh == old(n.bh))
    }

    twostate lemma InnerLeftColored(p: Node)
      requires InnerLeft(p)
      ensures Balanced() && NoRedRedBut(p)
    {
      forall n | n in nodes
        ensures BlackOk(n) && (n != p ==> RedOk(n))
      {
        var at := (p, n);
        InnerLeftBlackAt(at);
        InnerLeftRedAt(at);
      }
    }

    twostate lemma InnerLeftBlackAt(at: (Node, Node))
      requires InnerLeft(at.0) && at.1 in nodes
      ensures BlackOk(at.1)
    {
      var (p, n) := at;
      var node := old(p.right);
      assert old(Linked(p)) && old(Linked(node)) && old(Linked(n));
      assert old(BlackOk(p)) && old(BlackOk(node)) && old(BlackOk(n));
      var m, l, r := old(node.left), old(n.left), old(n.right);
      if m != null { assert old(Linked(m)); }
      if l != null { assert old(Linked(l)); }
      if r != null { assert old(Linked(r)); }
    }

    twostate lemma InnerLeftRedAt(at: (Node, Node))
      requires InnerLeft(at.0) && at.1 in nodes
      ensures at.1 != at.0 ==> RedOk(at.1)
    {
      var (p, n) := at;
      var node := old(p.right);
      assert old(Linked(p)) && old(Linked(node)) && old(Linked(n)) && old(RedOk(p));
      if n != node { assert old(RedOk(n)); }
      var m, q := old(node.left), old(n.parent);
      if m != null { assert old(Linked(m)); }
      if q != null { assert old(Linked(q)); }
    }

    /** Case 2: the red node is the inner grandchild; rotating its red parent turns it into the outer one. */
    method InnerRotateRight(p: Node)
      requires Struct() && Balanced()
      requires p in nodes && p.color.Red? && p.left != null && p.left.color.Red? && NoRedRedBut(p.left)
      modifies this`root, nodes`parent, nodes`right, nodes`left, nodes`lo, nodes`hi
      ensures Struct() && Balanced() && NoRedRedBut(p)
      ensures RotatedRight(p, old(p.left))
    {
      hide Struct, Balanced, NoRedRedBut;
      RotateRight(p);
      InnerRightColored(p);
    }

    twostate predicate InnerRight(p: Node)
      reads this, nodes
    {
      && old(Struct() && Balanced()) && p in old(nodes) && old(p.color.Red?)
      && old(p.left) != null && old(p.left.color.Red? && NoRedRedBut(p.left))
      && RotatedRight(p, old(p.left))
      && (forall n {:trigger n.color} :: n in nodes ==> n.color == old(n.color))
      && (forall n {:trigger n.bh} :: n in nodes ==> n.bh == old(n.bh))
    }

    twostate lemma InnerRightColored(p: Node)
      requires InnerRight(p)
      ensures Balanced() && NoRedRedBut(p)
    {
      forall n | n in nodes
        ensures BlackOk(n) && (n != p ==> RedOk(n))
      {
        var at := (p, n);
        InnerRightBlackAt(at);
        InnerRightRedAt(at);
      }
    }

    twostate lemma InnerRightBlackAt(at: (Node, Node))
      requires InnerRight(at.0) && at.1 in nodes
      ensures BlackOk(at.1)
    {
      var (p, n) := at;
      var node := old(p.left);
      assert old(Linked(p)) && old(Linked(node)) && old(Linked(n));
      assert old(BlackOk(p)) && old(BlackOk(node)) && old(BlackOk(n));
      var m, l, r := old(node.right), old(n.left), old(n.right);
      if m != null { assert old(Linked(m)); }
      if l != null { assert old(Linked(l)); }
      if r != null { assert old(Linked(r)); }
    }

    twostate lemma InnerRightRedAt(at: (Node, Node))
      requires InnerRight(at.0) && at.1 in nodes
      ensures at.1 != at.0 ==> RedOk(at.1)
    {
      var (p, n) := at;
      var node := old(p.left);
      assert old(Linked(p)) && old(Linked(node)) && old(Linked(n)) && old(RedOk(p));
      if n != node { assert old(RedOk(n)); }
      var m, q := old(node.right), old(n.parent);
      if m != null { assert old(Linked(m)); }
      if q != null { assert old(Linked(q)); }
    }

    /** Case 3: the uncle is black and the red node is the outer grandchild. g turns red below its former child. */
    method OuterRotateRight(g: Node)
      requires Struct() && Balanced()
      requires g in nodes && g.left != null && g.left.left != null
      requires g.left.color.Red? && g.left.left.color.Red? && NoRedRedBut(g.left.left)
      requires g.right == null || g.right.color.Black?
      modifies this`root, nodes`parent, nodes`left, nodes`right, nodes`lo, nodes`hi, nodes`color, nodes`bh
      ensures Struct() && Colored()
    {
      hide Struct, Balanced, NoRedRedBut;
      OuterRightFacts(g);
      var p := g.left;
      RotateRight(g);
      p.color := g.color;
      g.color := Red;
      p.bh, g.bh := g.bh, g.bh - 1;
      RotatedRightKeeps(g);
      OuterRightColored(g);
    }

    lemma OuterRightFacts(g: Node)
      requires Struct() && Balanced()
      requires g in nodes && g.left != null && g.left.left != null
      requires g.left.color.Red? && g.left.left.color.Red? && NoRedRedBut(g.left.left)
      ensures var p := g.left;
              && p in nodes && p != g && p.parent == g && p.left in nodes && p.left != g && g.color.Black?
              && p.left != p.right && (p.right != null ==> p.right in nodes && p.right.color.Black?)
              && g.bh > 0 && p.bh == g.bh - 1 == Bh(g.right) && Bh(p.right) == p.bh == Bh(p.left)
    {
      var p := g.left;
      assert Linked(g) && Linked(p) && Linked(p.left);
      assert RedOk(p) && BlackOk(g) && BlackOk(p);
      if p.right != null { assert Linked(p.right) && RedOk(p.right); }
    }

    /** The whole effect of case 3: the rotation with the colours and black heights exchanged. */
    twostate predicate OuterRight(g: Node)
      reads this, nodes
    {
      && old(Struct() && Balanced()) && g in old(nodes) && old(g.left) != null && old(g.left.left) != null
      && old(g.left.color.Red? && g.left.left.color.Red? && NoRedRedBut(g.left.left))
      && old(g.right == null || g.right.color.Black?)
      && RotatedRight(g, old(g.left))
      && (forall n {:trigger n.color} :: n in nodes ==>
            n.color == if n == old(g.left) then Black else if n == g then Red else old(n.color))
      && (forall n {:trigger n.bh} :: n in nodes ==>
            n.bh == if n == old(g.left) then old(g.bh) else if n == g then old(g.bh) - 1 else old(n.bh))
    }

    twostate lemma OuterRightColored(g: Node)
      requires OuterRight(g)
      ensures Colored()
    {
      forall n | n in nodes
        ensures BlackOk(n) && RedOk(n)
      {
        var at := (g, n);
        OuterRightBlackAt(at);
        OuterRightRedAt(at);
      }
    }

    twostate lemma OuterRightBlackAt(at: (Node, Node))
      requires OuterRight(at.0) && at.1 in nodes
      ensures BlackOk(at.1)
    {
      var (g, n) := at;
      var p := old(g.left);
      assert old(Linked(g)) && old(Linked(p)) && old(Linked(n));
      assert old(BlackOk(g)) && old(BlackOk(p)) && old(BlackOk(n)) && old(RedOk(p));
      var l, r, m := old(n.left), old(n.right), old(p.right);
      if m != null { assert old(Linked(m)); }
      if l != null { assert old(Linked(l)); }
      if r != null { assert old(Linked(r)); }
    }

    twostate lemma OuterRightRedAt(at: (Node, Node))
      requires OuterRight(at.0) && at.1 in nodes
      ensures RedOk(at.1)
    {
      var (g, n) := at;
      var p := old(g.left);
      var node, m, q := old(p.left), old(p.right), old(n.parent);
      assert old(Linked(g)) && old(Linked(p)) && old(Linked(n)) && old(Linked(node));
      assert old(RedOk(p)) && (n != node ==> old(RedOk(n)));
      if m != null { assert old(Linked(m)) && old(RedOk(m)); }
      if q != null { assert old(Linked(q)); }
    }

    /** Case 3: the uncle is black and the red node is the outer grandchild. g turns red below its former child. */
    method OuterRotateLeft(g: Node)
      requires Struct() && Balanced()
      requires g in nodes && g.right != null && g.right.right != null
      requires g.right.color.Red? && g.right.right.color.Red? && NoRedRedBut(g.right.right)
      requires g.left == null || g.left.color.Black?
      modifies this`root, nodes`parent, nodes`right, nodes`left, nodes`lo, nodes`hi, nodes`color, nodes`bh
      ensures Struct() && Colored()
    {
      hide Struct, Balanced, NoRedRedBut;
      OuterLeftFacts(g);
      var p := g.right;
      RotateLeft(g);
      p.color := g.color;
      g.color := Red;
      p.bh, g.bh := g.bh, g.bh - 1;
      RotatedLeftKeeps(g);
      OuterLeftColored(g);
    }

    lemma OuterLeftFacts(g: Node)
      requires Struct() && Balanced()
      requires g in nodes && g.right != null && g.right.right != null
      requires g.right.color.Red? && g.right.right.color.Red? && NoRedRedBut(g.right.right)
      ensures var p := g.right;
              && p in nodes && p != g && p.parent == g && p.right in nodes && p.right != g && g.color.Black?
              && p.right != p.left && (p.left != null ==> p.left in nodes && p.left.color.Black?)
              && g.bh > 0 && p.bh == g.bh - 1 == Bh(g.left) && Bh(p.left) == p.bh == Bh(p.right)
    {
      var p := g.right;
      assert Linked(g) && Linked(p) && Linked(p.right);
      assert RedOk(p) && BlackOk(g) && BlackOk(p);
      if p.left != null { assert Linked(p.left) && RedOk(p.left); }
    }

    /** The whole effect of case 3: the rotation with the colours and black heights exchanged. */
    twostate predicate OuterLeft(g: Node)
      reads this, nodes
    {
      && old(Struct() && Balanced()) && g in old(nodes) && old(g.right) != null && old(g.right.right) != null
      && old(g.right.color.Red? && g.right.right.color.Red? && NoRedRedBut(g.right.right))
      && old(g.left == null || g.left.color.Black?)
      && RotatedLeft(g, old(g.right))
      && (forall n {:trigger n.color} :: n in nodes ==>
            n.color == if n == old(g.right) then Black else if n == g then Red else old(n.color))
      && (forall n {:trigger n.bh} :: n in nodes ==>
            n.bh == if n == old(g.right) then old(g.bh) else if n == g then old(g.bh) - 1 else old(n.bh))
    }

    twostate lemma OuterLeftColored(g: Node)
      requires OuterLeft(g)
      ensures Colored()
    {
      forall n | n in nodes
        ensures BlackOk(n) && RedOk(n)
      {
        var at := (g, n);
        OuterLeftBlackAt(at);
        OuterLeftRedAt(at);
      }
    }

    twostate lemma OuterLeftBlackAt(at: (Node, Node))
      requires OuterLeft(at.0) && at.1 in nodes
      ensures BlackOk(at.1)
    {
      var (g, n) := at;
      var p := old(g.right);
      assert old(Linked(g)) && old(Linked(p)) && old(Linked(n));
      assert old(BlackOk(g)) && old(BlackOk(p)) && old(BlackOk(n)) && old(RedOk(p));
      var l, r, m := old(n.right), old(n.left), old(p.left);
      if m != null { assert old(Linked(m)); }
      if l != null { assert old(Linked(l)); }
      if r != null { assert old(Linked(r)); }
    }

    twostate lemma OuterLeftRedAt(at: (Node, Node))
      requires OuterLeft(at.0) && at.1 in nodes
      ensures RedOk(at.1)
    {
      var (g, n) := at;
      var p := old(g.right);
      var node, m, q := old(p.right), old(p.left), old(n.parent);
      assert old(Linked(g)) && old(Linked(p)) && old(Linked(n)) && old(Linked(node));
      assert old(RedOk(p)) && (n != node ==> old(RedOk(n)));
      if m != null { assert old(Linked(m)) && old(RedOk(m)); }
      if q != null { assert old(Linked(q)); }
    }

    /** `__ns_rb_insert`: climbs from the new red node until no red node has a red parent. */
    method InsertFixup(start: Node)
      requires Struct() && Balanced() && start in nodes && start.color.Red? && NoRedRedBut(start)
      modifies this`root, nodes`parent, nodes`left, nodes`right, nodes`lo, nodes`hi, nodes`color, nodes`bh
      ensures Struct() && Colored()
    {
      hide Struct, Balanced, NoRedRedBut, Colored;
      var node := start;
      var parent := node.parent;
      while true
        invariant Struct() && Balanced() && node in nodes && node.color.Red? && NoRedRedBut(node)
        invariant parent == node.parent
        decreases |order| - (node.hi - node.lo)
      {
        if parent == null {
          PaintRootBlack(node);
          break;
        }
        ParentFacts(node);
        if parent.color.Black? {
          NothingLeft(node);
          break;
        }
        var gparent := parent.parent;
        var tmp := gparent.right;
        if parent != tmp {
          if tmp != null && tmp.color.Red? {
            FlipColors(parent, tmp, gparent, node);
            node := gparent;
            parent := node.parent;
            continue;
          }
          tmp := parent.right;
          if node == tmp {
            InnerRotateLeft(parent);
            parent := node;
          }
          OuterRotateRight(gparent);
          break;
        } else {
          tmp := gparent.left;
          if tmp != null && tmp.color.Red? {
            FlipColors(parent, tmp, gparent, node);
            node := gparent;
            parent := node.parent;
            continue;
          }
          tmp := parent.left;
          if node == tmp {
            InnerRotateRight(parent);
            parent := node;
          }
          OuterRotateLeft(gparent);
          break;
        }
      }
    }

    lemma ParentFacts(node: Node)
      requires Struct() && NoRedRedBut(node) && node in nodes && node.parent != null
      ensures var p := node.parent;
              && p in nodes && (p.left == node || p.right == node) && p.left != p.right
              && p.lo <= node.lo && node.hi <= p.hi && node.hi - node.lo < p.hi - p.lo <= |order|
              && (p.color.Red? ==>
                    && p.parent != null && p.parent in nodes && p.parent.color.Black?
                    && (p.parent.left == p || p.parent.right == p) && p.parent.left != p.parent.right
                    && p.parent != node && (p.parent.left != null ==> p.parent.left in nodes)
                    && (p.parent.right != null ==> p.parent.right in nodes)
                    && p.hi - p.lo < p.parent.hi - p.parent.lo <= |order|)
    {
      assert Linked(node) && Linked(node.parent) && RedOk(node.parent);
      if node.parent.parent != null { assert Linked(node.parent.parent); }
    }

    lemma NothingLeft(node: Node)
      requires Balanced() && NoRedRedBut(node) && node in nodes && node.parent != null && node.parent in nodes
      requires node.parent.color.Black?
      ensures Colored()
    {
    }

    // ---- adding a node ----

    /** The comparison function orders the given keys: a total preorder with consistent signs. */
    static ghost predicate PreorderOn(cmp: (int, int) -> int, keys: set<int>) {
      && (forall a, b :: a in keys && b in keys ==> (cmp(a, b) < 0 <==> cmp(b, a) > 0))
      && (forall a, b, c :: a in keys && b in keys && c in keys && cmp(a, b) <= 0 && cmp(b, c) <= 0 ==> cmp(a, c) <= 0)
    }

    static lemma Transitive(cmp: (int, int) -> int, keys: set<int>, a: int, b: int, c: int)
      requires PreorderOn(cmp, keys) && a in keys && b in keys && c in keys
      ensures (cmp(a, b) <= 0 <==> cmp(b, a) >= 0) && (cmp(b, c) <= 0 <==> cmp(c, b) >= 0)
      ensures cmp(a, b) < 0 && cmp(b, c) <= 0 ==> cmp(a, c) < 0
      ensures cmp(a, b) <= 0 && cmp(b, c) < 0 ==> cmp(a, c) < 0
      ensures cmp(a, b) >= 0 && cmp(b, c) >= 0 ==> cmp(a, c) >= 0
      ensures cmp(a, b) > 0 && cmp(b, c) >= 0 ==> cmp(a, c) > 0
    {
    }

    ghost predicate KeysIn(keys: set<int>)
      reads this`nodes, nodes`key
    {
      forall n {:trigger n.key} :: n in nodes ==> n.key in keys
    }

    ghost predicate Sorted(cmp: (int, int) -> int)
      reads this`order, order`key
    {
      SortedSeq(cmp, order)
    }

    static ghost predicate SortedSeq(cmp: (int, int) -> int, s: seq<Node>)
      reads s`key
    {
      forall i, j :: 0 <= i < j < |s| ==> cmp(s[i].key, s[j].key) <= 0
    }

    /** `ns_rb_link_node` at an empty child link: the effect on links and on every position in the sequence. */
    twostate predicate LinkedNew(node: Node, parent: Node?, toLeft: bool, pos: int)
      reads this, nodes, node
    {
      && old(Struct()) && node !in old(nodes) && nodes == old(nodes) + {node}
      && (if parent == null then root == node && old(root) == null && pos == 0
          else root == old(root) && parent in old(nodes)
               && (if toLeft then old(parent.left) == null && pos == old(parent.idx)
                   else old(parent.right) == null && pos == old(parent.idx) + 1))
      && 0 <= pos <= |old(order)| && order == old(order)[..pos] + [node] + old(order)[pos..]
      && node.parent == parent && node.left == null && node.right == null
      && node.idx == pos && node.lo == pos && node.hi == pos + 1
      && (forall n {:trigger n.left} :: n in old(nodes) ==>
            n.left == if n == parent && toLeft then node else old(n.left))
      && (forall n {:trigger n.right} :: n in old(nodes) ==>
            n.right == if n == parent && !toLeft then node else old(n.right))
      && (forall n {:trigger n.parent} :: n in old(nodes) ==> n.parent == old(n.parent))
      && (forall n {:trigger n.idx} :: n in old(nodes) ==> n.idx == old(n.idx) + if old(n.idx) >= pos then 1 else 0)
      && (forall n {:trigger n.lo} :: n in old(nodes) ==>
            n.lo == old(n.lo) + if old(n.lo) > pos || (old(n.lo) == pos && !toLeft) then 1 else 0)
      && (forall n {:trigger n.hi} :: n in old(nodes) ==>
            n.hi == old(n.hi) + if old(n.hi) > pos || (old(n.hi) == pos && !toLeft) then 1 else 0)
    }

    twostate lemma LinkedNewKeeps(at: (Node, Node?, bool, int))
      requires LinkedNew(at.0, at.1, at.2, at.3)
      ensures Struct()
    {
      var (node, parent, toLeft, pos) := at;
      forall n | n in nodes
        ensures Linked(n)
      {
        var at' := (node, parent, toLeft, pos, n);
        LinkedNewAt(at');
      }
      LinkedNewOrder(at);
    }

    twostate lemma LinkedNewOrder(at: (Node, Node?, bool, int))
      requires LinkedNew(at.0, at.1, at.2, at.3)
      ensures (forall i :: 0 <= i < |order| ==> order[i] in nodes && order[i].idx == i) && RootOk()
    {
      var (node, parent, toLeft, pos) := at;
      forall i | 0 <= i < |order|
        ensures order[i] in nodes && order[i].idx == i
      {
        if i < pos { assert order[i] == old(order)[i]; }
        if i > pos { assert order[i] == old(order)[i - 1]; }
      }
      if parent != null {
        assert old(Linked(parent));
        var r := old(root);
        assert old(Linked(r));
      }
    }

    twostate lemma LinkedNewAt(at: (Node, Node?, bool, int, Node))
      requires LinkedNew(at.0, at.1, at.2, at.3) && at.4 in nodes
      ensures Linked(at.4)
    {
      LinkedNewPlace(at);
      LinkedNewChildren(at);
    }

    twostate lemma LinkedNewPlace(at: (Node, Node?, bool, int, Node))
      requires LinkedNew(at.0, at.1, at.2, at.3) && at.4 in nodes
      ensures Placed(at.4) && ParentOk(at.4)
    {
      var (node, parent, toLeft, pos, n) := at;
      if parent != null { assert old(Linked(parent)); }
      if n != node {
        assert old(Linked(n));
        if old(n.idx) < pos { assert order[n.idx] == old(order)[n.idx]; }
        else { assert order[n.idx] == old(order)[n.idx - 1]; }
      }
    }

    twostate lemma LinkedNewChildren(at: (Node, Node?, bool, int, Node))
      requires LinkedNew(at.0, at.1, at.2, at.3) && at.4 in nodes
      ensures LeftOk(at.4) && RightOk(at.4)
    {
      var (node, parent, toLeft, pos, n) := at;
      if parent != null { assert old(Linked(parent)); }
      if n != node {
        assert old(Linked(n));
        var l, r := old(n.left), old(n.right);
        if l != null { assert old(Linked(l)); }
        if r != null { assert old(Linked(r)); }
      }
    }

    /** The new node is red and hangs where there was no child: only itself may break the red rule. */
    twostate lemma LinkedNewColored(at: (Node, Node?, bool, int))
      requires LinkedNew(at.0, at.1, at.2, at.3) && old(Colored())
      requires at.0.color.Red? && at.0.bh == 0
      requires forall n {:trigger n.color} :: n in old(nodes) ==> n.color == old(n.color)
      requires forall n {:trigger n.bh} :: n in old(nodes) ==> n.bh == old(n.bh)
      ensures Balanced() && NoRedRedBut(at.0)
    {
      var (node, parent, toLeft, pos) := at;
      forall n | n in nodes
        ensures BlackOk(n) && (n != node ==> RedOk(n))
      {
        if n != node {
          assert old(Linked(n)) && old(BlackOk(n)) && old(RedOk(n));
        }
      }
    }

    /** `ns_rb_link_node` with the bookkeeping of the sequence. */
    method Link(node: Node, parent: Node?, toLeft: bool, ghost pos: int)
      requires Struct() && Colored() && node !in nodes
      requires if parent == null then root == null && pos == 0
               else parent in nodes && if toLeft then parent.left == null && pos == parent.idx
                                       else parent.right == null && pos == parent.idx + 1
      modifies this`root, this`nodes, this`order, nodes`left, nodes`right, nodes`idx, nodes`lo, nodes`hi,
        node`parent, node`color, node`left, node`right, node`idx, node`lo, node`hi, node`bh
      ensures Struct() && Balanced() && NoRedRedBut(node)
      ensures node.color.Red? && nodes == old(nodes) + {node}
      ensures 0 <= pos <= |old(order)| && order == old(order)[..pos] + [node] + old(order)[pos..]
    {
      hide Struct, Balanced, NoRedRedBut, Colored;
      PosInRange(parent, pos);
      node.parent := parent;
      node.color := Red;
      node.left, node.right := null, null;
      StoreLink(node, parent, toLeft);
      Observe(node, toLeft, pos);
      var at := (node, parent, toLeft, pos);
      LinkedNewKeeps(at);
      LinkedNewColored(at);
    }

    /** The sequence as observed from the nodes: the new node takes position pos and later ones move up. */
    ghost method Observe(node: Node, toLeft: bool, pos: int)
      requires node !in nodes && 0 <= pos <= |order|
      modifies this`nodes, this`order, nodes`idx, nodes`lo, nodes`hi, node`idx, node`lo, node`hi, node`bh
      ensures node.idx == pos && node.lo == pos && node.hi == pos + 1 && node.bh == 0
      ensures nodes == old(nodes) + {node} && order == old(order)[..pos] + [node] + old(order)[pos..]
      ensures forall n {:trigger n.idx} :: n in old(nodes) ==> n.idx == old(n.idx) + if old(n.idx) >= pos then 1 else 0
      ensures forall n {:trigger n.lo} :: n in old(nodes) ==>
                n.lo == old(n.lo) + if old(n.lo) > pos || (old(n.lo) == pos && !toLeft) then 1 else 0
      ensures forall n {:trigger n.hi} :: n in old(nodes) ==>
                n.hi == old(n.hi) + if old(n.hi) > pos || (old(n.hi) == pos && !toLeft) then 1 else 0
      ensures forall n {:trigger n.bh} :: n in old(nodes) ==> n.bh == old(n.bh)
    {
      MakeRoom(pos, toLeft);
      node.idx, node.lo, node.hi, node.bh := pos, pos, pos + 1, 0;
      order := order[..pos] + [node] + order[pos..];
      nodes := nodes + {node};
    }

    /** The store through the link pointer that the descent ended at. */
    method StoreLink(node: Node, parent: Node?, toLeft: bool)
      requires node !in nodes && (parent == null || parent in nodes)
      modifies this`root, nodes`left, nodes`right
      ensures root == if parent == null then node else old(root)
      ensures forall n {:trigger n.left} :: n in nodes ==>
                n.left == if n == parent && toLeft then node else old(n.left)
      ensures forall n {:trigger n.right} :: n in nodes ==>
                n.right == if n == parent && !toLeft then node else old(n.right)
    {
      if parent == null { root := node; } else if toLeft { parent.left := node; } else { parent.right := node; }
    }

    ghost method MakeRoom(pos: int, toLeft: bool)
      modifies nodes`idx, nodes`lo, nodes`hi
      ensures forall n {:trigger n.idx} :: n in nodes ==> n.idx == old(n.idx) + if old(n.idx) >= pos then 1 else 0
      ensures forall n {:trigger n.lo} :: n in nodes ==>
                n.lo == old(n.lo) + if old(n.lo) > pos || (old(n.lo) == pos && !toLeft) then 1 else 0
      ensures forall n {:trigger n.hi} :: n in nodes ==>
                n.hi == old(n.hi) + if old(n.hi) > pos || (old(n.hi) == pos && !toLeft) then 1 else 0
    {
      forall n | n in nodes { n.idx := n.idx + if n.idx >= pos then 1 else 0; }
      forall n | n in nodes { n.lo := n.lo + if n.lo > pos || (n.lo == pos && !toLeft) then 1 else 0; }
      forall n | n in nodes { n.hi := n.hi + if n.hi > pos || (n.hi == pos && !toLeft) then 1 else 0; }
    }

    lemma PosInRange(parent: Node?, pos: int)
      requires Struct()
      requires if parent == null then pos == 0 else parent in nodes && (pos == parent.idx || pos == parent.idx + 1)
      ensures 0 <= pos <= |order|
    {
      if parent != null { assert Linked(parent); }
    }

    /** Where the descent of an insertion stands: `cur` covers exactly the positions lo..hi that are still open. */
    ghost predicate Descended(cur: Node?, parent: Node?, toLeft: bool, lo: int, hi: int)
      reads this, nodes
    {
      && 0 <= lo <= hi <= |order|
      && (if cur == null then lo == hi else cur in nodes && cur.lo == lo && cur.hi == hi)
      && (if parent == null then cur == root && lo == 0 && hi == |order|
          else parent in nodes
               && (if toLeft then cur == parent.left && lo == parent.lo && hi == parent.idx
                   else cur == parent.right && lo == parent.idx + 1 && hi == parent.hi))
    }

    /** The stable place of a key: everything before compares not greater than it, everything from pos on greater. */
    static ghost predicate StablePlace(cmp: (int, int) -> int, s: seq<Node>, key: int, pos: int)
      reads s`key
    {
      && 0 <= pos <= |s|
      && (forall i :: 0 <= i < pos ==> cmp(key, s[i].key) >= 0)
      && (forall i :: pos <= i < |s| ==> cmp(key, s[i].key) < 0)
    }

    lemma DescentStarts()
      requires Struct()
      ensures Descended(root, null, false, 0, |order|)
    {
    }

    /** One comparison decides for a whole side of the sequence. */
    lemma DescentStep(cur: Node, parent: Node?, toLeft: bool, lo: int, hi: int, key: int, cmp: (int, int) -> int,
        keys: set<int>)
      requires Struct() && Sorted(cmp) && KeysIn(keys) && PreorderOn(cmp, keys) && key in keys
      requires Descended(cur, parent, toLeft, lo, hi)
      ensures cur in nodes && lo <= cur.idx < hi && order[cur.idx] == cur
      ensures Descended(cur.left, cur, true, lo, cur.idx) && Descended(cur.right, cur, false, cur.idx + 1, hi)
      ensures cmp(key, cur.key) < 0 ==> forall i :: cur.idx <= i < |order| ==> cmp(key, order[i].key) < 0
      ensures cmp(key, cur.key) >= 0 ==> forall i :: 0 <= i <= cur.idx ==> cmp(key, order[i].key) >= 0
      ensures cmp(key, cur.key) > 0 ==> forall i :: 0 <= i <= cur.idx ==> cmp(key, order[i].key) > 0
    {
      assert Linked(cur);
      forall i | 0 <= i < |order|
        ensures cmp(key, cur.key) < 0 && cur.idx <= i ==> cmp(key, order[i].key) < 0
        ensures cmp(key, cur.key) >= 0 && i <= cur.idx ==> cmp(key, order[i].key) >= 0
        ensures cmp(key, cur.key) > 0 && i <= cur.idx ==> cmp(key, order[i].key) > 0
      {
        assert order[cur.idx] == cur;
        Transitive(cmp, keys, key, cur.key, order[i].key);
      }
    }

    lemma InsertSorted(cmp: (int, int) -> int, s: seq<Node>, node: Node, pos: int, keys: set<int>)
      requires SortedSeq(cmp, s) && StablePlace(cmp, s, node.key, pos)
      requires PreorderOn(cmp, keys) && node.key in keys && (forall n :: n in s ==> n.key in keys)
      ensures SortedSeq(cmp, s[..pos] + [node] + s[pos..])
    {
      var t := s[..pos] + [node] + s[pos..];
      forall i, j | 0 <= i < j < |t|
        ensures cmp(t[i].key, t[j].key) <= 0
      {
        if i < pos { assert t[i] == s[i]; } else if i > pos { assert t[i] == s[i - 1]; }
        if j < pos { assert t[j] == s[j]; } else if j > pos { assert t[j] == s[j - 1]; }
        Transitive(cmp, keys, t[i].key, node.key, t[j].key);
      }
    }

    /** The descent ended at an empty link, in the stable place of the key. */
    lemma DescentEnds(parent: Node?, toLeft: bool, lo: int, hi: int, node: Node, cmp: (int, int) -> int, keys: set<int>)
      requires Struct() && Sorted(cmp) && KeysIn(keys) && PreorderOn(cmp, keys) && node.key in keys
      requires Descended(null, parent, toLeft, lo, hi)
      requires forall i :: 0 <= i < lo ==> cmp(node.key, order[i].key) >= 0
      requires forall i :: hi <= i < |order| ==> cmp(node.key, order[i].key) < 0
      ensures if parent == null then root == null && lo == 0
              else parent in nodes && if toLeft then parent.left == null && lo == parent.idx
                                      else parent.right == null && lo == parent.idx + 1
      ensures StablePlace(cmp, order, node.key, lo)
      ensures SortedSeq(cmp, order[..lo] + [node] + order[lo..])
    {
      if parent != null { assert Linked(parent); }
      forall n | n in order ensures n.key in keys { assert n in nodes; }
      InsertSorted(cmp, order, node, lo, keys);
    }

    /** The search for the link to hang the node on: behind every node that does not compare greater. */
    method Descend(node: Node, cmp: (int, int) -> int, ghost keys: set<int>)
      returns (parent: Node?, toLeft: bool, isLeftmost: bool, ghost pos: int)
      requires Struct() && Sorted(cmp) && KeysIn(keys) && PreorderOn(cmp, keys) && node.key in keys
      ensures if parent == null then root == null && pos == 0
              else parent in nodes && if toLeft then parent.left == null && pos == parent.idx
                                      else parent.right == null && pos == parent.idx + 1
      ensures StablePlace(cmp, order, node.key, pos) && (isLeftmost <==> pos == 0)
      ensures SortedSeq(cmp, order[..pos] + [node] + order[pos..])
    {
      hide Struct, SortedSeq, Linked, PreorderOn, KeysIn, Descended, StablePlace;
      var cur := root;
      parent, toLeft, isLeftmost := null, false, true;
      ghost var lo, hi := 0, |order|;
      DescentStarts();
      while cur != null
        invariant Descended(cur, parent, toLeft, lo, hi)
        invariant 0 <= lo <= hi <= |order|
        invariant forall i :: 0 <= i < lo ==> cmp(node.key, order[i].key) >= 0
        invariant forall i :: hi <= i < |order| ==> cmp(node.key, order[i].key) < 0
        invariant isLeftmost <==> lo == 0
        decreases hi - lo
      {
        DescentStep(cur, parent, toLeft, lo, hi, node.key, cmp, keys);
        parent := cur;
        if cmp(node.key, cur.key) < 0 {
          hi := cur.idx;
          cur, toLeft := cur.left, true;
        } else {
          lo := cur.idx + 1;
          cur, toLeft, isLeftmost := cur.right, false, false;
        }
      }
      DescentEnds(parent, toLeft, lo, hi, node, cmp, keys);
      pos := lo;
    }

    /**
     `ns_rbtree_add`: the node goes behind every node that does not compare greater, all red-black rules hold
     again, and the result says whether it became the leftmost.
     */
    method Add(node: Node, cmp: (int, int) -> int, ghost keys: set<int>) returns (first: Node?, ghost pos: int)
      requires Struct() && Colored() && LeftmostOk() && Sorted(cmp)
      requires node !in nodes && PreorderOn(cmp, keys) && KeysIn(keys) && node.key in keys
      modifies this, nodes`parent, nodes`left, nodes`right, nodes`color, nodes`idx, nodes`lo, nodes`hi, nodes`bh,
        node`parent, node`left, node`right, node`color, node`idx, node`lo, node`hi, node`bh
      ensures Struct() && Colored() && LeftmostOk() && Sorted(cmp)
      ensures nodes == old(nodes) + {node}
      ensures StablePlace(cmp, old(order), node.key, pos)
      ensures order == old(order)[..pos] + [node] + old(order)[pos..]
      ensures first == if pos == 0 then node else null
    {
      hide Struct, Balanced, NoRedRedBut, Colored, SortedSeq, Linked, PreorderOn, KeysIn, StablePlace;
      var parent, toLeft, isLeftmost;
      parent, toLeft, isLeftmost, pos := Descend(node, cmp, keys);
      Link(node, parent, toLeft, pos);
      if isLeftmost { leftmost := node; }
      InsertFixup(node);
      first := if isLeftmost then node else null;
    }

    // ---- taking a node out ----

    /** A node with at most one child is unlinked: that child, or nothing, takes its place. */
    twostate predicate SplicedOut(node: Node, child: Node?)
      reads this`root, this`nodes, this`order, nodes`parent, nodes`left, nodes`right, nodes`idx, nodes`lo, nodes`hi
    {
      var d, q := old(node.idx), old(node.parent);
      && old(Struct()) && node in old(nodes) && nodes == old(nodes) - {node} && 0 <= d < |old(order)|
      && (if old(node.left) == null then child == old(node.right)
          else old(node.right) == null && child == old(node.left))
      && order == old(order)[..d] + old(order)[d + 1..]
      && root == (if q == null then child else old(root))
      && (forall n {:trigger n.left} :: n in nodes ==>
            n.left == if n == q && old(q.left) == node then child else old(n.left))
      && (forall n {:trigger n.right} :: n in nodes ==>
            n.right == if n == q && old(q.left) != node then child else old(n.right))
      && (forall n {:trigger n.parent} :: n in nodes ==> n.parent == if n == child then q else old(n.parent))
      && (forall n {:trigger n.idx} :: n in nodes ==> n.idx == old(n.idx) - if old(n.idx) > d then 1 else 0)
      && (forall n {:trigger n.lo} :: n in nodes ==> n.lo == old(n.lo) - if old(n.lo) > d then 1 else 0)
      && (forall n {:trigger n.hi} :: n in nodes ==> n.hi == old(n.hi) - if old(n.hi) > d then 1 else 0)
    }

    twostate lemma SplicedOutKeeps(at: (Node, Node?))
      requires SplicedOut(at.0, at.1)
      ensures Struct()
    {
      var (node, child) := at;
      forall n | n in nodes
        ensures Linked(n)
      {
        var at' := (node, child, n);
        SplicedOutPlace(at');
        SplicedOutLeft(at');
        SplicedOutRight(at');
      }
      SplicedOutOrder(at);
    }

    twostate lemma SplicedOutOrder(at: (Node, Node?))
      requires SplicedOut(at.0, at.1)
      ensures (forall i :: 0 <= i < |order| ==> order[i] in nodes && order[i].idx == i) && RootOk()
    {
      var (node, child) := at;
      var d := old(node.idx);
      assert old(Linked(node));
      if child != null { assert old(Linked(child)); }
      forall i | 0 <= i < |order|
        ensures order[i] in nodes && order[i].idx == i
      {
        if i < d { assert order[i] == old(order)[i]; } else { assert order[i] == old(order)[i + 1]; }
      }
      var r := old(root);
      assert old(Linked(r));
    }

    twostate lemma SplicedOutPlace(at: (Node, Node?, Node))
      requires SplicedOut(at.0, at.1) && at.2 in nodes
      ensures Placed(at.2) && ParentOk(at.2)
    {
      var (node, child, n) := at;
      var d, q := old(node.idx), old(node.parent);
      assert old(Linked(node)) && old(Linked(n));
      if old(n.idx) < d { assert order[n.idx] == old(order)[n.idx]; }
      else { assert old(n.idx) != d; assert order[n.idx] == old(order)[n.idx + 1]; }
      if child != null { assert old(Linked(child)); }
      if q != null { assert old(Linked(q)); }
    }

    twostate lemma SplicedOutLeft(at: (Node, Node?, Node))
      requires SplicedOut(at.0, at.1) && at.2 in nodes
      ensures LeftOk(at.2)
    {
      var (node, child, n) := at;
      assert old(Linked(node)) && old(Linked(n)) && old(n.idx) != old(node.idx);
      if child != null { assert old(Linked(child)); }
      var c := old(n.left);
      if c != null { assert old(Linked(c)); }
    }

    twostate lemma SplicedOutRight(at: (Node, Node?, Node))
      requires SplicedOut(at.0, at.1) && at.2 in nodes
      ensures RightOk(at.2)
    {
      var (node, child, n) := at;
      assert old(Linked(node)) && old(Linked(n)) && old(n.idx) != old(node.idx);
      if child != null { assert old(Linked(child)); }
      var c := old(n.right);
      if c != null { assert old(Linked(c)); }
    }

    ghost predicate BalancedBut(x: Node)
      reads this`nodes, nodes`left, nodes`right, nodes`color, nodes`bh
    {
      forall n {:trigger BlackOk(n)} :: n in nodes && n != x ==> BlackOk(n)
    }

    /** Every path through the left child of p is one black node short; everything else is in order. */
    ghost predicate ShortLeft(p: Node)
      reads this`nodes, nodes`left, nodes`right, nodes`color, nodes`bh
    {
      && p in nodes && BalancedBut(p) && p.right != null && p.right in nodes
      && (p.left != null ==> p.left in nodes && p.left.color.Black?)
      && Bh(p.right) == Bh(p.left) + 1 && p.bh == Bh(p.right) + if p.color.Black? then 1 else 0
    }

    /** Every path through the right child of p is one black node short; everything else is in order. */
    ghost predicate ShortRight(p: Node)
      reads this`nodes, nodes`left, nodes`right, nodes`color, nodes`bh
    {
      && p in nodes && BalancedBut(p) && p.left != null && p.left in nodes
      && (p.right != null ==> p.right in nodes && p.right.color.Black?)
      && Bh(p.left) == Bh(p.right) + 1 && p.bh == Bh(p.left) + if p.color.Black? then 1 else 0
    }

    /** The side of p below which `node` hangs, or the empty side for null, is one black node short. */
    ghost predicate Short(p: Node, node: Node?)
      reads this`nodes, nodes`left, nodes`right, nodes`color, nodes`bh, p`left, p`right
    {
      if node != p.right then p.left == node && ShortLeft(p) else ShortRight(p)
    }

    /** The child takes over the colour of the node that left; nothing else is recoloured. */
    twostate predicate SplicedColors(node: Node, child: Node?)
      reads this, nodes
    {
      && SplicedOut(node, child) && old(Colored())
      && (forall n {:trigger n.color} :: n in nodes ==> n.color == if n == child then old(node.color) else old(n.color))
      && (forall n {:trigger n.bh} :: n in nodes ==> n.bh == if n == child then old(node.bh) else old(n.bh))
    }

    twostate lemma SplicedColored(at: (Node, Node?))
      requires SplicedColors(at.0, at.1)
      ensures NoRedRedBut(null)
      ensures if at.1 == null && old(at.0.color.Black?) && old(at.0.parent) != null then Short(old(at.0.parent), null)
              else Balanced()
    {
      var (node, child) := at;
      var d, q := old(node.idx), old(node.parent);
      assert old(Linked(node)) && old(BlackOk(node)) && old(RedOk(node));
      if child != null { assert old(Linked(child)) && old(BlackOk(child)) && old(RedOk(child)); }
      if q != null { assert old(Linked(q)) && old(BlackOk(q)) && old(RedOk(q)); }
      var r := old(root);
      assert old(Linked(r));
      forall n | n in nodes
        ensures RedOk(n)
        ensures !(child == null && old(node.color.Black?) && n == q) ==> BlackOk(n)
      {
        var at' := (node, child, n);
        SplicedBlackAt(at');
        SplicedRedAt(at');
      }
    }

    twostate lemma SplicedBlackAt(at: (Node, Node?, Node))
      requires SplicedColors(at.0, at.1) && at.2 in nodes
      ensures !(at.1 == null && old(at.0.color.Black?) && at.2 == old(at.0.parent)) ==> BlackOk(at.2)
    {
      var (node, child, n) := at;
      var d, q := old(node.idx), old(node.parent);
      assert old(Linked(node)) && old(BlackOk(node)) && old(RedOk(node));
      assert old(Linked(n)) && old(BlackOk(n));
      if child != null { assert old(Linked(child)) && old(BlackOk(child)) && old(RedOk(child)); }
      var l, r := old(n.left), old(n.right);
      if l != null { assert old(Linked(l)); }
      if r != null { assert old(Linked(r)); }
    }

    twostate lemma SplicedRedAt(at: (Node, Node?, Node))
      requires SplicedColors(at.0, at.1) && at.2 in nodes
      ensures RedOk(at.2)
    {
      var (node, child, n) := at;
      assert old(Linked(node)) && old(RedOk(node)) && old(BlackOk(node));
      assert old(Linked(n)) && old(RedOk(n));
      if child != null { assert old(Linked(child)) && old(RedOk(child)) && old(BlackOk(child)); }
    }

    /** The sequence as observed from the nodes: position d disappears and later ones move down. */
    ghost method CloseGap(node: Node, from: int)
      requires node in nodes && 0 <= node.idx < |order|
      modifies this`nodes, this`order, nodes`idx, nodes`lo, nodes`hi
      ensures nodes == old(nodes) - {node} && order == old(order)[..old(node.idx)] + old(order)[old(node.idx) + 1..]
      ensures forall n {:trigger n.idx} :: n in nodes ==>
                n.idx == old(n.idx) - if old(n.idx) > old(node.idx) then 1 else 0
      ensures forall n {:trigger n.lo} :: n in nodes ==> n.lo == old(n.lo) - if old(n.lo) > from then 1 else 0
      ensures forall n {:trigger n.hi} :: n in nodes ==> n.hi == old(n.hi) - if old(n.hi) > old(node.idx) then 1 else 0
    {
      var d := node.idx;
      nodes := nodes - {node};
      order := order[..d] + order[d + 1..];
      forall n | n in nodes { n.idx := n.idx - if n.idx > d then 1 else 0; }
      forall n | n in nodes { n.lo := n.lo - if n.lo > from then 1 else 0; }
      forall n | n in nodes { n.hi := n.hi - if n.hi > d then 1 else 0; }
    }

    /** Case 1 of `__ns_rb_del`: the node has at most one child. */
    method SpliceOut(node: Node, child: Node?) returns (rebalance: Node?)
      requires Struct() && Colored() && node in nodes
      requires if node.left == null then child == node.right else node.right == null && child == node.left
      modifies this`root, this`nodes, this`order, nodes`parent, nodes`left, nodes`right, nodes`color,
        nodes`idx, nodes`lo, nodes`hi, nodes`bh
      ensures Struct() && NoRedRedBut(null)
      ensures nodes == old(nodes) - {node} && 0 <= old(node.idx) < |old(order)|
      ensures order == old(order)[..old(node.idx)] + old(order)[old(node.idx) + 1..]
      ensures if rebalance == null then Balanced() else Short(rebalance, null)
    {
      hide Struct, Balanced, NoRedRedBut, Colored, Short;
      SpliceFacts(node, child);
      var parent := node.parent;
      SpliceLinks(node, child, parent);
      if child != null {
        child.color, child.bh := node.color, node.bh;
        rebalance := null;
      } else {
        rebalance := if node.color.Black? then parent else null;
      }
      var at := (node, child);
      SplicedOutKeeps(at);
      SplicedColored(at);
    }

    /** The links of case 1, and what they mean for the sequence. */
    method SpliceLinks(node: Node, child: Node?, parent: Node?)
      requires Struct() && node in nodes && parent == node.parent
      requires if node.left == null then child == node.right else node.right == null && child == node.left
      modifies this`root, this`nodes, this`order, nodes`parent, nodes`left, nodes`right, nodes`idx, nodes`lo, nodes`hi
      ensures SplicedOut(node, child)
    {
      hide Struct;
      SpliceFacts(node, child);
      ChangeChild(node, child, parent);
      if child != null { child.parent := parent; }
      CloseGap(node, node.idx);
    }

    lemma SpliceFacts(node: Node, child: Node?)
      requires Struct() && node in nodes && (child == node.left || child == node.right)
      ensures 0 <= node.idx < |order| && (child != null ==> child in nodes && child != node && child != node.parent)
      ensures node.parent != null ==> node.parent in nodes && node.parent != node
    {
      assert Linked(node);
      if child != null { assert Linked(child); }
      if node.parent != null { assert Linked(node.parent); }
    }

    /** The neighbourhood of a node with two children and its in-order successor s. */
    ghost predicate Succession(node: Node, s: Node)
      reads this`root, this`nodes, this`order, nodes`parent, nodes`left, nodes`right, nodes`idx, nodes`lo, nodes`hi
    {
      && node in nodes && s in nodes && Linked(node) && Linked(s) && node != s
      && s.idx == node.idx + 1 && s.left == null && s.lo == s.idx
      && node.left != null && node.right != null && s.parent != null
      && var l, r, p, q, c := node.left, node.right, s.parent, node.parent, s.right;
         && l in nodes && r in nodes && p in nodes && Linked(l) && Linked(r) && Linked(p) && l != s && l != r
         && (if p == node then r == s else p.left == s && p.lo == s.idx && r != s && r.lo == s.idx && l != p)
         && (q != null ==> q in nodes && Linked(q) && q != node && q != s && q != p && q != l && q != r)
         && (c != null ==> c in nodes && Linked(c) && c != node && c != s && c != p && c != l && c != r && c != q)
    }

    lemma SuccessionHolds(node: Node, s: Node)
      requires Struct() && node in nodes && s in nodes && s.idx == node.idx + 1 && s.left == null
      requires node.left != null && node.right != null
      ensures Succession(node, s)
    {
      assert Linked(node) && Linked(s) && Linked(node.left) && Linked(node.right);
      assert order[s.idx] == s && order[node.idx] == node;
      var p, q, c := s.parent, node.parent, s.right;
      assert Linked(root);
      if p != null { assert Linked(p); }
      if q != null { assert Linked(q); }
      if c != null { assert Linked(c); }
    }

    /** A node with two children is unlinked and its in-order successor s takes its place. */
    twostate predicate Replaced(node: Node, s: Node)
      reads this`root, this`nodes, this`order, nodes`parent, nodes`left, nodes`right, nodes`idx, nodes`lo, nodes`hi
    {
      && old(Struct() && Succession(node, s)) && nodes == old(nodes) - {node}
      && var d, l, r := old(node.idx), old(node.left), old(node.right);
      && var p, q, c := old(s.parent), old(node.parent), old(s.right);
      && order == old(order)[..d] + old(order)[d + 1..]
      && root == (if q == null then s else old(root))
      && (forall n {:trigger n.left} :: n in nodes ==>
            n.left == if n == s then l else if n == q && old(q.left) == node then s
                      else if n == p then c else old(n.left))
      && (forall n {:trigger n.right} :: n in nodes ==>
            n.right == if n == s && p != node then r else if n == q && old(q.left) != node then s else old(n.right))
      && (forall n {:trigger n.parent} :: n in nodes ==>
            n.parent == if n == s then q else if n == l || n == r then s
                        else if n == c && p != node then p else old(n.parent))
      && (forall n {:trigger n.idx} :: n in nodes ==> n.idx == old(n.idx) - if old(n.idx) > d then 1 else 0)
      && (forall n {:trigger n.lo} :: n in nodes ==>
            n.lo == if n == s then old(node.lo) else old(n.lo) - if old(n.lo) > d + 1 then 1 else 0)
      && (forall n {:trigger n.hi} :: n in nodes ==>
            n.hi == if n == s then old(node.hi) - 1 else old(n.hi) - if old(n.hi) > d then 1 else 0)
    }

    twostate lemma ReplacedKeeps(at: (Node, Node))
      requires Replaced(at.0, at.1)
      ensures Struct()
    {
      var (node, s) := at;
      forall n | n in nodes
        ensures Linked(n)
      {
        var at' := (node, s, n);
        ReplacedPlace(at');
        ReplacedParent(at');
        ReplacedLeft(at');
        ReplacedRight(at');
      }
      ReplacedOrder(at);
    }

    twostate lemma ReplacedOrder(at: (Node, Node))
      requires Replaced(at.0, at.1)
      ensures (forall i :: 0 <= i < |order| ==> order[i] in nodes && order[i].idx == i) && RootOk()
    {
      var (node, s) := at;
      var d := old(node.idx);
      forall i | 0 <= i < |order|
        ensures order[i] in nodes && order[i].idx == i
      {
        if i < d { assert order[i] == old(order)[i]; } else { assert order[i] == old(order)[i + 1]; }
      }
      var r := old(root);
      assert old(Linked(r));
    }

    twostate lemma ReplacedPlace(at: (Node, Node, Node))
      requires Replaced(at.0, at.1) && at.2 in nodes
      ensures Placed(at.2)
    {
      var (node, s, n) := at;
      var d := old(node.idx);
      assert old(Linked(n));
      if old(n.idx) < d { assert order[n.idx] == old(order)[n.idx]; }
      else { assert old(n.idx) != d; assert order[n.idx] == old(order)[n.idx + 1]; }
    }

    twostate lemma ReplacedParent(at: (Node, Node, Node))
      requires Replaced(at.0, at.1) && at.2 in nodes
      ensures ParentOk(at.2)
    {
      var (node, s, n) := at;
      assert old(Linked(n));
    }

    twostate lemma ReplacedLeft(at: (Node, Node, Node))
      requires Replaced(at.0, at.1) && at.2 in nodes
      ensures LeftOk(at.2)
    {
      var (node, s, n) := at;
      assert old(Linked(n)) && old(n.idx) != old(node.idx);
      var c := old(n.left);
      if c != null { assert old(Linked(c)); }
    }

    twostate lemma ReplacedRight(at: (Node, Node, Node))
      requires Replaced(at.0, at.1) && at.2 in nodes
      ensures RightOk(at.2)
    {
      var (node, s, n) := at;
      assert old(Linked(n)) && old(n.idx) != old(node.idx);
      var c := old(n.right);
      if c != null { assert old(Linked(c)); }
    }

    /** The successor takes over the colour of the node it replaces, and its only child turns black. */
    twostate predicate ReplacedColors(node: Node, s: Node)
      reads this, nodes
    {
      && Replaced(node, s) && old(Colored())
      && (forall n {:trigger n.color} :: n in nodes ==>
            n.color == if n == s then old(node.color) else if n == old(s.right) then Black else old(n.color))
      && (forall n {:trigger n.bh} :: n in nodes ==>
            n.bh == if n == s then old(node.bh) else if n == old(s.right) then old(n.bh) + 1 else old(n.bh))
    }

    /** The node at whose side a black node may now be missing. */
    static ghost function Gap(node: Node, s: Node): (p: Node?)
      reads s`parent
    {
      if s.parent == node then s else s.parent
    }

    twostate lemma ReplacedColored(at: (Node, Node))
      requires ReplacedColors(at.0, at.1)
      ensures NoRedRedBut(null)
      ensures if old(at.1.right) == null && old(at.1.color.Black?) then Short(old(Gap(at.0, at.1)), null)
              else Balanced()
    {
      var (node, s) := at;
      var p, c := old(s.parent), old(s.right);
      assert old(BlackOk(s)) && old(RedOk(s)) && old(BlackOk(node)) && old(BlackOk(p));
      if c != null { assert old(BlackOk(c)) && old(RedOk(c)); }
      forall n | n in nodes
        ensures RedOk(n)
        ensures !(c == null && old(s.color.Black?) && n == old(Gap(node, s))) ==> BlackOk(n)
      {
        var at' := (node, s, n);
        if n != s && n != p { ReplacedBlackAt(at'); } else { ReplacedBlackNear(at); }
        ReplacedRedAt(at');
      }
    }

    twostate lemma ReplacedDone(at: (Node, Node))
      requires ReplacedColors(at.0, at.1)
      ensures Struct() && NoRedRedBut(null)
      ensures if old(at.1.right) == null && old(at.1.color.Black?) then Short(old(Gap(at.0, at.1)), null)
              else Balanced()
    {
      hide Replaced, Struct, NoRedRedBut, Short, Balanced;
      ReplacedKeeps(at);
      ReplacedColored(at);
    }

    twostate lemma ReplacedBlackAt(at: (Node, Node, Node))
      requires ReplacedColors(at.0, at.1) && at.2 in nodes
      requires at.2 != at.1 && at.2 != old(at.1.parent)
      ensures BlackOk(at.2)
    {
      var (node, s, n) := at;
      var c := old(s.right);
      assert old(BlackOk(s)) && old(BlackOk(node)) && old(BlackOk(n)) && old(Linked(n));
      if c != null { assert old(BlackOk(c)); }
      var l, r := old(n.left), old(n.right);
      if l != null { assert old(Linked(l)); }
      if r != null { assert old(Linked(r)); }
    }

    twostate lemma ReplacedBlackNear(at: (Node, Node))
      requires ReplacedColors(at.0, at.1)
      ensures !(old(at.1.right) == null && old(at.1.color.Black?) && at.1 == old(Gap(at.0, at.1))) ==> BlackOk(at.1)
      ensures !(old(at.1.right) == null && old(at.1.color.Black?)) && old(at.1.parent) != at.0 ==>
                BlackOk(old(at.1.parent))
    {
      var (node, s) := at;
      var p, c := old(s.parent), old(s.right);
      assert old(BlackOk(s)) && old(BlackOk(node)) && old(BlackOk(p)) && old(RedOk(s));
      if c != null { assert old(BlackOk(c)) && old(RedOk(c)); }
      var r := old(p.right);
      if r != null { assert old(Linked(r)); }
    }

    twostate lemma ReplacedRedAt(at: (Node, Node, Node))
      requires ReplacedColors(at.0, at.1) && at.2 in nodes
      ensures RedOk(at.2)
    {
      var (node, s, n) := at;
      assert old(RedOk(n)) && old(RedOk(s)) && old(RedOk(node)) && old(Linked(n));
    }

    /** Cases 2 and 3 of `__ns_rb_del`: the node has two children. */
    method ReplaceBySuccessor(node: Node) returns (rebalance: Node?)
      requires Struct() && Colored() && node in nodes && node.left != null && node.right != null
      modifies this`root, this`nodes, this`order, nodes`parent, nodes`left, nodes`right, nodes`color,
        nodes`idx, nodes`lo, nodes`hi, nodes`bh
      ensures Struct() && NoRedRedBut(null)
      ensures nodes == old(nodes) - {node} && 0 <= old(node.idx) < |old(order)|
      ensures order == old(order)[..old(node.idx)] + old(order)[old(node.idx) + 1..]
      ensures if rebalance == null then Balanced() else Short(rebalance, null)
    {
      var successor := Successor(node);
      SuccessionHolds(node, successor);
      hide Struct, Balanced, NoRedRedBut, Colored, Short, Succession, Linked, BlackOk, RedOk, Bh;
      SuccessionApart(node, successor);
      rebalance := ReplaceBy(node, successor);
    }

    method ReplaceBy(node: Node, successor: Node) returns (rebalance: Node?)
      requires Struct() && Colored() && Succession(node, successor)
      modifies this`root, this`nodes, this`order, nodes`parent, nodes`left, nodes`right, nodes`color,
        nodes`idx, nodes`lo, nodes`hi, nodes`bh
      ensures Struct() && NoRedRedBut(null)
      ensures nodes == old(nodes) - {node} && order == old(order)[..old(node.idx)] + old(order)[old(node.idx) + 1..]
      ensures if rebalance == null then Balanced() else Short(rebalance, null)
    {
      hide Struct, Balanced, NoRedRedBut, Colored, Short, Succession, Linked, BlackOk, RedOk, Bh;
      SuccessionApart(node, successor);
      var parent, child2 := successor.parent, successor.right;
      if parent == node { parent := successor; }
      MoveSuccessor(node, successor);
      rebalance := if child2 == null && successor.color.Black? then parent else null;
      TakeColor(node, successor, child2);
      var at := (node, successor);
      ReplacedDone(at);
    }

    /** The links of cases 2 and 3, and what they mean for the sequence. */
    method MoveSuccessor(node: Node, successor: Node)
      requires Struct() && Succession(node, successor)
      modifies this`root, this`nodes, this`order, nodes`parent, nodes`left, nodes`right, nodes`idx, nodes`lo, nodes`hi
      ensures Replaced(node, successor) && successor in nodes
    {
      hide Struct, Succession, Linked;
      SuccessionApart(node, successor);
      TakePlace(node, successor);
      SuccessionSeen(node, successor);
    }

    /** The neighbours in a succession are different nodes. */
    lemma SuccessionApart(node: Node, s: Node)
      requires Succession(node, s)
      ensures node in nodes && s in nodes && s.parent != null && s.parent in nodes && s.parent != s && s.left == null
      ensures 0 <= node.idx < |order|
      ensures node.left != null && node.right != null
      ensures var l, r, p, q, c := node.left, node.right, s.parent, node.parent, s.right;
              && l in nodes && r in nodes && l != s && l != r && l != node && r != node
              && (if p == node then r == s else p.left == s && r != s && l != p)
              && (q != null ==> q in nodes && q != node && q != s && q != p)
              && (c != null ==> c in nodes && c != node && c != s && c != l && c != r && c.parent == s)
    {
    }

    /** The colours of cases 2 and 3. */
    method TakeColor(node: Node, successor: Node, child2: Node?)
      requires node !in nodes && successor in nodes && child2 != successor && (child2 != null ==> child2 in nodes)
      modifies nodes`color, nodes`bh
      ensures forall n {:trigger n.color} :: n in nodes ==>
                n.color == if n == successor then old(node.color) else if n == child2 then Black else old(n.color)
      ensures forall n {:trigger n.bh} :: n in nodes ==>
                n.bh == if n == successor then old(node.bh) else if n == child2 then old(n.bh) + 1 else old(n.bh)
    {
      if child2 != null {
        child2.color := Black;
        child2.bh := child2.bh + 1;
      }
      successor.color := node.color;
      successor.bh := node.bh;
    }

    ghost method SuccessionSeen(node: Node, s: Node)
      requires node in nodes && s in nodes && s != node && 0 <= node.idx < |order|
      modifies this`nodes, this`order, nodes`idx, nodes`lo, nodes`hi
      ensures nodes == old(nodes) - {node} && order == old(order)[..old(node.idx)] + old(order)[old(node.idx) + 1..]
      ensures forall n {:trigger n.idx} :: n in nodes ==>
                n.idx == old(n.idx) - if old(n.idx) > old(node.idx) then 1 else 0
      ensures forall n {:trigger n.lo} :: n in nodes ==>
                n.lo == if n == s then old(node.lo) else old(n.lo) - if old(n.lo) > old(node.idx) + 1 then 1 else 0
      ensures forall n {:trigger n.hi} :: n in nodes ==>
                n.hi == if n == s then old(node.hi) - 1 else old(n.hi) - if old(n.hi) > old(node.idx) then 1 else 0
    {
      var lo, hi := node.lo, node.hi - 1;
      CloseGap(node, node.idx + 1);
      s.lo, s.hi := lo, hi;
    }

    /** The links of cases 2 and 3: the successor leaves its place and moves to the place of the node. */
    method TakePlace(node: Node, successor: Node)
      requires Succession(node, successor)
      modifies this`root, nodes`parent, nodes`left, nodes`right
      ensures root == if old(node.parent) == null then successor else old(root)
      ensures forall n {:trigger n.left} :: n in nodes && n != node ==>
                n.left == if n == successor then old(node.left)
                          else if n == old(node.parent) && old(n.left) == node then successor
                          else if n == old(successor.parent) then old(successor.right) else old(n.left)
      ensures forall n {:trigger n.right} :: n in nodes && n != node ==>
                n.right == if n == successor && old(successor.parent) != node then old(node.right)
                           else if n == old(node.parent) && old(n.left) != node then successor else old(n.right)
      ensures forall n {:trigger n.parent} :: n in nodes && n != node ==>
                n.parent == if n == successor then old(node.parent)
                            else if n == old(node.left) || n == old(node.right) then successor
                            else if n == old(successor.right) && old(successor.parent) != node
                            then old(successor.parent)
                            else old(n.parent)
    {
      hide Succession;
      SuccessionApart(node, successor);
      var parent, child, child2 := successor.parent, node.right, successor.right;
      if parent == node {
        parent := successor;
      } else {
        parent.left := child2;
        successor.right := child;
        child.parent := successor;
      }
      successor.left := node.left;
      node.left.parent := successor;
      ChangeChild(node, successor, node.parent);
      if child2 != null { child2.parent := parent; }
      successor.parent := node.parent;
    }

    /** The leftmost node below the right child. */
    method Successor(node: Node) returns (successor: Node)
      requires Struct() && node in nodes && node.right != null
      ensures successor in nodes && successor.left == null && successor.idx == node.idx + 1
    {
      assert Linked(node) && Linked(node.right);
      successor := node.right;
      while successor.left != null
        invariant successor in nodes && successor.lo == node.idx + 1 && Linked(successor)
        decreases successor.hi - successor.lo
      {
        assert Linked(successor.left);
        successor := successor.left;
      }
    }

    /** `__ns_rb_del`: unlinks the node and says where a black node went missing. */
    method Unlink(node: Node) returns (rebalance: Node?)
      requires Struct() && Colored() && node in nodes
      modifies this`root, this`nodes, this`order, nodes`parent, nodes`left, nodes`right, nodes`color,
        nodes`idx, nodes`lo, nodes`hi, nodes`bh
      ensures Struct() && NoRedRedBut(null)
      ensures nodes == old(nodes) - {node} && 0 <= old(node.idx) < |old(order)|
      ensures order == old(order)[..old(node.idx)] + old(order)[old(node.idx) + 1..]
      ensures if rebalance == null then Balanced() else Short(rebalance, null)
    {
      hide Struct, Balanced, NoRedRedBut, Colored, Short;
      if node.left == null {
        rebalance := SpliceOut(node, node.right);
      } else if node.right == null {
        rebalance := SpliceOut(node, node.left);
      } else {
        rebalance := ReplaceBySuccessor(node);
      }
    }

    /** The colours of case 4, on either side. */
    method FillColors(p: Node, sibling: Node, tmp1: Node, ghost b: nat)
      requires p in nodes && sibling in nodes && tmp1 in nodes && p != sibling && p != tmp1 && sibling != tmp1
      modifies nodes`color, nodes`bh
      ensures forall n {:trigger n.color} :: n in nodes ==>
                n.color == if n == sibling then old(p.color) else if n == p || n == tmp1 then Black else old(n.color)
      ensures forall n {:trigger n.bh} :: n in nodes ==>
                n.bh == if n == sibling then old(p.bh) else if n == p || n == tmp1 then b else old(n.bh)
    {
      tmp1.color := Black;
      sibling.color := p.color;
      p.color := Black;
      sibling.bh, p.bh, tmp1.bh := p.bh, b, b;
    }

    /** Case 1: the sibling is red. A left rotation at p gives the short side a black sibling and turns p red. */
    method LiftRedRight(p: Node)
      requires Struct() && NoRedRedBut(null) && ShortLeft(p) && p.right.color.Red?
      modifies this`root, nodes`parent, nodes`left, nodes`right, nodes`lo, nodes`hi, nodes`color, nodes`bh
      ensures Struct() && NoRedRedBut(null) && ShortLeft(p)
      ensures p.color.Red? && p.right.color.Black? && p.left == old(p.left)
    {
      hide Struct, NoRedRedBut, ShortLeft, BalancedBut;
      LiftRedRightFacts(p);
      var sibling := p.right;
      RotateLeft(p);
      sibling.color := p.color;
      p.color := Red;
      sibling.bh, p.bh := p.bh, p.bh - 1;
      LiftedRedRightColored(p);
    }

    lemma LiftRedRightFacts(p: Node)
      requires Struct() && NoRedRedBut(null) && ShortLeft(p) && p.right.color.Red?
      ensures p in nodes && p.right != null && p.right in nodes && p.right != p && p.right.left != p
      ensures p.color.Black? && p.bh > 0
      ensures p.parent != p && p.left != p.right
    {
      assert Linked(p) && Linked(p.right) && RedOk(p.right);
      if p.right.left != null { assert Linked(p.right.left); }
      if p.parent != null { assert Linked(p.parent); }
    }

    twostate predicate LiftedRedRight(p: Node)
      reads this, nodes
    {
      && old(Struct() && NoRedRedBut(null) && ShortLeft(p) && p.right.color.Red?) && RotatedLeft(p, old(p.right))
      && (forall n {:trigger n.color} :: n in nodes ==>
            n.color == if n == old(p.right) then Black else if n == p then Red else old(n.color))
      && (forall n {:trigger n.bh} :: n in nodes ==>
            n.bh == if n == old(p.right) then old(p.bh) else if n == p then old(p.bh) - 1 else old(n.bh))
    }

    twostate lemma LiftedRedRightColored(p: Node)
      requires LiftedRedRight(p)
      ensures NoRedRedBut(null) && ShortLeft(p) && p.color.Red? && p.right.color.Black? && p.left == old(p.left)
    {
      var s := old(p.right);
      var m := old(s.left);
      assert old(Linked(p)) && old(Linked(s)) && old(BlackOk(s)) && old(RedOk(s));
      assert m != null && old(Linked(m)) && old(RedOk(m));
      var c := old(p.left);
      if c != null { assert old(Linked(c)); }
      forall n | n in nodes
        ensures RedOk(n) && (n != p ==> BlackOk(n))
      {
        var at := (p, n);
        LiftedRedRightAt(at);
      }
    }

    twostate lemma LiftedRedRightAt(at: (Node, Node))
      requires LiftedRedRight(at.0) && at.1 in nodes
      ensures RedOk(at.1) && (at.1 != at.0 ==> BlackOk(at.1))
    {
      var (p, n) := at;
      var s := old(p.right);
      var m := old(s.left);
      assert old(Linked(p)) && old(Linked(s)) && old(BlackOk(s)) && old(RedOk(s)) && old(RedOk(p));
      assert m != null && old(Linked(m)) && old(RedOk(m));
      assert old(Linked(n)) && old(RedOk(n)) && (n != p ==> old(BlackOk(n)));
      var l, r, q := old(n.left), old(n.right), old(n.parent);
      if l != null { assert old(Linked(l)); }
      if r != null { assert old(Linked(r)); }
    }

    /** Ready for case 4: the sibling's outer child will be black, and every stretch below carries one height. */
    ghost predicate ReadyLeft(p: Node)
      reads this`nodes, nodes`left, nodes`right, nodes`parent, nodes`color, nodes`bh
    {
      && p in nodes && p.right != null && p.right in nodes && p.right.right != null && p.right.right in nodes
      && var s, t := p.right, p.right.right;
         && (forall n {:trigger BlackOk(n)} :: n in nodes && n != p && n != s && n != t ==> BlackOk(n))
         && NoRedRedBut(s)
         && Bh(p.left) == Bh(s.left) == Bh(t.left) == Bh(t.right)
         && p.bh == Bh(p.left) + 1 + if p.color.Black? then 1 else 0
    }

    /** With a red outer nephew case 4 applies at once. */
    lemma OuterNephewReadyLeft(p: Node)
      requires Struct() && NoRedRedBut(null) && ShortLeft(p)
      requires p.right.color.Black? && p.right.right != null && p.right.right.color.Red?
      ensures ReadyLeft(p)
    {
      assert Linked(p) && Linked(p.right) && Linked(p.right.right);
      assert BlackOk(p.right) && BlackOk(p.right.right);
      forall n | n in nodes ensures RedOk(n) { }
    }

    /** Case 3: only the inner nephew is red; a right rotation at the sibling puts it in the sibling's place. */
    method LiftInnerLeft(p: Node)
      requires Struct() && NoRedRedBut(null) && ShortLeft(p)
      requires p.right.color.Black? && (p.right.right == null || p.right.right.color.Black?)
      requires p.right.left != null && p.right.left.color.Red?
      modifies this`root, nodes`parent, nodes`left, nodes`right, nodes`lo, nodes`hi
      ensures Struct() && ReadyLeft(p)
    {
      hide Struct, NoRedRedBut, ShortLeft, BalancedBut, ReadyLeft;
      LiftInnerLeftFacts(p);
      RotateRight(p.right);
      LiftedInnerLeftReady(p);
    }

    lemma LiftInnerLeftFacts(p: Node)
      requires Struct() && ShortLeft(p) && p.right.left != null
      ensures p.right in nodes && p.right.left in nodes
    {
      assert Linked(p.right);
    }

    twostate predicate LiftedInnerLeft(p: Node)
      reads this, nodes
    {
      && old(Struct() && NoRedRedBut(null) && ShortLeft(p) && p.right.color.Black?)
      && old(p.right.right == null || p.right.right.color.Black?)
      && old(p.right.left != null && p.right.left.color.Red?)
      && RotatedRight(old(p.right), old(p.right.left))
      && (forall n {:trigger n.color} :: n in nodes ==> n.color == old(n.color))
      && (forall n {:trigger n.bh} :: n in nodes ==> n.bh == old(n.bh))
    }

    twostate lemma LiftedInnerLeftReady(p: Node)
      requires LiftedInnerLeft(p)
      ensures ReadyLeft(p)
    {
      var s := old(p.right);
      var t := old(s.left);
      assert old(Linked(p)) && old(Linked(s)) && old(Linked(t)) && old(BlackOk(s)) && old(BlackOk(t)) && old(RedOk(t));
      var c, m := old(p.left), old(t.right);
      if c != null { assert old(Linked(c)); }
      if m != null { assert old(Linked(m)); }
      forall n | n in nodes
        ensures (n != t ==> RedOk(n)) && (n != p && n != s && n != t ==> BlackOk(n))
      {
        var at := (p, n);
        LiftedInnerLeftAt(at);
      }
    }

    twostate lemma LiftedInnerLeftAt(at: (Node, Node))
      requires LiftedInnerLeft(at.0) && at.1 in nodes
      ensures at.1 != old(at.0.right.left) ==> RedOk(at.1)
      ensures at.1 != at.0 && at.1 != old(at.0.right) && at.1 != old(at.0.right.left) ==> BlackOk(at.1)
    {
      var (p, n) := at;
      var s := old(p.right);
      var t := old(s.left);
      assert old(Linked(p)) && old(Linked(s)) && old(Linked(t)) && old(RedOk(s));
      assert old(Linked(n)) && old(RedOk(n)) && (n != p ==> old(BlackOk(n)));
      var l, r := old(n.left), old(n.right);
      if l != null { assert old(Linked(l)); }
      if r != null { assert old(Linked(r)); }
    }

    /** Case 4: a left rotation at p; the sibling takes p's colour, p and the outer nephew turn black. */
    method FillLeft(p: Node)
      requires Struct() && ReadyLeft(p)
      modifies this`root, nodes`parent, nodes`left, nodes`right, nodes`lo, nodes`hi, nodes`color, nodes`bh
      ensures Struct() && Colored()
    {
      hide Struct, ReadyLeft, Colored, Balanced, NoRedRedBut, Bh;
      FillLeftFacts(p);
      ghost var b := Bh(p.left) + 1;
      var sibling, tmp1 := p.right, p.right.right;
      RotateLeft(p);
      FillColors(p, sibling, tmp1, b);
      FilledLeftColored(p);
    }

    lemma FillLeftFacts(p: Node)
      requires Struct() && ReadyLeft(p)
      ensures p in nodes && p.right != null && p.right in nodes && p.right.right != null && p.right.right in nodes
      ensures p != p.right && p != p.right.right && p.right != p.right.right
      ensures p.left != p && p.left != p.right && p.left != p.right.right && p.right.left != p
      ensures p.parent != p
    {
      assert Linked(p) && Linked(p.right) && Linked(p.right.right);
      if p.left != null { assert Linked(p.left); }
      if p.right.left != null { assert Linked(p.right.left); }
      if p.parent != null { assert Linked(p.parent); }
    }

    twostate predicate FilledLeft(p: Node)
      reads this, nodes
    {
      && old(Struct() && ReadyLeft(p)) && RotatedLeft(p, old(p.right))
      && (forall n {:trigger n.color} :: n in nodes ==>
            n.color == if n == old(p.right) then old(p.color)
                       else if n == p || n == old(p.right.right) then Black else old(n.color))
      && (forall n {:trigger n.bh} :: n in nodes ==>
            n.bh == if n == old(p.right) then old(p.bh)
                    else if n == p || n == old(p.right.right) then old(Bh(p.left)) + 1 else old(n.bh))
    }

    twostate lemma FilledLeftColored(p: Node)
      requires FilledLeft(p)
      ensures Colored()
    {
      FilledLeftBlackNear(p);
      forall n | n in nodes
        ensures RedOk(n) && BlackOk(n)
      {
        var at := (p, n);
        if n != p && n != old(p.right) && n != old(p.right.right) { FilledLeftBlackAt(at); }
        FilledLeftRedAt(at);
      }
    }

    twostate lemma FilledLeftBlackAt(at: (Node, Node))
      requires FilledLeft(at.0) && at.1 in nodes
      requires at.1 != at.0 && at.1 != old(at.0.right) && at.1 != old(at.0.right.right)
      ensures BlackOk(at.1)
    {
      var (p, n) := at;
      var s := old(p.right);
      var t := old(s.right);
      assert old(Linked(p)) && old(Linked(s)) && old(Linked(t)) && old(Linked(n)) && old(BlackOk(n));
      var l, r := old(n.left), old(n.right);
      if l != null { assert old(Linked(l)); }
      if r != null { assert old(Linked(r)); }
    }

    twostate lemma FilledLeftBlackNear(p: Node)
      requires FilledLeft(p)
      ensures BlackOk(p) && BlackOk(old(p.right)) && BlackOk(old(p.right.right))
    {
      hide FilledLeft, BlackOk;
      FilledLeftBlackLow(p);
      FilledLeftBlackTop(p);
      FilledLeftBlackOuter(p);
    }

    twostate lemma FilledLeftBlackLow(p: Node)
      requires FilledLeft(p)
      ensures BlackOk(p)
    {
      var s := old(p.right);
      assert old(Linked(p)) && old(Linked(s));
      var c, m := old(p.left), old(s.left);
      if c != null { assert old(Linked(c)); }
      if m != null { assert old(Linked(m)); }
    }

    twostate lemma FilledLeftBlackTop(p: Node)
      requires FilledLeft(p)
      ensures BlackOk(old(p.right))
    {
      var s := old(p.right);
      var t := old(s.right);
      assert old(Linked(p)) && old(Linked(s)) && old(Linked(t));
    }

    twostate lemma FilledLeftBlackOuter(p: Node)
      requires FilledLeft(p)
      ensures old(p.right) != null && old(p.right.right) != null && BlackOk(old(p.right.right))
    {
      var s := old(p.right);
      var t := old(s.right);
      assert old(Linked(p)) && old(Linked(s)) && old(Linked(t));
      var l, r := old(t.left), old(t.right);
      if l != null { assert old(Linked(l)); }
      if r != null { assert old(Linked(r)); }
    }

    twostate lemma FilledLeftRedAt(at: (Node, Node))
      requires FilledLeft(at.0) && at.1 in nodes
      ensures RedOk(at.1)
    {
      var (p, n) := at;
      var s := old(p.right);
      var t, m := old(s.right), old(s.left);
      assert old(Linked(p)) && old(Linked(s)) && old(Linked(t)) && old(Linked(n)) && old(RedOk(p));
      if n != s { assert old(RedOk(n)); }
      if m != null { assert old(Linked(m)); }
    }

    /** Case 1: the sibling is red. A right rotation at p gives the short side a black sibling and turns p red. */
    method LiftRedLeft(p: Node)
      requires Struct() && NoRedRedBut(null) && ShortRight(p) && p.left.color.Red?
      modifies this`root, nodes`parent, nodes`right, nodes`left, nodes`lo, nodes`hi, nodes`color, nodes`bh
      ensures Struct() && NoRedRedBut(null) && ShortRight(p)
      ensures p.color.Red? && p.left.color.Black? && p.right == old(p.right)
    {
      hide Struct, NoRedRedBut, ShortRight, BalancedBut;
      LiftRedLeftFacts(p);
      var sibling := p.left;
      RotateRight(p);
      sibling.color := p.color;
      p.color := Red;
      sibling.bh, p.bh := p.bh, p.bh - 1;
      LiftedRedLeftColored(p);
    }

    lemma LiftRedLeftFacts(p: Node)
      requires Struct() && NoRedRedBut(null) && ShortRight(p) && p.left.color.Red?
      ensures p in nodes && p.left != null && p.left in nodes && p.left != p && p.left.right != p
      ensures p.color.Black? && p.bh > 0
      ensures p.parent != p && p.right != p.left
    {
      assert Linked(p) && Linked(p.left) && RedOk(p.left);
      if p.left.right != null { assert Linked(p.left.right); }
      if p.parent != null { assert Linked(p.parent); }
    }

    twostate predicate LiftedRedLeft(p: Node)
      reads this, nodes
    {
      && old(Struct() && NoRedRedBut(null) && ShortRight(p) && p.left.color.Red?) && RotatedRight(p, old(p.left))
      && (forall n {:trigger n.color} :: n in nodes ==>
            n.color == if n == old(p.left) then Black else if n == p then Red else old(n.color))
      && (forall n {:trigger n.bh} :: n in nodes ==>
            n.bh == if n == old(p.left) then old(p.bh) else if n == p then old(p.bh) - 1 else old(n.bh))
    }

    twostate lemma LiftedRedLeftColored(p: Node)
      requires LiftedRedLeft(p)
      ensures NoRedRedBut(null) && ShortRight(p) && p.color.Red? && p.left.color.Black? && p.right == old(p.right)
    {
      var s := old(p.left);
      var m := old(s.right);
      assert old(Linked(p)) && old(Linked(s)) && old(BlackOk(s)) && old(RedOk(s));
      assert m != null && old(Linked(m)) && old(RedOk(m));
      var c := old(p.right);
      if c != null { assert old(Linked(c)); }
      forall n | n in nodes
        ensures RedOk(n) && (n != p ==> BlackOk(n))
      {
        var at := (p, n);
        LiftedRedLeftAt(at);
      }
    }

    twostate lemma LiftedRedLeftAt(at: (Node, Node))
      requires LiftedRedLeft(at.0) && at.1 in nodes
      ensures RedOk(at.1) && (at.1 != at.0 ==> BlackOk(at.1))
    {
      var (p, n) := at;
      var s := old(p.left);
      var m := old(s.right);
      assert old(Linked(p)) && old(Linked(s)) && old(BlackOk(s)) && old(RedOk(s)) && old(RedOk(p));
      assert m != null && old(Linked(m)) && old(RedOk(m));
      assert old(Linked(n)) && old(RedOk(n)) && (n != p ==> old(BlackOk(n)));
      var l, r, q := old(n.right), old(n.left), old(n.parent);
      if l != null { assert old(Linked(l)); }
      if r != null { assert old(Linked(r)); }
    }

    /** Ready for case 4: the sibling's outer child will be black, and every stretch below carries one height. */
    ghost predicate ReadyRight(p: Node)
      reads this`nodes, nodes`right, nodes`left, nodes`parent, nodes`color, nodes`bh
    {
      && p in nodes && p.left != null && p.left in nodes && p.left.left != null && p.left.left in nodes
      && var s, t := p.left, p.left.left;
         && (forall n {:trigger BlackOk(n)} :: n in nodes && n != p && n != s && n != t ==> BlackOk(n))
         && NoRedRedBut(s)
         && Bh(p.right) == Bh(s.right) == Bh(t.right) == Bh(t.left)
         && p.bh == Bh(p.right) + 1 + if p.color.Black? then 1 else 0
    }

    /** With a red outer nephew case 4 applies at once. */
    lemma OuterNephewReadyRight(p: Node)
      requires Struct() && NoRedRedBut(null) && ShortRight(p)
      requires p.left.color.Black? && p.left.left != null && p.left.left.color.Red?
      ensures ReadyRight(p)
    {
      assert Linked(p) && Linked(p.left) && Linked(p.left.left);
      assert BlackOk(p.left) && BlackOk(p.left.left);
      forall n | n in nodes ensures RedOk(n) { }
    }

    /** Case 3: only the inner nephew is red; a left rotation at the sibling puts it in the sibling's place. */
    method LiftInnerRight(p: Node)
      requires Struct() && NoRedRedBut(null) && ShortRight(p)
      requires p.left.color.Black? && (p.left.left == null || p.left.left.color.Black?)
      requires p.left.right != null && p.left.right.color.Red?
      modifies this`root, nodes`parent, nodes`right, nodes`left, nodes`lo, nodes`hi
      ensures Struct() && ReadyRight(p)
    {
      hide Struct, NoRedRedBut, ShortRight, BalancedBut, ReadyRight;
      LiftInnerRightFacts(p);
      RotateLeft(p.left);
      LiftedInnerRightReady(p);
    }

    lemma LiftInnerRightFacts(p: Node)
      requires Struct() && ShortRight(p) && p.left.right != null
      ensures p.left in nodes && p.left.right in nodes
    {
      assert Linked(p.left);
    }

    twostate predicate LiftedInnerRight(p: Node)
      reads this, nodes
    {
      && old(Struct() && NoRedRedBut(null) && ShortRight(p) && p.left.color.Black?)
      && old(p.left.left == null || p.left.left.color.Black?)
      && old(p.left.right != null && p.left.right.color.Red?)
      && RotatedLeft(old(p.left), old(p.left.right))
      && (forall n {:trigger n.color} :: n in nodes ==> n.color == old(n.color))
      && (forall n {:trigger n.bh} :: n in nodes ==> n.bh == old(n.bh))
    }

    twostate lemma LiftedInnerRightReady(p: Node)
      requires LiftedInnerRight(p)
      ensures ReadyRight(p)
    {
      var s := old(p.left);
      var t := old(s.right);
      assert old(Linked(p)) && old(Linked(s)) && old(Linked(t)) && old(BlackOk(s)) && old(BlackOk(t)) && old(RedOk(t));
      var c, m := old(p.right), old(t.left);
      if c != null { assert old(Linked(c)); }
      if m != null { assert old(Linked(m)); }
      forall n | n in nodes
        ensures (n != t ==> RedOk(n)) && (n != p && n != s && n != t ==> BlackOk(n))
      {
        var at := (p, n);
        LiftedInnerRightAt(at);
      }
    }

    twostate lemma LiftedInnerRightAt(at: (Node, Node))
      requires LiftedInnerRight(at.0) && at.1 in nodes
      ensures at.1 != old(at.0.left.right) ==> RedOk(at.1)
      ensures at.1 != at.0 && at.1 != old(at.0.left) && at.1 != old(at.0.left.right) ==> BlackOk(at.1)
    {
      var (p, n) := at;
      var s := old(p.left);
      var t := old(s.right);
      assert old(Linked(p)) && old(Linked(s)) && old(Linked(t)) && old(RedOk(s));
      assert old(Linked(n)) && old(RedOk(n)) && (n != p ==> old(BlackOk(n)));
      var l, r := old(n.right), old(n.left);
      if l != null { assert old(Linked(l)); }
      if r != null { assert old(Linked(r)); }
    }

    /** Case 4: a right rotation at p; the sibling takes p's colour, p and the outer nephew turn black. */
    method FillRight(p: Node)
      requires Struct() && ReadyRight(p)
      modifies this`root, nodes`parent, nodes`right, nodes`left, nodes`lo, nodes`hi, nodes`color, nodes`bh
      ensures Struct() && Colored()
    {
      hide Struct, ReadyRight, Colored, Balanced, NoRedRedBut, Bh;
      FillRightFacts(p);
      ghost var b := Bh(p.right) + 1;
      var sibling, tmp1 := p.left, p.left.left;
      RotateRight(p);
      FillColors(p, sibling, tmp1, b);
      FilledRightColored(p);
    }

    lemma FillRightFacts(p: Node)
      requires Struct() && ReadyRight(p)
      ensures p in nodes && p.left != null && p.left in nodes && p.left.left != null && p.left.left in nodes
      ensures p != p.left && p != p.left.left && p.left != p.left.left
      ensures p.right != p && p.right != p.left && p.right != p.left.left && p.left.right != p
      ensures p.parent != p
    {
      assert Linked(p) && Linked(p.left) && Linked(p.left.left);
      if p.right != null { assert Linked(p.right); }
      if p.left.right != null { assert Linked(p.left.right); }
      if p.parent != null { assert Linked(p.parent); }
    }

    twostate predicate FilledRight(p: Node)
      reads this, nodes
    {
      && old(Struct() && ReadyRight(p)) && RotatedRight(p, old(p.left))
      && (forall n {:trigger n.color} :: n in nodes ==>
            n.color == if n == old(p.left) then old(p.color)
                       else if n == p || n == old(p.left.left) then Black else old(n.color))
      && (forall n {:trigger n.bh} :: n in nodes ==>
            n.bh == if n == old(p.left) then old(p.bh)
                    else if n == p || n == old(p.left.left) then old(Bh(p.right)) + 1 else old(n.bh))
    }

    twostate lemma FilledRightColored(p: Node)
      requires FilledRight(p)
      ensures Colored()
    {
      FilledRightBlackNear(p);
      forall n | n in nodes
        ensures RedOk(n) && BlackOk(n)
      {
        var at := (p, n);
        if n != p && n != old(p.left) && n != old(p.left.left) { FilledRightBlackAt(at); }
        FilledRightRedAt(at);
      }
    }

    twostate lemma FilledRightBlackAt(at: (Node, Node))
      requires FilledRight(at.0) && at.1 in nodes
      requires at.1 != at.0 && at.1 != old(at.0.left) && at.1 != old(at.0.left.left)
      ensures BlackOk(at.1)
    {
      var (p, n) := at;
      var s := old(p.left);
      var t := old(s.left);
      assert old(Linked(p)) && old(Linked(s)) && old(Linked(t)) && old(Linked(n)) && old(BlackOk(n));
      var l, r := old(n.right), old(n.left);
      if l != null { assert old(Linked(l)); }
      if r != null { assert old(Linked(r)); }
    }

    twostate lemma FilledRightBlackNear(p: Node)
      requires FilledRight(p)
      ensures BlackOk(p) && BlackOk(old(p.left)) && BlackOk(old(p.left.left))
    {
      hide FilledRight, BlackOk;
      FilledRightBlackLow(p);
      FilledRightBlackTop(p);
      FilledRightBlackOuter(p);
    }

    twostate lemma FilledRightBlackLow(p: Node)
      requires FilledRight(p)
      ensures BlackOk(p)
    {
      var s := old(p.left);
      assert old(Linked(p)) && old(Linked(s));
      var c, m := old(p.right), old(s.right);
      if c != null { assert old(Linked(c)); }
      if m != null { assert old(Linked(m)); }
    }

    twostate lemma FilledRightBlackTop(p: Node)
      requires FilledRight(p)
      ensures BlackOk(old(p.left))
    {
      var s := old(p.left);
      var t := old(s.left);
      assert old(Linked(p)) && old(Linked(s)) && old(Linked(t));
    }

    twostate lemma FilledRightBlackOuter(p: Node)
      requires FilledRight(p)
      ensures old(p.left) != null && old(p.left.left) != null && BlackOk(old(p.left.left))
    {
      var s := old(p.left);
      var t := old(s.left);
      assert old(Linked(p)) && old(Linked(s)) && old(Linked(t));
      var l, r := old(t.left), old(t.right);
      if l != null { assert old(Linked(l)); }
      if r != null { assert old(Linked(r)); }
    }

    twostate lemma FilledRightRedAt(at: (Node, Node))
      requires FilledRight(at.0) && at.1 in nodes
      ensures RedOk(at.1)
    {
      var (p, n) := at;
      var s := old(p.left);
      var t, m := old(s.left), old(s.right);
      assert old(Linked(p)) && old(Linked(s)) && old(Linked(t)) && old(Linked(n)) && old(RedOk(p));
      if n != s { assert old(RedOk(n)); }
      if m != null { assert old(Linked(m)); }
    }

    /** Case 2: both nephews are black. The sibling turns red; a red p turns black, otherwise all of p is short now. */
    method RecolourSibling(p: Node, sibling: Node, ghost node: Node?)
      requires Struct() && NoRedRedBut(null) && Short(p, node)
      requires sibling == (if node != p.right then p.right else p.left) && sibling.color.Black?
      requires sibling.left == null || sibling.left.color.Black?
      requires sibling.right == null || sibling.right.color.Black?
      modifies nodes`color, nodes`bh
      ensures Struct() && NoRedRedBut(null)
      ensures if old(p.color.Red?) || p.parent == null then Balanced() else p.color.Black? && Short(p.parent, p)
    {
      hide Struct, NoRedRedBut, Short, Balanced, BalancedBut;
      RecolourFacts(p, sibling, node);
      sibling.color := Red;
      sibling.bh := sibling.bh - 1;
      if p.color.Red? {
        p.color := Black;
      } else {
        p.bh := p.bh - 1;
      }
      var at := (p, sibling, node);
      RecolouredShort(at);
    }

    lemma RecolourFacts(p: Node, sibling: Node, node: Node?)
      requires Struct() && Short(p, node)
      requires sibling == (if node != p.right then p.right else p.left)
      ensures p in nodes && sibling in nodes && sibling != p && sibling.parent == p && sibling.bh > 0
      ensures p.color.Black? ==> p.bh > 0
    {
      assert Linked(p) && Linked(sibling);
    }

    twostate predicate Recoloured(p: Node, sibling: Node, node: Node?)
      reads this, nodes
    {
      && old(Struct() && NoRedRedBut(null) && Short(p, node)) && SameLinks()
      && sibling == old(if node != p.right then p.right else p.left) && old(sibling.color.Black?)
      && old((sibling.left == null || sibling.left.color.Black?)
             && (sibling.right == null || sibling.right.color.Black?))
      && (forall n {:trigger n.color} :: n in nodes ==>
            n.color == if n == sibling then Red else if n == p then Black else old(n.color))
      && (forall n {:trigger n.bh} :: n in nodes ==>
            n.bh == if n == sibling || (n == p && old(p.color.Black?)) then old(n.bh) - 1 else old(n.bh))
    }

    twostate lemma RecolouredShort(at: (Node, Node, Node?))
      requires Recoloured(at.0, at.1, at.2)
      ensures Struct() && NoRedRedBut(null)
      ensures if old(at.0.color.Red?) || at.0.parent == null then Balanced() else Short(at.0.parent, at.0)
    {
      hide Recoloured, Short, Struct, BlackOk, RedOk;
      RecolouredStruct(at);
      var (p, sibling, node) := at;
      forall n | n in nodes
        ensures RedOk(n) && (old(p.color.Red?) || n != old(p.parent) ==> BlackOk(n))
      {
        var at' := (p, sibling, node, n);
        RecolouredAt(at');
      }
      if old(p.color.Black?) && p.parent != null { RecolouredUp(at); }
    }

    twostate lemma RecolouredStruct(at: (Node, Node, Node?))
      requires Recoloured(at.0, at.1, at.2)
      ensures Struct() && nodes == old(nodes) && at.0 in nodes && at.0.parent == old(at.0.parent)
    {
      SameLinksKeep();
    }

    twostate lemma RecolouredUp(at: (Node, Node, Node?))
      requires Recoloured(at.0, at.1, at.2) && old(at.0.color.Black?) && at.0.parent != null
      requires forall n {:trigger BlackOk(n)} :: n in nodes && n != old(at.0.parent) ==> BlackOk(n)
      ensures Short(at.0.parent, at.0)
    {
      hide NoRedRedBut, RedOk, RootOk;
      var (p, sibling, node) := at;
      var q := old(p.parent);
      RecolouredStruct(at);
      assert Linked(p);
      assert old(Linked(p)) && old(Linked(q)) && old(BlackOk(q));
      var o := if p == old(q.left) then old(q.right) else old(q.left);
      if o != null { assert old(Linked(o)); }
    }

    twostate lemma RecolouredAt(at: (Node, Node, Node?, Node))
      requires Recoloured(at.0, at.1, at.2) && at.3 in nodes
      ensures RedOk(at.3) && (old(at.0.color.Red?) || at.3 != old(at.0.parent) ==> BlackOk(at.3))
    {
      var (p, sibling, node, n) := at;
      if n == p || n == sibling {
        var at' := (p, sibling, node);
        RecolouredNear(at');
      } else {
        RecolouredFar(at);
      }
    }

    twostate lemma RecolouredNear(at: (Node, Node, Node?))
      requires Recoloured(at.0, at.1, at.2)
      ensures RedOk(at.0) && BlackOk(at.0) && RedOk(at.1) && BlackOk(at.1)
    {
      var (p, sibling, node) := at;
      assert old(Linked(p)) && old(Linked(sibling)) && old(BlackOk(sibling));
      var l, r := old(sibling.left), old(sibling.right);
      if l != null { assert old(Linked(l)); }
      if r != null { assert old(Linked(r)); }
    }

    twostate lemma RecolouredFar(at: (Node, Node, Node?, Node))
      requires Recoloured(at.0, at.1, at.2) && at.3 in nodes && at.3 != at.0 && at.3 != at.1
      ensures RedOk(at.3) && (old(at.0.color.Red?) || at.3 != old(at.0.parent) ==> BlackOk(at.3))
    {
      var (p, sibling, node, n) := at;
      assert old(Linked(p)) && old(Linked(sibling)) && old(Linked(n)) && old(RedOk(n)) && old(BlackOk(n));
      var l, r := old(n.left), old(n.right);
      if l != null { assert old(Linked(l)); }
      if r != null { assert old(Linked(r)); }
    }

    /** `____ns_rb_erase_color`: climbs from the short side until the missing black node is made good. */
    method EraseFixup(start: Node)
      requires Struct() && NoRedRedBut(null) && Short(start, null)
      modifies this`root, nodes`parent, nodes`left, nodes`right, nodes`lo, nodes`hi, nodes`color, nodes`bh
      ensures Struct() && Colored()
    {
      hide Struct, NoRedRedBut, ShortLeft, ShortRight, Balanced, ReadyLeft, ReadyRight;
      var parent := start;
      var node: Node? := null;
      while true
        invariant parent != null && Struct() && NoRedRedBut(null) && Short(parent, node)
        decreases |order| - (parent.hi - parent.lo)
      {
        SpanFacts(parent, node);
        if node != parent.right {
          ShortLeftFacts(parent);
          if parent.right.color.Red? { LiftRedRight(parent); ShortLeftFacts(parent); }
          var sibling := parent.right;
          var tmp1 := sibling.right;
          if tmp1 == null || tmp1.color.Black? {
            var tmp2 := sibling.left;
            if tmp2 == null || tmp2.color.Black? {
              var wasRed := parent.color.Red?;
              RecolourSibling(parent, sibling, node);
              if wasRed { break; }
              node := parent;
              parent := node.parent;
              if parent != null { continue; }
              break;
            }
            LiftInnerLeft(parent);
          } else {
            OuterNephewReadyLeft(parent);
          }
          FillLeft(parent);
          break;
        } else {
          ShortRightFacts(parent);
          if parent.left.color.Red? { LiftRedLeft(parent); ShortRightFacts(parent); }
          var sibling := parent.left;
          var tmp1 := sibling.left;
          if tmp1 == null || tmp1.color.Black? {
            var tmp2 := sibling.right;
            if tmp2 == null || tmp2.color.Black? {
              var wasRed := parent.color.Red?;
              RecolourSibling(parent, sibling, node);
              if wasRed { break; }
              node := parent;
              parent := node.parent;
              if parent != null { continue; }
              break;
            }
            LiftInnerRight(parent);
          } else {
            OuterNephewReadyRight(parent);
          }
          FillRight(parent);
          break;
        }
      }
    }

    lemma ShortLeftFacts(p: Node)
      requires ShortLeft(p)
      ensures p in nodes && p.right != null && p.right in nodes && p.left != p.right
    {
    }

    lemma ShortRightFacts(p: Node)
      requires ShortRight(p)
      ensures p in nodes && p.left != null && p.left in nodes && p.left != p.right
    {
    }

    lemma SpanFacts(p: Node, node: Node?)
      requires Struct() && Short(p, node)
      ensures p.hi - p.lo <= |order|
      ensures p.parent != null ==> p.parent in nodes && p.hi - p.lo < p.parent.hi - p.parent.lo <= |order|
    {
      assert Linked(p);
      if p.parent != null { assert Linked(p.parent); }
    }

    /**
     `ns_rbtree_del`: the node leaves the sequence, all red-black rules hold again, and the result is the new
     leftmost node if the removed one was leftmost (null otherwise, and also when the tree became empty).
     */
    method Del(node: Node) returns (first: Node?)
      requires Struct() && Colored() && LeftmostOk() && node in nodes
      modifies this, nodes`parent, nodes`left, nodes`right, nodes`color, nodes`idx, nodes`lo, nodes`hi, nodes`bh
      ensures Struct() && Colored() && LeftmostOk()
      ensures node.IsEmpty() && nodes == old(nodes) - {node}
      ensures 0 <= old(node.idx) < |old(order)| && old(order)[old(node.idx)] == node
      ensures order == old(order)[..old(node.idx)] + old(order)[old(node.idx) + 1..]
      ensures forall cmp {:trigger Sorted(cmp)} :: old(Sorted(cmp)) ==> Sorted(cmp)
      ensures first == if old(node.idx) == 0 && order != [] then order[0] else null
    {
      hide Struct, Balanced, NoRedRedBut, Short, SortedSeq;
      first := null;
      WhereIs(node);
      if leftmost == node {
        leftmost := Next(node);
        first := leftmost;
      }
      var rebalance := Unlink(node);
      if rebalance != null {
        EraseFixup(rebalance);
      }
      node.parent := node;
      forall cmp | old(Sorted(cmp)) ensures Sorted(cmp) { RemoveSorted(cmp, old(order), old(node.idx)); }
    }

    static lemma RemoveSorted(cmp: (int, int) -> int, s: seq<Node>, d: int)
      requires SortedSeq(cmp, s) && 0 <= d < |s|
      ensures SortedSeq(cmp, s[..d] + s[d + 1..])
    {
    }

    lemma WhereIs(node: Node)
      requires Struct() && node in nodes
      ensures 0 <= node.idx < |order| && order[node.idx] == node && root != null
      ensures node == order[0] <==> node.idx == 0
    {
      assert Linked(node);
    }

    lemma OrderDistinct()
      requires Struct()
      ensures forall i, j :: 0 <= i < j < |order| ==> order[i] != order[j]
      ensures forall n :: n in nodes <==> n in order
    {
      forall n | n in nodes ensures n in order { assert Linked(n); }
    }

    lemma LinkedIsNotEmpty(node: Node)
      requires Struct() && node in nodes
      ensures !node.IsEmpty()
    {
      assert Linked(node);
    }

    // ---- walking ----

    /** `ns_rbtree_next`. */
    method Next(start: Node) returns (next: Node?)
      requires Struct() && (start in nodes || start.IsEmpty())
      ensures start in nodes ==> 0 <= start.idx < |order| && order[start.idx] == start
      ensures next == if start !in nodes then null else if start.idx + 1 < |order| then order[start.idx + 1] else null
    {
      var node := start;
      assert node in nodes ==> Linked(node);
      if node.IsEmpty() { return null; }
      if node.right != null {
        node := node.right;
        assert Linked(node);
        while node.left != null
          invariant node in nodes && Linked(node) && node.lo == start.idx + 1
          decreases node.hi - node.lo
        {
          node := node.left;
          assert Linked(node);
        }
        return node;
      }
      var parent := node.parent;
      while parent != null && node == parent.right
        invariant node in nodes && Linked(node) && parent == node.parent && node.hi == start.idx + 1
        decreases |order| - (node.hi - node.lo)
      {
        assert Linked(parent);
        node := parent;
        parent := node.parent;
      }
      if parent != null { assert Linked(parent); }
      return parent;
    }

    /** `ns_rbtree_prev`. */
    method Prev(start: Node) returns (prev: Node?)
      requires Struct() && (start in nodes || start.IsEmpty())
      ensures start in nodes ==> 0 <= start.idx < |order| && order[start.idx] == start
      ensures prev == if start !in nodes then null else if start.idx > 0 then order[start.idx - 1] else null
    {
      var node := start;
      assert node in nodes ==> Linked(node);
      if node.IsEmpty() { return null; }
      if node.left != null {
        node := node.left;
        assert Linked(node);
        while node.right != null
          invariant node in nodes && Linked(node) && node.hi == start.idx
          decreases node.hi - node.lo
        {
          node := node.right;
          assert Linked(node);
        }
        return node;
      }
      var parent := node.parent;
      while parent != null && node == parent.left
        invariant node in nodes && Linked(node) && parent == node.parent && node.lo == start.idx
        decreases |order| - (node.hi - node.lo)
      {
        assert Linked(parent);
        node := parent;
        parent := node.parent;
      }
      if parent != null { assert Linked(parent); }
      return parent;
    }

    /** `ns_rbtree_last`. */
    method Last() returns (last: Node?)
      requires Struct()
      ensures last == if order == [] then null else order[|order| - 1]
    {
      var n := root;
      if n == null { return null; }
      assert Linked(n);
      while n.right != null
        invariant n in nodes && Linked(n) && n.hi == |order|
        decreases n.hi - n.lo
      {
        n := n.right;
        assert Linked(n);
      }
      return n;
    }

    /** `ns_rbtree_find_add`: an equal node that is already there, or the new node, linked. */
    method FindAdd(node: Node, cmp: (int, int) -> int, ghost keys: set<int>) returns (found: Node, ghost pos: int)
      requires Struct() && Colored() && LeftmostOk() && Sorted(cmp)
      requires node !in nodes && PreorderOn(cmp, keys) && KeysIn(keys) && node.key in keys
      modifies this, nodes`parent, nodes`left, nodes`right, nodes`color, nodes`idx, nodes`lo, nodes`hi, nodes`bh,
        node`parent, node`left, node`right, node`color, node`idx, node`lo, node`hi, node`bh
      ensures Struct() && Colored() && LeftmostOk() && Sorted(cmp)
      ensures found == node <==> forall i :: 0 <= i < |old(order)| ==> cmp(node.key, old(order)[i].key) != 0
      ensures found != node ==> found in old(order) && cmp(node.key, found.key) == 0
                                && order == old(order) && nodes == old(nodes)
      ensures found == node ==> nodes == old(nodes) + {node} && StablePlace(cmp, old(order), node.key, pos)
                                && order == old(order)[..pos] + [node] + old(order)[pos..]
    {
      hide Struct, Balanced, NoRedRedBut, Colored, SortedSeq, Linked, PreorderOn, KeysIn, StablePlace;
      var parent, toLeft, isLeftmost, equal;
      parent, toLeft, isLeftmost, equal, pos := DescendUnlessEqual(node, cmp, keys);
      if equal != null { return equal, pos; }
      Link(node, parent, toLeft, pos);
      if isLeftmost { leftmost := node; }
      InsertFixup(node);
      found := node;
    }

    /** The same search, stopping at a node that compares equal. */
    method DescendUnlessEqual(node: Node, cmp: (int, int) -> int, ghost keys: set<int>)
      returns (parent: Node?, toLeft: bool, isLeftmost: bool, equal: Node?, ghost pos: int)
      requires Struct() && Sorted(cmp) && KeysIn(keys) && PreorderOn(cmp, keys) && node.key in keys
      ensures equal != null ==>
                equal in nodes && 0 <= equal.idx < |order| && order[equal.idx] == equal && cmp(node.key, equal.key) == 0
      ensures equal == null ==>
                && (forall i :: 0 <= i < |order| ==> cmp(node.key, order[i].key) != 0)
                && (if parent == null then root == null && pos == 0
                    else parent in nodes && if toLeft then parent.left == null && pos == parent.idx
                                            else parent.right == null && pos == parent.idx + 1)
                && StablePlace(cmp, order, node.key, pos) && (isLeftmost <==> pos == 0)
                && SortedSeq(cmp, order[..pos] + [node] + order[pos..])
    {
      hide Struct, SortedSeq, Linked, PreorderOn, KeysIn, Descended, StablePlace;
      var cur := root;
      parent, toLeft, isLeftmost, equal, pos := null, false, true, null, 0;
      ghost var lo, hi := 0, |order|;
      DescentStarts();
      while cur != null
        invariant Descended(cur, parent, toLeft, lo, hi)
        invariant 0 <= lo <= hi <= |order|
        invariant forall i :: 0 <= i < lo ==> cmp(node.key, order[i].key) > 0
        invariant forall i :: hi <= i < |order| ==> cmp(node.key, order[i].key) < 0
        invariant isLeftmost <==> lo == 0
        decreases hi - lo
      {
        DescentStep(cur, parent, toLeft, lo, hi, node.key, cmp, keys);
        parent := cur;
        var c := cmp(node.key, cur.key);
        if c < 0 {
          hi := cur.idx;
          cur, toLeft := cur.left, true;
        } else if c > 0 {
          lo := cur.idx + 1;
          cur, toLeft, isLeftmost := cur.right, false, false;
        } else {
          equal := cur;
          return;
        }
      }
      NothingBetween(parent, toLeft, lo, hi);
      DescentEnds(parent, toLeft, lo, hi, node, cmp, keys);
      pos := lo;
    }

    lemma NothingBetween(parent: Node?, toLeft: bool, lo: int, hi: int)
      requires Descended(null, parent, toLeft, lo, hi)
      ensures lo == hi
    {
    }

    /** A one-sided comparison that agrees with the order of the sequence. */
    ghost predicate MatchOrdered(match_: int -> int)
      reads this`order, order`key
    {
      forall i, j :: 0 <= i < j < |order| ==>
        && (match_(order[j].key) > 0 ==> match_(order[i].key) > 0)
        && (match_(order[i].key) < 0 ==> match_(order[j].key) < 0)
    }

    /** `ns_rbtree_find_first`: the first of the nodes that match, in sequence order. */
    method FindFirst(match_: int -> int) returns (found: Node?)
      requires Struct() && MatchOrdered(match_)
      ensures found == null <==> forall i :: 0 <= i < |order| ==> match_(order[i].key) != 0
      ensures found != null ==>
                && found in nodes && 0 <= found.idx < |order| && order[found.idx] == found
                && match_(found.key) == 0 && forall i :: 0 <= i < found.idx ==> match_(order[i].key) > 0
    {
      var node := root;
      found := null;
      ghost var lo, hi := 0, |order|;
      while node != null
        invariant 0 <= lo <= hi <= |order|
        invariant if node == null then lo == hi else node in nodes && node.lo == lo && node.hi == hi
        invariant forall i :: 0 <= i < lo ==> match_(order[i].key) > 0
        invariant if found == null then forall i :: hi <= i < |order| ==> match_(order[i].key) < 0
                  else found in nodes && found.idx == hi < |order| && order[hi] == found && match_(found.key) == 0
        decreases hi - lo
      {
        assert Linked(node);
        var c := match_(node.key);
        if c <= 0 {
          if c == 0 { found := node; }
          hi := node.idx;
          if node.left != null { assert Linked(node.left); }
          node := node.left;
        } else {
          lo := node.idx + 1;
          if node.right != null { assert Linked(node.right); }
          node := node.right;
        }
      }
    }

    /** `ns_rbtree_next_match`: the next node if it still matches. */
    method NextMatch(node: Node, match_: int -> int) returns (next: Node?)
      requires Struct() && node in nodes
      ensures 0 <= node.idx < |order|
      ensures next == if node.idx + 1 < |order| && match_(order[node.idx + 1].key) == 0 then order[node.idx + 1]
                      else null
    {
      hide Struct;
      next := Next(node);
      if next != null && match_(next.key) != 0 {
        next := null;
      }
    }

    // ---- what the shape means ----

    /** The in-order walk over the links alone. */
    ghost function InOrder(n: Node?): (s: seq<Node>)
      requires Struct() && (n == null || n in nodes)
      reads this, nodes
      decreases if n == null then 0 else n.hi - n.lo + 1
    {
      if n == null then []
      else assert Linked(n);
           assert n.left != null ==> Linked(n.left);
           assert n.right != null ==> Linked(n.right);
           InOrder(n.left) + [n] + InOrder(n.right)
    }

    lemma SpanSplits(n: Node)
      requires Struct() && n in nodes
      ensures 0 <= n.lo <= n.idx < n.hi <= |order|
      ensures order[n.lo..n.hi] == order[n.lo..n.idx] + [n] + order[n.idx + 1..n.hi]
      ensures if n.left == null then n.lo == n.idx else n.left in nodes && n.left.lo == n.lo && n.left.hi == n.idx
      ensures if n.right == null then n.hi == n.idx + 1
              else n.right in nodes && n.right.lo == n.idx + 1 && n.right.hi == n.hi
    {
      assert Linked(n);
    }

    /** Following the links in order visits exactly the abstract sequence. */
    lemma {:induction false} InOrderIsOrder(n: Node)
      requires Struct() && n in nodes
      ensures 0 <= n.lo < n.hi <= |order| && InOrder(n) == order[n.lo..n.hi]
      decreases n.hi - n.lo
    {
      SpanSplits(n);
      if n.left != null { InOrderIsOrder(n.left); }
      if n.right != null { InOrderIsOrder(n.right); }
    }

    lemma WalkIsOrder()
      requires Struct()
      ensures InOrder(root) == order
    {
      if root != null { InOrderIsOrder(root); }
    }

    ghost function Height(n: Node?): (h: nat)
      requires Struct() && (n == null || n in nodes)
      reads this, nodes
      decreases if n == null then 0 else n.hi - n.lo + 1
    {
      if n == null then 0
      else assert Linked(n);
           assert n.left != null ==> Linked(n.left);
           assert n.right != null ==> Linked(n.right);
           1 + if Height(n.left) >= Height(n.right) then Height(n.left) else Height(n.right)
    }

    /** The fewest and the most black nodes on a path from n down to a missing child. */
    ghost function BlackCounts(n: Node?): (c: (nat, nat))
      requires Struct() && (n == null || n in nodes)
      reads this, nodes
      decreases if n == null then 0 else n.hi - n.lo + 1
    {
      if n == null then (0, 0)
      else assert Linked(n);
           assert n.left != null ==> Linked(n.left);
           assert n.right != null ==> Linked(n.right);
           var l, r, own := BlackCounts(n.left), BlackCounts(n.right), if n.color.Black? then 1 else 0;
           (own + if l.0 <= r.0 then l.0 else r.0, own + if l.1 >= r.1 then l.1 else r.1)
    }

    /** Under the colour rules all paths down carry the same number of black nodes. */
    lemma {:induction false} PathsAgree(n: Node)
      requires Struct() && Balanced() && n in nodes
      ensures BlackCounts(n) == (n.bh, n.bh)
      decreases n.hi - n.lo
    {
      assert Linked(n) && BlackOk(n);
      if n.left != null { assert Linked(n.left); PathsAgree(n.left); }
      if n.right != null { assert Linked(n.right); PathsAgree(n.right); }
    }

    static ghost function Pow2(n: nat): (p: nat)
      ensures p > 0
    {
      if n == 0 then 1 else 2 * Pow2(n - 1)
    }

    static lemma {:induction false} Pow2Mono(a: nat, b: nat)
      requires a <= b
      ensures Pow2(a) <= Pow2(b)
    {
      if a < b { Pow2Mono(a, b - 1); }
    }

    static lemma {:induction false} Pow2Square(a: nat)
      ensures Pow2(2 * a) == Pow2(a) * Pow2(a)
    {
      if a > 0 {
        Pow2Square(a - 1);
        assert Pow2(2 * a) == 2 * Pow2(2 * a - 1) == 4 * Pow2(2 * (a - 1));
      }
    }

    /** A subtree of black height b has at least 2^b - 1 nodes and is at most 2b high, one more below a red top. */
    lemma {:induction false} SubtreeBounds(n: Node)
      requires Struct() && Colored() && n in nodes
      ensures Pow2(n.bh) <= n.hi - n.lo + 1
      ensures Height(n) <= 2 * n.bh + if n.color.Red? then 1 else 0
      decreases n.hi - n.lo
    {
      assert Linked(n) && BlackOk(n);
      if n.left != null { assert Linked(n.left) && RedOk(n.left); SubtreeBounds(n.left); }
      if n.right != null { assert Linked(n.right) && RedOk(n.right); SubtreeBounds(n.right); }
    }

    lemma RootIsBlack()
      requires Struct() && Colored() && root != null
      ensures root in nodes && root.color.Black? && root.lo == 0 && root.hi == |order|
    {
      assert Linked(root) && RedOk(root);
    }

    lemma EmptyHeight()
      requires Struct() && root == null
      ensures Pow2(Height(root)) == 1
    {
    }

    static lemma SquareMono(a: nat, b: nat)
      requires a <= b
      ensures a * a <= b * b
    {
      assert a * a <= a * b <= b * b;
    }

    /** The height is at most 2 * log2(size + 1), stated without a logarithm. */
    lemma HeightBound()
      requires Struct() && Colored()
      ensures Pow2(Height(root)) <= (|order| + 1) * (|order| + 1)
    {
      hide Height, Struct, Colored, Pow2;
      if root == null {
        EmptyHeight();
      } else {
        RootIsBlack();
        SubtreeBounds(root);
        Pow2Mono(Height(root), 2 * root.bh);
        Pow2Square(root.bh);
        SquareMono(Pow2(root.bh), |order| + 1);
      }
    }
  }
}
