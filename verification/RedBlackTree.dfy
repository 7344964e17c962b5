/**
 The intrusive red-black tree with parent pointers of deps/wepoll/wepoll.c, on the heap.
 `tree_add`, `tree_del`, `tree_find` and the rotations keep the source's pointer steps; the
 ghost shape says which mathematical tree the pointers form.
 */
module RedBlackTree {
  import opened TreeShapes

  class TreeNode {
    var left: TreeNode?
    var right: TreeNode?
    var parent: TreeNode?
    var key: nat
    var red: bool

    constructor ()
      ensures left == null && right == null && parent == null
    {
      left, right, parent := null, null, null;
    }

    // The macros of the source are parameterized by a side; so are the accessors here.
    function Get(side: Side): TreeNode?
      reads this
    {
      if side.Left? then left else right
    }
  }

  type NShape = Shape<TreeNode>
  type NPath = Path<TreeNode>

  ghost function Nodes(s: NShape): set<TreeNode> {
    match s
    case Leaf => {}
    case Node(l, e, _, r) => Nodes(l) + {e.node} + Nodes(r)
  }

  ghost function PathNodes(path: NPath): set<TreeNode> {
    match path
    case Top => {}
    case Down(_, e, _, other, up) => Nodes(other) + {e.node} + PathNodes(up)
  }

  // Every node occurs once.
  ghost predicate Apart(s: NShape) {
    match s
    case Leaf => true
    case Node(l, e, _, r) =>
      && Apart(l) && Apart(r)
      && e.node !in Nodes(l) && e.node !in Nodes(r)
      && Nodes(l) !! Nodes(r)
  }

  ghost predicate PathApart(path: NPath) {
    match path
    case Top => true
    case Down(_, e, _, other, up) =>
      && Apart(other) && PathApart(up)
      && e.node !in Nodes(other) && e.node !in PathNodes(up)
      && Nodes(other) !! PathNodes(up)
  }

  ghost function Enclosing(path: NPath): TreeNode? {
    match path
    case Top => null
    case Down(_, e, _, _, _) => e.node
  }

  ghost function Innermost(path: NPath): set<TreeNode> {
    if path.Top? then {} else {path.entry.node}
  }

  // The pointers from p on form the shape s, below the parent par.
  ghost predicate Rep(p: TreeNode?, par: TreeNode?, s: NShape)
    reads Nodes(s)
    decreases s
  {
    match s
    case Leaf => p == null
    case Node(l, e, red, r) =>
      && p == e.node && e.node.parent == par
      && e.node.key == e.key && e.node.red == red
      && Rep(e.node.left, e.node, l)
      && Rep(e.node.right, e.node, r)
  }

  // The pointers around a position: `hole` is the pointer stored there.
  ghost predicate PathRep(root: TreeNode?, path: NPath, hole: TreeNode?)
    reads PathNodes(path)
  {
    match path
    case Top => root == hole
    case Down(side, e, red, other, up) =>
      && e.node.parent == Enclosing(up)
      && e.node.key == e.key && e.node.red == red
      && e.node.Get(side) == hole
      && Rep(e.node.Get(side.Other()), e.node, other)
      && PathRep(root, up, e.node)
  }

  // The tree with this root consists of the subtree s, at p, and its surroundings.
  ghost predicate At(root: TreeNode?, path: NPath, s: NShape, p: TreeNode?)
    reads PathNodes(path), Nodes(s)
  {
    && PathApart(path) && Apart(s) && PathNodes(path) !! Nodes(s)
    && PathRep(root, path, p)
    && Rep(p, Enclosing(path), s)
  }

  ghost function AllNodes(path: NPath, s: NShape): set<TreeNode> {
    PathNodes(path) + Nodes(s)
  }

  // What the position says about the pointer stored there.
  lemma Look(root: TreeNode?, path: NPath, s: NShape, p: TreeNode?)
    requires At(root, path, s, p)
    ensures p == null <==> s.Leaf?
    ensures p != null ==> p == s.entry.node && p.key == s.entry.key && p.red == s.red
    ensures p != null ==> p.parent == Enclosing(path) && p in Nodes(s) && p in AllNodes(path, s)
    ensures p != null ==> (p.left == null <==> s.left.Leaf?) && (p.right == null <==> s.right.Leaf?)
    ensures path.Top? ==> p == root
    ensures path.Down? ==> root != null && p != root
    ensures path.Down? ==> path.entry.node.Get(path.side) == p && path.entry.node.red == path.red
    ensures path.Down? ==> path.entry.node.parent == Enclosing(path.up)
    ensures path.Down? ==> (path.entry.node.Get(path.side.Other()) == null <==> path.other.Leaf?)
    ensures path.Down? && path.other.Node? ==> path.entry.node.Get(path.side.Other()) == path.other.entry.node != p
    ensures path.Down? && path.other.Node? ==> path.other.entry.node.red == path.other.red
  {
    if path.Down? {
      OuterRoot(root, path, p);
    }
    if p != null {
      assert Rep(p.left, p, s.left) && Rep(p.right, p, s.right);
    }
  }

  lemma LookNephews(root: TreeNode?, path: NPath, s: NShape, p: TreeNode?)
    requires At(root, path, s, p) && path.Down? && path.other.Node?
    ensures var o, n := path.other, path.other.entry.node;
            && (n.left == null <==> o.left.Leaf?) && (n.right == null <==> o.right.Leaf?)
            && (o.left.Node? ==> n.left.red == o.left.red) && (o.right.Node? ==> n.right.red == o.right.red)
  {
    var o := path.other;
    assert Rep(o.entry.node, path.entry.node, o);
    assert Rep(o.entry.node.left, o.entry.node, o.left) && Rep(o.entry.node.right, o.entry.node, o.right);
  }

  lemma {:induction false} OuterRoot(root: TreeNode?, path: NPath, hole: TreeNode?)
    requires path.Down? && PathRep(root, path, hole)
    ensures root != null && root in PathNodes(path)
  {
    if path.up.Down? {
      OuterRoot(root, path.up, path.entry.node);
    }
  }

  // ---- Moving the position ---------------------------------------------------------------

  lemma StepUp(root: TreeNode?, path: NPath, s: NShape, p: TreeNode?)
    requires path.Down? && At(root, path, s, p)
    ensures At(root, path.up, Wrapped(path, s), path.entry.node)
    ensures AllNodes(path.up, Wrapped(path, s)) == AllNodes(path, s)
    ensures Entries(path.up, Wrapped(path, s)) == Entries(path, s)
  {
    StepOut(path, s);
  }

  lemma StepDown(root: TreeNode?, path: NPath, s: NShape, p: TreeNode?, side: Side)
    requires s.Node? && At(root, path, s, p)
    ensures p == s.entry.node
    ensures At(root, Into(path, s, side), s.Child(side), s.entry.node.Get(side))
    ensures AllNodes(Into(path, s, side), s.Child(side)) == AllNodes(path, s)
    ensures Wrapped(Into(path, s, side), s.Child(side)) == s
    ensures Entries(Into(path, s, side), s.Child(side)) == Entries(path, s)
  {
    StepOut(Into(path, s, side), s.Child(side));
  }

  lemma FromTheTop(s: NShape)
    ensures AllNodes(Top, s) == Nodes(s)
    ensures Entries(Top, s) == Inorder(s)
  {
  }

  lemma {:induction false} WholeTree(root: TreeNode?, path: NPath, s: NShape, p: TreeNode?)
    requires At(root, path, s, p)
    ensures At(root, Top, Plug(path, s), root)
    ensures Nodes(Plug(path, s)) == AllNodes(path, s)
    ensures Inorder(Plug(path, s)) == Entries(path, s)
    decreases path
  {
    InorderPlug(path, s);
    match path
    case Top =>
    case Down(side, e, red, other, up) =>
      StepUp(root, path, s, p);
      WholeTree(root, up, Wrapped(path, s), e.node);
  }

  // The position of a member node.
  lemma {:induction false} Locate(root: TreeNode?, path: NPath, s: NShape, p: TreeNode?, node: TreeNode)
      returns (path': NPath, s': NShape)
    requires At(root, path, s, p) && node in Nodes(s) && LegalAt(path, s)
    ensures At(root, path', s', node) && s'.Node? && s'.entry.node == node && LegalAt(path', s')
    ensures AllNodes(path', s') == AllNodes(path, s) && Entries(path', s') == Entries(path, s)
    decreases s
  {
    if node == s.entry.node {
      path', s' := path, s;
    } else {
      var side := if node in Nodes(s.left) then Left else Right;
      StepDown(root, path, s, p, side);
      LegalStep(path, s, side);
      path', s' := Locate(root, Into(path, s, side), s.Child(side), s.entry.node.Get(side), node);
    }
  }

  lemma Elsewhere(root: TreeNode?, path: NPath, s: NShape, p: TreeNode?, n: TreeNode)
    requires At(root, path, s, p) && n in PathNodes(path)
    ensures p != n
  {
  }

  lemma OffNode(chain: NPath, base: NPath)
    requires chain.Down? && base.Down? && PathApart(Append(chain, base))
    ensures base.entry.node in PathNodes(Append(chain, base))
    ensures chain.entry.node != base.entry.node
  {
    InAppend(chain.up, base);
  }

  lemma {:induction false} InAppend(chain: NPath, base: NPath)
    requires base.Down?
    ensures base.entry.node in PathNodes(Append(chain, base))
    decreases chain
  {
    if chain.Down? {
      InAppend(chain.up, base);
    }
  }

  // Moving the position out of, and into, a chain of frames.
  lemma {:induction false} Ascend(root: TreeNode?, chain: NPath, base: NPath, s: NShape, p: TreeNode?)
      returns (q: TreeNode?)
    requires At(root, Append(chain, base), s, p)
    ensures At(root, base, Plug(chain, s), q)
    ensures AllNodes(base, Plug(chain, s)) == AllNodes(Append(chain, base), s)
    decreases chain
  {
    match chain
    case Top =>
      q := p;
    case Down(side, e, red, other, up) =>
      StepUp(root, Append(chain, base), s, p);
      q := Ascend(root, up, base, Wrapped(chain, s), e.node);
  }

  lemma {:induction false} Reenter(root: TreeNode?, chain: NPath, base: NPath, s: NShape, q: TreeNode?)
      returns (p: TreeNode?)
    requires At(root, base, Plug(chain, s), q)
    ensures At(root, Append(chain, base), s, p)
    ensures AllNodes(Append(chain, base), s) == AllNodes(base, Plug(chain, s))
    decreases chain
  {
    match chain
    case Top =>
      p := q;
    case Down(side, e, red, other, up) =>
      var h := Reenter(root, up, base, Wrapped(chain, s), q);
      StepDown(root, Append(up, base), Wrapped(chain, s), h, side);
      p := e.node.Get(side);
  }

  // Nodes reached by pointers are allocated, so calls that may not change them leave them be.
  lemma {:induction false} RepAllocated(p: TreeNode?, par: TreeNode?, s: NShape)
    requires Rep(p, par, s)
    ensures forall n :: n in Nodes(s) ==> allocated(n)
    decreases s
  {
    match s
    case Leaf =>
    case Node(l, e, _, r) =>
      RepAllocated(p.left, p, l);
      RepAllocated(p.right, p, r);
  }

  lemma {:induction false} PathAllocated(root: TreeNode?, path: NPath, hole: TreeNode?)
    requires PathRep(root, path, hole)
    requires path.Down? ==> allocated(path.entry.node)
    ensures forall n :: n in PathNodes(path) ==> allocated(n)
  {
    match path
    case Top =>
    case Down(side, e, _, other, up) =>
      RepAllocated(e.node.Get(side.Other()), e.node, other);
      PathAllocated(root, up, e.node);
  }

  lemma RotatedApart(s: NShape, cis: Side)
    requires s.Node? && s.Child(cis.Other()).Node?
    requires Apart(s)
    ensures Apart(Rotated(s, cis))
    ensures Nodes(Rotated(s, cis)) == Nodes(s)
    ensures var q := s.Child(cis.Other());
            var a, b, c := s.Child(cis), q.Child(cis), q.Child(cis.Other());
            && s.entry.node != q.entry.node
            && Nodes(a) + Nodes(b) + Nodes(c) !! {s.entry.node, q.entry.node}
            && Nodes(a) !! Nodes(b) !! Nodes(c)
            && Nodes(a) + Nodes(b) + Nodes(c) <= Nodes(s)
            && (b.Node? ==> Nodes(b) == Nodes(b.left) + {b.entry.node} + Nodes(b.right))
            && (b.Node? ==> b.entry.node !in Nodes(b.left) + Nodes(b.right))
  {
    var q := s.Child(cis.Other());
    var a, b, c := s.Child(cis), q.Child(cis), q.Child(cis.Other());
    assert Nodes(q) == Nodes(b) + {q.entry.node} + Nodes(c);
    assert Nodes(s) == Nodes(a) + {s.entry.node} + Nodes(q);
    assert Apart(q) && Apart(b);
  }

  lemma HoistedApart(s: NShape)
    requires s.Node? && s.right.Node? && s.right.left.Leaf? && Apart(s)
    ensures Apart(s.left) && Apart(Node(s.left, s.right.entry, s.red, s.right.right))
    ensures Nodes(Node(s.left, s.right.entry, s.red, s.right.right)) == Nodes(s) - {s.entry.node}
    ensures s.entry.node != s.right.entry.node
    ensures {s.entry.node, s.right.entry.node} !! Nodes(s.left) + Nodes(s.right.right)
    ensures Nodes(s.left) !! Nodes(s.right.right)
  {
    assert Apart(s.right);
  }

  class Tree {
    var root: TreeNode?
    ghost var shape: NShape

    ghost predicate Valid()
      reads this, Nodes(shape)
    {
      && At(root, Top, shape, root)
      && Legal(shape)
      && Ordered(Inorder(shape))
    }

    // The pointer to p, in its parent or in the root, becomes q.
    method Relink(p: TreeNode, q: TreeNode?, ghost path: NPath, ghost s: NShape)
      requires s.Node? && At(root, path, s, p)
      modifies `root, Innermost(path)`left, Innermost(path)`right
      ensures PathRep(root, path, q)
      ensures Rep(p, Enclosing(path), s)
    {
      var parent := p.parent;
      if parent != null {
        if parent.left == p { parent.left := q; } else { parent.right := q; }
      } else {
        root := q;
      }
    }

    // A subtree gets a new parent.
    static method Adopt(p: TreeNode?, parent: TreeNode?, ghost was: TreeNode?, ghost s: NShape)
      requires Apart(s) && Rep(p, was, s)
      modifies (if p != null then {p} else {})`parent
      ensures Rep(p, parent, s)
    {
      if p != null {
        assert Rep(p.left, p, s.left) && Rep(p.right, p, s.right);
        p.parent := parent;
      }
    }

    // The entries of the tree in the order of their keys.
    ghost function Contents(): seq<Entry<TreeNode>>
      reads `shape
    {
      Inorder(shape)
    }

    // tree_init
    constructor ()
      ensures Valid() && Contents() == [] && Nodes(shape) == {}
    {
      root := null;
      shape := Leaf;
    }

    // tree_find
    method Find(key: nat) returns (node: TreeNode?)
      requires Valid()
      ensures node != null ==> Entry(key, node) in Contents()
      ensures node == null <==> key !in KeysOf(Contents())
    {
      ghost var path: NPath, s := Top, shape;
      node := root;
      assert Entries(path, s) == Contents();
      while node != null
        invariant At(root, path, s, node)
        invariant Entries(path, s) == Contents() && Narrowed(path, key)
        decreases s
      {
        hide At, Narrowed, Entries, Ordered;
        Look(root, path, s, node);
        NarrowedStep(path, s, key);
        if key < node.key {
          StepDown(root, path, s, node, Left);
          node := node.left;
          path, s := Into(path, s, Left), s.left;
        } else if key > node.key {
          StepDown(root, path, s, node, Right);
          node := node.right;
          path, s := Into(path, s, Right), s.right;
        } else {
          return;
        }
      }
      Look(root, path, s, node);
      NarrowedLeaf(path, key);
    }

    // tree_root
    method Root() returns (node: TreeNode?)
      requires Valid()
      ensures node == null <==> Contents() == []
      ensures node != null ==> node in Nodes(shape)
    {
      Look(root, Top, shape, root);
      node := root;
    }

    // TREE__ROTATE(left, right)
    method RotateLeft(node: TreeNode, ghost path: NPath, ghost s: NShape)
      requires s.Node? && s.right.Node?
      requires At(root, path, s, node)
      modifies `root, AllNodes(path, s)
      ensures At(root, path, Rotated(s, Left), s.right.entry.node)
      ensures Nodes(Rotated(s, Left)) == Nodes(s)
    {
      RotatedApart(s, Left);
      PathAllocated(root, path, node);
      var q := node.right;
      var parent := node.parent;
      Relink(node, q, path, s);
      TurnLeft(node, q, parent, s);
    }

    static method TurnLeft(p: TreeNode, q: TreeNode, parent: TreeNode?, ghost s: NShape)
      requires s.Node? && s.right.Node? && q == s.right.entry.node
      requires Apart(s) && Rep(p, parent, s)
      modifies Nodes(s)
      ensures Rep(q, parent, Rotated(s, Left))
    {
      ghost var a, b, c := s.left, s.right.left, s.right.right;
      RotatedApart(s, Left);
      assert p in Nodes(s) && q in Nodes(s);
      ghost var below := Node(a, s.entry, s.red, b);
      assert Rotated(s, Left) == Node(below, s.right.entry, s.right.red, c);
      hide Apart, Nodes, Rotated;
      assert Rep(p.left, p, a) && Rep(q, p, s.right);
      assert Rep(q.left, q, b) && Rep(q.right, q, c);
      ghost var m := q.left;
      assert m != null ==> m.parent == q && Rep(m.left, m, b.left) && Rep(m.right, m, b.right);
      q.parent := parent;
      p.parent := q;
      p.right := q.left;
      if p.right != null {
        p.right.parent := p;
      }
      q.left := p;
      assert Rep(p.left, p, a) == true && Rep(q.right, q, c) == true;
      assert m != null ==> Rep(m.left, m, b.left) == true && Rep(m.right, m, b.right) == true;
      assert Rep(p, q, below);
    }

    // TREE__ROTATE(right, left)
    method RotateRight(node: TreeNode, ghost path: NPath, ghost s: NShape)
      requires s.Node? && s.left.Node?
      requires At(root, path, s, node)
      modifies `root, AllNodes(path, s)
      ensures At(root, path, Rotated(s, Right), s.left.entry.node)
      ensures Nodes(Rotated(s, Right)) == Nodes(s)
    {
      RotatedApart(s, Right);
      PathAllocated(root, path, node);
      var q := node.left;
      var parent := node.parent;
      Relink(node, q, path, s);
      TurnRight(node, q, parent, s);
    }

    static method TurnRight(p: TreeNode, q: TreeNode, parent: TreeNode?, ghost s: NShape)
      requires s.Node? && s.left.Node? && q == s.left.entry.node
      requires Apart(s) && Rep(p, parent, s)
      modifies Nodes(s)
      ensures Rep(q, parent, Rotated(s, Right))
    {
      ghost var a, b, c := s.right, s.left.right, s.left.left;
      RotatedApart(s, Right);
      assert p in Nodes(s) && q in Nodes(s);
      ghost var below := Node(b, s.entry, s.red, a);
      assert Rotated(s, Right) == Node(c, s.left.entry, s.left.red, below);
      hide Apart, Nodes, Rotated;
      assert Rep(p.right, p, a) && Rep(q, p, s.left);
      assert Rep(q.right, q, b) && Rep(q.left, q, c);
      ghost var m := q.right;
      assert m != null ==> m.parent == q && Rep(m.left, m, b.left) && Rep(m.right, m, b.right);
      q.parent := parent;
      p.parent := q;
      p.left := q.right;
      if p.left != null {
        p.left.parent := p;
      }
      q.right := p;
      assert Rep(p.right, p, a) == true && Rep(q.left, q, c) == true;
      assert m != null ==> Rep(m.left, m, b.left) == true && Rep(m.right, m, b.right) == true;
      assert Rep(p, q, below);
    }

    // One colour change.
    method Paint(node: TreeNode, red: bool, ghost path: NPath, ghost s: NShape)
      requires s.Node? && At(root, path, s, node)
      modifies node`red
      ensures At(root, path, s.(red := red), node)
      ensures Nodes(s.(red := red)) == Nodes(s) && AllNodes(path, s.(red := red)) == AllNodes(path, s)
      ensures Entries(path, s.(red := red)) == Entries(path, s)
    {
      assert Rep(node.left, node, s.left) && Rep(node.right, node, s.right);
      node.red := red;
    }

    method Rotate(node: TreeNode, cis: Side, ghost path: NPath, ghost s: NShape)
      requires s.Node? && s.Child(cis.Other()).Node?
      requires At(root, path, s, node)
      modifies `root, AllNodes(path, s)
      ensures At(root, path, Rotated(s, cis), s.Child(cis.Other()).entry.node)
      ensures Nodes(Rotated(s, cis)) == Nodes(s) && AllNodes(path, Rotated(s, cis)) == AllNodes(path, s)
      ensures Entries(path, Rotated(s, cis)) == Entries(path, s)
    {
      RotatedInorder(s, cis);
      if cis.Left? { RotateLeft(node, path, s); } else { RotateRight(node, path, s); }
    }

    // TREE__REBALANCE_AFTER_INSERT with a red uncle.
    method RecolorUncle(node: TreeNode, parent: TreeNode, grandparent: TreeNode, uncle: TreeNode,
                        ghost path: NPath, ghost s: NShape)
        returns (ghost s': NShape)
      requires Adding(path, s) && path.Down? && path.red && IsRed(path.up.other)
      requires At(root, path, s, node)
      requires parent == path.entry.node && grandparent == Enclosing(path.up)
      requires path.up.Down? && uncle == path.up.other.entry.node
      modifies AllNodes(path, s)
      ensures Adding(path.up.up, s') && At(root, path.up.up, s', grandparent)
      ensures AllNodes(path.up.up, s') == AllNodes(path, s)
      ensures Entries(path.up.up, s') == Entries(path, s)
    {
      RecolorKeepsAdding(path, s);
      hide At, AllNodes, Entries, Adding, Fits, RedBlack, Inorder;
      StepUp(root, path, s, node);
      ghost var p := Wrapped(path, s);
      Paint(parent, false, path.up, p);
      ghost var p' := p.(red := false);
      StepUp(root, path.up, p', parent);
      ghost var g := Wrapped(path.up, p');
      Paint(grandparent, true, path.up.up, g);
      ghost var g' := g.(red := true);
      StepDown(root, path.up.up, g', grandparent, path.up.side.Other());
      ghost var into, u := Into(path.up.up, g', path.up.side.Other()), path.up.other;
      Paint(uncle, false, into, u);
      StepUp(root, into, u.(red := false), uncle);
      s' := Wrapped(into, u.(red := false));
    }

    // An inner grandchild becomes an outer one; the old parent is the new node.
    method InsertRotateInner(node: TreeNode, parent: TreeNode, cis: Side, ghost path: NPath, ghost s: NShape)
        returns (ghost path': NPath, ghost s': NShape)
      requires Adding(path, s) && path.Down? && path.red && path.side == cis.Other()
      requires At(root, path, s, node) && parent == path.entry.node
      modifies `root, AllNodes(path, s)
      ensures Adding(path', s') && At(root, path', s', parent)
      ensures path'.Down? && path'.side == cis && path'.red && path'.entry.node == node
      ensures path'.up == path.up && Depth(path') == Depth(path)
      ensures AllNodes(path', s') == AllNodes(path, s)
      ensures Entries(path', s') == Entries(path, s)
    {
      InnerKeepsAdding(path, s, cis);
      hide At, AllNodes, Entries, Fits, RedBlack, Inorder;
      StepUp(root, path, s, node);
      ghost var w := Wrapped(path, s);
      Rotate(parent, cis, path.up, w);
      ghost var r := Rotated(w, cis);
      StepDown(root, path.up, r, node, cis);
      path', s' := Into(path.up, r, cis), r.Child(cis);
    }

    // An outer grandchild: one rotation at the grandparent and no two reds are left.
    method InsertRotateOuter(node: TreeNode, parent: TreeNode, grandparent: TreeNode, cis: Side,
                             ghost path: NPath, ghost s: NShape)
        returns (ghost path': NPath)
      requires Adding(path, s) && path.Down? && path.red && path.side == cis
      requires path.up.Down? && path.up.side == cis && !IsRed(path.up.other)
      requires At(root, path, s, node) && parent == path.entry.node && grandparent == path.up.entry.node
      modifies `root, AllNodes(path, s)
      ensures Adding(path', s) && At(root, path', s, node)
      ensures Depth(path') < Depth(path)
      ensures AllNodes(path', s) == AllNodes(path, s)
      ensures Entries(path', s) == Entries(path, s)
    {
      OuterKeepsAdding(path, s);
      hide At, AllNodes, Entries, Adding, Fits, RedBlack, Inorder;
      StepUp(root, path, s, node);
      ghost var w := Wrapped(path, s);
      Paint(parent, false, path.up, w);
      ghost var w' := w.(red := false);
      StepUp(root, path.up, w', parent);
      ghost var g := Wrapped(path.up, w');
      Paint(grandparent, true, path.up.up, g);
      ghost var g' := g.(red := true);
      Rotate(grandparent, cis.Other(), path.up.up, g');
      ghost var r := Rotated(g', cis.Other());
      StepDown(root, path.up.up, r, parent, cis);
      path' := Into(path.up.up, r, cis);
    }

    // The body of the rebalancing loop of tree_add.
    method InsertStep(node: TreeNode, parent: TreeNode, ghost path: NPath, ghost s: NShape)
        returns (node': TreeNode, ghost path': NPath, ghost s': NShape)
      requires Adding(path, s) && path.Down? && path.red && parent == path.entry.node
      requires At(root, path, s, node)
      modifies `root, AllNodes(path, s)
      ensures Adding(path', s') && At(root, path', s', node')
      ensures Depth(path') < Depth(path)
      ensures AllNodes(path', s') == AllNodes(path, s)
      ensures Entries(path', s') == Entries(path, s)
    {
      hide At, AllNodes, Entries, RedBlack, Inorder;
      assert path.up.Down? && Fits(path.up, BlackHeight(s));
      Look(root, path, s, node);
      StepUp(root, path, s, node);
      Look(root, path.up, Wrapped(path, s), parent);
      node', path', s' := node, path, s;
      var grandparent := parent.parent;
      var cis := if parent == grandparent.left then Left else Right;
      var uncle := grandparent.Get(cis.Other());
      if uncle != null && uncle.red {
        s' := RecolorUncle(node, parent, grandparent, uncle, path, s);
        path' := path.up.up;
        node' := grandparent;
      } else {
        var parent' := parent;
        if node == parent.Get(cis.Other()) {
          path', s' := InsertRotateInner(node, parent, cis, path, s);
          node', parent' := parent, node;
        }
        path' := InsertRotateOuter(node', parent', grandparent, cis, path', s');
      }
    }

    // The descent of tree_add: where a node with this key is to be attached.
    method Descend(key: nat) returns (parent: TreeNode, side: Side, found: bool, ghost path: NPath)
      requires Valid() && root != null
      ensures found <==> key in KeysOf(Contents())
      ensures !found ==> At(root, path, Leaf, null) && AllNodes(path, Leaf) == Nodes(shape)
      ensures !found ==> path.Down? && path.side == side && path.entry.node == parent
      ensures !found ==> Entries(path, Leaf) == Contents() && LegalAt(path, Leaf) && Narrowed(path, key)
    {
      ghost var s := shape;
      path, parent, found, side := Top, root, false, Left;
      FromTheTop(s);
      hide At, Nodes, AllNodes, PathNodes, Entries, LegalAt, Ordered, Apart, RedBlack, Inorder, Fits, KeysOf;
      while true
        invariant At(root, path, s, parent) && AllNodes(path, s) == Nodes(shape)
        invariant Entries(path, s) == Contents() && LegalAt(path, s) && Narrowed(path, key)
        decreases s
      {
        hide Narrowed;
        Look(root, path, s, parent);
        NarrowedStep(path, s, key);
        if parent.key == key {
          found := true;
          return;
        }
        side := if key < parent.key then Left else Right;
        StepDown(root, path, s, parent, side);
        LegalStep(path, s, side);
        var child := parent.Get(side);
        path, s := Into(path, s, side), s.Child(side);
        Look(root, path, s, child);
        if child == null {
          NarrowedLeaf(path, key);
          return;
        }
        parent := child;
      }
    }

    // A red node with this key, without children, at an empty position.
    method Attach(node: TreeNode, key: nat, parent: TreeNode?, side: Side, ghost path: NPath)
      requires At(root, path, Leaf, null) && node !in PathNodes(path)
      requires parent == Enclosing(path) && (path.Down? ==> path.side == side)
      modifies `root, node, PathNodes(path)
      ensures At(root, path, Node(Leaf, Entry(key, node), true, Leaf), node)
    {
      if parent == null {
        root := node;
      } else if side.Left? {
        parent.left := node;
      } else {
        parent.right := node;
      }
      node.key := key;
      node.left, node.right := null, null;
      node.parent := parent;
      node.red := true;
    }

    // tree_add
    method Add(node: TreeNode, key: nat) returns (r: int)
      requires Valid() && node !in Nodes(shape)
      modifies this, Nodes(shape), node
      ensures Valid()
      ensures r == if key in KeysOf(old(Contents())) then -1 else 0
      ensures r == -1 ==> unchanged(this) && unchanged(node)
      ensures r == 0 ==> Contents() == Inserted(old(Contents()), Entry(key, node))
      ensures r == 0 ==> Nodes(shape) == old(Nodes(shape)) + {node}
    {
      RepAllocated(root, null, shape);
      var parent := root;
      var side := Left;
      ghost var path: NPath := Top;
      if parent != null {
        var found;
        parent, side, found, path := Descend(key);
        if found {
          return -1;
        }
      }
      ghost var e := Entry(key, node);
      NewLeaf(path, e);
      ghost var s := Node(Leaf, e, true, Leaf);
      Attach(node, key, parent, side, path);
      hide At, LegalAt, Narrowed, Ordered, Inserted, Adding, Entries;
      AddFixup(node, path, s);
      return 0;
    }

    // The rebalancing loop of tree_add.
    method AddFixup(node0: TreeNode, ghost path0: NPath, ghost s0: NShape)
      requires Adding(path0, s0) && At(root, path0, s0, node0)
      modifies this, AllNodes(path0, s0)
      ensures At(root, Top, shape, root) && Legal(shape)
      ensures Inorder(shape) == Entries(path0, s0) && Nodes(shape) == AllNodes(path0, s0)
    {
      hide At, AllNodes, RedBlack, Inorder, Fits, Nodes, PathNodes, Entries;
      ghost var path, s := path0, s0;
      var node := node0;
      Look(root, path, s, node);
      var parent := node.parent;
      while parent != null && parent.red
        invariant Adding(path, s) && At(root, path, s, node)
        invariant parent == Enclosing(path)
        invariant AllNodes(path, s) == AllNodes(path0, s0)
        invariant Entries(path, s) == Entries(path0, s0)
        decreases Depth(path)
      {
        Look(root, path, s, node);
        node, path, s := InsertStep(node, parent, path, s);
        Look(root, path, s, node);
        parent := node.parent;
      }
      Look(root, path, s, node);
      AddedLegal(path, s);
      WholeTree(root, path, s, node);
      BlackenRoot(Plug(path, s));
    }

    // tree->root->red = false
    method BlackenRoot(ghost s: NShape)
      requires s.Node? && At(root, Top, s, root)
      modifies this, Nodes(s)
      ensures shape == s.(red := false) && At(root, Top, shape, root)
      ensures Inorder(shape) == Inorder(s) && Nodes(shape) == Nodes(s)
    {
      Paint(root, false, Top, s);
      shape := s.(red := false);
    }

    // A node with at most one child is replaced by that child.
    method UnlinkSingle(node: TreeNode, child: TreeNode?, side: Side, ghost path: NPath, ghost s: NShape)
      requires s.Node? && At(root, path, s, node) && s.Child(side.Other()).Leaf?
      requires child == node.Get(side)
      modifies `root, Innermost(path), Nodes(s.Child(side))
      ensures At(root, path, s.Child(side), child)
      ensures AllNodes(path, s.Child(side)) == AllNodes(path, s) - {node}
      ensures node.left == old(node.left) && node.right == old(node.right)
      ensures node.red == old(node.red) && node.key == old(node.key)
    {
      PathAllocated(root, path, node);
      RepAllocated(node, node.parent, s);
      var parent := node.parent;
      Relink(node, child, path, s);
      Adopt(child, parent, node, s.Child(side));
    }

    // The pointer steps of tree_del for a node with at most one child.
    method UnlinkOneChild(node: TreeNode, ghost path: NPath, ghost s: NShape)
        returns (x: TreeNode?, ghost path': NPath, ghost s': NShape)
      requires s.Node? && (s.left.Leaf? || s.right.Leaf?) && At(root, path, s, node)
      requires LegalAt(path, s) && Ordered(Entries(path, s))
      modifies `root, AllNodes(path, s) - {node}
      ensures path' == path && At(root, path', s', x)
      ensures AllNodes(path', s') == AllNodes(path, s) - {node}
      ensures Unlinked(path', s', s.red)
      ensures Entries(path', s') == Removed(Entries(path, s), s.entry.key) && Ordered(Entries(path', s'))
    {
      hide Rep, PathRep, Ordered, Removed, LegalAt, Unlinked, Entries;
      Look(root, path, s, node);
      var side := if node.left == null then Right else Left;
      StepDown(root, path, s, node, Left);
      Look(root, Into(path, s, Left), s.left, node.left);
      UnlinkOne(path, s, side);
      TakenOut(Before(path) + Inorder(s.left), s.entry, Inorder(s.right) + After(path));
      x := node.Get(side);
      UnlinkSingle(node, x, side, path, s);
      path', s' := path, s.Child(side);
    }

    // A node outside the tree takes the place, the children and the colour of a node.
    method Substitute(node: TreeNode, next: TreeNode, ghost path: NPath, ghost s: NShape, ghost e: Entry<TreeNode>)
      requires s.Node? && s.left.Node? && s.right.Node? && At(root, path, s, node)
      requires next !in AllNodes(path, s) && e == Entry(next.key, next)
      modifies `root, AllNodes(path, s) - {node}, next
      ensures At(root, path, Node(s.left, e, s.red, s.right), next)
      ensures AllNodes(path, Node(s.left, e, s.red, s.right)) == AllNodes(path, s) - {node} + {next}
    {
      PathAllocated(root, path, node);
      Relink(node, next, path, s);
      assert Rep(node.left, node, s.left) && Rep(node.right, node, s.right);
      Join(next, node.left, node.right, node, node.parent, node.red, s.left, s.right);
    }

    // next gets two children, a parent and a colour.
    static method Join(next: TreeNode, left: TreeNode, right: TreeNode, ghost was: TreeNode, parent: TreeNode?,
                       red: bool, ghost l: NShape, ghost r: NShape)
      requires Apart(l) && Apart(r) && Nodes(l) !! Nodes(r) && next !in Nodes(l) + Nodes(r)
      requires Rep(left, was, l) && Rep(right, was, r)
      modifies next, left`parent, right`parent
      ensures next.parent == parent && next.key == old(next.key) && next.red == red
      ensures next.left == left && next.right == right
      ensures Rep(left, next, l) && Rep(right, next, r)
    {
      RepAllocated(left, was, l);
      RepAllocated(right, was, r);
      next.red := red;
      next.left := left;
      Adopt(left, next, was, l);
      next.parent := parent;
      next.right := right;
      Adopt(right, next, was, r);
    }

    // The same when the successor is the right child: it keeps its own right subtree.
    method Hoist(node: TreeNode, next: TreeNode, ghost path: NPath, ghost s: NShape)
      requires s.Node? && s.left.Node? && s.right.Node? && s.right.left.Leaf? && At(root, path, s, node)
      requires next == s.right.entry.node
      modifies `root, AllNodes(path, s) - {node}
      ensures At(root, path, Node(s.left, s.right.entry, s.red, s.right.right), next)
      ensures AllNodes(path, Node(s.left, s.right.entry, s.red, s.right.right)) == AllNodes(path, s) - {node}
      ensures next.right == old(next.right)
    {
      HoistedApart(s);
      PathAllocated(root, path, node);
      Relink(node, next, path, s);
      assert Rep(node.left, node, s.left) && Rep(next, node, s.right);
      JoinLeft(next, node.left, node, node.parent, node.red, s.left, s.right.right);
    }

    // next gets a left child, a parent and a colour.
    static method JoinLeft(next: TreeNode, left: TreeNode, ghost was: TreeNode, parent: TreeNode?,
                           red: bool, ghost l: NShape, ghost r: NShape)
      requires Apart(l) && Nodes(l) !! Nodes(r) && next !in Nodes(l) + Nodes(r)
      requires Rep(left, was, l) && Rep(next.right, next, r)
      modifies next, left`parent
      ensures next.parent == parent && next.key == old(next.key) && next.red == red
      ensures next.left == left && next.right == old(next.right)
      ensures Rep(left, next, l) && Rep(next.right, next, r)
    {
      RepAllocated(next.right, next, r);
      next.red := red;
      next.left := left;
      Adopt(left, next, was, l);
      next.parent := parent;
    }

    // The successor of a node: the leftmost node of its right subtree.
    method Successor(node: TreeNode, ghost path: NPath, ghost s: NShape)
        returns (next: TreeNode, ghost chain: NPath, ghost t: NShape)
      requires s.Node? && s.left.Node? && s.right.Node? && At(root, path, s, node) && LegalAt(path, s)
      ensures var base := Into(path, s, Right);
              && At(root, Append(chain, base), t, next) && LegalAt(Append(chain, base), t)
              && AllNodes(Append(chain, base), t) == AllNodes(path, s)
              && Entries(Append(chain, base), t) == Entries(path, s)
      ensures At(root, path, s, node)
      ensures t.Node? && t.left.Leaf? && AllLeft(chain) && next.left == null
      ensures next == node.right <==> chain.Top?
      ensures chain.Top? ==> t == s.right
    {
      hide At, LegalAt, AllNodes, Nodes, Entries;
      ghost var base := Into(path, s, Right);
      Look(root, path, s, node);
      StepDown(root, path, s, node, Right);
      LegalStep(path, s, Right);
      Look(root, base, s.right, node.right);
      next, chain, t := node.right, Top, s.right;
      while next.left != null
        invariant At(root, Append(chain, base), t, next) && LegalAt(Append(chain, base), t)
        invariant At(root, path, s, node)
        invariant t.Node? && AllLeft(chain)
        invariant AllNodes(Append(chain, base), t) == AllNodes(path, s)
        invariant Entries(Append(chain, base), t) == Entries(path, s)
        invariant if chain.Top? then t == s.right && next == node.right
                  else next != node.right && node.right in PathNodes(Append(chain, base))
        decreases t
      {
        ghost var at := Append(chain, base);
        Look(root, at, t, next);
        StepDown(root, at, t, next, Left);
        LegalStep(at, t, Left);
        next, chain, t := next.left, Into(chain, t, Left), t.left;
        Look(root, Append(chain, base), t, next);
        Elsewhere(root, Append(chain, base), t, next, node.right);
      }
      StepDown(root, Append(chain, base), t, next, Left);
      Look(root, Into(Append(chain, base), t, Left), t.left, next.left);
    }

    // The pointer steps of tree_del for a node with two children.  The source interleaves the
    // writes that unlink the successor with those that put it in the node's place; they are
    // grouped here, and write the same fields.
    method UnlinkPair(node: TreeNode, ghost path: NPath, ghost s: NShape)
        returns (x: TreeNode?, parent: TreeNode, red: bool, ghost path': NPath, ghost s': NShape)
      requires s.Node? && s.left.Node? && s.right.Node? && At(root, path, s, node)
      requires LegalAt(path, s) && Ordered(Entries(path, s))
      modifies `root, AllNodes(path, s) - {node}
      ensures At(root, path', s', x) && parent == Enclosing(path')
      ensures AllNodes(path', s') == AllNodes(path, s) - {node}
      ensures Unlinked(path', s', red)
      ensures Entries(path', s') == Removed(Entries(path, s), s.entry.key) && Ordered(Entries(path', s'))
    {
      hide At, LegalAt, AllNodes, Entries, Ordered, Unlinked;
      ghost var base := Into(path, s, Right);
      var next;
      ghost var chain, t;
      next, chain, t := Successor(node, path, s);
      UnlinkTwo(path, s, chain, t);
      TakenOut(Before(path) + Inorder(s.left), s.entry, [t.entry] + Inorder(t.right) + After(chain) + After(path));
      Look(root, Append(chain, base), t, next);
      red := next.red;
      path', s' := Append(chain, IntoAs(path, s, t.entry)), t.right;
      x, parent := Splice(node, next, path, s, chain, t);
    }

    method Splice(node: TreeNode, next: TreeNode, ghost path: NPath, ghost s: NShape, ghost chain: NPath,
        ghost t: NShape)
        returns (x: TreeNode?, parent: TreeNode)
      requires s.Node? && s.left.Node? && s.right.Node? && At(root, path, s, node)
      requires t.Node? && t.left.Leaf? && At(root, Append(chain, Into(path, s, Right)), t, next)
      requires next == node.right <==> chain.Top?
      requires chain.Top? ==> t == s.right
      requires AllNodes(Append(chain, Into(path, s, Right)), t) == AllNodes(path, s)
      modifies `root, AllNodes(path, s) - {node}
      ensures var path' := Append(chain, IntoAs(path, s, t.entry));
              && At(root, path', t.right, x) && parent == Enclosing(path')
              && AllNodes(path', t.right) == AllNodes(path, s) - {node}
    {
      ghost var from := Append(chain, Into(path, s, Right));
      hide At, AllNodes, Nodes, PathNodes;
      Look(root, from, t, next);
      if next != node.right {
        x, parent := Detach(node, next, path, s, chain, t);
        PlugNode(chain, t.right);
        Replace(node, next, path, s, chain, t, x);
      } else {
        Hoist(node, next, path, s);
        StepDown(root, path, Node(s.left, t.entry, s.red, t.right), next, Right);
        parent := next;
        x := next.right;
      }
    }

    // The detached successor takes the place of the node.
    method Replace(node: TreeNode, next: TreeNode, ghost path: NPath, ghost s: NShape,
                   ghost chain: NPath, ghost t: NShape, ghost x: TreeNode?)
      requires s.Node? && s.left.Node? && t.Node? && Plug(chain, t.right).Node?
      requires At(root, path, s.(right := Plug(chain, t.right)), node)
      requires next !in AllNodes(path, s.(right := Plug(chain, t.right))) && t.entry == Entry(next.key, next)
      requires x == (if t.right.Leaf? then null else t.right.entry.node)
      modifies `root, AllNodes(path, s.(right := Plug(chain, t.right))) - {node}, next
      ensures var path' := Append(chain, IntoAs(path, s, t.entry));
              && At(root, path', t.right, x)
              && AllNodes(path', t.right) == AllNodes(path, s.(right := Plug(chain, t.right))) - {node} + {next}
    {
      hide At, AllNodes, Nodes, PathNodes;
      ghost var rest := Plug(chain, t.right);
      Substitute(node, next, path, s.(right := rest), t.entry);
      ghost var s' := Node(s.left, t.entry, s.red, rest);
      ghost var base := IntoAs(path, s, t.entry);
      StepDown(root, path, s', next, Right);
      assert base == Into(path, s', Right);
      ghost var x' := Reenter(root, chain, base, t.right, next.right);
      Look(root, Append(chain, base), t.right, x');
    }

    // The successor, when it is not the right child itself, leaves its place to its right child.
    method Detach(node: TreeNode, next: TreeNode, ghost path: NPath, ghost s: NShape, ghost chain: NPath,
        ghost t: NShape)
        returns (x: TreeNode?, parent: TreeNode)
      requires s.Node? && At(root, path, s, node) && chain.Down?
      requires t.Node? && t.left.Leaf? && At(root, Append(chain, Into(path, s, Right)), t, next)
      requires AllNodes(Append(chain, Into(path, s, Right)), t) == AllNodes(path, s)
      modifies `root, AllNodes(path, s) - {node}
      ensures At(root, path, s.(right := Plug(chain, t.right)), node)
      ensures AllNodes(path, s.(right := Plug(chain, t.right))) == AllNodes(path, s) - {next}
      ensures next != node && t.entry == Entry(next.key, next)
      ensures x == (if t.right.Leaf? then null else t.right.entry.node) && parent == chain.entry.node
    {
      ghost var base := Into(path, s, Right);
      ghost var at := Append(chain, base);
      Look(root, at, t, next);
      OffNode(chain, base);
      parent := next.parent;
      x := next.right;
      assert AllNodes(at, t) == PathNodes(at) + Nodes(t.right) + {next};
      hide At;
      UnlinkSingle(next, x, Right, at, t);
      Look(root, at, t.right, x);
      ghost var q := Ascend(root, chain, base, t.right, x);
      ghost var rest := Plug(chain, t.right);
      StepUp(root, base, rest, q);
      assert Wrapped(base, rest) == s.(right := rest);
    }

    // TREE__REBALANCE_AFTER_REMOVE: the case of a red sibling.
    method RemoveRedSibling(node: TreeNode?, parent: TreeNode, sibling: TreeNode, cis: Side,
                            ghost path: NPath, ghost s: NShape) returns (ghost path': NPath)
      requires Short(path, s) && path.Down? && IsRed(path.other) && cis == path.side
      requires At(root, path, s, node) && parent == path.entry.node && sibling == path.other.entry.node
      modifies `root, AllNodes(path, s)
      ensures Short(path', s) && path'.Down? && !IsRed(path'.other) && path'.side == cis && path'.red
      ensures At(root, path', s, node) && path'.entry.node == parent
      ensures AllNodes(path', s) == AllNodes(path, s) && Entries(path', s) == Entries(path, s)
    {
      SiblingExists(path, s);
      RedSibling(path, s);
      hide At, AllNodes, Entries, Short, Fits, RedBlack, Inorder;
      Look(root, path, s, node);
      StepUp(root, path, s, node);
      ghost var w := Wrapped(path, s);
      StepDown(root, path.up, w, parent, cis.Other());
      ghost var into, o := Into(path.up, w, cis.Other()), path.other;
      Paint(sibling, false, into, o);
      ghost var o' := o.(red := false);
      StepUp(root, into, o', sibling);
      ghost var w' := Wrapped(into, o');
      Paint(parent, true, path.up, w');
      ghost var w'' := w'.(red := true);
      Rotate(parent, cis, path.up, w'');
      ghost var r := Rotated(w'', cis);
      StepDown(root, path.up, r, sibling, cis);
      ghost var mid := Into(path.up, r, cis);
      StepDown(root, mid, r.Child(cis), parent, cis);
      path' := Into(mid, r.Child(cis), cis);
      Look(root, path', s, parent.Get(cis));
      assert node == parent.Get(cis);
    }

    // The case of a red near nephew: it becomes the sibling, with a red far nephew.
    method RemoveNearRed(node: TreeNode?, parent: TreeNode, sibling: TreeNode, cis: Side,
                         ghost path: NPath, ghost s: NShape) returns (ghost path': NPath)
      requires Short(path, s) && path.Down? && path.other.Node? && !IsRed(path.other) && cis == path.side
      requires IsRed(path.other.Child(cis)) && !IsRed(path.other.Child(cis.Other()))
      requires At(root, path, s, node) && parent == path.entry.node && sibling == path.other.entry.node
      modifies `root, AllNodes(path, s)
      ensures Short(path', s) && path'.Down? && path'.other.Node? && !IsRed(path'.other) && path'.side == cis
      ensures IsRed(path'.other.Child(cis.Other())) && path'.red == path.red
      ensures At(root, path', s, node) && path'.entry.node == parent
      ensures AllNodes(path', s) == AllNodes(path, s) && Entries(path', s) == Entries(path, s)
    {
      NearRed(path, s);
      hide At, AllNodes, Entries, Short, Fits, RedBlack, Inorder;
      Look(root, path, s, node);
      StepUp(root, path, s, node);
      ghost var w := Wrapped(path, s);
      StepDown(root, path.up, w, parent, cis.Other());
      ghost var into, o := Into(path.up, w, cis.Other()), path.other;
      StepDown(root, into, o, sibling, cis);
      ghost var deep, near := Into(into, o, cis), o.Child(cis);
      Look(root, deep, near, sibling.Get(cis));
      Paint(sibling.Get(cis), false, deep, near);
      StepUp(root, deep, near.(red := false), sibling.Get(cis));
      ghost var o1 := Wrapped(deep, near.(red := false));
      Paint(sibling, true, into, o1);
      ghost var o2 := o1.(red := true);
      Rotate(sibling, cis.Other(), into, o2);
      ghost var o3 := Rotated(o2, cis.Other());
      StepUp(root, into, o3, near.entry.node);
      ghost var w' := Wrapped(into, o3);
      StepDown(root, path.up, w', parent, cis);
      path' := Into(path.up, w', cis);
      Look(root, path', s, parent.Get(cis));
      assert path' == path.(other := o3);
      assert node == parent.Get(cis);
    }

    // The case of a red far nephew: one rotation at the parent ends the loop.
    method RemoveFarRed(node: TreeNode?, parent: TreeNode, sibling: TreeNode, cis: Side,
                        ghost path: NPath, ghost s: NShape) returns (ghost path': NPath, ghost s': NShape)
      requires Short(path, s) && path.Down? && path.other.Node? && !IsRed(path.other) && cis == path.side
      requires IsRed(path.other.Child(cis.Other()))
      requires At(root, path, s, node) && parent == path.entry.node && sibling == path.other.entry.node
      modifies `root, AllNodes(path, s)
      ensures LegalAt(path', s') && At(root, path', s', sibling)
      ensures AllNodes(path', s') == AllNodes(path, s) && Entries(path', s') == Entries(path, s)
    {
      FarRed(path, s);
      hide At, AllNodes, Entries, Short, Fits, RedBlack, Inorder, LegalAt;
      Look(root, path, s, node);
      StepUp(root, path, s, node);
      ghost var w := Wrapped(path, s);
      StepDown(root, path.up, w, parent, cis.Other());
      ghost var into, o := Into(path.up, w, cis.Other()), path.other;
      Paint(sibling, parent.red, into, o);
      ghost var o1 := o.(red := path.red);
      StepDown(root, into, o1, sibling, cis.Other());
      ghost var deep, far := Into(into, o1, cis.Other()), o.Child(cis.Other());
      Look(root, deep, far, sibling.Get(cis.Other()));
      Paint(sibling.Get(cis.Other()), false, deep, far);
      StepUp(root, deep, far.(red := false), sibling.Get(cis.Other()));
      ghost var o2 := Wrapped(deep, far.(red := false));
      StepUp(root, into, o2, sibling);
      ghost var w1 := Wrapped(into, o2);
      Paint(parent, false, path.up, w1);
      ghost var w2 := w1.(red := false);
      Rotate(parent, cis, path.up, w2);
      path', s' := path.up, Rotated(w2, cis);
    }

    // No red nephew: the sibling turns red.
    method RemoveBlackSibling(node: TreeNode?, parent: TreeNode, sibling: TreeNode, cis: Side,
                              ghost path: NPath, ghost s: NShape) returns (ghost s': NShape)
      requires Short(path, s) && path.Down? && path.other.Node? && !IsRed(path.other) && cis == path.side
      requires !IsRed(path.other.left) && !IsRed(path.other.right)
      requires At(root, path, s, node) && parent == path.entry.node && sibling == path.other.entry.node
      modifies AllNodes(path, s)
      ensures s'.Node? && s'.red == path.red && At(root, path.up, s', parent)
      ensures if path.red then LegalAt(path.up, s'.(red := false)) else Short(path.up, s')
      ensures AllNodes(path.up, s') == AllNodes(path, s) && Entries(path.up, s') == Entries(path, s)
    {
      BlackSibling(path, s);
      hide At, AllNodes, Entries, Short, Fits, RedBlack, Inorder, LegalAt;
      Look(root, path, s, node);
      StepUp(root, path, s, node);
      ghost var w := Wrapped(path, s);
      StepDown(root, path.up, w, parent, cis.Other());
      ghost var into, o := Into(path.up, w, cis.Other()), path.other;
      Paint(sibling, true, into, o);
      StepUp(root, into, o.(red := true), sibling);
      s' := Wrapped(into, o.(red := true));
    }

    // The body of the rebalancing loop of tree_del.
    method RemoveStep(node: TreeNode?, parent: TreeNode, ghost path: NPath, ghost s: NShape)
        returns (done: bool, ghost path': NPath, ghost s': NShape)
      requires Short(path, s) && path.Down? && At(root, path, s, node) && parent == path.entry.node
      modifies `root, AllNodes(path, s)
      ensures s'.Node?
      ensures done ==> LegalAt(path', s') && At(root, path', s', s'.entry.node)
      ensures !done ==> At(root, path', s', parent)
      ensures !done && s'.red ==> LegalAt(path', s'.(red := false))
      ensures !done && !s'.red ==> Short(path', s') && Depth(path') < Depth(path)
      ensures AllNodes(path', s') == AllNodes(path, s) && Entries(path', s') == Entries(path, s)
    {
      hide At, AllNodes, Entries, Short, Fits, RedBlack, Inorder, LegalAt;
      SiblingExists(path, s);
      Look(root, path, s, node);
      var cis := if node == parent.left then Left else Right;
      var sibling := parent.Get(cis.Other());
      path', s' := path, s;
      if sibling.red {
        path' := RemoveRedSibling(node, parent, sibling, cis, path, s);
        SiblingExists(path', s);
        Look(root, path', s, node);
        sibling := parent.Get(cis.Other());
      }
      LookNephews(root, path', s, node);
      if (sibling.left != null && sibling.left.red) || (sibling.right != null && sibling.right.red) {
        var far := sibling.Get(cis.Other());
        if far == null || !far.red {
          path' := RemoveNearRed(node, parent, sibling, cis, path', s);
          Look(root, path', s, node);
          sibling := parent.Get(cis.Other());
        }
        path', s' := RemoveFarRed(node, parent, sibling, cis, path', s);
        Look(root, path', s', sibling);
        done := true;
      } else {
        s' := RemoveBlackSibling(node, parent, sibling, cis, path', s);
        path' := path'.up;
        done := false;
      }
    }

    // The rebalancing loop of tree_del.
    method DelFixup(node0: TreeNode?, parent0: TreeNode?, ghost path0: NPath, ghost s0: NShape)
      requires Short(path0, s0) && At(root, path0, s0, node0) && parent0 == Enclosing(path0)
      modifies this, AllNodes(path0, s0)
      ensures At(root, Top, shape, root) && Legal(shape)
      ensures Inorder(shape) == Entries(path0, s0) && Nodes(shape) == AllNodes(path0, s0)
    {
      hide At, AllNodes, Entries, Short, Fits, RedBlack, Inorder, LegalAt, Nodes, PathNodes, Settled;
      var node, parent := node0, parent0;
      ghost var path, s := path0, s0;
      while true
        invariant Short(path, s) && At(root, path, s, node) && parent == Enclosing(path)
        invariant AllNodes(path, s) == AllNodes(path0, s0) && Entries(path, s) == Entries(path0, s0)
        decreases Depth(path)
      {
        Look(root, path, s, node);
        if node == root {
          SettledTop(path, s);
          break;
        }
        var done;
        done, path, s := RemoveStep(node, parent, path, s);
        if done {
          SettledRoot(path, s);
          WholeTree(root, path, s, s.entry.node);
          FromTheTop(Plug(path, s));
          path, s := Top, Plug(path, s);
          node := root;
          break;
        }
        node := parent;
        Look(root, path, s, node);
        parent := parent.parent;
        if node.red {
          SettledRed(path, s);
          break;
        }
      }
      Settle(node, path, s);
    }

    // The last step of the loop: a remaining red node turns black.
    method Settle(node: TreeNode?, ghost path: NPath, ghost s: NShape)
      requires At(root, path, s, node) && Settled(path, s)
      modifies this, AllNodes(path, s)
      ensures At(root, Top, shape, root) && Legal(shape)
      ensures Inorder(shape) == Entries(path, s) && Nodes(shape) == AllNodes(path, s)
    {
      hide At, AllNodes, Entries, Inorder, Nodes, PathNodes;
      Look(root, path, s, node);
      ghost var s' := s;
      if node != null {
        Paint(node, false, path, s);
        s' := s.(red := false);
      }
      Whole(path, s', node);
    }

    // The whole tree again, with its shape.
    ghost method Whole(path: NPath, s: NShape, p: TreeNode?)
      requires At(root, path, s, p) && LegalAt(path, s)
      modifies `shape
      ensures At(root, Top, shape, root) && Legal(shape)
      ensures Inorder(shape) == Entries(path, s) && Nodes(shape) == AllNodes(path, s)
    {
      WholeTree(root, path, s, p);
      FitsPlug(path, s);
      shape := Plug(path, s);
    }

    // tree_del
    method Del(node: TreeNode)
      requires Valid() && node in Nodes(shape)
      modifies this, Nodes(shape)
      ensures Valid()
      ensures Entry(old(node.key), node) in old(Contents())
      ensures Contents() == Removed(old(Contents()), old(node.key))
      ensures Nodes(shape) == old(Nodes(shape)) - {node}
    {
      hide At, AllNodes, Entries, Fits, RedBlack, Inorder, LegalAt, PathNodes, Ordered, Removed, Unlinked;
      FromTheTop(shape);
      ghost var path, s := Locate(root, Top, shape, root, node);
      Look(root, path, s, node);
      EntryAt(path, s);
      ghost var path', s' := path, s;
      var x, parent, red := null, node.parent, node.red;
      if node.left != null && node.right != null {
        x, parent, red, path', s' := UnlinkPair(node, path, s);
      } else {
        x, path', s' := UnlinkOneChild(node, path, s);
      }
      Look(root, path', s', x);
      UnlinkedOut(path', s', red);
      if red {
        Whole(path', s', x);
      } else if x != null && x.red {
        Paint(x, false, path', s');
        Whole(path', s'.(red := false), x);
      } else {
        DelFixup(x, parent, path', s');
      }
    }
  }
}
