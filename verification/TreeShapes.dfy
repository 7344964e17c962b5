/**
 The mathematical side of the red-black tree: a shape is the tree as a value, a path is
 everything around one position of it (innermost frame first).  A heap tree is related to a
 shape in module RedBlackTree; everything proved here is about values only.
 */
module TreeShapes {
  import opened Basics

  // An entry of the tree: the key and the (intrusive) node that carries it.
  datatype Entry<+N> = Entry(key: nat, node: N)

  datatype Side = Left | Right {
    function Other(): Side {
      if Left? then Right else Left
    }
  }

  datatype Shape<+N> = Leaf | Node(left: Shape<N>, entry: Entry<N>, red: bool, right: Shape<N>) {
    function Child(side: Side): Shape<N>
      requires Node?
    {
      if side.Left? then left else right
    }
  }

  // A node whose subtree on the given side is `cis` and whose other subtree is `trans`.
  function Build<N>(side: Side, cis: Shape<N>, e: Entry<N>, red: bool, trans: Shape<N>): (s: Shape<N>)
    ensures s.Node? && s.Child(side) == cis && s.Child(side.Other()) == trans && s.entry == e && s.red == red
  {
    if side.Left? then Node(cis, e, red, trans) else Node(trans, e, red, cis)
  }

  // `Down(side, e, red, other, up)`: the position is the `side` child of the node of `e`,
  // whose other child is `other`.
  datatype Path<+N> = Top | Down(side: Side, entry: Entry<N>, red: bool, other: Shape<N>, up: Path<N>)

  function Plug<N>(path: Path<N>, s: Shape<N>): Shape<N> {
    match path
    case Top => s
    case Down(side, e, red, other, up) => Plug(up, Build(side, s, e, red, other))
  }

  function Append<N>(path: Path<N>, base: Path<N>): Path<N> {
    match path
    case Top => base
    case Down(side, e, red, other, up) => Down(side, e, red, other, Append(up, base))
  }

  // ---- Contents -------------------------------------------------------------------------

  function Inorder<N>(s: Shape<N>): seq<Entry<N>> {
    match s
    case Leaf => []
    case Node(l, e, _, r) => Inorder(l) + [e] + Inorder(r)
  }

  // The entries to the left, and to the right, of a position.
  function Before<N>(path: Path<N>): seq<Entry<N>> {
    match path
    case Top => []
    case Down(side, e, _, other, up) =>
      if side.Left? then Before(up) else Before(up) + Inorder(other) + [e]
  }

  function After<N>(path: Path<N>): seq<Entry<N>> {
    match path
    case Top => []
    case Down(side, e, _, other, up) =>
      if side.Left? then [e] + Inorder(other) + After(up) else After(up)
  }

  lemma {:induction false} InorderPlug<N>(path: Path<N>, s: Shape<N>)
    ensures Inorder(Plug(path, s)) == Before(path) + Inorder(s) + After(path)
  {
    match path
    case Top =>
      assert Inorder(s) == [] + Inorder(s) + [];
    case Down(side, e, red, other, up) =>
      InorderPlug(up, Build(side, s, e, red, other));
      StepOut(path, s);
  }

  // Moving the position one step out changes no contents.
  lemma StepOut<N>(path: Path<N>, s: Shape<N>)
    requires path.Down?
    ensures Before(path.up) + Inorder(Build(path.side, s, path.entry, path.red, path.other)) + After(path.up)
         == Before(path) + Inorder(s) + After(path)
  {
    var Down(side, e, red, other, up) := path;
    if side.Left? {
      assert Before(up) + (Inorder(s) + [e] + Inorder(other)) + After(up)
          == Before(up) + Inorder(s) + ([e] + Inorder(other) + After(up));
    } else {
      assert Before(up) + (Inorder(other) + [e] + Inorder(s)) + After(up)
          == (Before(up) + Inorder(other) + [e]) + Inorder(s) + After(up);
    }
  }

  lemma {:induction false} AppendContents<N>(path: Path<N>, base: Path<N>)
    ensures Before(Append(path, base)) == Before(base) + Before(path)
    ensures After(Append(path, base)) == After(path) + After(base)
  {
    match path
    case Top =>
    case Down(side, e, red, other, up) =>
      AppendContents(up, base);
      if side.Left? {
        assert [e] + Inorder(other) + (After(up) + After(base)) == ([e] + Inorder(other) + After(up)) + After(base);
      } else {
        assert (Before(base) + Before(up)) + Inorder(other) + [e] == Before(base) + (Before(up) + Inorder(other) + [e]);
      }
  }

  ghost predicate Ordered<N>(es: seq<Entry<N>>) {
    forall i, j :: 0 <= i < j < |es| ==> es[i].key < es[j].key
  }

  ghost function KeysOf<N>(es: seq<Entry<N>>): set<nat> {
    set x: Entry<N> | x in es :: x.key
  }

  // The keys of the two subtrees of a node of an ordered tree.
  lemma Halves<N>(path: Path<N>, s: Shape<N>)
    requires s.Node? && Ordered(Before(path) + Inorder(s) + After(path))
    ensures forall x: Entry<N> :: x in Before(path) + Inorder(s.left) ==> x.key < s.entry.key
    ensures forall x: Entry<N> :: x in Inorder(s.right) + After(path) ==> s.entry.key < x.key
  {
    hide Ordered, Before, After;
    var b, l, r, a := Before(path), Inorder(s.left), Inorder(s.right), After(path);
    assert b + (l + [s.entry] + r) + a == (b + l) + [s.entry] + (r + a);
    Around(b + l, s.entry, r + a);
  }

  lemma Around<N>(b: seq<Entry<N>>, e: Entry<N>, a: seq<Entry<N>>)
    requires Ordered(b + [e] + a)
    ensures forall x: Entry<N> :: x in b ==> x.key < e.key
    ensures forall x: Entry<N> :: x in a ==> e.key < x.key
  {
    var all, m := b + [e] + a, |b|;
    forall x: Entry<N> | x in b ensures x.key < e.key {
      var i :| 0 <= i < m && b[i] == x;
      assert all[i] == x && all[m] == e;
    }
    forall x: Entry<N> | x in a ensures e.key < x.key {
      var i :| 0 <= i < |a| && a[i] == x;
      assert all[m + 1 + i] == x && all[m] == e;
    }
  }

  // What adding to and removing from the tree means for its ordered entries.
  function Inserted<N>(es: seq<Entry<N>>, e: Entry<N>): seq<Entry<N>> {
    if es == [] then [e]
    else if e.key < es[0].key then [e] + es
    else [es[0]] + Inserted(es[1..], e)
  }

  function Removed<N>(es: seq<Entry<N>>, key: nat): seq<Entry<N>> {
    if es == [] then []
    else if es[0].key == key then es[1..]
    else [es[0]] + Removed(es[1..], key)
  }

  lemma OrderedInsert<N>(b: seq<Entry<N>>, e: Entry<N>, a: seq<Entry<N>>)
    requires Ordered(b + a)
    requires forall x: Entry<N> :: x in b ==> x.key < e.key
    requires forall x: Entry<N> :: x in a ==> e.key < x.key
    ensures Ordered(b + [e] + a)
  {
    var all, ba := b + [e] + a, b + a;
    forall i, j | 0 <= i < j < |all| ensures all[i].key < all[j].key {
      if i == |b| {
        assert all[j] == a[j - |b| - 1];
      } else if j == |b| {
        assert all[i] == b[i];
      } else {
        var i', j' := if i < |b| then i else i - 1, if j < |b| then j else j - 1;
        assert all[i] == ba[i'] && all[j] == ba[j'] && i' < j';
      }
    }
  }

  lemma OrderedRemove<N>(b: seq<Entry<N>>, e: Entry<N>, a: seq<Entry<N>>)
    requires Ordered(b + [e] + a)
    ensures Ordered(b + a)
  {
    var all, ba := b + [e] + a, b + a;
    forall i, j | 0 <= i < j < |ba| ensures ba[i].key < ba[j].key {
      var i', j' := if i < |b| then i else i + 1, if j < |b| then j else j + 1;
      assert ba[i] == all[i'] && ba[j] == all[j'];
    }
  }

  lemma {:induction false} InsertedBetween<N>(b: seq<Entry<N>>, e: Entry<N>, a: seq<Entry<N>>)
    requires forall x: Entry<N> :: x in b ==> x.key < e.key
    requires forall x: Entry<N> :: x in a ==> e.key < x.key
    ensures Inserted(b + a, e) == b + [e] + a
  {
    if b == [] {
      assert b + a == a;
    } else {
      assert (b + a)[1..] == b[1..] + a;
      InsertedBetween(b[1..], e, a);
      assert b + [e] + a == [b[0]] + (b[1..] + [e] + a);
    }
  }

  lemma {:induction false} RemovedBetween<N>(b: seq<Entry<N>>, e: Entry<N>, a: seq<Entry<N>>)
    requires forall x: Entry<N> :: x in b ==> x.key != e.key
    ensures Removed(b + [e] + a, e.key) == b + a
  {
    var all := b + [e] + a;
    if b == [] {
      assert all[1..] == a == b + a;
    } else {
      assert all[1..] == b[1..] + [e] + a;
      RemovedBetween(b[1..], e, a);
      assert b + a == [b[0]] + (b[1..] + a);
    }
  }

  // Adding a new key, and removing one, change the entries by exactly that key.
  lemma {:induction false} InsertedEntries<N>(es: seq<Entry<N>>, e: Entry<N>)
    ensures forall x: Entry<N> :: x in Inserted(es, e) <==> x in es || x == e
  {
    if es != [] {
      InsertedEntries(es[1..], e);
      assert es == [es[0]] + es[1..];
    }
  }

  lemma InsertedKeys<N>(es: seq<Entry<N>>, e: Entry<N>)
    ensures KeysOf(Inserted(es, e)) == KeysOf(es) + {e.key}
  {
    InsertedEntries(es, e);
    forall k ensures k in KeysOf(Inserted(es, e)) <==> k in KeysOf(es) + {e.key} {
      if k in KeysOf(es) + {e.key} {
        var x: Entry<N> :| x.key == k && (x in es || x == e);
        assert x in Inserted(es, e);
      }
      if k in KeysOf(Inserted(es, e)) {
        var x: Entry<N> :| x in Inserted(es, e) && x.key == k;
        assert x in es || x == e;
      }
    }
  }

  lemma {:induction false} RemovedEntries<N>(es: seq<Entry<N>>, key: nat)
    requires Ordered(es)
    ensures forall x: Entry<N> :: x in Removed(es, key) <==> x in es && x.key != key
  {
    if es != [] {
      assert es == [es[0]] + es[1..];
      forall x | x in es[1..] ensures es[0].key < x.key {
        var i :| 1 <= i < |es| && es[i] == x;
      }
      if es[0].key != key {
        RemovedEntries(es[1..], key);
      }
    }
  }

  lemma RemovedKeys<N>(es: seq<Entry<N>>, key: nat)
    requires Ordered(es)
    ensures KeysOf(Removed(es, key)) == KeysOf(es) - {key}
  {
    RemovedEntries(es, key);
    forall k ensures k in KeysOf(Removed(es, key)) <==> k in KeysOf(es) - {key} {
      if k in KeysOf(es) - {key} {
        var x :| x in es && x.key == k;
        assert x in Removed(es, key);
      }
      if k in KeysOf(Removed(es, key)) {
        var x :| x in Removed(es, key) && x.key == k;
        assert x in es;
      }
    }
  }

  // ---- The red-black conditions ---------------------------------------------------------

  predicate IsRed<N>(s: Shape<N>) {
    s.Node? && s.red
  }

  function BlackHeight<N>(s: Shape<N>): nat {
    match s
    case Leaf => 0
    case Node(l, _, red, _) => BlackHeight(l) + (if red then 0 else 1)
  }

  // No red node has a red child and every path down has the same number of black nodes.
  predicate RedBlack<N>(s: Shape<N>) {
    match s
    case Leaf => true
    case Node(l, _, red, r) =>
      && RedBlack(l) && RedBlack(r)
      && BlackHeight(l) == BlackHeight(r)
      && (red ==> !IsRed(l) && !IsRed(r))
  }

  // A legal tree is a red-black one with a black root.
  predicate Legal<N>(s: Shape<N>) {
    RedBlack(s) && !IsRed(s)
  }

  // The surroundings of a position are fine for a subtree of black height h; a red node is
  // never the outermost one and never next to a red one.  (Whether the subtree itself may be
  // red is the business of the caller.)
  predicate Fits<N>(path: Path<N>, h: nat) {
    match path
    case Top => true
    case Down(side, e, red, other, up) =>
      && RedBlack(other) && BlackHeight(other) == h
      && (red ==> !IsRed(other) && up.Down? && !up.red)
      && Fits(up, if red then h else h + 1)
  }

  lemma {:induction false} FitsPlug<N>(path: Path<N>, s: Shape<N>)
    requires Fits(path, BlackHeight(s)) && RedBlack(s)
    requires IsRed(s) ==> path.Down? && !path.red
    ensures Legal(Plug(path, s))
  {
    match path
    case Top =>
    case Down(side, e, red, other, up) =>
      FitsPlug(up, Build(side, s, e, red, other));
  }

  // Taking a legal tree apart.
  lemma {:induction false} FitsUnplug<N>(path: Path<N>, s: Shape<N>)
    requires Legal(Plug(path, s))
    ensures RedBlack(s) && Fits(path, BlackHeight(s))
    ensures IsRed(s) ==> path.Down? && !path.red
  {
    match path
    case Top =>
    case Down(side, e, red, other, up) =>
      FitsUnplug(up, Build(side, s, e, red, other));
  }

  lemma {:induction false} FitsAppend<N>(path: Path<N>, base: Path<N>, base': Path<N>, h: nat)
    requires Fits(Append(path, base), h)
    requires base.Down? && base'.Down?
    requires base' == base.(entry := base'.entry)
    ensures Fits(Append(path, base'), h)
  {
    match path
    case Top =>
    case Down(side, e, red, other, up) =>
      FitsAppend(up, base, base', if red then h else h + 1);
  }

  // ---- Height ---------------------------------------------------------------------------

  function Height<N>(s: Shape<N>): nat {
    match s
    case Leaf => 0
    case Node(l, _, _, r) => 1 + if Height(l) < Height(r) then Height(r) else Height(l)
  }

  lemma {:induction false} EnoughNodes<N>(s: Shape<N>)
    requires RedBlack(s)
    ensures Pow2(BlackHeight(s)) <= |Inorder(s)| + 1
    ensures Height(s) <= 2 * BlackHeight(s) + (if IsRed(s) then 1 else 0)
  {
    match s
    case Leaf =>
    case Node(l, _, red, r) =>
      EnoughNodes(l);
      EnoughNodes(r);
  }

  // The height is at most 2 * log2(n + 1), stated without logarithms.
  lemma HeightBound<N>(s: Shape<N>)
    requires Legal(s)
    ensures Pow2(Height(s)) <= (|Inorder(s)| + 1) * (|Inorder(s)| + 1)
  {
    EnoughNodes(s);
    var h, n := BlackHeight(s), |Inorder(s)| + 1;
    Pow2Monotone(Height(s), 2 * h);
    Pow2Add(h, h);
    SquareMonotone(Pow2(h), n);
  }

  lemma SquareMonotone(a: nat, b: nat)
    requires a <= b
    ensures a * a <= b * b
  {
    assert b * b - a * a == (b - a) * (b + a);
  }

  // ---- The rebalancing steps, on values ----------------------------------------------------

  // TREE__ROTATE
  function Rotated<N>(s: Shape<N>, cis: Side): Shape<N>
    requires s.Node? && s.Child(cis.Other()).Node?
  {
    var q := s.Child(cis.Other());
    Build(cis, Build(cis, s.Child(cis), s.entry, s.red, q.Child(cis)), q.entry, q.red, q.Child(cis.Other()))
  }

  lemma RotatedInorder<N>(s: Shape<N>, cis: Side)
    requires s.Node? && s.Child(cis.Other()).Node?
    ensures Inorder(Rotated(s, cis)) == Inorder(s)
  {
    var q := s.Child(cis.Other());
    var a, b, c := Inorder(s.Child(cis)), Inorder(q.Child(cis)), Inorder(q.Child(cis.Other()));
    if cis.Left? {
      assert a + [s.entry] + (b + [q.entry] + c) == (a + [s.entry] + b) + [q.entry] + c;
    } else {
      assert (c + [q.entry] + b) + [s.entry] + a == c + [q.entry] + (b + [s.entry] + a);
    }
  }

  function Depth<N>(path: Path<N>): nat {
    if path.Top? then 0 else 1 + Depth(path.up)
  }

  // All entries, seen from a position.
  function Entries<N>(path: Path<N>, s: Shape<N>): seq<Entry<N>> {
    Before(path) + Inorder(s) + After(path)
  }

  lemma EntryAt<N>(path: Path<N>, s: Shape<N>)
    requires s.Node?
    ensures s.entry in Entries(path, s)
  {
  }

  // The position one step out.
  function Wrapped<N>(path: Path<N>, s: Shape<N>): (w: Shape<N>)
    requires path.Down?
    ensures w.Node? && w.entry == path.entry && w.red == path.red
    ensures w.Child(path.side) == s && w.Child(path.side.Other()) == path.other
  {
    Build(path.side, s, path.entry, path.red, path.other)
  }

  // While adding: the red subtree s fits, except that its parent may be red as well.
  predicate Adding<N>(path: Path<N>, s: Shape<N>) {
    IsRed(s) && RedBlack(s) && Fits(path, BlackHeight(s))
  }

  // A new red leaf in place of an empty position.
  lemma NewLeaf<N>(path: Path<N>, e: Entry<N>)
    requires LegalAt(path, Leaf) && Narrowed(path, e.key) && Ordered(Entries(path, Leaf))
    ensures Adding(path, Node(Leaf, e, true, Leaf))
    ensures Entries(path, Node(Leaf, e, true, Leaf)) == Inserted(Entries(path, Leaf), e)
    ensures Ordered(Entries(path, Node(Leaf, e, true, Leaf)))
  {
    var b, a, n := Before(path), After(path), Node(Leaf, e, true, Leaf);
    assert Inorder(n) == [e];
    assert Entries(path, Leaf) == b + [] + a == b + a;
    assert Entries(path, n) == b + [e] + a;
    hide Inserted, Ordered, Before, After, Inorder, Entries;
    InsertedBetween(b, e, a);
    OrderedInsert(b, e, a);
  }

  // A red uncle: the two parents turn black and the grandparent becomes the red subtree.
  lemma RecolorKeepsAdding<N>(path: Path<N>, s: Shape<N>)
    requires Adding(path, s) && path.Down? && path.red && IsRed(path.up.other)
    ensures path.up.Down? && !path.up.red
    ensures var p := Build(path.side, s, path.entry, false, path.other);
            Adding(path.up.up, Build(path.up.side, p, path.up.entry, true, path.up.other.(red := false)))
  {
    var h := BlackHeight(s);
    assert Fits(path.up, h) && Fits(path.up.up, h + 1);
    assert BlackHeight(path.up.other.(red := false)) == h + 1;
    assert RedBlack(Build(path.side, s, path.entry, false, path.other));
  }

  // An inner grandchild becomes an outer one.
  lemma InnerKeepsAdding<N>(path: Path<N>, s: Shape<N>, cis: Side)
    requires Adding(path, s) && path.Down? && path.red && path.side == cis.Other()
    ensures Adding(Down(cis, s.entry, true, s.Child(path.side), path.up),
                   Build(cis, path.other, path.entry, true, s.Child(cis)))
  {
  }

  // An outer grandchild: after the rotation at the grandparent the parent is black.
  lemma OuterKeepsAdding<N>(path: Path<N>, s: Shape<N>)
    requires Adding(path, s) && path.Down? && path.red && !IsRed(path.up.other)
    requires path.side == path.up.side
    ensures Adding(Down(path.side, path.entry, false,
                        Build(path.side, path.other, path.up.entry, true, path.up.other), path.up.up), s)
  {
    var h := BlackHeight(s);
    assert Fits(path.up, h) && Fits(path.up.up, h + 1);
  }

  // Blackening the root finishes an addition.
  lemma AddedLegal<N>(path: Path<N>, s: Shape<N>)
    requires Adding(path, s) && (path.Down? ==> !path.red)
    ensures Plug(path, s).Node? && Legal(Plug(path, s).(red := false))
  {
    PlugNode(path, s);
    if path.Down? {
      FitsPlug(path, s);
    }
  }

  lemma {:induction false} PlugNode<N>(path: Path<N>, s: Shape<N>)
    requires path.Down? || s.Node?
    ensures Plug(path, s).Node?
  {
    match path
    case Top =>
    case Down(side, e, red, other, up) => PlugNode(up, Build(side, s, e, red, other));
  }

  // ---- Descending --------------------------------------------------------------------------

  function Into<N>(path: Path<N>, s: Shape<N>, side: Side): (into: Path<N>)
    requires s.Node?
    ensures into.Down? && into.up == path && into.side == side
  {
    Down(side, s.entry, s.red, s.Child(side.Other()), path)
  }

  // The key can only be found in, or added to, the subtree at the position.
  ghost predicate Narrowed<N>(path: Path<N>, key: nat) {
    && (forall e: Entry<N> :: e in Before(path) ==> e.key < key)
    && (forall e: Entry<N> :: e in After(path) ==> key < e.key)
  }

  lemma NarrowedStep<N>(path: Path<N>, s: Shape<N>, key: nat)
    requires s.Node? && Ordered(Entries(path, s)) && Narrowed(path, key)
    ensures key < s.entry.key ==> Narrowed(Into(path, s, Left), key)
    ensures s.entry.key < key ==> Narrowed(Into(path, s, Right), key)
    ensures s.entry in Entries(path, s)
  {
    Halves(path, s);
  }

  lemma NarrowedLeaf<N>(path: Path<N>, key: nat)
    requires Narrowed(path, key)
    ensures key !in KeysOf(Entries<N>(path, Leaf))
  {
  }

  // A legal tree, seen from a position.
  predicate LegalAt<N>(path: Path<N>, s: Shape<N>) {
    RedBlack(s) && Fits(path, BlackHeight(s)) && (IsRed(s) ==> path.Down? && !path.red)
  }

  lemma LegalStep<N>(path: Path<N>, s: Shape<N>, side: Side)
    requires s.Node? && LegalAt(path, s)
    ensures LegalAt(Into(path, s, side), s.Child(side))
  {
  }

  // ---- Deletion, on values -----------------------------------------------------------------

  // While deleting: the black subtree s is one black node short.
  predicate Short<N>(path: Path<N>, s: Shape<N>) {
    RedBlack(s) && !IsRed(s) && Fits(path, BlackHeight(s) + 1)
  }

  // A node of the given colour has just been unlinked where s is now.
  predicate Unlinked<N>(path: Path<N>, s: Shape<N>, red: bool) {
    if red then LegalAt(path, s) else RedBlack(s) && Fits(path, BlackHeight(s) + 1)
  }

  lemma SiblingExists<N>(path: Path<N>, s: Shape<N>)
    requires Short(path, s) && path.Down?
    ensures path.other.Node?
    ensures !IsRed(path.other) || (path.other.left.Node? && path.other.right.Node?)
  {
  }

  // A red sibling: after the rotation the sibling is black and the parent red.
  lemma RedSibling<N>(path: Path<N>, s: Shape<N>)
    requires Short(path, s) && path.Down? && IsRed(path.other)
    ensures var near, far := path.other.Child(path.side), path.other.Child(path.side.Other());
            && !IsRed(near)
            && Short(Down(path.side, path.entry, true, near, Down(path.side, path.other.entry, false, far, path.up)), s)
  {
    var h := BlackHeight(s) + 1;
    assert Fits(path.up, h + 1);
  }

  // A black sibling with a red near and a black far child: the far child turns red.
  lemma NearRed<N>(path: Path<N>, s: Shape<N>)
    requires Short(path, s) && path.Down? && !IsRed(path.other) && path.other.Node?
    requires IsRed(path.other.Child(path.side)) && !IsRed(path.other.Child(path.side.Other()))
    ensures var o := path.other;
            var near := o.Child(path.side);
            var o' := Build(path.side, near.Child(path.side), near.entry, false,
                            Build(path.side, near.Child(path.side.Other()), o.entry, true, o.Child(path.side.Other())));
            Short(path.(other := o'), s)
  {
    var o := path.other;
    assert RedBlack(o.left) && RedBlack(o.right);
    var near := o.Child(path.side);
    var inner := Build(path.side, near.Child(path.side.Other()), o.entry, true, o.Child(path.side.Other()));
    assert RedBlack(near.left) && RedBlack(near.right);
    assert RedBlack(inner) && BlackHeight(inner) == BlackHeight(s);
  }

  // A black sibling with a red far child: one rotation restores the tree.
  lemma FarRed<N>(path: Path<N>, s: Shape<N>)
    requires Short(path, s) && path.Down? && !IsRed(path.other) && path.other.Node?
    requires IsRed(path.other.Child(path.side.Other()))
    ensures var o := path.other;
            LegalAt(path.up, Build(path.side, Build(path.side, s, path.entry, false, o.Child(path.side)), o.entry,
                                   path.red, o.Child(path.side.Other()).(red := false)))
  {
    var o := path.other;
    assert RedBlack(o.left) && RedBlack(o.right);
    var inner := Build(path.side, s, path.entry, false, o.Child(path.side));
    assert RedBlack(inner) && BlackHeight(inner) == BlackHeight(s) + 1;
    var far := o.Child(path.side.Other()).(red := false);
    assert RedBlack(far) && BlackHeight(far) == BlackHeight(s) + 1;
  }

  // A black sibling without red children turns red: either a red parent absorbs the shortage
  // or it moves one level up.
  lemma BlackSibling<N>(path: Path<N>, s: Shape<N>)
    requires Short(path, s) && path.Down? && !IsRed(path.other) && path.other.Node?
    requires !IsRed(path.other.left) && !IsRed(path.other.right)
    ensures var o := path.other.(red := true);
            if path.red then LegalAt(path.up, Build(path.side, s, path.entry, false, o))
            else Short(path.up, Build(path.side, s, path.entry, false, o))
  {
  }

  // Unlinking a node that has at most one child.
  lemma UnlinkOne<N>(path: Path<N>, s: Shape<N>, side: Side)
    requires s.Node? && LegalAt(path, s) && s.Child(side.Other()).Leaf?
    ensures Unlinked(path, s.Child(side), s.red)
    ensures Entries(path, s) == (Before(path) + Inorder(s.left)) + [s.entry] + (Inorder(s.right) + After(path))
    ensures Entries(path, s.Child(side)) == (Before(path) + Inorder(s.left)) + (Inorder(s.right) + After(path))
  {
    var b, l, r, a := Before(path), Inorder(s.left), Inorder(s.right), After(path);
    assert b + (l + [s.entry] + r) + a == (b + l) + [s.entry] + (r + a);
    if side.Left? {
      assert r == [] && b + l + a == (b + l) + ([] + a);
    } else {
      assert l == [] && b + r + a == (b + []) + (r + a);
    }
  }

  // All frames of the path are left children: what a walk along left pointers gives.
  predicate AllLeft<N>(path: Path<N>) {
    path.Down? ==> path.side.Left? && AllLeft(path.up)
  }

  lemma {:induction false} AllLeftBefore<N>(path: Path<N>)
    requires AllLeft(path)
    ensures Before(path) == []
  {
    if path.Down? {
      AllLeftBefore(path.up);
    }
  }

  // To the right of a node whose place and colour another entry has taken.
  function IntoAs<N>(path: Path<N>, s: Shape<N>, e: Entry<N>): Path<N>
    requires s.Node?
  {
    Down(Right, e, s.red, s.left, path)
  }

  // Unlinking a node with two children: its successor t, the first of its right subtree, takes
  // its place and colour, and is itself unlinked where it was.
  lemma UnlinkTwo<N>(path: Path<N>, s: Shape<N>, chain: Path<N>, t: Shape<N>)
    requires s.Node? && t.Node? && t.left.Leaf? && AllLeft(chain)
    requires LegalAt(Append(chain, Into(path, s, Right)), t)
    ensures var base := IntoAs(path, s, t.entry);
            Unlinked(Append(chain, base), t.right, t.red)
    ensures var before := Before(path) + Inorder(s.left);
            var after := [t.entry] + Inorder(t.right) + After(chain) + After(path);
            && Entries(Append(chain, Into(path, s, Right)), t) == before + [s.entry] + after
            && Entries(Append(chain, IntoAs(path, s, t.entry)), t.right) == before + after
  {
    var from := Into(path, s, Right);
    var base := IntoAs(path, s, t.entry);
    UnlinkOne(Append(chain, from), t, Right);
    FitsAppend(chain, from, base, BlackHeight(t.right) + if t.red then 0 else 1);
    AppendTop(chain, from, base);
    UnlinkTwoEntries(path, s, chain, t);
  }

  lemma UnlinkTwoEntries<N>(path: Path<N>, s: Shape<N>, chain: Path<N>, t: Shape<N>)
    requires s.Node? && t.Node? && t.left.Leaf? && AllLeft(chain)
    ensures var before := Before(path) + Inorder(s.left);
            var after := [t.entry] + Inorder(t.right) + After(chain) + After(path);
            && Entries(Append(chain, Into(path, s, Right)), t) == before + [s.entry] + after
            && Entries(Append(chain, IntoAs(path, s, t.entry)), t.right) == before + after
  {
    assert Inorder(t) == [] + [t.entry] + Inorder(t.right);
    AllLeftBefore(chain);
    AppendContents(chain, Into(path, s, Right));
    AppendContents(chain, IntoAs(path, s, t.entry));
    TwoContents(Before(path), Inorder(s.left), s.entry, t.entry, Inorder(t.right), After(chain), After(path));
  }

  lemma TwoContents<N>(b: seq<Entry<N>>, l: seq<Entry<N>>, e: Entry<N>, n: Entry<N>,
                       r: seq<Entry<N>>, c: seq<Entry<N>>, a: seq<Entry<N>>)
    ensures b + l + [e] + [] + ([] + [n] + r) + (c + a) == (b + l) + [e] + ([n] + r + c + a)
    ensures b + l + [n] + [] + r + (c + a) == (b + l) + ([n] + r + c + a)
  {
  }

  lemma AppendTop<N>(path: Path<N>, base: Path<N>, base': Path<N>)
    requires base.Down? && base'.Down? && base' == base.(entry := base'.entry)
    ensures Append(path, base).Down? && Append(path, base').Down?
    ensures Append(path, base').red == Append(path, base).red
  {
  }

  lemma TakenOut<N>(b: seq<Entry<N>>, e: Entry<N>, a: seq<Entry<N>>)
    requires Ordered(b + [e] + a)
    ensures Removed(b + [e] + a, e.key) == b + a && Ordered(b + a)
  {
    OrderedRemove(b, e, a);
    Around(b, e, a);
    RemovedBetween(b, e, a);
  }

  // What the rebalancing loop of a deletion leaves: blackening the subtree gives a legal tree.
  predicate Settled<N>(path: Path<N>, s: Shape<N>) {
    if s.Leaf? then path.Top? else LegalAt(path, s.(red := false))
  }

  lemma SettledTop<N>(path: Path<N>, s: Shape<N>)
    requires path.Top? && Short(path, s)
    ensures Settled(path, s)
  {
  }

  lemma SettledRed<N>(path: Path<N>, s: Shape<N>)
    requires s.Node? && LegalAt(path, s.(red := false))
    ensures Settled(path, s)
  {
  }

  lemma SettledRoot<N>(path: Path<N>, s: Shape<N>)
    requires LegalAt(path, s) && s.Node?
    ensures Settled(Top, Plug(path, s))
  {
    FitsPlug(path, s);
    PlugNode(path, s);
  }

  lemma UnlinkedOut<N>(path: Path<N>, s: Shape<N>, red: bool)
    requires Unlinked(path, s, red)
    ensures red ==> LegalAt(path, s)
    ensures !red && !IsRed(s) ==> Short(path, s)
    ensures !red && IsRed(s) ==> LegalAt(path, s.(red := false))
  {
  }
}
