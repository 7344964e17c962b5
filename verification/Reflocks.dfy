/**
 The reference-counted lock of deps/wepoll/wepoll.c and the thread-safe tree that hands out
 references.  Every access to the 32-bit lock word is an interlocked operation, so a run is an
 interleaving of single operations of the threads; the tree lock keeps deletions apart from
 searches.  The keyed event is a rendezvous: a release and a wait return together.
 */
module Reflocks {

  // ---- The lock word -----------------------------------------------------------------------

  const WORD: int := 0x1_0000_0000
  const REF: int := 0x0000_0001
  const DESTROY: int := 0x1000_0000
  const POISON: int := 0x300d_ead0

  // word & REFLOCK__REF_MASK
  function RefBits(word: nat): nat {
    word % DESTROY
  }

  // word & REFLOCK__DESTROY_MASK
  function DestroyBits(word: nat): nat {
    word - word % DESTROY
  }

  // The masks cut a word at bit 28.
  lemma MasksAreArithmetic(w: bv32)
    ensures w & 0x0fff_ffff == w % 0x1000_0000
    ensures w & 0xf000_0000 == w - w % 0x1000_0000
  {
  }

  // InterlockedAdd
  function Added(word: nat, delta: int): (r: nat)
    ensures r < WORD
  {
    (word + delta) % WORD
  }

  // What a word says: how many references are alive, and whether the lock is being destroyed
  predicate Says(word: nat, refs: nat, destroying: bool) {
    refs < DESTROY && word == refs + if destroying then DESTROY else 0
  }

  // The lock as an object; `refs` are the references that are alive.  The steps of the
  // threads below compute the same words and decisions; see WordSays.
  class Reflock {
    var state: nat
    ghost var refs: nat
    ghost var destroying: bool

    ghost predicate Valid()
      reads this
    {
      Says(state, refs, destroying)
    }

    // reflock_init
    constructor ()
      ensures Valid() && refs == 0 && !destroying
    {
      state, refs, destroying := 0, 0, false;
    }

    // reflock_ref
    method Ref()
      requires Valid() && !destroying && refs + 1 < DESTROY
      modifies this
      ensures Valid() && refs == old(refs) + 1 && !destroying && state == Added(old(state), REF)
    {
      state := Added(state, REF);
      assert DestroyBits(state) == 0;
      refs := refs + 1;
    }

    // reflock_unref; `signal` says whether it releases the keyed event.
    method Unref() returns (signal: bool)
      requires Valid() && refs > 0
      modifies this
      ensures Valid() && refs == old(refs) - 1 && destroying == old(destroying) && state == Added(old(state), -REF)
      ensures signal <==> state == DESTROY
      ensures signal <==> destroying && refs == 0
    {
      state := Added(state, -REF);
      assert DestroyBits(state) == 0 || DestroyBits(state) == DESTROY;
      signal := state == DESTROY;
      refs := refs - 1;
    }

    // reflock_unref_and_destroy up to the wait.
    method UnrefAndDestroy() returns (wait: bool)
      requires Valid() && refs > 0 && !destroying
      modifies this
      ensures Valid() && refs == old(refs) - 1 && destroying && state == Added(old(state), DESTROY - REF)
      ensures wait <==> RefBits(state) != 0
      ensures wait <==> refs > 0
    {
      state := Added(state, DESTROY - REF);
      assert DestroyBits(state) == DESTROY;
      wait := RefBits(state) != 0;
      refs, destroying := refs - 1, true;
    }

    // Its end, with InterlockedExchange.
    method Poison()
      requires Valid() && refs == 0 && destroying
      modifies this
      ensures state == POISON
    {
      var was := state;
      state := POISON;
      assert was == DESTROY;
    }
  }

  // ---- Threads and nodes -------------------------------------------------------------------

  datatype Thread =
    | Idle
    // A search has found a node and still holds the tree lock in shared mode.
    | Found(n: nat)
    | Using(n: nat)
    // A deletion has taken a node from the tree and still holds the lock exclusively.
    | Removed(n: nat)
    | Closing(n: nat)
    | Waiting(n: nat)
    | Signalling(n: nat)
    | Woken(n: nat)

  // How far a node has got; the threads named are those that close and signal it.
  datatype Stage =
    | Listed
    | Unlisted(closer: nat)
    | Closed(closer: nat)
    | Awaited(closer: nat)
    | Signalled(closer: nat, signaller: nat)
    | Free(closer: nat)
    | Gone

  datatype Node = Node(key: nat, word: nat, stage: Stage)

  // There is a fixed set of threads, each of which holds at most one reference.
  datatype World = World(tree: map<nat, nat>, nodes: map<nat, Node>, threads: map<nat, Thread>)

  predicate Holds(thread: Thread, n: nat) {
    thread == Using(n) || thread == Closing(n)
  }

  predicate Mentions(thread: Thread, n: nat) {
    !thread.Idle? && thread.n == n
  }

  function Holders(threads: map<nat, Thread>, n: nat): set<nat> {
    set t | t in threads && Holds(threads[t], n)
  }

  function Refs(w: World, n: nat): nat {
    |Holders(w.threads, n)|
  }

  predicate Destroying(stage: Stage) {
    stage.Awaited? || stage.Signalled? || stage.Free?
  }

  // The lock word of a node says how many references are alive and whether it is being destroyed.
  predicate NodeOk(w: World, n: nat)
    requires n in w.nodes
  {
    var node, refs := w.nodes[n], Refs(w, n);
    && (node.stage.Listed? <==> node.key in w.tree && w.tree[node.key] == n)
    && node.word == (if node.stage.Gone? then POISON else refs + if Destroying(node.stage) then DESTROY else 0)
    && (node.stage.Awaited? ==> refs > 0)
    && (node.stage.Signalled? || node.stage.Free? || node.stage.Gone? ==> refs == 0)
    && match node.stage
       case Listed => true
       case Unlisted(t) => t in w.threads && w.threads[t] == Removed(n)
       case Closed(t) => t in w.threads && w.threads[t] == Closing(n)
       case Awaited(t) => t in w.threads && w.threads[t] == Waiting(n)
       case Signalled(t, u) => t in w.threads && w.threads[t] == Waiting(n) && u in w.threads
           && w.threads[u] == Signalling(n)
       case Free(t) => t in w.threads && w.threads[t] == Woken(n)
       case Gone => true
  }

  predicate ThreadOk(w: World, t: nat)
    requires t in w.threads
  {
    match w.threads[t]
    case Idle => true
    case Found(n) => n in w.nodes && w.nodes[n].stage == Listed
    case Using(n) => n in w.nodes
    case Removed(n) => n in w.nodes && w.nodes[n].stage == Unlisted(t)
    case Closing(n) => n in w.nodes && w.nodes[n].stage == Closed(t)
    case Waiting(n) =>
      && n in w.nodes
      && (w.nodes[n].stage == Awaited(t) || (w.nodes[n].stage.Signalled? && w.nodes[n].stage.closer == t))
    case Signalling(n) => n in w.nodes && w.nodes[n].stage.Signalled? && w.nodes[n].stage.signaller == t
    case Woken(n) => n in w.nodes && w.nodes[n].stage == Free(t)
  }

  ghost predicate Inv(w: World) {
    && |w.threads| < DESTROY
    && (forall k :: k in w.tree ==> w.tree[k] in w.nodes && w.nodes[w.tree[k]].key == k)
    && (forall n :: n in w.nodes ==> NodeOk(w, n))
    && (forall t :: t in w.threads ==> ThreadOk(w, t))
  }

  // ---- Steps -------------------------------------------------------------------------------

  datatype Step =
    // ts_tree_add, with a new node
    | Insert(t: nat, key: nat, n: nat)
    // ts_tree_find_and_ref
    | Search(t: nat, key: nat)
    | Ref(t: nat)
    // ts_tree_node_unref
    | Unref(t: nat)
    // ts_tree_del_and_ref
    | Remove(t: nat, key: nat)
    | RefRemoved(t: nat)
    // ts_tree_node_unref_and_destroy
    | Destroy(t: nat)
    | Rendezvous(t: nat, u: nat)
    | Exchange(t: nat)

  // The tree lock admits a shared or an exclusive section.
  ghost predicate NoWriter(w: World) {
    forall t :: t in w.threads ==> !w.threads[t].Removed?
  }

  ghost predicate LockFree(w: World) {
    forall t :: t in w.threads ==> !w.threads[t].Removed? && !w.threads[t].Found?
  }

  ghost predicate Enabled(w: World, step: Step) {
    match step
    case Insert(t, key, n) => t in w.threads && w.threads[t] == Idle && LockFree(w) && n !in w.nodes
    case Search(t, key) => t in w.threads && w.threads[t] == Idle && NoWriter(w)
    case Ref(t) => t in w.threads && w.threads[t].Found?
    case Unref(t) => t in w.threads && w.threads[t].Using?
    case Remove(t, key) => t in w.threads && w.threads[t] == Idle && LockFree(w)
    case RefRemoved(t) => t in w.threads && w.threads[t].Removed?
    case Destroy(t) => t in w.threads && w.threads[t].Closing?
    case Rendezvous(t, u) =>
      && t in w.threads && u in w.threads && w.threads[t].Signalling? && w.threads[u].Waiting?
      && w.threads[t].n == w.threads[u].n
    case Exchange(t) => t in w.threads && w.threads[t].Woken?
  }

  function WithThread(w: World, t: nat, thread: Thread): World {
    w.(threads := w.threads[t := thread])
  }

  function WithNode(w: World, n: nat, word: nat, stage: Stage): World
    requires n in w.nodes
  {
    w.(nodes := w.nodes[n := Node(w.nodes[n].key, word, stage)])
  }

  // The nodes that the states of the threads name exist.
  function Next(w: World, step: Step): World
    requires Inv(w) && Enabled(w, step)
  {
    match step
    case Insert(t, key, n) =>
      if key in w.tree then w
      else w.(tree := w.tree[key := n], nodes := w.nodes[n := Node(key, 0, Listed)])
    case Search(t, key) =>
      if key in w.tree then WithThread(w, t, Found(w.tree[key])) else w
    case Ref(t) =>
      assert ThreadOk(w, t);
      var n := w.threads[t].n;
      WithThread(WithNode(w, n, Added(w.nodes[n].word, REF), w.nodes[n].stage), t, Using(n))
    case Unref(t) =>
      assert ThreadOk(w, t);
      var n := w.threads[t].n;
      var word, stage := Added(w.nodes[n].word, -REF), w.nodes[n].stage;
      if word == DESTROY then
        WithThread(WithNode(w, n, word, if stage.Awaited? then Signalled(stage.closer, t) else stage), t, Signalling(n))
      else WithThread(WithNode(w, n, word, stage), t, Idle)
    case Remove(t, key) =>
      if key in w.tree then
        var n := w.tree[key];
        WithThread(WithNode(w.(tree := w.tree - {key}), n, w.nodes[n].word, Unlisted(t)), t, Removed(n))
      else w
    case RefRemoved(t) =>
      assert ThreadOk(w, t);
      var n := w.threads[t].n;
      WithThread(WithNode(w, n, Added(w.nodes[n].word, REF), Closed(t)), t, Closing(n))
    case Destroy(t) =>
      assert ThreadOk(w, t);
      var n := w.threads[t].n;
      var word := Added(w.nodes[n].word, DESTROY - REF);
      if RefBits(word) != 0 then WithThread(WithNode(w, n, word, Awaited(t)), t, Waiting(n))
      else WithThread(WithNode(w, n, word, Free(t)), t, Woken(n))
    case Rendezvous(t, u) =>
      assert ThreadOk(w, t);
      var n := w.threads[t].n;
      WithThread(WithThread(WithNode(w, n, w.nodes[n].word, Free(u)), t, Idle), u, Woken(n))
    case Exchange(t) =>
      assert ThreadOk(w, t);
      var n := w.threads[t].n;
      WithThread(WithNode(w, n, POISON, Gone), t, Idle)
  }

  // The assertion of the source at the step.
  predicate Asserted(w: World, step: Step)
    requires step.t in w.threads
  {
    var thread := w.threads[step.t];
    match step
    case Ref(_) => thread.Found? && thread.n in w.nodes && DestroyBits(Added(w.nodes[thread.n].word, REF)) == 0
    case RefRemoved(_) => thread.Removed? && thread.n in w.nodes && DestroyBits(Added(w.nodes[thread.n].word, REF)) == 0
    case Unref(_) =>
      && thread.Using? && thread.n in w.nodes
      && var high := DestroyBits(Added(w.nodes[thread.n].word, -REF)); high == 0 || high == DESTROY
    case Destroy(_) =>
      thread.Closing? && thread.n in w.nodes && DestroyBits(Added(w.nodes[thread.n].word, DESTROY - REF)) == DESTROY
    case Exchange(_) => thread.Woken? && thread.n in w.nodes && w.nodes[thread.n].word == DESTROY
    case _ => true
  }

  // ---- What a step of one thread does to the references ------------------------------------

  lemma Counted(threads: map<nat, Thread>, t: nat, thread: Thread, n: nat)
    requires t in threads
    ensures |Holders(threads[t := thread], n)|
         == |Holders(threads, n)| - (if Holds(threads[t], n) then 1 else 0) + (if Holds(thread, n) then 1 else 0)
  {
    var rest := Holders(threads, n) - {t};
    assert Holders(threads, n) == if Holds(threads[t], n) then rest + {t} else rest;
    assert Holders(threads[t := thread], n) == if Holds(thread, n) then rest + {t} else rest;
  }

  // A reference is held by a thread, so there are fewer of them than threads.
  lemma FewRefs(w: World, n: nat)
    requires |w.threads| < DESTROY
    ensures Refs(w, n) <= |w.threads| < DESTROY
    ensures forall t :: t in w.threads && !Holds(w.threads[t], n) ==> Refs(w, n) < |w.threads|
    ensures forall t :: t in w.threads && Holds(w.threads[t], n) ==> Refs(w, n) > 0
  {
    var holders := Holders(w.threads, n);
    Smaller(holders, w.threads.Keys);
    forall t | t in w.threads && !Holds(w.threads[t], n) ensures |holders| < |w.threads| {
      Smaller(holders, w.threads.Keys - {t});
    }
    forall t | t in w.threads && Holds(w.threads[t], n) ensures |holders| > 0 {
      assert t in holders;
    }
  }

  lemma {:induction false} Smaller(a: set<nat>, b: set<nat>)
    requires a <= b
    ensures |a| <= |b|
  {
    if x :| x in a {
      Smaller(a - {x}, b - {x});
    }
  }

  // The assertions of the source hold at every step.
  lemma AssertionsHold(w: World, step: Step)
    requires Inv(w) && Enabled(w, step)
    ensures Asserted(w, step)
  {
    var t := step.t;
    assert ThreadOk(w, t);
    if !w.threads[t].Idle? {
      var n := w.threads[t].n;
      assert NodeOk(w, n);
      FewRefs(w, n);
    }
  }

  // ---- Every step keeps the invariant ------------------------------------------------------

  predicate InTree(w: World, n: nat)
    requires n in w.nodes
  {
    w.nodes[n].key in w.tree && w.tree[w.nodes[n].key] == n
  }

  // Nothing of node m and its threads changes.
  predicate Apart(w: World, w': World, m: nat) {
    && m in w.nodes && m in w'.nodes && w'.nodes[m] == w.nodes[m] && (InTree(w, m) <==> InTree(w', m))
  }

  lemma OtherNode(w: World, w': World, t: nat, n: nat, m: nat)
    requires t in w.threads && m != n && Apart(w, w', m) && NodeOk(w, m)
    requires w.threads[t].Idle? || w.threads[t].n == n
    requires t in w'.threads && w'.threads == w.threads[t := w'.threads[t]]
    requires w'.threads[t].Idle? || w'.threads[t].n == n
    ensures NodeOk(w', m)
  {
    Counted(w.threads, t, w'.threads[t], m);
    hide Holders;
  }

  // What a step of thread t on node n does to this node and the threads that work with it is all
  // there is to look at.
  lemma StepOn(w: World, w': World, t: nat, n: nat)
    requires Inv(w) && t in w.threads && n in w'.nodes
    requires w.threads[t].Idle? || w.threads[t].n == n
    requires t in w'.threads && w'.threads == w.threads[t := w'.threads[t]]
    requires w'.threads[t].Idle? || w'.threads[t].n == n
    requires forall k :: k in w'.tree ==> w'.tree[k] in w'.nodes && w'.nodes[w'.tree[k]].key == k
    requires forall m :: m in w'.nodes && m != n ==> Apart(w, w', m)
    requires forall m :: m in w.nodes && m != n ==> Apart(w, w', m)
    requires NodeOk(w', n) && ThreadOk(w', t)
    requires forall x :: x in w.threads && x != t && Mentions(w.threads[x], n) ==> ThreadOk(w', x)
    ensures Inv(w')
  {
    assert |w'.threads| == |w.threads| by { assert w'.threads.Keys == w.threads.Keys; }
    forall m | m in w'.nodes ensures NodeOk(w', m) {
      if m != n {
        OtherNode(w, w', t, n, m);
      }
    }
    forall x | x in w'.threads ensures ThreadOk(w', x) {
      if x != t && !Mentions(w.threads[x], n) {
        assert ThreadOk(w, x);
      }
    }
  }

  function Moved(w: World, t: nat, thread: Thread, n: nat, word: nat, stage: Stage): World
    requires n in w.nodes
  {
    WithThread(WithNode(w, n, word, stage), t, thread)
  }

  lemma Uses(w: World, n: nat)
    requires Inv(w) && n in w.nodes
    ensures NodeOk(w, n) && |w.threads| < DESTROY
  {
  }

  lemma Plays(w: World, t: nat)
    requires Inv(w) && t in w.threads
    ensures ThreadOk(w, t)
  {
  }

  // A step that leaves the tree alone, by what it does to the references and the stage.
  lemma MovedKeeps(w: World, t: nat, thread: Thread, n: nat, word: nat, stage: Stage)
    requires Inv(w) && t in w.threads && n in w.nodes
    requires w.threads[t].Idle? || w.threads[t].n == n
    requires thread.Idle? || thread.n == n
    requires var w' := Moved(w, t, thread, n, word, stage);
      && ThreadOk(w', t)
      && (forall x :: x in w.threads && x != t && Mentions(w.threads[x], n) && ThreadOk(w, x) ==> ThreadOk(w', x))
      && (Refs(w', n) == Refs(w, n) - (if Holds(w.threads[t], n) then 1 else 0) + (if Holds(thread, n) then 1 else 0)
          ==> NodeOk(w', n))
    ensures Inv(Moved(w, t, thread, n, word, stage))
  {
    var w' := Moved(w, t, thread, n, word, stage);
    Counted(w.threads, t, thread, n);
    forall x | x in w.threads && x != t && Mentions(w.threads[x], n) ensures ThreadOk(w', x) {
      assert ThreadOk(w, x);
    }
    hide NodeOk, ThreadOk, Holders;
    StepOn(w, w', t, n);
  }

  lemma InsertKeeps(w: World, t: nat, key: nat, n: nat)
    requires Inv(w) && Enabled(w, Insert(t, key, n))
    ensures Inv(Next(w, Insert(t, key, n)))
  {
    if key !in w.tree {
      var w' := Next(w, Insert(t, key, n));
      assert w'.threads == w.threads[t := Idle];
      assert forall x :: x in w.threads ==> ThreadOk(w, x) && !Mentions(w.threads[x], n);
      assert Holders(w.threads, n) == {};
      StepOn(w, w', t, n);
    }
  }

  lemma RefKeeps(w: World, t: nat)
    requires Inv(w) && Enabled(w, Ref(t))
    ensures Inv(Next(w, Ref(t)))
  {
    assert ThreadOk(w, t);
    var n := w.threads[t].n;
    assert NodeOk(w, n);
    FewRefs(w, n);
    Counted(w.threads, t, Using(n), n);
    hide Holders;
    assert forall x :: x in w.threads ==> ThreadOk(w, x);
    StepOn(w, Next(w, Ref(t)), t, n);
  }

  // The word after a release: it is REFLOCK__DESTROY exactly when the destroyer waits for it.
  lemma Unreffed(w: World, t: nat, n: nat)
    requires Inv(w) && t in w.threads && w.threads[t] == Using(n)
    ensures n in w.nodes && Refs(w, n) > 0
    ensures w.nodes[n].word > 0 && Added(w.nodes[n].word, -REF) == w.nodes[n].word - 1
    ensures w.nodes[n].word - 1 == DESTROY <==> w.nodes[n].stage.Awaited? && Refs(w, n) == 1
  {
    assert ThreadOk(w, t) && NodeOk(w, n);
    FewRefs(w, n);
  }

  lemma LastUnref(w: World, t: nat, n: nat)
    requires Inv(w) && t in w.threads && w.threads[t] == Using(n) && n in w.nodes
    requires w.nodes[n].stage.Awaited? && Refs(w, n) == 1
    ensures Inv(Moved(w, t, Signalling(n), n, DESTROY, Signalled(w.nodes[n].stage.closer, t)))
  {
    hide Holders, Refs, Inv;
    Uses(w, n);
    MovedKeeps(w, t, Signalling(n), n, DESTROY, Signalled(w.nodes[n].stage.closer, t));
  }

  lemma QuietUnref(w: World, t: nat, n: nat)
    requires Inv(w) && t in w.threads && w.threads[t] == Using(n) && n in w.nodes && w.nodes[n].word > 0
    requires !(w.nodes[n].stage.Awaited? && Refs(w, n) == 1)
    ensures Inv(Moved(w, t, Idle, n, w.nodes[n].word - 1, w.nodes[n].stage))
  {
    hide Holders, Refs, Inv;
    Uses(w, n);
    FewRefs(w, n);
    MovedKeeps(w, t, Idle, n, w.nodes[n].word - 1, w.nodes[n].stage);
  }

  lemma UnrefKeeps(w: World, t: nat)
    requires Inv(w) && Enabled(w, Unref(t))
    ensures Inv(Next(w, Unref(t)))
  {
    hide Inv, Refs, Added;
    var n := w.threads[t].n;
    Unreffed(w, t, n);
    if w.nodes[n].stage.Awaited? && Refs(w, n) == 1 {
      LastUnref(w, t, n);
    } else {
      QuietUnref(w, t, n);
    }
  }

  lemma RemoveKeeps(w: World, t: nat, key: nat)
    requires Inv(w) && Enabled(w, Remove(t, key))
    ensures Inv(Next(w, Remove(t, key)))
  {
    if key in w.tree {
      var n := w.tree[key];
      assert NodeOk(w, n);
      Counted(w.threads, t, Removed(n), n);
      hide Holders;
      assert forall x :: x in w.threads ==> ThreadOk(w, x);
      StepOn(w, Next(w, Remove(t, key)), t, n);
    }
  }

  lemma RefRemovedKeeps(w: World, t: nat)
    requires Inv(w) && Enabled(w, RefRemoved(t))
    ensures Inv(Next(w, RefRemoved(t)))
  {
    hide Inv, Refs;
    var n := w.threads[t].n;
    Plays(w, t);
    Uses(w, n);
    FewRefs(w, n);
    MovedKeeps(w, t, Closing(n), n, w.nodes[n].word + 1, Closed(t));
  }

  lemma DestroyKeeps(w: World, t: nat)
    requires Inv(w) && Enabled(w, Destroy(t))
    ensures Inv(Next(w, Destroy(t)))
  {
    hide Inv, Refs, Added, RefBits;
    var n := w.threads[t].n;
    Destroyed(w, t, n);
    var word := Added(w.nodes[n].word, DESTROY - REF);
    if RefBits(word) != 0 {
      DestroyedKeeps(w, t, n, word, Waiting(n), Awaited(t));
    } else {
      DestroyedKeeps(w, t, n, word, Woken(n), Free(t));
    }
  }

  lemma Destroyed(w: World, t: nat, n: nat)
    requires Inv(w) && t in w.threads && w.threads[t] == Closing(n)
    ensures n in w.nodes && Added(w.nodes[n].word, DESTROY - REF) == DESTROY + Refs(w, n) - 1
    ensures RefBits(Added(w.nodes[n].word, DESTROY - REF)) == Refs(w, n) - 1
  {
    assert ThreadOk(w, t) && NodeOk(w, n);
    FewRefs(w, n);
  }

  lemma DestroyedKeeps(w: World, t: nat, n: nat, word: nat, thread: Thread, stage: Stage)
    requires Inv(w) && t in w.threads && w.threads[t] == Closing(n) && n in w.nodes
    requires word == DESTROY + Refs(w, n) - 1
    requires if Refs(w, n) != 1 then thread == Waiting(n) && stage == Awaited(t)
             else thread == Woken(n) && stage == Free(t)
    ensures Inv(Moved(w, t, thread, n, word, stage))
  {
    hide Holders, Refs, Inv;
    Plays(w, t);
    Uses(w, n);
    FewRefs(w, n);
    MovedKeeps(w, t, thread, n, word, stage);
  }

  lemma ExchangeKeeps(w: World, t: nat)
    requires Inv(w) && Enabled(w, Exchange(t))
    ensures Inv(Next(w, Exchange(t)))
  {
    assert ThreadOk(w, t);
    var n := w.threads[t].n;
    assert NodeOk(w, n);
    FewRefs(w, n);
    Counted(w.threads, t, Idle, n);
    hide Holders;
    assert forall x :: x in w.threads ==> ThreadOk(w, x);
    StepOn(w, Next(w, Exchange(t)), t, n);
  }

  lemma SearchKeeps(w: World, t: nat, key: nat)
    requires Inv(w) && Enabled(w, Search(t, key))
    ensures Inv(Next(w, Search(t, key)))
  {
    if key in w.tree {
      var n := w.tree[key];
      assert NodeOk(w, n);
      Counted(w.threads, t, Found(n), n);
      hide Holders;
      assert forall x :: x in w.threads ==> ThreadOk(w, x);
      StepOn(w, Next(w, Search(t, key)), t, n);
    }
  }

  lemma RendezvousKeeps(w: World, t: nat, u: nat)
    requires Inv(w) && Enabled(w, Rendezvous(t, u))
    ensures Inv(Next(w, Rendezvous(t, u)))
  {
    hide Inv, NodeOk, Holders;
    Plays(w, t);
    Plays(w, u);
    var n := w.threads[t].n;
    var w' := Next(w, Rendezvous(t, u));
    forall m | m in w'.nodes ensures NodeOk(w', m) {
      MetNode(w, t, u, n, m);
    }
    forall x | x in w'.threads ensures ThreadOk(w', x) {
      MetThread(w, t, u, n, x);
    }
    MetTree(w, t, u);
  }

  lemma MetTree(w: World, t: nat, u: nat)
    requires Inv(w) && Enabled(w, Rendezvous(t, u))
    ensures var w' := Next(w, Rendezvous(t, u));
      (forall m :: m in w'.nodes ==> NodeOk(w', m)) && (forall x :: x in w'.threads ==> ThreadOk(w', x)) ==> Inv(w')
  {
    hide NodeOk;
    assert Next(w, Rendezvous(t, u)).threads.Keys == w.threads.Keys;
  }

  lemma MetThread(w: World, t: nat, u: nat, n: nat, x: nat)
    requires Inv(w) && Enabled(w, Rendezvous(t, u)) && w.threads[t] == Signalling(n) && w.threads[u] == Waiting(n)
    requires x in w.threads
    ensures ThreadOk(Next(w, Rendezvous(t, u)), x)
  {
    assert ThreadOk(w, t) && ThreadOk(w, u) && ThreadOk(w, x);
  }

  lemma MetNode(w: World, t: nat, u: nat, n: nat, m: nat)
    requires Inv(w) && Enabled(w, Rendezvous(t, u)) && w.threads[t] == Signalling(n) && w.threads[u] == Waiting(n)
    requires m in w.nodes
    ensures NodeOk(Next(w, Rendezvous(t, u)), m)
  {
    hide Holders;
    assert ThreadOk(w, t) && ThreadOk(w, u);
    assert NodeOk(w, n) && NodeOk(w, m);
    MetRefs(w, t, u, n, m);
  }

  // Neither party of a rendezvous holds a reference.
  lemma MetRefs(w: World, t: nat, u: nat, n: nat, m: nat)
    requires t in w.threads && u in w.threads && t != u && w.threads[t] == Signalling(n) && w.threads[u] == Waiting(n)
    ensures |Holders(w.threads[t := Idle][u := Woken(n)], m)| == Refs(w, m)
  {
    Counted(w.threads, t, Idle, m);
    Counted(w.threads[t := Idle], u, Woken(n), m);
  }

  lemma StepKeeps(w: World, step: Step)
    requires Inv(w) && Enabled(w, step)
    ensures Inv(Next(w, step))
  {
    hide Inv, Next, Enabled;
    match step
    case Insert(t, key, n) => InsertKeeps(w, t, key, n);
    case Search(t, key) => SearchKeeps(w, t, key);
    case Ref(t) => RefKeeps(w, t);
    case Unref(t) => UnrefKeeps(w, t);
    case Remove(t, key) => RemoveKeeps(w, t, key);
    case RefRemoved(t) => RefRemovedKeeps(w, t);
    case Destroy(t) => DestroyKeeps(w, t);
    case Rendezvous(t, u) => RendezvousKeeps(w, t, u);
    case Exchange(t) => ExchangeKeeps(w, t);
  }

  // ---- Runs --------------------------------------------------------------------------------

  // Threads that have not done anything yet.
  function Fresh(threads: set<nat>): World {
    World(map[], map[], map t | t in threads :: Idle)
  }

  ghost predicate Runs(w: World, run: seq<Step>)
    requires Inv(w)
    decreases |run|
  {
    run != [] ==> Enabled(w, run[0]) && (StepKeeps(w, run[0]); Runs(Next(w, run[0]), run[1..]))
  }

  ghost function After(w: World, run: seq<Step>): (w': World)
    requires Inv(w) && Runs(w, run)
    ensures Inv(w')
    decreases |run|
  {
    if run == [] then w else (StepKeeps(w, run[0]); After(Next(w, run[0]), run[1..]))
  }

  lemma FreshIsValid(threads: set<nat>)
    requires |threads| < DESTROY
    ensures Inv(Fresh(threads))
  {
    assert Fresh(threads).threads.Keys == threads;
  }

  // The low bits of a lock word are the number of references alive, a thread waits to destroy a node
  // only while there is one or a signal is on its way, and no thread holds, signals or has just found
  // a node that has been destroyed.
  ghost predicate Safe(w: World, n: nat)
    requires n in w.nodes
  {
    var node := w.nodes[n];
    && (node.stage != Gone ==> RefBits(node.word) == Refs(w, n))
    && (node.stage != Gone ==> DestroyBits(node.word) == if Destroying(node.stage) then DESTROY else 0)
    && (forall t :: t in w.threads && w.threads[t] == Waiting(n) ==>
          Refs(w, n) > 0 || exists u :: u in w.threads && w.threads[u] == Signalling(n))
    && (node.stage == Gone ==> !InTree(w, n) && forall t :: t in w.threads ==> !Mentions(w.threads[t], n))
  }

  lemma ReflockSafety(threads: set<nat>, run: seq<Step>, n: nat)
    requires |threads| < DESTROY && Inv(Fresh(threads)) && Runs(Fresh(threads), run)
    requires n in After(Fresh(threads), run).nodes
    ensures Safe(After(Fresh(threads), run), n)
  {
    hide Safe, Runs, Inv, Fresh;
    InvIsSafe(After(Fresh(threads), run), n);
  }

  lemma InvIsSafe(w: World, n: nat)
    requires Inv(w) && n in w.nodes
    ensures Safe(w, n)
  {
    hide Inv, Holders;
    Uses(w, n);
    FewRefs(w, n);
    forall t | t in w.threads && Mentions(w.threads[t], n)
      ensures w.nodes[n].stage != Gone
      ensures w.threads[t] == Waiting(n)
          ==> Refs(w, n) > 0 || exists u :: u in w.threads && w.threads[u] == Signalling(n)
    {
      Plays(w, t);
    }
  }

  // The word of a node that is not gone is that of a valid lock with the references that threads hold.
  lemma WordSays(w: World, n: nat)
    requires Inv(w) && n in w.nodes && w.nodes[n].stage != Gone
    ensures Says(w.nodes[n].word, Refs(w, n), Destroying(w.nodes[n].stage))
  {
    hide Refs;
    assert NodeOk(w, n);
    FewRefs(w, n);
  }

  // Only one thread at a time signals a node, to the one thread that destroys it.
  lemma OneSignaller(w: World, t: nat, u: nat, n: nat)
    requires Inv(w) && t in w.threads && u in w.threads
    requires w.threads[t] == Signalling(n) && w.threads[u] == Signalling(n)
    ensures t == u && exists v :: v in w.threads && w.threads[v] == Waiting(n)
  {
    assert ThreadOk(w, t) && ThreadOk(w, u) && NodeOk(w, n);
  }

  // A release of the last reference signals exactly when the destroyer waits.
  lemma UnrefSignals(w: World, t: nat)
    requires Inv(w) && Enabled(w, Unref(t))
    ensures Next(w, Unref(t)).threads[t].Signalling?
       <==> Refs(w, w.threads[t].n) == 1 && exists u :: u in w.threads && w.threads[u] == Waiting(w.threads[t].n)
  {
    hide Inv, Refs, Added;
    var n := w.threads[t].n;
    Unreffed(w, t, n);
    Uses(w, n);
    if u :| u in w.threads && w.threads[u] == Waiting(n) {
      Plays(w, u);
    }
  }

  lemma OtherHolders(threads: map<nat, Thread>, t: nat, n: nat)
    requires t in threads && Holds(threads[t], n)
    ensures |Holders(threads, n)| > 1 <==> exists u :: u in threads && u != t && Holds(threads[u], n)
  {
    var others := Holders(threads, n) - {t};
    assert Holders(threads, n) == others + {t};
    if u :| u in threads && u != t && Holds(threads[u], n) {
      assert u in others;
    }
  }

  // The destroyer waits exactly when another reference is alive.
  lemma DestroyWaits(w: World, t: nat)
    requires Inv(w) && Enabled(w, Destroy(t))
    ensures Next(w, Destroy(t)).threads[t].Waiting?
       <==> exists u :: u in w.threads && u != t && Holds(w.threads[u], w.threads[t].n)
  {
    hide Inv, Holders, Added, RefBits, NodeOk, ThreadOk;
    var n := w.threads[t].n;
    Destroyed(w, t, n);
    OtherHolders(w.threads, t, n);
  }

  // When destroy returns, no reference to the node is alive, no other thread has to do with it and
  // no search can find it any more; and that stays so.
  lemma DestroyReturns(w: World, t: nat)
    requires Inv(w) && Enabled(w, Exchange(t))
    ensures var n := w.threads[t].n; var w' := Next(w, Exchange(t));
      && n in w.nodes && n in w'.nodes && w'.nodes[n].stage == Gone && Refs(w, n) == 0 && !InTree(w, n)
      && forall u :: u in w.threads && u != t ==> !Mentions(w.threads[u], n)
  {
    var n := w.threads[t].n;
    assert ThreadOk(w, t) && NodeOk(w, n);
    FewRefs(w, n);
    forall u | u in w.threads && u != t ensures !Mentions(w.threads[u], n) {
      assert ThreadOk(w, u);
    }
  }

  lemma GoneStays(w: World, step: Step, n: nat)
    requires Inv(w) && Enabled(w, step) && n in w.nodes && w.nodes[n].stage == Gone
    ensures n in Next(w, step).nodes && Next(w, step).nodes[n] == w.nodes[n]
  {
    assert ThreadOk(w, step.t) && NodeOk(w, n);
    FewRefs(w, n);
  }

  // ---- Signals over a run ------------------------------------------------------------------

  // A release that signals the node, and a destroyer that begins to wait for it
  function Signal(w: World, step: Step, n: nat): nat
    requires Inv(w) && Enabled(w, step)
  {
    if step.Unref? && step.t in Next(w, step).threads && Next(w, step).threads[step.t] == Signalling(n) then 1 else 0
  }

  function Wait(w: World, step: Step, n: nat): nat
    requires Inv(w) && Enabled(w, step)
  {
    if step.Destroy? && step.t in Next(w, step).threads && Next(w, step).threads[step.t] == Waiting(n) then 1 else 0
  }

  ghost function Signals(w: World, run: seq<Step>, n: nat): nat
    requires Inv(w) && Runs(w, run)
    decreases |run|
  {
    if run == [] then 0 else (StepKeeps(w, run[0]); Signal(w, run[0], n) + Signals(Next(w, run[0]), run[1..], n))
  }

  ghost function Waits(w: World, run: seq<Step>, n: nat): nat
    requires Inv(w) && Runs(w, run)
    decreases |run|
  {
    if run == [] then 0 else (StepKeeps(w, run[0]); Wait(w, run[0], n) + Waits(Next(w, run[0]), run[1..], n))
  }

  // How many signals and waits there have been, by what has become of the node
  predicate Tally(w: World, n: nat, signals: nat, waits: nat) {
    if n !in w.nodes then signals == waits == 0
    else
      match w.nodes[n].stage
      case Awaited(_) => signals == 0 && waits == 1
      case Signalled(_, _) => signals == waits == 1
      case Free(_) => signals == waits <= 1
      case Gone => signals == waits <= 1
      case _ => signals == waits == 0
  }

  lemma UnrefTally(w: World, t: nat, n: nat, signals: nat, waits: nat)
    requires Inv(w) && Enabled(w, Unref(t)) && Tally(w, n, signals, waits)
    ensures Tally(Next(w, Unref(t)), n, signals + Signal(w, Unref(t), n), waits)
  {
    hide Inv, Refs, Added;
    Unreffed(w, t, w.threads[t].n);
  }

  lemma DestroyTally(w: World, t: nat, n: nat, signals: nat, waits: nat)
    requires Inv(w) && Enabled(w, Destroy(t)) && Tally(w, n, signals, waits)
    ensures Tally(Next(w, Destroy(t)), n, signals, waits + Wait(w, Destroy(t), n))
  {
    hide Inv, Refs, Added, RefBits;
    Plays(w, t);
  }

  lemma TreeMember(w: World, key: nat)
    requires Inv(w) && key in w.tree
    ensures w.tree[key] in w.nodes && w.nodes[w.tree[key]].stage == Listed
  {
    assert NodeOk(w, w.tree[key]);
  }

  lemma StepTally(w: World, step: Step, n: nat, signals: nat, waits: nat)
    requires Inv(w) && Enabled(w, step) && Tally(w, n, signals, waits)
    ensures Tally(Next(w, step), n, signals + Signal(w, step, n), waits + Wait(w, step, n))
  {
    hide Inv, Refs, Added, RefBits;
    if step.Unref? {
      UnrefTally(w, step.t, n, signals, waits);
    } else if step.Destroy? {
      DestroyTally(w, step.t, n, signals, waits);
    } else {
      Plays(w, step.t);
      if step.Rendezvous? {
        Plays(w, step.u);
      }
      if step.Remove? && step.key in w.tree {
        TreeMember(w, step.key);
      }
    }
  }

  lemma {:induction false} RunTally(w: World, run: seq<Step>, n: nat, signals: nat, waits: nat)
    requires Inv(w) && Runs(w, run) && Tally(w, n, signals, waits)
    ensures Tally(After(w, run), n, signals + Signals(w, run, n), waits + Waits(w, run, n))
    decreases |run|
  {
    hide Inv, Tally, Next, Enabled, Signal, Wait;
    if run != [] {
      StepKeeps(w, run[0]);
      StepTally(w, run[0], n, signals, waits);
      RunTally(Next(w, run[0]), run[1..], n, signals + Signal(w, run[0], n), waits + Wait(w, run[0], n));
    }
  }

  // In any run a node is signalled at most once, only when its destroyer waits, and exactly once when the
  // destroyer has waited and waits no longer.
  lemma ExactlyOneSignal(threads: set<nat>, run: seq<Step>, n: nat)
    requires |threads| < DESTROY && Inv(Fresh(threads)) && Runs(Fresh(threads), run)
    ensures var w := After(Fresh(threads), run);
      var signals, waits := Signals(Fresh(threads), run, n), Waits(Fresh(threads), run, n);
      && signals <= waits <= 1
      && (waits == 1 && (forall t :: t in w.threads ==> w.threads[t] != Waiting(n)) ==> signals == 1)
  {
    hide Runs, After, Signals, Waits;
    RunTally(Fresh(threads), run, n, 0, 0);
    var w := After(Fresh(threads), run);
    if n in w.nodes && w.nodes[n].stage.Awaited? {
      assert NodeOk(w, n);
    }
  }
}
