/**
 Ports and the reference counts that protect them, together.  Every call of epoll_ctl and epoll_wait works
 on a port while it holds a reference to its node in the handle tree; epoll_close takes the node from the
 tree, waits for the references, and deletes the port.
 */
module PortClosing {
  import Reflocks
  import PortRuns
  import PortModel

  // The handle tree with its nodes, and the port of every node
  datatype World<!I> = World(locks: Reflocks.World, ports: map<nat, PortRuns.World<I>>)

  datatype Step<!I> =
    // A step on the tree or on the lock of a node; a new node comes with a new port.
    | Lock(step: Reflocks.Step)
    // A locked section of port_ctl or port_wait, of the thread t on the port of node n
    | Call(t: nat, n: nat, choice: PortRuns.Choice<I>)
    // The kernel hands packets to a thread that waits at the port of node n.
    | Packets(n: nat, choice: PortRuns.Choice<I>)

  // The thread that starts or ends to wait
  predicate Within(step: PortRuns.Step, t: nat) {
    match step
    case Enter(thread) => thread == t
    case Leave(thread, _) => thread == t
    case Deliver(_, _) => false
    case _ => true
  }

  ghost predicate Inside<I>(w: World<I>, n: nat, t: nat) {
    n in w.ports && t in w.ports[n].taken
  }

  // A thread works on a port while it uses the node, and gives its reference back when its call has returned.
  ghost predicate Enabled<I>(w: World<I>, step: Step<I>) {
    match step
    case Lock(s) => Reflocks.Enabled(w.locks, s) && (s.Unref? ==> forall n :: n in w.ports ==> !Inside(w, n, s.t))
    case Call(t, n, choice) =>
      && t in w.locks.threads && w.locks.threads[t] == Reflocks.Using(n) && n in w.ports
      && PortRuns.Enabled(w.ports[n], choice.step) && Within(choice.step, t)
    case Packets(n, choice) =>
      n in w.ports && choice.step.Deliver? && PortRuns.Enabled(w.ports[n], choice.step)
  }

  ghost predicate Inv<I>(w: World<I>) {
    && Reflocks.Inv(w.locks) && w.ports.Keys == w.locks.nodes.Keys
    && (forall n :: n in w.ports ==> PortRuns.WorldInv(w.ports[n]))
    && (forall n, t :: Inside(w, n, t) ==> t in w.locks.threads && w.locks.threads[t] == Reflocks.Using(n))
  }

  function Created(step: Reflocks.Step, tree: map<nat, nat>): set<nat> {
    if step.Insert? && step.key !in tree then {step.n} else {}
  }

  function NewPorts<I>(created: set<nat>): map<nat, PortRuns.World<I>> {
    map n | n in created :: PortRuns.Fresh()
  }

  ghost function Next<I>(w: World<I>, step: Step<I>): World<I>
    requires Inv(w) && Enabled(w, step)
  {
    match step
    case Lock(s) =>
      World(Reflocks.Next(w.locks, s), w.ports + NewPorts(Created(s, w.locks.tree)))
    case Call(_, n, c) => w.(ports := w.ports[n := PortRuns.Next(w.ports[n], c.step, c.kernel, c.again)])
    case Packets(n, c) => w.(ports := w.ports[n := PortRuns.Next(w.ports[n], c.step, c.kernel, c.again)])
  }

  // ---- What every step keeps ---------------------------------------------------------------

  lemma PollingWaiters<I>(w: PortRuns.World<I>, kernel: I -> PortRuns.Answer)
    requires PortModel.Inv(w.st)
    ensures PortRuns.IfPolling(w, kernel).taken == w.taken
  {
    hide PortModel.Inv;
  }

  lemma EnteredWaiters<I>(w: PortRuns.World<I>, t: nat, kernel: I -> PortRuns.Answer, again: I -> PortRuns.Answer)
    requires PortModel.Inv(w.st)
    ensures forall u :: u in PortRuns.Entered(w, t, kernel, again).taken ==> u in w.taken || u == t
  {
    hide PortModel.Inv, PortRuns.IfPolling;
    PortRuns.AllUpdatedKeeps(w.st, kernel);
    PollingWaiters(PortRuns.Refreshed(w, kernel).0, again);
  }

  lemma LeftWaiters<I>(w: PortRuns.World<I>, t: nat, more: bool, kernel: I -> PortRuns.Answer,
                       again: I -> PortRuns.Answer)
    requires PortRuns.WorldInv(w) && t in w.taken
    ensures forall u :: u in PortRuns.Left(w, t, more, kernel, again).taken ==> u in w.taken || u == t
  {
    hide PortModel.Inv, PortRuns.IfPolling, PortRuns.Entered, PortRuns.Claims;
    PortRuns.ResumedKeeps(w, t);
    var w' := PortRuns.Resumed(w, t).0;
    EnteredWaiters(w', t, kernel, again);
    PollingWaiters(w', kernel);
  }

  // Who waits at a port after a step on it
  lemma WaitersAfter<I>(w: PortRuns.World<I>, c: PortRuns.Choice<I>, t: nat)
    requires PortRuns.WorldInv(w) && PortRuns.Enabled(w, c.step)
    requires Within(c.step, t) || c.step.Deliver?
    ensures var w' := PortRuns.Next(w, c.step, c.kernel, c.again);
      forall u :: u in w'.taken ==> u in w.taken || (u == t && !c.step.Deliver?)
  {
    hide PortModel.Inv, PortRuns.Claims, PortModel.EventSet, PortModel.Created, PortModel.Deleted;
    hide PortRuns.IfPolling, PortRuns.Entered, PortRuns.Left;
    match c.step
    case Add(s, socket, ev) =>
      if socket !in w.st.tree {
        PortRuns.AddedKeeps(w.st, s, socket, ev);
        PollingWaiters(w.(st := PortModel.EventSet(PortModel.Created(w.st, s, socket), s, ev)), c.kernel);
      }
    case Mod(socket, ev) =>
      if socket in w.st.tree {
        PortRuns.ModifiedKeeps(w.st, socket, ev);
        PollingWaiters(w.(st := PortModel.EventSet(w.st, w.st.tree[socket], ev)), c.kernel);
      }
    case Enter(thread) => EnteredWaiters(w, thread, c.kernel, c.again);
    case Leave(thread, more) => LeftWaiters(w, thread, more, c.kernel, c.again);
    case _ =>
  }

  // A step on the locks leaves those that use a node alone, but for one that gives its reference back.
  lemma UsersStay(w: Reflocks.World, step: Reflocks.Step, t: nat)
    requires Reflocks.Inv(w) && Reflocks.Enabled(w, step) && t in w.threads && w.threads[t].Using?
    requires !(step.Unref? && step.t == t)
    ensures t in Reflocks.Next(w, step).threads && Reflocks.Next(w, step).threads[t] == w.threads[t]
  {
  }

  lemma NodesAfter(w: Reflocks.World, step: Reflocks.Step)
    requires Reflocks.Inv(w) && Reflocks.Enabled(w, step)
    ensures Reflocks.Next(w, step).nodes.Keys == w.nodes.Keys + Created(step, w.tree)
  {
  }

  // The ports after a step on the locks: those that were there, and perhaps a new one
  lemma PortsAfter<I>(w: World<I>, s: Reflocks.Step)
    requires Inv(w) && Enabled(w, Lock(s))
    ensures var ports := Next(w, Lock(s)).ports;
      && ports.Keys == w.ports.Keys + Created(s, w.locks.tree)
      && (forall n :: n in ports ==> ports[n] == PortRuns.Fresh() || (n in w.ports && ports[n] == w.ports[n]))
      && (forall n :: n in ports ==> PortRuns.WorldInv(ports[n]))
  {
    hide Reflocks.Inv, Reflocks.Next, Reflocks.Enabled, PortRuns.WorldInv, Created, PortRuns.Fresh;
    PortRuns.FreshIsValid<I>();
  }

  lemma LockKeeps<I>(w: World<I>, s: Reflocks.Step)
    requires Inv(w) && Enabled(w, Lock(s))
    ensures Inv(Next(w, Lock(s)))
  {
    hide Reflocks.Inv, Reflocks.Next, Reflocks.Enabled, PortRuns.WorldInv, Created;
    var w' := Next(w, Lock(s));
    Reflocks.StepKeeps(w.locks, s);
    NodesAfter(w.locks, s);
    PortsAfter(w, s);
    forall n, t | Inside(w', n, t) ensures t in w'.locks.threads && w'.locks.threads[t] == Reflocks.Using(n) {
      assert Inside(w, n, t);
      UsersStay(w.locks, s, t);
    }
  }

  lemma PortKeeps<I>(w: World<I>, step: Step<I>)
    requires Inv(w) && Enabled(w, step) && !step.Lock?
    ensures Inv(Next(w, step))
  {
    hide Reflocks.Inv, PortRuns.WorldInv, PortRuns.Next, PortRuns.Enabled;
    var w', n, c := Next(w, step), step.n, step.choice;
    PortRuns.StepKeeps(w.ports[n], c.step, c.kernel, c.again);
    var t := if step.Call? then step.t else 0;
    WaitersAfter(w.ports[n], c, t);
    forall m, u | Inside(w', m, u) ensures u in w'.locks.threads && w'.locks.threads[u] == Reflocks.Using(m) {
      assert Inside(w, m, u) || (m == n && step.Call? && u == t);
    }
  }

  lemma StepKeeps<I>(w: World<I>, step: Step<I>)
    requires Inv(w) && Enabled(w, step)
    ensures Inv(Next(w, step))
  {
    hide Inv, Next;
    if step.Lock? {
      LockKeeps(w, step.step);
    } else {
      PortKeeps(w, step);
    }
  }

  // ---- Runs --------------------------------------------------------------------------------

  function Fresh<I>(threads: set<nat>): World<I> {
    World(Reflocks.Fresh(threads), map[])
  }

  lemma FreshIsValid<I>(threads: set<nat>)
    requires |threads| < Reflocks.DESTROY
    ensures Inv(Fresh<I>(threads))
  {
    Reflocks.FreshIsValid(threads);
  }

  ghost predicate Runs<I>(w: World<I>, run: seq<Step<I>>)
    requires Inv(w)
    decreases |run|
  {
    run != [] ==> Enabled(w, run[0]) && (StepKeeps(w, run[0]); Runs(Next(w, run[0]), run[1..]))
  }

  ghost function After<I>(w: World<I>, run: seq<Step<I>>): (w': World<I>)
    requires Inv(w) && Runs(w, run)
    ensures Inv(w')
    decreases |run|
  {
    if run == [] then w else (StepKeeps(w, run[0]); After(Next(w, run[0]), run[1..]))
  }

  // In every run: when epoll_close comes to delete a port, no thread is inside a call on it, and none will be.
  // That is all that port_delete needs.
  lemma NobodyInside<I>(threads: set<nat>, run: seq<Step<I>>, n: nat)
    requires |threads| < Reflocks.DESTROY && Inv(Fresh<I>(threads)) && Runs(Fresh<I>(threads), run)
    ensures var w := After(Fresh<I>(threads), run);
      n in w.locks.nodes && (w.locks.nodes[n].stage.Free? || w.locks.nodes[n].stage == Reflocks.Gone) ==>
        && n in w.ports && w.ports[n].taken == map[] && PortRuns.WorldInv(w.ports[n])
        && forall step :: Enabled(w, step) && step.Call? ==> step.n != n
  {
    hide Runs, Reflocks.Inv, PortRuns.WorldInv;
    var w := After(Fresh<I>(threads), run);
    if n in w.locks.nodes && (w.locks.nodes[n].stage.Free? || w.locks.nodes[n].stage == Reflocks.Gone) {
      forall t | t in w.locks.threads ensures w.locks.threads[t] != Reflocks.Using(n) {
        NoUser(w.locks, n, t);
      }
      forall t ensures t !in w.ports[n].taken {
        assert !Inside(w, n, t);
      }
    }
  }

  lemma NoUser(w: Reflocks.World, n: nat, t: nat)
    requires Reflocks.Inv(w) && n in w.nodes && t in w.threads
    requires w.nodes[n].stage.Free? || w.nodes[n].stage == Reflocks.Gone
    ensures w.threads[t] != Reflocks.Using(n)
  {
    Reflocks.Uses(w, n);
    Reflocks.FewRefs(w, n);
  }
}
