/**
  Intercept modules: registration, the snapshot each hook takes, and unregistration, as interleaved atomic steps
  (`intercept_module.c`, `intercept.c`, `intercept_impl.h`).

  A hook copies the module list under the lock, raising the reference count of each copied node, and then calls the
  modules one by one without the lock, dropping each count afterwards. Unregistering takes the node off the list
  and waits until the list's own reference is the only one left before it drops it, which frees the node.
*/
module Intercept {
  import opened Lists

  datatype Node = Node(intercept: nat, refcount: int)

  type Verdict = bv32

  /** A hook: the nodes still to be called, the one whose callback is running, those already called with what each returned,
      and the combined verdict. */
  datatype Hook = Hook(snapshot: seq<nat>, backup: seq<nat>, running: Option<nat>, called: seq<nat>, verdicts: seq<Verdict>, r: Verdict)

  /** A call of unregister: waiting for the node it took off the list, or returned. */
  datatype Removal = Waiting(intercept: nat, node: nat) | Returned(intercept: nat, found: Option<nat>)

  datatype State = State(
    nodes: map<nat, Node>,
    modules: seq<nat>,
    hooks: seq<Hook>,
    removals: seq<Removal>,
    /** Every node ever registered, with its module. */
    born: map<nat, nat>,
    /** A freed node was used, or freed again. */
    bad: bool)

  datatype Event =
    | Register(node: nat, intercept: nat)
    | Snapshot(chosen: set<nat>)
    | CallNext(hook: nat)
    | Post(hook: nat, verdict: Verdict)
    | Unregister(intercept: nat)
    | Retry(removal: nat)

  const Init: State := State(map[], [], [], [], map[], false)

  // ----- Operations -----

  /** `httcsec_register_intercept_module`; the allocator returns a new node. */
  function DoRegister(s: State, n: nat, m: nat): State {
    if n in s.born then s
    else s.(nodes := s.nodes[n := Node(m, 1)], modules := s.modules + [n], born := s.born[n := m])
  }

  /** The loop of a hook over the list. Which modules are enabled, have the callback and get a backup node is given
      by `chosen`. */
  function Copy(nodes: map<nat, Node>, list: seq<nat>, chosen: set<nat>): (r: (map<nat, Node>, seq<nat>))
    decreases list
  {
    if list == [] then (nodes, [])
    else if list[0] in chosen && list[0] in nodes then
      var (nodes', backup) := Copy(Hold(nodes, list[0]), list[1..], chosen);
      (nodes', [list[0]] + backup)
    else Copy(nodes, list[1..], chosen)
  }

  /** The reference `add_to_backup` takes. */
  function Hold(nodes: map<nat, Node>, n: nat): map<nat, Node>
    requires n in nodes
  {
    nodes[n := nodes[n].(refcount := nodes[n].refcount + 1)]
  }

  function DoSnapshot(s: State, chosen: set<nat>): State {
    var (nodes', backup) := Copy(s.nodes, s.modules, chosen);
    s.(nodes := nodes', hooks := s.hooks + [Hook(backup, backup, None, [], [], 0)])
  }

  /** Takes the next node off the backup list and enters its callback. */
  function DoCallNext(s: State, k: nat): State {
    if k < |s.hooks| && s.hooks[k].running == None && s.hooks[k].backup != [] then
      var h := s.hooks[k];
      s.(hooks := s.hooks[k := h.(backup := h.backup[1..], running := Some(h.backup[0]))],
         bad := s.bad || h.backup[0] !in s.nodes)
    else s
  }

  /** `intercept_node_post_locked`. */
  function Drop(s: State, n: nat): State {
    if n !in s.nodes then s.(bad := true)
    else
      var node := s.nodes[n].(refcount := s.nodes[n].refcount - 1);
      if node.refcount == 0 then s.(nodes := s.nodes - {n}) else s.(nodes := s.nodes[n := node])
  }

  /** The callback has returned: `intercept_node_post`. */
  function DoPost(s: State, k: nat, v: Verdict): State {
    if k < |s.hooks| && s.hooks[k].running != None then
      var h := s.hooks[k];
      var n := h.running.value;
      Drop(s, n).(hooks := s.hooks[k := h.(running := None, called := h.called + [n], verdicts := h.verdicts + [v], r := Or(h.r, v))])
    else s
  }

  function Or(x: Verdict, y: Verdict): Verdict { x | y }

  /** First listed node of a module. */
  function Find(s: State, list: seq<nat>, m: nat): Option<nat> {
    if list == [] then None
    else if list[0] in s.nodes && s.nodes[list[0]].intercept == m then Some(list[0])
    else Find(s, list[1..], m)
  }

  /** `httcsec_unregister_intercept_module` up to its first wait, or to its end. */
  function DoUnregister(s: State, m: nat): State {
    match Find(s, s.modules, m)
    case None => s.(removals := s.removals + [Returned(m, None)])
    case Some(n) =>
      var s1 := s.(modules := Without(s.modules, n));
      if n in s.nodes && s.nodes[n].refcount > 1 then s1.(removals := s.removals + [Waiting(m, n)])
      else Drop(s1, n).(removals := s.removals + [Returned(m, Some(n))])
  }

  /** One more look after a wait. */
  function DoRetry(s: State, k: nat): State {
    if k < |s.removals| && s.removals[k].Waiting? then
      var w := s.removals[k];
      if w.node in s.nodes && s.nodes[w.node].refcount > 1 then s
      else Drop(s, w.node).(removals := s.removals[k := Returned(w.intercept, Some(w.node))])
    else s
  }

  function Apply(s: State, e: Event): State {
    match e
    case Register(n, m) => DoRegister(s, n, m)
    case Snapshot(chosen) => DoSnapshot(s, chosen)
    case CallNext(k) => DoCallNext(s, k)
    case Post(k, v) => DoPost(s, k, v)
    case Unregister(m) => DoUnregister(s, m)
    case Retry(k) => DoRetry(s, k)
  }

  function Run(events: seq<Event>): State {
    if events == [] then Init else Apply(Run(events[..|events| - 1]), events[|events| - 1])
  }

  // ----- Holders -----

  /** The references one hook holds. */
  ghost function Refs(h: Hook): multiset<nat> {
    multiset(h.backup) + (if h.running.Some? then multiset{h.running.value} else multiset{})
  }

  ghost function Held(hooks: seq<Hook>): multiset<nat> {
    if hooks == [] then multiset{} else Held(hooks[..|hooks| - 1]) + Refs(hooks[|hooks| - 1])
  }

  lemma {:induction false} HeldUpdate(hooks: seq<Hook>, k: nat, h: Hook, n: nat)
    requires k < |hooks|
    ensures Held(hooks[k := h])[n] + Refs(hooks[k])[n] == Held(hooks)[n] + Refs(h)[n]
    ensures Refs(hooks[k])[n] <= Held(hooks)[n]
    decreases |hooks|
  {
    hide Refs;
    var last := |hooks| - 1;
    assert hooks[k := h][..last] == if k < last then hooks[..last][k := h] else hooks[..last];
    if k < last {
      HeldUpdate(hooks[..last], k, h, n);
    }
  }

  lemma HeldAppend(hooks: seq<Hook>, h: Hook)
    ensures Held(hooks + [h]) == Held(hooks) + Refs(h)
  {
    assert (hooks + [h])[..|hooks|] == hooks;
  }

  ghost predicate Awaited(removals: seq<Removal>, n: nat) {
    exists k :: 0 <= k < |removals| && removals[k].Waiting? && removals[k].node == n
  }

  // ----- The invariant -----

  /** A node has one reference for its registration and one for each hook that holds it; it is on the list, or some
      unregister is waiting for it. What is not allocated is neither listed, held nor awaited. */
  ghost predicate NodeFits(s: State, n: nat) {
    if n in s.nodes then
      && n in s.born && s.born[n] == s.nodes[n].intercept
      && s.nodes[n].refcount == 1 + Held(s.hooks)[n]
      && Times(s.modules, n) == (if Awaited(s.removals, n) then 0 else 1)
    else
      Held(s.hooks)[n] == 0 && Times(s.modules, n) == 0 && !Awaited(s.removals, n)
  }

  /** No two calls of unregister have taken the same node. */
  ghost predicate RemovalsFit(s: State) {
    && (forall j, k :: 0 <= j < k < |s.removals| && s.removals[j].Waiting? && s.removals[k].Waiting? ==>
          s.removals[j].node != s.removals[k].node)
    && (forall k :: 0 <= k < |s.removals| ==> RemovalFits(s, s.removals[k]))
  }

  ghost predicate RemovalFits(s: State, w: Removal) {
    match w
    case Waiting(m, n) => n in s.born && s.born[n] == m
    case Returned(m, found) => found.Some? ==> found.value in s.born && s.born[found.value] == m && found.value !in s.nodes
  }

  /** Each hook calls what it copied, in order, each node once. */
  ghost predicate HookFits(h: Hook) {
    && |h.verdicts| == |h.called| && h.r == OrAll(h.verdicts)
    && h.snapshot == h.called + (if h.running.Some? then [h.running.value] else []) + h.backup
  }

  ghost predicate Inv(s: State) {
    && !s.bad && RemovalsFit(s)
    && (forall n :: NodeFits(s, n))
    && (forall k :: 0 <= k < |s.hooks| ==> HookFits(s.hooks[k]))
  }

  lemma InitInv()
    ensures Inv(Init)
  {
  }

  lemma RegisterKeeps(s: State, n: nat, m: nat, i: nat)
    requires Inv(s)
    ensures NodeFits(DoRegister(s, n, m), i)
  {
    assert NodeFits(s, i) && NodeFits(s, n);
  }

  lemma {:induction false} CopyCounts(nodes: map<nat, Node>, list: seq<nat>, chosen: set<nat>, i: nat)
    ensures var (nodes', backup) := Copy(nodes, list, chosen);
            && nodes'.Keys == nodes.Keys
            && (i in nodes ==> nodes'[i] == nodes[i].(refcount := nodes[i].refcount + Times(backup, i)))
            && (i !in nodes ==> Times(backup, i) == 0)
    decreases list
  {
    if list != [] {
      if list[0] in chosen && list[0] in nodes {
        CopyCounts(Hold(nodes, list[0]), list[1..], chosen, i);
      } else {
        CopyCounts(nodes, list[1..], chosen, i);
      }
    }
  }

  lemma SnapshotKeeps(s: State, chosen: set<nat>, i: nat)
    requires Inv(s)
    ensures NodeFits(DoSnapshot(s, chosen), i)
  {
    assert NodeFits(s, i);
    CopyCounts(s.nodes, s.modules, chosen, i);
    var (nodes', backup) := Copy(s.nodes, s.modules, chosen);
    HeldAppend(s.hooks, Hook(backup, backup, None, [], [], 0));
  }

  lemma CallNextKeeps(s: State, k: nat, i: nat)
    requires Inv(s)
    ensures NodeFits(DoCallNext(s, k), i) && !DoCallNext(s, k).bad
  {
    hide Held;
    assert NodeFits(s, i);
    if DoCallNext(s, k) != s {
      var h := s.hooks[k];
      var h' := h.(backup := h.backup[1..], running := Some(h.backup[0]));
      assert h.backup == [h.backup[0]] + h.backup[1..];
      HeldUpdate(s.hooks, k, h', i);
      HeldUpdate(s.hooks, k, h', h.backup[0]);
      assert NodeFits(s, h.backup[0]);
    }
  }

  /** A hook's reference is never the last one: the registration's is dropped only when no hook holds one. */
  lemma PostKeeps(s: State, k: nat, v: Verdict, i: nat)
    requires Inv(s)
    ensures NodeFits(DoPost(s, k, v), i) && !DoPost(s, k, v).bad && DoPost(s, k, v).nodes.Keys == s.nodes.Keys
  {
    hide Held;
    assert NodeFits(s, i);
    if k < |s.hooks| && s.hooks[k].running != None {
      var h := s.hooks[k];
      var n := h.running.value;
      HeldUpdate(s.hooks, k, h.(running := None, called := h.called + [n], verdicts := h.verdicts + [v], r := Or(h.r, v)), i);
      HeldUpdate(s.hooks, k, h.(running := None, called := h.called + [n], verdicts := h.verdicts + [v], r := Or(h.r, v)), n);
      assert NodeFits(s, n);
    }
  }

  lemma {:induction false} FindFirst(s: State, list: seq<nat>, m: nat)
    ensures match Find(s, list, m)
            case Some(n) => Times(list, n) > 0 && n in s.nodes && s.nodes[n].intercept == m
            case None => forall n :: Times(list, n) > 0 && n in s.nodes ==> s.nodes[n].intercept != m
  {
    if list != [] {
      FindFirst(s, list[1..], m);
      assert list == [list[0]] + list[1..];
    }
  }

  lemma AwaitedAppend(removals: seq<Removal>, w: Removal, n: nat)
    ensures Awaited(removals + [w], n) <==> Awaited(removals, n) || (w.Waiting? && w.node == n)
  {
    if Awaited(removals, n) {
      var k :| 0 <= k < |removals| && removals[k].Waiting? && removals[k].node == n;
      assert (removals + [w])[k] == removals[k];
    }
    if w.Waiting? && w.node == n {
      assert (removals + [w])[|removals|] == w;
    }
  }

  lemma UnregisterKeeps(s: State, m: nat, i: nat)
    requires Inv(s)
    ensures NodeFits(DoUnregister(s, m), i) && !DoUnregister(s, m).bad
  {
    hide Held, Find;
    assert NodeFits(s, i);
    FindFirst(s, s.modules, m);
    match Find(s, s.modules, m)
    case None => AwaitedAppend(s.removals, Returned(m, None), i);
    case Some(n) =>
      assert NodeFits(s, n);
      WithoutTimes(s.modules, n, i);
      AwaitedAppend(s.removals, Waiting(m, n), i);
      AwaitedAppend(s.removals, Returned(m, Some(n)), i);
  }

  lemma RetryKeeps(s: State, k: nat, i: nat)
    requires Inv(s)
    ensures NodeFits(DoRetry(s, k), i) && !DoRetry(s, k).bad
  {
    hide Held;
    assert NodeFits(s, i);
    if k < |s.removals| && s.removals[k].Waiting? {
      var w := s.removals[k];
      assert NodeFits(s, w.node);
      var r := s.removals[k := Returned(w.intercept, Some(w.node))];
      if Awaited(s.removals, i) && i != w.node {
        var j :| 0 <= j < |s.removals| && s.removals[j].Waiting? && s.removals[j].node == i;
        assert r[j] == s.removals[j];
      }
      if Awaited(r, i) {
        var j :| 0 <= j < |r| && r[j].Waiting? && r[j].node == i;
        assert s.removals[j] == r[j];
      }
    }
  }

  ghost function OrAll(vs: seq<Verdict>): Verdict {
    if vs == [] then 0 else Or(OrAll(vs[..|vs| - 1]), vs[|vs| - 1])
  }

  lemma OrZero(x: Verdict, y: Verdict)
    ensures x | y == 0 <==> x == 0 && y == 0
  {
  }

  lemma OrIs(x: Verdict, y: Verdict)
    ensures Or(x, y) == x | y
  {
  }

  lemma OrIsZero(x: Verdict, y: Verdict)
    ensures Or(x, y) == 0 <==> x == 0 && y == 0
  {
    hide *;
    OrIs(x, y);
    OrZero(x, y);
  }

  /** The combined verdict is zero exactly if every single one is. */
  lemma {:induction false} OrAllZero(vs: seq<Verdict>)
    ensures OrAll(vs) == 0 <==> forall k :: 0 <= k < |vs| ==> vs[k] == 0
    decreases |vs|
  {
    hide Or;
    if vs != [] {
      var n := |vs| - 1;
      OrAllZero(vs[..n]);
      OrIsZero(OrAll(vs[..n]), vs[n]);
      assert forall k :: 0 <= k < n ==> vs[..n][k] == vs[k];
    }
  }

  lemma NoVerdicts()
    ensures OrAll([]) == 0
  {
  }

  lemma OrSnoc(vs: seq<Verdict>, v: Verdict)
    ensures OrAll(vs + [v]) == Or(OrAll(vs), v)
  {
    hide Or;
    assert (vs + [v])[..|vs|] == vs;
  }

  lemma HooksKeep(s: State, e: Event)
    requires Inv(s)
    ensures forall k :: 0 <= k < |Apply(s, e).hooks| ==> HookFits(Apply(s, e).hooks[k])
  {
    hide Held, NodeFits, RemovalsFit, Find, Copy, Or, OrAll;
    NoVerdicts();
    match e
    case Post(k, v) =>
      if k < |s.hooks| { OrSnoc(s.hooks[k].verdicts, v); }
    case CallNext(k) =>
      if k < |s.hooks| && s.hooks[k].backup != [] {
        assert s.hooks[k].backup == [s.hooks[k].backup[0]] + s.hooks[k].backup[1..];
      }
    case _ =>
  }

  lemma RemovalsKeep(s: State, e: Event)
    requires Inv(s)
    ensures RemovalsFit(Apply(s, e))
  {
    hide Held, HookFits, Find, NodeFits;
    match e
    case Register(n, m) => if n !in s.born { BornOnce(s, n); }
    case Snapshot(chosen) => CopyCounts(s.nodes, s.modules, chosen, 0);
    case CallNext(k) =>
    case Post(k, v) => PostKeeps(s, k, v, 0);
    case Unregister(m) => UnregisterRemovals(s, m);
    case Retry(k) => RetryRemovals(s, k);
  }

  lemma BornOnce(s: State, n: nat)
    requires Inv(s) && n !in s.born
    ensures n !in s.nodes
  {
    assert NodeFits(s, n);
  }

  lemma UnregisterRemovals(s: State, m: nat)
    requires Inv(s)
    ensures RemovalsFit(DoUnregister(s, m))
  {
    hide Held, HookFits, Find;
    FindFirst(s, s.modules, m);
    match Find(s, s.modules, m)
    case None =>
    case Some(n) =>
      assert NodeFits(s, n);
      assert forall k :: 0 <= k < |s.removals| && s.removals[k].Waiting? ==> s.removals[k].node != n;
  }

  lemma RetryRemovals(s: State, k: nat)
    requires Inv(s)
    ensures RemovalsFit(DoRetry(s, k))
  {
    hide Held, HookFits;
    if k < |s.removals| && s.removals[k].Waiting? {
      assert Awaited(s.removals, s.removals[k].node);
      assert NodeFits(s, s.removals[k].node);
    }
  }

  /** Every event keeps the invariant. */
  lemma ApplyInv(s: State, e: Event)
    requires Inv(s)
    ensures Inv(Apply(s, e))
  {
    HooksKeep(s, e);
    RemovalsKeep(s, e);
    hide NodeFits, HookFits, RemovalsFit, DoRegister, DoSnapshot, DoCallNext, DoPost, DoUnregister, DoRetry;
    NotBad(s, e);
    forall i
      ensures NodeFits(Apply(s, e), i)
    {
      match e
      case Register(n, m) => RegisterKeeps(s, n, m, i);
      case Snapshot(chosen) => SnapshotKeeps(s, chosen, i);
      case CallNext(k) => CallNextKeeps(s, k, i);
      case Post(k, v) => PostKeeps(s, k, v, i);
      case Unregister(m) => UnregisterKeeps(s, m, i);
      case Retry(k) => RetryKeeps(s, k, i);
    }
  }

  lemma NotBad(s: State, e: Event)
    requires Inv(s)
    ensures !Apply(s, e).bad
  {
    hide DoCallNext, DoPost, DoUnregister, DoRetry, NodeFits, RemovalsFit, HookFits;
    match e
    case CallNext(k) => CallNextKeeps(s, k, 0);
    case Post(k, v) => PostKeeps(s, k, v, 0);
    case Unregister(m) => UnregisterKeeps(s, m, 0);
    case Retry(k) => RetryKeeps(s, k, 0);
    case _ =>
  }

  lemma {:induction false} RunInv(events: seq<Event>)
    ensures Inv(Run(events))
  {
    hide Apply, Inv;
    if events == [] {
      InitInv();
    } else {
      RunInv(events[..|events| - 1]);
      ApplyInv(Run(events[..|events| - 1]), events[|events| - 1]);
    }
  }

  // ----- What the invariant gives -----

  /** No run uses or frees a node that has been freed. */
  lemma NeverBad(events: seq<Event>)
    ensures !Run(events).bad
  {
    hide Run, NodeFits, RemovalsFit, HookFits;
    RunInv(events);
  }

  /** A node's count is one plus its holders, for as long as it is allocated, and a held node is allocated. */
  lemma CountExact(events: seq<Event>, n: nat)
    ensures var s := Run(events); n in s.nodes ==> s.nodes[n].refcount == 1 + Held(s.hooks)[n]
    ensures var s := Run(events); Held(s.hooks)[n] > 0 ==> n in s.nodes
  {
    hide Run, Held;
    RunInv(events);
    assert NodeFits(Run(events), n);
  }

  /** Some hook may still call the module, or a later hook will find it on the list. */
  ghost predicate CanRun(s: State, m: nat) {
    exists n :: n in s.nodes && s.nodes[n].intercept == m && (Held(s.hooks)[n] > 0 || n in s.modules)
  }

  /** Another registration of the module is on the list. */
  ghost predicate OtherListed(s: State, m: nat, n: nat) {
    exists i :: i != n && i in s.modules && i in s.nodes && s.nodes[i].intercept == m
  }

  /** Some unregister of the module, other than call `k`, is waiting for a hook. */
  ghost predicate OtherWaits(s: State, m: nat, k: nat) {
    exists j :: 0 <= j < |s.removals| && j != k && WaitsForHook(s, m, j)
  }

  ghost predicate WaitsForHook(s: State, m: nat, j: nat)
    requires j < |s.removals|
  {
    s.removals[j].Waiting? && s.removals[j].intercept == m && Held(s.hooks)[s.removals[j].node] > 0
  }

  /** A held node is on the list, or an unregister of its module waits for a hook. */
  lemma HeldListedOrAwaited(s: State, i: nat) returns (j: nat)
    requires Inv(s) && i in s.nodes && Held(s.hooks)[i] > 0 && i !in s.modules
    ensures j < |s.removals| && s.removals[j].Waiting? && s.removals[j].node == i
    ensures WaitsForHook(s, s.nodes[i].intercept, j)
  {
    hide Held;
    assert NodeFits(s, i);
    assert i in s.modules <==> Times(s.modules, i) > 0;
    j :| 0 <= j < |s.removals| && s.removals[j].Waiting? && s.removals[j].node == i;
    assert RemovalFits(s, s.removals[j]);
  }

  /** What an unregister waits for is allocated, and of its module. */
  lemma AwaitedAlive(s: State, j: nat)
    requires Inv(s) && j < |s.removals| && s.removals[j].Waiting?
    ensures var w := s.removals[j]; w.node in s.nodes && s.nodes[w.node].intercept == w.intercept && w.node !in s.modules
  {
    hide Held;
    var w := s.removals[j];
    assert Awaited(s.removals, w.node);
    assert NodeFits(s, w.node) && RemovalFits(s, w);
    assert w.node in s.modules <==> Times(s.modules, w.node) > 0;
  }

  /** The step in which a waiting unregister returns: it frees its node, which nobody holds. Afterwards the module can
      run if and only if it is on the list once more, or another unregister of it is waiting for a hook. */
  lemma ReturnQuiet(events: seq<Event>, k: nat)
    requires var s := Run(events); k < |s.removals| && s.removals[k].Waiting? && DoRetry(s, k).removals[k].Returned?
    ensures var s := Run(events); var n := s.removals[k].node; var m := s.removals[k].intercept; var s' := DoRetry(s, k);
            && n in s.nodes && n !in s'.nodes && Held(s.hooks)[n] == 0
            && (CanRun(s', m) <==> OtherListed(s, m, n) || OtherWaits(s, m, k))
  {
    hide Run, Held;
    RunInv(events);
    var s := Run(events);
    var w := s.removals[k];
    var s' := DoRetry(s, k);
    AwaitedAlive(s, k);
    assert NodeFits(s, w.node);
    if CanRun(s', w.intercept) {
      var i :| i in s'.nodes && s'.nodes[i].intercept == w.intercept && (Held(s'.hooks)[i] > 0 || i in s'.modules);
      if i !in s.modules {
        var j := HeldListedOrAwaited(s, i);
      }
    }
    if OtherWaits(s, w.intercept, k) {
      var j :| 0 <= j < |s.removals| && j != k && WaitsForHook(s, w.intercept, j);
      AwaitedAlive(s, j);
      assert s'.nodes[s.removals[j].node] == s.nodes[s.removals[j].node];
    }
  }

  /** An unregister that returns at once. The same holds if it found the module; if it did not, no registration of the
      module is listed, and it can still run exactly when another unregister of it is waiting for a hook. */
  lemma ReturnAtOnce(events: seq<Event>, m: nat)
    requires DoUnregister(Run(events), m).removals[|Run(events).removals|].Returned?
    ensures var s := Run(events); var s' := DoUnregister(s, m); var k := |s.removals|;
            match s'.removals[k].found
            case Some(n) =>
              && n !in s'.nodes && Held(s.hooks)[n] == 0
              && (CanRun(s', m) <==> OtherListed(s, m, n) || OtherWaits(s, m, k))
            case None => CanRun(s', m) <==> OtherWaits(s, m, k)
  {
    hide Run, Held, Find;
    RunInv(events);
    var s := Run(events);
    var s' := DoUnregister(s, m);
    FindFirst(s, s.modules, m);
    match Find(s, s.modules, m)
    case Some(n) =>
      assert NodeFits(s, n);
      OthersStay(s, n);
      if CanRun(s', m) {
        var i :| i in s'.nodes && s'.nodes[i].intercept == m && (Held(s'.hooks)[i] > 0 || i in s'.modules);
        if i !in s.modules {
          var j := HeldListedOrAwaited(s, i);
        }
      }
      if OtherWaits(s, m, |s.removals|) {
        var j :| 0 <= j < |s.removals| && WaitsForHook(s, m, j);
        AwaitedAlive(s, j);
        assert s'.nodes[s.removals[j].node] == s.nodes[s.removals[j].node];
      }
    case None =>
      if CanRun(s', m) {
        var i :| i in s'.nodes && s'.nodes[i].intercept == m && (Held(s'.hooks)[i] > 0 || i in s'.modules);
        assert i in s.modules <==> Times(s.modules, i) > 0;
        var j := HeldListedOrAwaited(s, i);
      }
      if OtherWaits(s, m, |s.removals|) {
        var j :| 0 <= j < |s.removals| && WaitsForHook(s, m, j);
        AwaitedAlive(s, j);
      }
  }

  lemma OthersStay(s: State, n: nat)
    ensures forall i :: i != n ==> (i in Without(s.modules, n) <==> i in s.modules)
  {
    forall i | i != n
      ensures i in Without(s.modules, n) <==> i in s.modules
    {
      WithoutTimes(s.modules, n, i);
      assert i in s.modules <==> Times(s.modules, i) > 0;
      assert i in Without(s.modules, n) <==> Times(Without(s.modules, n), i) > 0;
    }
  }

  /** Unregister returned after it found a module registered only once: no hook runs it, or ever will, unless it is
      registered again. */
  lemma OnlyRegistrationGone(events: seq<Event>, k: nat)
    requires var s := Run(events); k < |s.removals| && s.removals[k].Returned? && s.removals[k].found.Some?
    requires var s := Run(events); var w := s.removals[k];
             forall i :: i in s.born && s.born[i] == w.intercept ==> i == w.found.value
    ensures !CanRun(Run(events), Run(events).removals[k].intercept)
  {
    hide Run, Held;
    RunInv(events);
    var s := Run(events);
    var w := s.removals[k];
    assert RemovalFits(s, w);
    forall i | i in s.nodes
      ensures s.nodes[i].intercept != w.intercept
    {
      assert NodeFits(s, i);
    }
  }

  /** One module, in the middle of its callback. */
  const Busy: State := State(map[0 := Node(7, 2)], [0], [Hook([0], [], Some(0), [], [], 0)], [], map[0 := 7], false)

  lemma BusyReached()
    ensures Run([Register(0, 7), Snapshot({0}), CallNext(0)]) == Busy
  {
    hide Run, Held;
    var e := [Register(0, 7), Snapshot({0}), CallNext(0)];
    RunAppend([], Register(0, 7));
    RunAppend(e[..1], Snapshot({0}));
    RunAppend(e[..2], CallNext(0));
    assert e[..1] == [] + [Register(0, 7)] && e[..2] == e[..1] + [Snapshot({0})] && e == e[..2] + [CallNext(0)];
    CopyOne(Run(e[..1]).nodes, 0, {0});
  }

  /** With a second unregister of the same module at the same time, the module may still be running when that one
      returns. */
  lemma ReturnWhileRunning()
    ensures var s := Run([Register(0, 7), Snapshot({0}), CallNext(0), Unregister(7), Unregister(7)]);
            && |s.removals| == 2 && s.removals[1] == Returned(7, None)
            && |s.hooks| == 1 && s.hooks[0].running == Some(0) && CanRun(s, 7)
  {
    hide Run, Held;
    var e := [Register(0, 7), Snapshot({0}), CallNext(0), Unregister(7), Unregister(7)];
    BusyReached();
    RunAppend(e[..3], Unregister(7));
    RunAppend(e[..4], Unregister(7));
    assert e[..3] == [Register(0, 7), Snapshot({0}), CallNext(0)];
    assert e[..4] == e[..3] + [Unregister(7)] && e == e[..4] + [Unregister(7)];
    var s := Run(e);
    HeldAppend([], s.hooks[0]);
    assert s.hooks == [] + [s.hooks[0]];
    assert 0 in s.nodes && Held(s.hooks)[0] > 0;
  }

  lemma RunAppend(events: seq<Event>, e: Event)
    ensures Run(events + [e]) == Apply(Run(events), e) && Run([]) == Init
  {
    assert (events + [e])[..|events|] == events;
  }

  lemma CopyOne(nodes: map<nat, Node>, n: nat, chosen: set<nat>)
    requires n in nodes && n in chosen
    ensures Copy(nodes, [n], chosen) == (Hold(nodes, n), [n])
  {
    assert [n][1..] == [] && [n] + [] == [n];
    assert Copy(Hold(nodes, n), [], chosen) == (Hold(nodes, n), []);
  }

  // ----- What a hook calls -----

  /** `sub` is the part of `list` that lies in `chosen`: at the places `idx`, in order, and all of it. */
  ghost predicate Picks(list: seq<nat>, chosen: set<nat>, sub: seq<nat>, idx: seq<nat>) {
    && |idx| == |sub|
    && (forall j, k :: 0 <= j < k < |idx| ==> idx[j] < idx[k])
    && (forall k :: 0 <= k < |idx| ==> idx[k] < |list| && sub[k] == list[idx[k]] && sub[k] in chosen)
    && (forall i :: 0 <= i < |list| && list[i] in chosen ==> i in idx)
  }

  lemma {:induction false} CopyPicks(nodes: map<nat, Node>, list: seq<nat>, chosen: set<nat>) returns (idx: seq<nat>)
    requires forall i :: 0 <= i < |list| ==> list[i] in nodes
    ensures Picks(list, chosen, Copy(nodes, list, chosen).1, idx)
    decreases list
  {
    idx := [];
    if list != [] {
      var rest := list[1..];
      if list[0] in chosen {
        var tail := CopyPicks(Hold(nodes, list[0]), rest, chosen);
        idx := [0] + Up(tail);
        PicksCons(list, chosen, Copy(Hold(nodes, list[0]), rest, chosen).1, tail);
      } else {
        var tail := CopyPicks(nodes, rest, chosen);
        idx := Up(tail);
        PicksSkip(list, chosen, Copy(nodes, rest, chosen).1, tail);
      }
    }
  }

  ghost function Up(idx: seq<nat>): (r: seq<nat>)
    ensures |r| == |idx| && forall k :: 0 <= k < |idx| ==> r[k] == idx[k] + 1
  {
    seq(|idx|, k requires 0 <= k < |idx| => idx[k] + 1)
  }

  lemma PicksCons(list: seq<nat>, chosen: set<nat>, sub: seq<nat>, tail: seq<nat>)
    requires list != [] && list[0] in chosen && Picks(list[1..], chosen, sub, tail)
    ensures Picks(list, chosen, [list[0]] + sub, [0] + Up(tail))
  {
    hide Up;
    var idx, got := [0] + Up(tail), [list[0]] + sub;
    assert forall k :: 0 < k < |idx| ==> idx[k] == tail[k - 1] + 1 && got[k] == sub[k - 1];
    PicksPlaced(list, chosen, sub, tail, idx, got);
    forall i | 0 <= i < |list| && list[i] in chosen
      ensures i in idx
    {
      if i > 0 { PickedLater(list, chosen, sub, tail, i); } else { assert idx[0] == 0; }
    }
  }

  lemma PicksPlaced(list: seq<nat>, chosen: set<nat>, sub: seq<nat>, tail: seq<nat>, idx: seq<nat>, got: seq<nat>)
    requires list != [] && list[0] in chosen && Picks(list[1..], chosen, sub, tail)
    requires |idx| == |tail| + 1 == |got| && idx[0] == 0 && got[0] == list[0]
    requires forall k :: 0 < k < |idx| ==> idx[k] == tail[k - 1] + 1 && got[k] == sub[k - 1]
    ensures forall j, k :: 0 <= j < k < |idx| ==> idx[j] < idx[k]
    ensures forall k :: 0 <= k < |idx| ==> idx[k] < |list| && got[k] == list[idx[k]] && got[k] in chosen
  {
    forall k | 0 < k < |idx|
      ensures idx[k] < |list| && got[k] == list[idx[k]] && got[k] in chosen
    {
      assert sub[k - 1] == list[1..][tail[k - 1]];
    }
    forall j, k | 0 <= j < k < |idx|
      ensures idx[j] < idx[k]
    {
      if j > 0 { assert tail[j - 1] < tail[k - 1]; }
    }
  }

  lemma PickedLater(list: seq<nat>, chosen: set<nat>, sub: seq<nat>, tail: seq<nat>, i: nat)
    requires list != [] && Picks(list[1..], chosen, sub, tail) && 0 < i < |list| && list[i] in chosen
    ensures i in Up(tail) && i in [0] + Up(tail)
  {
    assert list[1..][i - 1] in chosen;
    var k :| 0 <= k < |tail| && tail[k] == i - 1;
    assert Up(tail)[k] == i && ([0] + Up(tail))[k + 1] == i;
  }

  lemma PicksSkip(list: seq<nat>, chosen: set<nat>, sub: seq<nat>, tail: seq<nat>)
    requires list != [] && list[0] !in chosen && Picks(list[1..], chosen, sub, tail)
    ensures Picks(list, chosen, sub, Up(tail))
  {
    forall i | 0 <= i < |list| && list[i] in chosen
      ensures i in Up(tail)
    {
      PickedLater(list, chosen, sub, tail, i);
    }
  }

  /** In every run, a hook copies exactly the listed nodes that are chosen: each once, in list order, and nothing else. */
  lemma SnapshotExact(events: seq<Event>, chosen: set<nat>) returns (idx: seq<nat>)
    ensures var s := Run(events); var s' := DoSnapshot(s, chosen);
            && |s'.hooks| == |s.hooks| + 1 && s'.hooks[..|s.hooks|] == s.hooks && s'.modules == s.modules
            && Picks(s.modules, chosen, s'.hooks[|s.hooks|].snapshot, idx)
  {
    hide Run, Held, Copy;
    RunInv(events);
    var s := Run(events);
    forall i | 0 <= i < |s.modules|
      ensures s.modules[i] in s.nodes
    {
      assert NodeFits(s, s.modules[i]);
    }
    idx := CopyPicks(s.nodes, s.modules, chosen);
  }

  /** What a hook has copied was picked from the list as it was at some snapshot of the run, and never changes. */
  lemma {:induction false} HookCopied(events: seq<Event>, k: nat) returns (p: nat, idx: seq<nat>)
    requires k < |Run(events).hooks|
    ensures p < |events| && events[p].Snapshot?
    ensures Picks(Run(events[..p]).modules, events[p].chosen, Run(events).hooks[k].snapshot, idx)
  {
    hide Apply, Picks;
    assert events != [] by { assert Run([]).hooks == []; }
    var n := |events| - 1;
    var before := events[..n];
    SnapshotStays(Run(before), events[n], k);
    if k < |Run(before).hooks| {
      p, idx := HookCopied(before, k);
      assert events[..p] == before[..p];
    } else {
      p := n;
      idx := SnapshotExact(before, events[n].chosen);
    }
  }

  lemma SnapshotStays(s: State, e: Event, k: nat)
    requires k < |Apply(s, e).hooks|
    ensures k < |s.hooks| ==> Apply(s, e).hooks[k].snapshot == s.hooks[k].snapshot
    ensures k >= |s.hooks| ==> e.Snapshot? && k == |s.hooks| && Apply(s, e) == DoSnapshot(s, e.chosen)
  {
    hide Copy, Find;
  }

  /** The nodes in the order of their registration. */
  function Registered(events: seq<Event>): seq<nat> {
    if events == [] then []
    else
      var before := Registered(events[..|events| - 1]);
      var e := events[|events| - 1];
      if e.Register? && e.node !in before then before + [e.node] else before
  }

  ghost predicate InOrder(list: seq<nat>, all: seq<nat>, idx: seq<nat>) {
    && |idx| == |list|
    && (forall j, k :: 0 <= j < k < |idx| ==> idx[j] < idx[k])
    && (forall k :: 0 <= k < |idx| ==> idx[k] < |all| && list[k] == all[idx[k]])
  }

  /** In every run the list holds its nodes in the order of their registration: a new node stands behind all others, and
      removals do not disturb the rest. */
  lemma {:induction false} ListInOrder(events: seq<Event>) returns (idx: seq<nat>)
    ensures forall n :: n in Registered(events) <==> n in Run(events).born
    ensures InOrder(Run(events).modules, Registered(events), idx)
  {
    hide Apply, InOrder, Inv;
    if events == [] {
      NothingListed();
      idx := [];
    } else {
      var before := events[..|events| - 1];
      var e := events[|events| - 1];
      idx := ListInOrder(before);
      RunInv(before);
      idx := StepInOrder(Run(before), e, Registered(before), idx);
    }
  }

  lemma NothingListed()
    ensures Run([]).born == map[] && InOrder(Run([]).modules, [], [])
  {
  }

  lemma StepInOrder(s: State, e: Event, all: seq<nat>, idx: seq<nat>) returns (idx': seq<nat>)
    requires Inv(s) && InOrder(s.modules, all, idx) && forall n :: n in all <==> n in s.born
    ensures var all' := if e.Register? && e.node !in all then all + [e.node] else all; var s' := Apply(s, e);
            (forall n :: n in all' <==> n in s'.born) && InOrder(s'.modules, all', idx')
  {
    hide Held, Copy, Find, NodeFits, RemovalsFit, HookFits, DoUnregister, InOrder;
    idx' := idx;
    if e.Register? {
      if e.node !in all { idx' := RegisterInOrder(s.modules, e.node, all, idx); }
    } else if e.Unregister? {
      idx' := UnregisterInOrder(s, e.intercept, all, idx);
    } else {
      ModulesStay(s, e);
    }
  }

  lemma RegisterInOrder(list: seq<nat>, n: nat, all: seq<nat>, idx: seq<nat>) returns (idx': seq<nat>)
    requires InOrder(list, all, idx)
    ensures InOrder(list + [n], all + [n], idx')
  {
    idx' := idx + [|all|];
  }

  lemma UnregisterInOrder(s: State, m: nat, all: seq<nat>, idx: seq<nat>) returns (idx': seq<nat>)
    requires InOrder(s.modules, all, idx)
    ensures DoUnregister(s, m).born == s.born && InOrder(DoUnregister(s, m).modules, all, idx')
  {
    hide Find, DoUnregister, InOrder;
    idx' := idx;
    FindFirst(s, s.modules, m);
    UnregisterTakes(s, m);
    var f := Find(s, s.modules, m);
    if f.Some? {
      idx' := WithoutInOrder(s.modules, f.value, all, idx);
    }
  }

  lemma UnregisterTakes(s: State, m: nat)
    ensures var s' := DoUnregister(s, m); var f := Find(s, s.modules, m);
            s'.born == s.born && s'.modules == if f.Some? then Without(s.modules, f.value) else s.modules
  {
    hide Find, Without;
  }

  lemma ModulesStay(s: State, e: Event)
    requires !e.Register? && !e.Unregister?
    ensures Apply(s, e).modules == s.modules && Apply(s, e).born == s.born
  {
    hide Copy, Or;
  }

  lemma WithoutInOrder(list: seq<nat>, n: nat, all: seq<nat>, idx: seq<nat>) returns (idx': seq<nat>)
    requires InOrder(list, all, idx) && n in list
    ensures InOrder(Without(list, n), all, idx')
  {
    hide IndexOf, Without;
    var k := IndexOf(list, n);
    WithoutFirst(list, n);
    idx' := idx[..k] + idx[k + 1..];
  }

  /** A hook calls exactly the nodes it copied, each in its turn. Its result is zero if and only if every callback that has
      returned, returned zero. */
  lemma HookOrder(events: seq<Event>, k: nat)
    requires k < |Run(events).hooks|
    ensures var h := Run(events).hooks[k];
            && h.called <= h.snapshot && (h.backup == [] && h.running == None ==> h.called == h.snapshot)
            && |h.verdicts| == |h.called|
            && (h.r == 0 <==> forall i :: 0 <= i < |h.verdicts| ==> h.verdicts[i] == 0)
  {
    hide Run, Held, NodeFits, OrAll;
    RunInv(events);
    assert HookFits(Run(events).hooks[k]);
    OrAllZero(Run(events).hooks[k].verdicts);
  }
}
