/** Parent, child and sibling pointers (kernel/fork.c, kernel/exit.c). */
module Family {
  import opened Collections
  import opened Forests

  const NR_TASKS: int := 64
  const TASK_RUNNING: int := 0
  const TASK_INTERRUPTIBLE: int := 1
  const TASK_ZOMBIE: int := 3
  const TASK_STOPPED: int := 4
  const WNOHANG: int := 1
  const WUNTRACED: int := 2

  /** The part of the task structure that matters here. */
  class Task {
    var pptr: Task?      // parent
    var cptr: Task?      // youngest child
    var ysptr: Task?     // next younger sibling
    var osptr: Task?     // next older sibling
    var state: int
    const pid: int
    const pgrp: int
    var exitCode: int

    constructor (pid: int, pgrp: int)
      ensures pptr == cptr == ysptr == osptr == null && state == TASK_RUNNING
      ensures this.pid == pid && this.pgrp == pgrp && exitCode == 0
    {
      pptr, cptr, ysptr, osptr := null, null, null, null;
      state, this.pid, this.pgrp, exitCode := TASK_RUNNING, pid, pgrp, 0;
    }
  }

  /** The pointers of one task, as a value. */
  datatype Node = Node(p: Task?, c: Task?, y: Task?, o: Task?, zombie: bool)

  type Nodes = map<Task, Node>

  function At(s: seq<Task>, i: int): Task? { if 0 <= i < |s| then s[i] else null }

  ghost predicate LinkOk(nodes: Nodes, t: Task, s: seq<Task>, i: int)
    requires 0 <= i < |s|
  {
    s[i] in nodes && nodes[s[i]].p == t && nodes[s[i]].o == At(s, i + 1) && nodes[s[i]].y == At(s, i - 1)
  }

  /** The pointers spell `s` as the list of the children of `t`. */
  ghost predicate ListOk(nodes: Nodes, t: Task, s: seq<Task>) {
    && t in nodes && nodes[t].c == At(s, 0)
    && forall i :: 0 <= i < |s| ==> LinkOk(nodes, t, s, i)
  }

  /** The pointers of all tasks spell the family `f`. */
  ghost predicate Spells(nodes: Nodes, f: Forest<Task>) {
    && nodes.Keys == f.kids.Keys
    && (forall t :: t in f.kids ==> ListOk(nodes, t, f.kids[t]))
    && (forall t :: t in f.kids ==> (nodes[t].zombie <==> t in f.dead))
  }

  /** Nothing points to a task that is not there. */
  ghost predicate NoDangling(nodes: Nodes, idle: Task) {
    forall t :: t in nodes ==>
      && (nodes[t].c == null || nodes[t].c in nodes)
      && (t != idle ==> nodes[t].p != null && nodes[t].p in nodes)
      && (t != idle ==> (nodes[t].y == null || nodes[t].y in nodes) && (nodes[t].o == null || nodes[t].o in nodes))
  }

  // ------------------------------------------------------------ the updates

  function Linked(nodes: Nodes, t: Task, c: Task): Nodes
    requires t in nodes && (nodes[t].c != null ==> nodes[t].c in nodes)
  {
    var head := nodes[t].c;
    var n1 := nodes[c := Node(t, null, null, head, false)];
    var n2 := if head != null then n1[head := n1[head].(y := c)] else n1;
    n2[t := n2[t].(c := c)]
  }

  lemma LinkedSpells(nodes: Nodes, f: Forest<Task>, t: Task, c: Task)
    requires Spells(nodes, f) && t in f.kids && c !in f.kids && c !in f.dead && t !in f.kids[t]
    requires forall u :: u in f.kids ==> ChildrenOk(f, u)
    ensures nodes[t].c != null ==> nodes[t].c in nodes
    ensures Spells(Linked(nodes, t, c), Births(f, t, c))
  {
    assert ListOk(nodes, t, f.kids[t]) && ChildrenOk(f, t);
    if f.kids[t] != [] { assert LinkOk(nodes, t, f.kids[t], 0); }
    var n, g := Linked(nodes, t, c), Births(f, t, c);
    forall u | u in g.kids ensures ListOk(n, u, g.kids[u]) {
      if u == t {
        LinkedHead(nodes, f, t, c);
      } else if u != c {
        assert ChildrenOk(f, u) && ListOk(nodes, u, f.kids[u]);
        LinkedOther(nodes, f, t, c, u);
      }
    }
  }

  lemma LinkedHead(nodes: Nodes, f: Forest<Task>, t: Task, c: Task)
    requires t in f.kids && c !in f.kids && nodes.Keys == f.kids.Keys && ListOk(nodes, t, f.kids[t]) && ChildrenOk(f, t)
    requires nodes[t].c != null ==> nodes[t].c in nodes
    requires t !in f.kids[t]
    ensures ListOk(Linked(nodes, t, c), t, [c] + f.kids[t])
  {
    var n, s, s' := Linked(nodes, t, c), f.kids[t], [c] + f.kids[t];
    forall i | 0 <= i < |s'| ensures LinkOk(n, t, s', i) {
      if i > 0 {
        assert s'[i] == s[i - 1] && LinkOk(nodes, t, s, i - 1);
        assert i > 1 ==> s[i - 1] != s[0];
        assert At(s', i + 1) == At(s, i);
      }
    }
  }

  lemma LinkedOther(nodes: Nodes, f: Forest<Task>, t: Task, c: Task, u: Task)
    requires t in f.kids && u in f.kids && u != t && c !in f.kids && nodes.Keys == f.kids.Keys
    requires ListOk(nodes, u, f.kids[u]) && ListOk(nodes, t, f.kids[t]) && ChildrenOk(f, u) && ChildrenOk(f, t)
    requires nodes[t].c != null ==> nodes[t].c in nodes
    ensures ListOk(Linked(nodes, t, c), u, f.kids[u])
  {
    var n, s := Linked(nodes, t, c), f.kids[u];
    assert forall x :: x in s ==> x !in f.kids[t];
    forall i | 0 <= i < |s| ensures LinkOk(n, u, s, i) {
      assert s[i] in s && LinkOk(nodes, u, s, i);
      assert nodes[t].c != null ==> nodes[t].c in f.kids[t];
    }
  }

  /** The children `s` of `t` are put in front of the children `r` of `init`; `t` is a zombie. */
  function Adopted(nodes: Nodes, t: Task, init: Task, s: seq<Task>, r: seq<Task>): Nodes
    requires s != [] ==> r != []
  {
    map x | x in nodes ::
      var n := nodes[x];
      Node(if x in s then init else n.p,
           if x == t then null else if s != [] && x == init then s[0] else n.c,
           if s != [] && x == r[0] then s[|s| - 1] else n.y,
           if s != [] && x == s[|s| - 1] then r[0] else n.o,
           n.zombie || x == t)
  }

  lemma AdoptedSpells(nodes: Nodes, f: Forest<Task>, idle: Task, init: Task, t: Task)
    requires Spells(nodes, f) && Proper(f, idle, init) && t in f.kids && t != idle && t != init
    ensures f.kids[init] != []
    ensures Spells(Adopted(nodes, t, init, f.kids[t], f.kids[init]), Death(f, t, init))
  {
    InitHasChild(f, idle, init, t);
    var s, r := f.kids[t], f.kids[init];
    var n, g := Adopted(nodes, t, init, s, r), Death(f, t, init);
    assert ChildrenOk(f, t) && ChildrenOk(f, init) && ListOk(nodes, t, s) && ListOk(nodes, init, r);
    forall u | u in g.kids ensures ListOk(n, u, g.kids[u]) {
      assert ListOk(nodes, u, f.kids[u]) && ChildrenOk(f, u);
      if u == init {
        AdoptedInit(nodes, f, init, t);
      } else if u != t {
        AdoptedOther(nodes, f, init, t, u);
      }
    }
  }

  lemma AdoptedInit(nodes: Nodes, f: Forest<Task>, init: Task, t: Task)
    requires nodes.Keys == f.kids.Keys && t in f.kids && init in f.kids && t != init && f.kids[init] != []
    requires ListOk(nodes, t, f.kids[t]) && ListOk(nodes, init, f.kids[init]) && ChildrenOk(f, t) && ChildrenOk(f, init)
    ensures ListOk(Adopted(nodes, t, init, f.kids[t], f.kids[init]), init, f.kids[t] + f.kids[init])
  {
    var s, r := f.kids[t], f.kids[init];
    var n, sr := Adopted(nodes, t, init, s, r), s + r;
    assert forall x :: x in s ==> x !in r;
    forall i | 0 <= i < |sr| ensures LinkOk(n, init, sr, i) {
      if i < |s| {
        assert sr[i] == s[i] && s[i] in s && LinkOk(nodes, t, s, i);
        assert i < |s| - 1 ==> s[i] != s[|s| - 1];
        assert At(sr, i - 1) == At(s, i - 1);
        assert At(sr, i + 1) == if i == |s| - 1 then r[0] else At(s, i + 1);
      } else {
        var j := i - |s|;
        assert sr[i] == r[j] && r[j] in r && LinkOk(nodes, init, r, j);
        assert j > 0 ==> r[j] != r[0];
        assert At(sr, i + 1) == At(r, j + 1);
        assert At(sr, i - 1) == if j == 0 then At(s, |s| - 1) else At(r, j - 1);
      }
    }
  }

  lemma AdoptedOther(nodes: Nodes, f: Forest<Task>, init: Task, t: Task, u: Task)
    requires nodes.Keys == f.kids.Keys && t in f.kids && init in f.kids && u in f.kids && u != t && u != init
      && f.kids[init] != []
    requires ListOk(nodes, u, f.kids[u]) && ChildrenOk(f, u) && ChildrenOk(f, t) && ChildrenOk(f, init)
    ensures ListOk(Adopted(nodes, t, init, f.kids[t], f.kids[init]), u, f.kids[u])
  {
    var s, r, k := f.kids[t], f.kids[init], f.kids[u];
    assert forall x :: x in k ==> x !in s && x !in r;
    forall i | 0 <= i < |k| ensures LinkOk(Adopted(nodes, t, init, s, r), u, k, i) {
      assert k[i] in k && LinkOk(nodes, u, k, i);
      assert r[0] in r && (s != [] ==> s[|s| - 1] in s);
    }
  }

  /** Task 1 is a zombie, its children `s` form a ring, and no pointer leads to them. */
  function Forgotten(nodes: Nodes, init: Task, s: seq<Task>): Nodes {
    map x | x in nodes ::
      var n := nodes[x];
      Node(n.p, if x == init then null else n.c,
           if s != [] && x == s[0] then s[|s| - 1] else n.y,
           if s != [] && x == s[|s| - 1] then s[0] else n.o,
           n.zombie || x == init)
  }

  lemma FirstFacts(nodes: Nodes, f: Forest<Task>, idle: Task, init: Task)
    requires Proper(f, idle, init) && Spells(nodes, f)
    ensures init in nodes && nodes.Keys == f.kids.Keys && ListOk(nodes, init, f.kids[init])
    ensures NoDup(f.kids[init]) && init !in f.kids[init]
  {
    NotOwnChild(f, idle, init, init);
    assert ChildrenOk(f, init);
  }

  /** The family with task 1 dead, as it should be. */
  function FirstDead(f: Forest<Task>, init: Task): Forest<Task> { f.(dead := f.dead + {init}) }

  /** What is left of it when the children of task 1 are in nobody's list. */
  function FirstLost(f: Forest<Task>, init: Task): Forest<Task> { FirstDead(f, init).(kids := f.kids[init := []]) }

  /** After the end of task 1 its children are in nobody's list, and the lists of the others are as before;
      so the pointers still spell the family exactly when it had no children. */
  lemma FirstExitSpellsIff(nodes: Nodes, f: Forest<Task>, idle: Task, init: Task)
    requires Proper(f, idle, init) && Spells(nodes, f)
    ensures init in f.kids
    ensures var n := Forgotten(nodes, init, f.kids[init]);
      Spells(n, FirstLost(f, init)) && (Spells(n, FirstDead(f, init)) <==> f.kids[init] == [])
  {
    hide Proper, ListOk, Forgotten;
    FirstFacts(nodes, f, idle, init);
    FirstExitSpells(nodes, f, idle, init);
    ForgottenHead(nodes, init, f.kids[init]);
    var n := Forgotten(nodes, init, f.kids[init]);
    if f.kids[init] == [] {
      assert f.kids[init := []] == f.kids;
      assert FirstLost(f, init) == FirstDead(f, init);
    } else if Spells(n, FirstDead(f, init)) {
      ListEnds(n, init, FirstDead(f, init).kids[init]);
    }
  }

  lemma FirstExitSpells(nodes: Nodes, f: Forest<Task>, idle: Task, init: Task)
    requires Proper(f, idle, init) && Spells(nodes, f)
    ensures init in f.kids && Spells(Forgotten(nodes, init, f.kids[init]), FirstLost(f, init))
  {
    hide Proper, ListOk, ChildrenOk, Forgotten;
    FirstFacts(nodes, f, idle, init);
    FirstExitLists(nodes, f, idle, init);
    ForgottenFlags(nodes, init, f.kids[init]);
    var n, lost := Forgotten(nodes, init, f.kids[init]), FirstLost(f, init);
    assert lost.kids.Keys == f.kids.Keys;
  }

  lemma FirstExitLists(nodes: Nodes, f: Forest<Task>, idle: Task, init: Task)
    requires Proper(f, idle, init) && Spells(nodes, f)
    ensures init in f.kids
    ensures forall u :: u in f.kids ==>
      ListOk(Forgotten(nodes, init, f.kids[init]), u, FirstLost(f, init).kids[u])
  {
    FirstFacts(nodes, f, idle, init);
    forall u | u in f.kids
      ensures ListOk(Forgotten(nodes, init, f.kids[init]), u, FirstLost(f, init).kids[u])
    {
      assert ChildrenOk(f, u) && ChildrenOk(f, init) && ListOk(nodes, u, f.kids[u]);
      hide Proper, ListOk, ChildrenOk, Forgotten, Spells;
      ForgottenList(nodes, f, init, u);
    }
  }

  lemma ForgottenHead(nodes: Nodes, init: Task, s: seq<Task>)
    requires init in nodes
    ensures init in Forgotten(nodes, init, s) && Forgotten(nodes, init, s)[init].c == null
  {
  }

  lemma ForgottenFlags(nodes: Nodes, init: Task, s: seq<Task>)
    ensures Forgotten(nodes, init, s).Keys == nodes.Keys
    ensures forall x :: x in nodes ==> (Forgotten(nodes, init, s)[x].zombie <==> nodes[x].zombie || x == init)
  {
  }

  /** None of the children of task 1 is in a list any more. */
  lemma FirstExitLoses(f: Forest<Task>, idle: Task, init: Task, c: Task, u: Task)
    requires Proper(f, idle, init) && c in f.kids[init] && u in f.kids
    ensures c !in FirstLost(f, init).kids[u]
  {
    assert ChildrenOk(f, u) && ChildrenOk(f, init);
  }

  lemma ForgottenList(nodes: Nodes, f: Forest<Task>, init: Task, u: Task)
    requires init in f.kids && u in f.kids && init in nodes && ListOk(nodes, u, f.kids[u])
    requires ChildrenOk(f, u) && ChildrenOk(f, init)
    ensures ListOk(Forgotten(nodes, init, f.kids[init]), u, f.kids[init := []][u])
  {
    if u != init { ForgottenOther(nodes, f, init, u); }
  }

  lemma ForgottenOther(nodes: Nodes, f: Forest<Task>, init: Task, u: Task)
    requires init in f.kids && u in f.kids && u != init && ListOk(nodes, u, f.kids[u])
    requires ChildrenOk(f, u) && ChildrenOk(f, init)
    ensures ListOk(Forgotten(nodes, init, f.kids[init]), u, f.kids[u])
  {
    var s, k := f.kids[init], f.kids[u];
    assert forall x :: x in k ==> x !in s;
    forall i | 0 <= i < |k|
      ensures LinkOk(Forgotten(nodes, init, s), u, k, i)
    {
      assert k[i] in k && LinkOk(nodes, u, k, i);
      assert s != [] ==> s[0] in s && s[|s| - 1] in s;
    }
  }

  /** `t` is taken out of the list of its parent, and away. */
  function Unlinked(nodes: Nodes, t: Task): Nodes
    requires t in nodes && nodes[t].p != null && nodes[t].p in nodes
    requires (nodes[t].o != null ==> nodes[t].o in nodes) && (nodes[t].y != null ==> nodes[t].y in nodes)
  {
    var n := nodes[t];
    var n1 := if n.o != null then nodes[n.o := nodes[n.o].(y := n.y)] else nodes;
    var n2 := if n.y != null then n1[n.y := n1[n.y].(o := n.o)] else n1[n.p := n1[n.p].(c := n.o)];
    n2 - {t}
  }

  /** Where a zombie stands among the children of its parent. */
  lemma PlaceOf(nodes: Nodes, f: Forest<Task>, idle: Task, init: Task, t: Task) returns (p: Task, k: int)
    requires Spells(nodes, f) && Proper(f, idle, init) && t in f.dead
    ensures t in f.parent && p == f.parent[t] && p in f.kids && p in nodes && t in nodes && p != t
    ensures 0 <= k < |f.kids[p]| && f.kids[p][k] == t
    ensures nodes[t].p == p && nodes[t].o == At(f.kids[p], k + 1) && nodes[t].y == At(f.kids[p], k - 1)
    ensures k + 1 < |f.kids[p]| ==> f.kids[p][k + 1] in nodes && nodes[f.kids[p][k + 1]].p == p
    ensures k > 0 ==> f.kids[p][k - 1] in nodes && nodes[f.kids[p][k - 1]].p == p
  {
    p := ParentOf(f, idle, init, t);
    assert ListOk(nodes, p, f.kids[p]);
    k := PlaceIn(nodes, p, f.kids[p], t);
  }

  lemma PlaceIn(nodes: Nodes, p: Task, s: seq<Task>, t: Task) returns (k: int)
    requires ListOk(nodes, p, s) && t in s
    ensures 0 <= k < |s| && s[k] == t && t in nodes
    ensures nodes[t].p == p && nodes[t].o == At(s, k + 1) && nodes[t].y == At(s, k - 1)
    ensures k + 1 < |s| ==> s[k + 1] in nodes && nodes[s[k + 1]].p == p
    ensures k > 0 ==> s[k - 1] in nodes && nodes[s[k - 1]].p == p
  {
    k :| 0 <= k < |s| && s[k] == t;
    assert LinkOk(nodes, p, s, k);
    if k > 0 { assert LinkOk(nodes, p, s, k - 1); }
    if k + 1 < |s| { assert LinkOk(nodes, p, s, k + 1); }
  }

  lemma UnlinkedSpells(nodes: Nodes, f: Forest<Task>, idle: Task, init: Task, t: Task)
    requires Spells(nodes, f) && Proper(f, idle, init) && t in f.dead
    ensures nodes[t].p != null && nodes[t].p in nodes
    ensures (nodes[t].o != null ==> nodes[t].o in nodes) && (nodes[t].y != null ==> nodes[t].y in nodes)
    ensures t in f.parent && f.parent[t] in f.kids && Spells(Unlinked(nodes, t), Burial(f, t))
  {
    var p, k := PlaceOf(nodes, f, idle, init, t);
    assert ChildrenOk(f, p);
    UnlinkedLists(nodes, f, t, p, k);
  }

  lemma UnlinkedLists(nodes: Nodes, f: Forest<Task>, t: Task, p: Task, k: int)
    requires Spells(nodes, f) && t in f.parent && p == f.parent[t] && p in f.kids && p != t && ChildrenOk(f, p)
      && t in f.kids
    requires 0 <= k < |f.kids[p]| && f.kids[p][k] == t
    requires nodes[t].p == p && nodes[t].o == At(f.kids[p], k + 1) && nodes[t].y == At(f.kids[p], k - 1)
    requires k + 1 < |f.kids[p]| ==> f.kids[p][k + 1] in nodes && nodes[f.kids[p][k + 1]].p == p
    requires k > 0 ==> f.kids[p][k - 1] in nodes && nodes[f.kids[p][k - 1]].p == p
    ensures Spells(Unlinked(nodes, t), Burial(f, t))
  {
    hide ListOk, Without, Unlinked, ChildrenOk;
    UnlinkedFlags(nodes, t);
    var n, g := Unlinked(nodes, t), Burial(f, t);
    forall u | u in g.kids ensures ListOk(n, u, g.kids[u]) {
      UnlinkedList(nodes, f, t, p, k, u);
    }
  }

  lemma UnlinkedFlags(nodes: Nodes, t: Task)
    requires t in nodes && nodes[t].p != null && nodes[t].p in nodes && nodes[t].p != t
    requires (nodes[t].o != null ==> nodes[t].o in nodes) && (nodes[t].y != null ==> nodes[t].y in nodes)
    ensures Unlinked(nodes, t).Keys == nodes.Keys - {t}
    ensures forall u :: u in Unlinked(nodes, t) ==> Unlinked(nodes, t)[u].zombie == nodes[u].zombie
  {
  }

  lemma UnlinkedList(nodes: Nodes, f: Forest<Task>, t: Task, p: Task, k: int, u: Task)
    requires Spells(nodes, f) && p in f.kids && p != t && ChildrenOk(f, p) && u in f.kids && u != t
    requires 0 <= k < |f.kids[p]| && f.kids[p][k] == t && t in nodes
    requires nodes[t].p == p && nodes[t].o == At(f.kids[p], k + 1) && nodes[t].y == At(f.kids[p], k - 1)
    requires k + 1 < |f.kids[p]| ==> f.kids[p][k + 1] in nodes && nodes[f.kids[p][k + 1]].p == p
    requires k > 0 ==> f.kids[p][k - 1] in nodes && nodes[f.kids[p][k - 1]].p == p
    ensures ListOk(Unlinked(nodes, t), u, if u == p then Without(f.kids[p], t) else f.kids[u])
  {
    hide ListOk, Unlinked, Without;
    WithoutLaws(f.kids[p], t);
    assert ListOk(nodes, u, f.kids[u]);
    if u == p {
      UnlinkedParent(nodes, p, f.kids[p], k);
    } else {
      UnlinkedOther(nodes, p, f.kids[p], k, u, f.kids[u]);
    }
  }

  lemma UnlinkedParent(nodes: Nodes, p: Task, s: seq<Task>, k: int)
    requires ListOk(nodes, p, s) && NoDup(s) && 0 <= k < |s| && p != s[k]
    requires s[k] in nodes && nodes[s[k]].p == p && nodes[s[k]].o == At(s, k + 1) && nodes[s[k]].y == At(s, k - 1)
    requires (k + 1 < |s| ==> s[k + 1] in nodes) && (k > 0 ==> s[k - 1] in nodes)
    ensures ListOk(Unlinked(nodes, s[k]), p, s[..k] + s[k + 1..])
  {
    var n, r := Unlinked(nodes, s[k]), s[..k] + s[k + 1..];
    forall i | 0 <= i < |r| ensures LinkOk(n, p, r, i) {
      var j := if i < k then i else i + 1;
      assert r[i] == s[j] && LinkOk(nodes, p, s, j);
      assert At(r, i + 1) == if i + 1 < k then At(s, j + 1) else At(s, i + 2);
      assert At(r, i - 1) == if i <= k then At(s, i - 1) else At(s, i);
      assert j != k && s[j] != s[k];
      assert forall m :: 0 <= m < |s| && m != j ==> s[m] != s[j];
    }
  }

  lemma UnlinkedOther(nodes: Nodes, p: Task, s: seq<Task>, k: int, u: Task, r: seq<Task>)
    requires ListOk(nodes, u, r) && 0 <= k < |s| && u != p && u != s[k] && p in nodes
    requires s[k] in nodes && nodes[s[k]].p == p && nodes[s[k]].o == At(s, k + 1) && nodes[s[k]].y == At(s, k - 1)
    requires (k + 1 < |s| ==> s[k + 1] in nodes && nodes[s[k + 1]].p == p)
      && (k > 0 ==> s[k - 1] in nodes && nodes[s[k - 1]].p == p)
    ensures ListOk(Unlinked(nodes, s[k]), u, r)
  {
    var n := Unlinked(nodes, s[k]);
    forall i | 0 <= i < |r| ensures LinkOk(n, u, r, i) {
      assert LinkOk(nodes, u, r, i);
    }
  }

  lemma SpellsNoDangling(nodes: Nodes, f: Forest<Task>, idle: Task, init: Task)
    requires Spells(nodes, f) && Proper(f, idle, init)
    ensures NoDangling(nodes, idle)
  {
    forall t | t in nodes
      ensures nodes[t].c == null || nodes[t].c in nodes
      ensures t != idle ==> nodes[t].p != null && nodes[t].p in nodes
      ensures t != idle ==> (nodes[t].y == null || nodes[t].y in nodes) && (nodes[t].o == null || nodes[t].o in nodes)
    {
      assert ListOk(nodes, t, f.kids[t]);
      if f.kids[t] != [] { assert LinkOk(nodes, t, f.kids[t], 0); }
      if t != idle {
        var p := if t == init then idle else f.parent[t];
        assert t != init ==> PlaceOk(f, idle, init, t);
        assert ListOk(nodes, p, f.kids[p]);
        var k := PlaceIn(nodes, p, f.kids[p], t);
      }
    }
  }

  // ------------------------------------------------------- the code, in place

  /** What `sys_waitpid` answers, with the status it stores. */
  datatype WaitResult = Stopped(pid: int, status: int) | Reaped(pid: int, status: int) | WouldBlock | NoHang | NoChild

  /** The task table holds exactly the tasks of the family, each once. */
  ghost predicate TableOk(table: seq<Task?>, slot: map<Task, int>, tasks: set<Task>, idle: Task, init: Task) {
    && |table| == NR_TASKS && slot.Keys == tasks
    && table[0] == idle && table[1] == init
    && (forall t :: t in slot ==> 0 <= slot[t] < NR_TASKS && table[slot[t]] == t)
    && (forall i :: 0 <= i < NR_TASKS && table[i] != null ==> table[i] in slot && slot[table[i]] == i)
  }

  lemma TableGains(table: seq<Task?>, slot: map<Task, int>, tasks: set<Task>, idle: Task, init: Task, t: Task, nr: int)
    requires TableOk(table, slot, tasks, idle, init) && t !in tasks && 0 <= nr < NR_TASKS && table[nr] == null
    ensures TableOk(table[nr := t], slot[t := nr], tasks + {t}, idle, init)
  {
  }

  lemma TableLoses(table: seq<Task?>, slot: map<Task, int>, tasks: set<Task>, idle: Task, init: Task, t: Task)
    requires TableOk(table, slot, tasks, idle, init) && t in tasks && t != idle && t != init
    ensures 2 <= slot[t] < NR_TASKS
    ensures TableOk(table[slot[t] := null], slot - {t}, tasks - {t}, idle, init)
  {
  }

  /** Which children a `waitpid` call with argument `pid` is about. */
  predicate Wanted(p: Task, current: Task, pid: int) {
    if pid > 0 then p.pid == pid
    else if pid == 0 then p.pgrp == current.pgrp
    else if pid != -1 then p.pgrp == -pid
    else true
  }

  predicate Ready(p: Task, current: Task, pid: int, options: nat)
    reads p
  {
    Wanted(p, current, pid) &&
    (p.state == TASK_ZOMBIE || (p.state == TASK_STOPPED && options / 2 % 2 == 1 && p.exitCode != 0))
  }

  predicate Alive(p: Task, current: Task, pid: int)
    reads p
  {
    Wanted(p, current, pid) && p.state != TASK_ZOMBIE && p.state != TASK_STOPPED
  }

  class Tasks {
    const table: array<Task?>
    const idle: Task
    const init: Task
    ghost var f: Forest<Task>
    ghost var slot: map<Task, int>

    ghost predicate Valid()
      reads this, table, f.kids.Keys
    {
      && table.Length == NR_TASKS
      && Proper(f, idle, init) && Spells(NodesOf(f.kids.Keys), f)
      && TableOk(table[..], slot, f.kids.Keys, idle, init)
    }

    /** The idle task and its one child. */
    constructor ()
      ensures Valid() && fresh(table) && fresh(f.kids.Keys)
    {
      var i0, i1 := FirstTasks();
      idle, init := i0, i1;
      var slots := FirstTable(i0, i1);
      table := slots;
      f := BootForest(i0, i1);
      slot := map[i0 := 0, i1 := 1];
      new;
      hide Proper, Spells, NodesOf, TableOk, BootForest;
      BootProper(NodesOf({idle, init}), idle, init);
      BootKeys(idle, init);
    }

    /** Links a new child in front of the children of `current`. */
    method Fork(current: Task, nr: int, pid: int) returns (p: Task)
      requires Valid() && current in f.kids && current != idle && current !in f.dead
      requires 1 <= nr < NR_TASKS && table[nr] == null
      modifies this, table, current, f.kids[current]
      ensures Valid() && fresh(p) && table[..] == old(table[..])[nr := p]
      ensures f == Births(old(f), current, p) && slot == old(slot)[p := nr]
      ensures p.pid == pid && p.pgrp == current.pgrp && p.state == TASK_RUNNING
    {
      hide Proper, Spells, TableOk, NodesOf;
      p := new Task(pid, current.pgrp);
      Insert(current, p, nr);
    }

    method Insert(current: Task, p: Task, nr: int)
      requires Valid() && current in f.kids && current != idle && current !in f.dead && p !in f.kids
      requires 1 <= nr < NR_TASKS && table[nr] == null && p.state == TASK_RUNNING
      modifies this, table, current, f.kids[current], p
      ensures Valid() && table[..] == old(table[..])[nr := p] && p.state == TASK_RUNNING
      ensures f == Births(old(f), current, p) && slot == old(slot)[p := nr]
    {
      hide Proper, Spells, Linked, TableOk, NodesOf;
      ghost var ts, f0 := f.kids.Keys, f;
      ghost var nodes := NodesOf(ts);
      ForkFacts(nodes, f0, table[..], slot, idle, init, current, p, nr);
      NodesOfAt(ts, current);
      table[nr] := p;
      assert table[..] == old(table[..])[nr := p];
      slot := slot[p := nr];
      f := Births(f0, current, p);
      assert f.kids.Keys == ts + {p};
      assert NodesOf(ts) == nodes;
      LinkChild(current, p, ts);
    }

    /** `do_exit`: the task becomes a zombie and init inherits its children. */
    method Exit(current: Task, code: int)
      requires Valid() && current in f.kids && current != idle && current != init
      modifies this, current, init, f.kids[current], f.kids[init]
      ensures Valid() && slot == old(slot)
      ensures f == Death(old(f), current, init) && current.exitCode == code
    {
      hide Proper, Spells, TableOk, NodesOf, Adopted, ListOk;
      ghost var ts, f0, nodes := f.kids.Keys, f, NodesOf(f.kids.Keys);
      ExitFacts(nodes, f0, idle, init, current);
      NodesOfKeys(ts);
      f := Death(f0, current, init);
      assert NodesOf(ts) == nodes;
      BecomeOrphan(current, init, ts, f0.kids[current], f0.kids[init]);
      assert f.kids.Keys == ts;
      ghost var after := NodesOf(ts);
      SetExitCode(current, code, ts);
      assert NodesOf(ts) == after;
    }

    /** `do_exit` of task 1 itself: it inherits its own children, which ties their list into a ring, and
        then forgets them. */
    method ExitFirst(code: int)
      requires Valid()
      modifies init, f.kids[init]
      ensures f == old(f) && init.exitCode == code
      ensures NodesOf(f.kids.Keys) == Forgotten(old(NodesOf(f.kids.Keys)), init, f.kids[init])
    {
      ghost var ts, s := f.kids.Keys, f.kids[init];
      hide Proper, Spells, TableOk, NodesOf, ListOk, Forgotten;
      FirstFacts(NodesOf(ts), f, idle, init);
      TieAndForget(init, ts, s);
      ghost var after := NodesOf(ts);
      SetExitCode(init, code, ts);
      assert NodesOf(ts) == after;
    }

    /** The scan of `sys_waitpid` over the children, youngest first, up to the first one
        that is a zombie, or stopped and not yet reported. */
    method ScanChildren(current: Task, pid: int, options: nat) returns (p: Task?, flag: bool, ghost k: nat)
      requires Valid() && current in f.kids
      ensures k <= |f.kids[current]| && p == At(f.kids[current], k)
      ensures forall i :: 0 <= i < k ==> !Ready(f.kids[current][i], current, pid, options)
      ensures p != null ==> Ready(p, current, pid, options)
      ensures flag <==> exists i :: 0 <= i < k && Alive(f.kids[current][i], current, pid)
      ensures p != null && pid > 0 ==> p.pid == pid
      ensures p != null && pid == 0 ==> p.pgrp == current.pgrp
      ensures p != null && pid < -1 ==> p.pgrp == -pid
      ensures p != null ==> p.state == TASK_ZOMBIE || p.state == TASK_STOPPED
      ensures forall c :: c in f.kids[current] && c.state == TASK_ZOMBIE ==>
        && (pid == -1 ==> p != null) && (pid > 0 && c.pid == pid ==> p != null)
        && (pid == 0 && c.pgrp == current.pgrp ==> p != null) && (pid < -1 && c.pgrp == -pid ==> p != null)
      ensures pid == -1 ==> (p == null && !flag <==> forall c :: c in f.kids[current] ==>
        c.state == TASK_STOPPED && !(options / 2 % 2 == 1 && c.exitCode != 0))
    {
      hide Proper, Spells, TableOk, NodesOf;
      ghost var s := f.kids[current];
      ChildChain(current);
      flag := false;
      k := 0;
      p := current.cptr;
      while p != null
        invariant 0 <= k <= |s| && p == At(s, k)
        invariant forall i :: 0 <= i < k ==> !Ready(s[i], current, pid, options)
        invariant flag <==> exists i :: 0 <= i < k && Alive(s[i], current, pid)
        decreases |s| - k
      {
        if Wanted(p, current, pid) {
          if p.state == TASK_STOPPED {
            if options / 2 % 2 == 1 && p.exitCode != 0 { return; }
          } else if p.state == TASK_ZOMBIE {
            return;
          } else {
            flag := true;
            assert Alive(s[k], current, pid);
          }
        }
        p := p.osptr;
        k := k + 1;
      }
    }

    /** One pass of `sys_waitpid`: child number `k` is the first that is ready; a zombie is
        reaped, a stopped child reported, and without either the other children decide. */
    method WaitPass(current: Task, pid: int, options: nat) returns (r: WaitResult, ghost k: nat)
      requires Valid() && current in f.kids
      modifies this, table, f.kids.Keys
      ensures Valid() && k <= |old(f.kids[current])|
      ensures forall i :: 0 <= i < k ==> !old(Ready(f.kids[current][i], current, pid, options))
      ensures k < |old(f.kids[current])| ==>
        && old(Ready(f.kids[current][k], current, pid, options))
        && (old(f.kids[current][k].state) == TASK_STOPPED ==>
              && r == Stopped(old(f.kids[current])[k].pid, old(f.kids[current][k].exitCode) * 256 + 0x7f)
              && old(f.kids[current])[k].exitCode == 0 && f == old(f))
        && (old(f.kids[current][k].state) == TASK_ZOMBIE ==>
              && r == Reaped(old(f.kids[current])[k].pid, old(f.kids[current][k].exitCode))
              && f == Burial(old(f), old(f.kids[current])[k]))
      ensures k == |old(f.kids[current])| ==>
        && f == old(f)
        && (r == NoChild <==> forall i :: 0 <= i < k ==> !old(Alive(f.kids[current][i], current, pid)))
        && (r != NoChild ==> r == if options % 2 == WNOHANG then NoHang else WouldBlock)
      ensures r.Reaped? || r.Stopped? <==> k < |old(f.kids[current])|
      ensures (r.Reaped? || r.Stopped?) && pid > 0 ==> r.pid == pid
      ensures (r.Reaped? || r.Stopped?) && pid == 0 ==> old(f.kids[current])[k].pgrp == current.pgrp
      ensures (r.Reaped? || r.Stopped?) && pid < -1 ==> old(f.kids[current])[k].pgrp == -pid
      ensures forall c :: c in old(f.kids[current]) && c in old(f.dead) ==>
        && (pid == -1 ==> r.Reaped? || r.Stopped?) && (pid > 0 && c.pid == pid ==> r.Reaped? || r.Stopped?)
        && (pid == 0 && c.pgrp == current.pgrp ==> r.Reaped? || r.Stopped?)
          && (pid < -1 && c.pgrp == -pid ==> r.Reaped? || r.Stopped?)
      ensures pid == -1 ==> (r == NoChild <==> forall c :: c in old(f.kids[current]) ==>
        old(c.state) == TASK_STOPPED && !(options / 2 % 2 == 1 && old(c.exitCode) != 0))
    {
      hide Proper, Spells, TableOk, NodesOf, Burial;
      var p, flag;
      p, flag, k := ScanChildren(current, pid, options);
      ChildChain(current);
      if p == null {
        r := if !flag then NoChild else if options % 2 == WNOHANG then NoHang else WouldBlock;
        return;
      }
      assert Ready(f.kids[current][k], current, pid, options);
      if p.state == TASK_STOPPED {
        r := Stopped(p.pid, p.exitCode * 256 + 0x7f);
        Report(p);
        return;
      }
      r := Reaped(p.pid, p.exitCode);
      ReleaseChild(p);
    }

    method Report(p: Task)
      requires Valid() && p in f.kids
      modifies p`exitCode
      ensures Valid() && p.exitCode == 0
    {
      hide Proper, Spells, TableOk;
      ghost var nodes := NodesOf(f.kids.Keys);
      p.exitCode := 0;
      assert NodesOf(f.kids.Keys) == nodes;
    }

    method ReleaseChild(p: Task)
      requires Valid() && p in f.dead
      modifies this, table, f.kids.Keys
      ensures Valid() && f == Burial(old(f), p)
    {
      hide Burial, Spells, TableOk;
      assert p in f.kids;
      NothingPointsOutside(this);
      NodesOfAt(f.kids.Keys, p);
      NodesOfKeys(f.kids.Keys);
      Release(p);
    }

    /** What the pointers say about the children of a task. */
    lemma ChildChain(current: Task)
      requires Valid() && current in f.kids
      ensures current.cptr == At(f.kids[current], 0)
      ensures forall i :: 0 <= i < |f.kids[current]| ==>
        f.kids[current][i] in f.kids && f.kids[current][i].osptr == At(f.kids[current], i + 1) &&
        (f.kids[current][i].state == TASK_ZOMBIE <==> f.kids[current][i] in f.dead)
    {
      var nodes, s := NodesOf(f.kids.Keys), f.kids[current];
      assert ListOk(nodes, current, s);
      NodesOfAt(f.kids.Keys, current);
      forall i | 0 <= i < |s| ensures s[i] in f.kids && s[i].osptr == At(s, i + 1)
        && (s[i].state == TASK_ZOMBIE <==> s[i] in f.dead)
      {
        assert LinkOk(nodes, current, s, i);
        NodesOfAt(f.kids.Keys, s[i]);
      }
    }

    /** The slot of a task. */
    method FindTask(p: Task, ghost at: int) returns (i: int)
      requires table.Length == NR_TASKS && 1 <= at < NR_TASKS && table[at] == p
      requires forall k :: 1 <= k < NR_TASKS && table[k] == p ==> k == at
      ensures i == at
    {
      i := 1;
      while table[i] != p
        invariant 1 <= i <= at
        decreases at - i
      {
        i := i + 1;
      }
    }

    /** `release`: a zombie leaves the table and the list of its parent. */
    method Release(p: Task)
      requires Valid() && p in f.dead
      modifies this, table, p.osptr, p.ysptr, p.pptr
      ensures Valid() && f == Burial(old(f), p) && slot == old(slot) - {p}
    {
      hide Proper, Spells, TableOk, NodesOf, Unlinked, Burial;
      ghost var ts, f0, nodes := f.kids.Keys, f, NodesOf(f.kids.Keys);
      ReleaseFacts(nodes, f0, table[..], slot, idle, init, p);
      NodesOfAt(ts, p);
      NodesOfKeys(ts);
      DropFromTable(p, Burial(f0, p), ts);
      UnlinkTask(p, ts);
    }

    method DropFromTable(p: Task, ghost g: Forest<Task>, ghost ts: set<Task>)
      requires table.Length == NR_TASKS && p in slot && 1 <= slot[p] < NR_TASKS && table[slot[p]] == p
      requires forall k :: 1 <= k < NR_TASKS && table[k] == p ==> k == slot[p]
      modifies this`slot, this`f, table
      ensures p in old(slot) && 0 <= old(slot)[p] < |old(table[..])|
        && table[..] == old(table[..])[old(slot)[p] := null]
      ensures slot == old(slot) - {p} && f == g && NodesOf(ts) == old(NodesOf(ts))
      ensures p.pptr == old(p.pptr) && p.ysptr == old(p.ysptr) && p.osptr == old(p.osptr)
    {
      ghost var nodes := NodesOf(ts);
      var i := FindTask(p, slot[p]);
      table[i] := null;
      slot := slot - {p};
      f := g;
      assert NodesOf(ts) == nodes;
    }
  }

  method SetExitCode(t: Task, code: int, ghost ts: set<Task>)
    modifies t`exitCode
    ensures t.exitCode == code && NodesOf(ts) == old(NodesOf(ts))
  {
    ghost var nodes := NodesOf(ts);
    t.exitCode := code;
    assert NodesOf(ts) == nodes;
  }

  method MarkZombie(t: Task, ghost ts: set<Task>)
    requires t in ts
    modifies t`state
    ensures t in old(NodesOf(ts)) && NodesOf(ts) == old(NodesOf(ts))[t := old(NodesOf(ts))[t].(zombie := true)]
    ensures t.state == TASK_ZOMBIE
  {
    t.state := TASK_ZOMBIE;
  }

  /** The statements of `do_exit` that change states and pointers. */
  method BecomeOrphan(t: Task, init: Task, ghost ts: set<Task>, ghost s: seq<Task>, ghost r: seq<Task>)
    requires t in ts && init in ts && t != init && r != []
    requires ListOk(NodesOf(ts), t, s) && ListOk(NodesOf(ts), init, r) && NoDup(s)
    requires t !in s && init !in s && init !in r && r[0] !in s
    modifies t, init, s, r
    ensures NodesOf(ts) == Adopted(old(NodesOf(ts)), t, init, s, r)
  {
    hide NodesOf, Adopted, ListOk;
    ghost var nodes := NodesOf(ts);
    NodesOfKeys(ts);
    MarkedLists(nodes, t, t, s);
    MarkedLists(nodes, t, init, r);
    MarkedFirst(nodes, t, init, s, r);
    MarkZombie(t, ts);
    Reparent(t, init, ts, s, r);
  }

  /** A task that has been freed is never pointed to. */
  lemma NothingPointsOutside(k: Tasks)
    requires k.Valid()
    ensures NoDangling(NodesOf(k.f.kids.Keys), k.idle)
  {
    SpellsNoDangling(NodesOf(k.f.kids.Keys), k.f, k.idle, k.init);
  }

  lemma ExitFacts(nodes: Nodes, f: Forest<Task>, idle: Task, init: Task, t: Task)
    requires Proper(f, idle, init) && Spells(nodes, f) && t in f.kids && t != idle && t != init
    ensures f.kids[init] != [] && init in f.kids && t in nodes && init in nodes
    ensures ListOk(nodes, t, f.kids[t]) && ListOk(nodes, init, f.kids[init]) && NoDup(f.kids[t])
    ensures t !in f.kids[t] && init !in f.kids[t] && init !in f.kids[init] && f.kids[init][0] !in f.kids[t]
    ensures Death(f, t, init).kids.Keys == f.kids.Keys
    ensures Proper(Death(f, t, init), idle, init)
    ensures Spells(Adopted(nodes, t, init, f.kids[t], f.kids[init]), Death(f, t, init))
  {
    NotOwnChild(f, idle, init, t);
    NotOwnChild(f, idle, init, init);
    DeathKeeps(f, idle, init, t);
    AdoptedSpells(nodes, f, idle, init, t);
    assert ChildrenOk(f, t) && ChildrenOk(f, init) && ChildrenOk(f, idle);
    assert f.kids[init][0] in f.kids[init];
  }

  lemma MarkedFirst(nodes: Nodes, t: Task, init: Task, s: seq<Task>, r: seq<Task>)
    requires t in nodes && (s != [] ==> r != [])
    ensures Adopted(nodes[t := nodes[t].(zombie := true)], t, init, s, r) == Adopted(nodes, t, init, s, r)
  {
  }

  lemma MarkedLists(nodes: Nodes, t: Task, u: Task, s: seq<Task>)
    requires t in nodes && ListOk(nodes, u, s)
    ensures ListOk(nodes[t := nodes[t].(zombie := true)], u, s)
  {
    var marked := nodes[t := nodes[t].(zombie := true)];
    forall i | 0 <= i < |s| ensures LinkOk(marked, u, s, i) { assert LinkOk(nodes, u, s, i); }
  }

  lemma ReleaseFacts(nodes: Nodes, f: Forest<Task>, table: seq<Task?>, slot: map<Task, int>, idle: Task, init: Task,
      p: Task)
    requires Proper(f, idle, init) && Spells(nodes, f) && TableOk(table, slot, f.kids.Keys, idle, init) && p in f.dead
    ensures p in nodes && p in f.kids && p in slot && 1 <= slot[p] < NR_TASKS && |table| == NR_TASKS
      && table[slot[p]] == p
    ensures forall i :: 1 <= i < NR_TASKS && table[i] == p ==> i == slot[p]
    ensures nodes[p].p != null && nodes[p].p in nodes && nodes[p].p != p
    ensures (nodes[p].o != null ==> nodes[p].o in nodes && nodes[p].o != p)
      && (nodes[p].y != null ==> nodes[p].y in nodes && nodes[p].y != p)
    ensures p in f.parent && f.parent[p] in f.kids
    ensures var g := Burial(f, p);
      && g.kids.Keys == f.kids.Keys - {p} && Proper(g, idle, init)
      && Spells(Unlinked(nodes, p), g) && TableOk(table[slot[p] := null], slot - {p}, f.kids.Keys - {p}, idle, init)
  {
    BurialKeeps(f, idle, init, p);
    UnlinkedSpells(nodes, f, idle, init, p);
    var q, k := PlaceOf(nodes, f, idle, init, p);
    assert ChildrenOk(f, q);
    TableLoses(table, slot, f.kids.Keys, idle, init, p);
  }

  lemma ForkFacts(nodes: Nodes, f: Forest<Task>, table: seq<Task?>, slot: map<Task, int>, idle: Task, init: Task,
      current: Task, p: Task, nr: int)
    requires Proper(f, idle, init) && Spells(nodes, f) && TableOk(table, slot, f.kids.Keys, idle, init)
    requires current in f.kids && current != idle && current !in f.dead && p !in f.kids
    requires 1 <= nr < NR_TASKS && table[nr] == null
    ensures current in nodes && nodes[current].c != current
    ensures nodes[current].c == (if f.kids[current] == [] then null else f.kids[current][0])
    ensures nodes[current].c != null ==> nodes[current].c in nodes && nodes[current].c in f.kids
    ensures var g := Births(f, current, p);
      Proper(g, idle, init) && Spells(Linked(nodes, current, p), g)
        && TableOk(table[nr := p], slot[p := nr], g.kids.Keys, idle, init)
  {
    NotOwnChild(f, idle, init, current);
    HeadIsChild(nodes, f, current);
    BirthKeeps(f, idle, init, current, p);
    LinkedSpells(nodes, f, current, p);
    TableGains(table, slot, f.kids.Keys, idle, init, p, nr);
    assert Births(f, current, p).kids.Keys == f.kids.Keys + {p};
  }

  /** The loop of `do_exit`: every child of `t` gets `init` as its parent; the result is the oldest. */
  method NewParents(t: Task, init: Task, ghost ts: set<Task>, ghost s: seq<Task>) returns (p: Task)
    requires t in ts && s != [] && t !in s && ListOk(NodesOf(ts), t, s) && NoDup(s)
    modifies s
    ensures p == s[|s| - 1]
    ensures forall x :: x in ts ==> NodeOf(x) == old(NodeOf(x)).(p := if x in s then init else old(NodeOf(x)).p)
    ensures forall x :: x in s ==> x.state == old(x.state)
  {
    ghost var nodes := NodesOf(ts);
    p := t.cptr;
    assert LinkOk(nodes, t, s, 0);
    ghost var i := 0;
    while true
      invariant 0 <= i < |s| && p == s[i]
      invariant forall x :: x in ts ==> NodeOf(x) == nodes[x].(p := if x in s[..i] then init else nodes[x].p)
      invariant forall x :: x in s ==> x.state == old(x.state)
      decreases |s| - i
    {
      assert LinkOk(nodes, t, s, i);
      p.pptr := init;
      assert s[..i + 1] == s[..i] + [p];
      if p.osptr == null { break; }
      assert LinkOk(nodes, t, s, i + 1);
      p := p.osptr;
      i := i + 1;
    }
    assert s[..i + 1] == s;
  }

  /** The code of `do_exit` that makes init inherit the children of `t`, for the lists of
      children `s` of `t` and `r` of `init`. */
  method Reparent(t: Task, init: Task, ghost ts: set<Task>, ghost s: seq<Task>, ghost r: seq<Task>)
    requires t in ts && init in ts && t != init && r != [] && t.state == TASK_ZOMBIE
    requires ListOk(NodesOf(ts), t, s) && ListOk(NodesOf(ts), init, r) && NoDup(s)
    requires t !in s && init !in s && init !in r && r[0] !in s
    modifies t, init, s, r
    ensures NodesOf(ts) == Adopted(old(NodesOf(ts)), t, init, s, r)
    ensures forall x :: x == t || x == init || x in s || x in r ==> x.state == old(x.state)
  {
    hide ListOk, NodesOf;
    ghost var nodes, n := NodesOf(ts), Adopted(NodesOf(ts), t, init, s, r);
    NodesOfKeys(ts);
    forall x | x in ts ensures nodes[x] == NodeOf(x) {
      NodesOfAt(ts, x);
    }
    ListEnds(nodes, t, s);
    ListEnds(nodes, init, r);
    if t.cptr != null {
      var p := NewParents(t, init, ts, s);
      JoinLists(p, t, init, r[0]);
    }
    NodesAre(ts, n);
  }

  lemma ListEnds(nodes: Nodes, t: Task, s: seq<Task>)
    requires ListOk(nodes, t, s)
    ensures t in nodes && nodes[t].c == At(s, 0)
    ensures s != [] ==> s[0] in nodes && s[|s| - 1] in nodes
  {
    if s != [] { assert LinkOk(nodes, t, s, 0) && LinkOk(nodes, t, s, |s| - 1); }
  }

  lemma NodesAre(ts: set<Task>, n: Nodes)
    requires n.Keys == ts && forall x :: x in ts ==> NodeOf(x) == n[x]
    ensures NodesOf(ts) == n
  {
  }

  /** The same loop and statements when the task that ends is task 1. */
  method TieAndForget(init: Task, ghost ts: set<Task>, ghost s: seq<Task>)
    requires init in ts && ListOk(NodesOf(ts), init, s) && NoDup(s) && init !in s
    modifies init, s
    ensures NodesOf(ts) == Forgotten(old(NodesOf(ts)), init, s)
  {
    hide ListOk, NodesOf;
    ghost var nodes, n := NodesOf(ts), Forgotten(NodesOf(ts), init, s);
    NodesOfKeys(ts);
    forall x | x in ts
      ensures nodes[x] == NodeOf(x)
    {
      NodesOfAt(ts, x);
    }
    ListEnds(nodes, init, s);
    MarkZombie(init, ts);
    if init.cptr != null {
      MarkedLists(nodes, init, init, s);
      var p := SameParents(init, ts, s);
      TieEnds(p, init);
    }
    NodesAre(ts, n);
  }

  /** Task 1 is the parent of its children already. */
  method SameParents(init: Task, ghost ts: set<Task>, ghost s: seq<Task>) returns (p: Task)
    requires init in ts && s != [] && init !in s && ListOk(NodesOf(ts), init, s) && NoDup(s)
    modifies s
    ensures p == s[|s| - 1]
    ensures forall x :: x in ts ==> NodeOf(x) == old(NodeOf(x))
  {
    hide ListOk, NodesOf;
    ghost var nodes := NodesOf(ts);
    forall i | 0 <= i < |s|
      ensures s[i] in ts && NodeOf(s[i]).p == init
    {
      ListParent(nodes, init, s, i);
      NodesOfKeys(ts);
      NodesOfAt(ts, s[i]);
    }
    p := NewParents(init, init, ts, s);
  }

  lemma ListParent(nodes: Nodes, t: Task, s: seq<Task>, i: int)
    requires ListOk(nodes, t, s) && 0 <= i < |s|
    ensures s[i] in nodes && nodes[s[i]].p == t
  {
    assert LinkOk(nodes, t, s, i);
  }

  method TieEnds(p: Task, init: Task)
    requires init.cptr != null && init.cptr != init && p != init
    modifies p, init, init.cptr
    ensures NodeOf(init) == old(NodeOf(init)).(c := null)
    ensures var head := old(init.cptr);
      if head == p then NodeOf(p) == old(NodeOf(p)).(o := p, y := p)
      else NodeOf(p) == old(NodeOf(p)).(o := head) && NodeOf(head) == old(NodeOf(head)).(y := p)
  {
    p.osptr := init.cptr;
    init.cptr.ysptr := p;
    init.cptr := init.cptr;
    init.cptr := null;
  }

  /** The last four statements of the adoption; `head` is the youngest child of init. */
  method JoinLists(p: Task, t: Task, init: Task, ghost head: Task)
    requires init.cptr == head && t != init && p != t && p != init && head != init && head != p
    modifies p, t, init, head
    ensures NodeOf(p) == old(NodeOf(p)).(o := head)
    ensures NodeOf(init) == old(NodeOf(init)).(c := old(t.cptr))
    ensures NodeOf(t) == (if head == t then old(NodeOf(t)).(c := null, y := p) else old(NodeOf(t)).(c := null))
    ensures head != t ==> NodeOf(head) == old(NodeOf(head)).(y := p)
    ensures p.state == old(p.state) && t.state == old(t.state) && init.state == old(init.state)
      && head.state == old(head.state)
  {
    p.osptr := init.cptr;
    init.cptr.ysptr := p;
    init.cptr := t.cptr;
    t.cptr := null;
  }

  function BootForest(idle: Task, init: Task): Forest<Task> {
    var kids: map<Task, seq<Task>> := map[idle := [init], init := []];
    var parent: map<Task, Task> := map[idle := idle, init := idle];
    var born: map<Task, nat> := map[idle := 0, init := 1];
    Forest(kids, parent, {}, born, 2)
  }

  lemma BootProper(nodes: Nodes, idle: Task, init: Task)
    requires idle != init && nodes.Keys == {idle, init}
    requires nodes[idle] == Node(idle, init, null, null, false) && nodes[init] == Node(idle, null, null, null, false)
    ensures Proper(BootForest(idle, init), idle, init) && Spells(nodes, BootForest(idle, init))
  {
    var f := BootForest(idle, init);
    assert ChildrenOk(f, idle) && ChildrenOk(f, init);
    assert ListOk(nodes, idle, [init]) by { assert LinkOk(nodes, idle, [init], 0); }
    assert ListOk(nodes, init, []);
  }

  method FirstTasks() returns (idle: Task, init: Task)
    ensures fresh(idle) && fresh(init) && idle != init && NodesOf({idle, init}).Keys == {idle, init}
    ensures NodesOf({idle, init})[idle] == Node(idle, init, null, null, false)
    ensures NodesOf({idle, init})[init] == Node(idle, null, null, null, false)
  {
    idle := new Task(0, 0);
    init := new Task(1, 0);
    idle.pptr := idle;
    idle.cptr := init;
    init.pptr := idle;
    BootNodes(idle, init);
  }

  lemma BootNodes(idle: Task, init: Task)
    requires idle != init && idle.pptr == idle && idle.cptr == init && init.pptr == idle
    requires idle.ysptr == idle.osptr == init.cptr == init.ysptr == init.osptr == null
    requires idle.state == init.state == TASK_RUNNING
    ensures NodesOf({idle, init}).Keys == {idle, init}
    ensures NodesOf({idle, init})[idle] == Node(idle, init, null, null, false)
    ensures NodesOf({idle, init})[init] == Node(idle, null, null, null, false)
  {
  }

  method FirstTable(idle: Task, init: Task) returns (table: array<Task?>)
    requires idle != init
    ensures fresh(table) && table.Length == NR_TASKS
    ensures TableOk(table[..], map[idle := 0, init := 1], {idle, init}, idle, init)
  {
    table := new Task?[NR_TASKS](i => if i == 0 then idle else if i == 1 then init else null);
  }

  lemma BootKeys(idle: Task, init: Task)
    ensures BootForest(idle, init).kids.Keys == {idle, init}
  {
  }

  ghost function NodeOf(t: Task): Node
    reads t
  {
    Node(t.pptr, t.cptr, t.ysptr, t.osptr, t.state == TASK_ZOMBIE)
  }

  ghost function NodesOf(ts: set<Task>): Nodes
    reads ts
  {
    map t | t in ts :: NodeOf(t)
  }

  lemma NodesOfKeys(ts: set<Task>)
    ensures NodesOf(ts).Keys == ts
  {
  }

  /** The pointer part of `release`. */
  method UnlinkTask(p: Task, ghost ts: set<Task>)
    requires p in ts && p.pptr != null && p.pptr in ts && p.pptr != p
    requires (p.osptr != null ==> p.osptr in ts && p.osptr != p) && (p.ysptr != null ==> p.ysptr in ts && p.ysptr != p)
    modifies p.osptr, p.ysptr, p.pptr
    ensures p in old(NodesOf(ts)) && NodesOf(ts - {p}) == Unlinked(old(NodesOf(ts)), p)
  {
    ghost var nodes := NodesOf(ts);
    NodesOfAt(ts, p);
    ghost var n := Unlinked(nodes, p);
    ghost var o, y, q := p.osptr, p.ysptr, p.pptr;
    if p.osptr != null {
      p.osptr.ysptr := p.ysptr;
    }
    if p.ysptr != null {
      p.ysptr.osptr := p.osptr;
    } else {
      p.pptr.cptr := p.osptr;
    }
    forall x | x in ts - {p} ensures NodeOf(x) == n[x] {
      if x != o && x != y && x != q { assert NodeOf(x) == nodes[x]; }
    }
    assert NodesOf(ts - {p}) == n;
  }

  lemma NodesOfAt(ts: set<Task>, t: Task)
    requires t in ts
    ensures t in NodesOf(ts) && NodesOf(ts)[t] == NodeOf(t)
  {
  }

  /** The pointer part of `copy_process`. */
  method LinkChild(current: Task, p: Task, ghost ts: set<Task>)
    requires current in ts && p !in ts && current.cptr != current && (current.cptr != null ==> current.cptr in ts)
      && p.state != TASK_ZOMBIE
    modifies p, current, current.cptr
    ensures NodesOf(ts + {p}) == Linked(old(NodesOf(ts)), current, p)
    ensures p.state == old(p.state)
  {
    ghost var nodes, head := NodesOf(ts), current.cptr;
    p.pptr := current;
    p.cptr := null;
    p.ysptr := null;
    p.osptr := current.cptr;
    if p.osptr != null {
      p.osptr.ysptr := p;
    }
    current.cptr := p;
    ghost var linked := Linked(nodes, current, p);
    assert NodeOf(p) == linked[p] && NodeOf(current) == linked[current];
    assert head != null ==> NodeOf(head) == linked[head];
    assert forall t :: t in ts && t != p && t != current && t != head ==> NodeOf(t) == nodes[t] == linked[t];
    assert NodesOf(ts + {p}) == linked;
  }

  lemma HeadIsChild(nodes: Nodes, f: Forest<Task>, t: Task)
    requires Spells(nodes, f) && t in f.kids && t !in f.kids[t] && ChildrenOk(f, t)
    ensures nodes[t].c == (if f.kids[t] == [] then null else f.kids[t][0])
    ensures nodes[t].c != t && (nodes[t].c != null ==> nodes[t].c in f.kids)
  {
    assert ListOk(nodes, t, f.kids[t]);
  }

  lemma NotOwnChild(f: Forest<Task>, idle: Task, init: Task, t: Task)
    requires Proper(f, idle, init) && t in f.kids && t != idle
    ensures t !in f.kids[t] && (forall u :: u in f.kids ==> ChildrenOk(f, u)) && f.dead <= f.kids.Keys
  {
    assert ChildrenOk(f, t);
    assert t != init ==> PlaceOk(f, idle, init, t);
  }
}
