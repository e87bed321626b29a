/** The family of tasks as a value: for every task its children, youngest first. */
module Forests {
  import opened Collections

  /** `dead` are the zombies, `born` numbers the tasks in the order of their birth. */
  datatype Forest<T(==)> = Forest(kids: map<T, seq<T>>, parent: map<T, T>, dead: set<T>, born: map<T, nat>, next: nat)

  ghost predicate ChildrenOk<T>(f: Forest<T>, t: T)
    requires t in f.kids
  {
    NoDup(f.kids[t]) && forall c :: c in f.kids[t] ==> c in f.kids && c in f.parent && f.parent[c] == t
  }

  /** A task other than the first two: its parent is alive, lists it, and is older. */
  ghost predicate PlaceOk<T>(f: Forest<T>, idle: T, init: T, t: T)
    requires t in f.parent && t in f.born
  {
    var p := f.parent[t];
    && p in f.kids && t in f.kids[p] && p != idle
    && p in f.born && f.born[p] < f.born[t]
  }

  /** All tasks but the idle task form one tree with root `init`, and no zombie has children. */
  ghost predicate Proper<T>(f: Forest<T>, idle: T, init: T) {
    && f.parent.Keys == f.kids.Keys && f.born.Keys == f.kids.Keys
    && idle != init && idle in f.kids && init in f.kids && f.kids[idle] == [init] && f.parent[idle] == idle
      && f.parent[init] == idle
    && f.dead <= f.kids.Keys && idle !in f.dead && init !in f.dead
    && (forall t :: t in f.kids ==> ChildrenOk(f, t))
    && (forall t :: t in f.kids && t != idle && t != init ==> PlaceOk(f, idle, init, t) && f.born[init] < f.born[t])
    && (forall t :: t in f.born ==> f.born[t] < f.next)
    && (forall t :: t in f.dead ==> f.kids[t] == [])
  }

  function Births<T(==)>(f: Forest<T>, p: T, c: T): Forest<T>
    requires p in f.kids
  {
    Forest(f.kids[c := []][p := [c] + f.kids[p]], f.parent[c := p], f.dead, f.born[c := f.next], f.next + 1)
  }

  /** The children of the dead task go, in order, in front of those of `init`. */
  function Death<T(==)>(f: Forest<T>, t: T, init: T): Forest<T>
    requires t in f.kids && init in f.kids
  {
    f.(kids := f.kids[init := f.kids[t] + f.kids[init]][t := []],
       parent := map c | c in f.parent :: if c in f.kids[t] then init else f.parent[c],
       dead := f.dead + {t})
  }

  function Burial<T(==)>(f: Forest<T>, t: T): Forest<T> {
    if t !in f.parent || f.parent[t] !in f.kids then f
    else
      var p := f.parent[t];
      Forest(f.kids[p := Without(f.kids[p], t)] - {t}, f.parent - {t}, f.dead - {t}, f.born - {t}, f.next)
  }

  // ------------------------------------------------------------------ lemmas

  lemma BirthKeeps<T>(f: Forest<T>, idle: T, init: T, p: T, c: T)
    requires Proper(f, idle, init) && p in f.kids && p != idle && p !in f.dead && c !in f.kids
    ensures Proper(Births(f, p, c), idle, init)
  {
    hide PlaceOk, ChildrenOk, Births;
    BirthPlaces(f, idle, init, p, c);
    BirthChildren(f, p, c);
    BirthRest(f, idle, init, p, c);
  }

  lemma BirthRest<T>(f: Forest<T>, idle: T, init: T, p: T, c: T)
    requires Proper(f, idle, init) && p in f.kids && p != idle && p !in f.dead && c !in f.kids
    ensures var g := Births(f, p, c);
      && idle in g.kids && init in g.kids && g.kids[idle] == [init] && idle in g.parent && g.parent[idle] == idle
      && init in g.parent && g.parent[init] == idle && g.dead == f.dead && g.dead <= g.kids.Keys
      && (forall t :: t in g.born ==> g.born[t] < g.next) && (forall t :: t in g.dead ==> g.kids[t] == [])
  {
    hide PlaceOk, ChildrenOk;
  }

  lemma BirthChildren<T>(f: Forest<T>, p: T, c: T)
    requires f.parent.Keys == f.kids.Keys && p in f.kids && c !in f.kids && forall t :: t in f.kids ==> ChildrenOk(f, t)
    ensures forall t :: t in Births(f, p, c).kids ==> ChildrenOk(Births(f, p, c), t)
  {
    hide ChildrenOk;
    forall t | t in Births(f, p, c).kids
      ensures ChildrenOk(Births(f, p, c), t)
    {
      BirthChild(f, p, c, t);
    }
  }

  lemma BirthPlaces<T>(f: Forest<T>, idle: T, init: T, p: T, c: T)
    requires Proper(f, idle, init) && p in f.kids && p != idle && p !in f.dead && c !in f.kids
    ensures var g := Births(f, p, c);
      && g.parent.Keys == g.kids.Keys && g.born.Keys == g.kids.Keys && init in g.born
      && forall t :: t in g.kids && t != idle && t != init ==> PlaceOk(g, idle, init, t) && g.born[init] < g.born[t]
  {
    hide ChildrenOk, PlaceOk;
    var g := Births(f, p, c);
    forall t | t in g.kids && t != idle && t != init
      ensures PlaceOk(g, idle, init, t) && g.born[init] < g.born[t]
    {
      if t != c { assert PlaceOk(f, idle, init, t); }
      BirthPlace(f, idle, init, p, c, t);
    }
  }

  lemma BirthPlace<T>(f: Forest<T>, idle: T, init: T, p: T, c: T, t: T)
    requires f.parent.Keys == f.kids.Keys == f.born.Keys && p in f.kids && p != idle && c !in f.kids
    requires f.born[p] < f.next && (t == c || (t in f.kids && PlaceOk(f, idle, init, t)))
    ensures PlaceOk(Births(f, p, c), idle, init, t)
  {
  }

  lemma BirthChild<T>(f: Forest<T>, p: T, c: T, t: T)
    requires f.parent.Keys == f.kids.Keys && p in f.kids && c !in f.kids && (t == c || t in f.kids)
    requires ChildrenOk(f, p) && (t != c ==> ChildrenOk(f, t))
    ensures t in Births(f, p, c).kids && ChildrenOk(Births(f, p, c), t)
  {
    if t == p {
      assert c !in f.kids[p];
      NoDupConcat([c], f.kids[p]);
    }
  }

  lemma DeathKeeps<T>(f: Forest<T>, idle: T, init: T, t: T)
    requires Proper(f, idle, init) && t in f.kids && t != idle && t != init
    ensures Proper(Death(f, t, init), idle, init)
  {
    DeathChildren(f, idle, init, t);
    DeathPlaces(f, idle, init, t);
    assert ChildrenOk(f, idle) && ChildrenOk(f, t) && init in f.kids[idle];
    assert init !in f.kids[t] && idle !in f.kids[t];
  }

  lemma DeathChildren<T>(f: Forest<T>, idle: T, init: T, t: T)
    requires Proper(f, idle, init) && t in f.kids && t != idle && t != init
    ensures forall u :: u in f.kids ==> ChildrenOk(Death(f, t, init), u)
  {
    forall u | u in f.kids ensures ChildrenOk(Death(f, t, init), u) {
      assert ChildrenOk(f, u) && ChildrenOk(f, t) && ChildrenOk(f, init);
      DeathChild(f, init, t, u);
    }
  }

  lemma DeathChild<T>(f: Forest<T>, init: T, t: T, u: T)
    requires t in f.kids && init in f.kids && u in f.kids && t != init && f.parent.Keys == f.kids.Keys
    requires ChildrenOk(f, u) && ChildrenOk(f, t) && ChildrenOk(f, init)
    ensures ChildrenOk(Death(f, t, init), u)
  {
    var g := Death(f, t, init);
    if u == init {
      assert forall c :: c in f.kids[t] ==> c !in f.kids[init];
      NoDupConcat(f.kids[t], f.kids[init]);
    } else if u != t {
      assert g.kids[u] == f.kids[u];
      assert forall c :: c in f.kids[u] ==> c !in f.kids[t];
    }
  }

  lemma DeathPlaces<T>(f: Forest<T>, idle: T, init: T, t: T)
    requires Proper(f, idle, init) && t in f.kids && t != idle && t != init
    ensures forall u :: u in f.kids && u != idle && u != init ==> PlaceOk(Death(f, t, init), idle, init, u)
  {
    var g := Death(f, t, init);
    forall u | u in f.kids && u != idle && u != init ensures PlaceOk(g, idle, init, u) {
      assert PlaceOk(f, idle, init, u) && ChildrenOk(f, t);
      if f.parent[u] == t {
        assert u in g.kids[init];
      } else {
        assert u !in f.kids[t];
        assert u in g.kids[f.parent[u]];
      }
    }
  }

  lemma BurialKeeps<T>(f: Forest<T>, idle: T, init: T, t: T)
    requires Proper(f, idle, init) && t in f.dead
    ensures Proper(Burial(f, t), idle, init)
  {
    hide Without;
    var g, p := Burial(f, t), f.parent[t];
    BurialPlaces(f, idle, init, t);
    assert PlaceOk(f, idle, init, t) && ChildrenOk(f, p);
    assert p !in f.dead;
    WithoutLaws(f.kids[p], t);
    hide PlaceOk, ChildrenOk;
    BurialChildren(f, t);
  }

  lemma BurialChildren<T>(f: Forest<T>, t: T)
    requires t in f.parent && f.parent[t] in f.kids && f.parent.Keys == f.kids.Keys
    requires f.kids[t] == [] && forall u :: u in f.kids ==> ChildrenOk(f, u)
    ensures forall u :: u in Burial(f, t).kids ==> ChildrenOk(Burial(f, t), u)
  {
    hide ChildrenOk, Without;
    forall u | u in Burial(f, t).kids
      ensures ChildrenOk(Burial(f, t), u)
    {
      BurialChild(f, t, u);
    }
  }

  lemma BurialPlaces<T>(f: Forest<T>, idle: T, init: T, t: T)
    requires Proper(f, idle, init) && t in f.dead
    ensures var g := Burial(f, t);
      && g.parent.Keys == g.kids.Keys == g.born.Keys && init in g.born
      && forall u :: u in g.kids && u != idle && u != init ==> PlaceOk(g, idle, init, u) && g.born[init] < g.born[u]
  {
    hide Without;
    var g, p := Burial(f, t), f.parent[t];
    assert PlaceOk(f, idle, init, t) && ChildrenOk(f, p);
    hide PlaceOk, ChildrenOk;
    forall u | u in g.kids && u != idle && u != init
      ensures PlaceOk(g, idle, init, u) && g.born[init] < g.born[u]
    {
      assert PlaceOk(f, idle, init, u);
      BurialPlace(f, idle, init, t, u);
    }
  }

  lemma BurialPlace<T>(f: Forest<T>, idle: T, init: T, t: T, u: T)
    requires t in f.parent && f.parent[t] in f.kids && f.parent.Keys == f.kids.Keys == f.born.Keys
    requires u in f.kids && u != t && PlaceOk(f, idle, init, u) && NoDup(f.kids[f.parent[t]]) && f.kids[t] == []
    ensures u in Burial(f, t).parent && u in Burial(f, t).born && PlaceOk(Burial(f, t), idle, init, u)
  {
    WithoutLaws(f.kids[f.parent[t]], t);
    hide Without, NoDup;
  }

  lemma BurialChild<T>(f: Forest<T>, t: T, u: T)
    requires t in f.parent && f.parent[t] in f.kids && f.parent.Keys == f.kids.Keys && u in f.kids && u != t
    requires ChildrenOk(f, u)
    ensures u in Burial(f, t).kids && ChildrenOk(Burial(f, t), u)
  {
    if u == f.parent[t] {
      WithoutLaws(f.kids[u], t);
    } else {
      assert t !in f.kids[u];
    }
  }

  /** Every task but the first two has `init` among its ancestors. */
  ghost predicate Descends<T>(f: Forest<T>, t: T, init: T, steps: nat)
    decreases steps
  {
    t == init || (steps > 0 && t in f.parent && Descends(f, f.parent[t], init, steps - 1))
  }

  lemma ParentOf<T>(f: Forest<T>, idle: T, init: T, t: T) returns (p: T)
    requires Proper(f, idle, init) && t in f.kids && t != idle && t != init
    ensures t in f.parent && p == f.parent[t] && p in f.kids && t in f.kids[p] && p != idle
    ensures t in f.born && p in f.born && f.born[p] < f.born[t]
  {
    assert PlaceOk(f, idle, init, t);
    p := f.parent[t];
  }

  lemma {:induction false} AllDescendFromInit<T>(f: Forest<T>, idle: T, init: T, t: T, n: nat)
    requires Proper(f, idle, init) && t in f.kids && t != idle && f.born[t] <= n
    ensures Descends(f, t, init, n)
    decreases n
  {
    if t != init {
      var p := ParentOf(f, idle, init, t);
      AllDescendFromInit(f, idle, init, p, n - 1);
    }
  }

  /** As long as there is a third task, `init` has a child. */
  lemma {:induction false} InitHasChild<T>(f: Forest<T>, idle: T, init: T, t: T)
    requires Proper(f, idle, init) && t in f.kids && t != idle && t != init
    ensures f.kids[init] != []
    decreases f.born[t]
  {
    var p := ParentOf(f, idle, init, t);
    if p != init { InitHasChild(f, idle, init, p); }
  }

  // ------------------------------------------------------------------ runs

  datatype Change<T> = Fork(p: T, c: T) | Exit(t: T) | Reap(t: T)

  predicate Allowed<T(==)>(f: Forest<T>, idle: T, init: T, c: Change<T>) {
    match c
    case Fork(p, c) => p in f.kids && p != idle && p !in f.dead && c !in f.kids
    case Exit(t) => t in f.kids && t != idle && t != init && init in f.kids
    case Reap(t) => t in f.dead && t in f.parent && f.parent[t] in f.kids
  }

  function Apply<T(==)>(f: Forest<T>, init: T, c: Change<T>, ghost idle: T): Forest<T>
    requires Allowed(f, idle, init, c)
  {
    match c
    case Fork(p, c) => Births(f, p, c)
    case Exit(t) => Death(f, t, init)
    case Reap(t) => Burial(f, t)
  }

  ghost predicate AllowedRun<T>(f: Forest<T>, idle: T, init: T, cs: seq<Change<T>>)
    decreases |cs|
  {
    cs == [] || (Allowed(f, idle, init, cs[0]) && AllowedRun(Apply(f, init, cs[0], idle), idle, init, cs[1..]))
  }

  ghost function AfterRun<T>(f: Forest<T>, idle: T, init: T, cs: seq<Change<T>>): Forest<T>
    requires AllowedRun(f, idle, init, cs)
    decreases |cs|
  {
    if cs == [] then f else AfterRun(Apply(f, init, cs[0], idle), idle, init, cs[1..])
  }

  /** Any run of forks, exits and waits keeps one tree, in which every task descends from `init`. */
  lemma {:induction false} FamilyStaysProper<T>(f: Forest<T>, idle: T, init: T, cs: seq<Change<T>>)
    requires Proper(f, idle, init) && AllowedRun(f, idle, init, cs)
    ensures var g := AfterRun(f, idle, init, cs);
      Proper(g, idle, init) && forall t :: t in g.kids && t != idle ==> Descends(g, t, init, g.born[t])
    decreases |cs|
  {
    if cs == [] {
      forall t | t in f.kids && t != idle
        ensures Descends(f, t, init, f.born[t])
      {
        AllDescendFromInit(f, idle, init, t, f.born[t]);
      }
    } else {
      match cs[0] {
        case Fork(p, c) => BirthKeeps(f, idle, init, p, c);
        case Exit(t) => DeathKeeps(f, idle, init, t);
        case Reap(t) => BurialKeeps(f, idle, init, t);
      }
      FamilyStaysProper(Apply(f, init, cs[0], idle), idle, init, cs[1..]);
    }
  }
}
