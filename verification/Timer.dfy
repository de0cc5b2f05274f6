/** The timer manager: a multimap ordered by expiry plus an index of iterators into it. */
module Timers {
  class UtilTimer {
    var expire: int
    const owner: int // the connection the timer watches

    constructor (owner: int, expire: int)
      ensures this.owner == owner && this.expire == expire
    {
      this.owner, this.expire := owner, expire;
    }
  }

  /** A multimap node. Its id stands for the iterators that point at it and is never used again. */
  datatype Node = Node(id: nat, key: int, timer: UtilTimer)

  ghost predicate Sorted(ns: seq<Node>) {
    ns != [] ==> (ns[1..] != [] ==> ns[0].key <= ns[1].key) && Sorted(ns[1..])
  }

  function Ids(ns: seq<Node>): set<nat> {
    if ns == [] then {} else {ns[0].id} + Ids(ns[1..])
  }

  ghost predicate DistinctIds(ns: seq<Node>) {
    ns != [] ==> ns[0].id !in Ids(ns[1..]) && DistinctIds(ns[1..])
  }

  function Nodes(ns: seq<Node>): set<Node> {
    if ns == [] then {} else {ns[0]} + Nodes(ns[1..])
  }

  ghost predicate InOrder(ns: seq<Node>) { Sorted(ns) && DistinctIds(ns) }

  /** multimap::insert puts a node after every node whose key is not greater. */
  function Insert(ns: seq<Node>, n: Node): (r: seq<Node>)
    ensures r != [] && (r[0] == n || (ns != [] && r[0] == ns[0]))
    ensures Ids(r) == Ids(ns) + {n.id} && Nodes(r) == Nodes(ns) + {n}
  {
    if ns == [] || n.key < ns[0].key then
      assert ([n] + ns)[1..] == ns;
      [n] + ns
    else
      var rest := Insert(ns[1..], n);
      assert ([ns[0]] + rest)[1..] == rest;
      [ns[0]] + rest
  }

  lemma {:induction false} InsertKeepsOrder(ns: seq<Node>, n: Node)
    requires InOrder(ns) && n.id !in Ids(ns)
    ensures InOrder(Insert(ns, n))
  {
    if ns == [] || n.key < ns[0].key {
      assert ([n] + ns)[1..] == ns;
    } else {
      InsertKeepsOrder(ns[1..], n);
      assert Insert(ns, n)[1..] == Insert(ns[1..], n);
    }
  }

  /** A new node stands behind every node that is not later, also one of the same expiry, and before every later one. */
  lemma {:induction false} InsertPlaces(ns: seq<Node>, n: Node) returns (k: nat)
    requires Sorted(ns)
    ensures k <= |ns| && Insert(ns, n) == ns[..k] + [n] + ns[k..]
    ensures forall i :: 0 <= i < |ns| ==> (i < k <==> ns[i].key <= n.key)
  {
    if ns == [] {
      k := 0;
    } else if n.key < ns[0].key {
      k := 0;
      SortedFrom(ns);
    } else {
      var j := InsertPlaces(ns[1..], n);
      k := j + 1;
      assert forall i :: 0 < i < |ns| ==> ns[i] == ns[1..][i - 1];
    }
  }

  lemma {:induction false} SortedFrom(ns: seq<Node>)
    requires Sorted(ns)
    ensures forall i :: 0 <= i < |ns| ==> ns[0].key <= ns[i].key
  {
    if |ns| > 1 {
      SortedFrom(ns[1..]);
      assert forall i :: 0 < i < |ns| ==> ns[i] == ns[1..][i - 1];
    }
  }

  /** Erasing through an iterator removes the one node it points at. */
  function Erase(ns: seq<Node>, id: nat): seq<Node> {
    if ns == [] then [] else if ns[0].id == id then ns[1..] else [ns[0]] + Erase(ns[1..], id)
  }

  lemma {:induction false} EraseKeepsOrder(ns: seq<Node>, n: Node)
    requires InOrder(ns) && n in Nodes(ns)
    ensures InOrder(Erase(ns, n.id))
    ensures Nodes(Erase(ns, n.id)) == Nodes(ns) - {n} && Ids(Erase(ns, n.id)) == Ids(ns) - {n.id}
    ensures Erase(ns, n.id) != [] ==> ns[0].key <= Erase(ns, n.id)[0].key
  {
    NodesHaveIds(ns[1..]);
    if ns[0].id != n.id {
      EraseKeepsOrder(ns[1..], n);
      assert Erase(ns, n.id)[1..] == Erase(ns[1..], n.id);
    }
  }

  lemma {:induction false} NodesHaveIds(ns: seq<Node>)
    ensures forall n :: n in Nodes(ns) ==> n.id in Ids(ns)
  {
    if ns != [] {
      NodesHaveIds(ns[1..]);
    }
  }

  lemma {:induction false} FirstIsLeast(ns: seq<Node>)
    requires Sorted(ns)
    ensures forall n :: n in Nodes(ns) ==> ns != [] && ns[0].key <= n.key
  {
    if ns != [] {
      FirstIsLeast(ns[1..]);
    }
  }

  /** The nodes that a tick at time now takes from the front, and the others. */
  function Due(ns: seq<Node>, now: int): seq<Node> {
    if ns == [] || ns[0].key > now then [] else [ns[0]] + Due(ns[1..], now)
  }

  function NotDue(ns: seq<Node>, now: int): seq<Node> {
    if ns == [] || ns[0].key > now then ns else NotDue(ns[1..], now)
  }

  /** In a sorted multimap the front that a tick takes is exactly what has expired. */
  lemma {:induction false} DueIsExpired(ns: seq<Node>, now: int)
    requires InOrder(ns)
    ensures InOrder(Due(ns, now)) && Ids(Due(ns, now)) <= Ids(ns)
    ensures InOrder(NotDue(ns, now)) && Ids(NotDue(ns, now)) <= Ids(ns)
    ensures Nodes(ns) == Nodes(Due(ns, now)) + Nodes(NotDue(ns, now))
    ensures forall n :: n in Nodes(Due(ns, now)) ==> n.key <= now
    ensures forall n :: n in Nodes(NotDue(ns, now)) ==> n.key > now
  {
    FirstIsLeast(ns);
    if ns != [] && ns[0].key <= now {
      DueIsExpired(ns[1..], now);
      var rest := Due(ns[1..], now);
      assert Due(ns, now) == [ns[0]] + rest && Due(ns, now)[1..] == rest;
      assert rest != [] ==> rest[0] == ns[1];
    }
  }

  function TimersOf(ns: seq<Node>): seq<UtilTimer> {
    if ns == [] then [] else [ns[0].timer] + TimersOf(ns[1..])
  }

  /** Every node is keyed by its timer's own expiry and has the id that the index holds for its timer. */
  ghost predicate NodesLinked(nodes: set<Node>, index: map<UtilTimer, nat>, view: map<UtilTimer, int>) {
    forall n :: n in nodes ==> n.timer in index && index[n.timer] == n.id && n.timer in view && view[n.timer] == n.key
  }

  /** The index and the multimap point at each other. */
  ghost predicate Linked(nodes: set<Node>, index: map<UtilTimer, nat>, view: map<UtilTimer, int>) {
    && index.Keys == view.Keys
    && NodesLinked(nodes, index, view)
    && (forall t :: t in index ==> Node(index[t], view[t], t) in nodes)
  }

  lemma LinkedWith(nodes: set<Node>, index: map<UtilTimer, nat>, view: map<UtilTimer, int>, n: Node)
    requires Linked(nodes, index, view) && n.timer !in index
    ensures Linked(nodes + {n}, index[n.timer := n.id], view[n.timer := n.key])
  {
  }

  lemma LinkedWithout(
    nodes: set<Node>, index: map<UtilTimer, nat>, view: map<UtilTimer, int>, gone: set<Node>, ts: set<UtilTimer>)
    requires Linked(nodes, index, view) && gone <= nodes
    requires forall n :: n in gone ==> n.timer in ts
    requires forall t :: t in ts ==> t in index && Node(index[t], view[t], t) in gone
    ensures Linked(nodes - gone, index - ts, view - ts)
  {
  }

  lemma {:induction false} TimersOfNodes(ns: seq<Node>, index: map<UtilTimer, nat>, view: map<UtilTimer, int>)
    requires NodesLinked(Nodes(ns), index, view)
    ensures forall n :: n in Nodes(ns) ==> n.timer in TimersOf(ns)
    ensures forall t :: t in TimersOf(ns) ==> t in index && t in view && Node(index[t], view[t], t) in Nodes(ns)
  {
    if ns != [] {
      TimersOfNodes(ns[1..], index, view);
      assert ns[0] == Node(index[ns[0].timer], view[ns[0].timer], ns[0].timer);
    }
  }

  ghost predicate FiredInOrder(fired: seq<UtilTimer>, view: map<UtilTimer, int>) {
    && (forall i :: 0 <= i < |fired| ==> fired[i] in view)
    && (forall i, j :: 0 <= i < j < |fired| ==> fired[i] != fired[j] && view[fired[i]] <= view[fired[j]])
  }

  /** Distinct nodes in order are distinct timers in the order of their expiry. */
  lemma {:induction false} TimersInOrder(ns: seq<Node>, index: map<UtilTimer, nat>, view: map<UtilTimer, int>)
    requires InOrder(ns) && NodesLinked(Nodes(ns), index, view)
    ensures FiredInOrder(TimersOf(ns), view)
  {
    if ns != [] {
      var rest := TimersOf(ns[1..]);
      TimersInOrder(ns[1..], index, view);
      FirstIsLeast(ns);
      NodesHaveIds(ns[1..]);
      TimersOfNodes(ns[1..], index, view);
      assert forall i :: 0 <= i < |rest| ==> rest[i] in rest;
    }
  }

  /** What a tick leaves behind, and what it fires. */
  lemma TickEffect(ns: seq<Node>, index: map<UtilTimer, nat>, view: map<UtilTimer, int>, now: int)
    requires InOrder(ns) && Linked(Nodes(ns), index, view)
    ensures var fired := TimersOf(Due(ns, now));
      var ts := set t | t in fired;
      && InOrder(NotDue(ns, now)) && Ids(NotDue(ns, now)) <= Ids(ns)
      && Linked(Nodes(NotDue(ns, now)), index - ts, view - ts)
      && (forall t :: t in fired <==> t in view && view[t] <= now)
      && FiredInOrder(fired, view)
  {
    var due := Due(ns, now);
    DueIsExpired(ns, now);
    assert Nodes(due) <= Nodes(ns) && Nodes(NotDue(ns, now)) == Nodes(ns) - Nodes(due);
    TimersInOrder(due, index, view);
    TimersOfNodes(due, index, view);
    assert forall t :: t in view && view[t] <= now ==> Node(index[t], view[t], t) in Nodes(due);
    hide Due, NotDue, TimersOf, InOrder, FiredInOrder;
    LinkedWithout(Nodes(ns), index, view, Nodes(due), set t | t in TimersOf(due));
  }

  class TimerManager {
    var timers: seq<Node>
    var index: map<UtilTimer, nat>
    var nextId: nat

    ghost predicate Valid()
      reads this, index.Keys
    {
      && InOrder(timers)
      && (forall id :: id in Ids(timers) ==> id < nextId)
      && Linked(Nodes(timers), index, View())
    }

    /** What the manager stands for: the expiry of each managed timer. */
    ghost function View(): map<UtilTimer, int>
      reads this, index.Keys
    {
      map t | t in index :: t.expire
    }

    constructor ()
      ensures Valid() && View() == map[]
    {
      timers, index, nextId := [], map[], 0;
    }

    method AddTimer(timer: UtilTimer)
      requires Valid() && timer !in View()
      modifies this
      ensures Valid() && View() == old(View())[timer := timer.expire]
    {
      var n := Node(nextId, timer.expire, timer);
      InsertKeepsOrder(timers, n);
      LinkedWith(Nodes(timers), index, View(), n);
      timers := Insert(timers, n);
      index := index[timer := nextId];
      nextId := nextId + 1;
      hide Linked, InOrder;
      assert View() == old(View())[timer := timer.expire];
    }

    /** Moves a managed timer to a new expiry; a timer that is not managed is left alone. */
    method AdjustTimer(timer: UtilTimer, newExpire: int)
      requires Valid()
      modifies this, timer`expire
      ensures Valid()
      ensures View() == if timer in old(View()) then old(View())[timer := newExpire] else old(View())
      ensures timer !in old(View()) ==> timer.expire == old(timer.expire)
    {
      hide Linked, InOrder;
      if timer !in index {
        return;
      }
      Unlink(timer);
      ghost var others := View();
      timer.expire := newExpire;
      assert View() == others;
      AddTimer(timer);
      assert others[timer := newExpire] == old(View())[timer := newExpire];
    }

    /** Takes the timer's node out of the multimap and its entry out of the index. */
    method Unlink(timer: UtilTimer)
      requires Valid() && timer in View()
      modifies this
      ensures Valid() && View() == old(View()) - {timer}
    {
      ghost var own := Node(index[timer], timer.expire, timer);
      EraseKeepsOrder(timers, own);
      LinkedWithout(Nodes(timers), index, View(), {own}, {timer});
      timers := Erase(timers, index[timer]);
      index := index - {timer};
      hide Linked, InOrder;
      assert View() == old(View()) - {timer};
    }

    method DelTimer(timer: UtilTimer)
      requires Valid()
      modifies this
      ensures Valid() && View() == old(View()) - {timer}
    {
      if timer !in index {
        assert View() == View() - {timer};
        return;
      }
      Unlink(timer);
    }

    /**
      Takes out every timer whose time has come and returns them in the order in
      which their callbacks run: each expired timer once, earliest expiry first,
      and no other timer touched.
     */
    method Tick(now: int) returns (fired: seq<UtilTimer>)
      requires Valid()
      modifies this
      ensures Valid()
      ensures forall t :: t in fired <==> t in old(View()) && old(View())[t] <= now
      ensures forall i, j :: 0 <= i < j < |fired| ==>
        fired[i] != fired[j] && old(View())[fired[i]] <= old(View())[fired[j]]
      ensures View() == map t | t in old(View()) && old(View())[t] > now :: old(View())[t]
    {
      ghost var view := View();
      TickEffect(timers, index, view, now);
      hide Linked, InOrder, Due, NotDue, TimersOf, Nodes, Ids;
      fired := CollectDue(now);
      assert View() == view - (set t | t in fired);
    }

    method CollectDue(now: int) returns (fired: seq<UtilTimer>)
      modifies this`timers, this`index
      ensures timers == NotDue(old(timers), now)
      ensures fired == TimersOf(Due(old(timers), now))
      ensures index == old(index) - (set t | t in fired)
    {
      fired := [];
      while timers != [] && timers[0].key <= now
        invariant fired + TimersOf(Due(timers, now)) == TimersOf(Due(old(timers), now))
        invariant NotDue(timers, now) == NotDue(old(timers), now)
        invariant index == old(index) - (set t | t in fired)
        decreases |timers|
      {
        var timer := timers[0].timer;
        assert Due(timers, now)[1..] == Due(timers[1..], now);
        fired := fired + [timer];
        index := index - {timer};
        timers := timers[1..];
      }
    }
  }
}
