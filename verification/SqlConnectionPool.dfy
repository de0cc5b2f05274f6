/** The database connection pool: its critical sections, and every interleaving of getters and holders. */
module SqlConnectionPools {
  import opened Bytes
  import opened Gates

  class SqlConnectionPool<Conn> {
    var connList: seq<Conn>
    var freeConn: int
    var curConn: int
    var maxConn: int

    /** The counters tell the truth: what is free is what is listed, and the rest of the maximum is in use. */
    ghost predicate Valid()
      reads this
    {
      freeConn == |connList| && freeConn + curConn == maxConn
    }

    constructor (connections: seq<Conn>)
      ensures Valid() && connList == connections && curConn == 0
    {
      connList := connections;
      freeConn, curConn, maxConn := |connections|, 0, |connections|;
    }

    /** The critical section of GetConnection: None means that the caller has to wait. */
    method GetConnection() returns (conn: Option<Conn>)
      requires Valid()
      modifies this`connList, this`freeConn, this`curConn
      ensures Valid() && conn.Some? == (old(connList) != [])
      ensures conn.Some? ==> old(connList) == [conn.value] + connList && curConn == old(curConn) + 1
      ensures conn.None? ==> connList == old(connList) && curConn == old(curConn)
    {
      if connList == [] {
        return None;
      }
      conn := Some(connList[0]);
      connList := connList[1..];
      freeConn, curConn := freeConn - 1, curConn + 1;
    }

    /** The critical section of ReleaseConnection; a null connection is refused. */
    method ReleaseConnection(conn: Option<Conn>) returns (ok: bool)
      requires Valid()
      modifies this`connList, this`freeConn, this`curConn
      ensures Valid() && ok == conn.Some?
      ensures connList == if ok then old(connList) + [conn.value] else old(connList)
    {
      if conn.None? {
        return false;
      }
      connList := connList + [conn.value];
      freeConn, curConn := freeConn + 1, curConn - 1;
      return true;
    }

    /** How many connections a caller could get without waiting. */
    method GetFreeConn() returns (n: int)
      requires Valid()
      ensures n == |connList| == maxConn - curConn
    {
      return freeConn;
    }
  }

  // ----- all interleavings -----

  /** Connections are numbered; a holder is one scoped guard and holds one connection until it is destroyed. */
  datatype Pool = Pool(
    max: nat, connList: seq<nat>, freeConn: int, curConn: int, held: map<int, nat>, gate: Gate)

  datatype Step =
    | Request(t: int)
    | Look(t: int)
    | Release(t: int)
    | Notify(chosen: Option<int>)
    | Wake(t: int) // spurious

  ghost predicate Enabled(p: Pool, s: Step) {
    match s
    case Request(t) => Absent(p.gate, t) && t !in p.held
    case Look(t) => t in p.gate.awake
    case Release(t) => t in p.held
    case Notify(chosen) => p.gate.owed > 0 && MayChoose(p.gate, chosen)
    case Wake(t) => t in p.gate.waiting
  }

  ghost function Apply(p: Pool, s: Step): Pool
    requires Enabled(p, s)
  {
    match s
    case Request(t) => p.(gate := Arrive(p.gate, t))
    case Look(t) =>
      if p.connList != [] then
        p.(connList := p.connList[1..], held := p.held[t := p.connList[0]], gate := Leave(p.gate, t),
           freeConn := p.freeConn - 1, curConn := p.curConn + 1)
      else p.(gate := Sleep(p.gate, t))
    case Release(t) =>
      p.(connList := p.connList + [p.held[t]], held := p.held - {t}, gate := Owe(p.gate),
         freeConn := p.freeConn + 1, curConn := p.curConn - 1)
    case Notify(chosen) => p.(gate := Gates.Notify(p.gate, chosen))
    case Wake(t) => p.(gate := Gates.Wake(p.gate, t))
  }

  /** The steps do to the list what the critical sections of the class do to theirs. */
  lemma StepsMoveTheList(p: Pool, t: int)
    ensures Enabled(p, Look(t)) && p.connList != [] ==>
      var q := Apply(p, Look(t)); t in q.held && p.connList == [q.held[t]] + q.connList
    ensures Enabled(p, Look(t)) && p.connList == [] ==>
      var q := Apply(p, Look(t)); q.connList == [] && q.held == p.held
    ensures Enabled(p, Release(t)) ==> Apply(p, Release(t)).connList == p.connList + [p.held[t]]
  {
  }

  ghost function Start(max: nat): Pool {
    Pool(max, seq(max, i => i), max, 0, map[], QUIET)
  }

  ghost predicate HeldBySome(held: map<int, nat>, c: nat) { exists t :: t in held && held[t] == c }

  /** Every connection is in exactly one place: once in the list, or with exactly one holder. */
  ghost predicate OnePlace(max: nat, connList: seq<nat>, held: map<int, nat>) {
    && (forall i :: 0 <= i < |connList| ==> connList[i] < max && !HeldBySome(held, connList[i]))
    && (forall i, j :: 0 <= i < j < |connList| ==> connList[i] != connList[j])
    && (forall t :: t in held ==> held[t] < max)
    && (forall t, u :: t in held && u in held && held[t] == held[u] ==> t == u)
    && (forall c: nat :: c < max ==> c in connList || HeldBySome(held, c))
  }

  ghost predicate Counted(p: Pool) {
    p.freeConn == |p.connList| && p.curConn == |p.held| && p.freeConn + p.curConn == p.max
  }

  ghost predicate NotInside(p: Pool) { forall t :: t in p.held ==> Absent(p.gate, t) }

  ghost predicate Inv(p: Pool) {
    && OnePlace(p.max, p.connList, p.held) && Counted(p) && NotInside(p)
    && Covered(p.gate, |p.connList|)
  }

  lemma HeldByOthers(held: map<int, nat>, t: int, c: nat, d: nat)
    requires c != d && t !in held
    ensures HeldBySome(held[t := c], d) ==> HeldBySome(held, d)
  {
  }

  lemma HeldByRest(held: map<int, nat>, t: int, d: nat)
    requires t in held
    requires forall u, v :: u in held && v in held && held[u] == held[v] ==> u == v
    ensures HeldBySome(held - {t}, d) ==> HeldBySome(held, d) && d != held[t]
  {
  }

  lemma TakeKeeps(max: nat, connList: seq<nat>, held: map<int, nat>, t: int)
    requires OnePlace(max, connList, held) && connList != [] && t !in held
    ensures OnePlace(max, connList[1..], held[t := connList[0]])
  {
    var h, rest := held[t := connList[0]], connList[1..];
    forall i | 0 <= i < |rest| ensures rest[i] < max && !HeldBySome(h, rest[i]) {
      assert rest[i] == connList[i + 1] && connList[0] != connList[i + 1];
      HeldByOthers(held, t, connList[0], rest[i]);
    }
    forall u, v | u in h && v in h && h[u] == h[v] ensures u == v {
      assert u in held && u != t ==> HeldBySome(held, held[u]);
      assert v in held && v != t ==> HeldBySome(held, held[v]);
    }
    forall c: nat | c < max ensures c in rest || HeldBySome(h, c) {
      if c == connList[0] {
        assert t in h && h[t] == c;
      } else if c in connList {
        var i :| 0 <= i < |connList| && connList[i] == c;
        assert rest[i - 1] == c;
      } else {
        assert HeldBySome(held, c);
        var u :| u in held && held[u] == c;
        assert u in h && h[u] == c;
      }
    }
  }

  lemma GiveKeeps(max: nat, connList: seq<nat>, held: map<int, nat>, t: int)
    requires OnePlace(max, connList, held) && t in held
    ensures OnePlace(max, connList + [held[t]], held - {t})
  {
    var h, all := held - {t}, connList + [held[t]];
    assert HeldBySome(held, held[t]);
    forall i | 0 <= i < |all| ensures all[i] < max && !HeldBySome(h, all[i]) {
      HeldByRest(held, t, all[i]);
    }
    forall c: nat | c < max ensures c in all || HeldBySome(h, c) {
      if c in connList {
        var i :| 0 <= i < |connList| && connList[i] == c;
        assert all[i] == c;
      } else if c == held[t] {
        assert all[|connList|] == c;
      } else {
        assert HeldBySome(held, c);
        var u :| u in held && held[u] == c;
        assert u in h && h[u] == c;
      }
    }
  }

  lemma KeepsOnePlace(p: Pool, s: Step)
    requires OnePlace(p.max, p.connList, p.held) && NotInside(p) && Enabled(p, s)
    ensures var q := Apply(p, s); OnePlace(q.max, q.connList, q.held)
  {
    hide OnePlace;
    match s
    case Look(t) =>
      if p.connList != [] {
        TakeKeeps(p.max, p.connList, p.held, t);
      }
    case Release(t) => GiveKeeps(p.max, p.connList, p.held, t);
    case _ =>
  }

  lemma KeepsCounted(p: Pool, s: Step)
    requires Counted(p) && NotInside(p) && Enabled(p, s)
    ensures Counted(Apply(p, s)) && Apply(p, s).max == p.max
  {
  }

  lemma KeepsNotInside(p: Pool, s: Step)
    requires NotInside(p) && p.gate.waiting !! p.gate.awake && Enabled(p, s)
    ensures NotInside(Apply(p, s))
  {
  }

  lemma KeepsCovered(p: Pool, s: Step)
    requires Covered(p.gate, |p.connList|) && Enabled(p, s)
    ensures var q := Apply(p, s); Covered(q.gate, |q.connList|)
  {
  }

  lemma StepKeeps(p: Pool, s: Step)
    requires Inv(p) && Enabled(p, s)
    ensures Inv(Apply(p, s)) && Apply(p, s).max == p.max
  {
    hide Apply, Enabled, OnePlace, Counted, NotInside;
    KeepsOnePlace(p, s);
    KeepsCounted(p, s);
    KeepsNotInside(p, s);
    KeepsCovered(p, s);
  }

  ghost predicate IsRun(states: seq<Pool>, steps: seq<Step>) {
    && |states| == |steps| + 1
    && forall i :: 0 <= i < |steps| ==> Enabled(states[i], steps[i]) && states[i + 1] == Apply(states[i], steps[i])
  }

  lemma {:induction false} RunKeeps(states: seq<Pool>, steps: seq<Step>, n: nat)
    requires IsRun(states, steps) && n <= |steps| && states[0] == Start(states[0].max)
    ensures Inv(states[n]) && states[n].max == states[0].max
  {
    hide Inv, Apply, Enabled;
    if n == 0 {
      StartKeeps(states[0].max);
    } else {
      RunKeeps(states, steps, n - 1);
      StepKeeps(states[n - 1], steps[n - 1]);
    }
  }

  lemma StartKeeps(max: nat)
    ensures Inv(Start(max))
  {
    var p := Start(max);
    forall c: nat | c < max ensures c in p.connList {
      assert p.connList[c] == c;
    }
  }

  /** In every run: the counters are exact, nothing is lost, and no connection has two holders. */
  lemma ConnectionsConserved(states: seq<Pool>, steps: seq<Step>, n: nat, c: nat, t: int, u: int)
    requires IsRun(states, steps) && n <= |steps| && states[0] == Start(states[0].max) && c < states[0].max
    ensures var p := states[n];
            && p.freeConn == |p.connList| && p.curConn == |p.held| && p.freeConn + p.curConn == states[0].max
            && (c in p.connList <==> !HeldBySome(p.held, c))
            && (t in p.held && u in p.held && p.held[t] == p.held[u] ==> t == u)
  {
    hide Apply, Enabled;
    RunKeeps(states, steps, n);
  }

  /** While a getter sleeps, every free connection has a notification due or an awake getter on its way. */
  lemma NoLostWakeup(states: seq<Pool>, steps: seq<Step>, n: nat)
    requires IsRun(states, steps) && n <= |steps| && states[0] == Start(states[0].max)
    ensures var p := states[n];
            && (p.gate.waiting != {} ==> |p.connList| <= p.gate.owed + |p.gate.awake|)
            && (p.gate.waiting != {} && p.gate.owed == 0 && p.gate.awake == {} ==> |p.held| == states[0].max)
  {
    hide Apply, Enabled, OnePlace;
    RunKeeps(states, steps, n);
  }
}
