/** The registry of connections, `common/network/session_manager.go`: its values, and the object
    that keeps it. */
module SessionManagers {

  datatype AddOutcome = Added | NilConn | ManagerClosed | IdExists | LimitReached

  datatype Registry<C> = Registry(conns: map<nat, C>, closed: bool, maxConns: int)
  {
    /** `maxConns` limits the registrations when it is positive. */
    ghost predicate Valid() {
      maxConns > 0 ==> |conns| <= maxConns
    }

    function Outcome(id: nat): AddOutcome {
      if closed then ManagerClosed
      else if id in conns then IdExists
      else if maxConns > 0 && |conns| >= maxConns then LimitReached
      else Added
    }

    function With(id: nat, c: C): Registry<C> {
      if Outcome(id) == Added then this.(conns := conns[id := c]) else this
    }

    function Without(id: nat): Registry<C> {
      this.(conns := conns - {id})
    }
  }

  /** The limit is kept; a registered connection is found until it is removed and is never
      replaced; nothing is registered in a closed registry. */
  lemma AddKeepsRegistrations<C>(r: Registry<C>, id: nat, c: C)
    requires r.Valid()
    ensures r.With(id, c).Valid()
    ensures forall k :: k in r.conns ==> k in r.With(id, c).conns && r.With(id, c).conns[k] == r.conns[k]
    ensures id !in r.conns && id in r.With(id, c).conns <==>
              !r.closed && id !in r.conns && (r.maxConns <= 0 || |r.conns| < r.maxConns)
    ensures r.With(id, c).closed == r.closed && r.With(id, c).maxConns == r.maxConns
    ensures r.Outcome(id) == Added ==> r.With(id, c).conns == r.conns[id := c]
    ensures r.Outcome(id) != Added ==> r.With(id, c) == r
    ensures r.Outcome(id) == ManagerClosed <==> r.closed
    ensures r.Outcome(id) == IdExists <==> !r.closed && id in r.conns
    ensures r.Outcome(id) == LimitReached <==> !r.closed && id !in r.conns && 0 < r.maxConns <= |r.conns|
    ensures r.Outcome(id) != NilConn
  {
    if r.Outcome(id) == Added {
      assert r.conns[id := c].Keys == r.conns.Keys + {id};
    }
  }

  lemma RemoveKeepsOthers<C>(r: Registry<C>, id: nat)
    requires r.Valid()
    ensures r.Without(id).Valid()
    ensures id !in r.Without(id).conns
    ensures forall k :: k != id ==>
              (k in r.Without(id).conns <==> k in r.conns)
              && (k in r.conns ==> r.Without(id).conns[k] == r.conns[k])
  {
    assert (r.conns - {id}).Keys == r.conns.Keys - {id};
    if id in r.conns {
      assert |r.conns.Keys - {id}| == |r.conns.Keys| - 1;
    } else {
      assert r.conns.Keys - {id} == r.conns.Keys;
    }
  }

  /** What a registered connection is to the manager: an identity and a Close that takes effect
      once and always reports the error of that first time. */
  class Connection {
    const id: nat
    const closeFails: bool
    var closed: bool
    var closes: nat              // closes of the transport below

    ghost predicate Valid()
      reads `closed, `closes
    {
      closes == if closed then 1 else 0
    }

    constructor (id: nat, closeFails: bool)
      ensures Valid() && this.id == id && this.closeFails == closeFails && !closed
    {
      this.id, this.closeFails, closed, closes := id, closeFails, false, 0;
    }

    method Close() returns (failed: bool)
      requires Valid()
      modifies `closed, `closes
      ensures Valid() && closed && failed == closeFails
    {
      if !closed {
        closed, closes := true, closes + 1;
      }
      failed := closeFails;
    }
  }

  class SessionManager {
    var conns: map<nat, Connection>
    const maxConns: int
    var closed: bool
    var closeOnce: bool
    var closeErr: set<nat>       // the connections whose Close failed

    ghost function View(): Registry<Connection>
      reads `conns, `closed
    {
      Registry(conns, closed, maxConns)
    }

    ghost predicate Valid()
      reads this
    {
      && View().Valid()
      && (forall id :: id in conns ==> conns[id].id == id)
      && closed == closeOnce && (!closeOnce ==> closeErr == {})
    }

    ghost predicate ConnsValid()
      reads `conns, conns.Values
    {
      forall id :: id in conns ==> conns[id].Valid()
    }

    constructor (maxConns: int)
      ensures Valid() && View() == Registry(map[], false, maxConns) && closeErr == {}
    {
      conns, this.maxConns, closed, closeOnce, closeErr := map[], maxConns, false, false, {};
    }

    method Add(conn: Connection?) returns (outcome: AddOutcome)
      requires Valid()
      modifies `conns
      ensures Valid()
      ensures outcome == if conn == null then NilConn else old(View()).Outcome(conn.id)
      ensures View() == if conn == null then old(View()) else old(View()).With(conn.id, conn)
    {
      if conn == null {
        return NilConn;
      }
      AddKeepsRegistrations(View(), conn.id, conn);
      if closed {
        return ManagerClosed;
      }
      if conn.id in conns {
        return IdExists;
      }
      if maxConns > 0 && |conns| >= maxConns {
        return LimitReached;
      }
      conns := conns[conn.id := conn];
      return Added;
    }

    method Remove(id: nat)
      requires Valid()
      modifies `conns
      ensures Valid() && View() == old(View()).Without(id)
    {
      RemoveKeepsOthers(View(), id);
      conns := conns - {id};
    }

    method Get(id: nat) returns (conn: Connection?)
      requires Valid()
      ensures conn != null <==> id in conns
      ensures conn != null ==> conn == conns[id] && conn.id == id
    {
      conn := if id in conns then conns[id] else null;
    }

    method Len() returns (n: nat)
      requires Valid()
      ensures n == |conns| && (maxConns > 0 ==> n <= maxConns)
    {
      n := |conns|;
    }

    /** The loop over the snapshot. */
    method CloseAll()
      requires ConnsValid() && closeErr == {}
      modifies `closeErr, conns.Values
      ensures ConnsValid() && (forall id :: id in conns ==> conns[id].closed)
      ensures closeErr == set id | id in conns && conns[id].closeFails
    {
      var snapshot := conns.Keys;
      while snapshot != {}
        invariant snapshot <= conns.Keys && ConnsValid()
        invariant forall id :: id in conns && id !in snapshot ==> conns[id].closed
        invariant closeErr == set id | id in conns && id !in snapshot && conns[id].closeFails
        decreases snapshot
      {
        var id :| id in snapshot;
        var conn := conns[id];
        var failed := conn.Close();
        if failed {
          closeErr := closeErr + {id};
        }
        snapshot := snapshot - {id};
      }
    }

    /** The first call closes every connection registered at that moment, each transport once in
        all, and registers none from then on; no call registers or removes a connection. */
    method Close() returns (err: set<nat>)
      requires Valid() && ConnsValid()
      modifies `closed, `closeOnce, `closeErr, conns.Values
      ensures Valid() && ConnsValid()
      ensures View() == old(View()).(closed := true) && closeOnce && err == closeErr
      ensures old(closeOnce) ==> closeErr == old(closeErr)
      ensures !old(closeOnce) ==>
                && (forall id :: id in conns ==> conns[id].closed)
                && closeErr == set id | id in conns && conns[id].closeFails
    {
      if !closeOnce {
        closeOnce, closed := true, true;
        CloseAll();
      }
      err := closeErr;
    }
  }
}
