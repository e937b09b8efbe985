/** The class ConnectionPool and its slots. The driver's answers are given; logging and closing are left out. */
module ConnectionPools {
  import opened Sequences
  import opened Wrappers
  import opened Pools

  class WrapperConnection {
    var connection: Connection
    var busy: bool

    constructor (connection: Connection)
      ensures this.connection == connection && !busy
    {
      this.connection, busy := connection, false;
    }
  }

  ghost function Slots(v: seq<WrapperConnection>): (s: seq<Slot>)
    reads v
    ensures |s| == |v|
  {
    seq(|v|, i requires 0 <= i < |v| reads v => Slot(v[i].connection, v[i].busy))
  }

  class ConnectionPool {
    const driver: Driver
    const incrementalConnections: int
    var connectionPool: seq<WrapperConnection>
    var maxConnections: int
    var attempts: nat
    var tests: nat

    ghost predicate Valid()
      reads `connectionPool
    {
      Distinct(connectionPool)
    }

    ghost function Value(): Pool
      reads this, connectionPool
    {
      Pool(Slots(connectionPool), maxConnections, attempts, tests)
    }

    constructor (driver: Driver, initialConnections: int, incrementalConnections: int, maxConnections: int)
      ensures Valid() && forall w :: w in connectionPool ==> fresh(w)
      ensures this.driver == driver && this.incrementalConnections == incrementalConnections
      ensures Value() == Pools.CreateConnections(driver, Pool([], maxConnections, 0, 0), initialConnections)
    {
      this.driver, this.incrementalConnections, this.maxConnections := driver, incrementalConnections, maxConnections;
      connectionPool, attempts, tests := [], 0, 0;
      new;
      CreateConnections(initialConnections);
    }

    method NewConnection() returns (conn: Option<Connection>)
      modifies `maxConnections, `attempts
      ensures (Value(), conn) == Pools.NewConnection(driver, old(Value()))
    {
      conn := if driver.opens(attempts) then Some(attempts) else None;
      attempts := attempts + 1;
      if conn.Some? && |connectionPool| == 0 {
        var driverMaxConnections := driver.limit;
        if driverMaxConnections > 0 && maxConnections > driverMaxConnections {
          maxConnections := driverMaxConnections;
        }
      }
    }

    method CreateConnections(numConnections: int)
      requires Valid()
      modifies `connectionPool, `maxConnections, `attempts
      ensures Valid() && old(connectionPool) <= connectionPool
      ensures forall w :: w in connectionPool && w !in old(connectionPool) ==> fresh(w)
      ensures Value() == Pools.CreateConnections(driver, old(Value()), numConnections)
    {
      var x := 0;
      while x < numConnections
        invariant 0 < numConnections ==> x <= numConnections
        invariant Valid() && old(connectionPool) <= connectionPool
        invariant forall w :: w in connectionPool && w !in old(connectionPool) ==> fresh(w)
        invariant Pools.CreateConnections(driver, Value(), numConnections - x)
               == Pools.CreateConnections(driver, old(Value()), numConnections)
      {
        if maxConnections > 0 && |connectionPool| >= maxConnections {
          break;
        }
        var conn := NewConnection();
        if conn.Some? {
          AddElement(conn.value);
        }
        x := x + 1;
      }
    }

    method AddElement(conn: Connection)
      requires Valid()
      modifies `connectionPool
      ensures Valid() && |connectionPool| == |old(connectionPool)| + 1 && old(connectionPool) <= connectionPool
      ensures fresh(connectionPool[|old(connectionPool)|])
      ensures Slots(connectionPool) == old(Slots(connectionPool)) + [Slot(conn, false)]
    {
      var w := new WrapperConnection(conn);
      connectionPool := connectionPool + [w];
    }

    method FindFreeConnection() returns (conn: Option<Connection>)
      requires Valid()
      modifies `maxConnections, `attempts, `tests, (set w | w in connectionPool)
      ensures (Value(), conn) == Pools.FindFreeConnection(driver, old(Value()))
    {
      conn := None;
      var i := 0;
      while i < |connectionPool|
        invariant i <= |connectionPool| && AllBusy(Slots(connectionPool)[..i])
        invariant Value() == old(Value()) && conn == None
      {
        if !connectionPool[i].busy {
          FirstFreeAt(Slots(connectionPool), i);
          conn := ClaimSlot(i);
          return;
        }
        i := i + 1;
      }
      assert Slots(connectionPool)[..i] == Slots(connectionPool);
    }

    method ClaimSlot(i: nat) returns (conn: Option<Connection>)
      requires Valid() && i < |connectionPool| && FirstFree(Slots(connectionPool)) == i
      modifies `maxConnections, `attempts, `tests, (set w | w in connectionPool)
      ensures (Value(), conn) == Pools.FindFreeConnection(driver, old(Value()))
    {
      ghost var before := Value();
      var pConn := connectionPool[i];
      conn := Some(pConn.connection);
      pConn.busy := true;
      var alive := driver.alive(tests);
      tests := tests + 1;
      assert Value() == before.(slots := before.slots[i := Slot(conn.value, true)], tests := before.tests + 1);
      if !alive {
        ghost var claimed := Slots(connectionPool);
        conn := NewConnection();
        if conn.Some? {
          pConn.connection := conn.value;
          assert Slots(connectionPool) == claimed[i := Slot(conn.value, true)];
        }
      }
    }

    method GetFreeConnection() returns (conn: Option<Connection>)
      requires Valid()
      modifies this, (set w | w in connectionPool)
      ensures Valid() && old(connectionPool) <= connectionPool
      ensures (Value(), conn) == Pools.GetFreeConnection(driver, old(Value()), incrementalConnections)
    {
      conn := FindFreeConnection();
      if conn == None {
        CreateConnections(incrementalConnections);
        assert forall w :: w in connectionPool ==> w in old(connectionPool) || fresh(w);
        conn := FindFreeConnection();
      }
    }

    method ReturnConnection(conn: Connection)
      requires Valid()
      modifies (set w | w in connectionPool)
      ensures Value() == old(Value()).(slots := Pools.ReturnConnection(old(Value()).slots, conn))
    {
      ghost var slots := Slots(connectionPool);
      var i := 0;
      while i < |connectionPool|
        invariant i <= |connectionPool| && Value() == old(Value())
        invariant forall j :: 0 <= j < i ==> slots[j].connection != conn
      {
        if conn == connectionPool[i].connection {
          ReturnedAt(slots, conn, i);
          connectionPool[i].busy := false;
          assert Slots(connectionPool) == slots[i := Slot(conn, false)];
          return;
        }
        i := i + 1;
      }
      ReturnUnknown(slots, conn);
    }
  }

  lemma FirstFreeAt(slots: seq<Slot>, i: nat)
    requires i < |slots| && AllBusy(slots[..i]) && !slots[i].busy
    ensures FirstFree(slots) == i
  {
    var k := FirstFree(slots);
    forall j | 0 <= j < i
      ensures slots[j].busy
    {
      assert slots[..i][j].busy;
    }
    forall j | 0 <= j < k
      ensures slots[j].busy
    {
      assert slots[..k][j].busy;
    }
  }
}
