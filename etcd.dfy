/**
 * The Etcd table of the entity store: the minion's view of its etcd
 * cluster (members, and whether this minion leads). Rows are inserted with
 * a fresh ID, selected by an optional predicate, and read through the
 * leader query.
 */
module Db {

  /** One row of the Etcd table. */
  datatype Etcd = Etcd(id: int, etcdIPs: seq<string>, leader: bool, leaderIP: string)

  /** The selection predicate: Go's `nil` selects every row. */
  datatype Check = All | Where(p: Etcd -> bool)

  predicate Matches(check: Check, row: Etcd)
  {
    check.All? || check.p(row)
  }

  /** The rows selected by `check`, in table order (the reference for the selection loop). */
  function Filter(rows: seq<Etcd>, check: Check): seq<Etcd>
  {
    if rows == [] then []
    else Filter(rows[..|rows| - 1], check)
         + (if Matches(check, rows[|rows| - 1]) then [rows[|rows| - 1]] else [])
  }

  /** The leader test on a selection: exactly one row, and it leads. */
  predicate LeadsAlone(etcds: seq<Etcd>)
  {
    |etcds| == 1 && etcds[0].leader
  }

  /** Row IDs are unique within the table. */
  predicate DistinctIds(rows: seq<Etcd>)
  {
    forall i, j :: 0 <= i < j < |rows| ==> rows[i].id != rows[j].id
  }

  /** Selecting with a `nil` predicate returns every row. */
  lemma {:induction false} FilterAll(rows: seq<Etcd>)
    ensures Filter(rows, All) == rows
  {
    if rows != [] {
      FilterAll(rows[..|rows| - 1]);
      assert rows[..|rows| - 1] + [rows[|rows| - 1]] == rows;
    }
  }

  /** Each row satisfying the predicate is returned as often as it occurs, and no other row. */
  lemma {:induction false} FilterCount(rows: seq<Etcd>, check: Check)
    ensures forall x :: multiset(Filter(rows, check))[x] == if Matches(check, x) then multiset(rows)[x] else 0
  {
    if rows != [] {
      var init, last := rows[..|rows| - 1], rows[|rows| - 1];
      FilterCount(init, check);
      assert rows == init + [last];
    }
  }

  /** A row is selected exactly when it is in the table and satisfies the predicate. */
  lemma FilterMember(rows: seq<Etcd>, check: Check, x: Etcd)
    ensures x in Filter(rows, check) <==> x in rows && Matches(check, x)
  {
    FilterCount(rows, check);
    assert x in Filter(rows, check) <==> multiset(Filter(rows, check))[x] > 0;
    assert x in rows <==> multiset(rows)[x] > 0;
  }

  /** Unique IDs stay unique in a selection, so no row is returned twice. */
  lemma {:induction false} FilterDistinct(rows: seq<Etcd>, check: Check)
    requires DistinctIds(rows)
    ensures DistinctIds(Filter(rows, check))
  {
    if rows != [] {
      var init, last := rows[..|rows| - 1], rows[|rows| - 1];
      FilterDistinct(init, check);
      if Matches(check, last) {
        var r := Filter(rows, check);
        assert r == Filter(init, check) + [last];
        forall i | 0 <= i < |r| - 1
          ensures r[i].id != last.id
        {
          FilterMember(init, check, r[i]);
          var k :| 0 <= k < |init| && init[k] == r[i];
        }
      }
    }
  }

  /** Selecting twice with the same predicate selects nothing more. */
  lemma {:induction false} FilterIdempotent(rows: seq<Etcd>, check: Check)
    ensures Filter(Filter(rows, check), check) == Filter(rows, check)
  {
    if rows != [] {
      var init, last := rows[..|rows| - 1], rows[|rows| - 1];
      FilterIdempotent(init, check);
      var f := Filter(init, check);
      if Matches(check, last) {
        assert (f + [last])[..|f + [last]| - 1] == f;
        assert Filter(f + [last], check) == Filter(f, check) + [last];
      } else {
        assert Filter(rows, check) == f + [];
        assert f + [] == f;
      }
    }
  }

  /**
   * `EtcdLeader` over the whole table: true iff the table holds exactly one
   * row and that row leads. An empty table, or two rows, give false.
   */
  lemma LeaderIffSingleLeader(rows: seq<Etcd>)
    ensures LeadsAlone(Filter(rows, All)) <==> |rows| == 1 && rows[0].leader
    ensures |rows| != 1 ==> !LeadsAlone(Filter(rows, All))
  {
    FilterAll(rows);
  }

  /**
   * A view of the store inside a transaction, restricted to its Etcd table.
   * `rows` is the table in the order a selection visits it; `lastId` is the
   * last ID handed out by the store.
   */
  class Database {
    var rows: seq<Etcd>
    var lastId: int

    ghost predicate Valid()
      reads this
    {
      && DistinctIds(rows)
      && forall i :: 0 <= i < |rows| ==> rows[i].id <= lastId
    }

    constructor ()
      ensures Valid() && rows == [] && lastId == 0
    {
      rows := [];
      lastId := 0;
    }

    /** `InsertEtcd`: a new row with a fresh ID and zero values, added and returned. */
    method InsertEtcd() returns (result: Etcd)
      requires Valid()
      modifies this
      ensures Valid()
      ensures result == Etcd(lastId, [], false, "")
      ensures lastId == old(lastId) + 1
      ensures rows == old(rows) + [result]
      ensures forall i :: 0 <= i < |old(rows)| ==> old(rows)[i].id < result.id
    {
      var id := NextId();
      result := Etcd(id, [], false, "");
      rows := rows + [result];
    }

    /** The store's ID allocator: one past the last ID handed out. */
    method NextId() returns (id: int)
      requires Valid()
      modifies this
      ensures Valid() && rows == old(rows)
      ensures id == lastId == old(lastId) + 1
      ensures forall i :: 0 <= i < |rows| ==> rows[i].id < id
    {
      lastId := lastId + 1;
      id := lastId;
    }

    /** `SelectFromEtcd`: the rows satisfying `check`, in table order. */
    method SelectFromEtcd(check: Check) returns (result: seq<Etcd>)
      ensures result == Filter(rows, check)
    {
      result := [];
      for i := 0 to |rows|
        invariant result == Filter(rows[..i], check)
      {
        assert rows[..i + 1][..i] == rows[..i];
        if Matches(check, rows[i]) {
          result := result + [rows[i]];
        }
      }
      assert rows[..|rows|] == rows;
    }

    /** `EtcdLeader`: whether this minion is the lead master of the etcd cluster. */
    method EtcdLeader() returns (leader: bool)
      ensures leader <==> |rows| == 1 && rows[0].leader
    {
      var etcds := SelectFromEtcd(All);
      FilterAll(rows);
      leader := |etcds| == 1 && etcds[0].leader;
    }
  }

  /** A connection to the store: each query runs in one transaction over one view. */
  class Conn {
    const view: Database

    constructor (view: Database)
      ensures this.view == view
    {
      this.view := view;
    }

    /** `Conn.EtcdLeader`: the view's leader query; nothing is written. */
    method EtcdLeader() returns (leader: bool)
      ensures leader <==> |view.rows| == 1 && view.rows[0].leader
    {
      leader := view.EtcdLeader();
    }

    /** `Conn.SelectFromEtcd`: the view's selection; nothing is written. */
    method SelectFromEtcd(check: Check) returns (etcdRows: seq<Etcd>)
      ensures etcdRows == Filter(view.rows, check)
    {
      etcdRows := view.SelectFromEtcd(check);
    }
  }
}
