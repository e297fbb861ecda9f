// Fallback chains of backends per entity (backend/app/db/backends.py, schema.py).
module FallbackChains {
  import opened Prelude

  datatype Row = Row(kind: string, backend: string, account: Option<int>)

  // entry["backend_type"]: the key is absent, it is None, or it names a backend.
  datatype BackendField = Missing | Null | Named(name: string)

  datatype Entry = Entry(backend: BackendField, account: Option<int>)

  datatype Outcome = Raised | Returned(value: bool)

  // Table fallback_chains under UNIQUE(entity_id, chain_order): the entity type is not in the key.
  type Table = map<(string, nat), Row>

  // The row of this chain at order o.
  function RowAt(t: Table, kind: string, id: string, o: nat): Option<Row> {
    if (id, o) in t && t[(id, o)].kind == kind then Some(t[(id, o)]) else None
  }

  predicate At(t: Table, kind: string, id: string, o: nat) { RowAt(t, kind, id, o).Some? }

  // The chain of an entity, with orders exactly 0 to |chain| - 1.
  ghost predicate IsChain(t: Table, kind: string, id: string, chain: seq<Row>) {
    forall o: nat :: RowAt(t, kind, id, o) == if o < |chain| then Some(chain[o]) else None
  }

  // What every operation keeps.
  ghost predicate Dense(t: Table) { forall kind, id :: HasChain(t, kind, id) }

  ghost predicate HasChain(t: Table, kind: string, id: string) { exists chain: seq<Row> :: IsChain(t, kind, id, chain) }

  // Another entity type holds a nonempty chain under the same id.
  ghost predicate Blocked(t: Table, kind: string, id: string) {
    exists other, o: nat :: other != kind && At(t, other, id, o)
  }

  // A dense table has a row of order 0 for each nonempty chain, so one id serves one type only.
  lemma OneTypePerId(t: Table, a: string, b: string, id: string, o: nat, p: nat)
    requires Dense(t) && At(t, a, id, o) && At(t, b, id, p)
    ensures a == b
  {
    assert HasChain(t, a, id) && HasChain(t, b, id);
    assert At(t, a, id, 0) && At(t, b, id, 0);
  }

  function Deleted(t: Table, kind: string, id: string): Table {
    map key | key in t && !(key.0 == id && t[key].kind == kind) :: t[key]
  }

  function RowOf(kind: string, e: Entry): Row
    requires e.backend.Named?
  {
    Row(kind, e.backend.name, e.account)
  }

  ghost predicate AllNamed(entries: seq<Entry>) { forall i :: 0 <= i < |entries| ==> entries[i].backend.Named? }

  // Rows of the first n entries inserted at orders 0 to n - 1.
  function Inserted(t: Table, kind: string, id: string, entries: seq<Entry>, n: nat): Table
    requires n <= |entries| && forall i :: 0 <= i < n ==> entries[i].backend.Named?
  {
    if n == 0 then t
    else Inserted(t, kind, id, entries, n - 1)[(id, n - 1) := RowOf(kind, entries[n - 1])]
  }

  lemma {:induction false} InsertedAt(t: Table, kind: string, id: string, entries: seq<Entry>, n: nat,
                                      key: (string, nat))
    requires n <= |entries| && forall i :: 0 <= i < n ==> entries[i].backend.Named?
    ensures var r := Inserted(t, kind, id, entries, n);
            if key.0 == id && key.1 < n then key in r && r[key] == RowOf(kind, entries[key.1])
            else (key in r <==> key in t) && (key in r ==> r[key] == t[key])
  {
    if n > 0 {
      InsertedAt(t, kind, id, entries, n - 1, key);
    }
  }

  // The whole table after a successful set_fallback_chain.
  function Replaced(t: Table, kind: string, id: string, entries: seq<Entry>): Table
    requires forall i :: 0 <= i < |entries| ==> entries[i].backend.Named?
  {
    Inserted(Deleted(t, kind, id), kind, id, entries, |entries|)
  }

  function RowsOf(kind: string, entries: seq<Entry>): seq<Row>
    requires forall i :: 0 <= i < |entries| ==> entries[i].backend.Named?
  {
    seq(|entries|, i requires 0 <= i < |entries| => RowOf(kind, entries[i]))
  }

  // Reading back a chain that was set gives the entries in order, and every other chain is as before.
  lemma SetThenGet(t: Table, kind: string, id: string, entries: seq<Entry>)
    requires AllNamed(entries) && (entries == [] || !Blocked(t, kind, id))
    ensures IsChain(Replaced(t, kind, id, entries), kind, id, RowsOf(kind, entries))
    ensures forall k, x, o: nat :: (k, x) != (kind, id) ==>
              RowAt(Replaced(t, kind, id, entries), k, x, o) == RowAt(t, k, x, o)
  {
    var r := Replaced(t, kind, id, entries);
    hide Inserted, Replaced;
    forall o: nat
      ensures RowAt(r, kind, id, o) == if o < |entries| then Some(RowOf(kind, entries[o])) else None
    {
      AtReplaced(t, kind, id, entries, (id, o));
    }
    forall k, x, o: nat | (k, x) != (kind, id)
      ensures RowAt(r, k, x, o) == RowAt(t, k, x, o)
    {
      AtReplaced(t, kind, id, entries, (x, o));
      if x == id && o < |entries| {
        assert !Blocked(t, kind, id) && !At(t, k, x, o);
      }
    }
  }

  lemma AtReplaced(t: Table, kind: string, id: string, entries: seq<Entry>, key: (string, nat))
    requires AllNamed(entries)
    ensures var r := Replaced(t, kind, id, entries);
            if key.0 == id && key.1 < |entries|
            then key in r && r[key] == Row(kind, entries[key.1].backend.name, entries[key.1].account)
            else (key in r <==> key in t && !(key.0 == id && t[key].kind == kind)) && (key in r ==> r[key] == t[key])
  {
    InsertedAt(Deleted(t, kind, id), kind, id, entries, |entries|, key);
  }

  lemma SameChain(t: Table, r: Table, kind: string, id: string)
    requires HasChain(t, kind, id)
    requires forall o: nat :: RowAt(r, kind, id, o) == RowAt(t, kind, id, o)
    ensures HasChain(r, kind, id)
  {
    var chain :| IsChain(t, kind, id, chain);
    assert IsChain(r, kind, id, chain);
  }

  lemma ReplacedStaysDense(t: Table, kind: string, id: string, entries: seq<Entry>)
    requires Dense(t) && AllNamed(entries) && (entries == [] || !Blocked(t, kind, id))
    ensures Dense(Replaced(t, kind, id, entries))
  {
    var r := Replaced(t, kind, id, entries);
    SetThenGet(t, kind, id, entries);
    hide Replaced;
    forall k, x ensures HasChain(r, k, x) {
      if (k, x) == (kind, id) {
        assert IsChain(r, k, x, RowsOf(kind, entries));
      } else {
        assert HasChain(t, k, x);
        hide IsChain, At;
        SameChain(t, r, k, x);
      }
    }
  }

  lemma DeletedIsReplaced(t: Table, kind: string, id: string)
    ensures Deleted(t, kind, id) == Replaced(t, kind, id, [])
  {
  }

  // A blocked id is blocked at the very first order.
  lemma BlockedAtZero(t: Table, kind: string, id: string)
    requires Dense(t)
    ensures Blocked(t, kind, id) <==> (id, 0) in Deleted(t, kind, id)
  {
    if Blocked(t, kind, id) {
      var other, o: nat :| other != kind && At(t, other, id, o);
      assert HasChain(t, other, id);
      assert At(t, other, id, 0);
    }
    if (id, 0) in Deleted(t, kind, id) {
      assert At(t, t[(id, 0)].kind, id, 0);
    }
  }

  // Without the entity type in the key, a team's chain keeps an agent of the same id from having one.
  lemma UniquenessOmitsType(id: string, backend: string)
    ensures var t: Table := map[(id, 0) := Row("team", backend, None)];
            Dense(t) && Blocked(t, "agent", id)
  {
    var t: Table := map[(id, 0) := Row("team", backend, None)];
    assert "team"[0] != "agent"[0];
    assert At(t, "team", id, 0);
    forall k, x ensures HasChain(t, k, x) {
      assert IsChain(t, k, x, if k == "team" && x == id then [t[(id, 0)]] else []);
    }
  }

  lemma LeastOrder(s: set<nat>) returns (m: nat)
    requires s != {}
    ensures m in s && forall x :: x in s ==> m <= x
  {
    m := Member(s);
    while exists x :: x in s && x < m
      invariant m in s
      decreases m
    {
      var x :| x in s && x < m;
      m := x;
    }
  }

  // Something is deleted exactly when the chain has a row.
  lemma DifferenceIsChain(t: Table, kind: string, id: string)
    ensures Deleted(t, kind, id) != t <==> exists o: nat :: At(t, kind, id, o)
  {
    if o: nat :| At(t, kind, id, o) {
      assert (id, o) in t && (id, o) !in Deleted(t, kind, id);
    } else {
      forall key: (string, nat) | key in t ensures key in Deleted(t, kind, id) {
        assert !At(t, kind, id, key.1);
      }
    }
  }

  // If no other type holds the id, no insert clashes.
  lemma NoLaterClash(t: Table, kind: string, id: string, o: nat)
    ensures !Blocked(t, kind, id) ==> (id, o) !in Deleted(t, kind, id)
  {
    if (id, o) in Deleted(t, kind, id) {
      assert At(t, t[(id, o)].kind, id, o);
    }
  }

  // Increasing orders that are exactly those of a dense chain are 0, 1, 2, ...
  lemma DenseOrders(t: Table, kind: string, id: string, orders: seq<nat>, rows: seq<Row>)
    requires Dense(t) && |rows| == |orders|
    requires forall i :: 0 <= i < |orders| ==> RowAt(t, kind, id, orders[i]) == Some(rows[i])
    requires forall i, j :: 0 <= i < j < |orders| ==> orders[i] < orders[j]
    requires forall o: nat :: At(t, kind, id, o) <==> o in orders
    ensures IsChain(t, kind, id, rows)
  {
    assert HasChain(t, kind, id);
    var chain :| IsChain(t, kind, id, chain);
    hide Dense, IsChain;
    assert forall o: nat :: o in orders <==> o < |chain| by { ChainOrders(t, kind, id, chain); }
    IncreasingIsIdentity(orders, |chain|);
    ByOrder(t, kind, id, orders, rows);
  }

  lemma ByOrder(t: Table, kind: string, id: string, orders: seq<nat>, rows: seq<Row>)
    requires |rows| == |orders|
    requires forall i :: 0 <= i < |orders| ==> orders[i] == i
    requires forall i :: 0 <= i < |orders| ==> RowAt(t, kind, id, orders[i]) == Some(rows[i])
    requires forall o: nat :: At(t, kind, id, o) <==> o in orders
    ensures IsChain(t, kind, id, rows)
  {
    hide RowAt;
    forall o: nat ensures RowAt(t, kind, id, o) == if o < |rows| then Some(rows[o]) else None {
      if o < |rows| {
        assert orders[o] == o;
      } else {
        assert o !in orders;
        assert !At(t, kind, id, o);
      }
    }
  }

  lemma ChainOrders(t: Table, kind: string, id: string, chain: seq<Row>)
    requires IsChain(t, kind, id, chain)
    ensures forall o: nat :: At(t, kind, id, o) <==> o < |chain|
  {
  }

  lemma LastIsGreatest(orders: seq<nat>, i: nat)
    requires forall i, j :: 0 <= i < j < |orders| ==> orders[i] < orders[j]
    requires i < |orders|
    ensures i == |orders| - 1 || orders[i] < orders[|orders| - 1]
  {
  }

  lemma {:induction false} IncreasingIsIdentity(orders: seq<nat>, n: nat)
    requires forall i, j :: 0 <= i < j < |orders| ==> orders[i] < orders[j]
    requires forall o: nat :: o in orders <==> o < n
    ensures |orders| == n && forall i :: 0 <= i < n ==> orders[i] == i
  {
    forall i | 0 <= i < |orders| ensures orders[i] < n {
      assert orders[i] in orders;
    }
    if n > 0 {
      assert n - 1 in orders;
      var i :| 0 <= i < |orders| && orders[i] == n - 1;
      LastIsGreatest(orders, i);
      assert i == |orders| - 1;
      var init := orders[..i];
      forall o: nat ensures o in init <==> o < n - 1 {
        if o < n - 1 {
          assert o in orders;
          var j :| 0 <= j < |orders| && orders[j] == o;
          assert j < i;
          assert init[j] == o;
        }
        if o in init {
          assert o in orders;
        }
      }
      IncreasingIsIdentity(init, n - 1);
      assert orders == init + [n - 1];
    }
  }

  // Some row of the id belongs to another entity type.
  lemma BlockedMeans(t: Table, kind: string, id: string)
    ensures Blocked(t, kind, id) <==> exists o: nat :: (id, o) in t && t[(id, o)].kind != kind
  {
    if o: nat :| (id, o) in t && t[(id, o)].kind != kind {
      assert At(t, t[(id, o)].kind, id, o);
    }
  }

  class Chains {
    var table: Table

    constructor ()
      ensures table == map[] && Dense(table)
    {
      table := map[];
      new;
      forall kind, id ensures HasChain(table, kind, id) {
        assert IsChain(table, kind, id, []);
      }
    }

    // Rows in chain order, whatever the table holds; in a dense table their orders are 0, 1, 2, ...
    method GetFallbackChain(kind: string, id: string) returns (orders: seq<nat>, rows: seq<Row>)
      ensures |orders| == |rows|
      ensures forall i, j :: 0 <= i < j < |orders| ==> orders[i] < orders[j]
      ensures forall o: nat :: At(table, kind, id, o) <==> o in orders
      ensures forall i :: 0 <= i < |orders| ==> RowAt(table, kind, id, orders[i]) == Some(rows[i])
      ensures Dense(table) ==> IsChain(table, kind, id, rows)
      ensures forall i :: 0 <= i < |orders| ==> (id, orders[i]) in table && table[(id, orders[i])] == rows[i]
      ensures forall o: nat :: o in orders <==> (id, o) in table && table[(id, o)].kind == kind
    {
      var left := set key | key in table && key.0 == id && table[key].kind == kind :: key.1;
      orders, rows := [], [];
      while left != {}
        invariant |orders| == |rows|
        invariant forall i, j :: 0 <= i < j < |orders| ==> orders[i] < orders[j]
        invariant forall o: nat :: At(table, kind, id, o) <==> o in orders || o in left
        invariant forall i :: 0 <= i < |orders| ==> RowAt(table, kind, id, orders[i]) == Some(rows[i])
        invariant forall i, o :: 0 <= i < |orders| && o in left ==> orders[i] < o
        decreases |left|
      {
        ghost var least := LeastOrder(left);
        var o: nat :| o in left && forall x :: x in left ==> o <= x;
        assert At(table, kind, id, o);
        orders, rows := orders + [o], rows + [table[(id, o)]];
        left := left - {o};
      }
      if Dense(table) {
        DenseOrders(table, kind, id, orders, rows);
      }
    }

    method SetFallbackChain(kind: string, id: string, entries: seq<Entry>) returns (outcome: Outcome)
      requires Dense(table)
      modifies this
      ensures Dense(table)
      ensures outcome == Returned(true) <==>
                || entries == []
                || (AllNamed(entries) && forall o: nat :: (id, o) in old(table) ==> old(table)[(id, o)].kind == kind)
      ensures outcome == Raised <==>
                exists i :: 0 <= i < |entries| && entries[i].backend.Missing? &&
                            (i == 0 || !Blocked(old(table), kind, id)) &&
                            forall j :: 0 <= j < i ==> entries[j].backend.Named?
      ensures outcome == Returned(true) ==>
                AllNamed(entries) && table == Replaced(old(table), kind, id, entries)
      ensures outcome == Returned(true) ==> forall key: (string, nat) ::
                if key.0 == id && key.1 < |entries|
                then key in table && table[key] == Row(kind, entries[key.1].backend.name, entries[key.1].account)
                else && (key in table <==> key in old(table) && !(key.0 == id && old(table)[key].kind == kind))
                     && (key in table ==> table[key] == old(table)[key])
      ensures outcome != Returned(true) ==> table == old(table)
    {
      var work := Deleted(table, kind, id);
      BlockedAtZero(table, kind, id);
      BlockedMeans(table, kind, id);
      hide Dense, Blocked;
      for i := 0 to |entries|
        invariant forall j :: 0 <= j < i ==> entries[j].backend.Named?
        invariant i > 0 ==> !Blocked(table, kind, id)
        invariant table == old(table)
        invariant work == Inserted(Deleted(table, kind, id), kind, id, entries, i)
      {
        InsertedAt(Deleted(table, kind, id), kind, id, entries, i, (id, i));
        if entries[i].backend.Missing? {
          return Raised;
        }
        NoLaterClash(table, kind, id, i);
        if entries[i].backend.Null? || (id, i) in work {
          return Returned(false);
        }
        work := work[(id, i) := RowOf(kind, entries[i])];
      }
      ReplacedStaysDense(table, kind, id, entries);
      hide *;
      forall key: (string, nat) {
        AtReplaced(table, kind, id, entries, key);
      }
      table := work;
      outcome := Returned(true);
    }

    method DeleteFallbackChain(kind: string, id: string) returns (deleted: bool)
      requires Dense(table)
      modifies this
      ensures Dense(table)
      ensures deleted <==> exists o: nat :: (id, o) in old(table) && old(table)[(id, o)].kind == kind
      ensures table == Replaced(old(table), kind, id, [])
      ensures table == map key | key in old(table) && !(key.0 == id && old(table)[key].kind == kind) :: old(table)[key]
    {
      DeletedIsReplaced(table, kind, id);
      ReplacedStaysDense(table, kind, id, []);
      var after := Deleted(table, kind, id);
      deleted := after != table;
      DifferenceIsChain(table, kind, id);
      table := after;
    }
  }

  // Setting a chain for an agent after one for a team of the same id.
  method SecondTypeIsRefused(id: string, backend: string) returns (team: Outcome, agent: Outcome)
    ensures team == Returned(true) && agent == Returned(false)
  {
    var chains := new Chains();
    var entries := [Entry(Named(backend), None)];
    forall other, o: nat ensures !At(chains.table, other, id, o) {}
    team := chains.SetFallbackChain("team", id, entries);
    SetThenGet(map[], "team", id, entries);
    assert RowAt(chains.table, "team", id, 0) == Some(RowOf("team", entries[0]));
    assert "team"[0] != "agent"[0];
    assert At(chains.table, "team", id, 0);
    agent := chains.SetFallbackChain("agent", id, entries);
  }
}
