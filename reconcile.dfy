/**
 * The rule an order applies to its items and to its coupons when a fresh
 * copy of the order arrives: upsert every incoming child by ID, then delete
 * the order's children whose ID did not arrive.
 *
 * Children are stored by ID across all orders (the storage looks a child up
 * by its ID alone), each with the order that holds it.
 */
module Reconcile {
  import opened Wrappers
  import opened SwiftTypes

  /** A stored child record and the orderID of the order holding it, if any. */
  datatype Child<T> = Child(data: T, owner: Option<Int64>)

  /** An incoming child with its ID. */
  datatype Keyed<T> = Keyed(id: Int64, data: T)

  function Ids<T>(incoming: seq<Keyed<T>>): set<Int64> {
    set i | 0 <= i < |incoming| :: incoming[i].id
  }

  /** The incoming child at index `i` is the last one with its ID. */
  predicate IsLast<T>(incoming: seq<Keyed<T>>, i: int)
    requires 0 <= i < |incoming|
  {
    forall j | i < j < |incoming| :: incoming[j].id != incoming[i].id
  }

  /**
   * The upsert loop: a child already stored under an incoming ID is updated
   * and stays with the order holding it; any other incoming child is
   * inserted and attached to the order.
   */
  function Upserted<T>(children: map<Int64, Child<T>>, orderID: Int64, incoming: seq<Keyed<T>>): map<Int64, Child<T>>
    decreases |incoming|
  {
    if incoming == [] then children
    else
      var k := incoming[0];
      var child := if k.id in children then children[k.id].(data := k.data) else Child(k.data, Some(orderID));
      Upserted(children[k.id := child], orderID, incoming[1..])
  }

  /** The prune: the order's children whose ID is not in `ids` are removed; every other child stays. */
  function Pruned<T>(children: map<Int64, Child<T>>, orderID: Int64, ids: set<Int64>): map<Int64, Child<T>> {
    map id | id in children && (children[id].owner != Some(orderID) || id in ids) :: children[id]
  }

  /** Upsert, then prune. */
  function Reconciled<T>(children: map<Int64, Child<T>>, orderID: Int64, incoming: seq<Keyed<T>>): map<Int64, Child<T>> {
    Pruned(Upserted(children, orderID, incoming), orderID, Ids(incoming))
  }

  /**
   * After the upsert, exactly the stored IDs and the incoming IDs are
   * stored; an incoming ID holds the data of its last occurrence, with the
   * order it was held by, or this order when it is new; other children are
   * unchanged.
   */
  lemma UpsertedSpec<T>(children: map<Int64, Child<T>>, orderID: Int64, incoming: seq<Keyed<T>>)
    ensures var u := Upserted(children, orderID, incoming);
      && u.Keys == children.Keys + Ids(incoming)
      && (forall i | 0 <= i < |incoming| && IsLast(incoming, i) :: u[incoming[i].id].data == incoming[i].data)
      && (forall id | id in Ids(incoming) ::
            u[id].owner == if id in children then children[id].owner else Some(orderID))
      && (forall id | id in children && id !in Ids(incoming) :: u[id] == children[id])
  {
    UpsertedKeys(children, orderID, incoming);
    forall i | 0 <= i < |incoming| && IsLast(incoming, i)
      ensures Upserted(children, orderID, incoming)[incoming[i].id].data == incoming[i].data
    {
      UpsertedLastData(children, orderID, incoming, i);
    }
    forall id | id in Ids(incoming)
      ensures Upserted(children, orderID, incoming)[id].owner == if id in children then children[id].owner else Some(orderID)
    {
      UpsertedOwner(children, orderID, incoming, id);
    }
    forall id | id in children && id !in Ids(incoming)
      ensures Upserted(children, orderID, incoming)[id] == children[id]
    {
      UpsertedUntouched(children, orderID, incoming, id);
    }
  }

  /** The first step of the upsert loop. */
  function UpsertOne<T>(children: map<Int64, Child<T>>, orderID: Int64, k: Keyed<T>): map<Int64, Child<T>> {
    children[k.id := if k.id in children then children[k.id].(data := k.data) else Child(k.data, Some(orderID))]
  }

  lemma UpsertedCons<T>(children: map<Int64, Child<T>>, orderID: Int64, incoming: seq<Keyed<T>>)
    requires incoming != []
    ensures Upserted(children, orderID, incoming) == Upserted(UpsertOne(children, orderID, incoming[0]), orderID, incoming[1..])
  {
  }

  /** The upsert stores exactly the stored IDs and the incoming IDs. */
  lemma {:induction false} UpsertedKeys<T>(children: map<Int64, Child<T>>, orderID: Int64, incoming: seq<Keyed<T>>)
    decreases |incoming|
    ensures Upserted(children, orderID, incoming).Keys == children.Keys + Ids(incoming)
  {
    if incoming != [] {
      UpsertedCons(children, orderID, incoming);
      IdsCons(incoming);
      UpsertedKeys(UpsertOne(children, orderID, incoming[0]), orderID, incoming[1..]);
    }
  }

  /** A child whose ID did not arrive is untouched by the upsert. */
  lemma {:induction false} UpsertedUntouched<T>(children: map<Int64, Child<T>>, orderID: Int64, incoming: seq<Keyed<T>>, id: Int64)
    requires id in children && id !in Ids(incoming)
    decreases |incoming|
    ensures id in Upserted(children, orderID, incoming) && Upserted(children, orderID, incoming)[id] == children[id]
  {
    if incoming != [] {
      UpsertedCons(children, orderID, incoming);
      IdsCons(incoming);
      UpsertedUntouched(UpsertOne(children, orderID, incoming[0]), orderID, incoming[1..], id);
    }
  }

  /** An incoming child stays with the order holding it, or is attached to this order when new. */
  lemma {:induction false} UpsertedOwner<T>(children: map<Int64, Child<T>>, orderID: Int64, incoming: seq<Keyed<T>>, id: Int64)
    requires id in Ids(incoming)
    decreases |incoming|
    ensures id in Upserted(children, orderID, incoming)
    ensures Upserted(children, orderID, incoming)[id].owner == if id in children then children[id].owner else Some(orderID)
  {
    var next := UpsertOne(children, orderID, incoming[0]);
    var tail := incoming[1..];
    UpsertedCons(children, orderID, incoming);
    IdsCons(incoming);
    if id in Ids(tail) {
      UpsertedOwner(next, orderID, tail, id);
    } else {
      UpsertedUntouched(next, orderID, tail, id);
    }
  }

  /** The last incoming child with an ID is the one whose data is stored under it. */
  lemma {:induction false} UpsertedLastData<T>(children: map<Int64, Child<T>>, orderID: Int64, incoming: seq<Keyed<T>>, i: int)
    requires 0 <= i < |incoming| && IsLast(incoming, i)
    decreases |incoming|
    ensures incoming[i].id in Upserted(children, orderID, incoming)
    ensures Upserted(children, orderID, incoming)[incoming[i].id].data == incoming[i].data
  {
    var next := UpsertOne(children, orderID, incoming[0]);
    var tail := incoming[1..];
    UpsertedCons(children, orderID, incoming);
    if i > 0 {
      IsLastTail(incoming, i);
      UpsertedLastData(next, orderID, tail, i - 1);
    } else {
      FirstLastNotInTail(incoming);
      UpsertedUntouched(next, orderID, tail, incoming[0].id);
    }
  }

  lemma IdsCons<T>(incoming: seq<Keyed<T>>)
    requires incoming != []
    ensures Ids(incoming) == {incoming[0].id} + Ids(incoming[1..])
  {
    var tail := incoming[1..];
    forall id | id in Ids(incoming) ensures id in {incoming[0].id} + Ids(tail) {
      var j :| 0 <= j < |incoming| && incoming[j].id == id;
      if j > 0 {
        assert tail[j - 1] == incoming[j];
      }
    }
    forall id | id in Ids(tail) ensures id in Ids(incoming) {
      var j :| 0 <= j < |tail| && tail[j].id == id;
      assert incoming[j + 1] == tail[j];
    }
  }

  lemma IsLastTail<T>(incoming: seq<Keyed<T>>, i: int)
    requires 0 < i < |incoming| && IsLast(incoming, i)
    ensures incoming[1..][i - 1] == incoming[i] && IsLast(incoming[1..], i - 1)
  {
    var tail := incoming[1..];
    forall j | i - 1 < j < |tail| ensures tail[j].id != tail[i - 1].id {
      assert tail[j] == incoming[j + 1];
    }
  }

  lemma FirstLastNotInTail<T>(incoming: seq<Keyed<T>>)
    requires incoming != [] && IsLast(incoming, 0)
    ensures incoming[0].id !in Ids(incoming[1..])
  {
    var tail := incoming[1..];
    forall j | 0 <= j < |tail| ensures tail[j].id != incoming[0].id {
      assert tail[j] == incoming[j + 1];
    }
  }

  /**
   * After reconciling, every incoming ID is stored with the data of its
   * last occurrence; every child left with the order arrived in this copy;
   * a child of another order whose ID did not arrive is untouched; nothing
   * but the incoming IDs is added.
   */
  lemma ReconciledSpec<T>(children: map<Int64, Child<T>>, orderID: Int64, incoming: seq<Keyed<T>>)
    ensures var r := Reconciled(children, orderID, incoming);
      && (forall i | 0 <= i < |incoming| && IsLast(incoming, i) ::
            incoming[i].id in r && r[incoming[i].id].data == incoming[i].data)
      && (forall id | id in r && r[id].owner == Some(orderID) :: id in Ids(incoming))
      && (forall id | id in children && children[id].owner != Some(orderID) && id !in Ids(incoming) ::
            id in r && r[id] == children[id])
      && (forall id | id in r :: id in children || id in Ids(incoming))
      && (forall id | id in children && children[id].owner == Some(orderID) && id !in Ids(incoming) :: id !in r)
  {
    UpsertedSpec(children, orderID, incoming);
    var u := Upserted(children, orderID, incoming);
    var r := Reconciled(children, orderID, incoming);
    forall i | 0 <= i < |incoming| && IsLast(incoming, i)
      ensures incoming[i].id in r && r[incoming[i].id].data == incoming[i].data
    {
      assert incoming[i].id in Ids(incoming);
    }
  }

  /** Every incoming ID's last data, already stored: the upsert changes nothing. */
  lemma UpsertedStable<T>(children: map<Int64, Child<T>>, orderID: Int64, incoming: seq<Keyed<T>>)
    requires forall i | 0 <= i < |incoming| && IsLast(incoming, i) ::
      incoming[i].id in children && children[incoming[i].id].data == incoming[i].data
    ensures Upserted(children, orderID, incoming) == children
  {
    UpsertedSpec(children, orderID, incoming);
    var u := Upserted(children, orderID, incoming);
    forall id | id in Ids(incoming) ensures id in children && u[id] == children[id] {
      var i := LastIndexOf(incoming, id);
      assert u[id].data == incoming[i].data;
      assert u[id].owner == children[id].owner;
    }
    assert u.Keys == children.Keys;
    forall id | id in u ensures u[id] == children[id] {
      if id !in Ids(incoming) {
        assert u[id] == children[id];
      }
    }
  }

  /** The index of the last incoming child with the given ID. */
  function LastIndexOf<T>(incoming: seq<Keyed<T>>, id: Int64): (i: int)
    requires id in Ids(incoming)
    ensures 0 <= i < |incoming| && incoming[i].id == id && IsLast(incoming, i)
  {
    if incoming[|incoming| - 1].id == id then |incoming| - 1
    else
      var init := incoming[..|incoming| - 1];
      assert id in Ids(init) by {
        var j :| 0 <= j < |incoming| && incoming[j].id == id;
        assert init[j] == incoming[j];
      }
      var i := LastIndexOf(init, id);
      assert incoming[i] == init[i];
      i
  }

  /** Reconciling with the same incoming children a second time changes nothing. */
  lemma ReconciledIdempotent<T>(children: map<Int64, Child<T>>, orderID: Int64, incoming: seq<Keyed<T>>)
    ensures Reconciled(Reconciled(children, orderID, incoming), orderID, incoming) == Reconciled(children, orderID, incoming)
  {
    var r := Reconciled(children, orderID, incoming);
    ReconciledSpec(children, orderID, incoming);
    UpsertedStable(r, orderID, incoming);
    assert Pruned(r, orderID, Ids(incoming)) == r;
  }

  /** `handleOrderItems` / `handleOrderCoupons`: the upsert loop, then the prune over the order's children. */
  method ReconcileChildren<T>(children: map<Int64, Child<T>>, orderID: Int64, incoming: seq<Keyed<T>>)
    returns (r: map<Int64, Child<T>>)
    ensures r == Reconciled(children, orderID, incoming)
  {
    r := children;
    var i := 0;
    while i < |incoming|
      invariant 0 <= i <= |incoming|
      invariant Upserted(r, orderID, incoming[i..]) == Upserted(children, orderID, incoming)
    {
      var k := incoming[i];
      assert incoming[i..][1..] == incoming[i + 1..];
      if k.id in r {
        r := r[k.id := r[k.id].(data := k.data)];
      } else {
        r := r[k.id := Child(k.data, Some(orderID))];
      }
      i := i + 1;
    }
    assert incoming[i..] == [];
    var ids := set j | 0 <= j < |incoming| :: incoming[j].id;
    r := Prune(r, orderID, ids);
  }

  /** The prune loop: visits each child of the order and deletes it when its ID is not in `ids`. */
  method Prune<T>(children: map<Int64, Child<T>>, orderID: Int64, ids: set<Int64>) returns (r: map<Int64, Child<T>>)
    ensures r == Pruned(children, orderID, ids)
  {
    r := children;
    var owned := set id | id in children && children[id].owner == Some(orderID);
    while owned != {}
      invariant owned <= children.Keys
      invariant forall id | id in owned :: children[id].owner == Some(orderID)
      invariant forall id | id in children ::
        (id in r <==> id in owned || children[id].owner != Some(orderID) || id in ids)
      invariant forall id | id in r :: id in children && r[id] == children[id]
      decreases owned
    {
      var id := Pick(owned);
      if id !in ids {
        r := r - {id};
      }
      owned := owned - {id};
    }
  }
}
