/**
 * The order store's persistence: stored orders by orderID, and their items
 * and coupons, each stored by its own ID with the order holding it.
 * Remote calls are not made here: their results are the methods' inputs.
 */
module OrderStore {
  import opened Wrappers
  import opened SwiftTypes
  import opened Reconcile

  datatype OrderItem = OrderItem(itemID: Int64, productID: Int64, name: string, quantity: real, total: string)

  datatype OrderCoupon = OrderCoupon(couponID: Int64, code: string, discount: string)

  /** A read-only order as the remote returns it; `status` is the raw value of its status. */
  datatype Order = Order(
    siteID: Int64,
    orderID: Int64,
    number: string,
    status: string,
    total: string,
    items: seq<OrderItem>,
    coupons: seq<OrderCoupon>)

  /** The stored order's own fields; its items and coupons are stored on their own. */
  datatype StoredOrder = StoredOrder(siteID: Int64, orderID: Int64, number: string, status: string, total: string)

  /** The remote errors the store tells apart. */
  datatype NetworkError = NotFound | OtherError(code: int)

  /** The stored orders, items and coupons. */
  datatype OrderDB = OrderDB(
    orders: map<Int64, StoredOrder>,
    items: map<Int64, Child<OrderItem>>,
    coupons: map<Int64, Child<OrderCoupon>>)

  /** Every item and coupon held by an order is held by a stored order. */
  predicate Valid(db: OrderDB) {
    && (forall id | id in db.items && db.items[id].owner.Some? :: db.items[id].owner.value in db.orders)
    && (forall id | id in db.coupons && db.coupons[id].owner.Some? :: db.coupons[id].owner.value in db.orders)
  }

  /** `Storage.Order.update(with:)`: the stored order takes every field of the read-only one. */
  function StoredOf(o: Order): StoredOrder {
    StoredOrder(o.siteID, o.orderID, o.number, o.status, o.total)
  }

  function ItemsKeyed(o: Order): seq<Keyed<OrderItem>> {
    seq(|o.items|, i requires 0 <= i < |o.items| => Keyed(o.items[i].itemID, o.items[i]))
  }

  function CouponsKeyed(o: Order): seq<Keyed<OrderCoupon>> {
    seq(|o.coupons|, i requires 0 <= i < |o.coupons| => Keyed(o.coupons[i].couponID, o.coupons[i]))
  }

  // ---------------------------------------------------------------------
  // What each operation does to the stored state

  /** `upsertStoredOrder`: update or insert the order by orderID, then reconcile its items and coupons. */
  function UpsertOrder(db: OrderDB, o: Order): OrderDB {
    OrderDB(
      db.orders[o.orderID := StoredOf(o)],
      Reconciled(db.items, o.orderID, ItemsKeyed(o)),
      Reconciled(db.coupons, o.orderID, CouponsKeyed(o)))
  }

  function OrderIDs(os: seq<Order>): set<Int64> {
    set i | 0 <= i < |os| :: os[i].orderID
  }

  /** `upsertStoredOrders`: each order upserted in turn. */
  function UpsertOrders(db: OrderDB, os: seq<Order>): OrderDB
    decreases |os|
  {
    if os == [] then db else UpsertOrders(UpsertOrder(db, os[0]), os[1..])
  }

  /** Children not held by the given order. */
  function Detached<T>(children: map<Int64, Child<T>>, orderID: Int64): map<Int64, Child<T>> {
    map id | id in children && children[id].owner != Some(orderID) :: children[id]
  }

  /** `deleteStoredOrder`: removes the order, and with it its items and coupons; nothing when it is not stored. */
  function DeleteOrder(db: OrderDB, orderID: Int64): OrderDB {
    if orderID !in db.orders then db
    else OrderDB(db.orders - {orderID}, Detached(db.items, orderID), Detached(db.coupons, orderID))
  }

  /** `resetStoredOrders`: every order goes, and with them every item and coupon an order holds. */
  function ResetOrders(db: OrderDB): OrderDB {
    OrderDB(
      map[],
      map id | id in db.items && db.items[id].owner.None? :: db.items[id],
      map id | id in db.coupons && db.coupons[id].owner.None? :: db.coupons[id])
  }

  /** What `updateOrderStatus` leaves stored and returns. */
  datatype StatusUpdate = StatusUpdate(db: OrderDB, previous: string)

  /** `updateOrderStatus`: the new status is stored and the previous one returned; an order not stored gives back the requested status. */
  function UpdateStatus(db: OrderDB, orderID: Int64, status: string): StatusUpdate {
    if orderID !in db.orders then StatusUpdate(db, status)
    else StatusUpdate(db.(orders := db.orders[orderID := db.orders[orderID].(status := status)]), db.orders[orderID].status)
  }

  /** `updateOrder`: the status is stored at once, and the previous one put back when the remote update fails. */
  function UpdateOrderOutcome(db: OrderDB, orderID: Int64, status: string, remoteError: Option<NetworkError>): OrderDB {
    var u := UpdateStatus(db, orderID, status);
    if remoteError.Some? then UpdateStatus(u.db, orderID, u.previous).db else u.db
  }

  /** The remote's answer to `loadOrder`: an order, or none with the error it gave, if any. */
  datatype LoadResult = Loaded(order: Order) | Failed(error: Option<NetworkError>)

  /** `retrieveOrder`: a loaded order is upserted; an order the remote no longer has is deleted. */
  function RetrieveOutcome(db: OrderDB, orderID: Int64, result: LoadResult): OrderDB {
    match result
    case Loaded(o) => UpsertOrder(db, o)
    case Failed(Some(NotFound)) => DeleteOrder(db, orderID)
    case Failed(_) => db
  }

  /** `synchronizeOrders`: the orders of a page, when the remote returned them, are upserted. */
  function SynchronizeOutcome(db: OrderDB, orders: Option<seq<Order>>): OrderDB {
    if orders.Some? then UpsertOrders(db, orders.value) else db
  }

  // ---------------------------------------------------------------------
  // Properties

  /** Upserting an order stores it under its orderID and leaves every other order as it was. */
  lemma UpsertOrderStoresOrder(db: OrderDB, o: Order)
    ensures var r := UpsertOrder(db, o);
      && r.orders.Keys == db.orders.Keys + {o.orderID}
      && r.orders[o.orderID] == StoredOf(o)
      && (forall id | id in db.orders && id != o.orderID :: r.orders[id] == db.orders[id])
  {
  }

  /**
   * Upserting an order stores each of its items with the item's data; every
   * item left with the order arrived with it; the items of other orders that
   * did not arrive are untouched.
   */
  lemma UpsertOrderItems(db: OrderDB, o: Order)
    ensures var r := UpsertOrder(db, o).items;
      var incoming := ItemsKeyed(o);
      && (forall i | 0 <= i < |o.items| && IsLast(incoming, i) ::
            o.items[i].itemID in r && r[o.items[i].itemID].data == o.items[i])
      && (forall id | id in r && r[id].owner == Some(o.orderID) :: id in Ids(incoming))
      && (forall id | id in db.items && db.items[id].owner != Some(o.orderID) && id !in Ids(incoming) ::
            id in r && r[id] == db.items[id])
  {
    ReconciledSpec(db.items, o.orderID, ItemsKeyed(o));
  }

  /** The same for coupons, by couponID. */
  lemma UpsertOrderCoupons(db: OrderDB, o: Order)
    ensures var r := UpsertOrder(db, o).coupons;
      var incoming := CouponsKeyed(o);
      && (forall i | 0 <= i < |o.coupons| && IsLast(incoming, i) ::
            o.coupons[i].couponID in r && r[o.coupons[i].couponID].data == o.coupons[i])
      && (forall id | id in r && r[id].owner == Some(o.orderID) :: id in Ids(incoming))
      && (forall id | id in db.coupons && db.coupons[id].owner != Some(o.orderID) && id !in Ids(incoming) ::
            id in r && r[id] == db.coupons[id])
  {
    ReconciledSpec(db.coupons, o.orderID, CouponsKeyed(o));
  }

  /**
   * An incoming item whose ID is already stored with another order is
   * updated where it is: it stays with that order and is not added to this one.
   */
  lemma ItemOfAnotherOrderStaysThere(db: OrderDB, o: Order, i: int)
    requires 0 <= i < |o.items| && IsLast(ItemsKeyed(o), i)
    requires o.items[i].itemID in db.items && db.items[o.items[i].itemID].owner != Some(o.orderID)
    ensures var r := UpsertOrder(db, o).items;
      && o.items[i].itemID in r
      && r[o.items[i].itemID].owner == db.items[o.items[i].itemID].owner
      && r[o.items[i].itemID].data == o.items[i]
  {
    UpsertedSpec(db.items, o.orderID, ItemsKeyed(o));
    assert ItemsKeyed(o)[i].id == o.items[i].itemID;
  }

  /** Upserting keeps every item and coupon with a stored order. */
  lemma UpsertOrderValid(db: OrderDB, o: Order)
    requires Valid(db)
    ensures Valid(UpsertOrder(db, o))
  {
    UpsertedSpec(db.items, o.orderID, ItemsKeyed(o));
    UpsertedSpec(db.coupons, o.orderID, CouponsKeyed(o));
  }

  /** Upserting the same order a second time changes nothing. */
  lemma UpsertOrderIdempotent(db: OrderDB, o: Order)
    ensures UpsertOrder(UpsertOrder(db, o), o) == UpsertOrder(db, o)
  {
    ReconciledIdempotent(db.items, o.orderID, ItemsKeyed(o));
    ReconciledIdempotent(db.coupons, o.orderID, CouponsKeyed(o));
  }

  /** The stored orders after `upsertStoredOrders`, which do not depend on the items and coupons. */
  function StoreOrders(orders: map<Int64, StoredOrder>, os: seq<Order>): map<Int64, StoredOrder>
    decreases |os|
  {
    if os == [] then orders else StoreOrders(orders[os[0].orderID := StoredOf(os[0])], os[1..])
  }

  lemma {:induction false} UpsertOrdersOrders(db: OrderDB, os: seq<Order>)
    decreases |os|
    ensures UpsertOrders(db, os).orders == StoreOrders(db.orders, os)
  {
    if os != [] {
      UpsertOrdersOrders(UpsertOrder(db, os[0]), os[1..]);
    }
  }

  /**
   * After upserting a list of orders, exactly the stored orderIDs and the
   * incoming ones are stored, each incoming orderID holding its last
   * occurrence in the list; the others are unchanged.
   */
  lemma UpsertOrdersSpec(db: OrderDB, os: seq<Order>)
    ensures var r := UpsertOrders(db, os);
      && r.orders.Keys == db.orders.Keys + OrderIDs(os)
      && (forall i | 0 <= i < |os| && (forall j | i < j < |os| :: os[j].orderID != os[i].orderID) ::
            r.orders[os[i].orderID] == StoredOf(os[i]))
      && (forall id | id in db.orders && id !in OrderIDs(os) :: r.orders[id] == db.orders[id])
  {
    UpsertOrdersOrders(db, os);
    StoreOrdersKeys(db.orders, os);
    forall i | 0 <= i < |os| && (forall j | i < j < |os| :: os[j].orderID != os[i].orderID)
      ensures UpsertOrders(db, os).orders[os[i].orderID] == StoredOf(os[i])
    {
      StoreOrdersLast(db.orders, os, i);
    }
    forall id | id in db.orders && id !in OrderIDs(os)
      ensures UpsertOrders(db, os).orders[id] == db.orders[id]
    {
      StoreOrdersUntouched(db.orders, os, id);
    }
  }

  lemma OrderIDsCons(os: seq<Order>)
    requires os != []
    ensures OrderIDs(os) == {os[0].orderID} + OrderIDs(os[1..])
  {
    var tail := os[1..];
    forall id | id in OrderIDs(os) ensures id in {os[0].orderID} + OrderIDs(tail) {
      var i :| 0 <= i < |os| && os[i].orderID == id;
      if i > 0 {
        assert tail[i - 1] == os[i];
      }
    }
    forall id | id in OrderIDs(tail) ensures id in OrderIDs(os) {
      var i :| 0 <= i < |tail| && tail[i].orderID == id;
      assert os[i + 1] == tail[i];
    }
  }

  lemma {:induction false} StoreOrdersKeys(orders: map<Int64, StoredOrder>, os: seq<Order>)
    decreases |os|
    ensures StoreOrders(orders, os).Keys == orders.Keys + OrderIDs(os)
  {
    if os != [] {
      StoreOrdersKeys(orders[os[0].orderID := StoredOf(os[0])], os[1..]);
      OrderIDsCons(os);
    }
  }

  lemma {:induction false} StoreOrdersUntouched(orders: map<Int64, StoredOrder>, os: seq<Order>, id: Int64)
    requires id in orders && id !in OrderIDs(os)
    decreases |os|
    ensures id in StoreOrders(orders, os) && StoreOrders(orders, os)[id] == orders[id]
  {
    if os != [] {
      OrderIDsCons(os);
      StoreOrdersUntouched(orders[os[0].orderID := StoredOf(os[0])], os[1..], id);
    }
  }

  lemma {:induction false} StoreOrdersLast(orders: map<Int64, StoredOrder>, os: seq<Order>, i: int)
    requires 0 <= i < |os| && forall j | i < j < |os| :: os[j].orderID != os[i].orderID
    decreases |os|
    ensures os[i].orderID in StoreOrders(orders, os) && StoreOrders(orders, os)[os[i].orderID] == StoredOf(os[i])
  {
    var next := orders[os[0].orderID := StoredOf(os[0])];
    var tail := os[1..];
    if i > 0 {
      assert tail[i - 1] == os[i];
      forall j | i - 1 < j < |tail| ensures tail[j].orderID != tail[i - 1].orderID {
        assert tail[j] == os[j + 1];
      }
      StoreOrdersLast(next, tail, i - 1);
    } else {
      assert os[0].orderID !in OrderIDs(tail) by {
        forall j | 0 <= j < |tail| ensures tail[j].orderID != os[0].orderID {
          assert tail[j] == os[j + 1];
        }
      }
      StoreOrdersUntouched(next, tail, os[0].orderID);
    }
  }

  /** The status update stores the new status and returns the previous one; an order not stored is left alone. */
  lemma UpdateStatusSpec(db: OrderDB, orderID: Int64, status: string)
    ensures var u := UpdateStatus(db, orderID, status);
      && u.db.items == db.items && u.db.coupons == db.coupons
      && u.db.orders.Keys == db.orders.Keys
      && (orderID in db.orders ==>
            u.previous == db.orders[orderID].status
            && u.db.orders[orderID] == db.orders[orderID].(status := status))
      && (orderID !in db.orders ==> u.db == db && u.previous == status)
      && (forall id | id in db.orders && id != orderID :: u.db.orders[id] == db.orders[id])
  {
  }

  /** Writing back the status the update returned restores the stored state exactly. */
  lemma UpdateStatusRevert(db: OrderDB, orderID: Int64, status: string)
    ensures var u := UpdateStatus(db, orderID, status);
      UpdateStatus(u.db, orderID, u.previous).db == db
  {
    var u := UpdateStatus(db, orderID, status);
    if orderID in db.orders {
      assert u.db.orders[orderID := u.db.orders[orderID].(status := u.previous)] == db.orders;
    }
  }

  /**
   * The optimistic update: when the remote fails the stored state is what
   * it was before; when it succeeds the order, if stored, has the new status
   * and nothing else has changed.
   */
  lemma UpdateOrderOutcomeSpec(db: OrderDB, orderID: Int64, status: string, remoteError: Option<NetworkError>)
    ensures remoteError.Some? ==> UpdateOrderOutcome(db, orderID, status, remoteError) == db
    ensures remoteError.None? && orderID in db.orders ==>
      UpdateOrderOutcome(db, orderID, status, remoteError)
        == db.(orders := db.orders[orderID := db.orders[orderID].(status := status)])
    ensures orderID !in db.orders ==> UpdateOrderOutcome(db, orderID, status, remoteError) == db
  {
    UpdateStatusRevert(db, orderID, status);
  }

  /**
   * Deleting an order removes it together with the items and coupons it
   * holds and leaves every other order, item and coupon as it was; deleting
   * an order that is not stored changes nothing.
   */
  lemma DeleteOrderSpec(db: OrderDB, orderID: Int64)
    ensures var r := DeleteOrder(db, orderID);
      && orderID !in r.orders
      && (forall id | id in db.orders && id != orderID :: id in r.orders && r.orders[id] == db.orders[id])
      && (orderID in db.orders ==>
            && (forall id | id in r.items :: r.items[id].owner != Some(orderID))
            && (forall id | id in r.coupons :: r.coupons[id].owner != Some(orderID)))
      && (forall id | id in db.items && db.items[id].owner != Some(orderID) :: id in r.items && r.items[id] == db.items[id])
      && (forall id | id in db.coupons && db.coupons[id].owner != Some(orderID) :: id in r.coupons && r.coupons[id] == db.coupons[id])
      && (orderID !in db.orders ==> r == db)
  {
  }

  /** Deleting keeps every item and coupon with a stored order. */
  lemma DeleteOrderValid(db: OrderDB, orderID: Int64)
    requires Valid(db)
    ensures Valid(DeleteOrder(db, orderID))
  {
  }

  /** Deleting the same order twice is deleting it once. */
  lemma DeleteOrderIdempotent(db: OrderDB, orderID: Int64)
    ensures DeleteOrder(DeleteOrder(db, orderID), orderID) == DeleteOrder(db, orderID)
  {
  }

  /** After a reset no order is stored, and no item or coupon is held by one. */
  lemma ResetOrdersSpec(db: OrderDB)
    requires Valid(db)
    ensures var r := ResetOrders(db);
      && r.orders == map[] && Valid(r)
      && (forall id | id in r.items :: r.items[id].owner.None?)
      && (forall id | id in db.items && db.items[id].owner.None? :: id in r.items)
  {
  }

  /**
   * Retrieving an order: a loaded order is stored as loaded; a "not found"
   * answer deletes the stored order; any other error, or no error at all, changes nothing.
   */
  lemma RetrieveOutcomeSpec(db: OrderDB, orderID: Int64, result: LoadResult)
    ensures result.Loaded? ==>
      var r := RetrieveOutcome(db, orderID, result);
      result.order.orderID in r.orders && r.orders[result.order.orderID] == StoredOf(result.order)
    ensures result == Failed(Some(NotFound)) ==> orderID !in RetrieveOutcome(db, orderID, result).orders
    ensures result.Failed? && result.error != Some(NotFound) ==> RetrieveOutcome(db, orderID, result) == db
  {
  }

  // ---------------------------------------------------------------------
  // The store

  class OrderStorage {
    var orders: map<Int64, StoredOrder>
    var items: map<Int64, Child<OrderItem>>
    var coupons: map<Int64, Child<OrderCoupon>>

    function DB(): OrderDB
      reads this
    {
      OrderDB(orders, items, coupons)
    }

    constructor ()
      ensures DB() == OrderDB(map[], map[], map[])
    {
      orders := map[];
      items := map[];
      coupons := map[];
    }

    /** `resetStoredOrders` */
    method ResetStoredOrders()
      modifies this
      ensures DB() == ResetOrders(old(DB()))
    {
      orders := map[];
      items := map id | id in items && items[id].owner.None? :: items[id];
      coupons := map id | id in coupons && coupons[id].owner.None? :: coupons[id];
    }

    /** `deleteStoredOrder(orderID:)` */
    method DeleteStoredOrder(orderID: Int64)
      modifies this
      ensures DB() == DeleteOrder(old(DB()), orderID)
    {
      if orderID !in orders {
        return;
      }
      orders := orders - {orderID};
      items := Detached(items, orderID);
      coupons := Detached(coupons, orderID);
    }

    /** `updateOrderStatus(orderID:status:)`: returns the status prior to the update. */
    method UpdateOrderStatus(orderID: Int64, status: string) returns (previous: string)
      modifies this
      ensures StatusUpdate(DB(), previous) == UpdateStatus(old(DB()), orderID, status)
    {
      if orderID !in orders {
        return status;
      }
      previous := orders[orderID].status;
      orders := orders[orderID := orders[orderID].(status := status)];
    }

    /** `updateOrder`: `remoteError` is the remote update's answer; it is passed on to the caller. */
    method UpdateOrder(orderID: Int64, status: string, remoteError: Option<NetworkError>) returns (error: Option<NetworkError>)
      modifies this
      ensures DB() == UpdateOrderOutcome(old(DB()), orderID, status, remoteError)
      ensures error == remoteError
    {
      var oldStatus := UpdateOrderStatus(orderID, status);
      if remoteError.None? {
        return None;
      }
      var _ := UpdateOrderStatus(orderID, oldStatus);
      return remoteError;
    }

    /** `retrieveOrder`: `result` is the remote's answer, handed on to the caller. */
    method RetrieveOrder(orderID: Int64, result: LoadResult) returns (order: Option<Order>, error: Option<NetworkError>)
      modifies this
      ensures DB() == RetrieveOutcome(old(DB()), orderID, result)
      ensures order == (if result.Loaded? then Some(result.order) else None)
      ensures error == (if result.Failed? then result.error else None)
    {
      match result {
        case Loaded(o) =>
          UpsertStoredOrder(o);
          return Some(o), None;
        case Failed(e) =>
          if e == Some(NotFound) {
            DeleteStoredOrder(orderID);
          }
          return None, e;
      }
    }

    /** `synchronizeOrders`: `orders` is the page the remote returned, `remoteError` its error when it returned none. */
    method SynchronizeOrders(page: Option<seq<Order>>, remoteError: Option<NetworkError>) returns (error: Option<NetworkError>)
      modifies this
      ensures DB() == SynchronizeOutcome(old(DB()), page)
      ensures error == (if page.Some? then None else remoteError)
    {
      if page.None? {
        return remoteError;
      }
      UpsertStoredOrders(page.value);
      return None;
    }

    /** `upsertStoredOrder(readOnlyOrder:)` */
    method UpsertStoredOrder(o: Order)
      modifies this
      ensures DB() == UpsertOrder(old(DB()), o)
    {
      orders := orders[o.orderID := StoredOf(o)];
      HandleOrderItems(o);
      HandleOrderCoupons(o);
    }

    /** `upsertStoredOrders(readOnlyOrders:)` */
    method UpsertStoredOrders(os: seq<Order>)
      modifies this
      ensures DB() == UpsertOrders(old(DB()), os)
    {
      var i := 0;
      while i < |os|
        invariant 0 <= i <= |os|
        invariant UpsertOrders(DB(), os[i..]) == UpsertOrders(old(DB()), os)
      {
        assert os[i..][1..] == os[i + 1..];
        orders := orders[os[i].orderID := StoredOf(os[i])];
        HandleOrderItems(os[i]);
        HandleOrderCoupons(os[i]);
        i := i + 1;
      }
      assert os[i..] == [];
    }

    /** `handleOrderItems`: upsert the order's items by itemID, then prune those that did not arrive. */
    method HandleOrderItems(o: Order)
      modifies this
      ensures items == Reconciled(old(items), o.orderID, ItemsKeyed(o))
      ensures orders == old(orders) && coupons == old(coupons)
    {
      var incoming := seq(|o.items|, i requires 0 <= i < |o.items| => Keyed(o.items[i].itemID, o.items[i]));
      items := ReconcileChildren(items, o.orderID, incoming);
    }

    /** `handleOrderCoupons`: the same rule keyed by couponID. */
    method HandleOrderCoupons(o: Order)
      modifies this
      ensures coupons == Reconciled(old(coupons), o.orderID, CouponsKeyed(o))
      ensures orders == old(orders) && items == old(items)
    {
      var incoming := seq(|o.coupons|, i requires 0 <= i < |o.coupons| => Keyed(o.coupons[i].couponID, o.coupons[i]));
      coupons := ReconcileChildren(coupons, o.orderID, incoming);
    }
  }
}
