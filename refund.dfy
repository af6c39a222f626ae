/**
 * The conversion between a stored refund (`Storage.Refund`, a managed
 * object whose fields are optional where storage allows it) and the
 * read-only `Refund` value the app works with.
 */
module RefundConversion {
  import opened Wrappers
  import opened SwiftTypes

  /** A refunded order item; its own conversion is not part of this model, so stored items are kept as values. */
  datatype OrderItemRefund = OrderItemRefund(itemID: Int64, name: string, quantity: real, total: string)

  /** A shipping line of a refund; kept as a value for the same reason. */
  datatype ShippingLine = ShippingLine(shippingID: Int64, methodTitle: string, total: string)

  /** The read-only refund. */
  datatype Refund = Refund(
    refundID: Int64,
    orderID: Int64,
    siteID: Int64,
    dateCreated: Date,
    amount: string,
    reason: string,
    refundedByUserID: Int64,
    isAutomated: Option<bool>,
    createAutomated: Option<bool>,
    items: seq<OrderItemRefund>,
    shippingLines: Option<seq<ShippingLine>>)

  /** The fields of a stored refund at one moment. */
  datatype RefundRecord = RefundRecord(
    refundID: Int64,
    orderID: Int64,
    siteID: Int64,
    dateCreated: Option<Date>,
    amount: Option<string>,
    reason: Option<string>,
    byUserID: Int64,
    supportShippingRefunds: bool,
    isAutomated: bool,
    createAutomated: bool,
    items: Option<seq<OrderItemRefund>>,
    shippingLines: Option<seq<ShippingLine>>)

  /**
   * The stored refund after `update(with:)`: the scalar fields are taken
   * from `full`, shipping refunds are supported exactly when `full` has
   * shipping lines, the two automation flags are overwritten only when
   * `full` carries them, and items and shipping lines are left alone.
   */
  function Updated(rec: RefundRecord, full: Refund): RefundRecord
  {
    rec.(
      refundID := full.refundID,
      orderID := full.orderID,
      siteID := full.siteID,
      dateCreated := Some(full.dateCreated),
      amount := Some(full.amount),
      reason := Some(full.reason),
      byUserID := full.refundedByUserID,
      supportShippingRefunds := full.shippingLines != None,
      isAutomated := full.isAutomated.GetOr(rec.isAutomated),
      createAutomated := full.createAutomated.GetOr(rec.createAutomated))
  }

  /**
   * `toReadOnly()`: missing items become the empty list, a missing amount
   * or reason the empty string, a missing creation date the current time
   * `now`, and the shipping lines are dropped unless the refund supports
   * shipping refunds.
   */
  function ReadOnly(rec: RefundRecord, now: Date): (r: Refund)
    ensures r.refundID == rec.refundID && r.orderID == rec.orderID && r.siteID == rec.siteID
    ensures r.refundedByUserID == rec.byUserID
    ensures rec.amount.None? ==> r.amount == ""
    ensures rec.amount.Some? ==> r.amount == rec.amount.value
    ensures rec.reason.None? ==> r.reason == ""
    ensures rec.reason.Some? ==> r.reason == rec.reason.value
    ensures rec.dateCreated.None? ==> r.dateCreated == now
    ensures rec.dateCreated.Some? ==> r.dateCreated == rec.dateCreated.value
    ensures rec.items.None? ==> r.items == []
    ensures rec.items.Some? ==> r.items == rec.items.value
    ensures !rec.supportShippingRefunds ==> r.shippingLines == None
    ensures rec.supportShippingRefunds ==> r.shippingLines == rec.shippingLines
    ensures r.isAutomated == Some(rec.isAutomated) && r.createAutomated == Some(rec.createAutomated)
  {
    Refund(
      rec.refundID,
      rec.orderID,
      rec.siteID,
      rec.dateCreated.GetOr(now),
      rec.amount.GetOr(""),
      rec.reason.GetOr(""),
      rec.byUserID,
      Some(rec.isAutomated),
      Some(rec.createAutomated),
      rec.items.GetOr([]),
      if rec.supportShippingRefunds then rec.shippingLines else None)
  }

  /**
   * Reading back a refund just updated with `full` gives `full`'s
   * identifiers, date, amount, reason and author; no shipping lines when
   * `full` had none; and `full`'s automation flags wherever it carried them.
   */
  lemma ReadOnlyAfterUpdate(rec: RefundRecord, full: Refund, now: Date)
    ensures var r := ReadOnly(Updated(rec, full), now);
      && r.refundID == full.refundID && r.orderID == full.orderID && r.siteID == full.siteID
      && r.dateCreated == full.dateCreated && r.amount == full.amount && r.reason == full.reason
      && r.refundedByUserID == full.refundedByUserID
      && (full.shippingLines.None? ==> r.shippingLines == None)
      && (full.isAutomated.Some? ==> r.isAutomated == full.isAutomated)
      && (full.createAutomated.Some? ==> r.createAutomated == full.createAutomated)
      && r.items == rec.items.GetOr([])
  {
  }

  /** Updating twice with the same refund is the same as updating once. */
  lemma UpdateIdempotent(rec: RefundRecord, full: Refund)
    ensures Updated(Updated(rec, full), full) == Updated(rec, full)
  {
  }

  /** Converting a stored record read back from a read-only refund loses nothing but what storage cannot hold. */
  lemma UpdateOfReadOnly(rec: RefundRecord, now: Date)
    requires rec.dateCreated.Some? && rec.amount.Some? && rec.reason.Some?
    requires rec.supportShippingRefunds <==> rec.shippingLines.Some?
    ensures Updated(rec, ReadOnly(rec, now)) == rec
  {
  }

  /** `Storage.Refund`: a managed object updated in place. */
  class StoredRefund {
    var refundID: Int64
    var orderID: Int64
    var siteID: Int64
    var dateCreated: Option<Date>
    var amount: Option<string>
    var reason: Option<string>
    var byUserID: Int64
    var supportShippingRefunds: bool
    var isAutomated: bool
    var createAutomated: bool
    var items: Option<seq<OrderItemRefund>>
    var shippingLines: Option<seq<ShippingLine>>

    /** A fresh managed object: every optional field missing, every flag off. */
    constructor (refundID: Int64, orderID: Int64, siteID: Int64, byUserID: Int64)
      ensures Record() == RefundRecord(refundID, orderID, siteID, None, None, None, byUserID, false, false, false, None, None)
    {
      this.refundID := refundID;
      this.orderID := orderID;
      this.siteID := siteID;
      this.byUserID := byUserID;
      dateCreated := None;
      amount := None;
      reason := None;
      supportShippingRefunds := false;
      isAutomated := false;
      createAutomated := false;
      items := None;
      shippingLines := None;
    }

    function Record(): RefundRecord
      reads this
    {
      RefundRecord(refundID, orderID, siteID, dateCreated, amount, reason, byUserID,
        supportShippingRefunds, isAutomated, createAutomated, items, shippingLines)
    }

    /** `update(with:)` */
    method Update(full: Refund)
      modifies this
      ensures Record() == Updated(old(Record()), full)
    {
      var automated := full.isAutomated.GetOr(isAutomated);
      var createdAutomatically := full.createAutomated.GetOr(createAutomated);
      refundID, orderID, siteID := full.refundID, full.orderID, full.siteID;
      dateCreated, amount, reason := Some(full.dateCreated), Some(full.amount), Some(full.reason);
      byUserID, supportShippingRefunds := full.refundedByUserID, full.shippingLines != None;
      isAutomated, createAutomated := automated, createdAutomatically;
      assert Record() == RefundRecord(full.refundID, full.orderID, full.siteID,
        Some(full.dateCreated), Some(full.amount), Some(full.reason), full.refundedByUserID,
        full.shippingLines != None, automated, createdAutomatically, items, shippingLines);
    }

    /** `toReadOnly()`, with the current time passed in for a missing creation date. */
    function ToReadOnly(now: Date): (r: Refund)
      reads this
      ensures r == ReadOnly(Record(), now)
    {
      ReadOnly(Record(), now)
    }
  }
}
