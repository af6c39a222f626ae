/** The app's aggregate order item and selected shipping rate values and their `copy(...)` helpers. */
module WooCopiable {
  import opened Wrappers
  import opened SwiftTypes
  import opened Codegen

  /** An attribute of an order item (a variation's option). */
  datatype OrderItemAttribute = OrderItemAttribute(metaID: Int64, name: string, value: string)

  /** A carrier's rate for a shipping label. */
  datatype ShippingLabelCarrierRate = ShippingLabelCarrierRate(title: string, rate: real, carrierID: string, serviceID: string)

  /** An order item combined over the order's refunds. Decimal amounts are exact rationals, URLs strings. */
  datatype AggregateOrderItem = AggregateOrderItem(
    productID: Int64,
    variationID: Int64,
    name: string,
    price: Option<real>,
    quantity: real,
    sku: Option<string>,
    total: Option<real>,
    imageURL: Option<string>,
    attributes: seq<OrderItemAttribute>)
  {
    /** `copy(...)`: every supplied argument replaces its field, every other field is kept. */
    function Copy(
      productID: CopiableProp<Int64> := None,
      variationID: CopiableProp<Int64> := None,
      name: CopiableProp<string> := None,
      price: NullableCopiableProp<real> := None,
      quantity: CopiableProp<real> := None,
      sku: NullableCopiableProp<string> := None,
      total: NullableCopiableProp<real> := None,
      imageURL: NullableCopiableProp<string> := None,
      attributes: CopiableProp<seq<OrderItemAttribute>> := None
    ): (r: AggregateOrderItem)
      ensures productID.Some? ==> r.productID == productID.value
      ensures productID.None? ==> r.productID == this.productID
      ensures variationID.Some? ==> r.variationID == variationID.value
      ensures variationID.None? ==> r.variationID == this.variationID
      ensures name.Some? ==> r.name == name.value
      ensures name.None? ==> r.name == this.name
      ensures price.Some? ==> r.price == price.value
      ensures price.None? ==> r.price == this.price
      ensures quantity.Some? ==> r.quantity == quantity.value
      ensures quantity.None? ==> r.quantity == this.quantity
      ensures sku.Some? ==> r.sku == sku.value
      ensures sku.None? ==> r.sku == this.sku
      ensures total.Some? ==> r.total == total.value
      ensures total.None? ==> r.total == this.total
      ensures imageURL.Some? ==> r.imageURL == imageURL.value
      ensures imageURL.None? ==> r.imageURL == this.imageURL
      ensures attributes.Some? ==> r.attributes == attributes.value
      ensures attributes.None? ==> r.attributes == this.attributes
    {
      AggregateOrderItem(
        productID.GetOr(this.productID),
        variationID.GetOr(this.variationID),
        name.GetOr(this.name),
        price.GetOr(this.price),
        quantity.GetOr(this.quantity),
        sku.GetOr(this.sku),
        total.GetOr(this.total),
        imageURL.GetOr(this.imageURL),
        attributes.GetOr(this.attributes))
    }
  }

  /** `copy()` with every argument left as `.copy` is the original value. */
  lemma AggregateOrderItemCopyIdentity(item: AggregateOrderItem)
    ensures item.Copy() == item
  {
  }

  /** Supplying one identifier, name or quantity argument changes that field only. */
  lemma AggregateOrderItemCopyOneRequired(item: AggregateOrderItem, id: Int64, name: string, quantity: real)
    ensures item.Copy(productID := Some(id)) == item.(productID := id)
    ensures item.Copy(variationID := Some(id)) == item.(variationID := id)
    ensures item.Copy(name := Some(name)) == item.(name := name)
    ensures item.Copy(quantity := Some(quantity)) == item.(quantity := quantity)
  {
  }

  /** Supplying one optional-field argument sets that field, to a value or to `nil`, and changes nothing else. */
  lemma AggregateOrderItemCopyOneOptional(item: AggregateOrderItem, amount: Option<real>, text: Option<string>)
    ensures item.Copy(price := Some(amount)) == item.(price := amount)
    ensures item.Copy(sku := Some(text)) == item.(sku := text)
    ensures item.Copy(total := Some(amount)) == item.(total := amount)
    ensures item.Copy(imageURL := Some(text)) == item.(imageURL := text)
  {
  }

  /** Supplying the attributes changes them only. */
  lemma AggregateOrderItemCopyAttributes(item: AggregateOrderItem, attributes: seq<OrderItemAttribute>)
    ensures item.Copy(attributes := Some(attributes)) == item.(attributes := attributes)
  {
  }

  /** Two successive copies are one copy with the later arguments overriding the earlier ones. */
  lemma AggregateOrderItemCopyCompose(item: AggregateOrderItem,
    a1: CopiableProp<Int64>, b1: CopiableProp<Int64>, c1: CopiableProp<string>, d1: NullableCopiableProp<real>,
    e1: CopiableProp<real>, f1: NullableCopiableProp<string>, g1: NullableCopiableProp<real>,
    h1: NullableCopiableProp<string>, i1: CopiableProp<seq<OrderItemAttribute>>,
    a2: CopiableProp<Int64>, b2: CopiableProp<Int64>, c2: CopiableProp<string>, d2: NullableCopiableProp<real>,
    e2: CopiableProp<real>, f2: NullableCopiableProp<string>, g2: NullableCopiableProp<real>,
    h2: NullableCopiableProp<string>, i2: CopiableProp<seq<OrderItemAttribute>>)
    ensures item.Copy(a1, b1, c1, d1, e1, f1, g1, h1, i1).Copy(a2, b2, c2, d2, e2, f2, g2, h2, i2)
      == item.Copy(Override(a1, a2), Override(b1, b2), Override(c1, c2), Override(d1, d2), Override(e1, e2),
           Override(f1, f2), Override(g1, g2), Override(h1, h2), Override(i1, i2))
  {
    var twice := item.Copy(a1, b1, c1, d1, e1, f1, g1, h1, i1).Copy(a2, b2, c2, d2, e2, f2, g2, h2, i2);
    var once := item.Copy(Override(a1, a2), Override(b1, b2), Override(c1, c2), Override(d1, d2), Override(e1, e2),
      Override(f1, f2), Override(g1, g2), Override(h1, h2), Override(i1, i2));
    assert twice.name == once.name;
    assert twice.sku == once.sku;
    assert twice.attributes == once.attributes;
  }

  /** The rate chosen for a shipping label package, with its optional signature rates. */
  datatype ShippingLabelSelectedRate = ShippingLabelSelectedRate(
    packageID: string,
    rate: ShippingLabelCarrierRate,
    signatureRate: Option<ShippingLabelCarrierRate>,
    adultSignatureRate: Option<ShippingLabelCarrierRate>)
  {
    /** `copy(...)`: every supplied argument replaces its field, every other field is kept. */
    function Copy(
      packageID: CopiableProp<string> := None,
      rate: CopiableProp<ShippingLabelCarrierRate> := None,
      signatureRate: NullableCopiableProp<ShippingLabelCarrierRate> := None,
      adultSignatureRate: NullableCopiableProp<ShippingLabelCarrierRate> := None
    ): (r: ShippingLabelSelectedRate)
      ensures packageID.Some? ==> r.packageID == packageID.value
      ensures packageID.None? ==> r.packageID == this.packageID
      ensures rate.Some? ==> r.rate == rate.value
      ensures rate.None? ==> r.rate == this.rate
      ensures signatureRate.Some? ==> r.signatureRate == signatureRate.value
      ensures signatureRate.None? ==> r.signatureRate == this.signatureRate
      ensures adultSignatureRate.Some? ==> r.adultSignatureRate == adultSignatureRate.value
      ensures adultSignatureRate.None? ==> r.adultSignatureRate == this.adultSignatureRate
    {
      ShippingLabelSelectedRate(
        packageID.GetOr(this.packageID),
        rate.GetOr(this.rate),
        signatureRate.GetOr(this.signatureRate),
        adultSignatureRate.GetOr(this.adultSignatureRate))
    }
  }

  /** `copy()` with every argument left as `.copy` is the original value. */
  lemma ShippingLabelSelectedRateCopyIdentity(selected: ShippingLabelSelectedRate)
    ensures selected.Copy() == selected
  {
  }

  /** Supplying one argument changes that field only, including clearing a signature rate. */
  lemma ShippingLabelSelectedRateCopyOneField(selected: ShippingLabelSelectedRate,
    packageID: string, rate: ShippingLabelCarrierRate, optionalRate: Option<ShippingLabelCarrierRate>)
    ensures selected.Copy(packageID := Some(packageID)) == selected.(packageID := packageID)
    ensures selected.Copy(rate := Some(rate)) == selected.(rate := rate)
    ensures selected.Copy(signatureRate := Some(optionalRate)) == selected.(signatureRate := optionalRate)
    ensures selected.Copy(adultSignatureRate := Some(optionalRate)) == selected.(adultSignatureRate := optionalRate)
  {
  }

  /** Two successive copies are one copy with the later arguments overriding the earlier ones. */
  lemma ShippingLabelSelectedRateCopyCompose(selected: ShippingLabelSelectedRate,
    a1: CopiableProp<string>, b1: CopiableProp<ShippingLabelCarrierRate>,
    c1: NullableCopiableProp<ShippingLabelCarrierRate>, d1: NullableCopiableProp<ShippingLabelCarrierRate>,
    a2: CopiableProp<string>, b2: CopiableProp<ShippingLabelCarrierRate>,
    c2: NullableCopiableProp<ShippingLabelCarrierRate>, d2: NullableCopiableProp<ShippingLabelCarrierRate>)
    ensures selected.Copy(a1, b1, c1, d1).Copy(a2, b2, c2, d2)
      == selected.Copy(Override(a1, a2), Override(b1, b2), Override(c1, c2), Override(d1, d2))
  {
  }
}
