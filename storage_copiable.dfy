/** The storage layer's app-wide and per-store settings values and their `copy(...)` helpers. */
module StorageCopiable {
  import opened Wrappers
  import opened SwiftTypes
  import opened Codegen

  /** The kinds of in-app feedback the app asks for. */
  datatype FeedbackType = General | ProductsVariations | ShippingLabelsRelease3 | CouponManagement

  datatype FeedbackSettings = FeedbackSettings(name: FeedbackType, status: string)

  /** Why the store was last found ineligible for in-person payments, and when. */
  datatype EligibilityErrorInfo = EligibilityErrorInfo(name: string, date: Date)

  datatype GeneralAppSettings = GeneralAppSettings(
    installationDate: Option<Date>,
    feedbacks: map<FeedbackType, FeedbackSettings>,
    isViewAddOnsSwitchEnabled: bool,
    isOrderCreationSwitchEnabled: bool,
    isCanadaInPersonPaymentsSwitchEnabled: bool,
    isProductSKUInputScannerSwitchEnabled: bool,
    isCouponManagementSwitchEnabled: bool,
    knownCardReaders: seq<string>,
    lastEligibilityErrorInfo: Option<EligibilityErrorInfo>,
    lastJetpackBenefitsBannerDismissedTime: Option<Date>)
  {
    /** `copy(...)`: every supplied argument replaces its field, every other field is kept. */
    function Copy(
      installationDate: NullableCopiableProp<Date> := None,
      feedbacks: CopiableProp<map<FeedbackType, FeedbackSettings>> := None,
      isViewAddOnsSwitchEnabled: CopiableProp<bool> := None,
      isOrderCreationSwitchEnabled: CopiableProp<bool> := None,
      isCanadaInPersonPaymentsSwitchEnabled: CopiableProp<bool> := None,
      isProductSKUInputScannerSwitchEnabled: CopiableProp<bool> := None,
      isCouponManagementSwitchEnabled: CopiableProp<bool> := None,
      knownCardReaders: CopiableProp<seq<string>> := None,
      lastEligibilityErrorInfo: NullableCopiableProp<EligibilityErrorInfo> := None,
      lastJetpackBenefitsBannerDismissedTime: NullableCopiableProp<Date> := None
    ): (r: GeneralAppSettings)
      ensures installationDate.Some? ==> r.installationDate == installationDate.value
      ensures installationDate.None? ==> r.installationDate == this.installationDate
      ensures feedbacks.Some? ==> r.feedbacks == feedbacks.value
      ensures feedbacks.None? ==> r.feedbacks == this.feedbacks
      ensures isViewAddOnsSwitchEnabled.Some? ==> r.isViewAddOnsSwitchEnabled == isViewAddOnsSwitchEnabled.value
      ensures isViewAddOnsSwitchEnabled.None? ==> r.isViewAddOnsSwitchEnabled == this.isViewAddOnsSwitchEnabled
      ensures isOrderCreationSwitchEnabled.Some? ==> r.isOrderCreationSwitchEnabled == isOrderCreationSwitchEnabled.value
      ensures isOrderCreationSwitchEnabled.None? ==> r.isOrderCreationSwitchEnabled == this.isOrderCreationSwitchEnabled
      ensures isCanadaInPersonPaymentsSwitchEnabled.Some? ==>
        r.isCanadaInPersonPaymentsSwitchEnabled == isCanadaInPersonPaymentsSwitchEnabled.value
      ensures isCanadaInPersonPaymentsSwitchEnabled.None? ==>
        r.isCanadaInPersonPaymentsSwitchEnabled == this.isCanadaInPersonPaymentsSwitchEnabled
      ensures isProductSKUInputScannerSwitchEnabled.Some? ==>
        r.isProductSKUInputScannerSwitchEnabled == isProductSKUInputScannerSwitchEnabled.value
      ensures isProductSKUInputScannerSwitchEnabled.None? ==>
        r.isProductSKUInputScannerSwitchEnabled == this.isProductSKUInputScannerSwitchEnabled
      ensures isCouponManagementSwitchEnabled.Some? ==> r.isCouponManagementSwitchEnabled == isCouponManagementSwitchEnabled.value
      ensures isCouponManagementSwitchEnabled.None? ==> r.isCouponManagementSwitchEnabled == this.isCouponManagementSwitchEnabled
      ensures knownCardReaders.Some? ==> r.knownCardReaders == knownCardReaders.value
      ensures knownCardReaders.None? ==> r.knownCardReaders == this.knownCardReaders
      ensures lastEligibilityErrorInfo.Some? ==> r.lastEligibilityErrorInfo == lastEligibilityErrorInfo.value
      ensures lastEligibilityErrorInfo.None? ==> r.lastEligibilityErrorInfo == this.lastEligibilityErrorInfo
      ensures lastJetpackBenefitsBannerDismissedTime.Some? ==>
        r.lastJetpackBenefitsBannerDismissedTime == lastJetpackBenefitsBannerDismissedTime.value
      ensures lastJetpackBenefitsBannerDismissedTime.None? ==>
        r.lastJetpackBenefitsBannerDismissedTime == this.lastJetpackBenefitsBannerDismissedTime
    {
      GeneralAppSettings(
        installationDate.GetOr(this.installationDate),
        feedbacks.GetOr(this.feedbacks),
        isViewAddOnsSwitchEnabled.GetOr(this.isViewAddOnsSwitchEnabled),
        isOrderCreationSwitchEnabled.GetOr(this.isOrderCreationSwitchEnabled),
        isCanadaInPersonPaymentsSwitchEnabled.GetOr(this.isCanadaInPersonPaymentsSwitchEnabled),
        isProductSKUInputScannerSwitchEnabled.GetOr(this.isProductSKUInputScannerSwitchEnabled),
        isCouponManagementSwitchEnabled.GetOr(this.isCouponManagementSwitchEnabled),
        knownCardReaders.GetOr(this.knownCardReaders),
        lastEligibilityErrorInfo.GetOr(this.lastEligibilityErrorInfo),
        lastJetpackBenefitsBannerDismissedTime.GetOr(this.lastJetpackBenefitsBannerDismissedTime))
    }
  }

  /** `copy()` with every argument left as `.copy` is the original value. */
  lemma GeneralAppSettingsCopyIdentity(s: GeneralAppSettings)
    ensures s.Copy() == s
  {
  }

  /** Supplying one optional-field argument sets that field, to a value or to `nil`, and changes nothing else. */
  lemma GeneralAppSettingsCopyOneOptional(s: GeneralAppSettings, date: Option<Date>, info: Option<EligibilityErrorInfo>)
    ensures s.Copy(installationDate := Some(date)) == s.(installationDate := date)
    ensures s.Copy(lastEligibilityErrorInfo := Some(info)) == s.(lastEligibilityErrorInfo := info)
    ensures s.Copy(lastJetpackBenefitsBannerDismissedTime := Some(date)) == s.(lastJetpackBenefitsBannerDismissedTime := date)
  {
  }

  /** Supplying one switch argument changes that switch only. */
  lemma GeneralAppSettingsCopyOneSwitch(s: GeneralAppSettings, enabled: bool)
    ensures s.Copy(isViewAddOnsSwitchEnabled := Some(enabled)) == s.(isViewAddOnsSwitchEnabled := enabled)
    ensures s.Copy(isOrderCreationSwitchEnabled := Some(enabled)) == s.(isOrderCreationSwitchEnabled := enabled)
    ensures s.Copy(isCanadaInPersonPaymentsSwitchEnabled := Some(enabled)) == s.(isCanadaInPersonPaymentsSwitchEnabled := enabled)
    ensures s.Copy(isProductSKUInputScannerSwitchEnabled := Some(enabled)) == s.(isProductSKUInputScannerSwitchEnabled := enabled)
    ensures s.Copy(isCouponManagementSwitchEnabled := Some(enabled)) == s.(isCouponManagementSwitchEnabled := enabled)
  {
  }

  /** Supplying the feedbacks or the known card readers changes that collection only. */
  lemma GeneralAppSettingsCopyOneCollection(s: GeneralAppSettings,
    feedbacks: map<FeedbackType, FeedbackSettings>, readers: seq<string>)
    ensures s.Copy(feedbacks := Some(feedbacks)) == s.(feedbacks := feedbacks)
    ensures s.Copy(knownCardReaders := Some(readers)) == s.(knownCardReaders := readers)
  {
  }

  /** Two successive copies are one copy whose arguments are the later ones where supplied, else the earlier ones. */
  lemma GeneralAppSettingsCopyCompose(s: GeneralAppSettings,
    a1: NullableCopiableProp<Date>, b1: CopiableProp<map<FeedbackType, FeedbackSettings>>,
    c1: CopiableProp<bool>, d1: CopiableProp<bool>, e1: CopiableProp<bool>, f1: CopiableProp<bool>, g1: CopiableProp<bool>,
    h1: CopiableProp<seq<string>>, i1: NullableCopiableProp<EligibilityErrorInfo>, j1: NullableCopiableProp<Date>,
    a2: NullableCopiableProp<Date>, b2: CopiableProp<map<FeedbackType, FeedbackSettings>>,
    c2: CopiableProp<bool>, d2: CopiableProp<bool>, e2: CopiableProp<bool>, f2: CopiableProp<bool>, g2: CopiableProp<bool>,
    h2: CopiableProp<seq<string>>, i2: NullableCopiableProp<EligibilityErrorInfo>, j2: NullableCopiableProp<Date>)
    ensures s.Copy(a1, b1, c1, d1, e1, f1, g1, h1, i1, j1).Copy(a2, b2, c2, d2, e2, f2, g2, h2, i2, j2)
      == s.Copy(Override(a1, a2), Override(b1, b2), Override(c1, c2), Override(d1, d2), Override(e1, e2),
           Override(f1, f2), Override(g1, g2), Override(h1, h2), Override(i1, i2), Override(j1, j2))
  {
    var twice := s.Copy(a1, b1, c1, d1, e1, f1, g1, h1, i1, j1).Copy(a2, b2, c2, d2, e2, f2, g2, h2, i2, j2);
    var once := s.Copy(Override(a1, a2), Override(b1, b2), Override(c1, c2), Override(d1, d2), Override(e1, e2),
      Override(f1, f2), Override(g1, g2), Override(h1, h2), Override(i1, i2), Override(j1, j2));
    OverrideGetOr(a1, a2, s.installationDate);
    OverrideGetOr(b1, b2, s.feedbacks);
    OverrideGetOr(c1, c2, s.isViewAddOnsSwitchEnabled);
    OverrideGetOr(d1, d2, s.isOrderCreationSwitchEnabled);
    OverrideGetOr(e1, e2, s.isCanadaInPersonPaymentsSwitchEnabled);
    OverrideGetOr(f1, f2, s.isProductSKUInputScannerSwitchEnabled);
    OverrideGetOr(g1, g2, s.isCouponManagementSwitchEnabled);
    OverrideGetOr(h1, h2, s.knownCardReaders);
    OverrideGetOr(i1, i2, s.lastEligibilityErrorInfo);
    OverrideGetOr(j1, j2, s.lastJetpackBenefitsBannerDismissedTime);
    assert twice == once;
  }

  datatype GeneralStoreSettings = GeneralStoreSettings(
    isTelemetryAvailable: bool,
    telemetryLastReportedTime: Option<Date>,
    areSimplePaymentTaxesEnabled: bool)
  {
    /** `copy(...)`: every supplied argument replaces its field, every other field is kept. */
    function Copy(
      isTelemetryAvailable: CopiableProp<bool> := None,
      telemetryLastReportedTime: NullableCopiableProp<Date> := None,
      areSimplePaymentTaxesEnabled: CopiableProp<bool> := None
    ): (r: GeneralStoreSettings)
      ensures isTelemetryAvailable.Some? ==> r.isTelemetryAvailable == isTelemetryAvailable.value
      ensures isTelemetryAvailable.None? ==> r.isTelemetryAvailable == this.isTelemetryAvailable
      ensures telemetryLastReportedTime.Some? ==> r.telemetryLastReportedTime == telemetryLastReportedTime.value
      ensures telemetryLastReportedTime.None? ==> r.telemetryLastReportedTime == this.telemetryLastReportedTime
      ensures areSimplePaymentTaxesEnabled.Some? ==> r.areSimplePaymentTaxesEnabled == areSimplePaymentTaxesEnabled.value
      ensures areSimplePaymentTaxesEnabled.None? ==> r.areSimplePaymentTaxesEnabled == this.areSimplePaymentTaxesEnabled
    {
      GeneralStoreSettings(
        isTelemetryAvailable.GetOr(this.isTelemetryAvailable),
        telemetryLastReportedTime.GetOr(this.telemetryLastReportedTime),
        areSimplePaymentTaxesEnabled.GetOr(this.areSimplePaymentTaxesEnabled))
    }
  }

  /** `copy()` with every argument left as `.copy` is the original value. */
  lemma GeneralStoreSettingsCopyIdentity(s: GeneralStoreSettings)
    ensures s.Copy() == s
  {
  }

  /** Supplying one argument changes that field only. */
  lemma GeneralStoreSettingsCopyOneField(s: GeneralStoreSettings, enabled: bool, time: Option<Date>)
    ensures s.Copy(isTelemetryAvailable := Some(enabled)) == s.(isTelemetryAvailable := enabled)
    ensures s.Copy(telemetryLastReportedTime := Some(time)) == s.(telemetryLastReportedTime := time)
    ensures s.Copy(areSimplePaymentTaxesEnabled := Some(enabled)) == s.(areSimplePaymentTaxesEnabled := enabled)
  {
  }

  /** Two successive copies are one copy with the later arguments overriding the earlier ones. */
  lemma GeneralStoreSettingsCopyCompose(s: GeneralStoreSettings,
    a1: CopiableProp<bool>, b1: NullableCopiableProp<Date>, c1: CopiableProp<bool>,
    a2: CopiableProp<bool>, b2: NullableCopiableProp<Date>, c2: CopiableProp<bool>)
    ensures s.Copy(a1, b1, c1).Copy(a2, b2, c2) == s.Copy(Override(a1, a2), Override(b1, b2), Override(c1, c2))
  {
  }
}
