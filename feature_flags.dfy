/** The feature flag service: which features are on, by build configuration. */
module FeatureFlags {

  /** The kind of build the app is running as. */
  datatype BuildConfiguration = LocalDeveloper | Alpha | AppStore

  /**
   * The feature flags the service decides explicitly; `Unlisted` stands for
   * every other case of the flag enumeration, which falls to the default.
   */
  datatype FeatureFlag =
    | BarcodeScanner
    | LargeTitles
    | ShippingLabelsM2M3
    | ShippingLabelsInternational
    | ShippingLabelsAddPaymentMethods
    | ShippingLabelsAddCustomPackages
    | ShippingLabelsMultiPackage
    | PushNotificationsForAllStores
    | SimplePaymentsPrototype
    | OrderListFilters
    | JetpackConnectionPackageSupport
    | OrderCreation
    | HubMenu
    | Analytics
    | Unlisted(name: string)

  /** The features still in development: on only in developer and alpha builds. */
  predicate InDevelopment(flag: FeatureFlag) {
    flag in {BarcodeScanner, SimplePaymentsPrototype, JetpackConnectionPackageSupport, OrderCreation, HubMenu, Analytics}
  }

  predicate IsDevelopmentBuild(buildConfig: BuildConfiguration) {
    buildConfig == LocalDeveloper || buildConfig == Alpha
  }

  /**
   * `isFeatureFlagEnabled(_:)` under the build configuration `buildConfig`:
   * a feature is on unless it is still in development and this is not a
   * developer or alpha build.
   */
  function IsFeatureFlagEnabled(flag: FeatureFlag, buildConfig: BuildConfiguration): (enabled: bool)
    ensures enabled <==> !InDevelopment(flag) || IsDevelopmentBuild(buildConfig)
  {
    match flag
    case BarcodeScanner => buildConfig == LocalDeveloper || buildConfig == Alpha
    case LargeTitles => true
    case ShippingLabelsM2M3 => true
    case ShippingLabelsInternational => true
    case ShippingLabelsAddPaymentMethods => true
    case ShippingLabelsAddCustomPackages => true
    case ShippingLabelsMultiPackage => true
    case PushNotificationsForAllStores => true
    case SimplePaymentsPrototype => buildConfig == LocalDeveloper || buildConfig == Alpha
    case OrderListFilters => true
    case JetpackConnectionPackageSupport => buildConfig == LocalDeveloper || buildConfig == Alpha
    case OrderCreation => buildConfig == LocalDeveloper || buildConfig == Alpha
    case HubMenu => buildConfig == LocalDeveloper || buildConfig == Alpha
    case Analytics => buildConfig == LocalDeveloper || buildConfig == Alpha
    case _ => true
  }

  /** In developer and alpha builds every feature is on. */
  lemma DevelopmentBuildEnablesAll(flag: FeatureFlag, buildConfig: BuildConfiguration)
    requires IsDevelopmentBuild(buildConfig)
    ensures IsFeatureFlagEnabled(flag, buildConfig)
  {
  }

  /** The features not in development, including every unlisted one, are on in every build. */
  lemma ReleasedFeaturesAlwaysOn(flag: FeatureFlag, buildConfig: BuildConfiguration)
    requires flag.Unlisted? || flag in {LargeTitles, ShippingLabelsM2M3, ShippingLabelsInternational,
      ShippingLabelsAddPaymentMethods, ShippingLabelsAddCustomPackages, ShippingLabelsMultiPackage,
      PushNotificationsForAllStores, OrderListFilters}
    ensures IsFeatureFlagEnabled(flag, buildConfig)
  {
  }

  /** An App Store build turns off exactly the features in development. */
  lemma AppStoreBuild(flag: FeatureFlag)
    ensures !IsFeatureFlagEnabled(flag, AppStore) <==> InDevelopment(flag)
  {
  }
}
