/**
 * The setting store's persistence: site settings stored by site and
 * settingID, upserted group by group with the settings of that group the
 * remote no longer returns deleted, and the payments page lookup.
 */
module SettingStore {
  import opened Wrappers
  import opened SwiftTypes

  datatype SiteSettingGroup = General | Product | Advanced

  /** A read-only setting as the remote returns it for a site. */
  datatype SiteSetting = SiteSetting(
    settingID: string,
    settingLabel: string,
    settingDescription: string,
    value: string,
    settingGroupKey: SiteSettingGroup)

  /** Where a stored setting is found: `loadSiteSetting(siteID:settingID:)`. */
  datatype SettingKey = SettingKey(siteID: Int64, settingID: string)

  /** A stored setting; its value is optional in storage. */
  datatype StoredSetting = StoredSetting(
    settingLabel: string,
    settingDescription: string,
    value: Option<string>,
    settingGroupKey: SiteSettingGroup)

  type Settings = map<SettingKey, StoredSetting>

  /** `Storage.SiteSetting.update(with:)`: the stored setting takes every field of the read-only one. */
  function StoredOf(r: SiteSetting): StoredSetting {
    StoredSetting(r.settingLabel, r.settingDescription, Some(r.value), r.settingGroupKey)
  }

  function SettingIDs(incoming: seq<SiteSetting>): set<string> {
    set i | 0 <= i < |incoming| :: incoming[i].settingID
  }

  /** The upsert loop: each incoming setting updates the stored one with its settingID, or is inserted. */
  function Upserted(settings: Settings, siteID: Int64, incoming: seq<SiteSetting>): Settings
    decreases |incoming|
  {
    if incoming == [] then settings
    else Upserted(settings[SettingKey(siteID, incoming[0].settingID) := StoredOf(incoming[0])], siteID, incoming[1..])
  }

  /** A setting the prune deletes: of this site and group, with a settingID that did not arrive. */
  predicate Stale(settings: Settings, k: SettingKey, siteID: Int64, group: SiteSettingGroup, ids: set<string>)
    requires k in settings
  {
    k.siteID == siteID && settings[k].settingGroupKey == group && k.settingID !in ids
  }

  /** The prune over the site's settings of the group; settingIDs are compared by code points. */
  function Pruned(settings: Settings, siteID: Int64, group: SiteSettingGroup, ids: set<string>): Settings {
    map k | k in settings && !Stale(settings, k, siteID, group, ids) :: settings[k]
  }

  /** `upsertSettings(_:in:siteID:settingGroup:)` */
  function UpsertSettings(settings: Settings, siteID: Int64, group: SiteSettingGroup, incoming: seq<SiteSetting>): Settings {
    Pruned(Upserted(settings, siteID, incoming), siteID, group, SettingIDs(incoming))
  }

  /** The incoming setting at index `i` is the last one with its settingID. */
  predicate IsLast(incoming: seq<SiteSetting>, i: int)
    requires 0 <= i < |incoming|
  {
    forall j | i < j < |incoming| :: incoming[j].settingID != incoming[i].settingID
  }

  lemma SettingIDsCons(incoming: seq<SiteSetting>)
    requires incoming != []
    ensures SettingIDs(incoming) == {incoming[0].settingID} + SettingIDs(incoming[1..])
  {
    var tail := incoming[1..];
    forall id | id in SettingIDs(incoming) ensures id in {incoming[0].settingID} + SettingIDs(tail) {
      var i :| 0 <= i < |incoming| && incoming[i].settingID == id;
      if i > 0 {
        assert tail[i - 1] == incoming[i];
      }
    }
    forall id | id in SettingIDs(tail) ensures id in SettingIDs(incoming) {
      var i :| 0 <= i < |tail| && tail[i].settingID == id;
      assert incoming[i + 1] == tail[i];
    }
  }

  /** The upsert stores exactly the stored keys and the site's incoming settingIDs. */
  lemma {:induction false} UpsertedKeys(settings: Settings, siteID: Int64, incoming: seq<SiteSetting>)
    decreases |incoming|
    ensures Upserted(settings, siteID, incoming).Keys
      == settings.Keys + set id | id in SettingIDs(incoming) :: SettingKey(siteID, id)
  {
    if incoming != [] {
      SettingIDsCons(incoming);
      UpsertedKeys(settings[SettingKey(siteID, incoming[0].settingID) := StoredOf(incoming[0])], siteID, incoming[1..]);
    }
  }

  /** A key the upsert does not write keeps its setting. */
  lemma {:induction false} UpsertedUntouched(settings: Settings, siteID: Int64, incoming: seq<SiteSetting>, k: SettingKey)
    requires k in settings && (k.siteID != siteID || k.settingID !in SettingIDs(incoming))
    decreases |incoming|
    ensures k in Upserted(settings, siteID, incoming) && Upserted(settings, siteID, incoming)[k] == settings[k]
  {
    if incoming != [] {
      SettingIDsCons(incoming);
      UpsertedUntouched(settings[SettingKey(siteID, incoming[0].settingID) := StoredOf(incoming[0])], siteID, incoming[1..], k);
    }
  }

  /** The last incoming setting with a settingID is the one stored under it. */
  lemma {:induction false} UpsertedLast(settings: Settings, siteID: Int64, incoming: seq<SiteSetting>, i: int)
    requires 0 <= i < |incoming| && IsLast(incoming, i)
    decreases |incoming|
    ensures var k := SettingKey(siteID, incoming[i].settingID);
      k in Upserted(settings, siteID, incoming) && Upserted(settings, siteID, incoming)[k] == StoredOf(incoming[i])
  {
    var next := settings[SettingKey(siteID, incoming[0].settingID) := StoredOf(incoming[0])];
    var tail := incoming[1..];
    if i > 0 {
      assert tail[i - 1] == incoming[i];
      forall j | i - 1 < j < |tail| ensures tail[j].settingID != tail[i - 1].settingID {
        assert tail[j] == incoming[j + 1];
      }
      UpsertedLast(next, siteID, tail, i - 1);
    } else {
      assert incoming[0].settingID !in SettingIDs(tail) by {
        forall j | 0 <= j < |tail| ensures tail[j].settingID != incoming[0].settingID {
          assert tail[j] == incoming[j + 1];
        }
      }
      UpsertedUntouched(next, siteID, tail, SettingKey(siteID, incoming[0].settingID));
    }
  }

  function LastIndexOf(incoming: seq<SiteSetting>, id: string): (i: int)
    requires id in SettingIDs(incoming)
    ensures 0 <= i < |incoming| && incoming[i].settingID == id && IsLast(incoming, i)
  {
    if incoming[|incoming| - 1].settingID == id then |incoming| - 1
    else
      var init := incoming[..|incoming| - 1];
      assert id in SettingIDs(init) by {
        var j :| 0 <= j < |incoming| && incoming[j].settingID == id;
        assert init[j] == incoming[j];
      }
      var i := LastIndexOf(init, id);
      assert incoming[i] == init[i];
      i
  }

  /**
   * After the upsert: each incoming setting (the last with its settingID)
   * is stored for the site; the site's settings of the group are exactly
   * those whose settingID arrived; settings of other sites, and of the
   * site's other groups whose settingID did not arrive, are untouched; and
   * nothing is stored but the old keys and the incoming settingIDs.
   */
  lemma UpsertSettingsSpec(settings: Settings, siteID: Int64, group: SiteSettingGroup, incoming: seq<SiteSetting>)
    ensures var r := UpsertSettings(settings, siteID, group, incoming);
      && (forall i | 0 <= i < |incoming| && IsLast(incoming, i) ::
            SettingKey(siteID, incoming[i].settingID) in r
            && r[SettingKey(siteID, incoming[i].settingID)] == StoredOf(incoming[i]))
      && (forall k | k in r && k.siteID == siteID && r[k].settingGroupKey == group :: k.settingID in SettingIDs(incoming))
      && (forall k | k in settings && k.siteID != siteID :: k in r && r[k] == settings[k])
      && (forall k | k in settings && settings[k].settingGroupKey != group && k.settingID !in SettingIDs(incoming) ::
            k in r && r[k] == settings[k])
      && (forall k | k in r :: k in settings || (k.siteID == siteID && k.settingID in SettingIDs(incoming)))
  {
    var u := Upserted(settings, siteID, incoming);
    var ids := SettingIDs(incoming);
    UpsertedKeys(settings, siteID, incoming);
    forall i | 0 <= i < |incoming| && IsLast(incoming, i)
      ensures SettingKey(siteID, incoming[i].settingID) in u && u[SettingKey(siteID, incoming[i].settingID)] == StoredOf(incoming[i])
    {
      UpsertedLast(settings, siteID, incoming, i);
      assert incoming[i].settingID in ids;
    }
    forall k | k in settings && (k.siteID != siteID || k.settingID !in ids)
      ensures k in u && u[k] == settings[k]
    {
      UpsertedUntouched(settings, siteID, incoming, k);
    }
  }

  /** The last incoming setting with a settingID is stored for the site after the whole upsert. */
  lemma UpsertSettingsStoresLast(settings: Settings, siteID: Int64, group: SiteSettingGroup, incoming: seq<SiteSetting>, i: int)
    requires 0 <= i < |incoming| && IsLast(incoming, i)
    ensures var r := UpsertSettings(settings, siteID, group, incoming);
      SettingKey(siteID, incoming[i].settingID) in r && r[SettingKey(siteID, incoming[i].settingID)] == StoredOf(incoming[i])
  {
    UpsertedLast(settings, siteID, incoming, i);
    assert incoming[i].settingID in SettingIDs(incoming);
  }

  /** An upsert that only rewrites what is already stored changes nothing. */
  lemma UpsertedNoop(settings: Settings, siteID: Int64, incoming: seq<SiteSetting>)
    requires forall i | 0 <= i < |incoming| && IsLast(incoming, i) ::
      SettingKey(siteID, incoming[i].settingID) in settings
      && settings[SettingKey(siteID, incoming[i].settingID)] == StoredOf(incoming[i])
    ensures Upserted(settings, siteID, incoming) == settings
  {
    var u := Upserted(settings, siteID, incoming);
    UpsertedKeys(settings, siteID, incoming);
    forall k | k in u ensures k in settings && u[k] == settings[k] {
      if k.siteID == siteID && k.settingID in SettingIDs(incoming) {
        var i := LastIndexOf(incoming, k.settingID);
        UpsertedLast(settings, siteID, incoming, i);
      } else {
        UpsertedUntouched(settings, siteID, incoming, k);
      }
    }
  }

  /** A prune that finds nothing stale changes nothing. */
  lemma PrunedNoop(settings: Settings, siteID: Int64, group: SiteSettingGroup, ids: set<string>)
    requires forall k | k in settings :: !Stale(settings, k, siteID, group, ids)
    ensures Pruned(settings, siteID, group, ids) == settings
  {
  }

  /** Applying the same settings a second time changes nothing. */
  lemma UpsertSettingsIdempotent(settings: Settings, siteID: Int64, group: SiteSettingGroup, incoming: seq<SiteSetting>)
    ensures UpsertSettings(UpsertSettings(settings, siteID, group, incoming), siteID, group, incoming)
      == UpsertSettings(settings, siteID, group, incoming)
  {
    var r := UpsertSettings(settings, siteID, group, incoming);
    forall i | 0 <= i < |incoming| && IsLast(incoming, i)
      ensures SettingKey(siteID, incoming[i].settingID) in r && r[SettingKey(siteID, incoming[i].settingID)] == StoredOf(incoming[i])
    {
      UpsertSettingsStoresLast(settings, siteID, group, incoming, i);
    }
    UpsertedNoop(r, siteID, incoming);
    PrunedNoop(r, siteID, group, SettingIDs(incoming));
  }

  /** What the payments page lookup fails with. */
  datatype SettingError = PaymentsPageNotFound

  /** `SettingKeys.paymentsPage` */
  const PaymentsPageSettingID: string := "woocommerce_checkout_pay_endpoint"

  /** `getPaymentsPagePath(siteID:)`: the stored value of the site's payments page setting. */
  function GetPaymentsPagePath(settings: Settings, siteID: Int64): (r: Result<string, SettingError>)
    ensures r.Success? <==>
      SettingKey(siteID, PaymentsPageSettingID) in settings && settings[SettingKey(siteID, PaymentsPageSettingID)].value.Some?
    ensures r.Success? ==> Some(r.value) == settings[SettingKey(siteID, PaymentsPageSettingID)].value
    ensures r.Failure? ==> r.error == PaymentsPageNotFound
  {
    var k := SettingKey(siteID, PaymentsPageSettingID);
    if k !in settings || settings[k].value.None? then Failure(PaymentsPageNotFound)
    else Success(settings[k].value.value)
  }

  /** Once the site's settings have been upserted with a payments page setting, the lookup returns its value. */
  lemma PaymentsPathAfterUpsert(settings: Settings, siteID: Int64, group: SiteSettingGroup, incoming: seq<SiteSetting>, i: int)
    requires 0 <= i < |incoming| && IsLast(incoming, i) && incoming[i].settingID == PaymentsPageSettingID
    ensures GetPaymentsPagePath(UpsertSettings(settings, siteID, group, incoming), siteID) == Success(incoming[i].value)
  {
    UpsertSettingsSpec(settings, siteID, group, incoming);
  }

  class SettingStorage {
    var settings: Settings

    constructor ()
      ensures settings == map[]
    {
      settings := map[];
    }

    /** `upsertSettings(_:in:siteID:settingGroup:)`: the upsert loop, then the prune over the site's settings of the group. */
    method UpsertSettingsIn(incoming: seq<SiteSetting>, siteID: Int64, group: SiteSettingGroup)
      modifies this
      ensures settings == UpsertSettings(old(settings), siteID, group, incoming)
    {
      UpsertEach(incoming, siteID);
      var ids := set j | 0 <= j < |incoming| :: incoming[j].settingID;
      DeleteMissing(siteID, group, ids);
    }

    /** The upsert loop: each incoming setting updates the stored one with its settingID, or is inserted. */
    method UpsertEach(incoming: seq<SiteSetting>, siteID: Int64)
      modifies this
      ensures settings == Upserted(old(settings), siteID, incoming)
    {
      var i := 0;
      while i < |incoming|
        invariant 0 <= i <= |incoming|
        invariant Upserted(settings, siteID, incoming[i..]) == Upserted(old(settings), siteID, incoming)
      {
        assert incoming[i..][1..] == incoming[i + 1..];
        settings := settings[SettingKey(siteID, incoming[i].settingID) := StoredOf(incoming[i])];
        i := i + 1;
      }
      assert incoming[i..] == [];
    }

    /** The prune: each stored setting of the site and group whose settingID is not in `ids` is deleted. */
    method DeleteMissing(siteID: Int64, group: SiteSettingGroup, ids: set<string>)
      modifies this
      ensures settings == Pruned(old(settings), siteID, group, ids)
    {
      ghost var upserted := settings;
      var groupSettings := set k | k in settings && k.siteID == siteID && settings[k].settingGroupKey == group;
      while groupSettings != {}
        invariant groupSettings <= upserted.Keys
        invariant forall k | k in groupSettings :: k.siteID == siteID && upserted[k].settingGroupKey == group
        invariant forall k | k in upserted :: (k in settings <==> k in groupSettings || !Stale(upserted, k, siteID, group, ids))
        invariant forall k | k in settings :: k in upserted && settings[k] == upserted[k]
        decreases groupSettings
      {
        var k := Pick(groupSettings);
        if k.settingID !in ids {
          settings := settings - {k};
        }
        groupSettings := groupSettings - {k};
      }
    }

    method UpsertStoredGeneralSettings(siteID: Int64, incoming: seq<SiteSetting>)
      modifies this
      ensures settings == UpsertSettings(old(settings), siteID, General, incoming)
    {
      UpsertSettingsIn(incoming, siteID, General);
    }

    method UpsertStoredProductSettings(siteID: Int64, incoming: seq<SiteSetting>)
      modifies this
      ensures settings == UpsertSettings(old(settings), siteID, Product, incoming)
    {
      UpsertSettingsIn(incoming, siteID, Product);
    }

    method UpsertStoredAdvancedSettings(siteID: Int64, incoming: seq<SiteSetting>)
      modifies this
      ensures settings == UpsertSettings(old(settings), siteID, Advanced, incoming)
    {
      UpsertSettingsIn(incoming, siteID, Advanced);
    }

    /** `getPaymentsPagePath(siteID:onCompletion:)`: the completion's result is returned. */
    method PaymentsPagePath(siteID: Int64) returns (r: Result<string, SettingError>)
      ensures r == GetPaymentsPagePath(settings, siteID)
    {
      var k := SettingKey(siteID, PaymentsPageSettingID);
      if k !in settings || settings[k].value.None? {
        return Failure(PaymentsPageNotFound);
      }
      return Success(settings[k].value.value);
    }
  }
}
