/**
 * What invalidateCache and invalidateOther make of one user's registry, stated as
 * functions of the registry before the call and the discovered list, and the
 * properties of that outcome.
 */
module Reconcile {
  import opened Wrappers
  import opened Records

  /** No later record of the list has the same component as record `i`. */
  predicate IsLastOccurrence(list: seq<ServiceInfo>, i: int)
    requires 0 <= i < |list|
  {
    forall j :: i < j < |list| ==> list[j].component != list[i].component
  }

  /** The service map after `put(component, record)` for every discovered record in turn. */
  function DiscoveredMap(list: seq<ServiceInfo>): (m: map<ComponentName, ServiceInfo>)
    ensures forall c :: c in m <==> exists i :: 0 <= i < |list| && list[i].component == c
    ensures RecordsKeyed(m)
    ensures forall i :: 0 <= i < |list| && IsLastOccurrence(list, i) ==> list[i].component in m && m[list[i].component] == list[i]
  {
    if list == [] then map[]
    else
      var init := list[..|list| - 1];
      var last := list[|list| - 1];
      assert list == init + [last];
      var before := DiscoveredMap(init);
      DiscoveredMapSnoc(init, last, before);
      before[last.component := last]
  }

  /** One more put keeps the three properties of DiscoveredMap. */
  lemma DiscoveredMapSnoc(init: seq<ServiceInfo>, last: ServiceInfo, before: map<ComponentName, ServiceInfo>)
    requires forall c :: c in before <==> exists i :: 0 <= i < |init| && init[i].component == c
    requires RecordsKeyed(before)
    requires forall i :: 0 <= i < |init| && IsLastOccurrence(init, i) ==>
      init[i].component in before && before[init[i].component] == init[i]
    ensures var list := init + [last];
      var m := before[last.component := last];
      && (forall c :: c in m <==> exists i :: 0 <= i < |list| && list[i].component == c)
      && RecordsKeyed(m)
      && (forall i :: 0 <= i < |list| && IsLastOccurrence(list, i) ==> list[i].component in m && m[list[i].component] == list[i])
  {
    DiscoveredKeysSnoc(init, last, before, before[last.component := last]);
    DiscoveredLastSnoc(init, last, before);
  }

  lemma DiscoveredKeysSnoc(init: seq<ServiceInfo>, last: ServiceInfo, before: map<ComponentName, ServiceInfo>,
                           m: map<ComponentName, ServiceInfo>)
    requires forall c :: c in before <==> exists i :: 0 <= i < |init| && init[i].component == c
    requires m == before[last.component := last]
    ensures forall c :: c in m <==> exists i :: 0 <= i < |init + [last]| && (init + [last])[i].component == c
  {
    var list := init + [last];
    forall c | c in m
      ensures exists i :: 0 <= i < |list| && list[i].component == c
    {
      if c != last.component {
        var i :| 0 <= i < |init| && init[i].component == c;
        assert list[i].component == c;
      } else {
        assert list[|init|].component == c;
      }
    }
    forall c | exists i :: 0 <= i < |list| && list[i].component == c
      ensures c in m
    {
      var i :| 0 <= i < |list| && list[i].component == c;
      if i < |init| {
        assert init[i].component == c;
      }
    }
  }

  lemma DiscoveredLastSnoc(init: seq<ServiceInfo>, last: ServiceInfo, before: map<ComponentName, ServiceInfo>)
    requires forall i :: 0 <= i < |init| && IsLastOccurrence(init, i) ==>
      init[i].component in before && before[init[i].component] == init[i]
    ensures forall i :: 0 <= i < |init + [last]| && IsLastOccurrence(init + [last], i) ==>
      (init + [last])[i].component in before[last.component := last]
      && before[last.component := last][(init + [last])[i].component] == (init + [last])[i]
  {
    var list := init + [last];
    var m := before[last.component := last];
    forall i | 0 <= i < |list| && IsLastOccurrence(list, i)
      ensures list[i].component in m && m[list[i].component] == list[i]
    {
      if i < |init| {
        assert list[|init|] == last;
        assert init[i] == list[i];
        forall j | i < j < |init|
          ensures init[j].component != init[i].component
        {
          assert init[j] == list[j];
        }
      }
    }
  }

  /** The anti-spoofing rule: an overlay entry applies only to a service of the same uid. */
  predicate Survives(services: map<ComponentName, ServiceInfo>, c: ComponentName, ds: DynamicSettings) {
    c in services && services[c].uid == ds.uid
  }

  /** The overlay entries left after toBeRemoved is deleted. */
  function SurvivingSettings(services: map<ComponentName, ServiceInfo>, dyn: map<ComponentName, DynamicSettings>)
    : map<ComponentName, DynamicSettings>
  {
    map c | c in dyn && Survives(services, c, dyn[c]) :: dyn[c]
  }

  /**
   * A record with an overlay entry applied: every group by its category, the
   * secure element and the observe mode only where the entry sets them.
   */
  function Overlaid(s: ServiceInfo, ds: DynamicSettings): ServiceInfo {
    s.(dynamicAidGroups := s.dynamicAidGroups + ds.aidGroups,
       offHostSE := if ds.offHostSE.Some? then ds.offHostSE else s.offHostSE,
       shouldDefaultToObserveMode :=
         if ds.shouldDefaultToObserveModeStr.Some?
         then ConvertValueToBoolean(ds.shouldDefaultToObserveModeStr, false)
         else s.shouldDefaultToObserveMode)
  }

  function ApplyOverlay(services: map<ComponentName, ServiceInfo>, dyn: map<ComponentName, DynamicSettings>)
    : map<ComponentName, ServiceInfo>
  {
    map c | c in services :: if c in dyn then Overlaid(services[c], dyn[c]) else services[c]
  }

  /** The components of the records that have the "other" category. */
  function OtherComponents(services: map<ComponentName, ServiceInfo>): set<ComponentName> {
    set c | c in services && services[c].HasCategory(CATEGORY_OTHER)
  }

  /**
   * The statuses after invalidateOther: one per "other" service, the existing one
   * when there is one and otherwise a new checked status with the record's uid.
   */
  function ReconciledOthers(others: map<ComponentName, OtherServiceStatus>, services: map<ComponentName, ServiceInfo>)
    : map<ComponentName, OtherServiceStatus>
  {
    map c | c in services && services[c].HasCategory(CATEGORY_OTHER) ::
      if c in others then others[c] else OtherServiceStatus(services[c].uid, true)
  }

  /** setCategoryOtherServiceEnabled(status.checked) on every record that has a status. */
  function WithOtherFlags(services: map<ComponentName, ServiceInfo>, others: map<ComponentName, OtherServiceStatus>)
    : map<ComponentName, ServiceInfo>
  {
    map c | c in services ::
      if c in others then services[c].(categoryOtherServiceEnabled := others[c].checked) else services[c]
  }

  /** The records after the overlay is applied, before the "other" flags are set. */
  function OverlaidServices(reg: UserServices, discovered: seq<ServiceInfo>): map<ComponentName, ServiceInfo> {
    var services := DiscoveredMap(discovered);
    ApplyOverlay(services, SurvivingSettings(services, reg.dynamicSettings))
  }

  /** The registry invalidateCache leaves for the user. */
  function Reconciled(reg: UserServices, discovered: seq<ServiceInfo>): UserServices {
    var services := DiscoveredMap(discovered);
    var dyn := SurvivingSettings(services, reg.dynamicSettings);
    var overlaid := ApplyOverlay(services, dyn);
    var others := ReconciledOthers(reg.others, overlaid);
    UserServices(WithOtherFlags(overlaid, others), dyn, others)
  }

  /** toBeRemoved is not empty: some overlay entry lost its service or its uid. */
  predicate DynamicNeedsWrite(reg: UserServices, discovered: seq<ServiceInfo>) {
    exists c :: c in reg.dynamicSettings && !Survives(DiscoveredMap(discovered), c, reg.dynamicSettings[c])
  }

  /** needToWrite: a status was removed or added. */
  predicate OthersNeedWrite(reg: UserServices, discovered: seq<ServiceInfo>) {
    var kept := OtherComponents(OverlaidServices(reg, discovered));
    (exists c :: c in reg.others && c !in kept) || (exists c :: c in kept && c !in reg.others)
  }

  /** The list passed to onServicesUpdated: the discovered objects, the ones kept in the map as updated. */
  function Snapshot(discovered: seq<ServiceInfo>, services: map<ComponentName, ServiceInfo>): seq<ServiceInfo> {
    seq(|discovered|, i requires 0 <= i < |discovered| =>
      if IsLastOccurrence(discovered, i) && discovered[i].component in services
      then services[discovered[i].component] else discovered[i])
  }

  // ===================== properties =====================

  /**
   * The rebuilt service map has exactly the discovered components, each with the
   * identity of its (last) discovered record and the overlay fields as the
   * surviving overlay entry sets them.
   */
  lemma ReconciledRecords(reg: UserServices, discovered: seq<ServiceInfo>)
    ensures forall c :: c in Reconciled(reg, discovered).services <==> ContainsService(discovered, c)
    ensures RecordsKeyed(Reconciled(reg, discovered).services)
    ensures forall i :: 0 <= i < |discovered| && IsLastOccurrence(discovered, i) ==>
      var s := discovered[i];
      var r := Reconciled(reg, discovered).services[s.component];
      var dyn := Reconciled(reg, discovered).dynamicSettings;
      && r.uid == s.uid && r.onHost == s.onHost && r.staticCategories == s.staticCategories
      && r.staticOffHostSE == s.staticOffHostSE && r.pollingLoopFilters == s.pollingLoopFilters
      && (s.component !in dyn ==>
            r.dynamicAidGroups == s.dynamicAidGroups && r.offHostSE == s.offHostSE
            && r.shouldDefaultToObserveMode == s.shouldDefaultToObserveMode)
      && (s.component in dyn ==>
            && (forall k :: k in dyn[s.component].aidGroups ==> k in r.dynamicAidGroups && r.dynamicAidGroups[k] == dyn[s.component].aidGroups[k])
            && (forall k :: k in s.dynamicAidGroups && k !in dyn[s.component].aidGroups ==> k in r.dynamicAidGroups && r.dynamicAidGroups[k] == s.dynamicAidGroups[k])
            && (forall k :: k in r.dynamicAidGroups ==> k in s.dynamicAidGroups || k in dyn[s.component].aidGroups)
            && r.offHostSE == (if dyn[s.component].offHostSE.Some? then dyn[s.component].offHostSE else s.offHostSE)
            && r.shouldDefaultToObserveMode ==
                 (if dyn[s.component].shouldDefaultToObserveModeStr.Some?
                  then ConvertValueToBoolean(dyn[s.component].shouldDefaultToObserveModeStr, false)
                  else s.shouldDefaultToObserveMode))
  {
    var r := Reconciled(reg, discovered);
    var services := DiscoveredMap(discovered);
    ReconciledIdentities(reg, discovered);
    forall i | 0 <= i < |discovered| && IsLastOccurrence(discovered, i)
      ensures discovered[i].component in services && services[discovered[i].component] == discovered[i]
    {
    }
    forall c | c in services {
      OverlaidRecord(services, r.dynamicSettings, r.others, c);
    }
  }

  /** One record after the overlay and the "other" flag: its identity is kept, its overlay fields are set. */
  lemma OverlaidRecord(services: map<ComponentName, ServiceInfo>, dyn: map<ComponentName, DynamicSettings>,
                       others: map<ComponentName, OtherServiceStatus>, c: ComponentName)
    requires c in services
    ensures var s := services[c];
      var r := WithOtherFlags(ApplyOverlay(services, dyn), others)[c];
      && r.component == s.component
      && r.uid == s.uid && r.onHost == s.onHost && r.staticCategories == s.staticCategories
      && r.staticOffHostSE == s.staticOffHostSE && r.pollingLoopFilters == s.pollingLoopFilters
      && (c !in dyn ==>
            r.dynamicAidGroups == s.dynamicAidGroups && r.offHostSE == s.offHostSE
            && r.shouldDefaultToObserveMode == s.shouldDefaultToObserveMode)
      && (c in dyn ==>
            && (forall k :: k in dyn[c].aidGroups ==> k in r.dynamicAidGroups && r.dynamicAidGroups[k] == dyn[c].aidGroups[k])
            && (forall k :: k in s.dynamicAidGroups && k !in dyn[c].aidGroups ==> k in r.dynamicAidGroups && r.dynamicAidGroups[k] == s.dynamicAidGroups[k])
            && (forall k :: k in r.dynamicAidGroups ==> k in s.dynamicAidGroups || k in dyn[c].aidGroups)
            && r.offHostSE == (if dyn[c].offHostSE.Some? then dyn[c].offHostSE else s.offHostSE)
            && r.shouldDefaultToObserveMode ==
                 (if dyn[c].shouldDefaultToObserveModeStr.Some?
                  then ConvertValueToBoolean(dyn[c].shouldDefaultToObserveModeStr, false)
                  else s.shouldDefaultToObserveMode))
  {
  }

  /** The overlay entries toBeRemoved leaves, on a given service map. */
  lemma SurvivorsOf(services: map<ComponentName, ServiceInfo>, dyn: map<ComponentName, DynamicSettings>)
    ensures var kept := SurvivingSettings(services, dyn);
      && (forall c :: c in kept ==> c in services && services[c].uid == kept[c].uid)
      && (forall c :: c in dyn ==> (c in kept <==> c in services && services[c].uid == dyn[c].uid))
      && (forall c :: c in kept ==> c in dyn && kept[c] == dyn[c])
      && ((exists c :: c in dyn && !Survives(services, c, dyn[c])) <==> kept != dyn)
  {
    var kept := SurvivingSettings(services, dyn);
    if c :| c in dyn && !Survives(services, c, dyn[c]) {
      assert c !in kept;
    } else {
      assert kept.Keys == dyn.Keys;
    }
  }

  /** Reconciling keeps the discovered components and their uids. */
  lemma ReconciledIdentities(reg: UserServices, discovered: seq<ServiceInfo>)
    ensures var r := Reconciled(reg, discovered).services;
      var services := DiscoveredMap(discovered);
      && (forall c :: c in r <==> c in services)
      && (forall c :: c in r ==> r[c].uid == services[c].uid)
  {
  }

  /**
   * Every remaining overlay entry belongs to a discovered service of the same uid;
   * an entry is kept exactly when it does, unchanged; and the dynamic-settings
   * document is due exactly when an entry was dropped.
   */
  lemma OrphansDropped(reg: UserServices, discovered: seq<ServiceInfo>)
    ensures forall c :: c in Reconciled(reg, discovered).dynamicSettings ==>
      c in Reconciled(reg, discovered).services
      && Reconciled(reg, discovered).services[c].uid == Reconciled(reg, discovered).dynamicSettings[c].uid
    ensures forall c :: c in reg.dynamicSettings ==>
      (c in Reconciled(reg, discovered).dynamicSettings <==>
         ContainsService(discovered, c) && DiscoveredMap(discovered)[c].uid == reg.dynamicSettings[c].uid)
    ensures forall c :: c in Reconciled(reg, discovered).dynamicSettings ==>
      c in reg.dynamicSettings && Reconciled(reg, discovered).dynamicSettings[c] == reg.dynamicSettings[c]
    ensures DynamicNeedsWrite(reg, discovered) <==> Reconciled(reg, discovered).dynamicSettings != reg.dynamicSettings
  {
    SurvivorsOf(DiscoveredMap(discovered), reg.dynamicSettings);
    ReconciledIdentities(reg, discovered);
  }

  /** invalidateOther's outcome on a given service map. */
  lemma OthersOfServices(others: map<ComponentName, OtherServiceStatus>, services: map<ComponentName, ServiceInfo>)
    ensures var o := ReconciledOthers(others, services);
      var s := WithOtherFlags(services, o);
      && (forall c :: c in o <==> c in s && s[c].HasCategory(CATEGORY_OTHER))
      && (forall c :: c in o && c !in others ==> o[c] == OtherServiceStatus(s[c].uid, true))
      && (forall c :: c in o && c in others ==> o[c] == others[c])
      && (forall c :: c in o ==> s[c].categoryOtherServiceEnabled == o[c].checked)
  {
  }

  /**
   * The statuses are exactly those of the "other" services; a new one is checked
   * and carries the record's uid, an existing one is kept; each such record's
   * enabled flag is its status.
   */
  lemma OthersReconciled(reg: UserServices, discovered: seq<ServiceInfo>)
    ensures var r := Reconciled(reg, discovered);
      && (forall c :: c in r.others <==> c in r.services && r.services[c].HasCategory(CATEGORY_OTHER))
      && (forall c :: c in r.others && c !in reg.others ==> r.others[c] == OtherServiceStatus(r.services[c].uid, true))
      && (forall c :: c in r.others && c in reg.others ==> r.others[c] == reg.others[c])
      && (forall c :: c in r.others ==> r.services[c].categoryOtherServiceEnabled == r.others[c].checked)
  {
    OthersOfServices(reg.others, OverlaidServices(reg, discovered));
  }

  /** The statuses change exactly when one goes or one comes. */
  lemma ReconciledOthersChanged(others: map<ComponentName, OtherServiceStatus>, services: map<ComponentName, ServiceInfo>)
    ensures var kept := OtherComponents(services);
      ((exists c :: c in others && c !in kept) || (exists c :: c in kept && c !in others))
      <==> ReconciledOthers(others, services) != others
  {
    var result := ReconciledOthers(others, services);
    var kept := OtherComponents(services);
    assert forall c :: c in result <==> c in kept;
    if c :| c in others && c !in kept {
      assert c !in result;
    } else if c :| c in kept && c !in others {
      assert c in result;
    } else {
      assert result.Keys == others.Keys;
    }
  }

  /** The others document is due exactly when the set of statuses changed. */
  lemma OthersWriteWhenChanged(reg: UserServices, discovered: seq<ServiceInfo>)
    ensures OthersNeedWrite(reg, discovered) <==> Reconciled(reg, discovered).others != reg.others
  {
    ReconciledOthersChanged(reg.others, OverlaidServices(reg, discovered));
  }

  /** The reconciled registry keeps the shape every registry has. */
  lemma ReconciledWellFormed(reg: UserServices, discovered: seq<ServiceInfo>)
    requires RegistryWellFormed(reg)
    ensures RegistryWellFormed(Reconciled(reg, discovered))
  {
  }

  /**
   * Invalidating again with the same discovered list changes nothing and writes
   * neither document.
   */
  lemma ReconcileIdempotent(reg: UserServices, discovered: seq<ServiceInfo>)
    ensures Reconciled(Reconciled(reg, discovered), discovered) == Reconciled(reg, discovered)
    ensures !DynamicNeedsWrite(Reconciled(reg, discovered), discovered)
    ensures !OthersNeedWrite(Reconciled(reg, discovered), discovered)
  {
    var once := Reconciled(reg, discovered);
    var services := DiscoveredMap(discovered);
    SurvivingIdempotent(services, reg.dynamicSettings);
    assert OverlaidServices(once, discovered) == OverlaidServices(reg, discovered);
    ReconciledOthersIdempotent(reg.others, OverlaidServices(reg, discovered));
    OrphansDropped(once, discovered);
    OthersWriteWhenChanged(once, discovered);
  }

  /** Dropping the entries that do not survive a second time drops nothing. */
  lemma SurvivingIdempotent(services: map<ComponentName, ServiceInfo>, dyn: map<ComponentName, DynamicSettings>)
    ensures SurvivingSettings(services, SurvivingSettings(services, dyn)) == SurvivingSettings(services, dyn)
  {
  }

  /** Reconciling the statuses a second time against the same records changes none. */
  lemma ReconciledOthersIdempotent(others: map<ComponentName, OtherServiceStatus>, services: map<ComponentName, ServiceInfo>)
    ensures ReconciledOthers(ReconciledOthers(others, services), services) == ReconciledOthers(others, services)
  {
  }
}
