/**
 * What the registration calls of RegisteredServicesCache make of one user's
 * registry when they go through, and how their effect fares at the next
 * invalidateCache (a package rescan): what the overlay entry holds is applied to
 * the rediscovered record again, what only the record held is lost.
 */
module Registrations {
  import opened Wrappers
  import opened JavaText
  import opened Records
  import opened Reconcile

  /** The service is registered and the caller's uid is the service's. */
  predicate Owns(reg: UserServices, uid: Uid, c: ComponentName) {
    c in reg.services && reg.services[c].uid == uid
  }

  /** The overlay entry of a service, or `new DynamicSettings(uid)` when it has none. */
  function SettingsOrNew(reg: UserServices, uid: Uid, c: ComponentName): DynamicSettings {
    if c in reg.dynamicSettings then reg.dynamicSettings[c] else NewDynamicSettings(uid)
  }

  /** setOffHostSecureElement, written: the record and the overlay entry, when there is one, hold the secure element. */
  function SecureElementSet(reg: UserServices, c: ComponentName, se: string): (r: UserServices)
    requires c in reg.services
    ensures RegistryWellFormed(reg) ==> RegistryWellFormed(r)
  {
    reg.(services := reg.services[c := reg.services[c].(offHostSE := Some(se))],
         dynamicSettings := if c in reg.dynamicSettings
                            then reg.dynamicSettings[c := reg.dynamicSettings[c].(offHostSE := Some(se))]
                            else reg.dynamicSettings)
  }

  /** setOffHostSecureElement, not written: the overlay entry, when there is one, has no secure element. */
  function SecureElementCleared(reg: UserServices, c: ComponentName): (r: UserServices)
    ensures RegistryWellFormed(reg) ==> RegistryWellFormed(r)
  {
    reg.(dynamicSettings := if c in reg.dynamicSettings
                            then reg.dynamicSettings[c := reg.dynamicSettings[c].(offHostSE := None)]
                            else reg.dynamicSettings)
  }

  /** resetOffHostSecureElement, written: the entry has no secure element, the record its manifest's one. */
  function SecureElementReset(reg: UserServices, c: ComponentName): (r: UserServices)
    requires c in reg.services && c in reg.dynamicSettings
    ensures RegistryWellFormed(reg) ==> RegistryWellFormed(r)
  {
    reg.(services := reg.services[c := reg.services[c].ResetOffHostSecureElement()],
         dynamicSettings := reg.dynamicSettings[c := reg.dynamicSettings[c].(offHostSE := None)])
  }

  /**
   * The state in which resetOffHostSecureElement, as written, throws a
   * NullPointerException: the service passes every check, yet it has no
   * overlay entry to read the previous secure element from.
   */
  predicate ResetThrows(reg: UserServices, uid: Uid, c: ComponentName) {
    && Owns(reg, uid, c) && !reg.services[c].onHost && reg.services[c].offHostSE.Some?
    && c !in reg.dynamicSettings
  }

  /**
   * resetOffHostSecureElement with the null check it evidently intends: an
   * existing entry loses its secure element, and the record returns to its
   * manifest's one whether or not there is an entry.
   */
  function SecureElementResetChecked(reg: UserServices, c: ComponentName): (r: UserServices)
    requires c in reg.services
    ensures r.services == reg.services[c := reg.services[c].ResetOffHostSecureElement()]
    ensures r.dynamicSettings == SecureElementCleared(reg, c).dynamicSettings
    ensures r.others == reg.others
    ensures c in reg.dynamicSettings ==> r == SecureElementReset(reg, c)
    ensures RegistryWellFormed(reg) ==> RegistryWellFormed(r)
  {
    if c in reg.dynamicSettings then SecureElementReset(reg, c)
    else reg.(services := reg.services[c := reg.services[c].ResetOffHostSecureElement()])
  }

  /** setShouldDefaultToObserveModeForService: the record's mode, and the entry's text for it. */
  function ObserveModeSet(reg: UserServices, uid: Uid, c: ComponentName, enable: bool): (r: UserServices)
    requires c in reg.services
    ensures RegistryWellFormed(reg) ==> RegistryWellFormed(r)
  {
    var ds := SettingsOrNew(reg, uid, c);
    reg.(services := reg.services[c := reg.services[c].(shouldDefaultToObserveMode := enable)],
         dynamicSettings := reg.dynamicSettings[c := ds.(shouldDefaultToObserveModeStr := Some(BoolToString(enable)))])
  }

  /** registerPollingLoopFilterForService: the record maps the filter to the flag. */
  function PollingLoopFilterAdded(reg: UserServices, c: ComponentName, filter: string, autoTransact: bool)
    : (r: UserServices)
    requires c in reg.services
    ensures RegistryWellFormed(reg) ==> RegistryWellFormed(r)
  {
    var s := reg.services[c];
    reg.(services := reg.services[c := s.(pollingLoopFilters := s.pollingLoopFilters[filter := autoTransact])])
  }

  /** registerAidGroupForService, written: the record and the entry hold the group under its category. */
  function AidGroupRegistered(reg: UserServices, uid: Uid, c: ComponentName, group: AidGroup): (r: UserServices)
    requires c in reg.services
    ensures RegistryWellFormed(reg) ==> RegistryWellFormed(r)
  {
    var ds := SettingsOrNew(reg, uid, c);
    reg.(services := reg.services[c := reg.services[c].SetDynamicAidGroup(group)],
         dynamicSettings := reg.dynamicSettings[c := ds.(aidGroups := ds.aidGroups[group.category := group])])
  }

  /**
   * registerAidGroupForService, not written: the entry (kept, even when it was
   * new) has no group of the category; the record keeps the new group.
   */
  function AidGroupRegistrationUndone(reg: UserServices, uid: Uid, c: ComponentName, group: AidGroup)
    : (r: UserServices)
    requires c in reg.services
    ensures RegistryWellFormed(reg) ==> RegistryWellFormed(r)
  {
    var ds := SettingsOrNew(reg, uid, c);
    reg.(services := reg.services[c := reg.services[c].SetDynamicAidGroup(group)],
         dynamicSettings := reg.dynamicSettings[c := ds.(aidGroups := ds.aidGroups - {group.category})])
  }

  /** removeAidGroupForService when nothing is written: only the record loses the group. */
  function AidGroupDropped(reg: UserServices, c: ComponentName, category: string): (r: UserServices)
    requires c in reg.services
    ensures RegistryWellFormed(reg) ==> RegistryWellFormed(r)
  {
    var s := reg.services[c];
    reg.(services := reg.services[c := s.(dynamicAidGroups := s.dynamicAidGroups - {category})])
  }

  /** removeAidGroupForService, written: the record and the entry lose the group. */
  function AidGroupRemoved(reg: UserServices, c: ComponentName, category: string): (r: UserServices)
    requires c in reg.services && c in reg.dynamicSettings
    ensures RegistryWellFormed(reg) ==> RegistryWellFormed(r)
  {
    var s := reg.services[c];
    var ds := reg.dynamicSettings[c];
    reg.(services := reg.services[c := s.(dynamicAidGroups := s.dynamicAidGroups - {category})],
         dynamicSettings := reg.dynamicSettings[c := ds.(aidGroups := ds.aidGroups - {category})])
  }

  /** updateOtherServiceStatus: the record's flag and the status are the user's choice. */
  function OtherServiceChecked(reg: UserServices, c: ComponentName, checked: bool): (r: UserServices)
    requires c in reg.services && c in reg.others
    ensures RegistryWellFormed(reg) ==> RegistryWellFormed(r)
  {
    reg.(services := reg.services[c := reg.services[c].(categoryOtherServiceEnabled := checked)],
         others := reg.others[c := reg.others[c].(checked := checked)])
  }

  // ===================== at the next rescan =====================

  /** The record invalidateCache files for a rediscovered record, before the "other" flag. */
  function Rescanned(reg: UserServices, s: ServiceInfo): ServiceInfo {
    if s.component in reg.dynamicSettings && reg.dynamicSettings[s.component].uid == s.uid
    then Overlaid(s, reg.dynamicSettings[s.component]) else s
  }

  /** The rescanned record of a component: its last discovered record with its own overlay entry applied. */
  lemma RescannedRecord(reg: UserServices, discovered: seq<ServiceInfo>, i: nat)
    requires i < |discovered| && IsLastOccurrence(discovered, i)
    ensures var c := discovered[i].component;
      var r := Reconciled(reg, discovered);
      && c in r.services
      && r.services[c] == (if c in r.others
                           then Rescanned(reg, discovered[i]).(categoryOtherServiceEnabled := r.others[c].checked)
                           else Rescanned(reg, discovered[i]))
  {
    var c := discovered[i].component;
    var services := DiscoveredMap(discovered);
    assert services[c] == discovered[i];
    var dyn := SurvivingSettings(services, reg.dynamicSettings);
    assert c in dyn <==> c in reg.dynamicSettings && reg.dynamicSettings[c].uid == discovered[i].uid;
    assert ApplyOverlay(services, dyn)[c] == Rescanned(reg, discovered[i]);
  }

  /** Whether `s` is the last discovered record, under the caller's uid, of the component. */
  predicate Rediscovered(discovered: seq<ServiceInfo>, i: nat, c: ComponentName, uid: Uid) {
    i < |discovered| && IsLastOccurrence(discovered, i) && discovered[i].component == c && discovered[i].uid == uid
  }

  /** A registered AID group is applied again to the rediscovered record. */
  lemma AidGroupSurvivesRescan(reg: UserServices, uid: Uid, c: ComponentName, group: AidGroup,
                               discovered: seq<ServiceInfo>, i: nat)
    requires c in reg.services && (c in reg.dynamicSettings ==> reg.dynamicSettings[c].uid == uid)
    requires Rediscovered(discovered, i, c, uid)
    ensures var r := Reconciled(AidGroupRegistered(reg, uid, c, group), discovered).services[c];
      group.category in r.dynamicAidGroups && r.dynamicAidGroups[group.category] == group
      && r.HasCategory(group.category)
  {
    RescannedRecord(AidGroupRegistered(reg, uid, c, group), discovered, i);
  }

  /**
   * A group whose registration was undone stays in the record only until the
   * rescan: the rediscovered record has it just when the discovered one did.
   */
  lemma UndoneRegistrationLostOnRescan(reg: UserServices, uid: Uid, c: ComponentName, group: AidGroup,
                                       discovered: seq<ServiceInfo>, i: nat)
    requires c in reg.services && (c in reg.dynamicSettings ==> reg.dynamicSettings[c].uid == uid)
    requires Rediscovered(discovered, i, c, uid)
    ensures var r := Reconciled(AidGroupRegistrationUndone(reg, uid, c, group), discovered).services[c];
      group.category in r.dynamicAidGroups <==> group.category in discovered[i].dynamicAidGroups
  {
    RescannedRecord(AidGroupRegistrationUndone(reg, uid, c, group), discovered, i);
  }

  /** A removed group does not come back at the rescan, unless the discovered record has it. */
  lemma RemovedGroupStaysRemoved(reg: UserServices, c: ComponentName, category: string,
                                 discovered: seq<ServiceInfo>, i: nat)
    requires c in reg.services && c in reg.dynamicSettings
    requires i < |discovered| && IsLastOccurrence(discovered, i) && discovered[i].component == c
    requires category !in discovered[i].dynamicAidGroups
    ensures category !in Reconciled(AidGroupRemoved(reg, c, category), discovered).services[c].dynamicAidGroups
  {
    RescannedRecord(AidGroupRemoved(reg, c, category), discovered, i);
  }

  /** The observe mode set for a service is applied again to the rediscovered record. */
  lemma ObserveModeSurvivesRescan(reg: UserServices, uid: Uid, c: ComponentName, enable: bool,
                                  discovered: seq<ServiceInfo>, i: nat)
    requires c in reg.services && (c in reg.dynamicSettings ==> reg.dynamicSettings[c].uid == uid)
    requires Rediscovered(discovered, i, c, uid)
    ensures Reconciled(ObserveModeSet(reg, uid, c, enable), discovered).services[c].shouldDefaultToObserveMode == enable
  {
    var after := ObserveModeSet(reg, uid, c, enable);
    RescannedRecord(after, discovered, i);
    ObserveModeTextRead(enable);
    assert Rescanned(after, discovered[i]).shouldDefaultToObserveMode == enable;
  }

  /** The text Boolean.toString writes reads back, through convertValueToBoolean, as the same mode. */
  lemma ObserveModeTextRead(enable: bool)
    ensures ConvertValueToBoolean(Some(BoolToString(enable)), false) == enable
  {
    if !enable {
      assert BoolToString(enable) == "false";
      assert "false" != "1" && "false" != "true" && "false" != "TRUE";
    }
  }

  /**
   * A secure element set for a service with an overlay entry is applied again to
   * the rediscovered record; set for a service without one, it is lost.
   */
  lemma SecureElementAtRescan(reg: UserServices, c: ComponentName, se: string, discovered: seq<ServiceInfo>, i: nat)
    requires c in reg.services
    requires i < |discovered| && IsLastOccurrence(discovered, i) && discovered[i].component == c
    requires c in reg.dynamicSettings ==> reg.dynamicSettings[c].uid == discovered[i].uid
    ensures var r := Reconciled(SecureElementSet(reg, c, se), discovered).services[c];
      && (c in reg.dynamicSettings ==> r.offHostSE == Some(se))
      && (c !in reg.dynamicSettings ==> r.offHostSE == discovered[i].offHostSE)
  {
    RescannedRecord(SecureElementSet(reg, c, se), discovered, i);
  }

  /** After a reset, the rediscovered record keeps the secure element it was discovered with. */
  lemma ResetSecureElementAtRescan(reg: UserServices, c: ComponentName, discovered: seq<ServiceInfo>, i: nat)
    requires c in reg.services
    requires i < |discovered| && IsLastOccurrence(discovered, i) && discovered[i].component == c
    ensures Reconciled(SecureElementResetChecked(reg, c), discovered).services[c].offHostSE == discovered[i].offHostSE
  {
    RescannedRecord(SecureElementResetChecked(reg, c), discovered, i);
  }

  /**
   * Setting a secure element for an off-host service without an overlay entry
   * leaves the very state in which resetOffHostSecureElement, as written, throws.
   */
  lemma SetThenResetThrows(reg: UserServices, uid: Uid, c: ComponentName, se: string)
    requires Owns(reg, uid, c) && !reg.services[c].onHost && c !in reg.dynamicSettings
    ensures ResetThrows(SecureElementSet(reg, c, se), uid, c)
  {
  }

  /** The input that shows it: a registry holding one off-host service and no overlay entry. */
  lemma SetThenResetThrowsExample(c: ComponentName, s: ServiceInfo)
    requires s.component == c && s.uid == 10 && !s.onHost
    ensures ResetThrows(SecureElementSet(UserServices(map[c := s], map[], map[]), c, "eSE1"), 10, c)
  {
  }

  /**
   * With the null check, a reset after a set is a reset alone: the secure
   * element set at run time is gone from the record and from the entry.
   */
  lemma CheckedResetUndoesSet(reg: UserServices, c: ComponentName, se: string)
    requires c in reg.services
    ensures SecureElementResetChecked(SecureElementSet(reg, c, se), c) == SecureElementResetChecked(reg, c)
  {
    var once := SecureElementResetChecked(SecureElementSet(reg, c, se), c);
    var alone := SecureElementResetChecked(reg, c);
    assert once.services[c] == alone.services[c];
    assert once.services == alone.services;
    assert once.dynamicSettings == alone.dynamicSettings;
  }

  /** A polling-loop filter lives only in the record: the rescan gives back the discovered record's filters. */
  lemma PollingLoopFilterLostOnRescan(reg: UserServices, c: ComponentName, filter: string, autoTransact: bool,
                                      discovered: seq<ServiceInfo>, i: nat)
    requires c in reg.services
    requires i < |discovered| && IsLastOccurrence(discovered, i) && discovered[i].component == c
    ensures Reconciled(PollingLoopFilterAdded(reg, c, filter, autoTransact), discovered).services[c].pollingLoopFilters
            == discovered[i].pollingLoopFilters
  {
    RescannedRecord(PollingLoopFilterAdded(reg, c, filter, autoTransact), discovered, i);
  }

  /** The user's choice for an "other" service is kept by the rescan while the service stays in the category. */
  lemma OtherChoiceSurvivesRescan(reg: UserServices, c: ComponentName, checked: bool,
                                  discovered: seq<ServiceInfo>, i: nat)
    requires c in reg.services && c in reg.others
    requires i < |discovered| && IsLastOccurrence(discovered, i) && discovered[i].component == c
    requires Rescanned(OtherServiceChecked(reg, c, checked), discovered[i]).HasCategory(CATEGORY_OTHER)
    ensures var r := Reconciled(OtherServiceChecked(reg, c, checked), discovered);
      c in r.others && r.others[c].checked == checked && r.services[c].categoryOtherServiceEnabled == checked
  {
    var after := OtherServiceChecked(reg, c, checked);
    RescannedRecord(after, discovered, i);
    var overlaid := OverlaidServices(after, discovered);
    assert overlaid[c] == Rescanned(after, discovered[i]);
    assert c in ReconciledOthers(after.others, overlaid);
  }
}
