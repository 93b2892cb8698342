/**
 * The loops of invalidateCache and invalidateOther, each proved to compute the
 * corresponding function of the Reconcile module.
 */
module Invalidation {
  import opened Records
  import opened Reconcile

  // ===================== invalidateCache =====================

  /** "Find removed services": the records whose component is not discovered are removed through the iterator. */
  method RemoveStale(services: map<ComponentName, ServiceInfo>, discovered: seq<ServiceInfo>)
    returns (kept: map<ComponentName, ServiceInfo>)
    ensures kept == map c | c in services && ContainsService(discovered, c) :: services[c]
  {
    kept := services;
    var pending := services.Keys;
    while pending != {}
      invariant pending <= services.Keys
      invariant kept == map c | c in services && (c in pending || ContainsService(discovered, c)) :: services[c]
      decreases pending
    {
      var c :| c in pending;
      if !ContainsService(discovered, c) {
        kept := kept - {c};
      }
      pending := pending - {c};
    }
  }

  /** One more put extends the map of a prefix of the list. */
  lemma DiscoveredMapPrefix(list: seq<ServiceInfo>, i: nat)
    requires i < |list|
    ensures DiscoveredMap(list[..i + 1]) == DiscoveredMap(list[..i])[list[i].component := list[i]]
  {
    assert list[..i + 1][..i] == list[..i];
  }

  /** A put after a merge is a put into the right operand. */
  lemma PutAfterMerge<K, V>(a: map<K, V>, b: map<K, V>, k: K, v: V)
    ensures (a + b)[k := v] == a + b[k := v]
  {
  }

  /** Entries under keys the right operand also has are overridden by it. */
  lemma Overridden<K, V>(a: map<K, V>, b: map<K, V>)
    requires a.Keys <= b.Keys
    ensures a + b == b
  {
  }

  /** `for (ApduServiceInfo service : validServices) userServices.services.put(service.getComponent(), service)` */
  method PutDiscovered(kept: map<ComponentName, ServiceInfo>, discovered: seq<ServiceInfo>)
    returns (m: map<ComponentName, ServiceInfo>)
    requires forall c :: c in kept ==> ContainsService(discovered, c)
    ensures m == DiscoveredMap(discovered)
  {
    m := kept;
    for i := 0 to |discovered|
      invariant m == kept + DiscoveredMap(discovered[..i])
    {
      DiscoveredMapPrefix(discovered, i);
      PutAfterMerge(kept, DiscoveredMap(discovered[..i]), discovered[i].component, discovered[i]);
      m := m[discovered[i].component := discovered[i]];
    }
    assert discovered[..|discovered|] == discovered;
    Overridden(kept, DiscoveredMap(discovered));
  }

  /** The service map invalidateCache rebuilds: stale records removed, then every discovered record put. */
  method RebuildServices(services: map<ComponentName, ServiceInfo>, discovered: seq<ServiceInfo>)
    returns (m: map<ComponentName, ServiceInfo>)
    ensures m == DiscoveredMap(discovered)
  {
    var kept := RemoveStale(services, discovered);
    m := PutDiscovered(kept, discovered);
  }

  /** `for (AidGroup group : dynamicSettings.aidGroups.values()) serviceInfo.setDynamicAidGroup(group)` */
  method ApplyGroups(s: ServiceInfo, groups: map<string, AidGroup>) returns (r: ServiceInfo)
    requires GroupsKeyed(groups)
    ensures r == s.(dynamicAidGroups := s.dynamicAidGroups + groups)
  {
    r := s;
    var pending := groups.Keys;
    while pending != {}
      invariant pending <= groups.Keys
      invariant r == s.(dynamicAidGroups := r.dynamicAidGroups)
      invariant forall k :: k in r.dynamicAidGroups <==> k in s.dynamicAidGroups || (k in groups && k !in pending)
      invariant forall k :: k in r.dynamicAidGroups ==>
        r.dynamicAidGroups[k] == if k in groups && k !in pending then groups[k] else s.dynamicAidGroups[k]
      decreases pending
    {
      var k :| k in pending;
      r := r.SetDynamicAidGroup(groups[k]);
      pending := pending - {k};
    }
    assert r.dynamicAidGroups == s.dynamicAidGroups + groups;
  }

  /** The overlay of one surviving entry: its groups, then its secure element and observe mode when set. */
  method OverlayRecord(s: ServiceInfo, ds: DynamicSettings) returns (r: ServiceInfo)
    requires GroupsKeyed(ds.aidGroups)
    ensures r == Overlaid(s, ds)
  {
    r := ApplyGroups(s, ds.aidGroups);
    if ds.offHostSE.Some? {
      r := r.(offHostSE := ds.offHostSE);
    }
    if ds.shouldDefaultToObserveModeStr.Some? {
      r := r.(shouldDefaultToObserveMode := ConvertValueToBoolean(ds.shouldDefaultToObserveModeStr, false));
    }
  }

  /** The surviving overlay entries among the components of `done`. */
  ghost function SurvivorsAmong(services: map<ComponentName, ServiceInfo>, dyn: map<ComponentName, DynamicSettings>,
                                done: set<ComponentName>): map<ComponentName, DynamicSettings>
  {
    map c | c in dyn && c in done && Survives(services, c, dyn[c]) :: dyn[c]
  }

  /** Visiting one more overlay entry applies it to its record when it survives. */
  lemma SurvivorStep(services: map<ComponentName, ServiceInfo>, dyn: map<ComponentName, DynamicSettings>,
                     done: set<ComponentName>, c: ComponentName)
    requires c in dyn && c !in done
    ensures c in services ==> ApplyOverlay(services, SurvivorsAmong(services, dyn, done))[c] == services[c]
    ensures Survives(services, c, dyn[c]) ==>
      ApplyOverlay(services, SurvivorsAmong(services, dyn, done + {c}))
      == ApplyOverlay(services, SurvivorsAmong(services, dyn, done))[c := Overlaid(services[c], dyn[c])]
    ensures !Survives(services, c, dyn[c]) ==>
      SurvivorsAmong(services, dyn, done + {c}) == SurvivorsAmong(services, dyn, done)
  {
    var before := SurvivorsAmong(services, dyn, done);
    var after := SurvivorsAmong(services, dyn, done + {c});
    if Survives(services, c, dyn[c]) {
      assert after == before[c := dyn[c]];
    } else {
      assert after == before;
    }
  }

  /**
   * "Apply dynamic settings mappings": an entry whose component has no record, or
   * a record of another uid, goes to toBeRemoved; every other entry is applied to
   * its record.
   */
  method ApplyDynamicSettings(services: map<ComponentName, ServiceInfo>, dyn: map<ComponentName, DynamicSettings>)
    returns (overlaid: map<ComponentName, ServiceInfo>, toBeRemoved: seq<ComponentName>)
    requires forall c :: c in dyn ==> GroupsKeyed(dyn[c].aidGroups)
    ensures overlaid == ApplyOverlay(services, SurvivingSettings(services, dyn))
    ensures forall c :: c in toBeRemoved <==> c in dyn && !Survives(services, c, dyn[c])
  {
    overlaid := services;
    toBeRemoved := [];
    var pending := dyn.Keys;
    ghost var done: set<ComponentName> := {};
    assert ApplyOverlay(services, SurvivorsAmong(services, dyn, done)) == services;
    while pending != {}
      invariant pending <= dyn.Keys && done == dyn.Keys - pending
      invariant overlaid == ApplyOverlay(services, SurvivorsAmong(services, dyn, done))
      invariant forall c :: c in toBeRemoved <==> c in done && !Survives(services, c, dyn[c])
      decreases pending
    {
      var component :| component in pending;
      SurvivorStep(services, dyn, done, component);
      var dynamicSettings := dyn[component];
      if component !in overlaid || overlaid[component].uid != dynamicSettings.uid {
        toBeRemoved := toBeRemoved + [component];
      } else {
        var serviceInfo := OverlayRecord(overlaid[component], dynamicSettings);
        overlaid := overlaid[component := serviceInfo];
      }
      pending := pending - {component};
      done := done + {component};
    }
    assert SurvivorsAmong(services, dyn, done) == SurvivingSettings(services, dyn);
  }

  /** `for (ComponentName component : toBeRemoved) userServices.dynamicSettings.remove(component)` */
  method RemoveEntries(dyn: map<ComponentName, DynamicSettings>, toBeRemoved: seq<ComponentName>)
    returns (result: map<ComponentName, DynamicSettings>)
    ensures result == map c | c in dyn && c !in toBeRemoved :: dyn[c]
  {
    result := dyn;
    for i := 0 to |toBeRemoved|
      invariant result == map c | c in dyn && c !in toBeRemoved[..i] :: dyn[c]
    {
      assert forall c :: c in toBeRemoved[..i + 1] <==> c in toBeRemoved[..i] || c == toBeRemoved[i];
      result := result - {toBeRemoved[i]};
    }
    assert toBeRemoved[..|toBeRemoved|] == toBeRemoved;
  }

  /** Removing the entries of toBeRemoved leaves exactly the surviving entries. */
  lemma RemovedLeaveSurvivors(services: map<ComponentName, ServiceInfo>, dyn: map<ComponentName, DynamicSettings>,
                              toBeRemoved: seq<ComponentName>)
    requires forall c :: c in toBeRemoved <==> c in dyn && !Survives(services, c, dyn[c])
    ensures (map c | c in dyn && c !in toBeRemoved :: dyn[c]) == SurvivingSettings(services, dyn)
  {
  }

  // ===================== invalidateOther =====================

  /** The components of the records of a list. */
  function Listed(list: seq<ServiceInfo>): (s: set<ComponentName>)
    ensures forall c :: c in s <==> ContainsService(list, c)
  {
    set i | 0 <= i < |list| :: list[i].component
  }

  lemma ListedHas(list: seq<ServiceInfo>, i: nat)
    requires i < |list|
    ensures list[i].component in Listed(list)
  {
  }

  /**
   * The statuses invalidateOther leaves when the components of the list passed to
   * it are `listed`: a status survives when its component is listed; a listed
   * "other" record without a status gets a new checked one with its uid.
   */
  function InvalidatedOthers(others: map<ComponentName, OtherServiceStatus>, services: map<ComponentName, ServiceInfo>,
                             listed: set<ComponentName>): map<ComponentName, OtherServiceStatus>
  {
    map c | c in services && c in listed && (c in others || services[c].HasCategory(CATEGORY_OTHER)) ::
      if c in others then others[c] else OtherServiceStatus(services[c].uid, true)
  }

  /** The records after invalidateOther: a listed "other" record carries the checked flag of its status. */
  function FlaggedOthers(services: map<ComponentName, ServiceInfo>, others: map<ComponentName, OtherServiceStatus>,
                         listed: set<ComponentName>): map<ComponentName, ServiceInfo>
  {
    map c | c in services ::
      if c in listed && services[c].HasCategory(CATEGORY_OTHER) && c in others
      then services[c].(categoryOtherServiceEnabled := others[c].checked) else services[c]
  }
  /** invalidateOther's needToWrite: a status of an unlisted component goes, or a listed "other" record gets one. */
  predicate StatusesChanged(others: map<ComponentName, OtherServiceStatus>, services: map<ComponentName, ServiceInfo>,
                            listed: set<ComponentName>)
  {
    || (exists c :: c in others && c !in listed)
    || (exists c :: c in listed && c in services && services[c].HasCategory(CATEGORY_OTHER) && c !in others)
  }


  /** invalidateOther's first loop: the statuses of components not in the list are removed through the iterator. */
  method DropUnlisted(others: map<ComponentName, OtherServiceStatus>, validOtherServices: seq<ServiceInfo>)
    returns (kept: map<ComponentName, OtherServiceStatus>, needToWrite: bool)
    ensures kept == map c | c in others && c in Listed(validOtherServices) :: others[c]
    ensures needToWrite <==> exists c :: c in others && c !in Listed(validOtherServices)
  {
    ghost var listed := Listed(validOtherServices);
    needToWrite := false;
    kept := others;
    var pending := others.Keys;
    while pending != {}
      invariant pending <= others.Keys
      invariant kept == map c | c in others && (c in pending || c in listed) :: others[c]
      invariant needToWrite <==> exists c :: c in others && c !in pending && c !in listed
      decreases pending
    {
      var c :| c in pending;
      if !ContainsService(validOtherServices, c) {
        needToWrite := true;
        kept := kept - {c};
      }
      pending := pending - {c};
    }
  }

  /** The "other" records among the first `n` of the list. */
  ghost function OtherPrefix(list: seq<ServiceInfo>, n: nat): set<ComponentName>
    requires n <= |list|
  {
    if n == 0 then {}
    else OtherPrefix(list, n - 1) + (if list[n - 1].HasCategory(CATEGORY_OTHER) then {list[n - 1].component} else {})
  }

  /**
   * The statuses once the "other" records of `adopted` were visited: the kept
   * statuses of listed components, and one for each adopted component.
   */
  ghost function AdoptedOthers(services: map<ComponentName, ServiceInfo>, others: map<ComponentName, OtherServiceStatus>,
                               listed: set<ComponentName>, adopted: set<ComponentName>): map<ComponentName, OtherServiceStatus>
  {
    map c | c in services && ((c in others && c in listed) || c in adopted) ::
      if c in others then others[c] else OtherServiceStatus(services[c].uid, true)
  }

  /** The records once the "other" records of `adopted` were visited: each carries its status's flag. */
  ghost function AdoptedServices(services: map<ComponentName, ServiceInfo>, statuses: map<ComponentName, OtherServiceStatus>,
                                 adopted: set<ComponentName>): map<ComponentName, ServiceInfo>
  {
    map c | c in services :: if c in adopted && c in statuses
      then services[c].(categoryOtherServiceEnabled := statuses[c].checked) else services[c]
  }

  /** The status a listed "other" record ends with: its own, or a new checked one with its uid. */
  function StatusFor(services: map<ComponentName, ServiceInfo>, others: map<ComponentName, OtherServiceStatus>,
                     c: ComponentName): OtherServiceStatus
    requires c in services
  {
    if c in others then others[c] else OtherServiceStatus(services[c].uid, true)
  }

  /** What the loop body reads from the state before it visits `c`. */
  lemma AdoptLookup(services: map<ComponentName, ServiceInfo>, others: map<ComponentName, OtherServiceStatus>,
                    listed: set<ComponentName>, adopted: set<ComponentName>, c: ComponentName, checked: bool)
    requires c in services && c in listed
    ensures var before := AdoptedOthers(services, others, listed, adopted);
      && (c in before <==> c in others || c in adopted)
      && (c in before ==> before[c] == StatusFor(services, others, c))
      && c in AdoptedServices(services, before, adopted)
      && AdoptedServices(services, before, adopted)[c].(categoryOtherServiceEnabled := checked)
         == services[c].(categoryOtherServiceEnabled := checked)
  {
  }

  /** Visiting `c` puts its status and sets its record's flag. */
  lemma AdoptStep(services: map<ComponentName, ServiceInfo>, others: map<ComponentName, OtherServiceStatus>,
                  listed: set<ComponentName>, adopted: set<ComponentName>, c: ComponentName)
    requires c in services && c in listed
    ensures AdoptedOthers(services, others, listed, adopted + {c})
         == AdoptedOthers(services, others, listed, adopted)[c := StatusFor(services, others, c)]
  {
  }

  lemma AdoptFlagStep(services: map<ComponentName, ServiceInfo>, before: map<ComponentName, OtherServiceStatus>,
                      adopted: set<ComponentName>, c: ComponentName, status: OtherServiceStatus)
    requires c in services
    ensures AdoptedServices(services, before[c := status], adopted + {c})
         == AdoptedServices(services, before, adopted)[c := services[c].(categoryOtherServiceEnabled := status.checked)]
  {
    var lhs := AdoptedServices(services, before[c := status], adopted + {c});
    var rhs := AdoptedServices(services, before, adopted)[c := services[c].(categoryOtherServiceEnabled := status.checked)];
    forall d | d in services
      ensures lhs[d] == rhs[d]
    {
      if d != c {
        assert (d in adopted + {c} && d in before[c := status]) <==> (d in adopted && d in before);
      }
    }
  }

  /**
   * invalidateOther's second loop: every listed "other" record gets its status (a
   * new checked one with the record's uid when it had none), and its flag is set
   * from the status.
   */
  method AdoptListed(services: map<ComponentName, ServiceInfo>, others: map<ComponentName, OtherServiceStatus>,
                     kept: map<ComponentName, OtherServiceStatus>, validOtherServices: seq<ServiceInfo>)
    returns (newServices: map<ComponentName, ServiceInfo>, newOthers: map<ComponentName, OtherServiceStatus>,
             added: bool)
    requires forall i :: 0 <= i < |validOtherServices| ==>
      validOtherServices[i].component in services && services[validOtherServices[i].component] == validOtherServices[i]
    requires kept == map c | c in others && c in Listed(validOtherServices) :: others[c]
    ensures newOthers == AdoptedOthers(services, others, Listed(validOtherServices), OtherPrefix(validOtherServices, |validOtherServices|))
    ensures newServices == AdoptedServices(services, newOthers, OtherPrefix(validOtherServices, |validOtherServices|))
    ensures added <==> !(OtherPrefix(validOtherServices, |validOtherServices|) <= others.Keys)
  {
    var valid := validOtherServices;
    ghost var listed := Listed(valid);
    newServices := services;
    newOthers := kept;
    added := false;
    AdoptNone(services, others, validOtherServices);
    assert OtherPrefix(valid, 0) == {};
    for i := 0 to |valid|
      invariant newOthers == AdoptedOthers(services, others, listed, OtherPrefix(valid, i))
      invariant newServices == AdoptedServices(services, newOthers, OtherPrefix(valid, i))
      invariant added <==> !(OtherPrefix(valid, i) <= others.Keys)
    {
      OtherPrefixStep(valid, i);
      var service := valid[i];
      if service.HasCategory(CATEGORY_OTHER) {
        ListedHas(valid, i);
        assert OtherPrefix(valid, i + 1) == OtherPrefix(valid, i) + {service.component};
        newServices, newOthers, added :=
          AdoptOne(services, others, listed, OtherPrefix(valid, i), newServices, newOthers, added, service);
      } else {
        assert OtherPrefix(valid, i + 1) == OtherPrefix(valid, i);
      }
    }
  }

  /** Before the second loop: the statuses kept by the first, the records as they were. */
  lemma AdoptNone(services: map<ComponentName, ServiceInfo>, others: map<ComponentName, OtherServiceStatus>,
                  list: seq<ServiceInfo>)
    requires forall i :: 0 <= i < |list| ==> list[i].component in services
    ensures (map c | c in others && c in Listed(list) :: others[c]) == AdoptedOthers(services, others, Listed(list), {})
    ensures services == AdoptedServices(services, AdoptedOthers(services, others, Listed(list), {}), {})
  {
  }

  /** One turn of the second loop, for a listed "other" record `service`. */
  method AdoptOne(services: map<ComponentName, ServiceInfo>, others: map<ComponentName, OtherServiceStatus>,
                  ghost listed: set<ComponentName>, ghost adopted: set<ComponentName>,
                  servicesIn: map<ComponentName, ServiceInfo>, othersIn: map<ComponentName, OtherServiceStatus>,
                  addedIn: bool, service: ServiceInfo)
    returns (servicesOut: map<ComponentName, ServiceInfo>, othersOut: map<ComponentName, OtherServiceStatus>,
             addedOut: bool)
    requires service.component in services && services[service.component] == service && service.component in listed
    requires othersIn == AdoptedOthers(services, others, listed, adopted)
    requires servicesIn == AdoptedServices(services, othersIn, adopted)
    requires addedIn <==> !(adopted <= others.Keys)
    ensures othersOut == AdoptedOthers(services, others, listed, adopted + {service.component})
    ensures servicesOut == AdoptedServices(services, othersOut, adopted + {service.component})
    ensures addedOut <==> !(adopted + {service.component} <= others.Keys)
  {
    var component := service.component;
    addedOut := addedIn;
    var status;
    if component in othersIn {
      status := othersIn[component];
    } else {
      status := OtherServiceStatus(service.uid, true);
      addedOut := true;
    }
    AdoptLookup(services, others, listed, adopted, component, status.checked);
    assert status == StatusFor(services, others, component);
    AdoptStep(services, others, listed, adopted, component);
    AdoptFlagStep(services, othersIn, adopted, component, status);
    servicesOut := servicesIn[component := servicesIn[component].(categoryOtherServiceEnabled := status.checked)];
    othersOut := othersIn[component := status];
  }

  lemma OtherPrefixStep(list: seq<ServiceInfo>, n: nat)
    requires n < |list|
    ensures OtherPrefix(list, n + 1) ==
      OtherPrefix(list, n) + (if list[n].HasCategory(CATEGORY_OTHER) then {list[n].component} else {})
  {
  }

  /** The adopted components of a prefix are its "other" records. */
  lemma {:induction false} OtherPrefixMembers(list: seq<ServiceInfo>, n: nat)
    requires n <= |list|
    ensures forall c :: c in OtherPrefix(list, n) <==>
      exists i :: 0 <= i < n && list[i].component == c && list[i].HasCategory(CATEGORY_OTHER)
  {
    if n > 0 {
      OtherPrefixMembers(list, n - 1);
    }
  }

  /** At the end of the list, the adopted components are the listed "other" records. */
  lemma OtherPrefixAll(services: map<ComponentName, ServiceInfo>, list: seq<ServiceInfo>)
    requires forall i :: 0 <= i < |list| ==> list[i].component in services && services[list[i].component] == list[i]
    ensures forall c :: c in OtherPrefix(list, |list|) <==>
      c in Listed(list) && services[c].HasCategory(CATEGORY_OTHER)
  {
    OtherPrefixMembers(list, |list|);
  }

  /**
   * invalidateOther's loops, on the user's records, statuses and the list of
   * records passed to it (which are the map's own records): statuses of unlisted
   * components are removed, then every listed "other" record gets its status (a
   * new checked one when it had none) and the record's flag is set from it.
   * `needToWrite` says a status was removed or added.
   */
  method ReconcileOthers(services: map<ComponentName, ServiceInfo>, others: map<ComponentName, OtherServiceStatus>,
                         validOtherServices: seq<ServiceInfo>)
    returns (newServices: map<ComponentName, ServiceInfo>, newOthers: map<ComponentName, OtherServiceStatus>,
             needToWrite: bool)
    requires forall i :: 0 <= i < |validOtherServices| ==>
      validOtherServices[i].component in services && services[validOtherServices[i].component] == validOtherServices[i]
    ensures newOthers == InvalidatedOthers(others, services, Listed(validOtherServices))
    ensures newServices == FlaggedOthers(services, newOthers, Listed(validOtherServices))
    ensures needToWrite <==> StatusesChanged(others, services, Listed(validOtherServices))
  {
    var kept, removed := DropUnlisted(others, validOtherServices);
    var added;
    newServices, newOthers, added := AdoptListed(services, others, kept, validOtherServices);
    needToWrite := removed || added;
    AdoptedAll(services, others, validOtherServices);
  }

  /** At the end of the list, the second loop has produced the statuses and records invalidateOther promises. */
  lemma AdoptedAll(services: map<ComponentName, ServiceInfo>, others: map<ComponentName, OtherServiceStatus>,
                   list: seq<ServiceInfo>)
    requires forall i :: 0 <= i < |list| ==> list[i].component in services && services[list[i].component] == list[i]
    ensures var statuses := AdoptedOthers(services, others, Listed(list), OtherPrefix(list, |list|));
      && statuses == InvalidatedOthers(others, services, Listed(list))
      && AdoptedServices(services, statuses, OtherPrefix(list, |list|)) == FlaggedOthers(services, statuses, Listed(list))
      && (!(OtherPrefix(list, |list|) <= others.Keys) <==>
            exists c :: c in Listed(list) && services[c].HasCategory(CATEGORY_OTHER) && c !in others)
  {
    OtherPrefixAll(services, list);
  }

  /**
   * When the list passed to invalidateOther holds exactly the user's "other"
   * records (what getServicesForCategory returns), its statuses and flags are the
   * ones of the reconciled registry.
   */
  lemma InvalidateOtherOfCategory(services: map<ComponentName, ServiceInfo>, others: map<ComponentName, OtherServiceStatus>)
    ensures InvalidatedOthers(others, services, OtherComponents(services)) == ReconciledOthers(others, services)
    ensures FlaggedOthers(services, ReconciledOthers(others, services), OtherComponents(services))
            == WithOtherFlags(services, ReconciledOthers(others, services))
  {
    var listed := OtherComponents(services);
    var o := ReconciledOthers(others, services);
    assert InvalidatedOthers(others, services, listed).Keys == o.Keys;
    assert FlaggedOthers(services, o, listed).Keys == WithOtherFlags(services, o).Keys;
  }
}
