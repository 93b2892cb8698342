/**
 * RegisteredServicesCache: the per-user registry of card-emulation services, the
 * overlay apps register for their services at run time (dynamic_aids.xml) and
 * the user's choices for the "other" category (other_status.xml).
 *
 * The object is a class over the user table and the two files. A file is
 * `None` while it does not exist; a write either succeeds (the file then holds
 * the document written) or fails and leaves the previous file in place, as
 * AtomicFile does. Whether a write succeeds is a parameter of the operation.
 * Callback.onServicesUpdated is the `ServicesUpdated` an operation returns.
 */
module ServicesCache {
  import opened Wrappers
  import opened JavaText
  import opened Records
  import opened Documents
  import opened Persistence
  import opened Reconcile
  import opened Invalidation
  import opened Rollback
  import opened Registrations

  /** One onServicesUpdated(userId, services, validateInstalled) call. */
  datatype ServicesUpdated = ServicesUpdated(userId: UserId, services: seq<ServiceInfo>, validateInstalled: bool)

  /** `list` holds every record of the map exactly once (the map's values in some order). */
  ghost predicate ListsServices(list: seq<ServiceInfo>, services: map<ComponentName, ServiceInfo>) {
    && (forall i :: 0 <= i < |list| ==> list[i].component in services && services[list[i].component] == list[i])
    && (forall i, j :: 0 <= i < j < |list| ==> list[i].component != list[j].component)
    && (forall c :: c in services ==> exists i :: 0 <= i < |list| && list[i].component == c)
  }

  /** The callback of a mutation: the user's records after it, and the flag. */
  ghost predicate Announces(update: Option<ServicesUpdated>, userId: UserId,
                            services: map<ComponentName, ServiceInfo>, validateInstalled: bool) {
    && update.Some?
    && update.value.userId == userId
    && ListsServices(update.value.services, services)
    && update.value.validateInstalled == validateInstalled
  }

  /** The records getServicesForCategory collects: those that have the category. */
  function OfCategory(services: map<ComponentName, ServiceInfo>, category: string): map<ComponentName, ServiceInfo> {
    Selected(services, Some(category))
  }

  /** The records of a category, or every record when there is no category. */
  function Selected(services: map<ComponentName, ServiceInfo>, category: Option<string>): map<ComponentName, ServiceInfo> {
    map c | c in services && (category.None? || services[c].HasCategory(category.value)) :: services[c]
  }

  /** `services.values()` copied into a list. */
  method ServiceValues(services: map<ComponentName, ServiceInfo>) returns (list: seq<ServiceInfo>)
    requires RecordsKeyed(services)
    ensures ListsServices(list, services)
  {
    list := SelectServices(services, None);
    assert Selected(services, None) == services;
  }

  /** The records of a category, as getServicesForCategory collects them. */
  method ServicesOfCategory(services: map<ComponentName, ServiceInfo>, category: string) returns (list: seq<ServiceInfo>)
    requires RecordsKeyed(services)
    ensures ListsServices(list, OfCategory(services, category))
  {
    list := SelectServices(services, Some(category));
  }

  /** One pass over the records, keeping those of the category (all of them without one). */
  method SelectServices(services: map<ComponentName, ServiceInfo>, category: Option<string>)
    returns (list: seq<ServiceInfo>)
    requires RecordsKeyed(services)
    ensures ListsServices(list, Selected(services, category))
  {
    ghost var chosen := Selected(services, category);
    list := [];
    var pending := services.Keys;
    while pending != {}
      invariant pending <= services.Keys
      invariant Collected(list, chosen, pending)
      decreases pending
    {
      var c :| c in pending;
      var step := [];
      if category.None? || services[c].HasCategory(category.value) {
        step := [services[c]];
      }
      CollectStep(list, chosen, pending, c, step);
      list := list + step;
      pending := pending - {c};
    }
  }

  /** The records listed so far: each is chosen and done, none twice, and every done chosen one is there. */
  ghost predicate Collected(list: seq<ServiceInfo>, chosen: map<ComponentName, ServiceInfo>, pending: set<ComponentName>) {
    && (forall i :: 0 <= i < |list| ==>
          list[i].component in chosen && list[i].component !in pending && chosen[list[i].component] == list[i])
    && (forall i, j :: 0 <= i < j < |list| ==> list[i].component != list[j].component)
    && (forall c :: c in chosen && c !in pending ==> exists i :: 0 <= i < |list| && list[i].component == c)
  }

  /** Taking one pending component: its record is listed when chosen, and skipped otherwise. */
  lemma CollectStep(list: seq<ServiceInfo>, chosen: map<ComponentName, ServiceInfo>, pending: set<ComponentName>,
                    c: ComponentName, step: seq<ServiceInfo>)
    requires Collected(list, chosen, pending) && c in pending
    requires RecordsKeyed(chosen)
    requires step == if c in chosen then [chosen[c]] else []
    ensures Collected(list + step, chosen, pending - {c})
  {
    var next := list + step;
    forall d | d in chosen && d !in pending - {c}
      ensures exists i :: 0 <= i < |next| && next[i].component == d
    {
      if d == c {
        assert next[|next| - 1].component == d;
      } else {
        var i :| 0 <= i < |list| && list[i].component == d;
        assert next[i] == list[i];
      }
    }
  }

  /** The loop of registerAidGroupForService that checks every AID with CardEmulation.isValidAid. */
  method AllAidsValid(p: Platform, aids: seq<string>) returns (valid: bool)
    ensures valid <==> forall i :: 0 <= i < |aids| ==> p.isValidAid(aids[i])
  {
    for i := 0 to |aids|
      invariant forall j :: 0 <= j < i ==> p.isValidAid(aids[j])
    {
      if !p.isValidAid(aids[i]) {
        return false;
      }
    }
    return true;
  }

  /** The "other" records getServicesForCategory returns are the map's own, and their components are OtherComponents. */
  lemma ListedOthers(list: seq<ServiceInfo>, services: map<ComponentName, ServiceInfo>)
    requires ListsServices(list, OfCategory(services, CATEGORY_OTHER))
    ensures forall i :: 0 <= i < |list| ==> list[i].component in services && services[list[i].component] == list[i]
    ensures Listed(list) == OtherComponents(services)
  {
    forall c | c in OtherComponents(services)
      ensures c in Listed(list)
    {
      assert c in OfCategory(services, CATEGORY_OTHER);
    }
  }

  /** invalidateOther's needToWrite, on the list of "other" records, is OthersNeedWrite. */
  lemma OthersWriteOfCategory(reg: UserServices, discovered: seq<ServiceInfo>)
    ensures var overlaid := OverlaidServices(reg, discovered);
      var listed := OtherComponents(overlaid);
      StatusesChanged(reg.others, overlaid, listed) <==> OthersNeedWrite(reg, discovered)
  {
  }

  /** toBeRemoved is not empty exactly when DynamicNeedsWrite says so. */
  lemma RemovalsNeedWrite(reg: UserServices, discovered: seq<ServiceInfo>, toBeRemoved: seq<ComponentName>)
    requires forall c :: c in toBeRemoved <==>
      c in reg.dynamicSettings && !Survives(DiscoveredMap(discovered), c, reg.dynamicSettings[c])
    ensures |toBeRemoved| > 0 <==> DynamicNeedsWrite(reg, discovered)
  {
    if |toBeRemoved| > 0 {
      assert toBeRemoved[0] in toBeRemoved;
    }
  }

  /** The user's registry after the first block of invalidateCache, before invalidateOther. */
  function Installed(reg: UserServices, discovered: seq<ServiceInfo>): (r: UserServices)
    ensures r.others == reg.others
    ensures forall c :: c in r.dynamicSettings <==>
      c in reg.dynamicSettings && Survives(DiscoveredMap(discovered), c, reg.dynamicSettings[c])
    ensures forall c :: c in r.dynamicSettings ==> r.dynamicSettings[c] == reg.dynamicSettings[c]
    ensures r.services == OverlaidServices(reg, discovered)
  {
    UserServices(OverlaidServices(reg, discovered),
                 SurvivingSettings(DiscoveredMap(discovered), reg.dynamicSettings), reg.others)
  }

  /** getInstalledServices(userId) lists only services of apps installed for that user. */
  ghost predicate InstalledFor(p: Platform, u: UserId, discovered: seq<ServiceInfo>) {
    forall i :: 0 <= i < |discovered| ==> p.userOf(discovered[i].uid) == u
  }

  /** The rebuilt service map holds only uids of the discovered list. */
  lemma {:induction false} DiscoveredFiled(p: Platform, u: UserId, discovered: seq<ServiceInfo>)
    requires InstalledFor(p, u, discovered)
    ensures forall c :: c in DiscoveredMap(discovered) ==> p.userOf(DiscoveredMap(discovered)[c].uid) == u
    decreases |discovered|
  {
    if discovered != [] {
      var init := discovered[..|discovered| - 1];
      assert forall i :: 0 <= i < |init| ==> init[i] == discovered[i];
      DiscoveredFiled(p, u, init);
    }
  }

  /** The first block of invalidateCache keeps every uid of the registry filed under its user. */
  lemma InstalledFiled(p: Platform, u: UserId, reg: UserServices, discovered: seq<ServiceInfo>)
    requires RegistryFiled(p, u, reg) && InstalledFor(p, u, discovered)
    ensures RegistryFiled(p, u, Installed(reg, discovered))
  {
    DiscoveredFiled(p, u, discovered);
    var services := DiscoveredMap(discovered);
    var overlaid := ApplyOverlay(services, SurvivingSettings(services, reg.dynamicSettings));
    forall c | c in overlaid
      ensures p.userOf(overlaid[c].uid) == u
    {
      assert overlaid[c].uid == services[c].uid;
    }
  }

  /** The secure-element outcomes keep every uid, so a registry filed by user stays filed. */
  lemma SecureElementFiled(p: Platform, u: UserId, reg: UserServices, c: ComponentName, se: string)
    requires RegistryFiled(p, u, reg) && c in reg.services
    ensures RegistryFiled(p, u, SecureElementSet(reg, c, se))
    ensures RegistryFiled(p, u, reg.(dynamicSettings := SecureElementSet(reg, c, se).dynamicSettings))
    ensures RegistryFiled(p, u, SecureElementCleared(reg, c))
    ensures RegistryFiled(p, u, SecureElementResetChecked(reg, c))
  {
  }

  /** invalidateOther keeps a registry well formed and gives a new status the uid of its record. */
  lemma InvalidatedKeepsRegistry(p: Platform, u: UserId, reg: UserServices, listed: set<ComponentName>)
    requires RegistryWellFormed(reg) && RegistryFiled(p, u, reg)
    ensures var others := InvalidatedOthers(reg.others, reg.services, listed);
      var after := reg.(services := FlaggedOthers(reg.services, others, listed), others := others);
      RegistryWellFormed(after) && RegistryFiled(p, u, after)
  {
  }

  /**
   * The round trip of dynamic_aids.xml for a table the cache holds: reading
   * the document written for it into an empty table does not fail and gives
   * the user exactly the entries the reader keeps.
   */
  lemma CacheDynamicRoundTrip(p: Platform, doc: Document, users: Users, u: UserId)
    requires NamesRoundTrip(p) && UsersFiled(p, users)
    requires DescribesDynamic(p, doc, users)
    ensures !ReadDynamic(p, map[], doc).failed
    ensures DynView(ReadDynamic(p, map[], doc).users, u) == KeptSettings(DynView(users, u))
  {
    FiledViews(p, users);
    DynamicRoundTrip(p, doc, users, map[]);
    assert DynView(map[], u) == map[];
    EmptyUnion(KeptSettings(DynView(users, u)));
  }

  /** The same for other_status.xml. */
  lemma CacheOthersRoundTrip(p: Platform, doc: Document, users: Users, u: UserId)
    requires NamesRoundTrip(p) && UsersFiled(p, users)
    requires DescribesOthers(p, doc, users)
    ensures !ReadOthers(p, map[], doc).failed
    ensures OthersView(ReadOthers(p, map[], doc).users, u) == KeptStatuses(OthersView(users, u))
  {
    FiledViews(p, users);
    OthersRoundTrip(p, doc, users, map[]);
    assert OthersView(map[], u) == map[];
    EmptyUnion(KeptStatuses(OthersView(users, u)));
  }

  /** Adding a map to an empty one gives that map. */
  lemma EmptyUnion<K, V>(m: map<K, V>)
    ensures map[] + m == m
  {
  }

  /** The first block keeps a registry's shape. */
  lemma InstalledWellFormed(reg: UserServices, discovered: seq<ServiceInfo>)
    requires RegistryWellFormed(reg)
    ensures RegistryWellFormed(Installed(reg, discovered))
  {
  }

  /** invalidateOther on the "other" records of the first block's registry completes Reconciled. */
  lemma InstalledThenReconciled(reg: UserServices, discovered: seq<ServiceInfo>)
    ensures var m := Installed(reg, discovered);
      var others := ReconciledOthers(m.others, m.services);
      m.(services := WithOtherFlags(m.services, others), others := others) == Reconciled(reg, discovered)
  {
  }

  /** Filing a registry twice under one user keeps the second. */
  lemma PutTwice(users: Users, userId: UserId, first: UserServices, second: UserServices)
    ensures users[userId := first][userId := second] == users[userId := second]
  {
    assert users[userId := first][userId := second].Keys == users[userId := second].Keys;
  }

  /** The tables agree on every user but `userId`, and `users` has that one. */
  ghost predicate SameExcept(users: Users, users0: Users, userId: UserId) {
    && userId in users
    && (forall u :: u != userId ==> (u in users <==> u in users0))
    && (forall u :: u != userId && u in users ==> users[u] == users0[u])
  }

  /** Creating the user first makes no difference once a registry is filed under it. */
  lemma PutAfterEnsure(users: Users, userId: UserId, reg: UserServices)
    ensures EnsureUser(users, userId)[userId := reg] == users[userId := reg]
  {
    PutTwice(users, userId, EmptyRegistry, reg);
  }

  /** Filing a registry with the user's old overlay leaves dynamic_aids.xml describing the table. */
  lemma OverlayKeptStillDescribed(p: Platform, doc: Document, users: Users, userId: UserId, reg: UserServices)
    requires DescribesDynamic(p, doc, users)
    requires reg.dynamicSettings == DynView(users, userId)
    ensures DescribesDynamic(p, doc, users[userId := reg])
  {
    forall u
      ensures DynView(users[userId := reg], u) == DynView(users, u)
    {
    }
    DescribesDynamicFrame(p, doc, users, users[userId := reg]);
  }

  /** Filing a registry under `userId` overrides whatever the tables held for that user. */
  lemma PutOver(users: Users, users0: Users, userId: UserId, reg: UserServices)
    requires SameExcept(users, users0, userId)
    ensures users[userId := reg] == users0[userId := reg]
  {
    var a := users[userId := reg];
    var b := users0[userId := reg];
    forall u
      ensures u in a <==> u in b
      ensures u in a ==> a[u] == b[u]
    {
      if u != userId {
        assert u in users <==> u in users0;
      }
    }
    assert a.Keys == b.Keys;
  }

  class RegisteredServicesCache {
    /** The platform calls the cache makes. */
    const platform: Platform
    /** mUserServices */
    var users: Users
    /** dynamic_aids.xml; None while the file does not exist. */
    var dynamicSettingsFile: Option<Document>
    /** other_status.xml; None while the file does not exist. */
    var othersFile: Option<Document>

    /**
     * Every record is filed under its component, every overlay group under its
     * category, and every uid under the user it belongs to.
     */
    ghost predicate Valid()
      reads this
    {
      UsersWellFormed(users) && UsersFiled(platform, users)
    }

    /** The cache starts with no user; the files are whatever the data directory holds. */
    constructor (platform: Platform, dynamicSettingsFile: Option<Document>, othersFile: Option<Document>)
      ensures this.platform == platform && users == map[]
      ensures this.dynamicSettingsFile == dynamicSettingsFile && this.othersFile == othersFile
      ensures Valid()
    {
      this.platform := platform;
      users := map[];
      this.dynamicSettingsFile := dynamicSettingsFile;
      this.othersFile := othersFile;
    }

    /** findOrCreateUserLocked: the user's registry, an empty one added when there was none. */
    method FindOrCreateUser(userId: UserId) returns (reg: UserServices)
      requires Valid()
      modifies this
      ensures Valid()
      ensures users == EnsureUser(old(users), userId) && SameExcept(users, old(users), userId)
      ensures reg == users[userId] && reg == RegistryOf(old(users), userId)
      ensures dynamicSettingsFile == old(dynamicSettingsFile) && othersFile == old(othersFile)
    {
      if userId !in users {
        users := users[userId := EmptyRegistry];
      }
      reg := users[userId];
    }

    /** getService: the record of the component, if the user has one. */
    method GetService(userId: UserId, c: ComponentName) returns (s: Option<ServiceInfo>)
      requires Valid()
      modifies this
      ensures Valid()
      ensures users == EnsureUser(old(users), userId)
      ensures s.Some? <==> c in RegistryOf(old(users), userId).services
      ensures s.Some? ==> s.value == RegistryOf(old(users), userId).services[c] && s.value.component == c
      ensures dynamicSettingsFile == old(dynamicSettingsFile) && othersFile == old(othersFile)
    {
      var reg := FindOrCreateUser(userId);
      s := if c in reg.services then Some(reg.services[c]) else None;
    }

    /** hasService */
    method HasService(userId: UserId, c: ComponentName) returns (b: bool)
      requires Valid()
      modifies this
      ensures Valid()
      ensures users == EnsureUser(old(users), userId)
      ensures b <==> c in RegistryOf(old(users), userId).services
      ensures dynamicSettingsFile == old(dynamicSettingsFile) && othersFile == old(othersFile)
    {
      var s := GetService(userId, c);
      b := s.Some?;
    }

    /** getServices: every record of the user. */
    method GetServices(userId: UserId) returns (list: seq<ServiceInfo>)
      requires Valid()
      modifies this
      ensures Valid()
      ensures users == EnsureUser(old(users), userId)
      ensures ListsServices(list, RegistryOf(old(users), userId).services)
      ensures dynamicSettingsFile == old(dynamicSettingsFile) && othersFile == old(othersFile)
    {
      var reg := FindOrCreateUser(userId);
      list := ServiceValues(reg.services);
    }

    /** getServicesForCategory: every record of the user that has the category. */
    method GetServicesForCategory(userId: UserId, category: string) returns (list: seq<ServiceInfo>)
      requires Valid()
      modifies this
      ensures Valid()
      ensures users == EnsureUser(old(users), userId)
      ensures ListsServices(list, OfCategory(RegistryOf(old(users), userId).services, category))
      ensures dynamicSettingsFile == old(dynamicSettingsFile) && othersFile == old(othersFile)
    {
      var reg := FindOrCreateUser(userId);
      list := ServicesOfCategory(reg.services, category);
    }

    /**
     * readDynamicSettingsLocked: a missing file changes nothing; otherwise the
     * entries it holds are filed, and a file that cannot be parsed is deleted
     * (the entries read before the failure stay).
     */
    method ReadDynamicSettings()
      requires Valid()
      modifies this
      ensures Valid()
      ensures othersFile == old(othersFile)
      ensures old(dynamicSettingsFile).None? ==> users == old(users) && dynamicSettingsFile.None?
      ensures old(dynamicSettingsFile).Some? ==>
        var run := ReadDynamic(platform, old(users), old(dynamicSettingsFile).value);
        && users == run.users
        && dynamicSettingsFile == (if run.failed then None else old(dynamicSettingsFile))
      ensures DynamicGrowth(platform, old(users), users)
    {
      if dynamicSettingsFile.Some? {
        ReadDynamicKeepsOnlyValid(platform, users, dynamicSettingsFile.value);
        DynamicGrowthWellFormed(platform, users, ReadDynamic(platform, users, dynamicSettingsFile.value).users);
        DynamicGrowthFiled(platform, users, ReadDynamic(platform, users, dynamicSettingsFile.value).users);
        var result, failed := ReadDynamicEvents(platform, users, dynamicSettingsFile.value);
        users := result;
        if failed {
          dynamicSettingsFile := None;
        }
      }
    }

    /** readOthersLocked: as ReadDynamicSettings, for other_status.xml. */
    method ReadOthersFile()
      requires Valid()
      modifies this
      ensures Valid()
      ensures dynamicSettingsFile == old(dynamicSettingsFile)
      ensures old(othersFile).None? ==> users == old(users) && othersFile.None?
      ensures old(othersFile).Some? ==>
        var run := ReadOthers(platform, old(users), old(othersFile).value);
        && users == run.users
        && othersFile == (if run.failed then None else old(othersFile))
      ensures OthersGrowth(platform, old(users), users)
    {
      if othersFile.Some? {
        ReadOthersKeepsOnlyValid(platform, users, othersFile.value);
        OthersGrowthWellFormed(platform, users, ReadOthers(platform, users, othersFile.value).users);
        OthersGrowthFiled(platform, users, ReadOthers(platform, users, othersFile.value).users);
        var result, failed := ReadOthersEvents(platform, users, othersFile.value);
        users := result;
        if failed {
          othersFile := None;
        }
      }
    }

    /** writeDynamicSettingsLocked: on success the file holds every overlay entry of every user. */
    method WriteDynamicSettings(writeOk: bool) returns (success: bool)
      requires Valid()
      modifies this
      ensures Valid()
      ensures success == writeOk
      ensures users == old(users) && othersFile == old(othersFile)
      ensures writeOk ==> dynamicSettingsFile.Some? && DescribesDynamic(platform, dynamicSettingsFile.value, users)
      ensures !writeOk ==> dynamicSettingsFile == old(dynamicSettingsFile)
    {
      var doc := WriteDynamicEvents(platform, users);
      if writeOk {
        dynamicSettingsFile := Some(doc);
      }
      success := writeOk;
    }

    /** writeOthersLocked: on success the file holds every status of every user. */
    method WriteOthers(writeOk: bool) returns (success: bool)
      requires Valid()
      modifies this
      ensures Valid()
      ensures success == writeOk
      ensures users == old(users) && dynamicSettingsFile == old(dynamicSettingsFile)
      ensures writeOk ==> othersFile.Some? && DescribesOthers(platform, othersFile.value, users)
      ensures !writeOk ==> othersFile == old(othersFile)
    {
      var doc := WriteOthersEvents(platform, users);
      if writeOk {
        othersFile := Some(doc);
      }
      success := writeOk;
    }

    /**
     * invalidateCache with the list getInstalledServices returned (None for null):
     * the user's registry becomes Reconciled; dynamic_aids.xml is written when an
     * overlay entry was removed, other_status.xml when a status was removed or
     * added; the callback gets the discovered list as the cache left its objects.
     */
    method InvalidateCache(userId: UserId, installed: Option<seq<ServiceInfo>>, validateInstalled: bool,
                           dynamicWriteOk: bool, othersWriteOk: bool)
      returns (update: Option<ServicesUpdated>)
      requires Valid()
      requires installed.Some? ==> InstalledFor(platform, userId, installed.value)
      modifies this
      ensures Valid()
      ensures installed.None? ==>
        && update.None? && users == old(users)
        && dynamicSettingsFile == old(dynamicSettingsFile) && othersFile == old(othersFile)
      ensures installed.Some? ==>
        var reg := RegistryOf(old(users), userId);
        var after := Reconciled(reg, installed.value);
        && users == old(users)[userId := after]
        && update == Some(ServicesUpdated(userId, Snapshot(installed.value, after.services), validateInstalled))
        && (if DynamicNeedsWrite(reg, installed.value) && dynamicWriteOk
            then dynamicSettingsFile.Some? && DescribesDynamic(platform, dynamicSettingsFile.value, users)
            else dynamicSettingsFile == old(dynamicSettingsFile))
        && (if OthersNeedWrite(reg, installed.value) && othersWriteOk
            then othersFile.Some? && DescribesOthers(platform, othersFile.value, users)
            else othersFile == old(othersFile))
    {
      if installed.None? {
        return None;
      }
      var discovered := installed.value;
      ghost var users0 := users;
      ghost var reg := RegistryOf(users, userId);
      ApplyInstalled(userId, discovered, dynamicWriteOk);
      ghost var m := Installed(reg, discovered);
      assert RegistryOf(users, userId) == m;
      InvalidateOtherCategory(userId, othersWriteOk);
      InstalledThenReconciled(reg, discovered);
      PutTwice(users0, userId, m, Reconciled(reg, discovered));
      OthersWriteOfCategory(reg, discovered);
      update := Some(ServicesUpdated(userId, Snapshot(discovered, users[userId].services), validateInstalled));
    }

    /**
     * The first block of invalidateCache: the records are rebuilt from the
     * discovered list, the overlay is applied, the entries of toBeRemoved are
     * deleted and, when there were any, dynamic_aids.xml is written.
     */
    method ApplyInstalled(userId: UserId, discovered: seq<ServiceInfo>, writeOk: bool)
      requires Valid()
      requires InstalledFor(platform, userId, discovered)
      modifies this
      ensures Valid()
      ensures var reg := RegistryOf(old(users), userId);
        && users == old(users)[userId := Installed(reg, discovered)]
        && (if DynamicNeedsWrite(reg, discovered) && writeOk
            then dynamicSettingsFile.Some? && DescribesDynamic(platform, dynamicSettingsFile.value, users)
            else dynamicSettingsFile == old(dynamicSettingsFile))
      ensures othersFile == old(othersFile)
    {
      ghost var users0 := users;
      var reg := FindOrCreateUser(userId);
      var services := RebuildServices(reg.services, discovered);
      var overlaid, toBeRemoved := ApplyDynamicSettings(services, reg.dynamicSettings);
      RemovalsNeedWrite(reg, discovered, toBeRemoved);
      RemovedLeaveSurvivors(services, reg.dynamicSettings, toBeRemoved);
      var dyn := reg.dynamicSettings;
      if |toBeRemoved| > 0 {
        dyn := RemoveEntries(dyn, toBeRemoved);
      } else {
        assert dyn == SurvivingSettings(services, reg.dynamicSettings);
      }
      assert UserServices(overlaid, dyn, reg.others) == Installed(reg, discovered);
      InstalledWellFormed(reg, discovered);
      InstalledFiled(platform, userId, reg, discovered);
      Put(userId, UserServices(overlaid, dyn, reg.others), users0);
      if |toBeRemoved| > 0 {
        var _ := WriteDynamicSettings(writeOk);
      }
    }

    /**
     * The second block of invalidateCache: invalidateOther with the user's
     * "other" records, as getServicesForCategory lists them; the overlay and
     * so what dynamic_aids.xml describes are untouched.
     */
    method InvalidateOtherCategory(userId: UserId, writeOk: bool)
      requires Valid()
      modifies this
      ensures Valid()
      ensures var reg := RegistryOf(old(users), userId);
        var others := ReconciledOthers(reg.others, reg.services);
        && users == old(users)[userId := reg.(services := WithOtherFlags(reg.services, others), others := others)]
        && (if StatusesChanged(reg.others, reg.services, OtherComponents(reg.services)) && writeOk
            then othersFile.Some? && DescribesOthers(platform, othersFile.value, users)
            else othersFile == old(othersFile))
      ensures dynamicSettingsFile == old(dynamicSettingsFile)
      ensures dynamicSettingsFile.Some? && DescribesDynamic(platform, dynamicSettingsFile.value, old(users)) ==>
        DescribesDynamic(platform, dynamicSettingsFile.value, users)
    {
      ghost var users0 := users;
      ghost var reg := RegistryOf(users, userId);
      var otherServices := GetServicesForCategory(userId, CATEGORY_OTHER);
      ListedOthers(otherServices, reg.services);
      InvalidateOther(userId, otherServices, writeOk);
      InvalidateOtherOfCategory(reg.services, reg.others);
      ghost var others := ReconciledOthers(reg.others, reg.services);
      PutAfterEnsure(users0, userId, reg.(services := WithOtherFlags(reg.services, others), others := others));
      if dynamicSettingsFile.Some? && DescribesDynamic(platform, dynamicSettingsFile.value, users0) {
        OverlayKeptStillDescribed(platform, dynamicSettingsFile.value, users0, userId,
                                  reg.(services := WithOtherFlags(reg.services, others), others := others));
      }
    }

    /**
     * invalidateOther with the list of records passed to it, which are the
     * map's own: statuses of unlisted components go, every listed "other"
     * record gets its status (a new checked one when it had none) and its flag
     * from it; other_status.xml is written when a status went or came.
     */
    method InvalidateOther(userId: UserId, validOtherServices: seq<ServiceInfo>, writeOk: bool)
      requires Valid()
      requires forall i :: 0 <= i < |validOtherServices| ==>
        validOtherServices[i].component in RegistryOf(users, userId).services
        && RegistryOf(users, userId).services[validOtherServices[i].component] == validOtherServices[i]
      modifies this
      ensures Valid()
      ensures var reg := RegistryOf(old(users), userId);
        var listed := Listed(validOtherServices);
        var others := InvalidatedOthers(reg.others, reg.services, listed);
        var needToWrite := StatusesChanged(reg.others, reg.services, listed);
        && users == old(users)[userId := reg.(services := FlaggedOthers(reg.services, others, listed), others := others)]
        && (if needToWrite && writeOk
            then othersFile.Some? && DescribesOthers(platform, othersFile.value, users)
            else othersFile == old(othersFile))
      ensures dynamicSettingsFile == old(dynamicSettingsFile)
    {
      ghost var users0 := users;
      var reg := FindOrCreateUser(userId);
      var services, others, needToWrite := ReconcileOthers(reg.services, reg.others, validOtherServices);
      InvalidatedKeepsRegistry(platform, userId, reg, Listed(validOtherServices));
      Put(userId, reg.(services := services, others := others), users0);
      if needToWrite {
        var _ := WriteOthers(writeOk);
      }
    }

    /** The callback list of a mutation: the user's records after it. */
    method Notify(userId: UserId, validateInstalled: bool) returns (update: Option<ServicesUpdated>)
      requires Valid() && userId in users
      ensures Announces(update, userId, users[userId].services, validateInstalled)
    {
      var list := ServiceValues(users[userId].services);
      update := Some(ServicesUpdated(userId, list, validateInstalled));
    }

    /** Files `reg` as the registry of a user; `users0` is the table before the user was looked up. */
    method Put(userId: UserId, reg: UserServices, ghost users0: Users)
      requires Valid() && RegistryWellFormed(reg) && RegistryFiled(platform, userId, reg)
      requires SameExcept(users, users0, userId)
      modifies this
      ensures Valid()
      ensures users == users0[userId := reg] && SameExcept(users, users0, userId)
      ensures dynamicSettingsFile == old(dynamicSettingsFile) && othersFile == old(othersFile)
    {
      PutOver(users, users0, userId, reg);
      users := users[userId := reg];
    }

    /**
     * setOffHostSecureElement: for an off-host service of the caller, the overlay
     * entry (when the service has one) gets the secure element before the write;
     * a new entry is not put in the map. On success the record gets it too; on
     * failure the entry's secure element is cleared, not restored.
     */
    method SetOffHostSecureElement(userId: UserId, uid: Uid, c: ComponentName, offHostSE: Option<string>, writeOk: bool)
      returns (success: bool, update: Option<ServicesUpdated>)
      requires Valid()
      modifies this
      ensures Valid()
      ensures othersFile == old(othersFile)
      ensures var reg := RegistryOf(old(users), userId);
        !(Owns(reg, uid, c) && offHostSE.Some? && !reg.services[c].onHost) ==>
          && !success && update.None?
          && users == EnsureUser(old(users), userId) && dynamicSettingsFile == old(dynamicSettingsFile)
      ensures var reg := RegistryOf(old(users), userId);
        Owns(reg, uid, c) && offHostSE.Some? && !reg.services[c].onHost && writeOk ==>
          && success
          && users == old(users)[userId := SecureElementSet(reg, c, offHostSE.value)]
          && dynamicSettingsFile.Some? && DescribesDynamic(platform, dynamicSettingsFile.value, users)
          && Announces(update, userId, users[userId].services, true)
      ensures var reg := RegistryOf(old(users), userId);
        Owns(reg, uid, c) && offHostSE.Some? && !reg.services[c].onHost && !writeOk ==>
          && !success && update.None?
          && users == old(users)[userId := SecureElementCleared(reg, c)]
          && dynamicSettingsFile == old(dynamicSettingsFile)
    {
      ghost var users0 := users;
      var reg := FindOrCreateUser(userId);
      var serviceInfo := GetService(userId, c);
      if serviceInfo.None? || serviceInfo.value.uid != uid || offHostSE.None? || serviceInfo.value.onHost {
        return false, None;
      }
      var dyn := reg.dynamicSettings;
      if c in dyn {
        dyn := dyn[c := dyn[c].(offHostSE := offHostSE)];
      }
      SecureElementFiled(platform, userId, reg, c, offHostSE.value);
      assert dyn == SecureElementSet(reg, c, offHostSE.value).dynamicSettings;
      Put(userId, reg.(dynamicSettings := dyn), users0);
      var written := WriteDynamicSettings(writeOk);
      if !written {
        Put(userId, SecureElementCleared(reg, c), users0);
        return false, None;
      }
      ghost var staged := reg.(dynamicSettings := dyn);
      var setReg := SecureElementSet(reg, c, offHostSE.value);
      OverlayKeptStillDescribed(platform, dynamicSettingsFile.value, users, userId, setReg);
      PutTwice(users0, userId, staged, setReg);
      Put(userId, setReg, users0);
      update := Notify(userId, true);
      success := true;
    }

    /**
     * resetOffHostSecureElement: for an off-host service of the caller whose
     * secure element is set, the overlay entry's secure element is cleared and
     * written; on success the record returns to its manifest's secure element,
     * on failure the entry's previous one is restored. The source reads the
     * entry without checking for null; a service without one (the state
     * SetOffHostSecureElement leaves for such a service, see
     * `Registrations.SetThenResetThrows`) takes the null-checked path
     * `Registrations.SecureElementResetChecked`: nothing to clear in the overlay.
     */
    method ResetOffHostSecureElement(userId: UserId, uid: Uid, c: ComponentName, writeOk: bool)
      returns (success: bool, update: Option<ServicesUpdated>)
      requires Valid()
      modifies this
      ensures Valid()
      ensures othersFile == old(othersFile)
      ensures var reg := RegistryOf(old(users), userId);
        !(Owns(reg, uid, c) && !reg.services[c].onHost && reg.services[c].offHostSE.Some? && writeOk) ==>
          && !success && update.None?
          && users == EnsureUser(old(users), userId) && dynamicSettingsFile == old(dynamicSettingsFile)
      ensures var reg := RegistryOf(old(users), userId);
        Owns(reg, uid, c) && !reg.services[c].onHost && reg.services[c].offHostSE.Some? && writeOk ==>
          && success
          && users == old(users)[userId := SecureElementResetChecked(reg, c)]
          && dynamicSettingsFile.Some? && DescribesDynamic(platform, dynamicSettingsFile.value, users)
          && Announces(update, userId, users[userId].services, true)
    {
      ghost var users0 := users;
      var reg := FindOrCreateUser(userId);
      var serviceInfo := GetService(userId, c);
      if serviceInfo.None? || serviceInfo.value.uid != uid || serviceInfo.value.onHost || serviceInfo.value.offHostSE.None? {
        return false, None;
      }
      if c !in reg.dynamicSettings {
        // Registrations.ResetThrows: the source dereferences the missing entry here.
        var written := WriteDynamicSettings(writeOk);
        if !written {
          return false, None;
        }
        var checked := SecureElementResetChecked(reg, c);
        SecureElementFiled(platform, userId, reg, c, "");
        OverlayKeptStillDescribed(platform, dynamicSettingsFile.value, users, userId, checked);
        Put(userId, checked, users0);
        update := Notify(userId, true);
        success := true;
        return;
      }
      var ds := reg.dynamicSettings[c];
      var previous := ds.offHostSE;
      Put(userId, reg.(dynamicSettings := reg.dynamicSettings[c := ds.(offHostSE := None)]), users0);
      var written := WriteDynamicSettings(writeOk);
      if !written {
        assert reg.dynamicSettings[c := ds.(offHostSE := previous)] == reg.dynamicSettings;
        Put(userId, reg.(dynamicSettings := reg.dynamicSettings[c := ds.(offHostSE := previous)]), users0);
        return false, None;
      }
      var reset := SecureElementResetChecked(reg, c);
      SecureElementFiled(platform, userId, reg, c, "");
      OverlayKeptStillDescribed(platform, dynamicSettingsFile.value, users, userId, reset);
      PutTwice(users0, userId, reg.(dynamicSettings := reg.dynamicSettings[c := ds.(offHostSE := None)]), reset);
      Put(userId, reset, users0);
      update := Notify(userId, true);
      success := true;
    }

    /**
     * setShouldDefaultToObserveModeForService: for a service of the caller, the
     * record's mode is set and the overlay entry (created for the uid when
     * missing) records it as "true" or "false"; nothing is written.
     */
    method SetShouldDefaultToObserveModeForService(userId: UserId, uid: Uid, c: ComponentName, enable: bool)
      returns (success: bool)
      requires Valid()
      modifies this
      ensures Valid()
      ensures dynamicSettingsFile == old(dynamicSettingsFile) && othersFile == old(othersFile)
      ensures var reg := RegistryOf(old(users), userId);
        && (success <==> Owns(reg, uid, c))
        && (!success ==> users == EnsureUser(old(users), userId))
        && (success ==> users == old(users)[userId := ObserveModeSet(reg, uid, c, enable)])
    {
      ghost var users0 := users;
      var reg := FindOrCreateUser(userId);
      var serviceInfo := GetService(userId, c);
      if serviceInfo.None? || serviceInfo.value.uid != uid {
        return false;
      }
      Put(userId, ObserveModeSet(reg, uid, c, enable), users0);
      success := true;
    }

    /**
     * registerPollingLoopFilterForService: for a service of the caller, the
     * record maps the filter to the auto-transact flag; nothing is written.
     */
    method RegisterPollingLoopFilterForService(userId: UserId, uid: Uid, c: ComponentName, filter: string,
                                               autoTransact: bool)
      returns (success: bool, update: Option<ServicesUpdated>)
      requires Valid()
      modifies this
      ensures Valid()
      ensures dynamicSettingsFile == old(dynamicSettingsFile) && othersFile == old(othersFile)
      ensures var reg := RegistryOf(old(users), userId);
        && (success <==> Owns(reg, uid, c))
        && (!success ==> users == EnsureUser(old(users), userId) && update.None?)
        && (success ==>
              && users == old(users)[userId := PollingLoopFilterAdded(reg, c, filter, autoTransact)]
              && Announces(update, userId, users[userId].services, true))
    {
      ghost var users0 := users;
      var reg := FindOrCreateUser(userId);
      var serviceInfo := GetService(userId, c);
      if serviceInfo.None? || serviceInfo.value.uid != uid {
        return false, None;
      }
      Put(userId, PollingLoopFilterAdded(reg, c, filter, autoTransact), users0);
      update := Notify(userId, true);
      success := true;
    }

    /**
     * registerAidGroupForService: for a service of the caller whose AIDs are all
     * valid, the record gets the group, the overlay entry (created for the uid
     * when missing) files it under its category, and the file is written. On
     * failure only the entry's group of that category is removed.
     */
    method RegisterAidGroupForService(userId: UserId, uid: Uid, c: ComponentName, group: AidGroup, writeOk: bool)
      returns (success: bool, update: Option<ServicesUpdated>)
      requires Valid()
      modifies this
      ensures Valid()
      ensures othersFile == old(othersFile)
      ensures var reg := RegistryOf(old(users), userId);
        !(Owns(reg, uid, c) && forall i :: 0 <= i < |group.aids| ==> platform.isValidAid(group.aids[i])) ==>
          && !success && update.None?
          && users == EnsureUser(old(users), userId) && dynamicSettingsFile == old(dynamicSettingsFile)
      ensures var reg := RegistryOf(old(users), userId);
        Owns(reg, uid, c) && (forall i :: 0 <= i < |group.aids| ==> platform.isValidAid(group.aids[i])) && writeOk ==>
          && success
          && users == old(users)[userId := AidGroupRegistered(reg, uid, c, group)]
          && dynamicSettingsFile.Some? && DescribesDynamic(platform, dynamicSettingsFile.value, users)
          && Announces(update, userId, users[userId].services, true)
      ensures var reg := RegistryOf(old(users), userId);
        Owns(reg, uid, c) && (forall i :: 0 <= i < |group.aids| ==> platform.isValidAid(group.aids[i])) && !writeOk ==>
          && !success && update.None?
          && users == old(users)[userId := AidGroupRegistrationUndone(reg, uid, c, group)]
          && dynamicSettingsFile == old(dynamicSettingsFile)
    {
      ghost var users0 := users;
      var reg := FindOrCreateUser(userId);
      var serviceInfo := GetService(userId, c);
      if serviceInfo.None? || serviceInfo.value.uid != uid {
        return false, None;
      }
      var valid := AllAidsValid(platform, group.aids);
      if !valid {
        return false, None;
      }
      var registered := AidGroupRegistered(reg, uid, c, group);
      Put(userId, registered, users0);
      success := WriteDynamicSettings(writeOk);
      if success {
        update := Notify(userId, true);
      } else {
        Put(userId, AidGroupRegistrationUndone(reg, uid, c, group), users0);
        update := None;
      }
    }

    /**
     * removeAidGroupForService: for a service of the caller whose record has a
     * dynamic group of the category, the record loses it; when the service has an
     * overlay entry, the entry loses it too and the file is written, and on
     * failure the removed group is put back (RestoreRemovedGroup). Without an
     * entry the call fails, but the record has lost the group.
     */
    method RemoveAidGroupForService(userId: UserId, uid: Uid, c: ComponentName, category: string, writeOk: bool)
      returns (success: bool, update: Option<ServicesUpdated>)
      requires Valid()
      modifies this
      ensures Valid()
      ensures othersFile == old(othersFile)
      ensures var reg := RegistryOf(old(users), userId);
        !(Owns(reg, uid, c) && category in reg.services[c].dynamicAidGroups) ==>
          && !success && update.None?
          && users == EnsureUser(old(users), userId) && dynamicSettingsFile == old(dynamicSettingsFile)
      ensures var reg := RegistryOf(old(users), userId);
        Owns(reg, uid, c) && category in reg.services[c].dynamicAidGroups && c in reg.dynamicSettings && writeOk ==>
          && success
          && users == old(users)[userId := AidGroupRemoved(reg, c, category)]
          && dynamicSettingsFile.Some? && DescribesDynamic(platform, dynamicSettingsFile.value, users)
          && Announces(update, userId, users[userId].services, true)
      ensures var reg := RegistryOf(old(users), userId);
        Owns(reg, uid, c) && category in reg.services[c].dynamicAidGroups && !(c in reg.dynamicSettings && writeOk) ==>
          && !success && update.None?
          && users == old(users)[userId := AidGroupDropped(reg, c, category)]
          && dynamicSettingsFile == old(dynamicSettingsFile)
    {
      ghost var users0 := users;
      var reg := FindOrCreateUser(userId);
      var serviceInfo := GetService(userId, c);
      if serviceInfo.None? || serviceInfo.value.uid != uid {
        return false, None;
      }
      if category !in serviceInfo.value.dynamicAidGroups {
        return false, None;
      }
      var dropped := AidGroupDropped(reg, c, category);
      Put(userId, dropped, users0);
      if c !in reg.dynamicSettings {
        return false, None;
      }
      var ds := reg.dynamicSettings[c];
      var deletedGroup := Removed(ds.aidGroups, category);
      var removed := AidGroupRemoved(reg, c, category);
      Put(userId, removed, users0);
      success := WriteDynamicSettings(writeOk);
      if success {
        update := Notify(userId, true);
      } else {
        RestoreUndoesRemoval(ds.aidGroups, category);
        var restored := ds.(aidGroups := RestoreRemovedGroup(ds.aidGroups - {category}, category, deletedGroup));
        assert removed.(dynamicSettings := removed.dynamicSettings[c := restored]) == dropped;
        Put(userId, removed.(dynamicSettings := removed.dynamicSettings[c := restored]), users0);
        update := None;
      }
    }

    /**
     * registerOtherForService: for a registered service, updateOtherServiceStatus;
     * on success the callback is made with validateInstalled false.
     */
    method RegisterOtherForService(userId: UserId, c: ComponentName, checked: bool, writeOk: bool)
      returns (success: bool, update: Option<ServicesUpdated>)
      requires Valid()
      modifies this
      ensures Valid()
      ensures dynamicSettingsFile == old(dynamicSettingsFile)
      ensures c !in RegistryOf(old(users), userId).services ==>
        && !success && update.None?
        && users == EnsureUser(old(users), userId) && othersFile == old(othersFile)
      ensures c in RegistryOf(old(users), userId).services ==>
        var reg := RegistryOf(old(users), userId);
        && (!(c in reg.others && reg.services[c].categoryOtherServiceEnabled != checked) ==>
              && !success && update.None?
              && users == EnsureUser(old(users), userId) && othersFile == old(othersFile))
        && (c in reg.others && reg.services[c].categoryOtherServiceEnabled != checked ==>
              && success == writeOk
              && users == old(users)[userId := OtherServiceChecked(reg, c, checked)]
              && (writeOk ==> othersFile.Some? && DescribesOthers(platform, othersFile.value, users)
                              && Announces(update, userId, users[userId].services, false))
              && (!writeOk ==> othersFile == old(othersFile) && update.None?))
    {
      var serviceInfo := GetService(userId, c);
      if serviceInfo.None? {
        return false, None;
      }
      success := UpdateOtherServiceStatus(userId, c, checked, writeOk);
      if success {
        update := Notify(userId, false);
      } else {
        update := None;
      }
    }

    /**
     * updateOtherServiceStatus, for a registered service: it fails without a
     * status or when the record's flag already has the value; otherwise the
     * record's flag and the status are set and other_status.xml is written, and
     * nothing is undone when the write fails.
     */
    method UpdateOtherServiceStatus(userId: UserId, c: ComponentName, checked: bool, writeOk: bool)
      returns (success: bool)
      requires Valid()
      requires c in RegistryOf(users, userId).services
      modifies this
      ensures Valid()
      ensures dynamicSettingsFile == old(dynamicSettingsFile)
      ensures var reg := RegistryOf(old(users), userId);
        !(c in reg.others && reg.services[c].categoryOtherServiceEnabled != checked) ==>
          !success && users == EnsureUser(old(users), userId) && othersFile == old(othersFile)
      ensures var reg := RegistryOf(old(users), userId);
        c in reg.others && reg.services[c].categoryOtherServiceEnabled != checked ==>
          && success == writeOk
          && users == old(users)[userId := OtherServiceChecked(reg, c, checked)]
          && (writeOk ==> othersFile.Some? && DescribesOthers(platform, othersFile.value, users))
          && (!writeOk ==> othersFile == old(othersFile))
    {
      ghost var users0 := users;
      var reg := FindOrCreateUser(userId);
      if c !in reg.others {
        return false;
      }
      if reg.services[c].categoryOtherServiceEnabled == checked {
        return false;
      }
      Put(userId, OtherServiceChecked(reg, c, checked), users0);
      success := WriteOthers(writeOk);
    }

    /** getAidGroupForService: the record's dynamic group of the category, for a service of the caller. */
    method GetAidGroupForService(userId: UserId, uid: Uid, c: ComponentName, category: string)
      returns (group: Option<AidGroup>)
      requires Valid()
      modifies this
      ensures Valid()
      ensures users == EnsureUser(old(users), userId)
      ensures dynamicSettingsFile == old(dynamicSettingsFile) && othersFile == old(othersFile)
      ensures var reg := RegistryOf(old(users), userId);
        group.Some? <==> Owns(reg, uid, c) && category in reg.services[c].dynamicAidGroups
      ensures group.Some? ==> group.value == RegistryOf(old(users), userId).services[c].dynamicAidGroups[category]
    {
      var serviceInfo := GetService(userId, c);
      if serviceInfo.None? || serviceInfo.value.uid != uid || category !in serviceInfo.value.dynamicAidGroups {
        return None;
      }
      group := Some(serviceInfo.value.dynamicAidGroups[category]);
    }

    /** doesServiceShouldDefaultToObserveMode: false for an unknown service. */
    method DoesServiceShouldDefaultToObserveMode(userId: UserId, c: ComponentName) returns (b: bool)
      requires Valid()
      modifies this
      ensures Valid()
      ensures users == EnsureUser(old(users), userId)
      ensures dynamicSettingsFile == old(dynamicSettingsFile) && othersFile == old(othersFile)
      ensures var reg := RegistryOf(old(users), userId);
        b <==> c in reg.services && reg.services[c].shouldDefaultToObserveMode
    {
      var reg := FindOrCreateUser(userId);
      b := c in reg.services && reg.services[c].shouldDefaultToObserveMode;
    }
  }
}
