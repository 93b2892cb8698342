/**
 * The entities of the registered-services cache: the discovered service records
 * (the fields of ApduServiceInfo the cache reads and writes), the dynamic overlay
 * settings, the "other"-category statuses and the per-user registry holding them.
 */
module Records {
  import opened Wrappers
  import opened JavaText

  type UserId = int
  type Uid = Int32

  /** android.content.ComponentName: the identity of a service. */
  datatype ComponentName = ComponentName(packageName: string, className: string)

  /** An AID group: a category and the AIDs registered for it (opaque to the cache). */
  datatype AidGroup = AidGroup(category: string, aids: seq<string>)

  /** CardEmulation.CATEGORY_OTHER */
  const CATEGORY_OTHER: string := "other"

  /**
   * The calls into the platform that the cache makes and that this model does not
   * interpret: UserHandle.getUserHandleForUid(uid).getIdentifier(),
   * CardEmulation.isValidAid, ComponentName.flattenToString and
   * ComponentName.unflattenFromString (None for a string it cannot parse).
   */
  datatype Platform = Platform(
    userOf: Uid -> UserId,
    isValidAid: string -> bool,
    flatten: ComponentName -> string,
    unflatten: string -> Option<ComponentName>)

  /** Whether unflattenFromString reads back every name flattenToString writes. */
  ghost predicate NamesRoundTrip(p: Platform) {
    forall c :: p.unflatten(p.flatten(c)) == Some(c)
  }

  /**
   * A discovered service record. `staticCategories` are the categories of the
   * manifest's AID groups, `dynamicAidGroups` the groups registered at run time
   * (by category), `staticOffHostSE` the manifest's secure element and `offHostSE`
   * the one in effect; `pollingLoopFilters` maps a filter to its auto-transact flag.
   */
  datatype ServiceInfo = ServiceInfo(
    component: ComponentName,
    uid: Uid,
    onHost: bool,
    staticCategories: set<string>,
    dynamicAidGroups: map<string, AidGroup>,
    staticOffHostSE: Option<string>,
    offHostSE: Option<string>,
    shouldDefaultToObserveMode: bool,
    categoryOtherServiceEnabled: bool,
    pollingLoopFilters: map<string, bool>)
  {
    /** hasCategory: a manifest group or a dynamic group has the category. */
    predicate HasCategory(category: string) {
      category in staticCategories || category in dynamicAidGroups
    }

    /** setDynamicAidGroup: the group replaces the one of its own category. */
    function SetDynamicAidGroup(group: AidGroup): ServiceInfo {
      this.(dynamicAidGroups := dynamicAidGroups[group.category := group])
    }

    /** resetOffHostSecureElement: back to the manifest's secure element. */
    function ResetOffHostSecureElement(): ServiceInfo {
      this.(offHostSE := staticOffHostSE)
    }
  }

  /**
   * DynamicSettings: the overlay an app registered for one of its services.
   * `shouldDefaultToObserveModeStr` is None while the mode was never set.
   */
  datatype DynamicSettings = DynamicSettings(
    uid: Uid,
    aidGroups: map<string, AidGroup>,
    offHostSE: Option<string>,
    shouldDefaultToObserveModeStr: Option<string>)

  /** `new DynamicSettings(uid)` */
  function NewDynamicSettings(uid: Uid): DynamicSettings {
    DynamicSettings(uid, map[], None, None)
  }

  /** OtherServiceStatus: the user's choice for a service of the "other" category. */
  datatype OtherServiceStatus = OtherServiceStatus(uid: Uid, checked: bool)

  /** UserServices: the registry of one user. */
  datatype UserServices = UserServices(
    services: map<ComponentName, ServiceInfo>,
    dynamicSettings: map<ComponentName, DynamicSettings>,
    others: map<ComponentName, OtherServiceStatus>)

  const EmptyRegistry: UserServices := UserServices(map[], map[], map[])

  /** mUserServices */
  type Users = map<UserId, UserServices>

  /** The registry of `u`; a user never referenced has an empty one. */
  function RegistryOf(users: Users, u: UserId): UserServices {
    if u in users then users[u] else EmptyRegistry
  }

  function DynView(users: Users, u: UserId): map<ComponentName, DynamicSettings> {
    RegistryOf(users, u).dynamicSettings
  }

  function OthersView(users: Users, u: UserId): map<ComponentName, OtherServiceStatus> {
    RegistryOf(users, u).others
  }

  /** The user table after findOrCreateUserLocked(u). */
  function EnsureUser(users: Users, u: UserId): Users {
    if u in users then users else users[u := EmptyRegistry]
  }

  /** Every group of an overlay is filed under its own category. */
  ghost predicate GroupsKeyed(groups: map<string, AidGroup>) {
    forall k :: k in groups ==> groups[k].category == k
  }

  /** Every record is filed under its own component. */
  ghost predicate RecordsKeyed(services: map<ComponentName, ServiceInfo>) {
    forall c :: c in services ==> services[c].component == c
  }

  /** The shape every registry keeps. */
  ghost predicate RegistryWellFormed(reg: UserServices) {
    && RecordsKeyed(reg.services)
    && (forall c :: c in reg.dynamicSettings ==> GroupsKeyed(reg.dynamicSettings[c].aidGroups))
  }

  ghost predicate UsersWellFormed(users: Users) {
    forall u :: u in users ==> RegistryWellFormed(users[u])
  }

  /**
   * Every uid a registry holds, of a record, an overlay entry or a status,
   * belongs to the user the registry is filed under, as `userOf` tells.
   */
  ghost predicate RegistryFiled(p: Platform, u: UserId, reg: UserServices) {
    && (forall c :: c in reg.services ==> p.userOf(reg.services[c].uid) == u)
    && (forall c :: c in reg.dynamicSettings ==> p.userOf(reg.dynamicSettings[c].uid) == u)
    && (forall c :: c in reg.others ==> p.userOf(reg.others[c].uid) == u)
  }

  ghost predicate UsersFiled(p: Platform, users: Users) {
    forall u :: u in users ==> RegistryFiled(p, u, users[u])
  }

  /**
   * convertValueToBoolean: a null or empty value gives the default; "1", "true"
   * and "TRUE" give true; every other value gives false.
   */
  function ConvertValueToBoolean(value: Option<string>, defaultValue: bool): (r: bool)
    ensures (value == None || value == Some("")) ==> r == defaultValue
    ensures value.Some? && value.value != "" ==> (r <==> value.value in {"1", "true", "TRUE"})
  {
    if value.None? || |value.value| == 0 then defaultValue
    else value.value == "1" || value.value == "true" || value.value == "TRUE"
  }

  /** containsServiceLocked: some record of the list has the component. */
  function ContainsService(services: seq<ServiceInfo>, name: ComponentName): (r: bool)
    ensures r <==> exists i :: 0 <= i < |services| && services[i].component == name
  {
    if services == [] then false
    else if services[0].component == name then true
    else
      var r := ContainsService(services[1..], name);
      assert r ==> exists i :: 1 <= i < |services| && services[i].component == name by {
        if r {
          var j :| 0 <= j < |services[1..]| && services[1..][j].component == name;
          assert services[j + 1].component == name;
        }
      }
      r
  }
}
