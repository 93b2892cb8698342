/**
 * The loops of readDynamicSettingsLocked, readOthersLocked, writeDynamicSettingsLocked
 * and writeOthersLocked, over the user table as a value. Each reader is proved to
 * compute the fold of Documents, each writer to produce a document of the shape
 * Documents describes.
 */
module Persistence {
  import opened Wrappers
  import opened JavaText
  import opened Records
  import opened Documents

  // ===================== reading =====================

  /** `for (AidGroup group : currentGroups) dynSettings.aidGroups.put(group.getCategory(), group)` */
  method CollectGroups(groups: seq<AidGroup>) returns (m: map<string, AidGroup>)
    ensures m == GroupsByCategory(groups)
  {
    m := map[];
    for i := 0 to |groups|
      invariant m == GroupsByCategory(groups[..i])
    {
      assert groups[..i + 1][..i] == groups[..i];
      m := m[groups[i].category := groups[i]];
    }
    assert groups[..|groups|] == groups;
  }

  /**
   * The parsing part of readDynamicSettingsLocked: the entries it files into
   * `users` and whether the parser threw.
   */
  method ReadDynamicEvents(p: Platform, users: Users, doc: Document) returns (result: Users, failed: bool)
    ensures result == ReadDynamic(p, users, doc).users
    ensures failed == ReadDynamic(p, users, doc).failed
  {
    result := users;
    failed := false;
    var k := 0;
    while k < |doc| && doc[k].EndTag?
      invariant 0 <= k <= |doc|
      invariant ReadDynamic(p, users, doc[k..]) == ReadDynamic(p, users, doc)
    {
      assert doc[k..][1..] == doc[k + 1..];
      k := k + 1;
    }
    if k == |doc| {
      return;
    }
    if doc[k].Malformed? {
      failed := true;
      return;
    }
    if doc[k].name != "services" {
      return;
    }
    var inService := false;
    var component: Option<ComponentName> := None;
    var uid: Uid := -1;
    var offHostSE: Option<string> := None;
    var observeMode: Option<string> := None;
    var groups: seq<AidGroup> := [];
    var i := k;
    while i < |doc| && !failed
      invariant k <= i <= |doc|
      invariant DynamicFold(p, DynamicRun(DynamicReader(inService, component, uid, offHostSE, observeMode, groups), result, failed), doc[i..])
                == ReadDynamic(p, users, doc)
      decreases |doc| - i
    {
      assert doc[i..][0] == doc[i] && doc[i..][1..] == doc[i + 1..];
      match doc[i] {
      case Malformed =>
        failed := true;
      case StartTag(name, depth, attributes, group) =>
        if name == "service" && depth == 2 {
          var compText := Attribute(attributes, "component");
          var uidText := Attribute(attributes, "uid");
          var offHostText := Attribute(attributes, "offHostSE");
          observeMode := Attribute(attributes, "shouldDefaultToObserveMode");
          if compText.Some? && uidText.Some? {
            var parsed := ParseInt(uidText.value);
            if parsed.Some? {
              uid := parsed.value;
              component := p.unflatten(compText.value);
              offHostSE := offHostText;
              inService := true;
            }
          }
        }
        if name == "aid-group" && depth == 3 && inService {
          if group.Some? {
            groups := groups + [group.value];
          }
        }
      case EndTag(name) =>
        if name == "service" {
          if component.Some? && uid >= 0 && (|groups| > 0 || offHostSE.Some?) {
            var userId := p.userOf(uid);
            var aidGroups := CollectGroups(groups);
            var settings := DynamicSettings(uid, aidGroups, offHostSE, observeMode);
            var reg := RegistryOf(result, userId);
            result := result[userId := reg.(dynamicSettings := reg.dynamicSettings[component.value := settings])];
          }
          uid := -1;
          component := None;
          groups := [];
          inService := false;
          offHostSE := None;
        }
      }
      i := i + 1;
    }
  }

  /** The parsing part of readOthersLocked. */
  method ReadOthersEvents(p: Platform, users: Users, doc: Document) returns (result: Users, failed: bool)
    ensures result == ReadOthers(p, users, doc).users
    ensures failed == ReadOthers(p, users, doc).failed
  {
    result := users;
    failed := false;
    var k := 0;
    while k < |doc| && doc[k].EndTag?
      invariant 0 <= k <= |doc|
      invariant ReadOthers(p, users, doc[k..]) == ReadOthers(p, users, doc)
    {
      assert doc[k..][1..] == doc[k + 1..];
      k := k + 1;
    }
    if k == |doc| {
      return;
    }
    if doc[k].Malformed? {
      failed := true;
      return;
    }
    if doc[k].name != "services" {
      return;
    }
    var checked := false;
    var component: Option<ComponentName> := None;
    var uid: Uid := -1;
    var i := k;
    while i < |doc| && !failed
      invariant k <= i <= |doc|
      invariant OthersFold(p, OthersRun(OthersReader(checked, component, uid), result, failed), doc[i..])
                == ReadOthers(p, users, doc)
      decreases |doc| - i
    {
      assert doc[i..][0] == doc[i] && doc[i..][1..] == doc[i + 1..];
      match doc[i] {
      case Malformed =>
        failed := true;
      case StartTag(name, depth, attributes, _) =>
        if name == "service" && depth == 2 {
          var compText := Attribute(attributes, "component");
          var uidText := Attribute(attributes, "uid");
          var checkedText := Attribute(attributes, "checked");
          if compText.Some? && uidText.Some? && checkedText.Some? {
            var parsed := ParseInt(uidText.value);
            if parsed.Some? {
              uid := parsed.value;
              component := p.unflatten(compText.value);
              checked := checkedText.value == "true";
            }
          }
        }
      case EndTag(name) =>
        if name == "service" {
          if component.Some? && uid >= 0 {
            var userId := p.userOf(uid);
            var reg := RegistryOf(result, userId);
            result := result[userId := reg.(others := reg.others[component.value := OtherServiceStatus(uid, checked)])];
          }
          uid := -1;
          component := None;
          checked := false;
        }
      }
      i := i + 1;
    }
  }

  // ===================== writing dynamic_aids.xml =====================

  lemma DynamicBodySnoc(p: Platform, es: seq<DynamicEntry>, e: DynamicEntry)
    ensures DynamicBody(p, es + [e]) == DynamicBody(p, es) + DynamicElement(p, e)
  {
    assert (es + [e])[..|es|] == es;
  }

  /** `for (AidGroup group : aidGroups.values()) group.writeAsXml(out)` */
  method WriteGroups(groups: map<string, AidGroup>) returns (events: seq<XmlEvent>, ghost listed: seq<AidGroup>)
    requires GroupsKeyed(groups)
    ensures events == GroupElements(listed)
    ensures ListsGroups(listed, groups)
  {
    events := [];
    listed := [];
    var pending := groups.Keys;
    while pending != {}
      invariant pending <= groups.Keys
      invariant events == GroupElements(listed)
      invariant forall j :: 0 <= j < |listed| ==>
        listed[j].category in groups && groups[listed[j].category] == listed[j] && listed[j].category !in pending
      invariant forall k :: k in groups && k !in pending ==> exists j :: 0 <= j < |listed| && listed[j].category == k
      decreases pending
    {
      var k :| k in pending;
      var group := groups[k];
      events := events + [GroupElement(group)];
      assert (listed + [group])[..|listed|] == listed;
      listed := listed + [group];
      assert listed[|listed| - 1].category == k;
      pending := pending - {k};
    }
  }

  /** Entry `e` is the overlay entry of `u` for its component, with its groups listed. */
  ghost predicate SettingsEntry(e: DynamicEntry, u: UserId, settings: map<ComponentName, DynamicSettings>) {
    e.user == u && e.component in settings && settings[e.component] == e.settings
    && ListsGroups(e.groups, e.settings.aidGroups)
  }

  /** The entries `es` adds to `es0` visit the entries of `settings` outside `pending`, once each. */
  ghost predicate UserSettingsVisited(es: seq<DynamicEntry>, es0: seq<DynamicEntry>, u: UserId,
                                      settings: map<ComponentName, DynamicSettings>, pending: set<ComponentName>) {
    && |es0| <= |es| && es[..|es0|] == es0
    && (forall i :: |es0| <= i < |es| ==> SettingsEntry(es[i], u, settings) && es[i].component !in pending)
    && (forall i, j :: |es0| <= i < j < |es| ==> es[i].component != es[j].component)
    && (forall c :: c in settings && c !in pending ==> exists i :: |es0| <= i < |es| && es[i].component == c)
  }

  lemma UserSettingsVisitStep(es: seq<DynamicEntry>, es0: seq<DynamicEntry>, u: UserId,
                              settings: map<ComponentName, DynamicSettings>, pending: set<ComponentName>, e: DynamicEntry)
    requires UserSettingsVisited(es, es0, u, settings, pending)
    requires e.component in pending && SettingsEntry(e, u, settings)
    ensures UserSettingsVisited(es + [e], es0, u, settings, pending - {e.component})
  {
    var es' := es + [e];
    assert es'[..|es0|] == es[..|es0|];
    assert forall i :: 0 <= i < |es| ==> es'[i] == es[i];
    assert es'[|es|] == e;
  }

  /** The attributes of a `service` element, as writeDynamicSettingsLocked sets them one by one. */
  method SettingsAttributes(p: Platform, c: ComponentName, ds: DynamicSettings) returns (attributes: map<string, string>)
    ensures attributes == DynamicAttributes(p, c, ds)
  {
    attributes := map["component" := p.flatten(c), "uid" := IntToString(ds.uid)];
    if ds.offHostSE.Some? {
      attributes := attributes["offHostSE" := ds.offHostSE.value];
    }
    if ds.shouldDefaultToObserveModeStr.Some? {
      attributes := attributes["shouldDefaultToObserveMode" := ds.shouldDefaultToObserveModeStr.value];
    }
  }

  /** One `service` element of dynamic_aids.xml: its attributes, its groups, its end tag. */
  method WriteSettingsElement(p: Platform, u: UserId, c: ComponentName, ds: DynamicSettings)
    returns (element: seq<XmlEvent>, ghost e: DynamicEntry)
    requires GroupsKeyed(ds.aidGroups)
    ensures e.user == u && e.component == c && e.settings == ds && ListsGroups(e.groups, ds.aidGroups)
    ensures element == DynamicElement(p, e)
  {
    var attributes := SettingsAttributes(p, c, ds);
    var groupEvents, listed := WriteGroups(ds.aidGroups);
    e := DynamicEntry(u, c, ds, listed);
    element := [StartTag("service", 2, attributes, None)] + groupEvents + [ServiceEnd];
  }

  /** The state of the inner loop: `out` holds the entries `es`, which visit `settings` outside `pending`. */
  ghost predicate UserSettingsWritten(p: Platform, out: Document, es: seq<DynamicEntry>, es0: seq<DynamicEntry>, u: UserId,
                                      settings: map<ComponentName, DynamicSettings>, pending: set<ComponentName>) {
    out == [ServicesStart] + DynamicBody(p, es) && UserSettingsVisited(es, es0, u, settings, pending)
  }

  lemma UserSettingsWriteStep(p: Platform, out: Document, es: seq<DynamicEntry>, es0: seq<DynamicEntry>, u: UserId,
                              settings: map<ComponentName, DynamicSettings>, pending: set<ComponentName>, e: DynamicEntry)
    requires UserSettingsWritten(p, out, es, es0, u, settings, pending)
    requires e.component in pending && SettingsEntry(e, u, settings)
    ensures UserSettingsWritten(p, out + DynamicElement(p, e), es + [e], es0, u, settings, pending - {e.component})
  {
    DynamicBodySnoc(p, es, e);
    UserSettingsVisitStep(es, es0, u, settings, pending, e);
  }

  /** The inner loop of writeDynamicSettingsLocked: the entries of one user, appended to `out`. */
  method WriteUserSettings(p: Platform, u: UserId, settings: map<ComponentName, DynamicSettings>,
                           out0: Document, ghost es0: seq<DynamicEntry>)
    returns (out: Document, ghost es: seq<DynamicEntry>)
    requires forall c :: c in settings ==> GroupsKeyed(settings[c].aidGroups)
    requires out0 == [ServicesStart] + DynamicBody(p, es0)
    ensures out == [ServicesStart] + DynamicBody(p, es)
    ensures UserSettingsVisited(es, es0, u, settings, {})
  {
    out := out0;
    es := es0;
    assert es0[..|es0|] == es0;
    var pending := settings.Keys;
    while pending != {}
      invariant pending <= settings.Keys
      invariant UserSettingsWritten(p, out, es, es0, u, settings, pending)
      decreases pending
    {
      var c :| c in pending;
      var element, e := WriteSettingsElement(p, u, c, settings[c]);
      UserSettingsWriteStep(p, out, es, es0, u, settings, pending, e);
      out := out + element;
      es := es + [e];
      pending := pending - {c};
    }
  }

  /** Every entry of `es` is the overlay entry of a user outside `pending`. */
  ghost predicate SettingsEntries(es: seq<DynamicEntry>, users: Users, pending: set<UserId>) {
    forall i :: 0 <= i < |es| ==>
      (es[i].user in users && es[i].user !in pending && SettingsEntry(es[i], es[i].user, DynView(users, es[i].user)))
  }

  /** No (user, component) pair is visited twice. */
  ghost predicate SettingsDistinct(es: seq<DynamicEntry>) {
    forall i, j :: 0 <= i < j < |es| ==> es[i].user != es[j].user || es[i].component != es[j].component
  }

  /** Every overlay entry of a user outside `pending` is visited. */
  ghost predicate SettingsCovered(es: seq<DynamicEntry>, users: Users, pending: set<UserId>) {
    forall u, c :: u in users && u !in pending && c in DynView(users, u) ==>
      exists i :: 0 <= i < |es| && es[i].user == u && es[i].component == c
  }

  /** `es` visits the overlay entries of the users outside `pending`, once each. */
  ghost predicate SettingsVisited(es: seq<DynamicEntry>, users: Users, pending: set<UserId>) {
    SettingsEntries(es, users, pending) && SettingsDistinct(es) && SettingsCovered(es, users, pending)
  }

  lemma SettingsEntriesStep(es0: seq<DynamicEntry>, es: seq<DynamicEntry>, users: Users, pending: set<UserId>, u: UserId)
    requires SettingsEntries(es0, users, pending)
    requires u in pending && u in users
    requires UserSettingsVisited(es, es0, u, DynView(users, u), {})
    ensures SettingsEntries(es, users, pending - {u})
  {
    forall i | 0 <= i < |es0|
      ensures es[i] == es0[i]
    {
      assert es[i] == es[..|es0|][i];
    }
  }

  lemma SettingsDistinctStep(es0: seq<DynamicEntry>, es: seq<DynamicEntry>, users: Users, pending: set<UserId>, u: UserId)
    requires SettingsEntries(es0, users, pending) && SettingsDistinct(es0)
    requires u in pending
    requires UserSettingsVisited(es, es0, u, DynView(users, u), {})
    ensures SettingsDistinct(es)
  {
    forall i, j | 0 <= i < j < |es|
      ensures es[i].user != es[j].user || es[i].component != es[j].component
    {
      if j < |es0| {
        assert es[i] == es[..|es0|][i] && es[j] == es[..|es0|][j];
      } else if i < |es0| {
        assert es[i] == es[..|es0|][i];
        assert es[i].user != u;
      }
    }
  }

  lemma SettingsCoveredStep(es0: seq<DynamicEntry>, es: seq<DynamicEntry>, users: Users, pending: set<UserId>, u: UserId)
    requires SettingsCovered(es0, users, pending)
    requires UserSettingsVisited(es, es0, u, DynView(users, u), {})
    ensures SettingsCovered(es, users, pending - {u})
  {
    forall u', c | u' in users && u' !in pending - {u} && c in DynView(users, u')
      ensures exists i :: 0 <= i < |es| && es[i].user == u' && es[i].component == c
    {
      if u' != u {
        var i :| 0 <= i < |es0| && es0[i].user == u' && es0[i].component == c;
        assert es[i] == es[..|es0|][i];
      } else {
        var i :| |es0| <= i < |es| && es[i].component == c;
        assert es[i].user == u';
      }
    }
  }

  lemma SettingsVisitStep(es0: seq<DynamicEntry>, es: seq<DynamicEntry>, users: Users, pending: set<UserId>, u: UserId)
    requires SettingsVisited(es0, users, pending)
    requires u in pending && u in users
    requires UserSettingsVisited(es, es0, u, DynView(users, u), {})
    ensures SettingsVisited(es, users, pending - {u})
  {
    SettingsEntriesStep(es0, es, users, pending, u);
    SettingsDistinctStep(es0, es, users, pending, u);
    SettingsCoveredStep(es0, es, users, pending, u);
  }

  lemma SettingsVisitedAll(es: seq<DynamicEntry>, users: Users)
    requires SettingsVisited(es, users, {})
    ensures EnumeratesDynamic(es, users)
  {
  }

  lemma PickUser(pending: set<UserId>)
    requires pending != {}
    ensures exists u :: u in pending
  {
    if forall u :: u !in pending {
      assert false;
    }
  }

  /** writeDynamicSettingsLocked's output: every overlay entry of every user, in the order visited. */
  method WriteDynamicEvents(p: Platform, users: Users) returns (out: Document)
    requires UsersWellFormed(users)
    ensures DescribesDynamic(p, out, users)
  {
    out := [ServicesStart];
    ghost var es: seq<DynamicEntry> := [];
    var pending := users.Keys;
    while pending != {}
      invariant pending <= users.Keys
      invariant out == [ServicesStart] + DynamicBody(p, es)
      invariant SettingsVisited(es, users, pending)
      decreases pending
    {
      PickUser(pending);
      var u :| u in pending;
      ghost var es0 := es;
      out, es := WriteUserSettings(p, u, users[u].dynamicSettings, out, es0);
      SettingsVisitStep(es0, es, users, pending, u);
      pending := pending - {u};
    }
    SettingsVisitedAll(es, users);
    assert out + [ServicesEnd] == DynamicDocument(p, es);
    out := out + [ServicesEnd];
  }

  // ===================== writing other_status.xml =====================

  lemma OthersBodySnoc(p: Platform, es: seq<OthersEntry>, e: OthersEntry)
    ensures OthersBody(p, es + [e]) == OthersBody(p, es) + OthersElement(p, e)
  {
    assert (es + [e])[..|es|] == es;
  }

  /** The duplicate check of writeOthersLocked: whether `c` is already in `written`. */
  method AlreadyWritten(written: seq<ComponentName>, c: ComponentName) returns (hasDupe: bool)
    ensures hasDupe <==> c in written
  {
    hasDupe := false;
    var j := 0;
    while j < |written| && !hasDupe
      invariant 0 <= j <= |written|
      invariant hasDupe ==> c in written
      invariant !hasDupe ==> forall j' :: 0 <= j' < j ==> written[j'] != c
    {
      if written[j] == c {
        hasDupe := true;
      }
      j := j + 1;
    }
  }

  /** The entries `es` adds to `es0` are statuses of `u`, each component once, all in `written`. */
  ghost predicate UserOthersVisited(es: seq<OthersEntry>, es0: seq<OthersEntry>, u: UserId,
                                    others: map<ComponentName, OtherServiceStatus>, written: seq<ComponentName>) {
    && |es0| <= |es| && es[..|es0|] == es0
    && (forall i :: |es0| <= i < |es| ==>
          es[i].user == u && es[i].component in others && others[es[i].component] == es[i].status
          && es[i].component in written)
    && (forall i, j :: |es0| <= i < j < |es| ==> es[i].component != es[j].component)
    && (forall n :: 0 <= n < |written| ==> exists i :: |es0| <= i < |es| && es[i].component == written[n])
  }

  lemma UserOthersVisitStep(es: seq<OthersEntry>, es0: seq<OthersEntry>, u: UserId,
                            others: map<ComponentName, OtherServiceStatus>, written: seq<ComponentName>, e: OthersEntry)
    requires UserOthersVisited(es, es0, u, others, written)
    requires e.component !in written
    requires e.user == u && e.component in others && others[e.component] == e.status
    ensures UserOthersVisited(es + [e], es0, u, others, written + [e.component])
  {
    var es' := es + [e];
    assert es'[..|es0|] == es[..|es0|];
    assert forall i :: 0 <= i < |es| ==> es'[i] == es[i];
    assert es'[|es|] == e;
    var w' := written + [e.component];
    forall n | 0 <= n < |w'|
      ensures exists i :: |es0| <= i < |es'| && es'[i].component == w'[n]
    {
      if n < |written| {
        var i :| |es0| <= i < |es| && es[i].component == written[n];
        assert es'[i] == es[i];
      } else {
        assert es'[|es|].component == w'[n];
      }
    }
  }

  /** The attributes of a `service` element, as writeOthersLocked sets them. */
  method StatusAttributes(p: Platform, c: ComponentName, status: OtherServiceStatus) returns (attributes: map<string, string>)
    ensures attributes == OthersAttributes(p, c, status)
  {
    attributes := map["component" := p.flatten(c), "uid" := IntToString(status.uid),
                      "checked" := BoolToString(status.checked)];
  }

  /** The state of the inner loop: `out` holds the entries `es`, one for each component of `written`. */
  ghost predicate UserOthersWritten(p: Platform, out: Document, es: seq<OthersEntry>, es0: seq<OthersEntry>, u: UserId,
                                    others: map<ComponentName, OtherServiceStatus>, written: seq<ComponentName>) {
    out == [ServicesStart] + OthersBody(p, es) && UserOthersVisited(es, es0, u, others, written)
  }

  lemma UserOthersWriteStep(p: Platform, out: Document, es: seq<OthersEntry>, es0: seq<OthersEntry>, u: UserId,
                            others: map<ComponentName, OtherServiceStatus>, written: seq<ComponentName>, e: OthersEntry)
    requires UserOthersWritten(p, out, es, es0, u, others, written)
    requires e.component !in written
    requires e.user == u && e.component in others && others[e.component] == e.status
    ensures UserOthersWritten(p, out + OthersElement(p, e), es + [e], es0, u, others, written + [e.component])
  {
    OthersBodySnoc(p, es, e);
    UserOthersVisitStep(es, es0, u, others, written, e);
  }

  /** The end of the inner loop: every status of `others` was written. */
  lemma UserOthersWrittenAll(es: seq<OthersEntry>, es0: seq<OthersEntry>, u: UserId,
                             others: map<ComponentName, OtherServiceStatus>, written: seq<ComponentName>)
    requires UserOthersVisited(es, es0, u, others, written)
    requires forall c :: c in others ==> c in written
    ensures forall c :: c in others ==> exists i :: |es0| <= i < |es| && es[i].component == c
  {
    forall c | c in others
      ensures exists i :: |es0| <= i < |es| && es[i].component == c
    {
      var n :| 0 <= n < |written| && written[n] == c;
    }
  }

  /**
   * The inner loop of writeOthersLocked: the statuses of one user, each component written
   * once (the list `currentService` of components already written guards against repeats).
   */
  method WriteUserOthers(p: Platform, u: UserId, others: map<ComponentName, OtherServiceStatus>,
                         out0: Document, ghost es0: seq<OthersEntry>)
    returns (out: Document, ghost es: seq<OthersEntry>)
    requires out0 == [ServicesStart] + OthersBody(p, es0)
    ensures out == [ServicesStart] + OthersBody(p, es)
    ensures |es0| <= |es| && es[..|es0|] == es0
    ensures forall i :: |es0| <= i < |es| ==>
      es[i].user == u && es[i].component in others && others[es[i].component] == es[i].status
    ensures forall i, j :: |es0| <= i < j < |es| ==> es[i].component != es[j].component
    ensures forall c :: c in others ==> exists i :: |es0| <= i < |es| && es[i].component == c
  {
    out := out0;
    es := es0;
    assert es0[..|es0|] == es0;
    var currentService: seq<ComponentName> := [];
    var pending := others.Keys;
    while pending != {}
      invariant pending <= others.Keys
      invariant UserOthersWritten(p, out, es, es0, u, others, currentService)
      invariant forall c :: c in others && c !in pending ==> c in currentService
      decreases pending
    {
      var c :| c in pending;
      var hasDupe := AlreadyWritten(currentService, c);
      if !hasDupe {
        var status := others[c];
        var attributes := StatusAttributes(p, c, status);
        ghost var e := OthersEntry(u, c, status);
        UserOthersWriteStep(p, out, es, es0, u, others, currentService, e);
        out := out + [StartTag("service", 2, attributes, None), ServiceEnd];
        es := es + [e];
        currentService := currentService + [c];
      }
      pending := pending - {c};
    }
    UserOthersWrittenAll(es, es0, u, others, currentService);
  }

  /** `es` visits the statuses of the users outside `pending`, once each. */
  ghost predicate OthersVisited(es: seq<OthersEntry>, users: Users, pending: set<UserId>) {
    && (forall i :: 0 <= i < |es| ==>
          (es[i].user in users && es[i].user !in pending && es[i].component in OthersView(users, es[i].user)
           && OthersView(users, es[i].user)[es[i].component] == es[i].status))
    && (forall i, j :: 0 <= i < j < |es| ==> es[i].user != es[j].user || es[i].component != es[j].component)
    && (forall u, c :: u in users && u !in pending && c in OthersView(users, u) ==>
          exists i :: 0 <= i < |es| && es[i].user == u && es[i].component == c)
  }

  lemma OthersVisitStep(es0: seq<OthersEntry>, es: seq<OthersEntry>, users: Users, pending: set<UserId>, u: UserId)
    requires OthersVisited(es0, users, pending)
    requires u in pending && u in users
    requires |es0| <= |es| && es[..|es0|] == es0
    requires forall i :: |es0| <= i < |es| ==>
      es[i].user == u && es[i].component in OthersView(users, u) && OthersView(users, u)[es[i].component] == es[i].status
    requires forall i, j :: |es0| <= i < j < |es| ==> es[i].component != es[j].component
    requires forall c :: c in OthersView(users, u) ==> exists i :: |es0| <= i < |es| && es[i].component == c
    ensures OthersVisited(es, users, pending - {u})
  {
    assert forall i :: 0 <= i < |es0| ==> es[i] == es[..|es0|][i];
    forall u', c | u' in users && u' !in pending - {u} && c in OthersView(users, u')
      ensures exists i :: 0 <= i < |es| && es[i].user == u' && es[i].component == c
    {
      if u' != u {
        var i :| 0 <= i < |es0| && es0[i].user == u' && es0[i].component == c;
        assert es[i] == es0[i];
      }
    }
  }

  /** writeOthersLocked's output: every status of every user, in the order visited. */
  method WriteOthersEvents(p: Platform, users: Users) returns (out: Document)
    ensures DescribesOthers(p, out, users)
  {
    out := [ServicesStart];
    ghost var es: seq<OthersEntry> := [];
    var pending := users.Keys;
    while pending != {}
      invariant pending <= users.Keys
      invariant out == [ServicesStart] + OthersBody(p, es)
      invariant OthersVisited(es, users, pending)
      decreases pending
    {
      PickUser(pending);
      var u :| u in pending;
      ghost var es0 := es;
      out, es := WriteUserOthers(p, u, users[u].others, out, es0);
      OthersVisitStep(es0, es, users, pending, u);
      pending := pending - {u};
    }
    assert EnumeratesOthers(es, users);
    assert out + [ServicesEnd] == OthersDocument(p, es);
    out := out + [ServicesEnd];
  }
}
