/**
 * The two persisted documents, dynamic_aids.xml and other_status.xml, as the XML
 * pull parser delivers them: a list of events. A document sits under a root
 * `services` element (depth 1) and holds one `service` element (depth 2) per entry;
 * a dynamic-settings entry nests its AID groups (depth 3).
 *
 * The readers are folds over the events with the state variables of
 * readDynamicSettingsLocked and readOthersLocked; the writers' output is described
 * by the documents they produce for an enumeration of the entries (the order in
 * which they visit the hash maps).
 */
module Documents {
  import opened Wrappers
  import opened JavaText
  import opened Records

  /**
   * One parser event. `group` is what AidGroup.createFromXml reads from the
   * subtree of an `aid-group` start tag (None when it returns null); the subtree
   * itself is opaque and has no events of its own here. `Malformed` is a point
   * where the parser throws.
   */
  datatype XmlEvent =
    | StartTag(name: string, depth: nat, attributes: map<string, string>, group: Option<AidGroup>)
    | EndTag(name: string)
    | Malformed

  type Document = seq<XmlEvent>

  /** parser.getAttributeValue(null, key) */
  function Attribute(attributes: map<string, string>, key: string): Option<string> {
    if key in attributes then Some(attributes[key]) else None
  }

  const ServicesStart: XmlEvent := StartTag("services", 1, map[], None)
  const ServicesEnd: XmlEvent := EndTag("services")
  const ServiceEnd: XmlEvent := EndTag("service")

  // ===================== dynamic_aids.xml: reading =====================

  /** The state variables of readDynamicSettingsLocked. */
  datatype DynamicReader = DynamicReader(
    inService: bool,
    component: Option<ComponentName>,
    uid: Uid,
    offHostSE: Option<string>,
    observeMode: Option<string>,
    groups: seq<AidGroup>)

  const DynamicReaderStart: DynamicReader := DynamicReader(false, None, -1, None, None, [])

  /** The reader's state, the user table it fills in, and whether the parser threw. */
  datatype DynamicRun = DynamicRun(reader: DynamicReader, users: Users, failed: bool)

  /** The reader between two `service` elements (the observe-mode string is never reset). */
  predicate DynamicIdle(r: DynamicReader) {
    !r.inService && r.component == None && r.uid == -1 && r.offHostSE == None && r.groups == []
  }

  /** The overlay's group map built from the groups read, later groups replacing earlier ones. */
  function GroupsByCategory(groups: seq<AidGroup>): (m: map<string, AidGroup>)
    ensures GroupsKeyed(m)
    ensures forall k :: k in m <==> exists i :: 0 <= i < |groups| && groups[i].category == k
    ensures forall k :: k in m ==> exists i :: 0 <= i < |groups| && groups[i] == m[k]
  {
    if groups == [] then map[]
    else
      var last := groups[|groups| - 1];
      var m := GroupsByCategory(groups[..|groups| - 1]);
      assert forall i :: 0 <= i < |groups| - 1 ==> groups[..|groups| - 1][i] == groups[i];
      m[last.category := last]
  }

  /** The put order decides: the last group of each category is the one filed under it. */
  lemma {:induction false} GroupsByCategoryLast(groups: seq<AidGroup>, i: nat)
    requires i < |groups|
    requires forall j :: i < j < |groups| ==> groups[j].category != groups[i].category
    ensures GroupsByCategory(groups)[groups[i].category] == groups[i]
    decreases |groups|
  {
    if i < |groups| - 1 {
      var init := groups[..|groups| - 1];
      assert init[i] == groups[i];
      assert groups[|groups| - 1].category != groups[i].category;
      forall j | i < j < |init|
        ensures init[j].category != init[i].category
      {
        assert init[j] == groups[j];
      }
      GroupsByCategoryLast(init, i);
    }
  }

  /** findOrCreateUserLocked(userOf(ds.uid)).dynamicSettings.put(c, ds) */
  function FileDynamic(p: Platform, users: Users, c: ComponentName, ds: DynamicSettings): Users {
    var u := p.userOf(ds.uid);
    var reg := RegistryOf(users, u);
    users[u := reg.(dynamicSettings := reg.dynamicSettings[c := ds])]
  }

  /** Whether the reader keeps an entry it has read. */
  predicate KeptOnRead(ds: DynamicSettings) {
    ds.uid >= 0 && (ds.aidGroups != map[] || ds.offHostSE.Some?)
  }

  /** A `service` start tag at depth 2. */
  function DynamicServiceStart(p: Platform, r: DynamicReader, attributes: map<string, string>): DynamicReader {
    var observe := Attribute(attributes, "shouldDefaultToObserveMode");
    var comp := Attribute(attributes, "component");
    var uidText := Attribute(attributes, "uid");
    if comp.None? || uidText.None? then r.(observeMode := observe)
    else
      match ParseInt(uidText.value)
      case None => r.(observeMode := observe)
      case Some(uid) =>
        r.(observeMode := observe, uid := uid, component := p.unflatten(comp.value),
           offHostSE := Attribute(attributes, "offHostSE"), inService := true)
  }

  /** One turn of the reader's loop. */
  function DynamicStep(p: Platform, run: DynamicRun, e: XmlEvent): DynamicRun {
    if run.failed then run
    else
      match e
      case Malformed => run.(failed := true)
      case StartTag(name, depth, attributes, group) =>
        var r1 := if name == "service" && depth == 2 then DynamicServiceStart(p, run.reader, attributes) else run.reader;
        var r2 := if name == "aid-group" && depth == 3 && r1.inService && group.Some?
                  then r1.(groups := r1.groups + [group.value]) else r1;
        run.(reader := r2)
      case EndTag(name) =>
        if name != "service" then run
        else
          var r := run.reader;
          var users :=
            if r.component.Some? && r.uid >= 0 && (|r.groups| > 0 || r.offHostSE.Some?)
            then FileDynamic(p, run.users, r.component.value,
                             DynamicSettings(r.uid, GroupsByCategory(r.groups), r.offHostSE, r.observeMode))
            else run.users;
          DynamicRun(r.(uid := -1, component := None, groups := [], inService := false, offHostSE := None), users, false)
  }

  function DynamicFold(p: Platform, run: DynamicRun, events: seq<XmlEvent>): DynamicRun
    decreases |events|
  {
    if events == [] || run.failed then run
    else DynamicFold(p, DynamicStep(p, run, events[0]), events[1..])
  }

  /**
   * Parsing an existing dynamic_aids.xml into `users`: skip to the first start
   * tag; read on only when it is `services`.
   */
  function ReadDynamic(p: Platform, users: Users, doc: Document): DynamicRun {
    if doc == [] then DynamicRun(DynamicReaderStart, users, false)
    else
      match doc[0]
      case Malformed => DynamicRun(DynamicReaderStart, users, true)
      case EndTag(_) => ReadDynamic(p, users, doc[1..])
      case StartTag(name, _, _, _) =>
        if name == "services" then DynamicFold(p, DynamicRun(DynamicReaderStart, users, false), doc)
        else DynamicRun(DynamicReaderStart, users, false)
  }

  // ===================== dynamic_aids.xml: writing =====================

  /** The attributes writeDynamicSettingsLocked gives a `service` element. */
  function DynamicAttributes(p: Platform, c: ComponentName, ds: DynamicSettings): map<string, string> {
    var base := map["component" := p.flatten(c), "uid" := IntToString(ds.uid)];
    var withSE := if ds.offHostSE.Some? then base["offHostSE" := ds.offHostSE.value] else base;
    if ds.shouldDefaultToObserveModeStr.Some?
    then withSE["shouldDefaultToObserveMode" := ds.shouldDefaultToObserveModeStr.value]
    else withSE
  }

  /** What AidGroup.writeAsXml writes for a group. */
  function GroupElement(g: AidGroup): XmlEvent {
    StartTag("aid-group", 3, map[], Some(g))
  }

  function GroupElements(gs: seq<AidGroup>): seq<XmlEvent> {
    if gs == [] then [] else GroupElements(gs[..|gs| - 1]) + [GroupElement(gs[|gs| - 1])]
  }

  /** One overlay entry as the writer visits it, with its groups in the order visited. */
  datatype DynamicEntry = DynamicEntry(user: UserId, component: ComponentName, settings: DynamicSettings, groups: seq<AidGroup>)

  function DynamicElement(p: Platform, e: DynamicEntry): seq<XmlEvent> {
    [StartTag("service", 2, DynamicAttributes(p, e.component, e.settings), None)]
    + GroupElements(e.groups) + [ServiceEnd]
  }

  function DynamicBody(p: Platform, es: seq<DynamicEntry>): seq<XmlEvent> {
    if es == [] then [] else DynamicBody(p, es[..|es| - 1]) + DynamicElement(p, es[|es| - 1])
  }

  function DynamicDocument(p: Platform, es: seq<DynamicEntry>): Document {
    [ServicesStart] + DynamicBody(p, es) + [ServicesEnd]
  }

  /** `gs` lists the groups of `m`, each under its category. */
  ghost predicate ListsGroups(gs: seq<AidGroup>, m: map<string, AidGroup>) {
    && (forall i :: 0 <= i < |gs| ==> gs[i].category in m && m[gs[i].category] == gs[i])
    && (forall k :: k in m ==> exists i :: 0 <= i < |gs| && gs[i].category == k)
  }

  /** `es` visits every overlay entry of every user exactly once. */
  ghost predicate EnumeratesDynamic(es: seq<DynamicEntry>, users: Users) {
    && (forall i :: 0 <= i < |es| ==>
          && es[i].component in DynView(users, es[i].user)
          && DynView(users, es[i].user)[es[i].component] == es[i].settings
          && ListsGroups(es[i].groups, es[i].settings.aidGroups))
    && (forall i, j :: 0 <= i < j < |es| ==> es[i].user != es[j].user || es[i].component != es[j].component)
    && (forall u, c :: c in DynView(users, u) ==>
          exists i :: 0 <= i < |es| && es[i].user == u && es[i].component == c)
  }

  /** `doc` is what writeDynamicSettingsLocked writes for `users`, in some visiting order. */
  ghost predicate DescribesDynamic(p: Platform, doc: Document, users: Users) {
    exists es :: EnumeratesDynamic(es, users) && doc == DynamicDocument(p, es)
  }

  /** Every overlay entry is filed under the user its uid belongs to. */
  ghost predicate DynamicFiled(p: Platform, users: Users) {
    forall u, c :: c in DynView(users, u) ==> p.userOf(DynView(users, u)[c].uid) == u
  }

  /** The entries of an overlay map that the reader keeps. */
  function KeptSettings(m: map<ComponentName, DynamicSettings>): map<ComponentName, DynamicSettings> {
    map c | c in m && KeptOnRead(m[c]) :: m[c]
  }

  /** The user table after reading the entries `es` in order. */
  function PlaceDynamic(p: Platform, users: Users, es: seq<DynamicEntry>): Users {
    if es == [] then users
    else
      var before := PlaceDynamic(p, users, es[..|es| - 1]);
      var e := es[|es| - 1];
      if KeptOnRead(e.settings) then FileDynamic(p, before, e.component, e.settings) else before
  }

  /** The kept entries of user `u` among `es`, later ones replacing earlier ones. */
  function KeptEntriesFor(es: seq<DynamicEntry>, u: UserId): map<ComponentName, DynamicSettings> {
    if es == [] then map[]
    else
      var m := KeptEntriesFor(es[..|es| - 1], u);
      var e := es[|es| - 1];
      if e.user == u && KeptOnRead(e.settings) then m[e.component := e.settings] else m
  }

  // ===================== dynamic_aids.xml: lemmas =====================

  lemma {:induction false} DynamicFoldAppend(p: Platform, run: DynamicRun, a: seq<XmlEvent>, b: seq<XmlEvent>)
    ensures DynamicFold(p, run, a + b) == DynamicFold(p, DynamicFold(p, run, a), b)
    decreases |a|
  {
    if a == [] {
      assert a + b == b;
    } else if !run.failed {
      assert (a + b)[0] == a[0];
      assert (a + b)[1..] == a[1..] + b;
      DynamicFoldAppend(p, DynamicStep(p, run, a[0]), a[1..], b);
    }
  }

  lemma DynamicFoldOne(p: Platform, run: DynamicRun, e: XmlEvent)
    ensures DynamicFold(p, run, [e]) == DynamicStep(p, run, e)
  {
    if !run.failed {
      assert [e][1..] == [];
    }
  }

  /** Inside a `service` element, the AID groups written are collected in order. */
  lemma {:induction false} GroupElementsRead(p: Platform, run: DynamicRun, gs: seq<AidGroup>)
    requires !run.failed && run.reader.inService
    ensures DynamicFold(p, run, GroupElements(gs)) == run.(reader := run.reader.(groups := run.reader.groups + gs))
    decreases |gs|
  {
    if gs == [] {
      assert run.reader.groups + gs == run.reader.groups;
    } else {
      var init := gs[..|gs| - 1];
      var g := gs[|gs| - 1];
      DynamicFoldAppend(p, run, GroupElements(init), [GroupElement(g)]);
      GroupElementsRead(p, run, init);
      var mid := run.(reader := run.reader.(groups := run.reader.groups + init));
      DynamicFoldOne(p, mid, GroupElement(g));
      assert run.reader.groups + init + [g] == run.reader.groups + gs;
    }
  }

  /** Reading back the groups of a listing rebuilds the group map. */
  lemma GroupsByCategoryOfListing(gs: seq<AidGroup>, m: map<string, AidGroup>)
    requires ListsGroups(gs, m)
    ensures GroupsByCategory(gs) == m
  {
    var r := GroupsByCategory(gs);
    forall k | k in r
      ensures k in m && r[k] == m[k]
    {
      var i :| 0 <= i < |gs| && gs[i] == r[k];
    }
    forall k | k in m
      ensures k in r
    {
      var i :| 0 <= i < |gs| && gs[i].category == k;
    }
  }

  lemma DynamicAttributesRead(p: Platform, c: ComponentName, ds: DynamicSettings)
    ensures Attribute(DynamicAttributes(p, c, ds), "component") == Some(p.flatten(c))
    ensures Attribute(DynamicAttributes(p, c, ds), "uid") == Some(IntToString(ds.uid))
    ensures Attribute(DynamicAttributes(p, c, ds), "offHostSE") == ds.offHostSE
    ensures Attribute(DynamicAttributes(p, c, ds), "shouldDefaultToObserveMode") == ds.shouldDefaultToObserveModeStr
  {
    assert "offHostSE"[0] != "component"[0] && "offHostSE"[0] != "uid"[0];
    assert "shouldDefaultToObserveMode"[0] != "component"[0];
    assert "shouldDefaultToObserveMode"[0] != "uid"[0];
    assert "shouldDefaultToObserveMode"[0] != "offHostSE"[0];
  }

  /** The start tag of a written `service` element opens the entry it was written from. */
  lemma DynamicServiceStartRead(p: Platform, r: DynamicReader, c: ComponentName, ds: DynamicSettings)
    requires DynamicIdle(r)
    requires p.unflatten(p.flatten(c)) == Some(c)
    ensures DynamicServiceStart(p, r, DynamicAttributes(p, c, ds)) ==
      DynamicReader(true, Some(c), ds.uid, ds.offHostSE, ds.shouldDefaultToObserveModeStr, [])
  {
    DynamicAttributesRead(p, c, ds);
    ParseIntOfIntToString(ds.uid);
  }

  /** The end tag of a `service` element files the entry collected, when it is kept. */
  lemma DynamicServiceEndRead(p: Platform, run: DynamicRun, c: ComponentName, ds: DynamicSettings, gs: seq<AidGroup>)
    requires !run.failed
    requires run.reader == DynamicReader(true, Some(c), ds.uid, ds.offHostSE, ds.shouldDefaultToObserveModeStr, gs)
    requires ListsGroups(gs, ds.aidGroups)
    ensures DynamicStep(p, run, ServiceEnd) ==
      DynamicRun(DynamicReaderStart.(observeMode := ds.shouldDefaultToObserveModeStr),
                 if KeptOnRead(ds) then FileDynamic(p, run.users, c, ds) else run.users,
                 false)
  {
    GroupsByCategoryOfListing(gs, ds.aidGroups);
    assert |gs| > 0 <==> ds.aidGroups != map[] by {
      if |gs| > 0 {
        assert gs[0].category in ds.aidGroups;
      }
      if ds.aidGroups != map[] {
        var k :| k in ds.aidGroups;
      }
    }
  }

  /** One written `service` element is read back as the entry it was written from (when kept). */
  lemma DynamicElementRead(p: Platform, run: DynamicRun, e: DynamicEntry)
    requires !run.failed && DynamicIdle(run.reader)
    requires p.unflatten(p.flatten(e.component)) == Some(e.component)
    requires ListsGroups(e.groups, e.settings.aidGroups)
    ensures DynamicFold(p, run, DynamicElement(p, e)) ==
      DynamicRun(DynamicReaderStart.(observeMode := e.settings.shouldDefaultToObserveModeStr),
                 if KeptOnRead(e.settings) then FileDynamic(p, run.users, e.component, e.settings) else run.users,
                 false)
  {
    var ds := e.settings;
    var start := StartTag("service", 2, DynamicAttributes(p, e.component, ds), None);
    assert DynamicElement(p, e) == [start] + GroupElements(e.groups) + [ServiceEnd];
    DynamicFoldAppend(p, run, [start] + GroupElements(e.groups), [ServiceEnd]);
    DynamicFoldAppend(p, run, [start], GroupElements(e.groups));
    DynamicFoldOne(p, run, start);
    DynamicServiceStartRead(p, run.reader, e.component, ds);
    var run1 := run.(reader := DynamicReader(true, Some(e.component), ds.uid, ds.offHostSE, ds.shouldDefaultToObserveModeStr, []));
    assert DynamicStep(p, run, start) == run1;
    GroupElementsRead(p, run1, e.groups);
    assert [] + e.groups == e.groups;
    var run2 := run1.(reader := run1.reader.(groups := e.groups));
    DynamicFoldOne(p, run2, ServiceEnd);
    DynamicServiceEndRead(p, run2, e.component, ds, e.groups);
  }

  /** The elements of an enumeration are read back one after the other. */
  lemma {:induction false} DynamicBodyRead(p: Platform, run: DynamicRun, es: seq<DynamicEntry>)
    requires !run.failed && DynamicIdle(run.reader)
    requires forall i :: 0 <= i < |es| ==> p.unflatten(p.flatten(es[i].component)) == Some(es[i].component)
    requires forall i :: 0 <= i < |es| ==> ListsGroups(es[i].groups, es[i].settings.aidGroups)
    ensures !DynamicFold(p, run, DynamicBody(p, es)).failed
    ensures DynamicIdle(DynamicFold(p, run, DynamicBody(p, es)).reader)
    ensures DynamicFold(p, run, DynamicBody(p, es)).users == PlaceDynamic(p, run.users, es)
    decreases |es|
  {
    if es != [] {
      var init := es[..|es| - 1];
      var e := es[|es| - 1];
      DynamicFoldAppend(p, run, DynamicBody(p, init), DynamicElement(p, e));
      DynamicBodyRead(p, run, init);
      DynamicElementRead(p, DynamicFold(p, run, DynamicBody(p, init)), e);
    }
  }

  /** Where the kept entries among `es` go, when no two of them name the same (user, component). */
  lemma {:induction false} KeptEntriesForLookup(es: seq<DynamicEntry>, u: UserId)
    requires forall i, j :: 0 <= i < j < |es| ==> es[i].user != es[j].user || es[i].component != es[j].component
    ensures forall c :: c in KeptEntriesFor(es, u) <==>
      exists i :: 0 <= i < |es| && es[i].user == u && es[i].component == c && KeptOnRead(es[i].settings)
    ensures forall i :: 0 <= i < |es| && es[i].user == u && KeptOnRead(es[i].settings) ==>
      KeptEntriesFor(es, u)[es[i].component] == es[i].settings
    decreases |es|
  {
    if es != [] {
      var init := es[..|es| - 1];
      assert forall i :: 0 <= i < |init| ==> init[i] == es[i];
      KeptEntriesForLookup(init, u);
    }
  }

  /** Every kept entry read back for `u` is a kept overlay entry of `u`. */
  lemma KeptEntriesWithin(es: seq<DynamicEntry>, users: Users, u: UserId, c: ComponentName)
    requires EnumeratesDynamic(es, users)
    requires c in KeptEntriesFor(es, u)
    ensures c in KeptSettings(DynView(users, u)) && KeptEntriesFor(es, u)[c] == KeptSettings(DynView(users, u))[c]
  {
    KeptEntriesForLookup(es, u);
    var i :| 0 <= i < |es| && es[i].user == u && es[i].component == c && KeptOnRead(es[i].settings);
    assert DynView(users, u)[c] == es[i].settings;
  }

  /** Every kept overlay entry of `u` is read back. */
  lemma KeptEntriesCover(es: seq<DynamicEntry>, users: Users, u: UserId, c: ComponentName)
    requires EnumeratesDynamic(es, users)
    requires c in KeptSettings(DynView(users, u))
    ensures c in KeptEntriesFor(es, u)
  {
    KeptEntriesForLookup(es, u);
    var i :| 0 <= i < |es| && es[i].user == u && es[i].component == c;
    assert es[i].settings == DynView(users, u)[c];
  }

  /** Reading an enumeration of `users` yields exactly the kept entries of each user. */
  lemma KeptEntriesOfEnumeration(es: seq<DynamicEntry>, users: Users, u: UserId)
    requires EnumeratesDynamic(es, users)
    ensures KeptEntriesFor(es, u) == KeptSettings(DynView(users, u))
  {
    var a := KeptEntriesFor(es, u);
    var b := KeptSettings(DynView(users, u));
    forall c | c in a
      ensures c in b && a[c] == b[c]
    {
      KeptEntriesWithin(es, users, u, c);
    }
    forall c | c in b
      ensures c in a
    {
      KeptEntriesCover(es, users, u, c);
    }
  }

  /** Placing entries filed under their own users adds them to those users' overlays and touches nothing else. */
  lemma {:induction false} PlaceDynamicView(p: Platform, users: Users, es: seq<DynamicEntry>)
    requires forall i :: 0 <= i < |es| ==> p.userOf(es[i].settings.uid) == es[i].user
    ensures forall u :: DynView(PlaceDynamic(p, users, es), u) == DynView(users, u) + KeptEntriesFor(es, u)
    ensures forall u :: RegistryOf(PlaceDynamic(p, users, es), u).services == RegistryOf(users, u).services
    ensures forall u :: OthersView(PlaceDynamic(p, users, es), u) == OthersView(users, u)
    decreases |es|
  {
    if es != [] {
      var init := es[..|es| - 1];
      assert forall i :: 0 <= i < |init| ==> init[i] == es[i];
      PlaceDynamicView(p, users, init);
    }
  }

  /**
   * Round trip: reading what writeDynamicSettingsLocked wrote adds to each user
   * exactly the entries of that user the reader keeps (uid >= 0 and at least one
   * AID group or a secure element), and changes no service records or statuses.
   */
  lemma DynamicRoundTrip(p: Platform, doc: Document, written: Users, users: Users)
    requires NamesRoundTrip(p)
    requires DescribesDynamic(p, doc, written)
    requires DynamicFiled(p, written)
    ensures !ReadDynamic(p, users, doc).failed
    ensures forall u :: DynView(ReadDynamic(p, users, doc).users, u) == DynView(users, u) + KeptSettings(DynView(written, u))
    ensures forall u :: RegistryOf(ReadDynamic(p, users, doc).users, u).services == RegistryOf(users, u).services
    ensures forall u :: OthersView(ReadDynamic(p, users, doc).users, u) == OthersView(users, u)
  {
    var es: seq<DynamicEntry> :| EnumeratesDynamic(es, written) && doc == DynamicDocument(p, es);
    var run0 := DynamicRun(DynamicReaderStart, users, false);
    assert doc[0] == ServicesStart;
    assert ReadDynamic(p, users, doc) == DynamicFold(p, run0, doc);
    DynamicFoldAppend(p, run0, [ServicesStart] + DynamicBody(p, es), [ServicesEnd]);
    DynamicFoldAppend(p, run0, [ServicesStart], DynamicBody(p, es));
    DynamicFoldOne(p, run0, ServicesStart);
    DynamicBodyRead(p, run0, es);
    var run1 := DynamicFold(p, run0, DynamicBody(p, es));
    DynamicFoldOne(p, run1, ServicesEnd);
    assert forall i :: 0 <= i < |es| ==> p.userOf(es[i].settings.uid) == es[i].user;
    PlaceDynamicView(p, users, es);
    forall u
      ensures KeptEntriesFor(es, u) == KeptSettings(DynView(written, u))
    {
      KeptEntriesOfEnumeration(es, written, u);
    }
  }

  /** What a read may change in the user table: it only files kept overlay entries under their own users. */
  ghost predicate DynamicGrowth(p: Platform, before: Users, after: Users) {
    && (forall u :: RegistryOf(after, u).services == RegistryOf(before, u).services)
    && (forall u :: OthersView(after, u) == OthersView(before, u))
    && (forall u, c :: c in DynView(before, u) ==> c in DynView(after, u))
    && (forall u, c :: c in DynView(after, u) ==>
          (c in DynView(before, u) && DynView(after, u)[c] == DynView(before, u)[c])
          || (KeptOnRead(DynView(after, u)[c]) && p.userOf(DynView(after, u)[c].uid) == u
              && GroupsKeyed(DynView(after, u)[c].aidGroups)))
  }

  lemma FileDynamicGrowth(p: Platform, before: Users, users: Users, c: ComponentName, ds: DynamicSettings)
    requires DynamicGrowth(p, before, users)
    requires KeptOnRead(ds) && GroupsKeyed(ds.aidGroups)
    ensures DynamicGrowth(p, before, FileDynamic(p, users, c, ds))
  {
    var after := FileDynamic(p, users, c, ds);
    var w := p.userOf(ds.uid);
    forall u, d | d in DynView(after, u)
      ensures (d in DynView(before, u) && DynView(after, u)[d] == DynView(before, u)[d])
              || (KeptOnRead(DynView(after, u)[d]) && p.userOf(DynView(after, u)[d].uid) == u
                  && GroupsKeyed(DynView(after, u)[d].aidGroups))
    {
      if u != w || d != c {
        assert DynView(after, u)[d] == DynView(users, u)[d];
      }
    }
  }

  lemma DynamicStepGrowth(p: Platform, before: Users, run: DynamicRun, e: XmlEvent)
    requires DynamicGrowth(p, before, run.users)
    ensures DynamicGrowth(p, before, DynamicStep(p, run, e).users)
  {
    if !run.failed && e == ServiceEnd {
      var r := run.reader;
      if r.component.Some? && r.uid >= 0 && (|r.groups| > 0 || r.offHostSE.Some?) {
        var ds := DynamicSettings(r.uid, GroupsByCategory(r.groups), r.offHostSE, r.observeMode);
        if |r.groups| > 0 {
          assert r.groups[0].category in ds.aidGroups;
        }
        FileDynamicGrowth(p, before, run.users, r.component.value, ds);
      }
    } else if !run.failed && !e.EndTag? {
      assert DynamicStep(p, run, e).users == run.users;
    }
  }

  lemma {:induction false} DynamicFoldGrowth(p: Platform, before: Users, run: DynamicRun, events: seq<XmlEvent>)
    requires DynamicGrowth(p, before, run.users)
    ensures DynamicGrowth(p, before, DynamicFold(p, run, events).users)
    decreases |events|
  {
    if events != [] && !run.failed {
      DynamicStepGrowth(p, before, run, events[0]);
      DynamicFoldGrowth(p, before, DynamicStep(p, run, events[0]), events[1..]);
    }
  }

  /**
   * Whatever the document holds, reading it only adds overlay entries with a
   * non-negative uid and at least one AID group or a secure element, each filed
   * under the user its uid belongs to and with its groups filed by category;
   * records and statuses are untouched.
   */
  lemma {:induction false} ReadDynamicKeepsOnlyValid(p: Platform, users: Users, doc: Document)
    ensures DynamicGrowth(p, users, ReadDynamic(p, users, doc).users)
    decreases |doc|
  {
    if doc != [] {
      match doc[0]
      case Malformed =>
      case EndTag(_) =>
        ReadDynamicKeepsOnlyValid(p, users, doc[1..]);
      case StartTag(name, _, _, _) =>
        if name == "services" {
          DynamicFoldGrowth(p, users, DynamicRun(DynamicReaderStart, users, false), doc);
        }
    }
  }

  lemma {:induction false} DynamicFoldFailure(p: Platform, run: DynamicRun, events: seq<XmlEvent>)
    ensures !run.failed && Malformed !in events ==> !DynamicFold(p, run, events).failed
    ensures Malformed in events ==> DynamicFold(p, run, events).failed
    decreases |events|
  {
    if events != [] && !run.failed {
      assert Malformed in events <==> events[0] == Malformed || Malformed in events[1..];
      DynamicFoldFailure(p, DynamicStep(p, run, events[0]), events[1..]);
    }
  }

  /**
   * The parser throws exactly at a malformed point: a document without one never
   * fails, and a `services` document with one always does.
   */
  lemma {:induction false} ReadDynamicFailure(p: Platform, users: Users, doc: Document)
    ensures Malformed !in doc ==> !ReadDynamic(p, users, doc).failed
    ensures |doc| > 0 && doc[0].StartTag? && doc[0].name == "services" && Malformed in doc ==>
      ReadDynamic(p, users, doc).failed
    decreases |doc|
  {
    if doc != [] {
      match doc[0]
      case Malformed =>
      case EndTag(_) =>
        assert Malformed in doc[1..] ==> Malformed in doc;
        ReadDynamicFailure(p, users, doc[1..]);
      case StartTag(name, _, _, _) =>
        DynamicFoldFailure(p, DynamicRun(DynamicReaderStart, users, false), doc);
    }
  }

  /**
   * A document that turns malformed after some complete entries fails, yet the
   * entries read before the malformed point stay in the user table.
   */
  lemma DynamicCorruptTail(p: Platform, users: Users, es: seq<DynamicEntry>, rest: seq<XmlEvent>)
    requires forall i :: 0 <= i < |es| ==> p.unflatten(p.flatten(es[i].component)) == Some(es[i].component)
    requires forall i :: 0 <= i < |es| ==> ListsGroups(es[i].groups, es[i].settings.aidGroups)
    ensures ReadDynamic(p, users, [ServicesStart] + DynamicBody(p, es) + [Malformed] + rest).failed
    ensures ReadDynamic(p, users, [ServicesStart] + DynamicBody(p, es) + [Malformed] + rest).users ==
      PlaceDynamic(p, users, es)
  {
    var doc := [ServicesStart] + DynamicBody(p, es) + [Malformed] + rest;
    var run0 := DynamicRun(DynamicReaderStart, users, false);
    assert doc[0] == ServicesStart;
    assert doc == [ServicesStart] + DynamicBody(p, es) + ([Malformed] + rest);
    DynamicFoldAppend(p, run0, [ServicesStart] + DynamicBody(p, es), [Malformed] + rest);
    DynamicFoldAppend(p, run0, [ServicesStart], DynamicBody(p, es));
    DynamicFoldOne(p, run0, ServicesStart);
    DynamicBodyRead(p, run0, es);
    var run1 := DynamicFold(p, run0, DynamicBody(p, es));
    assert ([Malformed] + rest)[0] == Malformed;
    assert ([Malformed] + rest)[1..] == rest;
  }

  // ===================== other_status.xml: reading =====================

  /** The state variables of readOthersLocked. */
  datatype OthersReader = OthersReader(checked: bool, component: Option<ComponentName>, uid: Uid)

  const OthersReaderStart: OthersReader := OthersReader(false, None, -1)

  datatype OthersRun = OthersRun(reader: OthersReader, users: Users, failed: bool)

  /** findOrCreateUserLocked(userOf(st.uid)).others.put(c, st) */
  function FileOther(p: Platform, users: Users, c: ComponentName, st: OtherServiceStatus): Users {
    var u := p.userOf(st.uid);
    var reg := RegistryOf(users, u);
    users[u := reg.(others := reg.others[c := st])]
  }

  /** A `service` start tag at depth 2. */
  function OthersServiceStart(p: Platform, r: OthersReader, attributes: map<string, string>): OthersReader {
    var comp := Attribute(attributes, "component");
    var uidText := Attribute(attributes, "uid");
    var checked := Attribute(attributes, "checked");
    if comp.None? || uidText.None? || checked.None? then r
    else
      match ParseInt(uidText.value)
      case None => r
      case Some(uid) => OthersReader(checked.value == "true", p.unflatten(comp.value), uid)
  }

  function OthersStep(p: Platform, run: OthersRun, e: XmlEvent): OthersRun {
    if run.failed then run
    else
      match e
      case Malformed => run.(failed := true)
      case StartTag(name, depth, attributes, _) =>
        if name == "service" && depth == 2 then run.(reader := OthersServiceStart(p, run.reader, attributes)) else run
      case EndTag(name) =>
        if name != "service" then run
        else
          var r := run.reader;
          var users :=
            if r.component.Some? && r.uid >= 0
            then FileOther(p, run.users, r.component.value, OtherServiceStatus(r.uid, r.checked))
            else run.users;
          OthersRun(OthersReaderStart, users, false)
  }

  function OthersFold(p: Platform, run: OthersRun, events: seq<XmlEvent>): OthersRun
    decreases |events|
  {
    if events == [] || run.failed then run
    else OthersFold(p, OthersStep(p, run, events[0]), events[1..])
  }

  /** Parsing an existing other_status.xml into `users`. */
  function ReadOthers(p: Platform, users: Users, doc: Document): OthersRun {
    if doc == [] then OthersRun(OthersReaderStart, users, false)
    else
      match doc[0]
      case Malformed => OthersRun(OthersReaderStart, users, true)
      case EndTag(_) => ReadOthers(p, users, doc[1..])
      case StartTag(name, _, _, _) =>
        if name == "services" then OthersFold(p, OthersRun(OthersReaderStart, users, false), doc)
        else OthersRun(OthersReaderStart, users, false)
  }

  // ===================== other_status.xml: writing =====================

  /** The attributes writeOthersLocked gives a `service` element. */
  function OthersAttributes(p: Platform, c: ComponentName, st: OtherServiceStatus): map<string, string> {
    map["component" := p.flatten(c), "uid" := IntToString(st.uid), "checked" := BoolToString(st.checked)]
  }

  datatype OthersEntry = OthersEntry(user: UserId, component: ComponentName, status: OtherServiceStatus)

  function OthersElement(p: Platform, e: OthersEntry): seq<XmlEvent> {
    [StartTag("service", 2, OthersAttributes(p, e.component, e.status), None), ServiceEnd]
  }

  function OthersBody(p: Platform, es: seq<OthersEntry>): seq<XmlEvent> {
    if es == [] then [] else OthersBody(p, es[..|es| - 1]) + OthersElement(p, es[|es| - 1])
  }

  function OthersDocument(p: Platform, es: seq<OthersEntry>): Document {
    [ServicesStart] + OthersBody(p, es) + [ServicesEnd]
  }

  /** `es` visits every status of every user exactly once. */
  ghost predicate EnumeratesOthers(es: seq<OthersEntry>, users: Users) {
    && (forall i :: 0 <= i < |es| ==>
          es[i].component in OthersView(users, es[i].user)
          && OthersView(users, es[i].user)[es[i].component] == es[i].status)
    && (forall i, j :: 0 <= i < j < |es| ==> es[i].user != es[j].user || es[i].component != es[j].component)
    && (forall u, c :: c in OthersView(users, u) ==>
          exists i :: 0 <= i < |es| && es[i].user == u && es[i].component == c)
  }

  /** `doc` is what writeOthersLocked writes for `users`, in some visiting order. */
  ghost predicate DescribesOthers(p: Platform, doc: Document, users: Users) {
    exists es :: EnumeratesOthers(es, users) && doc == OthersDocument(p, es)
  }

  ghost predicate OthersFiled(p: Platform, users: Users) {
    forall u, c :: c in OthersView(users, u) ==> p.userOf(OthersView(users, u)[c].uid) == u
  }

  /** The statuses the reader keeps: those with a non-negative uid. */
  function KeptStatuses(m: map<ComponentName, OtherServiceStatus>): map<ComponentName, OtherServiceStatus> {
    map c | c in m && m[c].uid >= 0 :: m[c]
  }

  function PlaceOthers(p: Platform, users: Users, es: seq<OthersEntry>): Users {
    if es == [] then users
    else
      var before := PlaceOthers(p, users, es[..|es| - 1]);
      var e := es[|es| - 1];
      if e.status.uid >= 0 then FileOther(p, before, e.component, e.status) else before
  }

  function KeptStatusesFor(es: seq<OthersEntry>, u: UserId): map<ComponentName, OtherServiceStatus> {
    if es == [] then map[]
    else
      var m := KeptStatusesFor(es[..|es| - 1], u);
      var e := es[|es| - 1];
      if e.user == u && e.status.uid >= 0 then m[e.component := e.status] else m
  }

  // ===================== other_status.xml: lemmas =====================

  lemma {:induction false} OthersFoldAppend(p: Platform, run: OthersRun, a: seq<XmlEvent>, b: seq<XmlEvent>)
    ensures OthersFold(p, run, a + b) == OthersFold(p, OthersFold(p, run, a), b)
    decreases |a|
  {
    if a == [] {
      assert a + b == b;
    } else if !run.failed {
      assert (a + b)[0] == a[0];
      assert (a + b)[1..] == a[1..] + b;
      OthersFoldAppend(p, OthersStep(p, run, a[0]), a[1..], b);
    }
  }

  lemma OthersFoldOne(p: Platform, run: OthersRun, e: XmlEvent)
    ensures OthersFold(p, run, [e]) == OthersStep(p, run, e)
  {
    if !run.failed {
      assert [e][1..] == [];
    }
  }

  lemma OthersServiceStartRead(p: Platform, r: OthersReader, c: ComponentName, st: OtherServiceStatus)
    requires p.unflatten(p.flatten(c)) == Some(c)
    ensures OthersServiceStart(p, r, OthersAttributes(p, c, st)) == OthersReader(st.checked, Some(c), st.uid)
  {
    var attrs := OthersAttributes(p, c, st);
    assert "checked"[0] != "component"[1] && "checked"[1] != "component"[1] && "checked"[0] != "uid"[0];
    assert Attribute(attrs, "checked") == Some(BoolToString(st.checked));
    ParseIntOfIntToString(st.uid);
  }

  /** One written `service` element is read back as the status it was written from (when kept). */
  lemma OthersElementRead(p: Platform, run: OthersRun, e: OthersEntry)
    requires !run.failed && run.reader == OthersReaderStart
    requires p.unflatten(p.flatten(e.component)) == Some(e.component)
    ensures OthersFold(p, run, OthersElement(p, e)) ==
      OthersRun(OthersReaderStart,
                if e.status.uid >= 0 then FileOther(p, run.users, e.component, e.status) else run.users,
                false)
  {
    var start := StartTag("service", 2, OthersAttributes(p, e.component, e.status), None);
    assert OthersElement(p, e) == [start] + [ServiceEnd];
    OthersFoldAppend(p, run, [start], [ServiceEnd]);
    OthersFoldOne(p, run, start);
    OthersServiceStartRead(p, run.reader, e.component, e.status);
    var run1 := run.(reader := OthersReader(e.status.checked, Some(e.component), e.status.uid));
    OthersFoldOne(p, run1, ServiceEnd);
  }

  lemma {:induction false} OthersBodyRead(p: Platform, run: OthersRun, es: seq<OthersEntry>)
    requires !run.failed && run.reader == OthersReaderStart
    requires forall i :: 0 <= i < |es| ==> p.unflatten(p.flatten(es[i].component)) == Some(es[i].component)
    ensures OthersFold(p, run, OthersBody(p, es)) == OthersRun(OthersReaderStart, PlaceOthers(p, run.users, es), false)
    decreases |es|
  {
    if es != [] {
      var init := es[..|es| - 1];
      var e := es[|es| - 1];
      OthersFoldAppend(p, run, OthersBody(p, init), OthersElement(p, e));
      OthersBodyRead(p, run, init);
      OthersElementRead(p, OthersFold(p, run, OthersBody(p, init)), e);
    }
  }

  lemma {:induction false} KeptStatusesForLookup(es: seq<OthersEntry>, u: UserId)
    requires forall i, j :: 0 <= i < j < |es| ==> es[i].user != es[j].user || es[i].component != es[j].component
    ensures forall c :: c in KeptStatusesFor(es, u) <==>
      exists i :: 0 <= i < |es| && es[i].user == u && es[i].component == c && es[i].status.uid >= 0
    ensures forall i :: 0 <= i < |es| && es[i].user == u && es[i].status.uid >= 0 ==>
      KeptStatusesFor(es, u)[es[i].component] == es[i].status
    decreases |es|
  {
    if es != [] {
      var init := es[..|es| - 1];
      assert forall i :: 0 <= i < |init| ==> init[i] == es[i];
      KeptStatusesForLookup(init, u);
    }
  }

  lemma KeptStatusesOfEnumeration(es: seq<OthersEntry>, users: Users, u: UserId)
    requires EnumeratesOthers(es, users)
    ensures KeptStatusesFor(es, u) == KeptStatuses(OthersView(users, u))
  {
    KeptStatusesForLookup(es, u);
    var a := KeptStatusesFor(es, u);
    var b := KeptStatuses(OthersView(users, u));
    forall c | c in a
      ensures c in b && a[c] == b[c]
    {
      var i :| 0 <= i < |es| && es[i].user == u && es[i].component == c && es[i].status.uid >= 0;
    }
    forall c | c in b
      ensures c in a
    {
      var i :| 0 <= i < |es| && es[i].user == u && es[i].component == c;
    }
  }

  lemma {:induction false} PlaceOthersView(p: Platform, users: Users, es: seq<OthersEntry>)
    requires forall i :: 0 <= i < |es| ==> p.userOf(es[i].status.uid) == es[i].user
    ensures forall u :: OthersView(PlaceOthers(p, users, es), u) == OthersView(users, u) + KeptStatusesFor(es, u)
    ensures forall u :: RegistryOf(PlaceOthers(p, users, es), u).services == RegistryOf(users, u).services
    ensures forall u :: DynView(PlaceOthers(p, users, es), u) == DynView(users, u)
    decreases |es|
  {
    if es != [] {
      var init := es[..|es| - 1];
      assert forall i :: 0 <= i < |init| ==> init[i] == es[i];
      PlaceOthersView(p, users, init);
    }
  }

  /**
   * Round trip: reading what writeOthersLocked wrote adds to each user exactly the
   * statuses of that user with a non-negative uid, and nothing else changes.
   */
  lemma OthersRoundTrip(p: Platform, doc: Document, written: Users, users: Users)
    requires NamesRoundTrip(p)
    requires DescribesOthers(p, doc, written)
    requires OthersFiled(p, written)
    ensures !ReadOthers(p, users, doc).failed
    ensures forall u :: OthersView(ReadOthers(p, users, doc).users, u) == OthersView(users, u) + KeptStatuses(OthersView(written, u))
    ensures forall u :: RegistryOf(ReadOthers(p, users, doc).users, u).services == RegistryOf(users, u).services
    ensures forall u :: DynView(ReadOthers(p, users, doc).users, u) == DynView(users, u)
  {
    var es: seq<OthersEntry> :| EnumeratesOthers(es, written) && doc == OthersDocument(p, es);
    var run0 := OthersRun(OthersReaderStart, users, false);
    assert doc[0] == ServicesStart;
    assert ReadOthers(p, users, doc) == OthersFold(p, run0, doc);
    OthersFoldAppend(p, run0, [ServicesStart] + OthersBody(p, es), [ServicesEnd]);
    OthersFoldAppend(p, run0, [ServicesStart], OthersBody(p, es));
    OthersFoldOne(p, run0, ServicesStart);
    OthersBodyRead(p, run0, es);
    var run1 := OthersFold(p, run0, OthersBody(p, es));
    OthersFoldOne(p, run1, ServicesEnd);
    assert forall i :: 0 <= i < |es| ==> p.userOf(es[i].status.uid) == es[i].user;
    PlaceOthersView(p, users, es);
    forall u
      ensures KeptStatusesFor(es, u) == KeptStatuses(OthersView(written, u))
    {
      KeptStatusesOfEnumeration(es, written, u);
    }
  }

  /** What a read of other_status.xml may change: it only files statuses with uid >= 0 under their own users. */
  ghost predicate OthersGrowth(p: Platform, before: Users, after: Users) {
    && (forall u :: RegistryOf(after, u).services == RegistryOf(before, u).services)
    && (forall u :: DynView(after, u) == DynView(before, u))
    && (forall u, c :: c in OthersView(before, u) ==> c in OthersView(after, u))
    && (forall u, c :: c in OthersView(after, u) ==>
          (c in OthersView(before, u) && OthersView(after, u)[c] == OthersView(before, u)[c])
          || (OthersView(after, u)[c].uid >= 0 && p.userOf(OthersView(after, u)[c].uid) == u))
  }

  lemma {:induction false} OthersFoldGrowth(p: Platform, before: Users, run: OthersRun, events: seq<XmlEvent>)
    requires OthersGrowth(p, before, run.users)
    ensures OthersGrowth(p, before, OthersFold(p, run, events).users)
    decreases |events|
  {
    if events != [] && !run.failed {
      OthersFoldGrowth(p, before, OthersStep(p, run, events[0]), events[1..]);
    }
  }

  /** Whatever the document holds, reading it only adds statuses with uid >= 0 under their own users. */
  lemma {:induction false} ReadOthersKeepsOnlyValid(p: Platform, users: Users, doc: Document)
    ensures OthersGrowth(p, users, ReadOthers(p, users, doc).users)
    decreases |doc|
  {
    if doc != [] {
      match doc[0]
      case Malformed =>
      case EndTag(_) =>
        ReadOthersKeepsOnlyValid(p, users, doc[1..]);
      case StartTag(name, _, _, _) =>
        if name == "services" {
          OthersFoldGrowth(p, users, OthersRun(OthersReaderStart, users, false), doc);
        }
    }
  }

  lemma {:induction false} OthersFoldFailure(p: Platform, run: OthersRun, events: seq<XmlEvent>)
    ensures !run.failed && Malformed !in events ==> !OthersFold(p, run, events).failed
    ensures Malformed in events ==> OthersFold(p, run, events).failed
    decreases |events|
  {
    if events != [] && !run.failed {
      assert Malformed in events <==> events[0] == Malformed || Malformed in events[1..];
      OthersFoldFailure(p, OthersStep(p, run, events[0]), events[1..]);
    }
  }

  lemma {:induction false} ReadOthersFailure(p: Platform, users: Users, doc: Document)
    ensures Malformed !in doc ==> !ReadOthers(p, users, doc).failed
    ensures |doc| > 0 && doc[0].StartTag? && doc[0].name == "services" && Malformed in doc ==>
      ReadOthers(p, users, doc).failed
    decreases |doc|
  {
    if doc != [] {
      match doc[0]
      case Malformed =>
      case EndTag(_) =>
        assert Malformed in doc[1..] ==> Malformed in doc;
        ReadOthersFailure(p, users, doc[1..]);
      case StartTag(name, _, _, _) =>
        OthersFoldFailure(p, OthersRun(OthersReaderStart, users, false), doc);
    }
  }

  // ===================== what the documents depend on =====================

  /** A dynamic_aids.xml document depends only on the overlay entries of the user table. */
  lemma DescribesDynamicFrame(p: Platform, doc: Document, written: Users, users: Users)
    requires DescribesDynamic(p, doc, written)
    requires forall u :: DynView(written, u) == DynView(users, u)
    ensures DescribesDynamic(p, doc, users)
  {
    var es :| EnumeratesDynamic(es, written) && doc == DynamicDocument(p, es);
    assert EnumeratesDynamic(es, users);
  }

  /** An other_status.xml document depends only on the statuses of the user table. */
  lemma DescribesOthersFrame(p: Platform, doc: Document, written: Users, users: Users)
    requires DescribesOthers(p, doc, written)
    requires forall u :: OthersView(written, u) == OthersView(users, u)
    ensures DescribesOthers(p, doc, users)
  {
    var es :| EnumeratesOthers(es, written) && doc == OthersDocument(p, es);
    assert EnumeratesOthers(es, users);
  }

  /** A table whose every uid is filed under its own user meets the premise of both round trips. */
  lemma FiledViews(p: Platform, users: Users)
    requires UsersFiled(p, users)
    ensures DynamicFiled(p, users) && OthersFiled(p, users)
  {
    forall u, c | c in DynView(users, u)
      ensures p.userOf(DynView(users, u)[c].uid) == u
    {
      assert u in users;
    }
    forall u, c | c in OthersView(users, u)
      ensures p.userOf(OthersView(users, u)[c].uid) == u
    {
      assert u in users;
    }
  }

  /** Reading dynamic_aids.xml files every entry under the user of its uid. */
  lemma DynamicGrowthFiled(p: Platform, before: Users, after: Users)
    requires UsersFiled(p, before)
    requires DynamicGrowth(p, before, after)
    ensures UsersFiled(p, after)
  {
    forall u | u in after
      ensures RegistryFiled(p, u, after[u])
    {
      assert after[u] == RegistryOf(after, u);
      assert OthersView(after, u) == OthersView(before, u);
      forall c | c in after[u].services
        ensures p.userOf(after[u].services[c].uid) == u
      {
        assert u in before;
      }
      forall c | c in after[u].others
        ensures p.userOf(after[u].others[c].uid) == u
      {
        assert u in before;
      }
      forall c | c in after[u].dynamicSettings
        ensures p.userOf(after[u].dynamicSettings[c].uid) == u
      {
        assert DynView(after, u) == after[u].dynamicSettings;
        if c in DynView(before, u) && DynView(after, u)[c] == DynView(before, u)[c] {
          assert u in before && DynView(before, u) == before[u].dynamicSettings;
        }
      }
    }
  }

  /** Reading other_status.xml files every status under the user of its uid. */
  lemma OthersGrowthFiled(p: Platform, before: Users, after: Users)
    requires UsersFiled(p, before)
    requires OthersGrowth(p, before, after)
    ensures UsersFiled(p, after)
  {
    forall u | u in after
      ensures RegistryFiled(p, u, after[u])
    {
      assert after[u] == RegistryOf(after, u);
      assert DynView(after, u) == DynView(before, u);
      forall c | c in after[u].services
        ensures p.userOf(after[u].services[c].uid) == u
      {
        assert u in before;
      }
      forall c | c in after[u].dynamicSettings
        ensures p.userOf(after[u].dynamicSettings[c].uid) == u
      {
        assert u in before;
      }
      forall c | c in after[u].others
        ensures p.userOf(after[u].others[c].uid) == u
      {
        assert OthersView(after, u) == after[u].others;
        if c in OthersView(before, u) && OthersView(after, u)[c] == OthersView(before, u)[c] {
          assert u in before && OthersView(before, u) == before[u].others;
        }
      }
    }
  }

  /** Reading dynamic_aids.xml keeps every registry well formed. */
  lemma DynamicGrowthWellFormed(p: Platform, before: Users, after: Users)
    requires UsersWellFormed(before)
    requires DynamicGrowth(p, before, after)
    ensures UsersWellFormed(after)
  {
    forall u | u in after
      ensures RegistryWellFormed(after[u])
    {
      assert after[u] == RegistryOf(after, u);
      assert RecordsKeyed(RegistryOf(before, u).services);
      forall c | c in DynView(after, u)
        ensures GroupsKeyed(DynView(after, u)[c].aidGroups)
      {
        if c in DynView(before, u) && DynView(after, u)[c] == DynView(before, u)[c] {
          assert u in before && RegistryWellFormed(before[u]);
        }
      }
      assert DynView(after, u) == after[u].dynamicSettings;
    }
  }

  /** Reading other_status.xml keeps every registry well formed. */
  lemma OthersGrowthWellFormed(p: Platform, before: Users, after: Users)
    requires UsersWellFormed(before)
    requires OthersGrowth(p, before, after)
    ensures UsersWellFormed(after)
  {
    forall u | u in after
      ensures RegistryWellFormed(after[u])
    {
      assert after[u] == RegistryOf(after, u);
      assert RecordsKeyed(RegistryOf(before, u).services);
      assert DynView(after, u) == DynView(before, u);
    }
  }
}
