/** The application's local database: the six object stores and the operations the
    pages call on them (settings, the domain helpers, the inspection bundle and the
    upload run). */
module App {
  import opened Base
  import opened Strings
  import opened Records
  import opened Tables
  import opened Domain
  import opened Upload

  /** The setting naming the inspection in progress. */
  const ActiveKey := "activeInspectionId"
  /** The setting holding the upload server's address. */
  const EndpointKey := "uploadEndpoint"

  /** What `listInspectionBundle` returns: the inspection and its location (when they
      exist), its equipment, the issues of that equipment and its media. */
  datatype Bundle = Bundle(
    ins: Option<Inspection>, loc: Option<Location>,
    equipment: seq<Equipment>, issues: seq<Issue>, media: seq<Media>)

  class Store {
    const settings: Table<Setting>
    const locations: Table<Location>
    const inspections: Table<Inspection>
    const equipment: Table<Equipment>
    const issues: Table<Issue>
    const media: Table<Media>

    function Repr(): set<object>
    {
      {settings, locations, inspections, equipment, issues, media}
    }

    /** Every store keys its records by their key path, every issue keeps a well-formed
        media list, and an uploaded media record carries no error. */
    ghost predicate Valid()
      reads Repr()
    {
      && settings.Valid() && locations.Valid() && inspections.Valid()
      && equipment.Valid() && issues.Valid() && media.Valid()
      && settings.keyOf == SettingKey && locations.keyOf == LocationKey
      && inspections.keyOf == InspectionKey && equipment.keyOf == EquipmentKey
      && issues.keyOf == IssueKey && media.keyOf == MediaKey
      && (forall k :: k in issues.rows ==> MediaListOk(issues.rows[k].mediaIds))
      && (forall k :: k in media.rows && media.rows[k].uploaded ==> media.rows[k].uploadError == "")
    }

    /** A freshly created database: every store exists and is empty. */
    constructor ()
      ensures Valid() && fresh(Repr())
      ensures settings.rows == map[] && locations.rows == map[] && inspections.rows == map[]
      ensures equipment.rows == map[] && issues.rows == map[] && media.rows == map[]
    {
      settings := new Table(SettingKey);
      locations := new Table(LocationKey);
      inspections := new Table(InspectionKey);
      equipment := new Table(EquipmentKey);
      issues := new Table(IssueKey);
      media := new Table(MediaKey);
    }

    /** `getSetting`: the stored value, or `fallback` when the key has no row. */
    function GetSetting(key: string, fallback: SettingValue): (v: SettingValue)
      reads settings
      ensures key in settings.rows ==> v == settings.rows[key].value
      ensures key !in settings.rows ==> v == fallback
    {
      match settings.Get(key)
      case Some(row) => row.value
      case None => fallback
    }

    /** `setSetting`: the row under `key` is replaced, stamped with the clock, and reads
        back as `value` whatever the fallback. */
    method SetSetting(key: string, value: SettingValue, now: nat)
      requires Valid()
      modifies settings
      ensures Valid()
      ensures settings.rows == old(settings.rows)[key := Setting(key, value, now)]
      ensures forall fallback :: GetSetting(key, fallback) == value
    {
      var _ := settings.Put(Setting(key, value, now));
    }

    /** `ensureDefaults`: visit the defaults in order and write each one whose key has no
        row; rows already present are never touched. */
    method EnsureDefaults(now: nat)
      requires Valid()
      modifies settings
      ensures Valid()
      ensures settings.rows == WithDefaults(old(settings.rows), Defaults, now)
    {
      var i := 0;
      while i < |Defaults|
        invariant 0 <= i <= |Defaults|
        invariant Valid()
        invariant settings.rows == WithDefaults(old(settings.rows), Defaults[..i], now)
      {
        var (k, v) := Defaults[i];
        var existing := settings.Get(k);
        if existing.None? {
          SetSetting(k, v, now);
        }
        assert Defaults[..i + 1][..i] == Defaults[..i];
        i := i + 1;
      }
      assert Defaults[..i] == Defaults;
    }

    /** `createLocation`: a new location under a fresh `loc_` id. */
    method CreateLocation(name: string, address: string, notes: string, now: nat, random: string)
      returns (loc: Location)
      requires Valid()
      modifies locations
      ensures Valid()
      ensures loc == Location(Uid("loc", now, random), name, address, notes, now, now)
      ensures locations.rows == old(locations.rows)[loc.id := loc]
    {
      loc := Location(Uid("loc", now, random), name, address, notes, now, now);
      var _ := locations.Put(loc);
    }

    /** `activeInspection`: the inspection the active-inspection setting names; None when
        the setting is missing or empty text, or names no stored inspection. A list is
        truthy and is passed to the store as a key: the empty list is a valid key that
        names nothing, while a list of choice objects is no valid key, so the lookup
        fails with `DataError`. */
    function ActiveInspection(): (r: Result<Option<Inspection>>)
      reads settings, inspections
      ensures r.Err? <==> GetSetting(ActiveKey, Text("")).Choices?
                          && GetSetting(ActiveKey, Text("")).items != []
      ensures (r.Ok? && r.value.Some?) <==>
        (&& GetSetting(ActiveKey, Text("")).Text?
         && GetSetting(ActiveKey, Text("")).text != ""
         && GetSetting(ActiveKey, Text("")).text in inspections.rows)
      ensures r.Ok? && r.value.Some? ==>
        r.value.value == inspections.rows[GetSetting(ActiveKey, Text("")).text]
    {
      match GetSetting(ActiveKey, Text(""))
      case Text(id) => if id == "" then Ok(None) else Ok(inspections.Get(id))
      case Choices(cs) => if cs == [] then Ok(None) else Err("DataError")
    }

    /** `createInspection`: a new inspection in the capturing state under a fresh `ins_`
        id, which becomes the active inspection. */
    method CreateInspection(locationId: string, kind: string, now: nat, random: string)
      returns (ins: Inspection)
      requires Valid()
      modifies inspections, settings
      ensures Valid()
      ensures ins == Inspection(Uid("ins", now, random), locationId, kind, Capturing, now, now)
      ensures inspections.rows == old(inspections.rows)[ins.id := ins]
      ensures settings.rows == old(settings.rows)[ActiveKey := Setting(ActiveKey, Text(ins.id), now)]
      ensures ActiveInspection() == Ok(Some(ins))
    {
      ins := Inspection(Uid("ins", now, random), locationId, kind, Capturing, now, now);
      var _ := inspections.Put(ins);
      SetSetting(ActiveKey, Text(ins.id), now);
    }

    /** `endInspection`: the stored inspection moves to review; a missing id changes
        nothing. */
    method EndInspection(inspectionId: string, now: nat)
      requires Valid()
      modifies inspections
      ensures Valid()
      ensures inspectionId !in old(inspections.rows) ==> inspections.rows == old(inspections.rows)
      ensures inspectionId in old(inspections.rows) ==>
        inspections.rows == old(inspections.rows)[inspectionId :=
          old(inspections.rows)[inspectionId].(status := Review, updatedAt := now)]
    {
      var found := inspections.Get(inspectionId);
      if found.None? {
        return;
      }
      var ins := found.value.(status := Review, updatedAt := now);
      var _ := inspections.Put(ins);
    }

    /** `createEquipment`: a new equipment record under a fresh `eq_` id, without cover
        or sign photo. */
    method CreateEquipment(inspectionId: string, title: string, vendor: string, equipmentNo: string,
                           addressOverride: string, now: nat, random: string)
      returns (eq: Equipment)
      requires Valid()
      modifies equipment
      ensures Valid()
      ensures eq == Equipment(Uid("eq", now, random), inspectionId, title, vendor, equipmentNo,
                              addressOverride, now, now, "", "")
      ensures equipment.rows == old(equipment.rows)[eq.id := eq]
    {
      eq := Equipment(Uid("eq", now, random), inspectionId, title, vendor, equipmentNo,
                      addressOverride, now, now, "", "");
      var _ := equipment.Put(eq);
    }

    /** `createIssue`: a new issue under a fresh `iss_` id with no media. */
    method CreateIssue(equipmentId: string, issueTypeId: string, severityId: string, comment: string,
                       now: nat, random: string)
      returns (issue: Issue)
      requires Valid()
      modifies issues
      ensures Valid()
      ensures issue == Issue(Uid("iss", now, random), equipmentId, issueTypeId, severityId, comment, now, now, [])
      ensures issues.rows == old(issues.rows)[issue.id := issue]
    {
      issue := Issue(Uid("iss", now, random), equipmentId, issueTypeId, severityId, comment, now, now, []);
      var _ := issues.Put(issue);
    }

    /** `addMedia`: a new media record under a fresh `m_` id, not yet uploaded and
        without error. */
    method AddMedia(inspectionId: string, parentType: string, parentId: string, tag: string,
                    blob: Option<seq<Byte>>, mime: string, note: string, now: nat, random: string)
      returns (m: Media)
      requires Valid()
      modifies media
      ensures Valid()
      ensures m == Media(Uid("m", now, random), inspectionId, parentType, parentId, tag, blob, mime, note,
                         now, false, "")
      ensures media.rows == old(media.rows)[m.id := m]
    {
      m := Media(Uid("m", now, random), inspectionId, parentType, parentId, tag, blob, mime, note,
                 now, false, "");
      var _ := media.Put(m);
    }

    /** `attachMediaToIssue`: the issue's list gains the id unless it is listed already
        or the issue is missing; the list never exceeds four ids. */
    method AttachMediaToIssue(issueId: string, mediaId: string, now: nat)
      requires Valid()
      modifies issues
      ensures Valid()
      ensures issueId !in old(issues.rows) ==> issues.rows == old(issues.rows)
      ensures issueId in old(issues.rows) ==>
        match AttachMedia(old(issues.rows)[issueId], mediaId, now)
        case None => issues.rows == old(issues.rows)
        case Some(updated) => issues.rows == old(issues.rows)[issueId := updated]
    {
      var found := issues.Get(issueId);
      if found.None? {
        return;
      }
      AttachKeepsListOk(found.value, mediaId, now);
      match AttachMedia(found.value, mediaId, now)
      case None =>
      case Some(updated) =>
        var _ := issues.Put(updated);
    }

    /** `setEquipmentCover`: the stored equipment gets its cover or sign photo; a missing
        id changes nothing. */
    method SetEquipmentCover(eqId: string, mediaId: string, kind: string, now: nat)
      requires Valid()
      modifies equipment
      ensures Valid()
      ensures eqId !in old(equipment.rows) ==> equipment.rows == old(equipment.rows)
      ensures eqId in old(equipment.rows) ==>
        equipment.rows == old(equipment.rows)[eqId := SetCover(old(equipment.rows)[eqId], mediaId, kind, now)]
    {
      var found := equipment.Get(eqId);
      if found.None? {
        return;
      }
      var _ := equipment.Put(SetCover(found.value, mediaId, kind, now));
    }

    /** The issues of each equipment record in turn, each group in key order. */
    function IssuesUnder(eqs: seq<Equipment>): seq<Issue>
      reads issues
      requires issues.Valid()
    {
      if eqs == [] then []
      else IssuesUnder(eqs[..|eqs| - 1]) + issues.ByIndex(EquipmentOf, eqs[|eqs| - 1].id)
    }

    /** An issue is listed exactly when it is stored and belongs to one of the
        equipment records. */
    lemma {:induction false} IssuesUnderMembers(eqs: seq<Equipment>)
      requires issues.Valid()
      ensures forall x :: x in IssuesUnder(eqs) <==>
        x in issues.rows.Values && exists e :: e in eqs && e.id == x.equipmentId
    {
      if eqs != [] {
        var init := eqs[..|eqs| - 1];
        var last := eqs[|eqs| - 1];
        IssuesUnderMembers(init);
        assert forall e :: e in eqs <==> e in init || e == last;
      }
    }

    /** `byIndex("media", "by_parent", [parentType, parentId])`: the index key is the
        pair, so a record matches only when both fields match. */
    function MediaOfParent(parentType: string, parentId: string): (r: seq<Media>)
      reads media
      requires media.Valid()
      ensures forall x :: x in r <==> x in media.rows.Values && x.parentType == parentType && x.parentId == parentId
      ensures Ascending(r, media.keyOf)
    {
      media.ByIndex(ParentOf, (parentType, parentId))
    }

    /** The loop of `listInspectionBundle`: the issues of each equipment record, looked
        up through the equipment index in turn. */
    method CollectIssues(eqs: seq<Equipment>) returns (found: seq<Issue>)
      requires issues.Valid()
      ensures found == IssuesUnder(eqs)
    {
      found := [];
      var i := 0;
      while i < |eqs|
        invariant 0 <= i <= |eqs|
        invariant found == IssuesUnder(eqs[..i])
      {
        var eqIssues := issues.ByIndex(EquipmentOf, eqs[i].id);
        found := found + eqIssues;
        assert eqs[..i + 1][..i] == eqs[..i];
        i := i + 1;
      }
      assert eqs[..i] == eqs;
    }

    /** `listInspectionBundle`: everything filed under one inspection. */
    method ListInspectionBundle(inspectionId: string) returns (b: Bundle)
      requires Valid()
      ensures b.ins == inspections.Get(inspectionId)
      ensures b.loc == (if b.ins.Some? then locations.Get(b.ins.value.locationId) else None)
      ensures b.equipment == equipment.ByIndex(InspectionOfEquipment, inspectionId)
      ensures b.issues == IssuesUnder(b.equipment)
      ensures b.media == media.ByIndex(InspectionOfMedia, inspectionId)
      ensures inspectionId !in inspections.rows
              && (forall e :: e in equipment.rows.Values ==> e.inspectionId != inspectionId)
              && (forall m :: m in media.rows.Values ==> m.inspectionId != inspectionId)
              ==> b == Bundle(None, None, [], [], [])
    {
      var ins := inspections.Get(inspectionId);
      var loc := if ins.Some? then locations.Get(ins.value.locationId) else None;
      var eqs := equipment.ByIndex(InspectionOfEquipment, inspectionId);
      var found := CollectIssues(eqs);
      var ms := media.ByIndex(InspectionOfMedia, inspectionId);
      b := Bundle(ins, loc, eqs, found, ms);
      if eqs != [] {
        assert eqs[0] in eqs;
      }
      if ms != [] {
        assert ms[0] in ms;
      }
    }

    /** One iteration of `tryUploadPending`: send `m` to the endpoint and write the
        record back with the outcome; `ok` tells whether the upload succeeded. */
    method Attempt(m: Media, endpoint: SettingValue, send: UploadRequest -> Response) returns (ok: bool)
      requires Valid() && !m.uploaded
      modifies media
      ensures Valid()
      ensures ok <==> Outcome(UploadUrl(endpoint), m, send).None?
      ensures media.rows == old(media.rows)[m.id := Settle(m, Outcome(UploadUrl(endpoint), m, send))]
    {
      var error: Option<string>;
      match UploadUrl(endpoint) {
        case Err(e) =>
          error := Some(e);
        case Ok(u) =>
          match send(Request(u, m)) {
            case Http(status) =>
              error := if 200 <= status <= 299 then None else Some("HTTP " + Decimal(status));
            case NetworkError(name, message) =>
              error := Some(if message != "" then message else name);
          }
      }
      assert error == Outcome(UploadUrl(endpoint), m, send);
      if error.None? {
        var _ := media.Put(m.(uploaded := true, uploadError := ""));
        ok := true;
      } else {
        var _ := media.Put(m.(uploadError := error.value));
        ok := false;
      }
    }

    /** `tryUploadPending`: without an endpoint nothing is sent or written; otherwise the
        first twelve eligible media are attempted in key order, each record is written
        back with its own outcome, and the successes are counted. */
    method TryUploadPending(send: UploadRequest -> Response) returns (report: Report)
      requires Valid()
      modifies media
      ensures Valid()
      ensures old(GetSetting(EndpointKey, Text(""))) == Text("") ==>
        report == NoEndpoint && media.rows == old(media.rows)
      ensures old(GetSetting(EndpointKey, Text(""))) != Text("") ==>
        var url := UploadUrl(old(GetSetting(EndpointKey, Text(""))));
        var batch := Batch(old(media.All()));
        && report == Done(Successes(batch, url, send))
        && media.rows == Settled(old(media.rows), batch, url, send)
        && report.uploaded == |set k | k in media.rows && k in Ids(batch) && media.rows[k].uploaded|
    {
      var endpoint := GetSetting(EndpointKey, Text(""));
      if endpoint == Text("") {
        return NoEndpoint;
      }
      var all := media.All();
      assert all == old(media.All());
      var pending := Filter(all, Eligible);
      SettledNothing(media.rows, UploadUrl(endpoint), send);
      if |pending| == 0 {
        assert Batch(all) == [];
        assert Ids([]) == {};
        return Done(0);
      }
      var batch := pending[..Min(BatchSize, |pending|)];
      assert batch == Batch(all);
      assert forall k :: k in media.rows ==> media.rows[k].id == k by {
        forall k | k in media.rows ensures media.rows[k].id == k {
          assert media.keyOf(media.rows[k]) == k;
        }
      }
      BatchIsKeyed(media.rows, all);
      SuccessesCountUploaded(media.rows, batch, UploadUrl(endpoint), send);
      var uploaded := RunBatch(batch, endpoint, send);
      RunIsSettled(old(media.rows), batch, UploadUrl(endpoint), send);
      report := Done(uploaded);
    }

    /** The loop of `tryUploadPending`: attempt each record of the batch in order and
        count the successes. */
    method RunBatch(batch: seq<Media>, endpoint: SettingValue, send: UploadRequest -> Response)
      returns (uploaded: nat)
      requires Valid()
      requires forall j :: 0 <= j < |batch| ==> !batch[j].uploaded
      modifies media
      ensures Valid()
      ensures media.rows == Run(old(media.rows), batch, UploadUrl(endpoint), send)
      ensures uploaded == Successes(batch, UploadUrl(endpoint), send)
    {
      ghost var rows0 := media.rows;
      ghost var url := UploadUrl(endpoint);
      uploaded := 0;
      var i := 0;
      assert batch[..i] == [];
      while i < |batch|
        invariant 0 <= i <= |batch|
        invariant Valid()
        invariant media.rows == Run(rows0, batch[..i], url, send)
        invariant uploaded == Successes(batch[..i], url, send)
      {
        RunStep(rows0, batch, i, url, send);
        var ok := Attempt(batch[i], endpoint, send);
        if ok {
          uploaded := uploaded + 1;
        }
        i := i + 1;
      }
      assert batch[..i] == batch;
    }
  }

  /** The batch holds records exactly as stored, each under its own id, with no id
      twice and none uploaded. */
  lemma BatchIsKeyed(rows: map<string, Media>, all: seq<Media>)
    requires forall k :: k in rows ==> rows[k].id == k
    requires forall x :: x in all <==> x in rows.Values
    requires Ascending(all, MediaKey)
    ensures var batch := Batch(all);
      forall j :: 0 <= j < |batch| ==>
        batch[j].id in rows && rows[batch[j].id] == batch[j] && !batch[j].uploaded
    ensures var batch := Batch(all);
      forall a, b :: 0 <= a < b < |batch| ==> batch[a].id != batch[b].id
  {
    var batch := Batch(all);
    var pending := Filter(all, Eligible);
    FilterKeepsAscending(all, Eligible, MediaKey);
    forall j | 0 <= j < |batch|
      ensures batch[j].id in rows && rows[batch[j].id] == batch[j] && !batch[j].uploaded
    {
      var m := batch[j];
      assert m in all && Eligible(m);
      assert m in rows.Values;
      var k :| k in rows && rows[k] == m;
    }
    forall a, b | 0 <= a < b < |batch| ensures batch[a].id != batch[b].id {
      assert batch[a] == pending[a] && batch[b] == pending[b];
      assert LexLt(MediaKey(pending[a]), MediaKey(pending[b]));
    }
  }

  /** Attempting the next record of a batch: the run's writes and its count advance by
      that one attempt. */
  lemma RunStep(rows: map<string, Media>, batch: seq<Media>, i: nat, url: Result<string>,
                send: UploadRequest -> Response)
    requires i < |batch|
    ensures Run(rows, batch[..i + 1], url, send)
      == Run(rows, batch[..i], url, send)[batch[i].id := Settle(batch[i], Outcome(url, batch[i], send))]
    ensures Successes(batch[..i + 1], url, send)
      == Successes(batch[..i], url, send) + if Outcome(url, batch[i], send).None? then 1 else 0
  {
    assert batch[..i + 1][..i] == batch[..i];
  }
}
