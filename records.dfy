/** The entities the application persists, one datatype per object-store record,
    and the identifiers it gives them. */
module Records {
  import opened Base
  import opened Strings

  type Byte = b: int | 0 <= b < 256

  /** An entry of a configurable list (issue types, severities). */
  datatype Choice = Choice(id: string, caption: string)  // `label` in the source; a keyword here

  /** The value of a setting: the application stores either text or a list of choices. */
  datatype SettingValue = Text(text: string) | Choices(items: seq<Choice>)

  /** A row of the `settings` store, keyed by `key`. */
  datatype Setting = Setting(key: string, value: SettingValue, updatedAt: nat)

  datatype Location = Location(
    id: string, name: string, address: string, notes: string,
    createdAt: nat, updatedAt: nat)

  /** Inspection status: `"capturing"` while in the field, `"review"` once ended. */
  datatype Status = Capturing | Review

  datatype Inspection = Inspection(
    id: string, locationId: string, kind: string, status: Status,
    createdAt: nat, updatedAt: nat)

  datatype Equipment = Equipment(
    id: string, inspectionId: string, title: string, vendor: string,
    equipmentNo: string, addressOverride: string,
    createdAt: nat, updatedAt: nat, coverMediaId: string, signMediaId: string)

  datatype Issue = Issue(
    id: string, equipmentId: string, issueTypeId: string, severityId: string,
    comment: string, createdAt: nat, updatedAt: nat, mediaIds: seq<string>)

  /** A photo or audio clip. `blob` is absent when the capture produced no payload;
      `mime` is empty when no type was recorded. */
  datatype Media = Media(
    id: string, inspectionId: string, parentType: string, parentId: string,
    tag: string, blob: Option<seq<Byte>>, mime: string, note: string,
    createdAt: nat, uploaded: bool, uploadError: string)

  /** `uid(prefix)`: the prefix, the clock reading in base 36 and a random suffix
      (the random part is a parameter of the model). Every id starts with its
      collection's prefix and an underscore, so no id is empty,
      and the clock reading can be read back from it. */
  function Uid(prefix: string, now: nat, random: string): (id: string)
    ensures |id| > |prefix| + 1 + |Radix(now, 36)| && id[..|prefix| + 1] == prefix + "_"
    ensures id[|prefix| + 1..|prefix| + 1 + |Radix(now, 36)|] == Radix(now, 36)
    ensures ParseRadix(id[|prefix| + 1..|prefix| + 1 + |Radix(now, 36)|], 36) == now
    ensures id[|prefix| + 1 + |Radix(now, 36)|..] == "_" + random
  {
    var id := prefix + "_" + Radix(now, 36) + "_" + random;
    assert id[|prefix| + 1..|prefix| + 1 + |Radix(now, 36)|] == Radix(now, 36);
    assert id[|prefix| + 1 + |Radix(now, 36)|..] == "_" + random;
    ParseRadixInverts(now, 36);
    id
  }

  // Key paths of the object stores.
  function SettingKey(s: Setting): string { s.key }
  function LocationKey(l: Location): string { l.id }
  function InspectionKey(i: Inspection): string { i.id }
  function EquipmentKey(e: Equipment): string { e.id }
  function IssueKey(i: Issue): string { i.id }
  function MediaKey(m: Media): string { m.id }

  // Key paths of the secondary indexes.
  /** `equipment.by_inspection`: `inspectionId`. */
  function InspectionOfEquipment(e: Equipment): string { e.inspectionId }
  /** `issues.by_equipment`: `equipmentId`. */
  function EquipmentOf(i: Issue): string { i.equipmentId }
  /** `media.by_parent`: the compound key `[parentType, parentId]`. */
  function ParentOf(m: Media): (string, string) { (m.parentType, m.parentId) }
  /** `media.by_inspection`: `inspectionId`. */
  function InspectionOfMedia(m: Media): string { m.inspectionId }
}
