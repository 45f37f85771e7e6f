/** The record-level rules of the domain operations: what a read-modify-write does to
    the record it reads, and the settings that `ensureDefaults` installs. */
module Domain {
  import opened Base
  import opened Records

  /** The most media ids an issue keeps. */
  const MaxIssueMedia: nat := 4

  /** The invariant of `Issue.mediaIds`: no id twice, at most four ids. */
  predicate MediaListOk(ids: seq<string>)
  {
    NoDuplicates(ids) && |ids| <= MaxIssueMedia
  }

  /** The first `n` elements (all of them when there are fewer): `slice(0, n)`. */
  function Take<T>(s: seq<T>, n: nat): (r: seq<T>)
  {
    if |s| <= n then s else s[..n]
  }

  /** `attachMediaToIssue` on the issue it read: None when the id is already listed
      (nothing is written); otherwise the id is appended, the list is cut back to its
      first four entries and `updatedAt` is refreshed. */
  function AttachMedia(issue: Issue, mediaId: string, now: nat): (r: Option<Issue>)
    ensures r.None? <==> mediaId in issue.mediaIds
    ensures r.Some? ==> r.value == issue.(mediaIds := r.value.mediaIds, updatedAt := now)
    ensures r.Some? && |issue.mediaIds| < MaxIssueMedia ==> r.value.mediaIds == issue.mediaIds + [mediaId]
    ensures r.Some? && |issue.mediaIds| >= MaxIssueMedia ==> r.value.mediaIds == issue.mediaIds[..MaxIssueMedia]
  {
    if mediaId in issue.mediaIds then None
    else Some(issue.(mediaIds := Take(issue.mediaIds + [mediaId], MaxIssueMedia), updatedAt := now))
  }

  /** Attaching keeps a well-formed list well-formed; the id is listed afterwards
      exactly when it was listed or there was room. */
  lemma AttachKeepsListOk(issue: Issue, mediaId: string, now: nat)
    requires MediaListOk(issue.mediaIds)
    ensures var ids := AttachMedia(issue, mediaId, now).GetOr(issue).mediaIds;
      MediaListOk(ids) && (mediaId in ids <==> mediaId in issue.mediaIds || |issue.mediaIds| < MaxIssueMedia)
  {
    var ids := issue.mediaIds;
    if mediaId !in ids && |ids| < MaxIssueMedia {
      var r := ids + [mediaId];
      forall i, j | 0 <= i < j < |r| ensures r[i] != r[j] {
        if j == |ids| { assert r[i] in ids; }
      }
    }
  }

  /** The order in which ids were first seen. */
  function Distinct(s: seq<string>): (r: seq<string>)
    ensures NoDuplicates(r)
    ensures forall x :: x in r <==> x in s
  {
    if s == [] then []
    else
      var d := Distinct(s[..|s| - 1]);
      var x := s[|s| - 1];
      assert forall y :: y in s <==> y in s[..|s| - 1] || y == x by {
        assert s == s[..|s| - 1] + [x];
      }
      if x in d then d else d + [x]
  }

  /** The media list after attaching `ms` in order to an issue whose list is `ids`. */
  function AttachAll(ids: seq<string>, ms: seq<string>): seq<string>
  {
    if ms == [] then ids
    else
      var before := AttachAll(ids, ms[..|ms| - 1]);
      var m := ms[|ms| - 1];
      if m in before then before else Take(before + [m], MaxIssueMedia)
  }

  /** One step of `AttachAll` is what `attachMediaToIssue` writes into the issue's list
      (the list as it was when nothing is written). */
  lemma AttachAllStep(issue: Issue, mediaId: string, now: nat)
    ensures AttachMedia(issue, mediaId, now).GetOr(issue).mediaIds
      == AttachAll(issue.mediaIds, [mediaId])
  {
    assert [mediaId][..0] == [];
  }

  /** Any run of attachments to a new issue keeps the first four distinct ids in the
      order they were attached: a fifth distinct id is dropped, a repeat changes nothing. */
  lemma {:induction false} AttachAllKeepsFirstFour(ms: seq<string>)
    ensures AttachAll([], ms) == Take(Distinct(ms), MaxIssueMedia)
  {
    if ms != [] {
      var init, m := ms[..|ms| - 1], ms[|ms| - 1];
      AttachAllKeepsFirstFour(init);
      var d := Distinct(init);
      var before := AttachAll([], init);
      assert before == Take(d, MaxIssueMedia);
      if m in before {
        assert m in d;
      } else if m in d {
        assert |d| > MaxIssueMedia;
        assert Take(before + [m], MaxIssueMedia) == before;
      } else {
        assert Distinct(ms) == d + [m];
        if |d| >= MaxIssueMedia {
          assert Take(before + [m], MaxIssueMedia) == (d + [m])[..MaxIssueMedia];
        }
      }
    }
  }

  /** `setEquipmentCover` on the equipment it read: `"cover"` sets the cover photo,
      `"sign"` the sign photo, any other kind only refreshes `updatedAt`. */
  function SetCover(eq: Equipment, mediaId: string, kind: string, now: nat): (r: Equipment)
    ensures r.coverMediaId == (if kind == "cover" then mediaId else eq.coverMediaId)
    ensures r.signMediaId == (if kind == "sign" then mediaId else eq.signMediaId)
    ensures r == eq.(coverMediaId := r.coverMediaId, signMediaId := r.signMediaId, updatedAt := now)
  {
    var eq := if kind == "cover" then eq.(coverMediaId := mediaId) else eq;
    var eq := if kind == "sign" then eq.(signMediaId := mediaId) else eq;
    eq.(updatedAt := now)
  }

  /** The settings `ensureDefaults` installs, in the order it visits them. */
  const Defaults: seq<(string, SettingValue)> := [
    ("issueTypes", Choices([
      Choice("finger_trap", "Fastklemming (finger)"),
      Choice("head_neck", "Fastklemming (hode/hals)"),
      Choice("sharp_edge", "Skarp kant / kuttfare"),
      Choice("loose_parts", "Løse deler / fester"),
      Choice("wear_chain", "Slitasje kjetting / oppheng"),
      Choice("impact_surface", "Støtunderlag / fallområde"),
      Choice("label_missing", "Manglende merking / skilt"),
      Choice("rot", "Råte i bærende konstruksjon"),
      Choice("other", "Annet")])),
    ("severity", Choices([
      Choice("A", "A (kritisk)"),
      Choice("B", "B (alvorlig)"),
      Choice("C", "C (mindre)"),
      Choice("U", "U (må risikovurderes)"),
      Choice("OBS", "Observasjon")])),
    ("uploadEndpoint", Text(""))]

  /** The settings table after visiting `defaults` in order, writing each one whose key
      has no row yet. */
  function WithDefaults(rows: map<string, Setting>, defaults: seq<(string, SettingValue)>, now: nat)
    : map<string, Setting>
  {
    if defaults == [] then rows
    else
      var before := WithDefaults(rows, defaults[..|defaults| - 1], now);
      var (k, v) := defaults[|defaults| - 1];
      if k in before then before else before[k := Setting(k, v, now)]
  }

  /** Defaults never overwrite an existing row, every default key has a row afterwards,
      and no other key is added. */
  lemma {:induction false} WithDefaultsAdds(rows: map<string, Setting>, defaults: seq<(string, SettingValue)>, now: nat)
    ensures var r := WithDefaults(rows, defaults, now);
      && (forall k :: k in rows ==> k in r && r[k] == rows[k])
      && (forall d :: d in defaults ==> d.0 in r)
      && (forall k :: k in r ==> k in rows || exists d :: d in defaults && d.0 == k)
      && (forall k :: k in r && k !in rows ==> r[k].updatedAt == now)
  {
    if defaults != [] {
      var init := defaults[..|defaults| - 1];
      WithDefaultsAdds(rows, init, now);
      assert forall d :: d in defaults ==> d in init || d == defaults[|defaults| - 1];
      assert forall d :: d in init ==> d in defaults;
    }
  }

  /** A new row holds the value declared for its key. */
  lemma {:induction false} WithDefaultsValue(rows: map<string, Setting>, defaults: seq<(string, SettingValue)>, now: nat, i: nat)
    requires i < |defaults| && defaults[i].0 !in rows
    requires forall a, b :: 0 <= a < b < |defaults| ==> defaults[a].0 != defaults[b].0
    ensures defaults[i].0 in WithDefaults(rows, defaults, now)
    ensures WithDefaults(rows, defaults, now)[defaults[i].0] == Setting(defaults[i].0, defaults[i].1, now)
  {
    var init := defaults[..|defaults| - 1];
    var last := defaults[|defaults| - 1];
    if i < |defaults| - 1 {
      assert init[i] == defaults[i];
      WithDefaultsValue(rows, init, now, i);
      assert last.0 != defaults[i].0;
    } else {
      WithDefaultsAdds(rows, init, now);
      forall d | d in init ensures d.0 != defaults[i].0 {
        var a :| 0 <= a < |init| && init[a] == d;
      }
    }
  }

  /** Running `ensureDefaults` twice changes nothing the second time. */
  lemma {:induction false} WithDefaultsIdempotent(rows: map<string, Setting>, defaults: seq<(string, SettingValue)>, now: nat, later: nat)
    ensures WithDefaults(WithDefaults(rows, defaults, now), defaults, later) == WithDefaults(rows, defaults, now)
  {
    var once := WithDefaults(rows, defaults, now);
    WithDefaultsAdds(rows, defaults, now);
    WithDefaultsPresent(once, defaults, later);
  }

  lemma {:induction false} WithDefaultsPresent(rows: map<string, Setting>, defaults: seq<(string, SettingValue)>, now: nat)
    requires forall d :: d in defaults ==> d.0 in rows
    ensures WithDefaults(rows, defaults, now) == rows
  {
    if defaults != [] {
      var init := defaults[..|defaults| - 1];
      assert forall d :: d in init ==> d in defaults;
      WithDefaultsPresent(rows, init, now);
      assert defaults[|defaults| - 1] in defaults;
    }
  }
}
