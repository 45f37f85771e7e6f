/** The placeholder "suggestions" pass: media grouped by tag, each group in capture
    order. It works on a copy and never changes its input. */
module Suggestions {
  import opened Base
  import opened Records

  datatype Groups = Groups(
    equipment: seq<Media>, sign: seq<Media>, issue: seq<Media>,
    overview: seq<Media>, audio: seq<Media>)

  /** Non-decreasing capture time. */
  predicate ByCaptureTime(s: seq<Media>)
  {
    forall i, j :: 0 <= i < j < |s| ==> s[i].createdAt <= s[j].createdAt
  }

  /** Place `m` before the first record captured no earlier than it. */
  function Insert(m: Media, s: seq<Media>): (r: seq<Media>)
    ensures multiset(r) == multiset(s) + multiset{m}
  {
    if s == [] || m.createdAt <= s[0].createdAt then [m] + s
    else
      assert s == [s[0]] + s[1..];
      [s[0]] + Insert(m, s[1..])
  }

  lemma {:induction false} InsertKeepsOrder(m: Media, s: seq<Media>)
    requires ByCaptureTime(s)
    ensures ByCaptureTime(Insert(m, s))
  {
    if s != [] && m.createdAt > s[0].createdAt {
      InsertKeepsOrder(m, s[1..]);
      var rest := Insert(m, s[1..]);
      forall j | 0 <= j < |rest| ensures s[0].createdAt <= rest[j].createdAt {
        assert rest[j] in multiset(rest);
        assert rest[j] in s[1..] || rest[j] == m;
      }
    }
  }

  /** `[...media].sort((a, b) => a.createdAt - b.createdAt)`: a stable sort on capture
      time over a copy of the input. */
  function SortByCapture(ms: seq<Media>): (r: seq<Media>)
    ensures ByCaptureTime(r)
    ensures multiset(r) == multiset(ms)
  {
    if ms == [] then []
    else
      assert ms == [ms[0]] + ms[1..];
      InsertKeepsOrder(ms[0], SortByCapture(ms[1..]));
      Insert(ms[0], SortByCapture(ms[1..]))
  }

  function TagIs(tag: string): Media -> bool
  {
    (m: Media) => m.tag == tag
  }

  /** `conservativeSuggestions`: each group holds exactly the input media carrying its
      tag, in capture order. */
  function ConservativeSuggestions(ms: seq<Media>): (g: Groups)
    ensures forall m :: m in g.equipment <==> m in ms && m.tag == "equipment"
    ensures forall m :: m in g.sign <==> m in ms && m.tag == "sign"
    ensures forall m :: m in g.issue <==> m in ms && m.tag == "issue"
    ensures forall m :: m in g.overview <==> m in ms && m.tag == "overview"
    ensures forall m :: m in g.audio <==> m in ms && m.tag == "audio"
    ensures ByCaptureTime(g.equipment) && ByCaptureTime(g.sign) && ByCaptureTime(g.issue)
    ensures ByCaptureTime(g.overview) && ByCaptureTime(g.audio)
  {
    var sorted := SortByCapture(ms);
    assert forall m :: m in sorted <==> m in ms by {
      forall m ensures m in sorted <==> m in ms {
        assert m in sorted <==> m in multiset(sorted);
        assert m in ms <==> m in multiset(ms);
      }
    }
    FilterKeepsOrder(sorted, TagIs("equipment"));
    FilterKeepsOrder(sorted, TagIs("sign"));
    FilterKeepsOrder(sorted, TagIs("issue"));
    FilterKeepsOrder(sorted, TagIs("overview"));
    FilterKeepsOrder(sorted, TagIs("audio"));
    Groups(Filter(sorted, TagIs("equipment")), Filter(sorted, TagIs("sign")),
           Filter(sorted, TagIs("issue")), Filter(sorted, TagIs("overview")),
           Filter(sorted, TagIs("audio")))
  }

  lemma {:induction false} FilterKeepsOrder(s: seq<Media>, keep: Media -> bool)
    requires ByCaptureTime(s)
    ensures ByCaptureTime(Filter(s, keep))
  {
    if s != [] {
      FilterKeepsOrder(s[1..], keep);
      var rest := Filter(s[1..], keep);
      forall j | 0 <= j < |rest| ensures s[0].createdAt <= rest[j].createdAt {
        assert rest[j] in s[1..];
      }
    }
  }

  /** Filtering commutes with inserting into a sorted sequence. */
  lemma {:induction false} FilterInsert(m: Media, s: seq<Media>, keep: Media -> bool)
    requires ByCaptureTime(s)
    ensures Filter(Insert(m, s), keep) ==
      if keep(m) then Insert(m, Filter(s, keep)) else Filter(s, keep)
  {
    if s == [] || m.createdAt <= s[0].createdAt {
      FilterInsertFirst(m, s, keep);
    } else {
      var t := s[1..];
      FilterInsert(m, t, keep);
      var it := Insert(m, t);
      var ft := Filter(t, keep);
      var head := if keep(s[0]) then [s[0]] else [];
      assert Insert(m, s) == [s[0]] + it;
      assert Filter([s[0]] + it, keep) == head + Filter(it, keep) by {
        assert ([s[0]] + it)[1..] == it;
      }
      assert Filter(s, keep) == head + ft;
      if keep(s[0]) {
        if keep(m) {
          assert Insert(m, [s[0]] + ft) == [s[0]] + Insert(m, ft) by {
            assert ([s[0]] + ft)[1..] == ft;
          }
        }
      } else {
        assert head + ft == ft;
        assert head + Filter(it, keep) == Filter(it, keep);
      }
    }
  }

  lemma FilterInsertFirst(m: Media, s: seq<Media>, keep: Media -> bool)
    requires ByCaptureTime(s)
    requires s == [] || m.createdAt <= s[0].createdAt
    ensures Filter(Insert(m, s), keep) ==
      if keep(m) then Insert(m, Filter(s, keep)) else Filter(s, keep)
  {
    assert Insert(m, s) == [m] + s;
    assert ([m] + s)[1..] == s;
    var f := Filter(s, keep);
    if keep(m) && f != [] {
      assert f[0] in s;
      var k :| 0 <= k < |s| && s[k] == f[0];
      assert s[0].createdAt <= s[k].createdAt;
    }
  }

  /** Sorting then filtering equals filtering then sorting. */
  lemma {:induction false} FilterSort(ms: seq<Media>, keep: Media -> bool)
    ensures Filter(SortByCapture(ms), keep) == SortByCapture(Filter(ms, keep))
  {
    if ms != [] {
      FilterSort(ms[1..], keep);
      FilterInsert(ms[0], SortByCapture(ms[1..]), keep);
      var f := Filter(ms[1..], keep);
      if keep(ms[0]) {
        assert Filter(ms, keep) == [ms[0]] + f;
        assert ([ms[0]] + f)[1..] == f;
      } else {
        assert Filter(ms, keep) == f;
      }
    }
  }

  function CapturedAt(t: nat): Media -> bool
  {
    (m: Media) => m.createdAt == t
  }

  /** Sorting media all captured at the same moment leaves them in input order. */
  lemma {:induction false} SortKeepsTies(s: seq<Media>, t: nat)
    requires forall i :: 0 <= i < |s| ==> s[i].createdAt == t
    ensures SortByCapture(s) == s
  {
    if s != [] {
      SortKeepsTies(s[1..], t);
      assert s == [s[0]] + s[1..];
    }
  }

  /** The sort is stable: media captured at the same moment keep their input order. */
  lemma SortIsStable(ms: seq<Media>, t: nat)
    ensures Filter(SortByCapture(ms), CapturedAt(t)) == Filter(ms, CapturedAt(t))
  {
    var same := Filter(ms, CapturedAt(t));
    FilterSort(ms, CapturedAt(t));
    forall i | 0 <= i < |same| ensures same[i].createdAt == t {
      assert same[i] in same;
    }
    SortKeepsTies(same, t);
  }

  /** Each group is exactly the media with its tag, in capture order, ties in input
      order. */
  lemma GroupsAreTagsInCaptureOrder(ms: seq<Media>)
    ensures var g := ConservativeSuggestions(ms);
      && g.equipment == SortByCapture(Filter(ms, TagIs("equipment")))
      && g.sign == SortByCapture(Filter(ms, TagIs("sign")))
      && g.issue == SortByCapture(Filter(ms, TagIs("issue")))
      && g.overview == SortByCapture(Filter(ms, TagIs("overview")))
      && g.audio == SortByCapture(Filter(ms, TagIs("audio")))
  {
    FilterSort(ms, TagIs("equipment"));
    FilterSort(ms, TagIs("sign"));
    FilterSort(ms, TagIs("issue"));
    FilterSort(ms, TagIs("overview"));
    FilterSort(ms, TagIs("audio"));
  }

  /** A media record lands in the group of its tag; with any other tag it is in no group. */
  lemma GroupMembership(ms: seq<Media>, m: Media)
    requires m in ms
    ensures var g := ConservativeSuggestions(ms);
      && (m in g.equipment <==> m.tag == "equipment")
      && (m in g.sign <==> m.tag == "sign")
      && (m in g.issue <==> m.tag == "issue")
      && (m in g.overview <==> m.tag == "overview")
      && (m in g.audio <==> m.tag == "audio")
  {
    var sorted := SortByCapture(ms);
    assert m in multiset(sorted);
    assert m in sorted;
  }
}
