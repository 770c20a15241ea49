/** How the recording screen (`MainActivity.recordSegment`) composes the
    capture controller with the store: every successful clip is appended to
    the current project, which is then written back to the store. */
module Session {
  import opened Wrappers
  import opened Models
  import opened ProjectStore
  import opened Capture
  import opened Playback

  /** The positions of the store's list that hold the app's current
      project object, whose value is `project`. `addSegment` changes that
      object in place, so every one of these positions sees the change. */
  predicate HeldAt(st: Store, project: Project, aliases: set<int>) {
    forall k :: k in aliases ==> 0 <= k < |st.projects| && st.projects[k] == project
  }

  /** The list after `updated` has replaced the value at every position in
      `aliases`, without any save. */
  function ChangeInPlace(ps: seq<Project>, aliases: set<int>, updated: Project): (r: seq<Project>)
    ensures |r| == |ps|
    ensures forall k :: 0 <= k < |ps| ==> r[k] == (if k in aliases then updated else ps[k])
  {
    seq(|ps|, k requires 0 <= k < |ps| => if k in aliases then updated else ps[k])
  }

  /** Changing the shared object keeps the id at every position, so the
      first position with any id is where it was. */
  lemma ChangeInPlaceKeepsIds(st: Store, project: Project, aliases: set<int>, updated: Project)
    requires HeldAt(st, project, aliases) && updated.id == project.id
    ensures var changed := ChangeInPlace(st.projects, aliases, updated);
            forall j :: 0 <= j < |changed| ==> changed[j].id == st.projects[j].id
  {
  }

  /** The success callback of `recordSegment` as the app runs it: append the
      clip to the current project object (changing every position holding
      it), then `updateProject`, which writes the object at the first
      position with its id and saves. With no position holding the id, the
      list and the slot are left as they were. */
  function RecordSegment(st: Store, project: Project, aliases: set<int>, segment: VideoSegment, now: int)
    : (r: (Store, Project))
    requires HeldAt(st, project, aliases)
    ensures r.1.segments == project.segments + [segment] && r.1.lastModified == now
    ensures r.1.id == project.id && r.1.name == project.name && r.1.createdAt == project.createdAt
    ensures |r.0.projects| == |st.projects|
    ensures forall k :: k in aliases ==> r.0.projects[k] == r.1
    ensures (forall j :: 0 <= j < |st.projects| ==> st.projects[j].id != project.id) ==> r.0 == st
    ensures forall i :: 0 <= i < |st.projects| && st.projects[i].id == project.id
                        && (forall j :: 0 <= j < i ==> st.projects[j].id != project.id) ==>
              && r.0.projects[i] == r.1
              && (forall k :: 0 <= k < |st.projects| && k != i && k !in aliases ==> r.0.projects[k] == st.projects[k])
              && Persisted(r.0)
  {
    var updated := AddSegment(project, segment, now);
    var changed := ChangeInPlace(st.projects, aliases, updated);
    ChangeInPlaceKeepsIds(st, project, aliases, updated);
    assert (forall j :: 0 <= j < |st.projects| ==> st.projects[j].id != project.id) ==> changed == st.projects;
    (UpdateProject(st.(projects := changed), updated), updated)
  }

  /** When an earlier project shares the recorded project's id, that earlier
      project is overwritten with the recorded one and is lost. */
  lemma RecordOverwritesEarlierTwin(p1: Project, p2: Project, segment: VideoSegment, now: int)
    requires p1.id == p2.id && p1.segments == []
    ensures var st := Store([p1, p2], Some(Encode([p1, p2])));
            var (st', p') := RecordSegment(st, p2, {1}, segment, now);
            && st'.projects == [p', p']
            && p1 !in st'.projects
  {
    var st := Store([p1, p2], Some(Encode([p1, p2])));
    var (st', p') := RecordSegment(st, p2, {1}, segment, now);
    assert st'.projects[0] == p';
    assert st'.projects[1] == p';
    assert |p'.segments| > 0;
  }

  /** The evidently intended callback: the clip is appended to the current
      project, only the positions holding it change, and the list is saved. */
  function RecordSegmentInPlace(st: Store, project: Project, aliases: set<int>, segment: VideoSegment, now: int)
    : (r: (Store, Project))
    requires HeldAt(st, project, aliases)
    ensures r.1.segments == project.segments + [segment] && r.1.lastModified == now
    ensures r.1.id == project.id && r.1.name == project.name && r.1.createdAt == project.createdAt
    ensures |r.0.projects| == |st.projects|
    ensures forall k :: 0 <= k < |st.projects| ==>
              r.0.projects[k] == (if k in aliases then r.1 else st.projects[k])
    ensures aliases != {} ==> Persisted(r.0)
  {
    var updated := AddSegment(project, segment, now);
    if aliases == {} then (st, updated)
    else (Save(st.(projects := ChangeInPlace(st.projects, aliases, updated))), updated)
  }

  /** When the first position with the project's id holds the current
      project object (always so when ids are distinct), the app's callback
      does exactly what was intended. */
  lemma RecordAgreesWhenFirstMatchIsCurrent(st: Store, project: Project, aliases: set<int>, segment: VideoSegment, now: int)
    requires HeldAt(st, project, aliases)
    requires IndexOfId(st.projects, project.id) in aliases
    ensures RecordSegment(st, project, aliases, segment, now) == RecordSegmentInPlace(st, project, aliases, segment, now)
  {
    var i := IndexOfId(st.projects, project.id);
    var updated := AddSegment(project, segment, now);
    var changed := ChangeInPlace(st.projects, aliases, updated);
    assert changed[i] == updated;
    assert IndexOfId(changed, project.id) == i by {
      assert forall j :: 0 <= j < i ==> changed[j].id == st.projects[j].id;
    }
    assert changed[i := updated] == changed;
  }

  /** A project created with an id no other project has is the first (and
      only) holder of that id, at the end of the list. */
  lemma CreatedIsFirstWithId(st: Store, id: int, now: int)
    requires forall j :: 0 <= j < |st.projects| ==> st.projects[j].id != id
    ensures var (st1, p) := CreateNewProject(st, id, now);
            && HeldAt(st1, p, {|st.projects|})
            && IndexOfId(st1.projects, id) == |st.projects|
  {
    var (st1, p) := CreateNewProject(st, id, now);
    var i := |st.projects|;
    assert st1.projects[i] == p;
    forall j | 0 <= j < i
      ensures st1.projects[j].id != id
    {
      assert st1.projects[j] == st.projects[j];
    }
  }

  /** Recording into the project held only at the end of the list replaces
      that last entry, saves, and a restart reads the stored form back. */
  lemma RecordIntoLast(st: Store, segment: VideoSegment, later: int)
    requires |st.projects| > 0
    ensures var n := |st.projects| - 1;
            var r := RecordSegmentInPlace(st, st.projects[n], {n}, segment, later);
            && r.0.projects == st.projects[..n] + [r.1]
            && Open(r.0.slot) == Success(Store(Stored(r.0.projects), r.0.slot))
            && Open(r.0.slot).value.projects[n] == StoredProject(r.1)
  {
    var n := |st.projects| - 1;
    var r := RecordSegmentInPlace(st, st.projects[n], {n}, segment, later);
    assert r.0.projects == st.projects[..n] + [r.1] by {
      forall k | 0 <= k < |r.0.projects|
        ensures r.0.projects[k] == (st.projects[..n] + [r.1])[k]
      {
      }
    }
    ReopenPersisted(r.0);
  }

  /** The code as written does the same when no earlier project shares the
      last project's id. */
  lemma RecordIntoLastAsWritten(st: Store, segment: VideoSegment, later: int)
    requires |st.projects| > 0
    requires IndexOfId(st.projects, st.projects[|st.projects| - 1].id) == |st.projects| - 1
    ensures var n := |st.projects| - 1;
            var r := RecordSegment(st, st.projects[n], {n}, segment, later);
            && r.0.projects == st.projects[..n] + [r.1]
            && Open(r.0.slot) == Success(Store(Stored(r.0.projects), r.0.slot))
  {
    var n := |st.projects| - 1;
    RecordAgreesWhenFirstMatchIsCurrent(st, st.projects[n], {n}, segment, later);
    RecordIntoLast(st, segment, later);
  }

  /** A freshly created project that records one clip: the store then holds
      the project with that clip as its only one, at the end of the list, as
      intended, and a restart reads it back in its stored form. */
  lemma CreateThenRecord(st: Store, id: int, now: int, segment: VideoSegment, later: int)
    requires forall j :: 0 <= j < |st.projects| ==> st.projects[j].id != id
    ensures var (st1, p) := CreateNewProject(st, id, now);
            var r := RecordSegment(st1, p, {|st.projects|}, segment, later);
            && r == RecordSegmentInPlace(st1, p, {|st.projects|}, segment, later)
            && r.0.projects == st.projects + [r.1]
            && r.1.segments == [segment]
            && Open(r.0.slot) == Success(Store(Stored(r.0.projects), r.0.slot))
            && Open(r.0.slot).value.projects[|st.projects|].segments == [StoredSegment(segment)]
  {
    var (st1, p) := CreateNewProject(st, id, now);
    var i := |st.projects|;
    CreatedIsFirstWithId(st, id, now);
    RecordAgreesWhenFirstMatchIsCurrent(st1, p, {i}, segment, later);
    RecordIntoLast(st1, segment, later);
    assert st1.projects[..i] == st.projects;
  }

  /** The clock readings of one successful recording round: the start time
      that names the file, the clip's id and timestamp, and the time of the
      append. */
  datatype Take = Take(ts: nat, id: int, timestamp: int, now: int)

  /** One successful round: the recording finalizes without error and the
      callback appends the clip it delivers. */
  function CaptureRound(project: Project, take: Take): (r: Project)
    ensures |r.segments| == |project.segments| + 1
    ensures r.segments[..|project.segments|] == project.segments
    ensures r.segments[|project.segments|].order == |project.segments| + 1
    ensures r.segments[|project.segments|].uri == SegmentFilename(take.ts)
  {
    var outcome := FinalizeOutcome(Recording(SegmentFilename(take.ts)), project, ErrorNone, take.id, take.timestamp);
    var r := AddSegment(project, outcome.value, take.now);
    assert r.segments[..|project.segments|] == project.segments;
    r
  }

  /** Rounds one after another on the same project. */
  function CaptureRounds(project: Project, takes: seq<Take>): Project
    decreases |takes|
  {
    if |takes| == 0 then project
    else CaptureRounds(CaptureRound(project, takes[0]), takes[1..])
  }

  /** Clip i (from 0) has order i + 1: orders are the 1-based append positions. */
  predicate OrdersArePositions(s: seq<VideoSegment>) {
    forall i :: 0 <= i < |s| ==> s[i].order == i + 1
  }

  /** Rounds keep the earlier clips, add one clip per round in round order,
      each with the file of its round, and keep orders equal to positions. */
  lemma {:induction false} RoundsNumberClips(project: Project, takes: seq<Take>)
    requires OrdersArePositions(project.segments)
    ensures var p := CaptureRounds(project, takes);
            && |p.segments| == |project.segments| + |takes|
            && p.segments[..|project.segments|] == project.segments
            && OrdersArePositions(p.segments)
            && forall i :: 0 <= i < |takes| ==> p.segments[|project.segments| + i].uri == SegmentFilename(takes[i].ts)
    decreases |takes|
  {
    if |takes| > 0 {
      var n := |project.segments|;
      var q := CaptureRound(project, takes[0]);
      assert OrdersArePositions(q.segments) by {
        forall i | 0 <= i < |q.segments|
          ensures q.segments[i].order == i + 1
        {
          if i < n {
            assert q.segments[i] == q.segments[..n][i];
          }
        }
      }
      RoundsNumberClips(q, takes[1..]);
      var p := CaptureRounds(q, takes[1..]);
      assert p.segments[..n] == q.segments[..n + 1][..n];
      assert p.segments[n] == q.segments[..n + 1][n];
      forall i | 0 <= i < |takes|
        ensures p.segments[n + i].uri == SegmentFilename(takes[i].ts)
      {
        if i > 0 {
          assert takes[1..][i - 1] == takes[i];
        }
      }
    }
  }

  /** Starting from a new (empty) project, N successful rounds give clip i
      the order i + 1 and the file of round i. */
  lemma RoundsFromEmpty(project: Project, takes: seq<Take>)
    requires project.segments == []
    ensures var p := CaptureRounds(project, takes);
            && |p.segments| == |takes|
            && forall i :: 0 <= i < |takes| ==>
                 p.segments[i].order == i + 1 && p.segments[i].uri == SegmentFilename(takes[i].ts)
  {
    RoundsNumberClips(project, takes);
    var p := CaptureRounds(project, takes);
    forall i | 0 <= i < |takes|
      ensures p.segments[i].order == i + 1 && p.segments[i].uri == SegmentFilename(takes[i].ts)
    {
      assert p.segments[|project.segments| + i].uri == SegmentFilename(takes[i].ts);
    }
  }

  /** A project recorded from empty plays its clips in the order they were
      recorded: sorting by order leaves the list as it is. */
  lemma RecordedProjectPlaysInCaptureOrder(project: Project, takes: seq<Take>)
    requires project.segments == []
    ensures var p := CaptureRounds(project, takes);
            SortByOrder(p.segments) == p.segments
  {
    RoundsNumberClips(project, takes);
    SortSortedIsIdentity(CaptureRounds(project, takes).segments);
  }
}
