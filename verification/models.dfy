/** The two records the recorder persists: a one-second clip and the project
    that collects clips. Dates are milliseconds since the epoch, which is
    what `java.util.Date` compares and what the persisted form keeps. */
module Models {

  /** The facing recorded for clips taken with the back camera. */
  const Back := "back"

  /** One recorded clip. `uri` is a file name relative to the app's files
      directory; `order` is the 1-based playback position. */
  datatype VideoSegment = VideoSegment(
    id: int,
    uri: string,
    timestamp: int,
    facing: string,
    order: int)

  /** A named collection of clips. The list order is the order in which the
      clips were appended, not necessarily their playback order. */
  datatype Project = Project(
    id: int,
    name: string,
    segments: seq<VideoSegment>,
    createdAt: int,
    lastModified: int)

  /** `VideoSegment.create`: the clock-derived id and timestamp are explicit
      arguments here. Every argument lands in its own field unchanged. */
  function CreateSegment(uri: string, facing: string, order: int, id: int, timestamp: int): (s: VideoSegment)
    ensures s.uri == uri && s.facing == facing && s.order == order
    ensures s.id == id && s.timestamp == timestamp
  {
    VideoSegment(id, uri, timestamp, facing, order)
  }

  /** `Project.create`: a new project is last modified when it was created. */
  function CreateProject(name: string, id: int, segments: seq<VideoSegment>, createdAt: int): (p: Project)
    ensures p.id == id && p.name == name && p.segments == segments
    ensures p.createdAt == createdAt && p.lastModified == createdAt
  {
    Project(id, name, segments, createdAt, createdAt)
  }

  /** `Project.segmentCount`: how many clips the project holds; zero exactly
      for a project with no clips. */
  function SegmentCount(p: Project): (n: nat)
    ensures n == 0 <==> p.segments == []
  {
    |p.segments|
  }

  /** `Project.addSegment`: the clip goes at the end, the modification time
      becomes `now`, and identity, name and creation time stay. */
  function AddSegment(p: Project, s: VideoSegment, now: int): (r: Project)
    ensures r.segments == p.segments + [s]
    ensures r.lastModified == now
    ensures r.id == p.id && r.name == p.name && r.createdAt == p.createdAt
  {
    p.(segments := p.segments + [s], lastModified := now)
  }

  /** A project created with the default (empty) clip list holds no clips. */
  lemma CreatedProjectIsEmpty(name: string, id: int, createdAt: int)
    ensures SegmentCount(CreateProject(name, id, [], createdAt)) == 0
  {
  }

  /** Appending a clip raises the count by exactly one and keeps every earlier
      clip at its index. */
  lemma AddSegmentCount(p: Project, s: VideoSegment, now: int)
    ensures SegmentCount(AddSegment(p, s, now)) == SegmentCount(p) + 1
    ensures AddSegment(p, s, now).segments[SegmentCount(p)] == s
    ensures forall i :: 0 <= i < SegmentCount(p) ==> AddSegment(p, s, now).segments[i] == p.segments[i]
  {
  }
}
