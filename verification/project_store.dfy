/** The in-memory project list and its durable slot (`ProjectManager`).
    The slot is the shared-preferences entry under the key "projects"; its
    JSON text is abstracted to what the JSON library reads back from it. */
module ProjectStore {
  import opened Wrappers
  import opened Decimal
  import opened Models

  /** The stored text: either well-formed JSON, which the JSON library reads
      as a project list or as `null`, or text it cannot parse. */
  datatype Blob = Json(parsed: Option<seq<Project>>) | Malformed

  /** Reading malformed text throws out of the store's constructor. */
  datatype LoadError = ParseError

  /** The store: the in-memory list and the durable slot (`None` when the
      key has never been written). */
  datatype Store = Store(projects: seq<Project>, slot: Option<Blob>)

  /** A date as the JSON library's default date format keeps it: the text
      carries whole seconds, so the milliseconds are lost (rounded down). */
  function ToWholeSecond(t: int): (r: int)
    ensures r <= t < r + 1000
    ensures r % 1000 == 0
  {
    t - t % 1000
  }

  /** A clip as it reads back from the stored text: only its timestamp
      loses its milliseconds. */
  function StoredSegment(s: VideoSegment): (r: VideoSegment)
    ensures r.id == s.id && r.uri == s.uri && r.facing == s.facing && r.order == s.order
    ensures r.timestamp <= s.timestamp < r.timestamp + 1000 && r.timestamp % 1000 == 0
  {
    s.(timestamp := ToWholeSecond(s.timestamp))
  }

  /** A project as it reads back from the stored text: same id, name and
      clips, with every date cut to whole seconds. */
  function StoredProject(p: Project): (r: Project)
    ensures r.id == p.id && r.name == p.name && |r.segments| == |p.segments|
    ensures forall i :: 0 <= i < |p.segments| ==> r.segments[i] == StoredSegment(p.segments[i])
    ensures r.createdAt <= p.createdAt < r.createdAt + 1000 && r.createdAt % 1000 == 0
    ensures r.lastModified <= p.lastModified < r.lastModified + 1000 && r.lastModified % 1000 == 0
  {
    p.(segments := seq(|p.segments|, i requires 0 <= i < |p.segments| => StoredSegment(p.segments[i])),
       createdAt := ToWholeSecond(p.createdAt),
       lastModified := ToWholeSecond(p.lastModified))
  }

  /** A project list as it reads back from the stored text. */
  function Stored(ps: seq<Project>): (r: seq<Project>)
    ensures |r| == |ps|
    ensures forall i :: 0 <= i < |ps| ==> r[i] == StoredProject(ps[i])
  {
    seq(|ps|, i requires 0 <= i < |ps| => StoredProject(ps[i]))
  }

  /** Every date of a project is a whole number of seconds. */
  predicate WholeSeconds(p: Project) {
    && p.createdAt % 1000 == 0 && p.lastModified % 1000 == 0
    && forall i :: 0 <= i < |p.segments| ==> p.segments[i].timestamp % 1000 == 0
  }

  /** Dates already in whole seconds survive storage exactly. */
  lemma StoredExactOnWholeSeconds(ps: seq<Project>)
    requires forall i :: 0 <= i < |ps| ==> WholeSeconds(ps[i])
    ensures Stored(ps) == ps
  {
    forall i | 0 <= i < |ps|
      ensures StoredProject(ps[i]) == ps[i]
    {
      var p := ps[i];
      assert StoredProject(p).segments == p.segments;
    }
  }

  /** Storing what was read back changes nothing more. */
  lemma StoredIdempotent(ps: seq<Project>)
    ensures Stored(Stored(ps)) == Stored(ps)
  {
    forall i | 0 <= i < |ps|
      ensures WholeSeconds(Stored(ps)[i])
    {
      var q := Stored(ps)[i];
      assert forall j :: 0 <= j < |q.segments| ==> q.segments[j].timestamp % 1000 == 0;
    }
    StoredExactOnWholeSeconds(Stored(ps));
  }

  /** The text that serialising a project list writes: it reads back as the
      list with its dates cut to whole seconds. */
  function Encode(ps: seq<Project>): Blob {
    Json(Some(Stored(ps)))
  }

  /** The slot holds the serialised in-memory list. */
  predicate Persisted(st: Store) {
    st.slot == Some(Encode(st.projects))
  }

  /** `saveProjects`: overwrite the slot with the whole list. */
  function Save(st: Store): (r: Store)
    ensures r.projects == st.projects
    ensures Persisted(r)
  {
    st.(slot := Some(Encode(st.projects)))
  }

  /** `loadProjects`: no stored text and text that reads as `null` both
      give the empty list; unparsable text is a failure. */
  function Load(slot: Option<Blob>): (r: Result<seq<Project>, LoadError>)
    ensures r.Failure? <==> slot == Some(Malformed)
    ensures slot.None? || slot == Some(Json(None)) ==> r == Success([])
  {
    match slot
    case None => Success([])
    case Some(Json(None)) => Success([])
    case Some(Json(Some(ps))) => Success(ps)
    case Some(Malformed) => Failure(ParseError)
  }

  /** Constructing a `ProjectManager`: load the slot into memory, or throw
      when the stored text cannot be parsed. */
  function Open(slot: Option<Blob>): (r: Result<Store, LoadError>)
    ensures r.Failure? <==> Load(slot).Failure?
    ensures r.Success? ==> r.value.projects == Load(slot).value && r.value.slot == slot
  {
    match Load(slot)
    case Success(ps) => Success(Store(ps, slot))
    case Failure(e) => Failure(e)
  }

  /** A saved list loads back with every field intact except that dates lose
      their milliseconds. */
  lemma LoadEncode(ps: seq<Project>)
    ensures Load(Some(Encode(ps))) == Success(Stored(ps))
  {
  }

  /** Re-opening a persisted store (as a fresh screen or a restart does)
      gives the stored form of its list, and that store is persisted too. */
  lemma ReopenPersisted(st: Store)
    requires Persisted(st)
    ensures Open(st.slot) == Success(Store(Stored(st.projects), st.slot))
    ensures Persisted(Open(st.slot).value)
  {
    StoredIdempotent(st.projects);
  }

  /** The default name of the n-th project: "Project " then n in decimal. */
  function ProjectName(n: nat): (r: string)
    ensures |r| > 8 && r[..8] == "Project " && r[8..] == NatToString(n)
  {
    "Project " + NatToString(n)
  }

  /** Different counts give different default names. */
  lemma ProjectNameInjective(a: nat, b: nat)
    ensures ProjectName(a) == ProjectName(b) ==> a == b
  {
    if ProjectName(a) == ProjectName(b) {
      assert NatToString(a) == ProjectName(a)[8..];
      assert NatToString(b) == ProjectName(b)[8..];
      NatToStringInjective(a, b);
    }
  }

  /** `createNewProject`: `id` and `now` are the clock readings that
      `Project.create` takes by default. One empty project, named after the
      new count, is appended at the end and the list is saved. */
  function CreateNewProject(st: Store, id: int, now: int): (r: (Store, Project))
    ensures r.0.projects == st.projects + [r.1]
    ensures r.1.name == ProjectName(|st.projects| + 1)
    ensures r.1.id == id && r.1.segments == []
    ensures r.1.createdAt == now && r.1.lastModified == now
    ensures Persisted(r.0)
  {
    var project := CreateProject(ProjectName(|st.projects| + 1), id, [], now);
    (Save(st.(projects := st.projects + [project])), project)
  }

  /** `indexOfFirst { it.id == id }`: the first position holding the id, or
      -1 when no project has it. */
  function IndexOfId(ps: seq<Project>, id: int): (i: int)
    ensures -1 <= i < |ps|
    ensures i == -1 <==> forall j :: 0 <= j < |ps| ==> ps[j].id != id
    ensures 0 <= i ==> ps[i].id == id && forall j :: 0 <= j < i ==> ps[j].id != id
  {
    if |ps| == 0 then -1
    else if ps[0].id == id then 0
    else
      var k := IndexOfId(ps[1..], id);
      if k == -1 then -1 else k + 1
  }

  /** `updateProject`: replace the first project with the same id and save;
      with no such project, neither the list nor the slot changes. */
  function UpdateProject(st: Store, p: Project): (r: Store)
    ensures (forall j :: 0 <= j < |st.projects| ==> st.projects[j].id != p.id) ==> r == st
    ensures forall i :: 0 <= i < |st.projects| && st.projects[i].id == p.id
                        && (forall j :: 0 <= j < i ==> st.projects[j].id != p.id) ==>
              r.projects == st.projects[i := p] && Persisted(r)
  {
    var i := IndexOfId(st.projects, p.id);
    if i == -1 then st
    else Save(st.(projects := st.projects[i := p]))
  }

  /** Updating twice with the same value is the same as updating once. */
  lemma UpdateIdempotent(st: Store, p: Project)
    ensures UpdateProject(UpdateProject(st, p), p) == UpdateProject(st, p)
  {
    var i := IndexOfId(st.projects, p.id);
    if i != -1 {
      var ps := st.projects[i := p];
      var k := IndexOfId(ps, p.id);
      assert ps[i].id == p.id;
      assert k != -1;
      assert k == i;
    }
  }

  /** `indexOf`: the first position holding a value equal to `x`, or -1. */
  function IndexOf<T(==)>(s: seq<T>, x: T): (i: int)
    ensures -1 <= i < |s|
    ensures i == -1 <==> x !in s
    ensures 0 <= i ==> s[i] == x && forall j :: 0 <= j < i ==> s[j] != x
  {
    if |s| == 0 then -1
    else if s[0] == x then 0
    else
      var k := IndexOf(s[1..], x);
      if k == -1 then -1 else k + 1
  }

  /** `MutableList.remove(element)`: drop the first element equal to `x`;
      everything else keeps its relative order. */
  function RemoveFirst<T(==)>(s: seq<T>, x: T): (r: seq<T>)
    ensures x !in s ==> r == s
    ensures x in s ==> r == s[..IndexOf(s, x)] + s[IndexOf(s, x) + 1..]
    ensures multiset(r) == multiset(s) - multiset{x}
  {
    var i := IndexOf(s, x);
    if i == -1 then s
    else
      assert s == s[..i] + [s[i]] + s[i + 1..];
      s[..i] + s[i + 1..]
  }

  /** `deleteProject`: remove the first project equal to `p` in every field
      (not merely in id) and save, whether or not one was found. */
  function DeleteProject(st: Store, p: Project): (r: Store)
    ensures p !in st.projects ==> r.projects == st.projects
    ensures p in st.projects ==>
              var i := IndexOf(st.projects, p);
              r.projects == st.projects[..i] + st.projects[i + 1..]
    ensures multiset(r.projects) == multiset(st.projects) - multiset{p}
    ensures Persisted(r)
  {
    Save(st.(projects := RemoveFirst(st.projects, p)))
  }

  /** A project is created, then re-read on the next start: the earlier
      projects in their stored form, then the new one with its id, its name,
      no clips, and both dates equal to the creation time in whole seconds. */
  lemma CreateThenReopen(st: Store, id: int, now: int)
    ensures var (st', p) := CreateNewProject(st, id, now);
            && Open(st'.slot).Success?
            && Open(st'.slot).value.projects == Stored(st.projects) + [StoredProject(p)]
            && var q := StoredProject(p);
               && q.id == id && q.name == ProjectName(|st.projects| + 1) && q.segments == []
               && q.createdAt == ToWholeSecond(now) && q.lastModified == ToWholeSecond(now)
  {
    var (st', p) := CreateNewProject(st, id, now);
    assert Stored(st.projects + [p]) == Stored(st.projects) + [StoredProject(p)];
  }

  /** Two projects created with the same clock reading carry the same id:
      nothing in the store keeps ids apart. */
  lemma SameClockSameId(st: Store, id: int, now: int)
    ensures var (st1, p1) := CreateNewProject(st, id, now);
            var (st2, p2) := CreateNewProject(st1, id, now);
            && p1.id == p2.id && p1 != p2
            && |st2.projects| == |st.projects| + 2
  {
    var (st1, p1) := CreateNewProject(st, id, now);
    var (st2, p2) := CreateNewProject(st1, id, now);
    ProjectNameInjective(|st.projects| + 1, |st1.projects| + 1);
  }
}
