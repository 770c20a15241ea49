/** The playback screen (`PlayerActivity`): find the project, order its clips
    by `order`, keep the clips whose file is on disk, and hand the resulting
    queue to the player. The file system enters as two functions: `resolve`
    gives the absolute path of a file name inside the app's files directory,
    and `fileExists` says whether a path names an existing file. */
module Playback {
  import opened Wrappers
  import opened Models
  import opened ProjectStore

  /** A media item built from an absolute file path. */
  datatype MediaItem = MediaItem(path: string)

  /** The calls the screen makes on the player, in the order it makes them. */
  datatype PlayerCall = SetMediaItems(items: seq<MediaItem>) | Prepare | Play

  /** Either "No video files found" (the player is given nothing) or the
      calls made on the player. */
  datatype PlayOutcome = NoVideoFiles | Started(calls: seq<PlayerCall>)

  /** What opening the screen for a project id leads to. `LoadFailed` is the
      store's constructor throwing on unreadable stored text. */
  datatype PlayerScreen =
    | LoadFailed
    | ProjectNotFound
    | Shown(project: Project, playback: PlayOutcome)

  // ---------------------------------------------------------------------
  // Ordering by `order` (`sortedBy { it.order }`, a stable sort)
  // ---------------------------------------------------------------------

  predicate SortedByOrder(s: seq<VideoSegment>) {
    forall i, j :: 0 <= i < j < |s| ==> s[i].order <= s[j].order
  }

  /** The clips whose order is `k`, in sequence order. A sort is stable when
      it keeps every one of these runs as it was. */
  function WithOrder(s: seq<VideoSegment>, k: int): seq<VideoSegment> {
    if |s| == 0 then []
    else (if s[0].order == k then [s[0]] else []) + WithOrder(s[1..], k)
  }

  /** Put `x` in front of the first clip whose order is not below its own. */
  function Insert(x: VideoSegment, s: seq<VideoSegment>): (r: seq<VideoSegment>)
    requires SortedByOrder(s)
    ensures SortedByOrder(r)
    ensures |r| == |s| + 1
    ensures r[0] == x || (|s| > 0 && r[0] == s[0])
    ensures multiset(r) == multiset(s) + multiset{x}
  {
    if |s| == 0 then [x]
    else if x.order <= s[0].order then [x] + s
    else
      assert s == [s[0]] + s[1..];
      var rest := Insert(x, s[1..]);
      assert s[0].order <= rest[0].order;
      [s[0]] + rest
  }

  /** Insertion sort by `order`; each clip is placed before the later ones
      with the same order, so ties keep their collection order. */
  function SortByOrder(s: seq<VideoSegment>): (r: seq<VideoSegment>)
    ensures SortedByOrder(r)
    ensures multiset(r) == multiset(s)
  {
    if |s| == 0 then []
    else
      assert s == [s[0]] + s[1..];
      Insert(s[0], SortByOrder(s[1..]))
  }

  lemma WithOrderCons(y: VideoSegment, t: seq<VideoSegment>, k: int)
    ensures WithOrder([y] + t, k) == (if y.order == k then [y] else []) + WithOrder(t, k)
  {
    assert ([y] + t)[1..] == t;
  }

  lemma {:induction false} WithOrderInsert(x: VideoSegment, s: seq<VideoSegment>, k: int)
    requires SortedByOrder(s)
    ensures WithOrder(Insert(x, s), k) == (if x.order == k then [x] else []) + WithOrder(s, k)
    decreases |s|
  {
    if |s| == 0 {
      WithOrderCons(x, [], k);
    } else if x.order <= s[0].order {
      WithOrderCons(x, s, k);
    } else {
      var rest := Insert(x, s[1..]);
      assert Insert(x, s) == [s[0]] + rest;
      SortedTail(s);
      WithOrderInsert(x, s[1..], k);
      WithOrderCons(s[0], rest, k);
      WithOrderCons(s[0], s[1..], k);
      assert [s[0]] + s[1..] == s;
      assert x.order == k ==> s[0].order != k;
    }
  }

  /** The sort is stable: for every order value, the clips carrying it come
      out in the order they had in the project. */
  lemma {:induction false} SortIsStable(s: seq<VideoSegment>, k: int)
    ensures WithOrder(SortByOrder(s), k) == WithOrder(s, k)
    decreases |s|
  {
    if |s| > 0 {
      SortIsStable(s[1..], k);
      WithOrderInsert(s[0], SortByOrder(s[1..]), k);
    }
  }

  lemma {:induction false} WithOrderMember(s: seq<VideoSegment>, k: int, x: VideoSegment)
    requires x in WithOrder(s, k)
    ensures x in s && x.order == k
    decreases |s|
  {
    if |s| > 0 {
      WithOrderCons(s[0], s[1..], k);
      assert [s[0]] + s[1..] == s;
      if x != s[0] || s[0].order != k {
        WithOrderMember(s[1..], k, x);
      }
    }
  }

  lemma {:induction false} WithOrderNonEmpty(s: seq<VideoSegment>, i: int)
    requires 0 <= i < |s|
    ensures |WithOrder(s, s[i].order)| > 0
    decreases |s|
  {
    if i > 0 {
      WithOrderNonEmpty(s[1..], i - 1);
      assert s[1..][i - 1] == s[i];
    }
  }

  /** Sortedness and stability pin the result down: two sorted lists that
      agree on every run of equal orders are the same list. */
  lemma {:induction false} SortedRunsDetermineList(a: seq<VideoSegment>, b: seq<VideoSegment>)
    requires SortedByOrder(a) && SortedByOrder(b)
    requires forall k :: WithOrder(a, k) == WithOrder(b, k)
    ensures a == b
    decreases |a|
  {
    if |a| == 0 {
      if |b| > 0 {
        WithOrderNonEmpty(b, 0);
      }
    } else {
      WithOrderNonEmpty(a, 0);
      var ka := a[0].order;
      assert |b| > 0;
      var kb := b[0].order;
      WithOrderNonEmpty(b, 0);
      WithOrderMember(b, ka, WithOrder(b, ka)[0]);
      WithOrderMember(a, kb, WithOrder(a, kb)[0]);
      assert ka == kb;
      assert a[0] == b[0];
      WithOrderTail(a);
      WithOrderTail(b);
      SortedTail(a);
      SortedTail(b);
      forall k
        ensures WithOrder(a[1..], k) == WithOrder(b[1..], k)
      {
        var h := if a[0].order == k then [a[0]] else [];
        assert WithOrder(a[1..], k) == (h + WithOrder(a[1..], k))[|h|..];
        assert WithOrder(b[1..], k) == (h + WithOrder(b[1..], k))[|h|..];
      }
      SortedRunsDetermineList(a[1..], b[1..]);
      assert a == [a[0]] + a[1..] && b == [b[0]] + b[1..];
    }
  }

  lemma WithOrderTail(s: seq<VideoSegment>)
    requires |s| > 0
    ensures forall k :: WithOrder(s, k) == (if s[0].order == k then [s[0]] else []) + WithOrder(s[1..], k)
  {
  }

  /** Dropping the first clip of a sorted list leaves it sorted. */
  lemma SortedTail(s: seq<VideoSegment>)
    requires |s| > 0 && SortedByOrder(s)
    ensures SortedByOrder(s[1..])
  {
    forall i, j | 0 <= i < j < |s[1..]|
      ensures s[1..][i].order <= s[1..][j].order
    {
      assert s[1..][i] == s[i + 1] && s[1..][j] == s[j + 1];
    }
  }

  /** Dropping the last clip of a sorted list leaves it sorted. */
  lemma SortedInit(s: seq<VideoSegment>)
    requires |s| > 0 && SortedByOrder(s)
    ensures SortedByOrder(s[..|s| - 1])
  {
    var init := s[..|s| - 1];
    forall i, j | 0 <= i < j < |init|
      ensures init[i].order <= init[j].order
    {
      assert init[i] == s[i] && init[j] == s[j];
    }
  }

  /** `SortByOrder` is the stable sort by order: any list that is sorted by
      order and keeps every run of equal orders as in `s` is its result. */
  lemma StableSortIsUnique(s: seq<VideoSegment>, r: seq<VideoSegment>)
    requires SortedByOrder(r)
    requires forall k :: WithOrder(r, k) == WithOrder(s, k)
    ensures r == SortByOrder(s)
  {
    forall k
      ensures WithOrder(r, k) == WithOrder(SortByOrder(s), k)
    {
      SortIsStable(s, k);
    }
    SortedRunsDetermineList(r, SortByOrder(s));
  }

  /** A list already in order is left exactly as it is. */
  lemma {:induction false} SortSortedIsIdentity(s: seq<VideoSegment>)
    requires SortedByOrder(s)
    ensures SortByOrder(s) == s
    decreases |s|
  {
    if |s| > 0 {
      SortedTail(s);
      SortSortedIsIdentity(s[1..]);
      if |s| > 1 {
        assert s[0].order <= s[1..][0].order;
      }
      assert [s[0]] + s[1..] == s;
    }
  }

  // ---------------------------------------------------------------------
  // Dropping clips whose file is missing (`mapNotNull`)
  // ---------------------------------------------------------------------

  /** Whether a clip's file is on disk. */
  predicate OnDisk(x: VideoSegment, resolve: string -> string, fileExists: string -> bool) {
    fileExists(resolve(x.uri))
  }

  /** The clips of `s` whose file is on disk, in the order of `s`. */
  function Playable(s: seq<VideoSegment>, resolve: string -> string, fileExists: string -> bool): (r: seq<VideoSegment>)
    ensures |r| <= |s|
    ensures forall x :: x in r <==> x in s && OnDisk(x, resolve, fileExists)
    ensures SortedByOrder(s) ==> SortedByOrder(r)
    decreases |s|
  {
    if |s| == 0 then []
    else
      var init := s[..|s| - 1];
      var last := s[|s| - 1];
      assert s == init + [last];
      assert SortedByOrder(s) ==> SortedByOrder(init) by {
        if SortedByOrder(s) {
          SortedInit(s);
        }
      }
      var kept := Playable(init, resolve, fileExists);
      assert SortedByOrder(s) ==> forall j :: 0 <= j < |kept| ==> kept[j].order <= last.order by {
        if SortedByOrder(s) {
          forall j | 0 <= j < |kept|
            ensures kept[j].order <= last.order
          {
            assert kept[j] in init;
          }
        }
      }
      kept + (if OnDisk(last, resolve, fileExists) then [last] else [])
  }

  /** Every clip on disk is kept as many times as it occurs, every other
      clip not at all: filtering neither duplicates nor merges clips. */
  lemma {:induction false} PlayableCounts(s: seq<VideoSegment>, resolve: string -> string, fileExists: string -> bool)
    ensures forall x :: multiset(Playable(s, resolve, fileExists))[x]
                        == if OnDisk(x, resolve, fileExists) then multiset(s)[x] else 0
    decreases |s|
  {
    if |s| > 0 {
      var init := s[..|s| - 1];
      var last := s[|s| - 1];
      assert s == init + [last];
      PlayableCounts(init, resolve, fileExists);
    }
  }

  /** `a` is obtained from `b` by deleting elements. */
  ghost predicate IsSubsequence<T>(a: seq<T>, b: seq<T>)
    decreases |b|
  {
    if |a| == 0 then true
    else if |b| == 0 then false
    else
      (a[|a| - 1] == b[|b| - 1] && IsSubsequence(a[..|a| - 1], b[..|b| - 1]))
      || IsSubsequence(a, b[..|b| - 1])
  }

  /** The playable clips are a subsequence of the sorted clips: dropping
      missing files never reorders the survivors. */
  lemma {:induction false} PlayableIsSubsequence(s: seq<VideoSegment>, resolve: string -> string, fileExists: string -> bool)
    ensures IsSubsequence(Playable(s, resolve, fileExists), s)
    decreases |s|
  {
    if |s| > 0 {
      var init := s[..|s| - 1];
      var kept := Playable(init, resolve, fileExists);
      PlayableIsSubsequence(init, resolve, fileExists);
      var r := Playable(s, resolve, fileExists);
      if OnDisk(s[|s| - 1], resolve, fileExists) {
        assert r[..|r| - 1] == kept;
      } else {
        assert r == kept;
      }
    }
  }

  /** The media items for a list of clips, one per clip, in the same order. */
  function MediaItems(s: seq<VideoSegment>, resolve: string -> string): (r: seq<MediaItem>)
    ensures |r| == |s|
    ensures forall j :: 0 <= j < |s| ==> r[j].path == resolve(s[j].uri)
  {
    seq(|s|, j requires 0 <= j < |s| => MediaItem(resolve(s[j].uri)))
  }

  /** Extending the list by one clip extends the queue by that clip's item
      exactly when its file is on disk. */
  lemma QueueStep(s: seq<VideoSegment>, i: nat, resolve: string -> string, fileExists: string -> bool)
    requires i < |s|
    ensures MediaItems(Playable(s[..i + 1], resolve, fileExists), resolve)
            == MediaItems(Playable(s[..i], resolve, fileExists), resolve)
               + (if OnDisk(s[i], resolve, fileExists) then [MediaItem(resolve(s[i].uri))] else [])
  {
    assert s[..i + 1][..i] == s[..i];
  }

  /** The queue for a list of clips already sorted by order: one media item
      per clip whose file exists, built in a single pass. */
  method BuildQueue(sorted: seq<VideoSegment>, resolve: string -> string, fileExists: string -> bool)
    returns (items: seq<MediaItem>)
    ensures items == MediaItems(Playable(sorted, resolve, fileExists), resolve)
  {
    items := [];
    var i := 0;
    while i < |sorted|
      invariant 0 <= i <= |sorted|
      invariant items == MediaItems(Playable(sorted[..i], resolve, fileExists), resolve)
    {
      var segment := sorted[i];
      QueueStep(sorted, i, resolve, fileExists);
      if fileExists(resolve(segment.uri)) {
        items := items + [MediaItem(resolve(segment.uri))];
      }
      i := i + 1;
    }
    assert sorted[..i] == sorted;
  }

  /** `initializePlayer`: sort, keep the clips on disk, then either report
      that nothing can be played or hand the whole queue to the player and
      start it. */
  method InitializePlayer(project: Project, resolve: string -> string, fileExists: string -> bool)
    returns (playback: PlayOutcome)
    ensures var kept := Playable(SortByOrder(project.segments), resolve, fileExists);
            && (playback == NoVideoFiles <==> |kept| == 0)
            && (playback.Started? ==> playback.calls == [SetMediaItems(MediaItems(kept, resolve)), Prepare, Play])
            && (playback.Started? ==> 0 < |playback.calls[0].items| <= SegmentCount(project))
  {
    var sorted := SortByOrder(project.segments);
    assert |sorted| == |project.segments| by {
      assert |multiset(sorted)| == |multiset(project.segments)|;
    }
    var items := BuildQueue(sorted, resolve, fileExists);
    if |items| == 0 {
      return NoVideoFiles;
    }
    playback := Started([SetMediaItems(items), Prepare, Play]);
  }

  /** `projects.find { it.id == id }`: the first project with the id. */
  function FindProject(ps: seq<Project>, id: int): (r: Option<Project>)
    ensures r.None? <==> forall j :: 0 <= j < |ps| ==> ps[j].id != id
    ensures r.Some? ==> exists i :: 0 <= i < |ps| && ps[i] == r.value && r.value.id == id
                                    && forall j :: 0 <= j < i ==> ps[j].id != id
  {
    var i := IndexOfId(ps, id);
    if i == -1 then None else Some(ps[i])
  }

  /** `onCreate`: open the store from the durable slot, look the project up
      by id, and play it. The project shown is the stored one, unchanged. */
  method OnCreate(slot: Option<Blob>, projectId: int, resolve: string -> string, fileExists: string -> bool)
    returns (screen: PlayerScreen)
    ensures screen == LoadFailed <==> Open(slot).Failure?
    ensures Open(slot).Success? ==>
              (screen == ProjectNotFound <==> FindProject(Open(slot).value.projects, projectId).None?)
    ensures screen.Shown? ==>
              && Open(slot).Success?
              && screen.project in Open(slot).value.projects
              && screen.project.id == projectId
              && screen.project == FindProject(Open(slot).value.projects, projectId).value
              && (screen.playback == NoVideoFiles <==>
                    |Playable(SortByOrder(screen.project.segments), resolve, fileExists)| == 0)
              && (screen.playback.Started? ==>
                    screen.playback.calls == [SetMediaItems(MediaItems(Playable(SortByOrder(screen.project.segments), resolve, fileExists), resolve)),
                                              Prepare, Play])
  {
    var store := Open(slot);
    if store.Failure? {
      return LoadFailed;
    }
    var found := FindProject(store.value.projects, projectId);
    if found.None? {
      return ProjectNotFound;
    }
    var playback := InitializePlayer(found.value, resolve, fileExists);
    screen := Shown(found.value, playback);
  }
}
