# ClipFlow segment lifecycle, modelled in Dafny

ClipFlow records a video project as a series of one-second clips
("segments") and plays them back to back. This project models the core of
the Android app as pure functions over immutable values:

- `Models` — the `VideoSegment` and `Project` records, `VideoSegment.create`,
  `Project.create`, `addSegment` and `segmentCount`.
- `ProjectStore` — the `ProjectManager`: the in-memory project list, the
  durable slot (the shared-preferences entry `"projects"`), creation with the
  default name `"Project N"`, update by id, delete by full equality, save
  and load.
- `Playback` — the `PlayerActivity`: look the project up by id, sort its
  clips stably by `order`, drop clips whose file is missing, and either
  report "No video files found" or hand the whole queue to the player,
  prepare it and play it.
- `Capture` — the `CameraManager` as an event-driven state machine: camera
  set-up outcomes, `recordOneSecond` with its guard on the capture use case,
  the recorder's Start event arming a 1000 ms stop, the timer firing
  `stopRecording`, and the Finalize event delivering an error or a clip.
- `Session` — `MainActivity.recordSegment`, which appends each delivered clip
  to the project and writes the project back to the store, used to state
  what several recordings in a row produce.
- `Decimal` and `Wrappers` — decimal rendering of numbers (as Kotlin string
  templates do) and `Option`/`Result`.

Clock readings (`System.currentTimeMillis()`, `Date()`) are arguments. The
file system enters playback as two functions: `resolve` (the absolute path of
a file name inside the app's files directory) and `fileExists`. Camera and
recorder behaviour enters the capture controller as events.

The model keeps the following behaviour exactly as the code has it, even
where a stricter design would differ:

- Reading stored text that the JSON library cannot parse throws out of the
  store's constructor; it does not fall back to an empty list.
  `ProjectStore.Load` returns a failure and `Playback.OnCreate` reports
  `LoadFailed`.
- `deleteProject` removes the first project equal in every field, not the
  first with the same id, and saves even when nothing was removed.
- The recording guard checks only whether the capture use case was assigned.
  A camera whose bind threw still passes the guard and asks the recorder to
  start (`Capture.FailedBindPassesGuard`); whether the unbound recorder then
  produces anything is the camera library's business.
- The controller itself does not reject a second `recordOneSecond` while one
  is in flight. The model lets the new recording become `activeRecording`,
  which is what the code does whenever the recorder's `start` returns (for
  instance after `stop()` and before Finalize).
- Ids are clock readings. Nothing keeps them distinct
  (`ProjectStore.SameClockSameId`).
- The clip's `order` is read from the project when the recorder reports
  Finalize (the listener holds the mutable project), so the Finalize event
  carries the project's value at that moment.
- The JSON library's default date format writes whole seconds, so every
  date read back from the slot has lost its milliseconds (`ProjectStore.Stored`).
- The recording callback changes the current project object in place, and
  that object is shared with the store's list; `updateProject` then writes it
  at the first position with its id. The model tracks the positions that hold
  the object (see Findings).

## Model

| member | source | states |
|---|---|---|
| Decimal.NatToString | app/src/main/java/com/tashichi/clipflowvideo/ProjectManager.kt:22 | the rendering of a count is a non-empty digit string with no leading zero except for 0 |
| Decimal.ParseNatToString | app/src/main/java/com/tashichi/clipflowvideo/ProjectManager.kt:22 | reading a rendered number back gives the number, so the rendering loses nothing |
| Decimal.NatToStringInjective | app/src/main/java/com/tashichi/clipflowvideo/ProjectManager.kt:22 | distinct numbers render as distinct strings |
| Models.CreateSegment | app/src/main/java/com/tashichi/clipflowvideo/Models.kt:15-23 | uri, facing, order, id and timestamp are stored exactly as given |
| Models.CreateProject | app/src/main/java/com/tashichi/clipflowvideo/Models.kt:37-44 | a new project's last-modified time equals its creation time; id, name and clips are as given |
| Models.AddSegment | app/src/main/java/com/tashichi/clipflowvideo/Models.kt:48-51 | the clip is appended at the end only; last-modified becomes the supplied time; id, name and creation time are unchanged |
| Models.SegmentCount | app/src/main/java/com/tashichi/clipflowvideo/Models.kt:54-55 | the count is zero exactly when the project holds no clips |
| Models.CreatedProjectIsEmpty | app/src/main/java/com/tashichi/clipflowvideo/Models.kt:40 | a project created with the default clip list has a clip count of 0 |
| Models.AddSegmentCount | app/src/main/java/com/tashichi/clipflowvideo/Models.kt:48-55 | appending raises the clip count by one, puts the clip at the old count and leaves earlier clips in place |
| ProjectStore.Save | app/src/main/java/com/tashichi/clipflowvideo/ProjectManager.kt:48-51 | saving leaves the list alone and makes the slot hold exactly the whole list |
| ProjectStore.Load | app/src/main/java/com/tashichi/clipflowvideo/ProjectManager.kt:55-63 | no stored text, or text read as null, gives the empty list; loading fails exactly when the text is unparsable |
| ProjectStore.ToWholeSecond | app/src/main/java/com/tashichi/clipflowvideo/ProjectManager.kt:48-59 | a date read back is the largest multiple of 1000 ms not above the written one |
| ProjectStore.StoredSegment | app/src/main/java/com/tashichi/clipflowvideo/ProjectManager.kt:48-59 | a clip reads back with id, file, facing and order intact and only its timestamp cut to whole seconds |
| ProjectStore.StoredProject | app/src/main/java/com/tashichi/clipflowvideo/ProjectManager.kt:48-59 | a project reads back with the same id, name and clip count, each clip in its stored form, and both dates cut to whole seconds |
| ProjectStore.Stored | app/src/main/java/com/tashichi/clipflowvideo/ProjectManager.kt:48-59 | a list reads back with the same length, each project in its stored form at its own position |
| ProjectStore.StoredExactOnWholeSeconds | app/src/main/java/com/tashichi/clipflowvideo/ProjectManager.kt:48-59 | a list whose dates are all whole seconds survives saving and loading exactly |
| ProjectStore.StoredIdempotent | app/src/main/java/com/tashichi/clipflowvideo/ProjectManager.kt:48-59 | saving what was loaded and loading it again changes nothing further |
| ProjectStore.Open | app/src/main/java/com/tashichi/clipflowvideo/ProjectManager.kt:13-18 | constructing the store fails exactly when loading fails; otherwise the list is what was loaded and the slot is left as it was |
| ProjectStore.LoadEncode | app/src/main/java/com/tashichi/clipflowvideo/ProjectManager.kt:48-59 | a saved list loads back as its stored form: same projects in the same order, dates cut to whole seconds |
| ProjectStore.ReopenPersisted | app/src/main/java/com/tashichi/clipflowvideo/ProjectManager.kt:13-18 | constructing the store from a slot holding the list gives the stored form of the list and the same slot, and that store is persisted too |
| ProjectStore.ProjectName | app/src/main/java/com/tashichi/clipflowvideo/ProjectManager.kt:22 | the default name is "Project " followed by the count in decimal |
| ProjectStore.ProjectNameInjective | app/src/main/java/com/tashichi/clipflowvideo/ProjectManager.kt:22 | different counts give different default project names |
| ProjectStore.CreateNewProject | app/src/main/java/com/tashichi/clipflowvideo/ProjectManager.kt:21-28 | exactly one project is appended at the end, named "Project " + (old size + 1), with no clips, creation time equal to last-modified time, and the slot then holds the whole list |
| ProjectStore.IndexOfId | app/src/main/java/com/tashichi/clipflowvideo/ProjectManager.kt:32 | the result is the first position holding the id, or -1 exactly when no project has it |
| ProjectStore.UpdateProject | app/src/main/java/com/tashichi/clipflowvideo/ProjectManager.kt:31-38 | with the id present, only the first matching position is replaced, length and all other positions are kept, and the slot holds the new list; with the id absent, list and slot are unchanged |
| ProjectStore.UpdateIdempotent | app/src/main/java/com/tashichi/clipflowvideo/ProjectManager.kt:31-38 | updating twice with the same project equals updating once |
| ProjectStore.IndexOf | app/src/main/java/com/tashichi/clipflowvideo/ProjectManager.kt:42 | the first position holding an equal element, or -1 exactly when there is none |
| ProjectStore.RemoveFirst | app/src/main/java/com/tashichi/clipflowvideo/ProjectManager.kt:42 | an absent element leaves the list unchanged; otherwise exactly the first equal element is cut out and the rest keep their order; one occurrence leaves the multiset |
| ProjectStore.DeleteProject | app/src/main/java/com/tashichi/clipflowvideo/ProjectManager.kt:41-45 | the first project equal in all five fields is removed, others keep their relative order, an absent project changes nothing in the list, and the slot holds the whole list either way |
| ProjectStore.CreateThenReopen | app/src/main/java/com/tashichi/clipflowvideo/ProjectManager.kt:21-28 | after a creation, a fresh load reads the earlier projects in stored form followed by the new one with its id, its name, no clips, and both dates equal to the creation time cut to whole seconds |
| ProjectStore.SameClockSameId | app/src/main/java/com/tashichi/clipflowvideo/Models.kt:39 | two creations at the same clock reading give two different projects with the same id |
| Playback.Insert | app/src/main/java/com/tashichi/clipflowvideo/PlayerActivity.kt:74 | inserting into a list sorted by order keeps it sorted and adds exactly that clip |
| Playback.SortByOrder | app/src/main/java/com/tashichi/clipflowvideo/PlayerActivity.kt:74 | the result is in non-decreasing order and is a permutation of the clips |
| Playback.WithOrderInsert | app/src/main/java/com/tashichi/clipflowvideo/PlayerActivity.kt:74 | insertion puts a clip ahead of every clip with the same order |
| Playback.SortIsStable | app/src/main/java/com/tashichi/clipflowvideo/PlayerActivity.kt:74 | for every order value, the clips carrying it come out in their collection order |
| Playback.SortedRunsDetermineList | app/src/main/java/com/tashichi/clipflowvideo/PlayerActivity.kt:74 | two sorted lists that agree on every run of equal orders are equal |
| Playback.StableSortIsUnique | app/src/main/java/com/tashichi/clipflowvideo/PlayerActivity.kt:74 | any sorted list keeping every run of equal orders as in the project is the sort's result, so the sort is the stable sort |
| Playback.SortSortedIsIdentity | app/src/main/java/com/tashichi/clipflowvideo/PlayerActivity.kt:74 | a list already in order is returned unchanged |
| Playback.Playable | app/src/main/java/com/tashichi/clipflowvideo/PlayerActivity.kt:79-88 | a clip is kept iff its resolved file exists; at most as many clips as the input; a sorted input stays sorted |
| Playback.PlayableCounts | app/src/main/java/com/tashichi/clipflowvideo/PlayerActivity.kt:79-88 | a clip whose file exists is kept as many times as it occurs, any other clip not at all |
| Playback.PlayableIsSubsequence | app/src/main/java/com/tashichi/clipflowvideo/PlayerActivity.kt:79-88 | the kept clips are a subsequence of the sorted clips |
| Playback.MediaItems | app/src/main/java/com/tashichi/clipflowvideo/PlayerActivity.kt:80-83 | one media item per kept clip, in order, each the resolved path of that clip's file |
| Playback.QueueStep | app/src/main/java/com/tashichi/clipflowvideo/PlayerActivity.kt:79-88 | one more clip adds its media item to the end of the queue exactly when its file exists |
| Playback.BuildQueue | app/src/main/java/com/tashichi/clipflowvideo/PlayerActivity.kt:79-88 | the single pass yields one item per existing file, in sorted order, each the resolved path of its clip |
| Playback.InitializePlayer | app/src/main/java/com/tashichi/clipflowvideo/PlayerActivity.kt:69-101 | "nothing to play" exactly when no clip's file exists; otherwise the whole queue, no longer than the clip count, is set, then prepared, then played |
| Playback.FindProject | app/src/main/java/com/tashichi/clipflowvideo/PlayerActivity.kt:25 | the first project with the id, or none exactly when no project has it |
| Playback.OnCreate | app/src/main/java/com/tashichi/clipflowvideo/PlayerActivity.kt:19-35 | an unreadable slot fails the load; an unknown id gives "not found" and builds no queue; otherwise the first stored project with the id, unchanged, is shown, and its queue of existing files in sorted order is set, prepared and played |
| Capture.SegmentFilename | app/src/main/java/com/tashichi/clipflowvideo/CameraManager.kt:91-92 | the file name is "segment_", the start time in decimal, then ".mp4" |
| Capture.SegmentFilenameInjective | app/src/main/java/com/tashichi/clipflowvideo/CameraManager.kt:91-92 | recordings started at different times write different files |
| Capture.SetupCamera | app/src/main/java/com/tashichi/clipflowvideo/CameraManager.kt:43-78 | set-up is marked complete and the completion callback runs (once) only on a successful bind, and nothing is reported otherwise; a failed bind still assigns the capture use case |
| Capture.RecordOneSecond | app/src/main/java/com/tashichi/clipflowvideo/CameraManager.kt:81-103 | without a capture use case the error callback runs and nothing changes; otherwise recording starts into "segment_" + start time + ".mp4" and becomes the active recording |
| Capture.OnStart | app/src/main/java/com/tashichi/clipflowvideo/CameraManager.kt:108-115 | a Start event posts exactly one stop, 1000 ms later, and changes nothing else |
| Capture.StopRecording | app/src/main/java/com/tashichi/clipflowvideo/CameraManager.kt:140-144 | the active recording, if any, is told to stop, and it is cleared |
| Capture.TimerFired | app/src/main/java/com/tashichi/clipflowvideo/CameraManager.kt:112-114 | a posted stop fires once and stops the then-active recording, or does nothing visible when none is active; the capture use case and set-up flag are untouched |
| Capture.FinalizeOutcome | app/src/main/java/com/tashichi/clipflowvideo/CameraManager.kt:116-131 | a non-zero error code is a failure carrying the code; otherwise a back-camera clip for the recording's file with order = clip count + 1 |
| Capture.OnFinalize | app/src/main/java/com/tashichi/clipflowvideo/CameraManager.kt:116-135 | exactly one callback: the error one when the code is non-zero, never the success one then; the active recording is cleared on both paths |
| Capture.Step | app/src/main/java/com/tashichi/clipflowvideo/CameraManager.kt:81-144 | each event has at most one effect, never withdraws the capture use case or the set-up flag, and only a Finalize without error delivers a clip |
| Capture.Run | app/src/main/java/com/tashichi/clipflowvideo/CameraManager.kt:81-144 | over any event sequence the capture use case and set-up flag stay once set, and there are no more effects than events |
| Capture.CycleEffects | app/src/main/java/com/tashichi/clipflowvideo/CameraManager.kt:81-144 | record, start, timer, finalize on a ready camera: start and stop on the same file, one stop posted, the outcome last, state back to where it began |
| Capture.SuccessfulCycle | app/src/main/java/com/tashichi/clipflowvideo/CameraManager.kt:81-144 | a successful second delivers a back-camera clip with order = clip count + 1 and returns to the ready state |
| Capture.FailedCycle | app/src/main/java/com/tashichi/clipflowvideo/CameraManager.kt:116-135 | a failed second ends with the error callback, never calls the success callback, and leaves the camera ready to record again |
| Capture.FailedBindPassesGuard | app/src/main/java/com/tashichi/clipflowvideo/CameraManager.kt:55-89 | after a bind that threw, set-up is incomplete and yet a recording starts |
| Capture.StopsFollowStarts | app/src/main/java/com/tashichi/clipflowvideo/CameraManager.kt:108-115 | over any event sequence, stops posted equal Start events, and stops issued plus stops pending never exceed stops posted |
| Session.ChangeInPlace | app/src/main/java/com/tashichi/clipflowvideo/MainActivity.kt:179 | changing the shared project object changes every list position that holds it and no other |
| Session.RecordSegment | app/src/main/java/com/tashichi/clipflowvideo/MainActivity.kt:173-189 | as the code runs it: the clip is appended to the project; every position holding the object sees the change; the first position with the id receives the changed project and the list is saved; other positions are kept; with the id absent, list and slot are unchanged |
| Session.RecordOverwritesEarlierTwin | app/src/main/java/com/tashichi/clipflowvideo/ProjectManager.kt:31-38 | with an earlier project sharing the id, recording into the later one leaves the list as two copies of the recorded project, and the earlier project is gone |
| Session.RecordSegmentInPlace | app/src/main/java/com/tashichi/clipflowvideo/MainActivity.kt:173-189 | as intended: only the positions holding the current project change, to the project with the clip appended, and the list is saved |
| Session.RecordAgreesWhenFirstMatchIsCurrent | app/src/main/java/com/tashichi/clipflowvideo/ProjectManager.kt:31-38 | when the first position with the id holds the current project, the code does exactly what was intended |
| Session.CreatedIsFirstWithId | app/src/main/java/com/tashichi/clipflowvideo/ProjectManager.kt:21-28 | a project created with an unused id is the first holder of that id, at the end of the list |
| Session.RecordIntoLast | app/src/main/java/com/tashichi/clipflowvideo/MainActivity.kt:173-189 | as intended (`Session.RecordSegmentInPlace`, not the code as written): recording into the project held only at the end of the list replaces only that entry, and a restart reads the stored form back |
| Session.RecordIntoLastAsWritten | app/src/main/java/com/tashichi/clipflowvideo/MainActivity.kt:173-189 | as the code runs it, when no earlier project shares the last project's id: recording into the last project replaces only that entry, and a restart reads the stored form back |
| Session.CreateThenRecord | app/src/main/java/com/tashichi/clipflowvideo/MainActivity.kt:173-189 | a new project with an unused id that records one clip is stored last with that clip only, as intended, and a restart reads it back with the clip's stored form |
| Session.CaptureRound | app/src/main/java/com/tashichi/clipflowvideo/CameraManager.kt:126-130 | one successful round keeps the earlier clips and appends one clip at position count + 1 with its recording's file |
| Session.RoundsNumberClips | app/src/main/java/com/tashichi/clipflowvideo/MainActivity.kt:179-180 | successive rounds keep earlier clips, add one clip per round in round order with that round's file, and keep every order equal to its 1-based position |
| Session.RoundsFromEmpty | app/src/main/java/com/tashichi/clipflowvideo/Models.kt:48-55 | from an empty project, N successful rounds give clip i the order i + 1 and the file of round i |
| Session.RecordedProjectPlaysInCaptureOrder | app/src/main/java/com/tashichi/clipflowvideo/PlayerActivity.kt:74 | a project recorded from empty is already in play order: sorting leaves it unchanged |

## Findings

| source | as written | input that shows it | evidently intended | confidence | as-written member | corrected member |
|---|---|---|---|---|---|---|
| app/src/main/java/com/tashichi/clipflowvideo/ProjectManager.kt:31-38 with app/src/main/java/com/tashichi/clipflowvideo/MainActivity.kt:179-180 | the callback changes the current project in place, then `updateProject` writes it at the first position with the same id | two projects with the same id (created in the same millisecond), recording into the second: the list becomes two copies of the recorded project and the first project is lost | only the recorded project changes; every other project is kept | not executed | Session.RecordOverwritesEarlierTwin | Session.RecordSegmentInPlace |

## Left out

- Gson serialisation: the stored JSON text is abstracted to what the library reads back (a list, `null`, or a parse error). Partial or null fields inside parsed JSON are not modelled.
- The asynchronous `apply()` of shared preferences: the in-process cache is updated at once, so the slot is modelled as written immediately. Disk durability and process death are not modelled.
- Object identity beyond the current project: the model follows the one shared object the recording callback changes, as a set of list positions. Other sharing between list entries, and the currently selected project object drifting from the store after a reload, are not modelled.
- Date text: the stored form models only the loss of milliseconds in the JSON library's default date format. The local time zone, ambiguous local hours around daylight-saving changes and the locale of the date text are not modelled.
- Capture.RecordOneSecond: the recorder's `start` is assumed to return. The camera library throws from `start` while the same recorder still has a pending or active recording, and nothing on the recording path catches that; the model has no such path and always makes the new recording active.
- Capture.RecordOneSecond: the start time is a natural number. A negative `Long` clock reading would give a file name with a minus sign, which is not modelled.
- CameraX provider lookup, preview, recorder construction, `unbindAll` and `bindToLifecycle`: reduced to the three set-up outcomes.
- ExoPlayer construction, the `PlayerView` and `release` in `onStop`: the player is reduced to the calls made on it.
- The file system: the files directory, `File(filesDir, uri).absolutePath` and `exists()` are the `resolve` and `fileExists` parameters.
- Timing and threads: `Handler.postDelayed`, executors and the recording duration measured for logging. The timer firing is an explicit event.
- `hasCameraPermission`, the permission request, the `AppScreen` enum, layouts, buttons and toasts: user interface and platform queries.
- `println` logging.
- Capture.FinalizeOutcome: `order` is the unbounded count + 1. Kotlin's 32-bit `Int` would wrap only after 2^31 − 1 clips in one project, which a list in memory cannot hold.
- Capture.FinalizeOutcome: CameraX error codes are non-negative constants, so the error code is a natural number.
- Ids are not proved distinct, and overlapping recordings are not proved impossible: the code guarantees neither.
