# mesh-sequence-player, modelled in Dafny

mesh-sequence-player plays a sorted sequence of mesh files as an animation in
an open3d window and can record the playback to an MP4 file. This project
models its two pieces of real logic and proves their properties.

**Geometry loading** is `GeometryLoader`, in `geometry_loader.dfy`.

- The three loaders are order-preserving maps from file paths to meshes.
  - The safe loader reads every file directly.
  - The sequential and the fast loaders read each file and copy it into a
    plain transfer record (`_MeshTransmissionFormat`). They then rebuild a
    fresh mesh from each record.
  - The fast loader gets its records from a worker pool's `imap`. That pool
    returns results in submission order.
- A mesh is a datatype: seven array properties plus textures and an adjacency
  list. The material ids are integers and the six other arrays have opaque
  element types, so no floating point is involved.
- The open3d file reader is a parameter `read: Path -> TriangleMesh`.
- Proved:
  - rebuilding a mesh restores all seven arrays and drops textures and
    adjacency list;
  - re-extracting a rebuilt mesh gives back the record;
  - the round trip is the identity exactly on meshes without textures and
    adjacency list;
  - each loader returns one mesh per file, in file order;
  - the fast and the sequential loaders return the same list.

**Playback** has two modules:

- `Playback`, in `playback.dfy`, writes the player's state as a record
  `PlayerState`. Each operation is a function from old state to new state:
  - `Open`, `Close`, `Play`, `Pause` and `Jump`;
  - `NextFrame` for `_next_frame`;
  - `Tick` for one iteration of `_play_loop`;
  - `Run` for the loop itself.
- `Player`, in `player.dfy`, holds the class `MeshSequencePlayer`:
  - its fields are the source's fields;
  - the viewer's scene is a ghost sequence of the positions of the geometries
    that were added to the viewer;
  - each method is proved to change the state exactly as the matching
    `Playback` function says.

Where the source raises an exception of its own, the model returns it as an
`Outcome` instead of excluding that input:

- `IndexError`: `geometries[index]` with the index out of Python's range;
- `AttributeError`: the writer is used while it is still `None`;
- `ZeroDivisionError`: `1000.0 / fps` with `fps == 0`.

Python's negative list indices are modelled by `Slot`. The source ends
playback the way it is written, quirk included. On the tick that stops a
non-looping playback, the index still wraps to 0 and geometry 0 is added to
the scene again. `NextFrameStopsAtLast` and `RecordingScenario` state this.

Proved about the player:

- A frame advance while looping wraps modulo the number of geometries.
  `count` advances return to the starting index.
- Without looping, the advance from the last index stops playback and
  releases the writer. An advance from any earlier index changes neither.
- If the scene shows exactly the current geometry, it does so after an
  advance, after any tick and after the whole play loop. `open` establishes
  this.
- `jump` does not touch the scene. After a jump to `i` and an advance, the
  scene holds the previously shown geometry followed by geometry
  `(i + 1) mod count` (`JumpThenAdvanceShowsTwo`). These are two different
  geometries unless `(i + 1) mod count` is the old index, in which case the
  same geometry is in the scene twice.
- The throttle advances only when more than `1000/fps` ms have passed.
- While recording, every tick with geometries captures exactly one frame.
- The whole recording scenario: a fresh non-looping player with `count`
  geometries is opened with recording on and played over ticks that are each
  at least 1 ms apart. It writes exactly `count` frames into a writer created
  with the user's fps, and stops with the index at 0.
- The exact frame count needs each loop iteration to take at least 1 ms. The
  source captures once per iteration, so two iterations within the same
  millisecond record the same geometry twice
  (`SameMillisecondRecordsTwice`).

Three places where the code does not fit together, and how the model reads
them:

- Loading:
  - `mesh_sequence_player/__main__.py:54` calls `player.load`, which the class
    does not define. The class defines `load_meshes` and `load_pointclouds`.
  - `MeshSequencePlayer.py:9-10` imports `load_meshes_fast`,
    `load_meshes_safe`, `load_pointclouds_safe` and `load_pointclouds_fast`.
    `FastGeometryLoader.py` defines none of these. It defines
    `load_geometries_fast`, `load_geometries` and `load_geometries_safe`.
  - The model treats the imported names as aliases of the defined functions.
    `LoadMeshes` uses `LoadGeometriesSafe` or `LoadGeometriesFast`.
- `pause` sets `_is_playing` to false, which ends the
  `while self._is_playing` loop. Event polling stops with it.
- On the tick that stops a non-looping recording, geometry 0 is added to the
  scene. No frame is captured after that, because the loop ends.

## Model

| member | source | states |
|---|---|---|
| GeometryLoader.ToTransmission | mesh_sequence_player/FastGeometryLoader.py:11-26 | the record holds exactly the mesh's seven array properties |
| GeometryLoader.CreateMesh | mesh_sequence_player/FastGeometryLoader.py:28-45 | the rebuilt mesh carries the record's seven arrays, and textures and adjacency list stay empty as in a fresh `TriangleMesh()` |
| GeometryLoader.CreateMeshRestoresArrays | mesh_sequence_player/FastGeometryLoader.py:19-44 | mesh → record → mesh keeps all seven arrays and drops textures and adjacency list |
| GeometryLoader.RoundTripIdentityIff | mesh_sequence_player/FastGeometryLoader.py:11-45 | mesh → record → mesh gives back the mesh if and only if the mesh has no textures and no adjacency list |
| GeometryLoader.ToTransmissionInvertsCreateMesh | mesh_sequence_player/FastGeometryLoader.py:19-45 | record → mesh → record is the identity |
| GeometryLoader.LoadData | mesh_sequence_player/FastGeometryLoader.py:48-50 | the record carries the arrays of the mesh read from the file |
| GeometryLoader.OrderedMap | mesh_sequence_player/FastGeometryLoader.py:56 | the pool's ordered map gives one result per input, result k being f of input k (submission order) |
| GeometryLoader.Transferred | mesh_sequence_player/FastGeometryLoader.py:53-67 | the list the transfer-based loaders return has one mesh per file, mesh k rebuilt from the record of file k |
| GeometryLoader.TransferredMatchesRead | mesh_sequence_player/FastGeometryLoader.py:48-58 | transferred mesh k agrees with the directly read mesh on all seven arrays and has no textures and no adjacency list |
| GeometryLoader.LoadGeometriesSafe | mesh_sequence_player/FastGeometryLoader.py:70-76 | returns `|files|` meshes, mesh k being the mesh read from file k, after exactly `|files|` progress updates |
| GeometryLoader.LoadGeometries | mesh_sequence_player/FastGeometryLoader.py:61-67 | returns the transferred list, after exactly `|files|` progress updates |
| GeometryLoader.LoadGeometriesFast | mesh_sequence_player/FastGeometryLoader.py:53-58 | returns the same list as the sequential loader, because the pool's results are appended in submission order, after `|files|` progress updates |
| Playback.Initial | mesh_sequence_player/MeshSequencePlayer.py:15-39 | the state after `__init__`: the given fps and loop, no geometries, not recording, output `render.mp4`, counter 0, not playing, index 0, timestamp 0, no writer, empty scene |
| Playback.Open | mesh_sequence_player/MeshSequencePlayer.py:57-82 | `open` never changes the geometry count, `loop`, `render`, the index, the playing flag, the counter or the timestamp; it either succeeds or raises `IndexError`; it changes `fps` and the writer only when recording |
| Playback.Close | mesh_sequence_player/MeshSequencePlayer.py:84-86 | `close` does what `pause` does: only the playing flag changes, to false; destroying the window is outside the model |
| Playback.Play | mesh_sequence_player/MeshSequencePlayer.py:88-89 | only the playing flag changes, to true, before the loop runs |
| Playback.Pause | mesh_sequence_player/MeshSequencePlayer.py:92-93 | only the playing flag changes, to false |
| Playback.Jump | mesh_sequence_player/MeshSequencePlayer.py:95-96 | only the index changes, to the argument, with no bounds check |
| Playback.FrameDue | mesh_sequence_player/MeshSequencePlayer.py:129 | the test `elapsed > 1000/fps` agrees with the integer test `elapsed * fps > 1000` for positive fps and `elapsed * fps < 1000` for negative fps |
| Playback.Write | mesh_sequence_player/MeshSequencePlayer.py:122 | writing adds one frame to an unreleased writer, none to a released one, and changes nothing else about the writer |
| Playback.Release | mesh_sequence_player/MeshSequencePlayer.py:142 | releasing marks the writer released and keeps everything else, its frames included |
| Playback.Slot | mesh_sequence_player/MeshSequencePlayer.py:82 | a Python index from `-count` to `count - 1` denotes a list position below `count`, equal to the index or to the index plus `count` |
| Playback.Without | mesh_sequence_player/MeshSequencePlayer.py:147 | after removing a geometry the scene holds every other geometry it held and not that one |
| Playback.NextFrame | mesh_sequence_player/MeshSequencePlayer.py:139-149 | a frame advance never changes the geometry count, `loop`, `fps`, `render`, `render_index` or the timestamp, and an exception leaves the state untouched |
| Playback.Tick | mesh_sequence_player/MeshSequencePlayer.py:101-131 | a tick keeps the geometry count, `loop` and `fps` |
| Playback.Run | mesh_sequence_player/MeshSequencePlayer.py:101-137 | the loop keeps the geometry count, `loop` and `fps` |
| Playback.Advance | mesh_sequence_player/MeshSequencePlayer.py:139-149 | repeated frame advances keep the geometry count and `loop` |
| Playback.NextFrameWhenLooping | mesh_sequence_player/MeshSequencePlayer.py:139-149 | with looping and an index in range, the index becomes (index+1) mod N, the old geometry is removed and the new one added, and the playing flag and writer are unchanged |
| Playback.NextFrameStopsAtLast | mesh_sequence_player/MeshSequencePlayer.py:140-149 | without looping at index N-1, playing becomes false and the writer is released when recording, yet the index still wraps to 0 and geometry 0 is added |
| Playback.NextFrameBeforeLast | mesh_sequence_player/MeshSequencePlayer.py:140 | without looping at any other valid index, the playing flag and writer are unchanged |
| Playback.NextFrameOutOfRange | mesh_sequence_player/MeshSequencePlayer.py:147 | an index outside Python's range raises `IndexError` and changes nothing |
| Playback.NextFrameKeepsOneShown | mesh_sequence_player/MeshSequencePlayer.py:147-149 | if the scene is exactly [index], afterwards it is exactly [new index] |
| Playback.JumpThenAdvanceShowsTwo | mesh_sequence_player/MeshSequencePlayer.py:95-96 | because `jump` does not touch the scene, after jump to `i` and an advance the scene is [old index, (i+1) mod N], the same geometry twice when those are equal |
| Playback.OpenWithoutGeometries | mesh_sequence_player/MeshSequencePlayer.py:65-67 | with no geometries, `open` returns before changing anything, `fps` included |
| Playback.OpenForRecording | mesh_sequence_player/MeshSequencePlayer.py:69-75 | when recording, the writer is created with the user's fps and codec `mp4v` and no frames, and `fps` then becomes 10000 |
| Playback.OpenShowsCurrent | mesh_sequence_player/MeshSequencePlayer.py:82 | `open` on an empty scene with a valid index shows exactly the current geometry |
| Playback.TickWindowClosed | mesh_sequence_player/MeshSequencePlayer.py:107-108 | a poll that reports the window closed breaks the loop and changes nothing |
| Playback.TickWithoutGeometries | mesh_sequence_player/MeshSequencePlayer.py:113-114 | with no geometries a tick changes nothing |
| Playback.TickThrottle | mesh_sequence_player/MeshSequencePlayer.py:128-131 | the frame advances and the timestamp becomes `now` exactly when more than 1000/fps ms have passed, and otherwise index, timestamp and playing flag are unchanged |
| Playback.TickRecordsOnce | mesh_sequence_player/MeshSequencePlayer.py:117-125 | while recording, a tick with geometries increments `render_index` by exactly one whether the throttle fires, does not fire or the fps division raises |
| Playback.TickWithoutRecording | mesh_sequence_player/MeshSequencePlayer.py:117 | without recording, a tick never changes `render_index` or the writer |
| Playback.TickKeepsOneShown | mesh_sequence_player/MeshSequencePlayer.py:101-149 | if the scene is exactly [index] with the index in range, after any tick, whatever its outcome, the scene is exactly [new index] and the index is in range |
| Playback.RunKeepsOneShown | mesh_sequence_player/MeshSequencePlayer.py:98-149 | the whole play loop keeps exactly the current geometry shown, with the index in range |
| Playback.AdvanceWhileLooping | mesh_sequence_player/MeshSequencePlayer.py:147-149 | n advances while looping reach (index+n) mod N, keep the playing flag and writer, and keep one geometry shown |
| Playback.FullCycleReturns | mesh_sequence_player/MeshSequencePlayer.py:148 | N advances while looping return to the starting index |
| Playback.RecordingWritesRemainingFrames | mesh_sequence_player/MeshSequencePlayer.py:101-149 | recording without looping from index i with paced ticks writes exactly N-i frames, releases the writer, stops and wraps the index to 0 |
| Playback.SameMillisecondRecordsTwice | mesh_sequence_player/MeshSequencePlayer.py:117-131 | one geometry, timestamp 5 and ticks at 5 and 6 write two frames, because the source captures once per iteration and not once per frame |
| Playback.RecordingScenario | mesh_sequence_player/MeshSequencePlayer.py:57-149 | open and play of a fresh recording player with N geometries writes exactly N frames into a writer with the user's fps, then stops with geometry 0 shown |
| Player.MeshSequencePlayer.constructor | mesh_sequence_player/MeshSequencePlayer.py:15-39 | the initial state: given fps and loop, no geometries, not recording, output `render.mp4`, counter 0, not playing, index 0, timestamp 0, no writer, empty scene |
| Player.MeshSequencePlayer.LoadMeshes | mesh_sequence_player/MeshSequencePlayer.py:41-47 | the safe or the fast loader replaces the geometries and nothing else changes |
| Player.MeshSequencePlayer.Open | mesh_sequence_player/MeshSequencePlayer.py:57-82 | the new state and outcome are those of `Playback.Open` |
| Player.MeshSequencePlayer.Close | mesh_sequence_player/MeshSequencePlayer.py:84-86 | only the playing flag changes, to false |
| Player.MeshSequencePlayer.Play | mesh_sequence_player/MeshSequencePlayer.py:88-90 | sets the playing flag, then the state and outcome are those of the loop |
| Player.MeshSequencePlayer.Pause | mesh_sequence_player/MeshSequencePlayer.py:92-93 | only the playing flag changes, to false |
| Player.MeshSequencePlayer.Jump | mesh_sequence_player/MeshSequencePlayer.py:95-96 | only the index changes, to the argument, with no bounds check |
| Player.MeshSequencePlayer.PlayLoop | mesh_sequence_player/MeshSequencePlayer.py:98-137 | the state and outcome after the loop are those of `Playback.Run` |
| Player.MeshSequencePlayer.Tick | mesh_sequence_player/MeshSequencePlayer.py:101-137 | one loop iteration changes the state as `Playback.Tick` says |
| Player.MeshSequencePlayer.NextFrame | mesh_sequence_player/MeshSequencePlayer.py:139-149 | the stop check, the release, the remove and the add change the state as `Playback.NextFrame` says |

## Left out

- The open3d viewer is not modelled. That covers window creation and destruction, `poll_events`, `update_renderer`, view rotation and the background colour. Only the scene and the poll result are kept. The window name, size and visibility reach the model only as the writer's frame size.
- Frame capture and encoding are not modelled: the float frame buffer, the `* 255` conversion, the channel swap and the encoded pixels. Only the number of frames written and a released flag are kept.
- The writer is assumed to drop frames written after it was released, as an OpenCV writer that is no longer open does.
- The `tqdm` progress bars and their output are not modelled. The loaders return their number of progress updates. The recording bar updates and closes with `render_index` and the writer release.
- `FPSCounter`, the debug FPS output and `get_files_in_path` are not part of this model. `LoadMeshes` takes a file list that is already sorted.
- `load_pointclouds` is not modelled separately. It does what `load_meshes` does, with another default file pattern and the imported point-cloud loader names.
- The worker pool's parallelism and process transfer are not modelled. `imap` is an ordered sequential map.
- A file the open3d reader cannot parse raises inside that library. `read` is total, so this error is not modelled.
- The clock is not modelled: each tick receives its millisecond reading as `TickInput.now`.
- Playback.FrameDue: compares on exact reals, so the floating-point rounding of `1000.0 / fps` is not modelled. The recording rate `10000.0` is the integer 10000.
- Player.MeshSequencePlayer.PlayLoop: runs over a finite list of tick inputs and stops when the list is used up. It therefore does not model a loop that polls forever while looping and playing.
- Scene entries are list positions, not geometry objects. Adding appends a position, and removing drops every entry of that position.
- `mesh_sequence_player/__main__.py` is not modelled. It only parses arguments, normalises the output path and creates directories.
