/** The playback state machine of mesh_sequence_player/MeshSequencePlayer.py,
    stated on values: the player's state as a record and each operation as a
    function from the old state to the new one. The class in `Player` is
    proved to follow these functions. */
module Playback {

  datatype Option<T> = None | Some(value: T)

  /** Exceptions the source can raise on its own (not inside a library). */
  datatype Fault =
    | IndexError         // `self.geometries[self._index]` with the index out of range
    | AttributeError     // `self._writer` used while it is still `None`
    | ZeroDivisionError  // `1000.0 / self.fps` with `fps == 0`

  /** How an operation ended: normally, by the loop's `break` (window closed),
      or with an exception propagating to the caller. */
  datatype Outcome = Normal | Break | Raised(fault: Fault)

  /** The video writer, as far as the player sees it: its construction
      arguments, how many frames were written into the file and whether it
      was released. */
  datatype VideoWriter = VideoWriter(
    path: string, codec: string, fps: int, width: int, height: int,
    frames: nat, released: bool)

  /** What the environment supplies to one iteration of the play loop: the
      result of `poll_events()` and the clock reading in milliseconds. */
  datatype TickInput = TickInput(poll: bool, now: int)

  /** The player's state. `count` is the number of loaded geometries and
      `scene` lists the positions of the geometries added to the viewer, in
      the order they were added. */
  datatype PlayerState = PlayerState(
    fps: int,
    loop: bool,
    count: nat,
    render: bool,
    outputPath: string,
    renderIndex: nat,
    isPlaying: bool,
    index: int,
    lastUpdateTs: int,
    writer: Option<VideoWriter>,
    scene: seq<nat>)

  datatype Step = Step(state: PlayerState, outcome: Outcome)

  /** Tick rate forced while recording, so that the loop never waits. */
  const RecordingFps := 10000
  const Codec := "mp4v"

  /** The state right after `__init__`: nothing loaded, not recording, not
      playing, at index 0, with no writer and an empty scene. */
  function Initial(fps: int, loop: bool): (r: PlayerState)
    ensures r.fps == fps && r.loop == loop
    ensures r.count == 0 && !r.render && r.renderIndex == 0 && r.outputPath == "render.mp4"
    ensures !r.isPlaying && r.index == 0 && r.lastUpdateTs == 0
    ensures r.writer == None && r.scene == []
  {
    PlayerState(fps, loop, 0, false, "render.mp4", 0, false, 0, 0, None, [])
  }

  /** Python accepts list indices from `-count` to `count - 1`. */
  predicate InRange(i: int, count: nat) {
    -(count as int) <= i < count
  }

  /** The list position a Python index denotes. */
  function Slot(i: int, count: nat): (k: nat)
    requires InRange(i, count)
    ensures k < count
    ensures k == i || k == i + count
  {
    if i < 0 then i + count else i
  }

  /** `remove_geometry`: the scene without the geometry at position `k`. */
  function Without(scene: seq<nat>, k: nat): (r: seq<nat>)
    ensures forall x :: x in r <==> x in scene && x != k
    ensures |r| <= |scene|
    ensures k !in scene ==> r == scene
  {
    if scene == [] then []
    else if scene[0] == k then Without(scene[1..], k)
    else [scene[0]] + Without(scene[1..], k)
  }

  /** The throttle test `(now - last) > 1000.0 / fps`, on exact reals. In
      integer terms: more than 1000 once the elapsed time is scaled by `fps`
      (with the comparison reversed for a negative `fps`). */
  predicate FrameDue(now: int, last: int, fps: int)
    requires fps != 0
    ensures fps > 0 ==> (FrameDue(now, last, fps) <==> (now - last) * fps > 1000)
    ensures fps < 0 ==> (FrameDue(now, last, fps) <==> (now - last) * fps < 1000)
  {
    (now - last) as real > 1000.0 / (fps as real)
  }

  /** `_writer.write`: one more frame in the file, unless the writer was
      already released; nothing else about the writer changes. */
  function Write(w: VideoWriter): (r: VideoWriter)
    ensures r.frames == if w.released then w.frames else w.frames + 1
    ensures r.(frames := w.frames) == w
  {
    if w.released then w else w.(frames := w.frames + 1)
  }

  /** `_writer.release`: the writer is released and keeps its frames. */
  function Release(w: VideoWriter): (r: VideoWriter)
    ensures r.released && r.frames == w.frames
    ensures r.(released := w.released) == w
  {
    w.(released := true)
  }

  /** `open`: with no geometries, return at once; otherwise create the writer
      when recording (with the user's fps, then force the tick rate up) and
      add the current geometry to the scene. */
  function Open(p: PlayerState, width: int, height: int): (r: Step)
    ensures r.state.count == p.count && r.state.loop == p.loop && r.state.render == p.render
    ensures r.state.index == p.index && r.state.isPlaying == p.isPlaying
    ensures r.state.renderIndex == p.renderIndex && r.state.lastUpdateTs == p.lastUpdateTs
    ensures r.outcome == Normal || r.outcome == Raised(IndexError)
    ensures !p.render ==> r.state.fps == p.fps && r.state.writer == p.writer
  {
    if p.count == 0 then Step(p, Normal)
    else
      var q := if p.render
        then p.(writer := Some(VideoWriter(p.outputPath, Codec, p.fps, width, height, 0, false)),
                fps := RecordingFps)
        else p;
      if !InRange(q.index, q.count) then Step(q, Raised(IndexError))
      else Step(q.(scene := q.scene + [Slot(q.index, q.count)]), Normal)
  }

  /** `close`: what `pause` does, plus destroying the window, which is
      outside this model. */
  function Close(p: PlayerState): (r: PlayerState)
    ensures !r.isPlaying && r.(isPlaying := p.isPlaying) == p
  {
    Pause(p)
  }

  /** `play` before its loop starts: only the playing flag changes, to true. */
  function Play(p: PlayerState): (r: PlayerState)
    ensures r.isPlaying && r.(isPlaying := p.isPlaying) == p
  {
    p.(isPlaying := true)
  }

  /** `pause`: only the playing flag changes, to false. */
  function Pause(p: PlayerState): (r: PlayerState)
    ensures !r.isPlaying && r.(isPlaying := p.isPlaying) == p
  {
    p.(isPlaying := false)
  }

  /** `jump`: only the index changes, to `i`, with no bounds check. */
  function Jump(p: PlayerState, i: int): (r: PlayerState)
    ensures r.index == i && r.(index := p.index) == p
  {
    p.(index := i)
  }

  /** `_next_frame`. At the last index without looping it finalises the
      recording and stops, and then still swaps to the wrapped index. */
  function NextFrame(p: PlayerState): (r: Step)
    requires p.count > 0
    ensures r.state.count == p.count && r.state.loop == p.loop && r.state.fps == p.fps
    ensures r.state.render == p.render && r.state.renderIndex == p.renderIndex
    ensures r.state.lastUpdateTs == p.lastUpdateTs
    ensures r.outcome == Normal || r.outcome.Raised?
    ensures r.outcome.Raised? ==> r.state == p
  {
    var stopping := !p.loop && p.index == p.count - 1;
    if stopping && p.render && p.writer.None? then Step(p, Raised(AttributeError))
    else if !InRange(p.index, p.count) then Step(p, Raised(IndexError))
    else
      var writer := if stopping && p.render then Some(Release(p.writer.value)) else p.writer;
      var next := (p.index + 1) % p.count;
      Step(p.(writer := writer,
              isPlaying := if stopping then false else p.isPlaying,
              index := next,
              scene := Without(p.scene, Slot(p.index, p.count)) + [next]),
           Normal)
  }

  /** One iteration of `_play_loop`'s body. */
  function Tick(p: PlayerState, input: TickInput): (r: Step)
    ensures r.state.count == p.count && r.state.loop == p.loop && r.state.fps == p.fps
  {
    if !input.poll then Step(p, Break)
    else if p.count == 0 then Step(p, Normal)
    else if p.render && p.writer.None? then Step(p, Raised(AttributeError))
    else
      var q := if p.render
        then p.(writer := Some(Write(p.writer.value)), renderIndex := p.renderIndex + 1)
        else p;
      if q.fps == 0 then Step(q, Raised(ZeroDivisionError))
      else if FrameDue(input.now, q.lastUpdateTs, q.fps) then
        var s := NextFrame(q);
        if s.outcome.Raised? then s else Step(s.state.(lastUpdateTs := input.now), Normal)
      else Step(q, Normal)
  }

  /** `_play_loop` over a finite script of tick inputs: it runs while the
      player is playing and inputs remain, and ends early on `break` or on an
      exception. */
  function Run(p: PlayerState, ticks: seq<TickInput>): (r: Step)
    ensures r.state.count == p.count && r.state.loop == p.loop && r.state.fps == p.fps
    decreases |ticks|
  {
    if !p.isPlaying || ticks == [] then Step(p, Normal)
    else
      var s := Tick(p, ticks[0]);
      if s.outcome == Normal then Run(s.state, ticks[1..]) else s
  }

  /** `n` frame advances in a row (an exception leaves the state as it is). */
  function Advance(p: PlayerState, n: nat): (r: PlayerState)
    requires p.count > 0
    ensures r.count == p.count && r.loop == p.loop
  {
    if n == 0 then p else NextFrame(Advance(p, n - 1)).state
  }

  // ---------------------------------------------------------------------
  // Single operations

  /** With looping on, a frame advance moves to the next index modulo the
      number of geometries and does not touch the playing flag or the writer. */
  lemma NextFrameWhenLooping(p: PlayerState)
    requires p.loop && p.count > 0 && 0 <= p.index < p.count
    ensures NextFrame(p).outcome == Normal
    ensures NextFrame(p).state == p.(index := (p.index + 1) % p.count,
                                     scene := Without(p.scene, p.index) + [(p.index + 1) % p.count])
  {
  }

  /** Without looping, the advance from the last index stops playback and
      releases the writer, and the index still wraps to 0 with geometry 0
      added to the scene. */
  lemma NextFrameStopsAtLast(p: PlayerState)
    requires !p.loop && p.count > 0 && p.index == p.count - 1
    requires p.render ==> p.writer.Some?
    ensures NextFrame(p).outcome == Normal
    ensures !NextFrame(p).state.isPlaying
    ensures NextFrame(p).state.index == 0
    ensures NextFrame(p).state.scene == Without(p.scene, p.count - 1) + [0]
    ensures NextFrame(p).state.writer == if p.render then Some(Release(p.writer.value)) else p.writer
  {
  }

  /** Without looping, an advance from any index before the last leaves the
      playing flag and the writer alone. */
  lemma NextFrameBeforeLast(p: PlayerState)
    requires !p.loop && p.count > 0 && InRange(p.index, p.count) && p.index != p.count - 1
    ensures NextFrame(p).outcome == Normal
    ensures NextFrame(p).state.isPlaying == p.isPlaying
    ensures NextFrame(p).state.writer == p.writer
    ensures NextFrame(p).state.index == (p.index + 1) % p.count
  {
  }

  /** An index outside Python's range raises before anything changes. */
  lemma NextFrameOutOfRange(p: PlayerState)
    requires p.count > 0 && !InRange(p.index, p.count)
    ensures NextFrame(p) == Step(p, Raised(IndexError))
  {
  }

  /** If the scene shows exactly the current geometry, after an advance it
      shows exactly the new current geometry. */
  lemma NextFrameKeepsOneShown(p: PlayerState)
    requires p.count > 0 && 0 <= p.index < p.count && p.scene == [p.index]
    requires (!p.loop && p.index == p.count - 1 && p.render) ==> p.writer.Some?
    ensures NextFrame(p).outcome == Normal
    ensures NextFrame(p).state.scene == [NextFrame(p).state.index]
    ensures 0 <= NextFrame(p).state.index < p.count
  {
  }

  /** `jump` does not update the scene, so a jump followed by an advance
      leaves the previously shown geometry in the scene next to the new one. */
  lemma JumpThenAdvanceShowsTwo(p: PlayerState, i: int)
    requires p.loop && p.count > 0 && 0 <= p.index < p.count && p.scene == [p.index]
    requires 0 <= i < p.count && i != p.index
    ensures NextFrame(Jump(p, i)).outcome == Normal
    ensures NextFrame(Jump(p, i)).state.scene == [p.index, (i + 1) % p.count]
  {
  }

  /** With no geometries, `open` changes nothing (in particular not `fps`). */
  lemma OpenWithoutGeometries(p: PlayerState, width: int, height: int)
    requires p.count == 0
    ensures Open(p, width, height) == Step(p, Normal)
  {
  }

  /** When recording, `open` creates the writer with the user's fps and a
      fresh frame count, then forces the tick rate to `RecordingFps`. */
  lemma OpenForRecording(p: PlayerState, width: int, height: int)
    requires p.render && p.count > 0
    ensures Open(p, width, height).state.writer
         == Some(VideoWriter(p.outputPath, Codec, p.fps, width, height, 0, false))
    ensures Open(p, width, height).state.fps == RecordingFps
  {
  }

  /** `open` on an empty scene with a valid index establishes the
      one-geometry-shown invariant. */
  lemma OpenShowsCurrent(p: PlayerState, width: int, height: int)
    requires p.count > 0 && 0 <= p.index < p.count && p.scene == []
    ensures Open(p, width, height).outcome == Normal
    ensures Open(p, width, height).state.scene == [p.index]
    ensures Open(p, width, height).state.index == p.index
  {
  }

  /** A tick whose poll reports the window closed leaves the loop and changes
      nothing. */
  lemma TickWindowClosed(p: PlayerState, now: int)
    ensures Tick(p, TickInput(false, now)) == Step(p, Break)
  {
  }

  /** A tick without geometries skips all frame logic. */
  lemma TickWithoutGeometries(p: PlayerState, now: int)
    requires p.count == 0
    ensures Tick(p, TickInput(true, now)) == Step(p, Normal)
  {
  }

  /** The throttle: a tick advances the frame and takes the clock reading
      exactly when more than `1000/fps` ms have passed; otherwise the index,
      the timestamp and the playing flag stay as they were. */
  lemma TickThrottle(p: PlayerState, now: int)
    requires p.count > 0 && p.fps != 0 && 0 <= p.index < p.count
    requires p.render ==> p.writer.Some?
    ensures Tick(p, TickInput(true, now)).outcome == Normal
    ensures FrameDue(now, p.lastUpdateTs, p.fps) ==>
              Tick(p, TickInput(true, now)).state.index == (p.index + 1) % p.count
              && Tick(p, TickInput(true, now)).state.lastUpdateTs == now
    ensures !FrameDue(now, p.lastUpdateTs, p.fps) ==>
              Tick(p, TickInput(true, now)).state.index == p.index
              && Tick(p, TickInput(true, now)).state.lastUpdateTs == p.lastUpdateTs
              && Tick(p, TickInput(true, now)).state.isPlaying == p.isPlaying
  {
  }

  /** While recording, every tick with geometries captures one frame, whether
      or not the throttle fires. */
  lemma TickRecordsOnce(p: PlayerState, now: int)
    requires p.render && p.count > 0 && p.writer.Some?
    ensures Tick(p, TickInput(true, now)).state.renderIndex == p.renderIndex + 1
  {
  }

  /** Without recording, a tick never changes the frame counter or the writer. */
  lemma TickWithoutRecording(p: PlayerState, input: TickInput)
    requires !p.render
    ensures Tick(p, input).state.renderIndex == p.renderIndex
    ensures Tick(p, input).state.writer == p.writer
  {
  }

  /** A tick, whatever its outcome, keeps exactly the current geometry shown
      and the index in range. */
  lemma TickKeepsOneShown(p: PlayerState, input: TickInput)
    requires p.count > 0 && 0 <= p.index < p.count && p.scene == [p.index]
    ensures Tick(p, input).state.scene == [Tick(p, input).state.index]
    ensures 0 <= Tick(p, input).state.index < p.count
  {
    if input.poll && !(p.render && p.writer.None?) {
      var q := if p.render
        then p.(writer := Some(Write(p.writer.value)), renderIndex := p.renderIndex + 1)
        else p;
      if q.fps != 0 && FrameDue(input.now, q.lastUpdateTs, q.fps) {
        NextFrameKeepsOneShown(q);
      }
    }
  }

  // ---------------------------------------------------------------------
  // Sequences of operations

  /** Euclidean remainder is determined by any quotient/remainder pair. */
  lemma ModUnique(x: int, c: int, q: int, s: int)
    requires c > 0 && 0 <= s < c && x == q * c + s
    ensures x % c == s
  {
    var q', s' := x / c, x % c;
    assert x == q' * c + s';
    var d := q - q';
    assert d * c == s' - s;
    if d >= 1 {
      assert false;
    } else if d <= -1 {
      assert false;
    }
  }

  lemma ModSucc(a: int, c: int)
    requires c > 0
    ensures (a % c + 1) % c == (a + 1) % c
  {
    var q, r := a / c, a % c;
    assert a == q * c + r;
    if r + 1 < c {
      ModUnique(r + 1, c, 0, r + 1);
      ModUnique(a + 1, c, q, r + 1);
    } else {
      ModUnique(r + 1, c, 1, 0);
      ModUnique(a + 1, c, q + 1, 0);
    }
  }

  /** While looping, `n` advances from a valid index land on
      `(index + n) mod count`, keep the playing flag and keep exactly one
      geometry in the scene. */
  lemma {:induction false} AdvanceWhileLooping(p: PlayerState, n: nat)
    requires p.loop && p.count > 0 && 0 <= p.index < p.count
    ensures Advance(p, n).index == (p.index + n) % p.count
    ensures Advance(p, n).isPlaying == p.isPlaying
    ensures Advance(p, n).writer == p.writer
    ensures p.scene == [p.index] ==> Advance(p, n).scene == [Advance(p, n).index]
  {
    if n == 0 {
      ModUnique(p.index, p.count, 0, p.index);
    } else {
      AdvanceWhileLooping(p, n - 1);
      var q := Advance(p, n - 1);
      assert Advance(p, n) == NextFrame(q).state;
      NextFrameWhenLooping(q);
      ModSucc(p.index + n - 1, p.count);
    }
  }

  /** While looping, `count` consecutive advances return to the start index. */
  lemma {:induction false} FullCycleReturns(p: PlayerState)
    requires p.loop && p.count > 0 && 0 <= p.index < p.count
    ensures Advance(p, p.count).index == p.index
    ensures Advance(p, p.count).isPlaying == p.isPlaying
  {
    AdvanceWhileLooping(p, p.count);
    ModUnique(p.index + p.count, p.count, 1, p.index);
  }

  /** The whole play loop keeps exactly the current geometry shown, so the
      invariant `open` establishes holds at all times. */
  lemma {:induction false} RunKeepsOneShown(p: PlayerState, ticks: seq<TickInput>)
    requires p.count > 0 && 0 <= p.index < p.count && p.scene == [p.index]
    ensures Run(p, ticks).state.scene == [Run(p, ticks).state.index]
    ensures 0 <= Run(p, ticks).state.index < p.count
    decreases |ticks|
  {
    if p.isPlaying && ticks != [] {
      TickKeepsOneShown(p, ticks[0]);
      var s := Tick(p, ticks[0]);
      if s.outcome == Normal {
        RunKeepsOneShown(s.state, ticks[1..]);
      }
    }
  }

  /** Each tick input reports an open window and comes strictly later on the
      millisecond clock than the one before (the first one later than `last`). */
  ghost predicate Paced(last: int, ticks: seq<TickInput>)
    decreases |ticks|
  {
    ticks == [] || (ticks[0].poll && last < ticks[0].now && Paced(ticks[0].now, ticks[1..]))
  }

  lemma FrameDueAfterOneMs(now: int, last: int, fps: int)
    requires fps > 1000 && last < now
    ensures FrameDue(now, last, fps)
  {
    var f := fps as real;
    assert 1000.0 / f * f == 1000.0;
    assert 1000.0 / f < 1.0;
  }

  /** Recording without looping from index `i`, with at least one clock
      millisecond between ticks and a tick rate above 1000: the loop writes
      exactly one frame for each of the geometries `i .. count-1`, releases
      the writer and stops, with the index wrapped to 0. */
  lemma {:induction false} RecordingWritesRemainingFrames(p: PlayerState, ticks: seq<TickInput>)
    requires p.render && !p.loop && p.isPlaying && 0 <= p.index < p.count
    requires p.fps > 1000
    requires p.writer.Some? && !p.writer.value.released
    requires |ticks| >= p.count - p.index && Paced(p.lastUpdateTs, ticks)
    ensures Run(p, ticks).outcome == Normal
    ensures Run(p, ticks).state.writer
         == Some(p.writer.value.(frames := p.writer.value.frames + (p.count - p.index), released := true))
    ensures Run(p, ticks).state.renderIndex == p.renderIndex + (p.count - p.index)
    ensures !Run(p, ticks).state.isPlaying && Run(p, ticks).state.index == 0
    ensures p.scene == [p.index] ==> Run(p, ticks).state.scene == [0]
    decreases p.count - p.index
  {
    FrameDueAfterOneMs(ticks[0].now, p.lastUpdateTs, p.fps);
    var s := Tick(p, ticks[0]);
    if p.index == p.count - 1 {
      assert !s.state.isPlaying;
      assert Run(p, ticks) == Run(s.state, ticks[1..]);
    } else {
      assert s.state.index == p.index + 1;
      RecordingWritesRemainingFrames(s.state, ticks[1..]);
    }
  }

  /** Without pacing the count is not exact: the source captures once per
      loop iteration, so two iterations within the same millisecond record
      the same geometry twice. One geometry, timestamp 5, ticks at 5 and 6
      give two frames. */
  lemma SameMillisecondRecordsTwice()
    ensures var p := Initial(24, false).(count := 1, render := true, isPlaying := true,
                                         fps := RecordingFps, lastUpdateTs := 5, scene := [0],
                                         writer := Some(VideoWriter("out.mp4", Codec, 24, 512, 512, 0, false)));
            var r := Run(p, [TickInput(true, 5), TickInput(true, 6)]);
            && r.outcome == Normal && !r.state.isPlaying
            && r.state.writer.Some? && r.state.writer.value.frames == 2
  {
  }

  /** The recording scenario end to end: a fresh non-looping player with
      `count` geometries, recording switched on, shown and played over
      paced ticks, writes exactly `count` frames into a writer created with
      the user's fps, then stops with geometry 0 shown again. */
  lemma {:induction false} RecordingScenario(fps: int, count: nat, path: string,
                                             width: int, height: int, ticks: seq<TickInput>)
    requires count > 0 && |ticks| >= count && Paced(0, ticks)
    ensures var shown := Open(Initial(fps, false).(count := count, render := true, outputPath := path),
                               width, height);
            var r := Run(Play(shown.state), ticks);
            && shown.outcome == Normal
            && r.outcome == Normal
            && r.state.writer == Some(VideoWriter(path, Codec, fps, width, height, count, true))
            && r.state.renderIndex == count
            && !r.state.isPlaying
            && r.state.scene == [0]
  {
    var shown := Open(Initial(fps, false).(count := count, render := true, outputPath := path),
                       width, height);
    RecordingWritesRemainingFrames(Play(shown.state), ticks);
  }
}
