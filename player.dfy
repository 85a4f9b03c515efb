/** The `MeshSequencePlayer` class of mesh_sequence_player/MeshSequencePlayer.py.
    Its fields are the player's state; the viewer's scene is a ghost sequence
    of the positions of the geometries added to it. Every method is proved to
    change the state exactly as the matching function of `Playback` says. */
module Player {
  import opened GeometryLoader
  import opened Playback

  class MeshSequencePlayer {
    var fps: int
    var loop: bool
    var geometries: seq<TriangleMesh>
    var loadSafe: bool
    var render: bool
    var outputPath: string
    var renderIndex: nat
    var isPlaying: bool
    var index: int
    var lastUpdateTs: int
    var writer: Option<VideoWriter>
    ghost var scene: seq<nat>

    /** The abstract state the `Playback` functions work on. */
    ghost function State(): PlayerState
      reads this
    {
      PlayerState(fps, loop, |geometries|, render, outputPath, renderIndex,
             isPlaying, index, lastUpdateTs, writer, scene)
    }

    constructor (fps: int := 24, loop: bool := true)
      ensures State() == Initial(fps, loop)
      ensures geometries == [] && !loadSafe
    {
      this.fps := fps;
      this.loop := loop;
      geometries := [];
      loadSafe := false;
      render := false;
      outputPath := "render.mp4";
      renderIndex := 0;
      isPlaying := false;
      index := 0;
      lastUpdateTs := 0;
      writer := None;
      scene := [];
    }

    /** `load_meshes` on an already sorted file list (listing and sorting the
        folder is not part of this model): the safe or the fast loader
        replaces the geometries, and nothing else changes. */
    method LoadMeshes(files: seq<Path>, read: Path -> TriangleMesh)
      modifies this
      ensures loadSafe ==> |geometries| == |files|
                           && forall k :: 0 <= k < |files| ==> geometries[k] == read(files[k])
      ensures !loadSafe ==> geometries == Transferred(files, read)
      ensures State() == old(State()).(count := |files|)
      ensures loadSafe == old(loadSafe)
    {
      var updates;
      if loadSafe {
        geometries, updates := LoadGeometriesSafe(files, read);
      } else {
        geometries, updates := LoadGeometriesFast(files, read);
      }
    }

    /** `open`, without the window itself. */
    method Open(width: int := 1080, height: int := 1080) returns (outcome: Outcome)
      modifies this
      ensures Step(State(), outcome) == Playback.Open(old(State()), width, height)
      ensures geometries == old(geometries) && loadSafe == old(loadSafe)
    {
      outcome := Normal;
      if |geometries| == 0 {
        return;
      }
      if render {
        writer := Some(VideoWriter(outputPath, Codec, fps, width, height, 0, false));
        fps := RecordingFps;
      }
      if !InRange(index, |geometries|) {
        outcome := Raised(IndexError);
        return;
      }
      scene := scene + [Slot(index, |geometries|)];
    }

    /** `close`: stop playing (destroying the window is not modelled). */
    method Close()
      modifies this
      ensures State() == Playback.Close(old(State()))
      ensures geometries == old(geometries) && loadSafe == old(loadSafe)
    {
      isPlaying := false;
    }

    method Pause()
      modifies this
      ensures State() == Playback.Pause(old(State()))
      ensures geometries == old(geometries) && loadSafe == old(loadSafe)
    {
      isPlaying := false;
    }

    /** `jump`: set the index, with no bounds check. */
    method Jump(i: int)
      modifies this
      ensures State() == Playback.Jump(old(State()), i)
      ensures geometries == old(geometries) && loadSafe == old(loadSafe)
    {
      index := i;
    }

    /** `play`: start playing and run the loop over the given tick inputs. */
    method Play(ticks: seq<TickInput>) returns (outcome: Outcome)
      modifies this
      ensures Step(State(), outcome) == Run(Playback.Play(old(State())), ticks)
      ensures geometries == old(geometries) && loadSafe == old(loadSafe)
    {
      isPlaying := true;
      outcome := PlayLoop(ticks);
    }

    /** `_play_loop`: tick while playing, leaving on `break` or an exception. */
    method PlayLoop(ticks: seq<TickInput>) returns (outcome: Outcome)
      modifies this
      ensures Step(State(), outcome) == Run(old(State()), ticks)
      ensures geometries == old(geometries) && loadSafe == old(loadSafe)
    {
      var k := 0;
      while isPlaying && k < |ticks|
        invariant 0 <= k <= |ticks|
        invariant Run(State(), ticks[k..]) == Run(old(State()), ticks)
        invariant geometries == old(geometries) && loadSafe == old(loadSafe)
        decreases |ticks| - k
      {
        assert ticks[k..][0] == ticks[k] && ticks[k..][1..] == ticks[k + 1..];
        var o := Tick(ticks[k]);
        if o != Normal {
          return o;
        }
        k := k + 1;
      }
      outcome := Normal;
    }

    /** One iteration of the loop body. */
    method Tick(input: TickInput) returns (outcome: Outcome)
      modifies this
      ensures Step(State(), outcome) == Playback.Tick(old(State()), input)
      ensures geometries == old(geometries) && loadSafe == old(loadSafe)
    {
      if !input.poll {
        return Break;
      }
      if |geometries| == 0 {
        return Normal;
      }
      if render {
        if writer.None? {
          return Raised(AttributeError);
        }
        writer := Some(Write(writer.value));
        renderIndex := renderIndex + 1;
      }
      if fps == 0 {
        return Raised(ZeroDivisionError);
      }
      var current := input.now;
      if FrameDue(current, lastUpdateTs, fps) {
        outcome := NextFrame();
        if outcome.Raised? {
          return;
        }
        lastUpdateTs := current;
      }
      outcome := Normal;
    }

    /** `_next_frame`: stop at the end when not looping, then swap the shown
        geometry for the one at the next index. */
    method NextFrame() returns (outcome: Outcome)
      requires |geometries| > 0
      modifies this
      ensures Step(State(), outcome) == Playback.NextFrame(old(State()))
      ensures geometries == old(geometries) && loadSafe == old(loadSafe)
    {
      if !loop && index == |geometries| - 1 {
        if render {
          if writer.None? {
            return Raised(AttributeError);
          }
          writer := Some(Release(writer.value));
        }
        isPlaying := false;
      }
      if !InRange(index, |geometries|) {
        return Raised(IndexError);
      }
      scene := Without(scene, Slot(index, |geometries|));
      index := (index + 1) % |geometries|;
      scene := scene + [index];
      outcome := Normal;
    }
  }
}
