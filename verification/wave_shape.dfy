/** The interactive-wave driver of gilligan/waveShape.py: swell and small waves
    merged into one ocean, an ewave driven by a floating object's mesh on top of
    it, and the three displacement maps written for the selected frames. */
module WaveShape {
  import opened Wrappers
  import opened FrameLoop
  import opened Paths
  import opened Strings
  import opened Decimal
  import opened Naming
  import Frange

  /** The command-line settings that name files, and the ewave solver's label. */
  datatype Config = Config(assPath: string, assName: string, productsPath: string, ewaveLabel: string)

  /** The loop of `sim`: no time offset, no clamping, the ewave outside the merge,
      and the ewave, swell and small maps written for each selected frame. */
  const Loop: Driver := Driver(None, true, 0, [Swell, Small], [Ewave, Swell, Small])

  function Sim(fs: Frange.FrameSet): seq<Event> {
    Run(Loop, fs)
  }

  /** The mesh loaded for frame `f`: `<ASSPATH>/<ASSNANE>.<f:04>.obj`. */
  function GeometryPath(c: Config, f: nat): string {
    PathJoin(c.assPath, Framed(c.assName + ".", f, ".obj"))
  }

  /** The file-name prefix, under the products path, of a component's maps. */
  function OutputPrefix(c: Config, comp: Component): string {
    match comp
    case Ewave => "sim/" + c.ewaveLabel + "."
    case Swell => "sim/swell_wave."
    case Small => "sim/small_wave."
  }

  /** `<PRODUCTSPATH>/sim/<label>.<f:04>.exr` for a component's map of frame `f`. */
  function OutputPath(c: Config, comp: Component, f: nat): string {
    PathJoin(c.productsPath, Framed(OutputPrefix(c, comp), f, ".exr"))
  }

  /** A run advances every frame 1..end once, in order, one timestep each;
      loads the geometry of each frame itself (no clamping); and writes each of
      the three maps exactly for the selected frames, in increasing order. */
  lemma SimulatesEveryFrameWritesSelected(fs: Frange.FrameSet)
    ensures Advanced(Sim(fs)) == Iota(fs.end)
    ensures MergeSteps(Sim(fs)) == fs.end
    ensures GeomFrames(Sim(fs)) == Iota(fs.end)
    ensures forall comp :: WriteFrames(Sim(fs), comp) == Selected(fs.frames, fs.end)
    ensures Replay(Loop, fs.frames, Monitor(0, Ready, 0), Sim(fs)).Some?
  {
    AdvancesEveryFrame(Loop, fs.frames, fs.end);
    MergeStepsAfterFrame(Loop, fs.frames, fs.end);
    GeometryFrames(Loop, fs.frames, fs.end);
    RunFollowsProtocol(Loop, fs.frames, fs.end);
    assert NoDuplicates(Loop.outputs);
    forall comp
      ensures WriteFrames(Sim(fs), comp) == Selected(fs.frames, fs.end)
    {
      assert comp == Loop.outputs[0] || comp == Loop.outputs[1] || comp == Loop.outputs[2];
      WritesSelectedFrames(Loop, fs.frames, fs.end, comp);
    }
  }

  /** Each frame advances swell and small once through the merge, then the ewave once. */
  lemma EachWaveOncePerFrame(selected: set<nat>, f: nat)
    ensures Updated(Loop, Frame(Loop, selected, f)) == [Swell, Small, Ewave]
  {
    assert NoDuplicates(Loop.outputs);
    FrameObserved(Loop, selected, f, Swell);
  }

  /** Distinct frames never share a geometry file. */
  lemma GeometryPathsDistinct(c: Config, f: nat, g: nat)
    requires GeometryPath(c, f) == GeometryPath(c, g)
    ensures f == g
  {
    FramedPathInjective(c.assPath, c.assName + ".", ".obj", f, g);
  }

  /** Distinct frames never share an output file for the same component. */
  lemma OutputPathsDistinct(c: Config, comp: Component, f: nat, g: nat)
    requires OutputPath(c, comp, f) == OutputPath(c, comp, g)
    ensures f == g
  {
    FramedPathInjective(c.productsPath, OutputPrefix(c, comp), ".exr", f, g);
  }

  /** The frange `5-9:2` simulates frames 1 through 9 and writes maps only at 5, 7 and 9. */
  lemma StridedFrangeRun(fs: Frange.FrameSet)
    requires Frange.Evaluate([Frange.Span(5, 9, 2)]) == Success(fs)
    ensures Advanced(Sim(fs)) == [1, 2, 3, 4, 5, 6, 7, 8, 9]
    ensures WriteFrames(Sim(fs), Ewave) == [5, 7, 9]
  {
    Frange.StridedRange();
    assert fs.frames == {5, 7, 9} && fs.end == 9;
    FiveSevenNineAdvances(fs);
    FiveSevenNineWrites(fs);
  }

  lemma FiveSevenNineAdvances(fs: Frange.FrameSet)
    requires fs.frames == {5, 7, 9} && fs.end == 9
    ensures Advanced(Sim(fs)) == [1, 2, 3, 4, 5, 6, 7, 8, 9]
  {
    SimulatesEveryFrameWritesSelected(fs);
    IotaNine();
  }

  lemma IotaNine()
    ensures Iota(9) == [1, 2, 3, 4, 5, 6, 7, 8, 9]
  {
  }

  lemma FiveSevenNineWrites(fs: Frange.FrameSet)
    requires fs.frames == {5, 7, 9} && fs.end == 9
    ensures WriteFrames(Sim(fs), Ewave) == [5, 7, 9]
  {
    SimulatesEveryFrameWritesSelected(fs);
    SelectedFiveSevenNine();
  }

  lemma SelectedFiveSevenNine()
    ensures Selected({5, 7, 9}, 9) == [5, 7, 9]
  {
    SelectedFiveSeven();
    assert Selected({5, 7, 9}, 8) == [5, 7];
  }

  lemma SelectedFiveSeven()
    ensures Selected({5, 7, 9}, 7) == [5, 7]
  {
    NoneBeforeFive();
    assert Selected({5, 7, 9}, 5) == [5];
    assert Selected({5, 7, 9}, 6) == [5];
  }

  lemma NoneBeforeFive()
    ensures Selected({5, 7, 9}, 4) == []
  {
    assert Selected({5, 7, 9}, 2) == [];
  }
}
