/** The displacement-only driver of gilligan/waveShape_displacement.py: swell
    and small waves merged into one ocean with no interaction solver, and the
    swell and small maps written for the selected frames. */
module WaveShapeDisplacement {
  import opened Wrappers
  import opened FrameLoop
  import opened Paths
  import opened Strings
  import opened Decimal
  import opened Naming
  import Frange

  /** The command-line settings the output names depend on. */
  datatype Config = Config(prodName: string, productsPath: string)

  /** The loop of `sim`: no time offset, no ewave, swell then small written. */
  const Loop: Driver := Driver(None, false, 0, [Swell, Small], [Swell, Small])

  function Sim(fs: Frange.FrameSet): seq<Event> {
    Run(Loop, fs)
  }

  /** The file-name part naming a component's map; only swell and small are written. */
  function WaveName(comp: Component): string {
    match comp
    case Swell => "_swell_wave."
    case Small => "_small_wave."
    case Ewave => "_ewave."
  }

  /** `<PRODUCTSPATH>/sim/<PRODNAME>_swell_wave.<f:04>.exr` and its small-wave twin. */
  function OutputPath(c: Config, comp: Component, f: nat): string {
    PathJoin(c.productsPath, Framed("sim/" + c.prodName + WaveName(comp), f, ".exr"))
  }

  /** A run advances every frame 1..end once, one timestep each, loads no
      geometry, and writes both maps exactly for the selected frames. */
  lemma DisplacementRun(fs: Frange.FrameSet)
    ensures Advanced(Sim(fs)) == Iota(fs.end)
    ensures MergeSteps(Sim(fs)) == fs.end
    ensures GeomFrames(Sim(fs)) == []
    ensures WriteFrames(Sim(fs), Swell) == Selected(fs.frames, fs.end)
    ensures WriteFrames(Sim(fs), Small) == Selected(fs.frames, fs.end)
    ensures WriteFrames(Sim(fs), Ewave) == []
    ensures Replay(Loop, fs.frames, Monitor(0, Ready, 0), Sim(fs)).Some?
  {
    assert NoDuplicates(Loop.outputs);
    AdvancesEveryFrame(Loop, fs.frames, fs.end);
    MergeStepsAfterFrame(Loop, fs.frames, fs.end);
    GeometryFrames(Loop, fs.frames, fs.end);
    WritesSelectedFrames(Loop, fs.frames, fs.end, Swell);
    WritesSelectedFrames(Loop, fs.frames, fs.end, Small);
    WritesSelectedFrames(Loop, fs.frames, fs.end, Ewave);
    RunFollowsProtocol(Loop, fs.frames, fs.end);
  }

  /** Each frame advances swell and small once, through the merge, and nothing else. */
  lemma MergeOnlyPerFrame(selected: set<nat>, f: nat)
    ensures Updated(Loop, Frame(Loop, selected, f)) == [Swell, Small]
  {
    assert NoDuplicates(Loop.outputs);
    FrameObserved(Loop, selected, f, Swell);
  }

  /** No two written maps share a file: the component and the frame are both
      recoverable from the path. */
  lemma OutputPathsDistinct(c: Config, comp1: Component, comp2: Component, f: nat, g: nat)
    requires comp1 != Ewave && comp2 != Ewave
    requires OutputPath(c, comp1, f) == OutputPath(c, comp2, g)
    ensures comp1 == comp2 && f == g
  {
    if comp1 == comp2 {
      FramedPathInjective(c.productsPath, "sim/" + c.prodName + WaveName(comp1), ".exr", f, g);
    } else {
      ComponentLetter(c, comp1, f);
      ComponentLetter(c, comp2, g);
      LettersDiffer(comp1, comp2);
    }
  }

  lemma LettersDiffer(comp1: Component, comp2: Component)
    requires comp1 != Ewave && comp2 != Ewave && comp1 != comp2
    ensures WaveName(comp1)[2] != WaveName(comp2)[2]
  {
  }

  /** The letter after `_s` in the file name tells swell (`w`) from small (`m`). */
  lemma ComponentLetter(c: Config, comp: Component, f: nat)
    ensures var k := |DirPart(c.productsPath)| + 4 + |c.prodName| + 2;
      k < |OutputPath(c, comp, f)| && OutputPath(c, comp, f)[k] == WaveName(comp)[2]
  {
    var w := WaveName(comp);
    assert |w| >= 3;
    var p := "sim/" + c.prodName + w;
    var d := DirPart(c.productsPath);
    var t := Pad4(f) + ".exr";
    assert p[4 + |c.prodName| + 2] == w[2];
    ConcatAssoc(p, Pad4(f), ".exr");
    assert Framed(p, f, ".exr") == p + t;
    assert (p + t)[0] == 's';
    RelativeJoin(c.productsPath, p + t);
    IndexIntoConcat(d, p, t, 4 + |c.prodName| + 2);
  }

  lemma IndexIntoConcat(d: string, p: string, t: string, i: nat)
    requires i < |p|
    ensures |d| + i < |d + (p + t)| && (d + (p + t))[|d| + i] == p[i]
  {
  }
}
