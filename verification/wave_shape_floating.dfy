/** The floating-object driver of gilligan/waveShape_floating.py: the merged
    ocean is first advanced by the time offset, then each frame feeds the ewave
    the floating object's mesh (held at the start frame until the simulation
    starts) and only the ewave map is written. Also the small string and
    arithmetic work that turns the Maya patch settings into solver settings. */
module WaveShapeFloating {
  import opened Wrappers
  import opened FrameLoop
  import opened Paths
  import opened Strings
  import opened Decimal
  import opened Naming
  import Frange

  /** The command-line settings the loop and the file names depend on. */
  datatype Config = Config(
    waterThing: string,     // path prefix of the floating object's per-frame meshes
    prodName: string,
    productsPath: string,
    simStart: nat,
    timeOffset: int)        // in timesteps, applied once before the first frame

  /** The loop of `sim`: the offset update first, the geometry clamped to the
      start frame, the ewave outside the merge, and only the ewave written. */
  function Loop(c: Config): Driver {
    Driver(Some(c.timeOffset), true, c.simStart, [Swell, Small], [Ewave])
  }

  function Sim(c: Config, fs: Frange.FrameSet): seq<Event> {
    Run(Loop(c), fs)
  }

  /** The mesh of frame `g`: `<WATERTHING>.<g:04>.obj`, with no path join. */
  function GeometryPath(c: Config, g: nat): string {
    Framed(c.waterThing + ".", g, ".obj")
  }

  /** `<PRODUCTSPATH>/sim/<PRODNAME>_ewave_<basename of WATERTHING>.<f:04>.exr`. */
  function OutputPath(c: Config, f: nat): string {
    PathJoin(c.productsPath, Framed("sim/" + c.prodName + "_ewave_" + Basename(c.waterThing) + ".", f, ".exr"))
  }

  /** A run advances every frame 1..end once and the ocean by the offset plus one
      timestep per frame; it loads `max(f, simstart)` at frame f; it writes the
      ewave map exactly for the selected frames and never a swell or small map. */
  lemma FloatingRun(c: Config, fs: Frange.FrameSet)
    ensures Advanced(Sim(c, fs)) == Iota(fs.end)
    ensures MergeSteps(Sim(c, fs)) == c.timeOffset + fs.end
    ensures |GeomFrames(Sim(c, fs))| == fs.end
    ensures forall i :: 0 <= i < fs.end ==>
      GeomFrames(Sim(c, fs))[i] == if i + 1 < c.simStart then c.simStart else i + 1
    ensures WriteFrames(Sim(c, fs), Ewave) == Selected(fs.frames, fs.end)
    ensures WriteFrames(Sim(c, fs), Swell) == [] && WriteFrames(Sim(c, fs), Small) == []
    ensures Replay(Loop(c), fs.frames, Monitor(0, Ready, 0), Sim(c, fs)).Some?
  {
    var d := Loop(c);
    assert NoDuplicates(d.outputs);
    AdvancesEveryFrame(d, fs.frames, fs.end);
    MergeStepsAfterFrame(d, fs.frames, fs.end);
    GeometryFrames(d, fs.frames, fs.end);
    WritesSelectedFrames(d, fs.frames, fs.end, Ewave);
    WritesSelectedFrames(d, fs.frames, fs.end, Swell);
    WritesSelectedFrames(d, fs.frames, fs.end, Small);
    RunFollowsProtocol(d, fs.frames, fs.end);
  }

  /** The offset update is the first thing the ocean sees, so by the end of
      frame f it has advanced the offset plus f timesteps. */
  lemma OffsetBeforeFrames(c: Config, selected: set<nat>, f: nat)
    ensures RunUpTo(Loop(c), selected, f)[0] == MergeUpdate(c.timeOffset)
    ensures MergeSteps(RunUpTo(Loop(c), selected, f)) == c.timeOffset + f
  {
    var d := Loop(c);
    assert NoDuplicates(d.outputs);
    EarlierRunIsPrefix(d, selected, 0, f);
    MergeStepsAfterFrame(d, selected, f);
  }

  /** Frames 1..3 all written with the simulation starting at 2: the mesh of
      frame 2 is loaded twice, then that of frame 3. */
  lemma LateStartScenario(fs: Frange.FrameSet, c: Config)
    requires fs.frames == {1, 2, 3} && fs.end == 3 && c.simStart == 2
    ensures GeomFrames(Sim(c, fs)) == [2, 2, 3]
  {
    var d := Loop(c);
    assert NoDuplicates(d.outputs);
    GeometryFrames(d, fs.frames, 3);
    var g := GeomFrames(RunUpTo(d, fs.frames, 3));
    assert g[0] == GeomFrame(d, 1) == 2;
    assert g[1] == GeomFrame(d, 2) == 2;
    assert g[2] == GeomFrame(d, 3) == 3;
  }

  lemma LateStartScenarioWrites(fs: Frange.FrameSet, c: Config)
    requires fs.frames == {1, 2, 3} && fs.end == 3 && c.simStart == 2
    ensures WriteFrames(Sim(c, fs), Ewave) == [1, 2, 3]
  {
    FloatingRun(c, fs);
    AllOfFirstThree();
  }

  lemma AllOfFirstThree()
    ensures Selected({1, 2, 3}, 3) == [1, 2, 3]
  {
    assert Selected({1, 2, 3}, 1) == [1];
    assert Selected({1, 2, 3}, 2) == [1, 2];
  }

  /** Distinct geometry frames are distinct mesh files. */
  lemma GeometryPathsDistinct(c: Config, f: nat, g: nat)
    requires GeometryPath(c, f) == GeometryPath(c, g)
    ensures f == g
  {
    FramedInjective(c.waterThing + ".", ".obj", f, g);
  }

  /** Distinct frames are written to distinct files. */
  lemma OutputPathsDistinct(c: Config, f: nat, g: nat)
    requires OutputPath(c, f) == OutputPath(c, g)
    ensures f == g
  {
    FramedPathInjective(c.productsPath, "sim/" + c.prodName + "_ewave_" + Basename(c.waterThing) + ".", ".exr", f, g);
  }

  // ---------------------------------------------------------------------------
  // Patch settings

  /** The two texts `float()` is applied to in a `"[x, y]"` setting: the first
      comma-separated field with `[` stripped and the second with `]` stripped.
      Text without a comma has no second field. */
  function ParsePair(s: string): (r: Result<(string, string), PyError>)
    ensures r.Failure? <==> ',' !in s
    ensures r.Failure? ==> r.error == IndexError
    ensures r.Success? ==> ',' !in r.value.0 && ',' !in r.value.1
    ensures r.Success? ==> r.value.0 == [] || (r.value.0[0] != '[' && r.value.0[|r.value.0| - 1] != '[')
    ensures r.Success? ==> r.value.1 == [] || (r.value.1[0] != ']' && r.value.1[|r.value.1| - 1] != ']')
  {
    var parts := Split(s, ',');
    SplitSeveral(s, ',');
    if |parts| < 2 then Failure(IndexError)
    else
      StripExcludes(parts[0], {'['}, ',');
      StripExcludes(parts[1], {']'}, ',');
      Success((Strip(parts[0], {'['}), Strip(parts[1], {']'})))
  }

  /** A bracketed pair whose parts hold no brackets or commas parses back to
      its parts, the second keeping the space after the comma. */
  lemma ParsePairRoundTrip(a: string, b: string)
    requires a != [] && '[' !in a && ',' !in a
    requires ']' !in b && ',' !in b
    ensures ParsePair("[" + a + ", " + b + "]") == Success((a, " " + b))
  {
    var x := "[" + a;
    var y := " " + b + "]";
    PairText(a, b);
    assert ',' !in x && ',' !in y;
    StripOpening(a);
    StripClosing(b);
    assert x + [','] + y + [] == x + [','] + y;
    ParseFields(x, y, []);
  }

  lemma PairText(a: string, b: string)
    ensures "[" + a + ", " + b + "]" == ("[" + a) + [','] + (" " + b + "]")
  {
  }

  lemma StripOpening(a: string)
    requires a != [] && '[' !in a
    ensures Strip("[" + a, {'['}) == a
  {
    StripPadded("[", a, "", {'['});
    assert "[" + a + "" == "[" + a;
  }

  lemma StripClosing(b: string)
    requires ']' !in b
    ensures Strip(" " + b + "]", {']'}) == " " + b
  {
    StripPadded("", " " + b, "]", {']'});
    assert "" + (" " + b) + "]" == " " + b + "]";
  }

  /** Any text with a comma is `x,y` or `x,y,...` with comma-free x and y, and
      parses to x without its `[`s and y without its `]`s; later fields are ignored. */
  lemma ParseFields(x: string, y: string, rest: string)
    requires ',' !in x && ',' !in y
    requires rest == [] || rest[0] == ','
    ensures ParsePair(x + [','] + y + rest) == Success((Strip(x, {'['}), Strip(y, {']'})))
  {
    SplitFirstTwo(x, ',', y, rest);
  }

  /** Python's `int()` of a float: truncation toward zero. */
  function Trunc(x: real): (r: int)
    ensures x >= 0.0 ==> r >= 0 && r as real <= x < r as real + 1.0
    ensures x < 0.0 ==> r <= 0 && r as real - 1.0 < x <= r as real
  {
    if x >= 0.0 then x.Floor else -((-x).Floor)
  }

  /** The ewave grid for a patch: 1024 cells along the longer side (the first on
      a tie) and `int(1024 * shorter / longer)` along the other. A zero longer
      side raises. */
  function PatchResolution(px: real, py: real): (r: Result<(int, int), PyError>)
    ensures r.Failure? <==> (if px >= py then px else py) == 0.0
    ensures r.Failure? ==> r.error == ZeroDivisionError
    ensures r.Success? && px >= py ==> r.value.0 == 1024
    ensures r.Success? && px < py ==> r.value.1 == 1024
    ensures 0.0 <= py <= px && px > 0.0 ==>
      r.Success? && 0 <= r.value.1 <= 1024 &&
      r.value.1 as real * px <= 1024.0 * py < (r.value.1 + 1) as real * px
    ensures 0.0 <= px < py ==>
      r.Success? && 0 <= r.value.0 < 1024 &&
      r.value.0 as real * py <= 1024.0 * px < (r.value.0 + 1) as real * py
  {
    if px >= py then
      if px == 0.0 then Failure(ZeroDivisionError)
      else
        ScaledShorterSide(py, px);
        Success((1024, Trunc((1024.0 * py) / px)))
    else
      if py == 0.0 then Failure(ZeroDivisionError)
      else
        ScaledShorterSide(px, py);
        Success((Trunc((1024.0 * px) / py), 1024))
  }

  /** For a patch with non-negative sides, `int(1024 * short / long)` is the
      largest cell count whose share of 1024 does not exceed `short / long`. */
  lemma ScaledShorterSide(short: real, long: real)
    requires long != 0.0
    ensures 0.0 <= short <= long ==>
      var n := Trunc((1024.0 * short) / long);
      0 <= n <= 1024 && n as real * long <= 1024.0 * short < (n + 1) as real * long
    ensures 0.0 <= short < long ==> Trunc((1024.0 * short) / long) < 1024
  {
    if short == 0.0 && long > 0.0 {
      assert (1024.0 * short) / long == 0.0;
      assert Trunc(0.0) == 0;
    } else if 0.0 < short <= long {
      QuotientAtMost(short, long);
      QuotientTimes(1024.0 * short, long);
      var q := (1024.0 * short) / long;
      Bracket(q, long, 1024.0 * short, Trunc(q));
    }
  }

  lemma QuotientTimes(x: real, y: real)
    requires y != 0.0
    ensures (x / y) * y == x
  {
  }

  /** `1024 * short / long` is at most 1024, and below it for a strictly shorter side. */
  lemma QuotientAtMost(short: real, long: real)
    requires 0.0 < short <= long
    ensures 0.0 <= (1024.0 * short) / long <= 1024.0
    ensures short < long ==> (1024.0 * short) / long < 1024.0
  {
    var q := (1024.0 * short) / long;
    QuotientTimes(1024.0 * short, long);
    ScaledDifference(q, 1024.0, long);
    ScaledDifference(1024.0, q, long);
    ScaledDifference(0.0, q, long);
  }

  /** For `x == q * y` with `n <= q < n + 1`, `x` lies between `n * y` and `(n + 1) * y`. */
  lemma Bracket(q: real, y: real, x: real, n: int)
    requires y > 0.0 && q * y == x
    requires n as real <= q < n as real + 1.0
    ensures n as real * y <= x
    ensures x < (n + 1) as real * y
  {
    var m := (n + 1) as real;
    assert m == n as real + 1.0;
    ScaledAtMost(n as real, q, y, x);
    ScaledBelow(q, m, y, x);
  }

  lemma ScaledAtMost(a: real, q: real, y: real, x: real)
    requires y > 0.0 && q * y == x && a <= q
    ensures a * y <= x
  {
    ScaledDifference(q, a, y);
  }

  lemma ScaledBelow(q: real, b: real, y: real, x: real)
    requires y > 0.0 && q * y == x && q < b
    ensures x < b * y
  {
    ScaledDifference(b, q, y);
  }

  /** `(a - b) * y` is `a * y - b * y`, and has the sign of `a - b` for positive `y`. */
  lemma ScaledDifference(a: real, b: real, y: real)
    requires y > 0.0
    ensures (a - b) * y == a * y - b * y
    ensures a >= b ==> a * y >= b * y
    ensures a > b ==> a * y > b * y
  {
  }

  function Swap(r: Result<(int, int), PyError>): Result<(int, int), PyError> {
    match r
    case Success((a, b)) => Success((b, a))
    case Failure(e) => Failure(e)
  }

  /** The grid does not depend on which axis is which. */
  lemma ResolutionSymmetric(px: real, py: real)
    ensures PatchResolution(py, px) == Swap(PatchResolution(px, py))
  {
    if px == py && px != 0.0 {
      SquarePatch(px);
    }
  }

  /** A square patch gets the full 1024 x 1024 grid. */
  lemma SquarePatch(p: real)
    requires p != 0.0
    ensures PatchResolution(p, p) == Success((1024, 1024))
  {
    assert (1024.0 * p) / p == 1024.0;
  }

  /** `str([nx, ny])`. */
  function RenderPair(nx: int, ny: int): (r: string)
    ensures |r| >= 6 && r[0] == '[' && r[|r| - 1] == ']'
  {
    "[" + IntToString(nx) + ", " + IntToString(ny) + "]"
  }

  /** The grid setting read back with the same field splitting gives the two numerals. */
  lemma RenderedResolutionParses(nx: int, ny: int)
    ensures ParsePair(RenderPair(nx, ny)) == Success((IntToString(nx), " " + IntToString(ny)))
  {
    NumeralChars(nx);
    NumeralChars(ny);
    ParsePairRoundTrip(IntToString(nx), IntToString(ny));
  }

  lemma NumeralChars(i: int)
    ensures forall k :: 0 <= k < |IntToString(i)| ==> IsDigit(IntToString(i)[k]) || IntToString(i)[k] == '-'
  {
    var r := IntToString(i);
    if i < 0 {
      forall k | 0 <= k < |r| ensures IsDigit(r[k]) || r[k] == '-' {
        if k > 0 {
          assert r[k] == r[1..][k - 1];
        }
      }
    }
  }

  /** The lower-left corner of the ewave patch from Maya's patch scale and
      translate: half the scale below the translate on each axis. */
  function Llc(scaleX: real, scaleZ: real, transX: real, transZ: real): (r: (real, real))
    ensures r.0 + scaleX * 0.5 == transX && r.1 + scaleZ * 0.5 == transZ
  {
    (transX - (scaleX * 0.5), transZ - (scaleZ * 0.5))
  }

  /** The patch spanning `scale` from the corner is centred on the translate. */
  lemma PatchCentredOnTranslate(scaleX: real, scaleZ: real, transX: real, transZ: real)
    ensures var r := Llc(scaleX, scaleZ, transX, transZ);
      (r.0 + (r.0 + scaleX)) / 2.0 == transX && (r.1 + (r.1 + scaleZ)) / 2.0 == transZ
  {
  }
}
