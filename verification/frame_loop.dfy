/** The frame loop shared by the three simulation drivers. Each driver marches
    frames 1..end of its frame set, advances the merged ocean by exactly one
    timestep per frame, optionally feeds the interaction (ewave) solver a
    boundary geometry and updates it after the merge, and writes displacement
    maps only for the selected frames. The external solver calls are recorded
    as uninterpreted events; one timestep is one unit of `steps`. */
module FrameLoop {
  import opened Wrappers
  import Frange

  /** The wave solvers of a scene: the swell, the small (wind) waves and the ewave interaction. */
  datatype Component = Swell | Small | Ewave

  /** One observable step of a driver run. */
  datatype Event =
    | SetFrame(frame: nat)                       // the current-frame global is set
    | MergeUpdate(steps: int)                    // the merged ocean advances by `steps` timesteps
    | LoadGeom(geomFrame: nat)                   // the floating object's mesh for that frame is loaded
    | SetSource                                  // the mesh becomes the ewave height source, recomputation on
    | EwaveUpdate                                // the ewave advances one timestep
    | Write(component: Component, frame: nat)    // that component's displacement map for the frame is written

  /** What distinguishes one driver's loop from another's. */
  datatype Driver = Driver(
    timeOffset: Option<int>,     // Some(k): one merge update of k timesteps before the loop
    ewave: bool,                 // the ewave is fed geometry and updated after the merge each frame
    simStart: nat,               // geometry for frames before this is the geometry at this frame
    merge: seq<Component>,       // the merged ocean's components, in registration order
    outputs: seq<Component>)     // written, in this order, for each selected frame

  /** The frame whose geometry drives the ewave at frame `f`: `max(f, simStart)`. */
  function GeomFrame(d: Driver, f: nat): (g: nat)
    ensures g >= f && g >= d.simStart
    ensures g == f || g == d.simStart
  {
    if f < d.simStart then d.simStart else f
  }

  /** The merge update issued before the first frame, if any. */
  function Prologue(d: Driver): seq<Event> {
    match d.timeOffset
    case None => []
    case Some(k) => [MergeUpdate(k)]
  }

  function Offset(d: Driver): int {
    match d.timeOffset
    case None => 0
    case Some(k) => k
  }

  /** The writes for one selected frame. */
  function Writes(outputs: seq<Component>, f: nat): seq<Event>
    decreases |outputs|
  {
    if |outputs| == 0 then [] else [Write(outputs[0], f)] + Writes(outputs[1..], f)
  }

  /** The ewave step of frame `f`: load the clamped geometry, make it the height source, update. */
  function EwavePart(d: Driver, f: nat): seq<Event> {
    if d.ewave then [LoadGeom(GeomFrame(d, f)), SetSource, EwaveUpdate] else []
  }

  /** The writes of frame `f`, present only when `f` is selected. */
  function WritePart(d: Driver, selected: set<nat>, f: nat): seq<Event> {
    if f in selected then Writes(d.outputs, f) else []
  }

  /** The body of the loop for frame `f`. */
  function Frame(d: Driver, selected: set<nat>, f: nat): seq<Event> {
    [SetFrame(f), MergeUpdate(1)] + EwavePart(d, f) + WritePart(d, selected, f)
  }

  /** The events up to and including frame `n`. */
  function RunUpTo(d: Driver, selected: set<nat>, n: nat): seq<Event>
    decreases n
  {
    if n == 0 then Prologue(d) else RunUpTo(d, selected, n - 1) + Frame(d, selected, n)
  }

  /** A whole run over a frame set: frames 1 to `end`. */
  function Run(d: Driver, fs: Frange.FrameSet): seq<Event> {
    RunUpTo(d, fs.frames, fs.end)
  }

  // ---------------------------------------------------------------------------
  // Observers of a trace

  /** The frames set as current, in order. */
  function Advanced(t: seq<Event>): seq<nat>
    decreases |t|
  {
    if |t| == 0 then [] else (if t[0].SetFrame? then [t[0].frame] else []) + Advanced(t[1..])
  }

  /** The total number of timesteps the merged ocean has advanced. */
  function MergeSteps(t: seq<Event>): int
    decreases |t|
  {
    if |t| == 0 then 0 else (if t[0].MergeUpdate? then t[0].steps else 0) + MergeSteps(t[1..])
  }

  /** The geometry frames loaded, in order. */
  function GeomFrames(t: seq<Event>): seq<nat>
    decreases |t|
  {
    if |t| == 0 then [] else (if t[0].LoadGeom? then [t[0].geomFrame] else []) + GeomFrames(t[1..])
  }

  /** The frames for which component `c` was written, in order. */
  function WriteFrames(t: seq<Event>, c: Component): seq<nat>
    decreases |t|
  {
    if |t| == 0 then []
    else (if t[0].Write? && t[0].component == c then [t[0].frame] else []) + WriteFrames(t[1..], c)
  }

  /** The components advanced by a trace, in order: a merge update advances every merged component. */
  function Updated(d: Driver, t: seq<Event>): seq<Component>
    decreases |t|
  {
    if |t| == 0 then []
    else (if t[0].MergeUpdate? then d.merge else if t[0].EwaveUpdate? then [Ewave] else []) + Updated(d, t[1..])
  }

  lemma {:induction false} AdvancedConcat(a: seq<Event>, b: seq<Event>)
    ensures Advanced(a + b) == Advanced(a) + Advanced(b)
    decreases |a|
  {
    if |a| == 0 {
      assert a + b == b;
    } else {
      assert (a + b)[1..] == a[1..] + b;
      AdvancedConcat(a[1..], b);
    }
  }

  lemma {:induction false} MergeStepsConcat(a: seq<Event>, b: seq<Event>)
    ensures MergeSteps(a + b) == MergeSteps(a) + MergeSteps(b)
    decreases |a|
  {
    if |a| == 0 {
      assert a + b == b;
    } else {
      assert (a + b)[1..] == a[1..] + b;
      MergeStepsConcat(a[1..], b);
    }
  }

  lemma {:induction false} GeomFramesConcat(a: seq<Event>, b: seq<Event>)
    ensures GeomFrames(a + b) == GeomFrames(a) + GeomFrames(b)
    decreases |a|
  {
    if |a| == 0 {
      assert a + b == b;
    } else {
      assert (a + b)[1..] == a[1..] + b;
      GeomFramesConcat(a[1..], b);
    }
  }

  lemma {:induction false} WriteFramesConcat(a: seq<Event>, b: seq<Event>, c: Component)
    ensures WriteFrames(a + b, c) == WriteFrames(a, c) + WriteFrames(b, c)
    decreases |a|
  {
    if |a| == 0 {
      assert a + b == b;
    } else {
      assert (a + b)[1..] == a[1..] + b;
      WriteFramesConcat(a[1..], b, c);
    }
  }

  lemma {:induction false} UpdatedConcat(d: Driver, a: seq<Event>, b: seq<Event>)
    ensures Updated(d, a + b) == Updated(d, a) + Updated(d, b)
    decreases |a|
  {
    if |a| == 0 {
      assert a + b == b;
    } else {
      assert (a + b)[1..] == a[1..] + b;
      UpdatedConcat(d, a[1..], b);
    }
  }

  lemma ObserversConcat(d: Driver, a: seq<Event>, b: seq<Event>, c: Component)
    ensures Advanced(a + b) == Advanced(a) + Advanced(b)
    ensures MergeSteps(a + b) == MergeSteps(a) + MergeSteps(b)
    ensures GeomFrames(a + b) == GeomFrames(a) + GeomFrames(b)
    ensures WriteFrames(a + b, c) == WriteFrames(a, c) + WriteFrames(b, c)
    ensures Updated(d, a + b) == Updated(d, a) + Updated(d, b)
  {
    AdvancedConcat(a, b);
    MergeStepsConcat(a, b);
    GeomFramesConcat(a, b);
    WriteFramesConcat(a, b, c);
    UpdatedConcat(d, a, b);
  }

  // ---------------------------------------------------------------------------
  // Selected frames in ascending order

  /** The selected frames among 1..n, ascending and without repetition. */
  function Selected(selected: set<nat>, n: nat): (r: seq<nat>)
    ensures forall f :: f in r <==> f in selected && 1 <= f <= n
    ensures forall i, j :: 0 <= i < j < |r| ==> r[i] < r[j]
    decreases n
  {
    if n == 0 then []
    else
      var earlier := Selected(selected, n - 1);
      assert forall i :: 0 <= i < |earlier| ==> earlier[i] in earlier;
      earlier + (if n in selected then [n] else [])
  }

  /** The frames 1..n in order. */
  function Iota(n: nat): (r: seq<nat>)
    ensures |r| == n
    ensures forall i :: 0 <= i < n ==> r[i] == i + 1
  {
    seq(n, i => i + 1)
  }

  predicate NoDuplicates<T(==)>(s: seq<T>) {
    forall i, j :: 0 <= i < j < |s| ==> s[i] != s[j]
  }

  // ---------------------------------------------------------------------------
  // What one frame contributes

  lemma WritesObserved(d: Driver, outputs: seq<Component>, f: nat, c: Component)
    requires NoDuplicates(outputs)
    ensures Advanced(Writes(outputs, f)) == []
    ensures MergeSteps(Writes(outputs, f)) == 0
    ensures GeomFrames(Writes(outputs, f)) == []
    ensures Updated(d, Writes(outputs, f)) == []
    ensures WriteFrames(Writes(outputs, f), c) == if c in outputs then [f] else []
  {
    WritesQuiet(d, outputs, f);
    WritesOfComponent(outputs, f, c);
  }

  /** The writes of a frame set no frame, advance nothing and load nothing. */
  lemma {:induction false} WritesQuiet(d: Driver, outputs: seq<Component>, f: nat)
    ensures Advanced(Writes(outputs, f)) == []
    ensures MergeSteps(Writes(outputs, f)) == 0
    ensures GeomFrames(Writes(outputs, f)) == []
    ensures Updated(d, Writes(outputs, f)) == []
    decreases |outputs|
  {
    if |outputs| > 0 {
      WritesQuiet(d, outputs[1..], f);
    }
  }

  /** The writes of a frame write component c once when it is an output. */
  lemma {:induction false} WritesOfComponent(outputs: seq<Component>, f: nat, c: Component)
    requires NoDuplicates(outputs)
    ensures WriteFrames(Writes(outputs, f), c) == if c in outputs then [f] else []
    decreases |outputs|
  {
    if |outputs| > 0 {
      WritesOfComponent(outputs[1..], f, c);
      assert outputs == [outputs[0]] + outputs[1..];
      assert c in outputs[1..] ==> c != outputs[0];
    }
  }

  lemma SingleObserved(d: Driver, e: Event, c: Component)
    ensures Advanced([e]) == if e.SetFrame? then [e.frame] else []
    ensures MergeSteps([e]) == if e.MergeUpdate? then e.steps else 0
    ensures GeomFrames([e]) == if e.LoadGeom? then [e.geomFrame] else []
    ensures WriteFrames([e], c) == if e.Write? && e.component == c then [e.frame] else []
    ensures Updated(d, [e]) == if e.MergeUpdate? then d.merge else if e.EwaveUpdate? then [Ewave] else []
  {
    assert [e][1..] == [];
  }

  lemma HeadObserved(d: Driver, f: nat, c: Component)
    ensures var head := [SetFrame(f), MergeUpdate(1)];
      && Advanced(head) == [f] && MergeSteps(head) == 1 && GeomFrames(head) == []
      && WriteFrames(head, c) == [] && Updated(d, head) == d.merge
  {
    assert [SetFrame(f), MergeUpdate(1)] == [SetFrame(f)] + [MergeUpdate(1)];
    ObserversConcat(d, [SetFrame(f)], [MergeUpdate(1)], c);
    SingleObserved(d, SetFrame(f), c);
    SingleObserved(d, MergeUpdate(1), c);
  }

  lemma EwaveStepObserved(d: Driver, g: nat, c: Component)
    ensures var mid := [LoadGeom(g), SetSource, EwaveUpdate];
      && Advanced(mid) == [] && MergeSteps(mid) == 0 && GeomFrames(mid) == [g]
      && WriteFrames(mid, c) == [] && Updated(d, mid) == [Ewave]
  {
    assert [LoadGeom(g), SetSource, EwaveUpdate] == [LoadGeom(g)] + [SetSource] + [EwaveUpdate];
    ObserversConcat(d, [LoadGeom(g)] + [SetSource], [EwaveUpdate], c);
    ObserversConcat(d, [LoadGeom(g)], [SetSource], c);
    SingleObserved(d, LoadGeom(g), c);
    SingleObserved(d, SetSource, c);
    SingleObserved(d, EwaveUpdate, c);
  }

  lemma FrameObserved(d: Driver, selected: set<nat>, f: nat, c: Component)
    requires NoDuplicates(d.outputs)
    ensures Advanced(Frame(d, selected, f)) == [f]
    ensures MergeSteps(Frame(d, selected, f)) == 1
    ensures GeomFrames(Frame(d, selected, f)) == if d.ewave then [GeomFrame(d, f)] else []
    ensures WriteFrames(Frame(d, selected, f), c) == if f in selected && c in d.outputs then [f] else []
    ensures Updated(d, Frame(d, selected, f)) == d.merge + if d.ewave then [Ewave] else []
  {
    var head := [SetFrame(f), MergeUpdate(1)];
    var mid := EwavePart(d, f);
    var tail := WritePart(d, selected, f);
    ObserversConcat(d, head + mid, tail, c);
    ObserversConcat(d, head, mid, c);
    HeadObserved(d, f, c);
    if d.ewave {
      EwaveStepObserved(d, GeomFrame(d, f), c);
    }
    if f in selected {
      WritesObserved(d, d.outputs, f, c);
    }
  }

  // ---------------------------------------------------------------------------
  // Properties of a run

  /** A run sets frames 1 to n as current, each exactly once and in increasing order. */
  lemma {:induction false} AdvancesEveryFrame(d: Driver, selected: set<nat>, n: nat)
    requires NoDuplicates(d.outputs)
    ensures Advanced(RunUpTo(d, selected, n)) == Iota(n)
    decreases n
  {
    if n == 0 {
      assert Advanced(Prologue(d)) == [];
    } else {
      AdvancesEveryFrame(d, selected, n - 1);
      AdvancedConcat(RunUpTo(d, selected, n - 1), Frame(d, selected, n));
      FrameObserved(d, selected, n, Swell);
      IotaSnoc(n);
    }
  }

  lemma IotaSnoc(n: nat)
    requires n >= 1
    ensures Iota(n) == Iota(n - 1) + [n]
  {
  }

  /** After frame n the merged ocean has advanced the time offset plus n timesteps. */
  lemma {:induction false} MergeStepsAfterFrame(d: Driver, selected: set<nat>, n: nat)
    requires NoDuplicates(d.outputs)
    ensures MergeSteps(RunUpTo(d, selected, n)) == Offset(d) + n
    decreases n
  {
    if n == 0 {
      if d.timeOffset.Some? {
        assert Prologue(d)[1..] == [];
      }
    } else {
      MergeStepsAfterFrame(d, selected, n - 1);
      MergeStepsConcat(RunUpTo(d, selected, n - 1), Frame(d, selected, n));
      FrameObserved(d, selected, n, Swell);
    }
  }

  /** The run up to an earlier frame is a prefix of the run up to a later one:
      a run stopped after frame f has produced exactly the events of frames 1..f. */
  lemma {:induction false} EarlierRunIsPrefix(d: Driver, selected: set<nat>, f1: nat, f2: nat)
    requires f1 <= f2
    ensures RunUpTo(d, selected, f1) <= RunUpTo(d, selected, f2)
    decreases f2
  {
    if f1 < f2 {
      EarlierRunIsPrefix(d, selected, f1, f2 - 1);
    }
  }

  /** Between any two frames the merged ocean advances by exactly their distance:
      no frame is skipped, selected or not. */
  lemma StepsBetweenFrames(d: Driver, selected: set<nat>, f1: nat, f2: nat)
    requires NoDuplicates(d.outputs)
    requires f1 <= f2
    ensures MergeSteps(RunUpTo(d, selected, f2)) - MergeSteps(RunUpTo(d, selected, f1)) == f2 - f1
  {
    MergeStepsAfterFrame(d, selected, f1);
    MergeStepsAfterFrame(d, selected, f2);
  }

  /** Frame f's ewave is driven by the geometry of frame max(f, simStart), in frame order. */
  lemma {:induction false} GeometryFrames(d: Driver, selected: set<nat>, n: nat)
    requires NoDuplicates(d.outputs)
    ensures var g := GeomFrames(RunUpTo(d, selected, n));
      && |g| == (if d.ewave then n else 0)
      && forall i :: 0 <= i < |g| ==> g[i] == GeomFrame(d, i + 1)
    decreases n
  {
    if n == 0 {
      assert GeomFrames(Prologue(d)) == [];
    } else {
      GeometryFrames(d, selected, n - 1);
      GeomFramesConcat(RunUpTo(d, selected, n - 1), Frame(d, selected, n));
      FrameGeometry(d, selected, n);
      GeometryStep(d, GeomFrames(RunUpTo(d, selected, n - 1)), GeomFrames(RunUpTo(d, selected, n)), n);
    }
  }

  lemma FrameGeometry(d: Driver, selected: set<nat>, f: nat)
    requires NoDuplicates(d.outputs)
    ensures GeomFrames(Frame(d, selected, f)) == if d.ewave then [GeomFrame(d, f)] else []
  {
    FrameObserved(d, selected, f, Swell);
  }

  /** Appending frame n's geometry, if any, to the geometry of frames 1..n-1. */
  lemma GeometryStep(d: Driver, prev: seq<nat>, g: seq<nat>, n: nat)
    requires n >= 1
    requires |prev| == (if d.ewave then n - 1 else 0)
    requires forall i :: 0 <= i < |prev| ==> prev[i] == GeomFrame(d, i + 1)
    requires g == prev + if d.ewave then [GeomFrame(d, n)] else []
    ensures |g| == (if d.ewave then n else 0)
    ensures forall i :: 0 <= i < |g| ==> g[i] == GeomFrame(d, i + 1)
  {
    forall i | 0 <= i < |g| ensures g[i] == GeomFrame(d, i + 1) {
      if i < |prev| {
        assert g[i] == prev[i];
      }
    }
  }

  /** Component c is written for frame f exactly when c is an output and f is a
      selected frame in 1..n; each such frame once, in increasing order. */
  lemma {:induction false} WritesSelectedFrames(d: Driver, selected: set<nat>, n: nat, c: Component)
    requires NoDuplicates(d.outputs)
    ensures WriteFrames(RunUpTo(d, selected, n), c) == if c in d.outputs then Selected(selected, n) else []
    decreases n
  {
    if n == 0 {
      assert WriteFrames(Prologue(d), c) == [];
    } else {
      WritesSelectedFrames(d, selected, n - 1, c);
      WriteFramesConcat(RunUpTo(d, selected, n - 1), Frame(d, selected, n), c);
      FrameObserved(d, selected, n, c);
    }
  }

  /** Within one frame no component is advanced twice: the merged components
      once each through the merge update, then the ewave on its own. */
  lemma ComponentsAdvanceOncePerFrame(d: Driver, selected: set<nat>, f: nat)
    requires NoDuplicates(d.outputs) && NoDuplicates(d.merge)
    requires d.ewave ==> Ewave !in d.merge
    ensures NoDuplicates(Updated(d, Frame(d, selected, f)))
    ensures forall c :: c in Updated(d, Frame(d, selected, f)) <==> c in d.merge || (d.ewave && c == Ewave)
  {
    FrameObserved(d, selected, f, Swell);
    var u := Updated(d, Frame(d, selected, f));
    if d.ewave {
      assert u == d.merge + [Ewave];
      assert u[|u| - 1] == Ewave;
      assert forall i :: 0 <= i < |d.merge| ==> u[i] == d.merge[i] && u[i] in d.merge;
    } else {
      assert u == d.merge;
    }
  }

  // ---------------------------------------------------------------------------
  // The loop protocol, as a monitor over events

  /** Where a monitored run is: before the loop (`Ready`, or `Primed` after the
      time-offset update), or inside the current frame. */
  datatype Stage = Ready | Primed | Begun | Merged | Loaded | Sourced | Settled

  datatype Monitor = Monitor(frame: nat, stage: Stage, steps: int)

  /** The protocol every frame must follow: frames begin one after another,
      only once the previous frame is settled; each begins with a single
      one-timestep merge update; with an ewave, the geometry of frame
      max(frame, simStart) is loaded, set as the source, and the ewave updated,
      in that order; only then may outputs of this frame be written, and only
      for a selected frame. `None` marks a violation. */
  function Next(d: Driver, selected: set<nat>, m: Monitor, e: Event): Option<Monitor> {
    match e
    case MergeUpdate(k) =>
      if m.stage == Ready && d.timeOffset == Some(k) then Some(m.(stage := Primed, steps := m.steps + k))
      else if m.stage == Begun && k == 1 then Some(m.(stage := if d.ewave then Merged else Settled, steps := m.steps + 1))
      else None
    case SetFrame(f) =>
      if f == m.frame + 1 && (m.stage == Settled || m.stage == Primed || (m.stage == Ready && d.timeOffset.None?))
      then Some(m.(frame := f, stage := Begun))
      else None
    case LoadGeom(g) =>
      if m.stage == Merged && g >= m.frame && g >= d.simStart && (g == m.frame || g == d.simStart)
      then Some(m.(stage := Loaded))
      else None
    case SetSource =>
      if m.stage == Loaded then Some(m.(stage := Sourced)) else None
    case EwaveUpdate =>
      if m.stage == Sourced then Some(m.(stage := Settled)) else None
    case Write(c, f) =>
      if m.stage == Settled && f == m.frame && f in selected && c in d.outputs then Some(m) else None
  }

  /** Runs the monitor over a trace. */
  function Replay(d: Driver, selected: set<nat>, m: Monitor, t: seq<Event>): Option<Monitor>
    decreases |t|
  {
    if |t| == 0 then Some(m)
    else
      match Next(d, selected, m, t[0])
      case None => None
      case Some(m') => Replay(d, selected, m', t[1..])
  }

  lemma {:induction false} ReplayConcat(d: Driver, selected: set<nat>, m: Monitor, a: seq<Event>, b: seq<Event>)
    ensures Replay(d, selected, m, a + b) ==
      match Replay(d, selected, m, a)
      case None => None
      case Some(m') => Replay(d, selected, m', b)
    decreases |a|
  {
    if |a| == 0 {
      assert a + b == b;
    } else {
      assert (a + b)[1..] == a[1..] + b;
      match Next(d, selected, m, a[0])
      case None =>
      case Some(m') => ReplayConcat(d, selected, m', a[1..], b);
    }
  }

  lemma ReplaySingle(d: Driver, selected: set<nat>, m: Monitor, e: Event)
    ensures Replay(d, selected, m, [e]) == Next(d, selected, m, e)
  {
    assert [e][1..] == [];
  }

  /** Writes of a selected, settled frame keep the monitor where it is. */
  lemma {:induction false} ReplayWrites(d: Driver, selected: set<nat>, m: Monitor, outputs: seq<Component>)
    requires m.stage == Settled && m.frame in selected
    requires forall i :: 0 <= i < |outputs| ==> outputs[i] in d.outputs
    ensures Replay(d, selected, m, Writes(outputs, m.frame)) == Some(m)
    decreases |outputs|
  {
    if |outputs| > 0 {
      ReplayConcat(d, selected, m, [Write(outputs[0], m.frame)], Writes(outputs[1..], m.frame));
      ReplaySingle(d, selected, m, Write(outputs[0], m.frame));
      ReplayWrites(d, selected, m, outputs[1..]);
    }
  }

  predicate CanBeginFrame(d: Driver, m: Monitor) {
    m.stage == Settled || m.stage == Primed || (m.stage == Ready && d.timeOffset.None?)
  }

  /** One frame of the loop takes the monitor from the end of the previous
      frame to the end of this one, one timestep further on. */
  lemma ReplayFrame(d: Driver, selected: set<nat>, m: Monitor)
    requires CanBeginFrame(d, m)
    ensures Replay(d, selected, m, Frame(d, selected, m.frame + 1)) ==
      Some(Monitor(m.frame + 1, Settled, m.steps + 1))
  {
    var f := m.frame + 1;
    var begun := m.(frame := f, stage := Begun);
    var merged := begun.(stage := if d.ewave then Merged else Settled, steps := m.steps + 1);
    var settled := Monitor(f, Settled, m.steps + 1);
    var head := [SetFrame(f), MergeUpdate(1)];
    assert head == [SetFrame(f)] + [MergeUpdate(1)];
    ReplayConcat(d, selected, m, [SetFrame(f)], [MergeUpdate(1)]);
    ReplaySingle(d, selected, m, SetFrame(f));
    ReplaySingle(d, selected, begun, MergeUpdate(1));
    assert Replay(d, selected, m, head) == Some(merged);
    ReplayConcat(d, selected, m, head + EwavePart(d, f), WritePart(d, selected, f));
    ReplayConcat(d, selected, m, head, EwavePart(d, f));
    if d.ewave {
      var g := GeomFrame(d, f);
      var loaded := merged.(stage := Loaded);
      var sourced := merged.(stage := Sourced);
      assert EwavePart(d, f) == [LoadGeom(g)] + [SetSource] + [EwaveUpdate];
      ReplayConcat(d, selected, merged, [LoadGeom(g)] + [SetSource], [EwaveUpdate]);
      ReplayConcat(d, selected, merged, [LoadGeom(g)], [SetSource]);
      ReplaySingle(d, selected, merged, LoadGeom(g));
      ReplaySingle(d, selected, loaded, SetSource);
      ReplaySingle(d, selected, sourced, EwaveUpdate);
      assert Replay(d, selected, merged, EwavePart(d, f)) == Some(settled);
    } else {
      assert Replay(d, selected, merged, EwavePart(d, f)) == Some(settled);
    }
    if f in selected {
      ReplayWrites(d, selected, settled, d.outputs);
    }
  }

  /** Every run follows the loop protocol and ends settled in its last frame,
      with the merged ocean the time offset plus `n` timesteps along. */
  lemma {:induction false} RunFollowsProtocol(d: Driver, selected: set<nat>, n: nat)
    ensures Replay(d, selected, Monitor(0, Ready, 0), RunUpTo(d, selected, n)) ==
      Some(Monitor(n, if n > 0 then Settled else if d.timeOffset.Some? then Primed else Ready, Offset(d) + n))
    decreases n
  {
    var start := Monitor(0, Ready, 0);
    if n == 0 {
      if d.timeOffset.Some? {
        ReplaySingle(d, selected, start, Prologue(d)[0]);
        assert Prologue(d) == [Prologue(d)[0]];
      }
    } else {
      RunFollowsProtocol(d, selected, n - 1);
      ReplayConcat(d, selected, start, RunUpTo(d, selected, n - 1), Frame(d, selected, n));
      var m := Monitor(n - 1, if n - 1 > 0 then Settled else if d.timeOffset.Some? then Primed else Ready, Offset(d) + n - 1);
      ReplayFrame(d, selected, m);
    }
  }
}
