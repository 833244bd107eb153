# Eclipse pipeline scripts in Dafny

A model of the production scripts of the *eclipse* ocean-effects pipeline,
and proofs about them. The model is in three groups.

- **Simulation drivers.** The `sim` frame loops of the three gilligan
  wave-shape drivers are modelled as pure functions from a frame set to a
  trace of solver events. The three drivers are `waveShape.py`,
  `waveShape_floating.py` and `waveShape_displacement.py`. The events are:
  - set the current frame;
  - update the merged ocean;
  - load the floating mesh;
  - set the height source;
  - update the ewave;
  - write a displacement map.

  A replay monitor checks every run against the per-frame protocol. The
  meaning of the frame-range ("frange") expressions they take is modelled
  from its documented semantics.
- **Swell-parameter wedge.** The Cartesian product of candidate values gives
  one record per combination. Each record goes to its own numbered JSON
  file. The submit scripts run the driver on those files, and only `.sh`
  files are submitted.
- **Batch-job enumerators.** These scripts generate per-frame MEL or Nuke
  shell scripts and submit them to the render queue. Each is modelled as a
  trace of `mkdir`, file writes and queue submissions, applied to a file
  map. Also modelled: the `<name>_<start>:<end>` parser and OBJ exporter of
  `exportTriObj.py`, and the post-bake clean-up of `cleanFrameWetMap.py`.

Python's `IndexError`, `ValueError` and `ZeroDivisionError` appear as
`Failure`/`Outcome` values. Side effects already performed before an
exception stay visible in the `Outcome`'s steps.

Modules:
- `Strings`, `Decimal`, `Paths`, `Naming`: `split`, `join`, `strip`,
  `str(int)`, `{:04}`, `os.path.join` and `<prefix><f:04><suffix>` names.
- `Frange`, `FrameLoop`: the frame set and the loop shared by the three drivers.
- `WaveShape`, `WaveShapeFloating`, `WaveShapeDisplacement`: the three drivers.
- `WedgeProduct`: `itertools.product`.
- `SwellWedge`: the wedge generator and submitter.
- `Batch`: the trace of actions, the file map and the queue.
- `MayaBatch`: the MEL + shell + submit pattern shared by the two Maya exporters.
- `ExportFrameWetMap`, `ExportDisplacementMesh`, `ExportMultWetMap`,
  `ExportTriObj`, `CleanFrameWetMap`: the remaining scripts.

## Model

| member | source | states |
|---|---|---|
| Frange.Evaluate | gilligan/waveShape.py:35-51 | A frange is accepted iff it has a clause and every clause is well formed. Its frames are exactly the union of the clauses' members. Its end is the largest clause end and bounds every frame. A rejection names an offending clause. |
| Frange.Combine | gilligan/waveShape.py:35-47 | Comma-separated clauses combine by union of members and maximum of ends. |
| Frange.ClauseBounds | gilligan/waveShape.py:36-47 | Every member of `N-M:S` lies at or below the clause end. A range always contains its first frame. |
| Frange.DocumentedExample | gilligan/waveShape.py:36-47 | The documented example `5-26:3,75-100` yields frames 5, 8, …, 26 and 75..100, with end 100. |
| Frange.StridedRange | gilligan/waveShape.py:38-41 | `5-9:2` is frames {5, 7, 9}, ending at 9. |
| Frange.DescendingRejected | gilligan/waveShape.py:36-41 | A range whose first frame exceeds its last is rejected. |
| FrameLoop.GeomFrame | gilligan/waveShape_floating.py:189-193 | The geometry frame is at least both f and simstart, and equals one of them: `max(f, simstart)`. |
| FrameLoop.Selected | gilligan/waveShape.py:264-281 | The selected frames up to n, as a strictly increasing list containing exactly the members of the set in 1..n. |
| FrameLoop.AdvancesEveryFrame | gilligan/waveShape.py:264-266 | A run up to frame n sets the current frame to 1, 2, …, n: each frame exactly once, in increasing order. |
| FrameLoop.MergeStepsAfterFrame | gilligan/waveShape_floating.py:165-187 | After frame n the merged ocean has advanced the time offset plus n timesteps: one per frame, selected or not. |
| FrameLoop.EarlierRunIsPrefix | gilligan/waveShape.py:264-281 | The trace up to an earlier frame is a prefix of the trace up to a later one. |
| FrameLoop.StepsBetweenFrames | gilligan/waveShape.py:264-268 | Between frame f1 and frame f2 the merge advances exactly f2 − f1 timesteps. |
| FrameLoop.GeometryFrames | gilligan/waveShape_floating.py:189-194 | With an ewave, the i-th mesh loaded is that of `max(i + 1, simstart)`, one per frame. Without one, no mesh is loaded. |
| FrameLoop.WritesSelectedFrames | gilligan/waveShape.py:274-281 | Each written component is written exactly for the selected frames up to n, in increasing order. Any other component is never written. |
| FrameLoop.ComponentsAdvanceOncePerFrame | gilligan/waveShape.py:244-272 | Within one frame, each merged wave and the ewave is updated exactly once, and nothing else is. |
| FrameLoop.FrameObserved | gilligan/waveShape.py:264-281 | One frame sets itself once and advances the merge one timestep. It loads the clamped mesh iff there is an ewave. It writes a component iff the frame is selected and the component is an output. |
| FrameLoop.ReplayFrame | gilligan/waveShape_floating.py:182-199 | One loop body takes the protocol monitor from the end of frame f to the end of frame f + 1, one timestep on. The order is set frame, merge, load, set source, ewave update, then writes. |
| FrameLoop.RunFollowsProtocol | gilligan/waveShape_floating.py:165-199 | Every run is accepted by the protocol monitor. The monitor ends at frame n, with the offset plus n timesteps. |
| WaveShape.SimulatesEveryFrameWritesSelected | gilligan/waveShape.py:264-281 | `sim` advances frames 1..end once each, one timestep per frame, loading frame f's own mesh (no clamp). It writes the ewave, swell and small maps exactly for the selected frames, and follows the protocol. |
| WaveShape.EachWaveOncePerFrame | gilligan/waveShape.py:244-254 | Each frame updates swell then small (the merge, in registration order) and then the ewave outside it. |
| WaveShape.GeometryPathsDistinct | gilligan/waveShape.py:205-206 | Distinct frames load distinct mesh files `<ASSPATH>/<ASSNAME>.<f:04>.obj`. |
| WaveShape.OutputPathsDistinct | gilligan/waveShape.py:274-281 | A component's map files `sim/<label>.<f:04>.exr` are distinct for distinct frames. |
| WaveShape.StridedFrangeRun | gilligan/waveShape.py:38-51 | With frange `5-9:2` the simulation marches frames 1..9 and writes the ewave only at 5, 7 and 9. |
| WaveShapeFloating.FloatingRun | gilligan/waveShape_floating.py:165-199 | The floating driver advances frames 1..end once each, and the ocean by the offset plus one timestep per frame. At frame f it loads the mesh of `max(f, simstart)`. It writes only the ewave map, exactly at the selected frames, and follows the protocol. |
| WaveShapeFloating.OffsetBeforeFrames | gilligan/waveShape_floating.py:162-165 | The first event of any run is the merge update by the time offset, and after frame f the merge is `offset + f` timesteps on. |
| WaveShapeFloating.LateStartScenario | gilligan/waveShape_floating.py:189-193 | Frames 1..3 with simstart 2 load the meshes of frames 2, 2, 3. |
| WaveShapeFloating.LateStartScenarioWrites | gilligan/waveShape_floating.py:198-199 | With all of 1..3 selected, the ewave map is written at 1, 2 and 3 even though the first frame's mesh is clamped. |
| WaveShapeFloating.GeometryPathsDistinct | gilligan/waveShape_floating.py:193 | Distinct geometry frames read distinct mesh files `<WATERTHING>.<g:04>.obj`. |
| WaveShapeFloating.OutputPathsDistinct | gilligan/waveShape_floating.py:178-199 | Distinct frames write distinct files `sim/<PRODNAME>_ewave_<basename>.<f:04>.exr`. |
| WaveShapeFloating.ParsePair | gilligan/waveShape_floating.py:82-83 | A pair without a ',' is an `IndexError`; otherwise both results are comma-free, the first without a '[' at either end and the second without a ']' at either end. |
| WaveShapeFloating.ParseFields | gilligan/waveShape_floating.py:82-83 | Any text with a comma, written `x,y` or `x,y,…` with comma-free `x` and `y`, parses to `x` with its '['s stripped and `y` with its ']'s stripped; fields after the second are ignored. |
| WaveShapeFloating.ParsePairRoundTrip | gilligan/waveShape_floating.py:256-259 | Parsing `"[a, b]"` gives back `a` and `" b"` (the space is left for `float` to skip). |
| WaveShapeFloating.Trunc | gilligan/waveShape_floating.py:86-89 | `int()` of a real truncates toward zero. |
| WaveShapeFloating.PatchResolution | gilligan/waveShape_floating.py:84-90 | The longer side (x on a tie) gets 1024. When both sides are non-negative, the other side gets the largest n with `n × long ≤ 1024 × short`, i.e. `trunc(1024 × short / long)`, so a zero side gets 0 cells. It is below 1024 when the sides differ. A zero longer side is a `ZeroDivisionError`. |
| WaveShapeFloating.ScaledShorterSide | gilligan/waveShape_floating.py:86-89 | For a non-negative shorter side and a positive longer one, `int(1024 × short / long)` is the largest cell count whose share of 1024 does not exceed `short / long`, and it is below 1024 when the sides differ. |
| WaveShapeFloating.ResolutionSymmetric | gilligan/waveShape_floating.py:84-89 | Swapping the patch's sides swaps the resolution (and keeps a zero-size failure): the grid does not depend on which axis is which. |
| WaveShapeFloating.SquarePatch | gilligan/waveShape_floating.py:84-86 | A square patch of non-zero size gets 1024 × 1024. |
| WaveShapeFloating.RenderPair | gilligan/waveShape_floating.py:90 | `str([nx, ny])` is bracketed. |
| WaveShapeFloating.RenderedResolutionParses | gilligan/waveShape_floating.py:82-90 | The rendered resolution parses back, through the same pair parser, into the numerals of nx and ny. |
| WaveShapeFloating.Llc | gilligan/waveShape_floating.py:260-263 | The lower-left corner plus half the patch scale is the translate, on each axis. |
| WaveShapeFloating.PatchCentredOnTranslate | gilligan/waveShape_floating.py:260-264 | The patch spanning scale from the corner is centred on the translate. |
| WaveShapeDisplacement.DisplacementRun | gilligan/waveShape_displacement.py:119-125 | Frames 1..end advance once each, one timestep each, and no mesh is loaded. Swell and small maps are written exactly for the selected frames, and no ewave map ever. The run follows the protocol. |
| WaveShapeDisplacement.MergeOnlyPerFrame | gilligan/waveShape_displacement.py:104-122 | Each frame updates swell then small, and nothing else. |
| WaveShapeDisplacement.OutputPathsDistinct | gilligan/waveShape_displacement.py:124-125 | The files `sim/<PRODNAME>_{swell,small}_wave.<f:04>.exr` never collide, across frames or across the two components. |
| WaveShapeDisplacement.ComponentLetter | gilligan/waveShape_displacement.py:124-125 | The swell and small file names differ at one fixed position: the letter after `_s` in the wave name (`w` for swell, `m` for small). |
| WedgeProduct.Extend | gilligan/waveShape_swell_wedge.py:58-64 | One list times a product has |heads| × |tails| rows. |
| WedgeProduct.ExtendAt | gilligan/waveShape_swell_wedge.py:58-64 | Every extended row starts with a head and continues with a tail. |
| WedgeProduct.Product | gilligan/waveShape_swell_wedge.py:58-64 | The product has as many rows as the product of the list lengths. Each row takes its k-th value from the k-th list. |
| WedgeProduct.ExtendIndex | gilligan/waveShape_swell_wedge.py:58-64 | Row `a·|tails| + b` is head a followed by tail b: the last list varies fastest. |
| WedgeProduct.ProductOrder | gilligan/waveShape_swell_wedge.py:58-64 | The product is in lexicographic order: row `a·C + b` is the a-th first value followed by row b of the product of the rest. |
| WedgeProduct.ProductComplete | gilligan/waveShape_swell_wedge.py:58-64 | Every combination taking its k-th value from the k-th list appears in the product. |
| WedgeProduct.ExtendDistinct | gilligan/waveShape_swell_wedge.py:58-64 | Extending distinct tails by distinct heads gives distinct rows. |
| WedgeProduct.ProductDistinct | gilligan/waveShape_swell_wedge.py:58-64 | Lists without repeated values give a product without repeated rows. |
| WedgeProduct.EmptyListNoCombinations | gilligan/waveShape_swell_wedge.py:58-64 | Any empty candidate list yields no records at all. |
| SwellWedge.ShippedTableCount | gilligan/waveShape_swell_wedge.py:19-25 | The shipped table yields 2·1·1·2·2·2·1 = 16 combinations. |
| SwellWedge.Assign | gilligan/waveShape_swell_wedge.py:67-69 | Assigning a tuple to the names defines exactly the old keys and the names. |
| SwellWedge.AssignAt | gilligan/waveShape_swell_wedge.py:67-69 | A name receives the tuple value at its last occurrence, and any other key keeps its old value. |
| SwellWedge.LastWriteDistinct | gilligan/waveShape_swell_wedge.py:67-69 | With distinct names, the k-th name receives the k-th value. |
| SwellWedge.AssignOverwrites | gilligan/waveShape_swell_wedge.py:53-69 | The reused dictionary does not leak values between records: every key is reassigned. |
| SwellWedge.RecordsFresh | gilligan/waveShape_swell_wedge.py:67-77 | The i-th record built in the shared dictionary equals a fresh assignment of the i-th combination. |
| SwellWedge.Generate | gilligan/waveShape_swell_wedge.py:52-79 | One file per combination, in product order. File i is `swell_wedge_parms_<i>.json`, holds the i-th combination's assignment as `swell_waves` and an empty `pm_waves`. |
| SwellWedge.GeneratedRecords | gilligan/waveShape_swell_wedge.py:66-72 | Each file's swell record has exactly the table's parameter names as keys, one value per parameter, taken from that parameter's own candidates. |
| SwellWedge.FileNamesDistinct | gilligan/waveShape_swell_wedge.py:74-77 | Distinct record numbers go to distinct files. |
| SwellWedge.OptionValue | gilligan/waveShape_swell_wedge.py:91-100 | An option has a value iff its flag occurs before the last word. |
| SwellWedge.CommandSplitsBack | gilligan/waveShape_swell_wedge.py:91-100 | For space-free arguments, splitting the command line on spaces gives back its words. |
| SwellWedge.CommandProductName | gilligan/waveShape_swell_wedge.py:93-100 | The command passes `-pn <stem>`. |
| SwellWedge.CommandProductsPath | gilligan/waveShape_swell_wedge.py:95-99 | The command passes `-pp <output dir>`. |
| SwellWedge.CommandFrames | gilligan/waveShape_swell_wedge.py:96-97 | The command passes `-f 1-120`. |
| SwellWedge.CommandParmFile | gilligan/waveShape_swell_wedge.py:97-98 | The command passes `-p <parameter file path>`. |
| SwellWedge.StemOfFileName | gilligan/waveShape_swell_wedge.py:74-86 | The stem of `swell_wedge_parms_<i>.json` is `swell_wedge_parms_<i>`. |
| SwellWedge.ScriptOfRecord | gilligan/waveShape_swell_wedge.py:74-100 | Record i's script is `submit_swell_wedge_parms_<i>.sh` and passes the very path record i was written to. |
| SwellWedge.Submitted | gilligan/waveShape_swell_wedge.py:110-117 | Only paths ending in `.sh` are submitted, at most one per listed file. |
| SwellWedge.SubmittedMembers | gilligan/waveShape_swell_wedge.py:110-117 | A path is submitted iff it is a script and is the join of the root with some listed file. |
| SwellWedge.JoinKeepsScript | gilligan/waveShape_swell_wedge.py:112-114 | Joining a root does not change whether a name ends in `.sh`. |
| SwellWedge.SubmittedCount | gilligan/waveShape_swell_wedge.py:109-117 | The number of queued jobs equals the number of `.sh` files listed. |
| SwellWedge.ScriptCountPermutation | gilligan/waveShape_swell_wedge.py:110-111 | The count does not depend on the walk's listing order. |
| SwellWedge.SubmitsEveryScript | gilligan/waveShape_swell_wedge.py:84-117 | Whatever the listing order and whatever log files sit beside them, every generated script is submitted, and the number of queued jobs is the number of parameter files. |
| SwellWedge.ScriptNamesDistinct | gilligan/waveShape_swell_wedge.py:86 | Distinct parameter files get distinct scripts. |
| Batch.FrameRangeIncreasing | maya/exportFrameWetMap.py:108 | Frames are enumerated in strictly increasing order. |
| Batch.FrameRangeMembers | maya/exportFrameWetMap.py:108 | A frame is enumerated iff it lies in start..end. |
| Batch.SubmitCommandReadsBack | maya/exportFrameWetMap.py:112 | `cqsubmittask <queue> <script>` splits back into the command, the queue and the script. |
| Batch.SubmittedConcat | maya/exportFrameWetMap.py:121-123 | The submissions of consecutive traces concatenate. |
| Batch.SubmitAfterWrites | maya/exportFrameWetMap.py:121-123 | If every submitted script is written by the generation phase, every submission follows that script's write. |
| Batch.Apply | maya/exportFrameWetMap.py:74-80 | After a trace, exactly the old files and the written paths exist. |
| Batch.ApplyAt | maya/exportFrameWetMap.py:74-80 | A written path holds its last write. An unwritten one keeps its content. |
| Batch.ApplyTwice | maya/exportDisplacementMesh.py:106-108 | Replaying a trace of writes leaves the files as one pass does. |
| Batch.ApplyConcat | maya/exportFrameWetMap.py:118-123 | Applying consecutive traces is applying one after the other. |
| Batch.LastWriteWins | maya/exportFrameWetMap.py:74-80 | A write not followed by another write to its path determines that file's content. |
| Batch.WriteEachLeaves | maya/exportFrameWetMap.py:68-82 | With distinct paths, each frame's file ends up holding that frame's text. |
| Batch.SubmitEachSubmits | maya/exportFrameWetMap.py:106-116 | The queue receives exactly one script per frame, in frame order. |
| Batch.WriteEachWrites | maya/exportFrameWetMap.py:68-82 | Writing every frame's file submits nothing, and a path is written exactly when it is some frame's file. |
| Batch.SubmitEachWritesNothing | maya/exportFrameWetMap.py:106-116 | Submitting the frames' scripts writes no file. |
| MayaBatch.NamesDistinct | maya/exportFrameWetMap.py:70-90 | Distinct frames give distinct MEL paths and distinct shell paths. |
| MayaBatch.MelIsNoShell | maya/exportFrameWetMap.py:70-91 | No MEL path is ever a shell path. |
| MayaBatch.GenerateLeaves | maya/exportFrameWetMap.py:68-103 | After generation, frame f's MEL file holds frame f's MEL text, and its shell file runs Maya on frame f's MEL file. |
| MayaBatch.RunLeaves | maya/exportFrameWetMap.py:118-123 | Setup, generation and submission together leave the same scripts: submission writes nothing. |
| MayaBatch.GenerateWritesOnly | maya/exportFrameWetMap.py:68-103 | Generation writes nothing but the MEL and shell files of frames in start..end. |
| MayaBatch.JobsSubmit | maya/exportFrameWetMap.py:106-116 | end − start + 1 jobs, the i-th being frame start + i's shell script. |
| MayaBatch.JobsAfterGenerate | maya/exportFrameWetMap.py:121-123 | Every job's shell script has been written before the job is submitted. |
| MayaBatch.ShellRunsItsFrame | maya/exportFrameWetMap.py:93-97 | The last word of frame f's Maya command is frame f's own MEL path. |
| ExportFrameWetMap.FrameDirsDistinct | maya/exportFrameWetMap.py:47-56 | Distinct frames bake into distinct `products/tmp_<f:04>` folders. |
| ExportFrameWetMap.ExportSubmissions | maya/exportFrameWetMap.py:106-123 | The run submits end − start + 1 jobs in increasing frame order, each its frame's `batchWet2Tex_<prod>.<f:04>.sh`. |
| ExportFrameWetMap.ShippedSubmissions | maya/exportFrameWetMap.py:106-116 | The shipped settings submit 120 jobs. |
| ExportFrameWetMap.ExportSubmitsWrittenScripts | maya/exportFrameWetMap.py:121-123 | Submission happens only after both generators have written every script. |
| ExportFrameWetMap.ExportLeavesScripts | maya/exportFrameWetMap.py:62-97 | Frame f's MEL file selects the object, sets time f and bakes into frame f's tmp folder at the configured resolution. Frame f's shell file runs Maya on that MEL file. |
| ExportFrameWetMap.FrameFolderFirst | maya/exportFrameWetMap.py:50-79 | Each frame's tmp folder is created before the MEL script that bakes into it is written. |
| ExportDisplacementMesh.GenerateTwiceHarmless | maya/exportDisplacementMesh.py:106-108 | Generating the scripts twice leaves exactly the files generating once does. |
| ExportDisplacementMesh.ObjPathsDistinct | maya/exportDisplacementMesh.py:59-60 | Distinct frames bake into distinct `products/<surface>.<f:04>.obj` files. |
| ExportDisplacementMesh.ExportSubmissions | maya/exportDisplacementMesh.py:92-110 | Despite the double generation, the run submits end − start + 1 jobs in frame order, one per frame. |
| ExportDisplacementMesh.ShippedSubmissions | maya/exportDisplacementMesh.py:92-102 | The shipped settings submit 2 jobs. |
| ExportDisplacementMesh.ExportSubmitsWrittenScripts | maya/exportDisplacementMesh.py:106-110 | Every job's shell script exists before the job is submitted. |
| ExportDisplacementMesh.ExportLeavesScripts | maya/exportDisplacementMesh.py:49-83 | Frame f's MEL file selects the surface, sets time f and bakes to frame f's OBJ file. Frame f's shell file runs Maya on that MEL file. |
| ExportMultWetMap.ProdNameOf | nuke/exportMultWetMap.py:15 | The product name is `nukeQueue-` plus the Nuke file's base name up to its first dot. |
| ExportMultWetMap.ShippedProdName | nuke/exportMultWetMap.py:9-15 | The shipped product is `nukeQueue-export_wetmap_float_1`. |
| ExportMultWetMap.CommandReadsBack | nuke/exportMultWetMap.py:39 | Frame f's command splits back into `nuke10 -F <f> -x <NUKEFILE>`, and the number after `-F` reads back as f. |
| ExportMultWetMap.ShellPathsDistinct | nuke/exportMultWetMap.py:34-35 | Distinct frames get distinct shell scripts. |
| ExportMultWetMap.ExportSubmissions | nuke/exportMultWetMap.py:48-65 | The run submits end − start + 1 jobs in frame order, each the shell path the generator wrote for that frame. |
| ExportMultWetMap.ShippedSubmissions | nuke/exportMultWetMap.py:48-58 | The shipped settings submit 120 jobs, the first for frame 1 and the last for frame 120. |
| ExportMultWetMap.ExportSubmitsWrittenScripts | nuke/exportMultWetMap.py:63-65 | Every job's shell script exists before the job is submitted. |
| ExportMultWetMap.ExportLeavesScripts | nuke/exportMultWetMap.py:32-42 | After the run, frame f's shell script renders frame f of the Nuke script. |
| ExportTriObj.GetInputs | maya/exportTriObj.py:9-16 | Input without '_' is an `IndexError`, and every failure is one. Parsing succeeds exactly when there is a '_' and the text between the first and second '_' holds a ':'; so `float_1` and `a_b_1:2` fail. A parsed name has no '_', and parsed start and end have no ':'. |
| ExportTriObj.GetInputsFields | maya/exportTriObj.py:11-14 | Input `<name>_<a>:<b>…` parses to the name, start and end stripped of spaces. Anything after the second '_' or after the second ':' of the range is ignored, so `a_1:2_x` gives `a`, `1`, `2`. |
| ExportTriObj.GetInputsRoundTrip | maya/exportTriObj.py:9-16 | `<name>_<start>:<end>` with plain, trimmed parts parses back into exactly those parts. |
| ExportTriObj.IntOf | maya/exportTriObj.py:30 | The conversion succeeds exactly on non-empty digit strings, giving the number they denote, leading zeros included. Every failure is a `ValueError`. |
| ExportTriObj.IntOfDec | maya/exportTriObj.py:30 | Every frame's numeral converts back to that frame. |
| ExportTriObj.IntOfPad4 | maya/exportTriObj.py:30 | A frame number zero-padded to four digits converts back to that frame. |
| ExportTriObj.Run | maya/exportTriObj.py:9-50 | Input that does not parse does nothing and raises `IndexError`. Parsed input runs without error exactly when both start and end convert; the run then exports those frames and clears. If either conversion fails, the polygons have been triangulated and selected, and the run stops with `ValueError`. |
| ExportTriObj.RunFailureExportsNothing | maya/exportTriObj.py:21-30 | A failed run exports no OBJ. One that fails in `int` leaves exactly the triangulation of every selected polygon, in order, followed by the selection. |
| ExportTriObj.RunRoundTrip | maya/exportTriObj.py:9-50 | Typing `<name>_<start>:<end>` runs the export for that name and frame range, then the clean-up, without error. |
| ExportTriObj.FrameSteps | maya/exportTriObj.py:30-33 | Two steps per time in t..end. |
| ExportTriObj.FrameStepsExports | maya/exportTriObj.py:30-33 | The exports of times t..end are one file per time, in increasing order. |
| ExportTriObj.ExportWritesEachFrame | maya/exportTriObj.py:30-33 | The export writes end − start + 1 OBJ files, the i-th being `<name>_tri.<start+i:04>.obj`. |
| ExportTriObj.TriangulateFirst | maya/exportTriObj.py:21-28 | The first steps triangulate each selected polygon once, in selection order, and no triangulation follows. |
| ExportTriObj.TimeBeforeExport | maya/exportTriObj.py:30-33 | Each time is set immediately before that time's OBJ export. |
| ExportTriObj.ObjPathsDistinct | maya/exportTriObj.py:32 | Distinct times export to distinct files. |
| ExportTriObj.ClearTargets | maya/exportTriObj.py:36-44 | Every exported OBJ matches the chmod pattern `<name>_tri.*.obj` and never the removal pattern `<name>_tri.*.mtl`. |
| CleanFrameWetMap.ImageName | cleanFrameWetMap.py:16 | The image name fails with `IndexError` iff the file name has no '.'. A success has no '.'. |
| CleanFrameWetMap.CopyOf | cleanFrameWetMap.py:15-19 | A subfolder fails with `IndexError` iff it is empty or its first file has no '.'. Otherwise it copies its first file. |
| CleanFrameWetMap.Walk | cleanFrameWetMap.py:10-19 | The walk succeeds iff every subfolder does. It stops at the first failing subfolder with that subfolder's error, keeping the steps already taken, each the step of its own folder. |
| CleanFrameWetMap.Clean | cleanFrameWetMap.py:7-19 | The script succeeds iff every subfolder is non-empty with a dotted first file. It then makes each subfolder's copy in walk order and removes `products/tmp*` last. On failure it raises `IndexError` having made only copies. |
| CleanFrameWetMap.FrameIdOfFrameDir | cleanFrameWetMap.py:15 | The frame id of an export's `tmp_<f:04>` folder is the padded frame number, reading back as f. |
| CleanFrameWetMap.ImageNameOf | cleanFrameWetMap.py:16 | `<image>.<ext>` gives image name `<image>`. |
| CleanFrameWetMap.CopyOfFrame | cleanFrameWetMap.py:15-19 | The copy out of frame f's bake folder reads `<image>.exr` there and writes `products/<image>.<f:04>.exr`. |
| CleanFrameWetMap.TargetsDistinct | cleanFrameWetMap.py:18 | Distinct frames of one image are copied to distinct destinations. |
| CleanFrameWetMap.CleanAfterExport | cleanFrameWetMap.py:7-19 | Run on the bake folders of a wet-map export, the script copies every frame's image to its own frame's name and only then removes the tmp folders, without error. |
| CleanFrameWetMap.CleanSucceeds | cleanFrameWetMap.py:10-19 | When every subfolder yields its copy, the script makes exactly those copies, then the removal. |
| Strings.SplitJoin | maya/exportTriObj.py:11-14 | Splitting a join of separator-free parts gives back the parts. |
| Strings.JoinSplit | maya/exportTriObj.py:11-14 | Joining a split gives back the text. |
| Strings.SplitCount | maya/exportTriObj.py:11-14 | `split` gives one more field than there are separators. |
| Strings.SplitSeveral | maya/exportTriObj.py:12-14 | There is a second field (index 1 does not raise) exactly when the separator occurs. |
| Strings.Strip | maya/exportTriObj.py:11-14 | `strip` removes exactly the leading and trailing run of the given characters. |
| Decimal.Pad4 | maya/exportFrameWetMap.py:70 | `{:04}` is a digit string denoting the frame: exactly four characters below 10000, and above that `str(n)` with no leading zero. |
| Decimal.Pad4Injective | maya/exportFrameWetMap.py:70-90 | Distinct frames have distinct padded numerals. |
| Decimal.Dec | maya/exportFrameWetMap.py:76 | `str(n)` is a digit string without leading zero denoting n. |
| Paths.PathJoin | cleanFrameWetMap.py:7 | `os.path.join` returns an absolute second part unchanged. For a relative second part it is the first part, then a '/' unless the first part is empty or already ends in one, then the second part. |
| Paths.BasenameOfJoin | nuke/exportMultWetMap.py:15 | The last '/'-component of a join with a '/'-free name is that name. |
| Paths.StemOfName | nuke/exportMultWetMap.py:15 | The text before the first '.' of `<name>.<ext>` is `<name>`. |
| Naming.FramedInjective | maya/exportFrameWetMap.py:70-90 | `<prefix><f:04><suffix>` names are distinct for distinct frames. |
| Naming.FramedPathInjective | maya/exportFrameWetMap.py:70-91 | The same holds after joining a folder. |

## Left out

- Floating point: the model's `real`s are exact. IEEE rounding of `1024 * short / long` and of `trans - scale * 0.5` is not modelled, and neither is Python's rendering of floats in `'[{x}, {y}]'`. Parsing the pair stops at the stripped field texts; `float()` itself is not modelled.
- WaveShapeFloating.ParsePair: `float()` on the fields, and its `ValueError`, is not modelled.
- WaveShapeFloating.PatchResolution: for negative patch sides the result is still the source's `int(1024 * short / long)` (truncated toward zero), but nothing about its range is promised. For example, `[3, -1]` gives -341 cells and `[-1, -2]` gives 2048. A patch size is a scale, and the model states properties only for non-negative sides.
- WaveShapeFloating.Llc: the `'[{x}, {y}]'` text of the corner is not modelled, only its value.
- The gilligan solver and scene API (`WaveSurferSim`, `eWaveSim`, `WaveMerge`, `Scene`, `update`, `write_displacement`, the parameter files' `set` calls) is external. It appears only as trace events. A solver's label (`ew.label`) is a parameter.
- The frange parser `gilligan.thurston.frange` and `util.formattedFrame` are not part of this model. The frange is modelled by its documented meaning (as parsed clauses), and `formattedFrame` as `{:04}`. Errors of the text parser cannot be checked against code.
- The render phases that are commented out in the drivers, the logging and the `verbose` flags.
- `simstart` left unset (`None`) in the floating driver is not modelled: `simStart` is a number. With the default `None`, Python 2 compares every frame as greater, so no clamping occurs. That is the model's `simStart = 0`.
- Negative frames: frames are naturals everywhere.
- FrameLoop.Run: each driver sets the frame global `thirsty.F = 1` before it builds the scene (gilligan/waveShape.py:235, gilligan/waveShape_floating.py:146, gilligan/waveShape_displacement.py:95). That assignment is not an event in the trace, so the trace does not show that the floating driver's offset update runs with the frame already at 1. The loop itself sets frame 1 again first, and every later event is unaffected.
- Frange.Evaluate: the frange's `end` is taken to be the largest clause's upper endpoint, even where a stride stops short of it. So `5-27:3` lists frames up to 26 but ends at 27, and the drivers march to frame 27. This is an assumption about `gilligan.thurston.frange`'s `Frange.end`, whose code is not part of this model.
- ExportTriObj.IntOf: accepts only unsigned digit strings; Python's `int` also takes a sign and surrounding whitespace.
- `raw_input`, `sys.argv`, `os.getcwd()` and the timestamp `dates` are parameters. The argparse option parsing of the drivers is not modelled.
- `os.system` commands: in the exporters' traces, `mkdir` and `cqsubmittask` are actions. Only file writes change the modelled file map; `mkdir` and submissions are recorded in the trace and leave it unchanged. The exporters' `chmod -R 770` and `chmod 777` calls (maya/exportFrameWetMap.py, maya/exportDisplacementMesh.py, nuke/exportMultWetMap.py) are not modelled. The `chmod` and `rm` of the OBJ exporter, and the `cp` and `rm -rf` of the clean-up, are steps of their own traces that record only their targets. Permissions are not modelled.
- The product folder created when missing (maya/exportFrameWetMap.py:23-30, maya/exportDisplacementMesh.py:19-28): a walk of `OUTPUTPATH` that only decides whether to `mkdir`. The model starts from the run's parent folder.
- `os.walk` order: the swell-wedge submission is proved for any listing order (as a permutation) of one folder. Nested subfolders of the script folder are not modelled. The clean-up models one level of subfolders under `products`, bottom-up, with each folder's files in listing order.
- CleanFrameWetMap.Clean: a missing `products` folder (where `os.walk` yields nothing) is not modelled.
- SwellWedge.Generate: the generator hard-codes seven `parm_value` positions in its `itertools.product` call. The model takes the product over all rows of the table, which is the same for the shipped seven-row table.
- SwellWedge.ShippedTableCount: the shipped table's `depth` candidate is the integer `10`. Candidates are modelled as `real`, so `10` and `10.0` are not told apart (this affects only the JSON text).
- The `wedge_num` assignment in the generator binds a local and has no effect; it is not modelled. The JSON serialisation is not modelled either: a record is a map.
- Batch.Apply: file permissions and `close` are not modelled; a write replaces the whole file.
- pymel (`pm.ls`, `polyTriangulate`, `select`, `currentTime`, `exportSelected`) is external: its calls are steps in a trace, and the selection is a parameter.
- The `print` output of every script.
