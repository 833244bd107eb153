/** maya/exportDisplacementMesh.py: one MEL script per frame that bakes the
    displaced water surface of that frame to its own OBJ file, one shell
    script per frame running Maya in batch mode on it, and one render-queue
    job per shell script. The script body calls both generators once more
    before the guarded calls, so every script is written twice. */
module ExportDisplacementMesh {
  import opened Strings
  import opened Decimal
  import opened Paths
  import opened Naming
  import opened Batch
  import MayaBatch

  /** The settings at the top of the script. */
  datatype Settings = Settings(mayaFile: string, start: nat, end: nat, surfaceName: string, queue: string)

  const Shipped: Settings := Settings(
    "/DPA/wookie/dpa/projects/eclipse/rnd/test/fx/oceandisplacement/maya/displacement.ma",
    1, 2, "water_surface", "brie")

  /** `<products>/<surface>.<f:04>.obj`: frame f's baked mesh. */
  function ObjPath(s: Settings, parent: string, f: nat): string {
    PathJoin(MayaBatch.OutputDir(parent), Framed(s.surfaceName + ".", f, ".obj"))
  }

  /** Select the surface, go to frame f, bake it to frame f's OBJ file. */
  function MelText(s: Settings, parent: string, f: nat): string {
    "select " + s.surfaceName + ";\n" +
    "currentTime " + Dec(f) + ";\n" +
    "arnoldBakeGeo -f \"" + ObjPath(s, parent, f) + "\";"
  }

  /** `dis2Mesh_<surface>` MEL scripts, `batchDis2Mesh_<surface>` shell scripts. */
  function Job(s: Settings, parent: string): MayaBatch.Job {
    MayaBatch.Job(parent, s.mayaFile, "dis2Mesh_" + s.surfaceName, "batchDis2Mesh_" + s.surfaceName,
      (f: nat) => MelText(s, parent, f), s.queue, s.start, s.end)
  }

  function Frames(s: Settings): seq<nat> {
    FrameRange(s.start, s.end)
  }

  /** The folders made before any script is written. */
  function Setup(parent: string): seq<Action> {
    Mkdirs([parent, MayaBatch.MelDir(parent), MayaBatch.ScriptDir(parent), MayaBatch.OutputDir(parent)])
  }

  /** The whole run: folders, the unguarded generator calls, the guarded
      ones (both return True), then the jobs. */
  function Export(s: Settings, parent: string): seq<Action> {
    Setup(parent) + MayaBatch.Generate(Job(s, parent)) + MayaBatch.Generate(Job(s, parent)) + MayaBatch.Jobs(Job(s, parent))
  }

  /** The same run with the generators called once. */
  function ExportOnce(s: Settings, parent: string): seq<Action> {
    Setup(parent) + MayaBatch.Generate(Job(s, parent)) + MayaBatch.Jobs(Job(s, parent))
  }

  /** Generating twice leaves exactly the files generating once does. */
  lemma GenerateTwiceHarmless(fs: Files, s: Settings, parent: string)
    ensures Apply(fs, Export(s, parent)) == Apply(fs, ExportOnce(s, parent))
  {
    var j := Job(s, parent);
    var a := Setup(parent);
    var g := MayaBatch.Generate(j);
    var q := MayaBatch.Jobs(j);
    ApplyConcat(fs, a + g + g, q);
    ApplyConcat(fs, a + g, g);
    ApplyConcat(fs, a, g);
    ApplyTwice(Apply(fs, a), g);
    ApplyConcat(fs, a + g, q);
  }

  /** Distinct frames never bake into the same OBJ file. */
  lemma ObjPathsDistinct(s: Settings, parent: string, f: nat, g: nat)
    requires ObjPath(s, parent, f) == ObjPath(s, parent, g)
    ensures f == g
  {
    FramedPathInjective(MayaBatch.OutputDir(parent), s.surfaceName + ".", ".obj", f, g);
  }

  /** The queue receives one job per frame from start to end, in increasing
      frame order, each the shell script of its frame: the double generation
      does not double the jobs. */
  lemma ExportSubmissions(s: Settings, parent: string)
    ensures |Submitted(Export(s, parent))| == if s.end < s.start then 0 else s.end - s.start + 1
    ensures forall i :: 0 <= i < |Submitted(Export(s, parent))| ==>
      Submitted(Export(s, parent))[i] == MayaBatch.ShellPath(Job(s, parent), s.start + i)
  {
    var j := Job(s, parent);
    var a := Setup(parent);
    var g := MayaBatch.Generate(j);
    SubmittedNone(a);
    MayaBatch.GenerateSubmitsNothing(j);
    SubmittedConcat(a, g);
    SubmittedConcat(a + g, g);
    SubmittedConcat(a + g + g, MayaBatch.Jobs(j));
    MayaBatch.JobsSubmit(j);
  }

  /** The shipped settings submit 2 jobs. */
  lemma ShippedSubmissions(parent: string)
    ensures |Submitted(Export(Shipped, parent))| == 2
  {
    ExportSubmissions(Shipped, parent);
  }

  /** Every job's shell script exists by the time the job is submitted. */
  lemma ExportSubmitsWrittenScripts(s: Settings, parent: string)
    ensures SubmitsWrittenScripts(Export(s, parent))
  {
    var j := Job(s, parent);
    var pre := Setup(parent) + MayaBatch.Generate(j);
    NoSubmitBeforeJobs(parent, j);
    MayaBatch.JobsAfterGenerate(pre, j);
  }

  lemma NoSubmitBeforeJobs(parent: string, j: MayaBatch.Job)
    ensures forall k :: 0 <= k < |Setup(parent) + MayaBatch.Generate(j)| ==> !(Setup(parent) + MayaBatch.Generate(j))[k].Submit?
  {
    var a: seq<Action> := Setup(parent);
    var g: seq<Action> := MayaBatch.Generate(j);
    MayaBatch.GenerateOnlyWrites(j);
    forall k | 0 <= k < |a + g| ensures !(a + g)[k].Submit? {
      if k < |a| {
        assert (a + g)[k] == a[k];
      } else {
        assert (a + g)[k] == g[k - |a|];
      }
    }
  }

  /** After the run, frame f's MEL script bakes frame f into frame f's OBJ
      file, and frame f's shell script runs Maya on that MEL script. */
  lemma ExportLeavesScripts(fs: Files, s: Settings, parent: string, i: nat)
    requires i < |Frames(s)|
    ensures var out := Apply(fs, Export(s, parent)); var j := Job(s, parent); var f := s.start + i;
      MayaBatch.MelPath(j, f) in out && out[MayaBatch.MelPath(j, f)] == MelText(s, parent, f) &&
      MayaBatch.ShellPath(j, f) in out && out[MayaBatch.ShellPath(j, f)] == ShellScript(MayaBatch.ShellCommand(j, f))
  {
    GenerateTwiceHarmless(fs, s, parent);
    MayaBatch.RunLeaves(fs, Setup(parent), Job(s, parent), i);
  }
}
