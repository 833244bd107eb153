/** maya/exportFrameWetMap.py: one MEL script per frame that bakes the wet map
    of the selected object into that frame's own `tmp_<frame>` folder, one
    shell script per frame running Maya in batch mode on it, and one
    render-queue job per shell script. */
module ExportFrameWetMap {
  import opened Strings
  import opened Decimal
  import opened Paths
  import opened Naming
  import opened Batch
  import MayaBatch

  /** The settings at the top of the script. */
  datatype Settings = Settings(
    mayaFile: string,
    start: nat,
    end: nat,
    resolution: nat,
    objectName: string,
    prodName: string,
    queue: string)

  const Shipped: Settings := Settings(
    "/DPA/wookie/dpa/projects/eclipse/rnd/test/fx/oceanwetmap/maya/wetmap.ma",
    1, 120, 4096, "float_1", "float_1", "brie")

  function NukeDir(parent: string): string { PathJoin(parent, "nuke") }

  /** `<products>/tmp_<f:04>`: where frame f's wet map is baked. */
  function FrameDir(parent: string, f: nat): string {
    PathJoin(MayaBatch.OutputDir(parent), Framed("tmp_", f, ""))
  }

  /** Select the object, go to frame f, bake into frame f's folder. */
  function MelText(s: Settings, parent: string, f: nat): string {
    "select " + s.objectName + ";\n" +
    "currentTime " + Dec(f) + ";\n" +
    "arnoldRenderToTexture -f \"" + FrameDir(parent, f) + "\" -r " + Dec(s.resolution) +
    " -af \"gaussian\" -afw 2.0 -as 3;"
  }

  /** `wet2Tex_<prod>` MEL scripts, `batchWet2Tex_<prod>` shell scripts. */
  function Job(s: Settings, parent: string): MayaBatch.Job {
    MayaBatch.Job(parent, s.mayaFile, "wet2Tex_" + s.prodName, "batchWet2Tex_" + s.prodName,
      (f: nat) => MelText(s, parent, f), s.queue, s.start, s.end)
  }

  function Frames(s: Settings): seq<nat> {
    FrameRange(s.start, s.end)
  }

  /** The job folders: the run folder, its `mel`, `script`, `nuke` and `products` folders. */
  function JobDirs(parent: string): seq<Action> {
    Mkdirs([parent, MayaBatch.MelDir(parent), MayaBatch.ScriptDir(parent), NukeDir(parent), MayaBatch.OutputDir(parent)])
  }

  /** One `tmp_` folder per frame, in frame order. */
  function FrameDirs(s: Settings, parent: string): (r: seq<Action>)
    ensures |r| == |Frames(s)|
    ensures forall i :: 0 <= i < |r| ==> r[i] == Mkdir(FrameDir(parent, s.start + i))
  {
    seq(|Frames(s)|, i requires 0 <= i < |Frames(s)| => Mkdir(FrameDir(parent, Frames(s)[i])))
  }

  /** The folders made before any script is written. */
  function Setup(s: Settings, parent: string): seq<Action> {
    JobDirs(parent) + FrameDirs(s, parent)
  }

  /** Making folders submits nothing. */
  lemma SetupSubmitsNothing(s: Settings, parent: string)
    ensures Submitted(Setup(s, parent)) == []
  {
    var a := JobDirs(parent);
    var b := FrameDirs(s, parent);
    SubmittedConcat(a, b);
    SubmittedNone(a);
    SubmittedNone(b);
  }

  /** The whole run: folders, MEL scripts, shell scripts, then the jobs. Both
      generators return True, so the submission is always reached. */
  function Export(s: Settings, parent: string): seq<Action> {
    Setup(s, parent) + MayaBatch.Generate(Job(s, parent)) + MayaBatch.Jobs(Job(s, parent))
  }

  /** Distinct frames never bake into the same folder. */
  lemma FrameDirsDistinct(parent: string, f: nat, g: nat)
    requires FrameDir(parent, f) == FrameDir(parent, g)
    ensures f == g
  {
    FramedPathInjective(MayaBatch.OutputDir(parent), "tmp_", "", f, g);
  }

  /** The queue receives one job per frame from start to end, in increasing
      frame order, each the shell script of its frame. */
  lemma ExportSubmissions(s: Settings, parent: string)
    ensures |Submitted(Export(s, parent))| == if s.end < s.start then 0 else s.end - s.start + 1
    ensures forall i :: 0 <= i < |Submitted(Export(s, parent))| ==>
      Submitted(Export(s, parent))[i] == MayaBatch.ShellPath(Job(s, parent), s.start + i)
  {
    var j := Job(s, parent);
    var pre := Setup(s, parent) + MayaBatch.Generate(j);
    SetupSubmitsNothing(s, parent);
    MayaBatch.GenerateSubmitsNothing(j);
    SubmittedConcat(Setup(s, parent), MayaBatch.Generate(j));
    SubmittedConcat(pre, MayaBatch.Jobs(j));
    MayaBatch.JobsSubmit(j);
  }

  /** The shipped settings submit 120 jobs. */
  lemma ShippedSubmissions(parent: string)
    ensures |Submitted(Export(Shipped, parent))| == 120
  {
    ExportSubmissions(Shipped, parent);
  }

  /** Every job's shell script exists by the time the job is submitted. */
  lemma ExportSubmitsWrittenScripts(s: Settings, parent: string)
    ensures SubmitsWrittenScripts(Export(s, parent))
  {
    MayaBatch.JobsAfterGenerate(Setup(s, parent), Job(s, parent));
  }

  /** After the run, frame f's MEL script bakes frame f into frame f's folder,
      and frame f's shell script runs Maya on that MEL script. */
  lemma ExportLeavesScripts(fs: Files, s: Settings, parent: string, i: nat)
    requires i < |Frames(s)|
    ensures var out := Apply(fs, Export(s, parent)); var j := Job(s, parent); var f := s.start + i;
      MayaBatch.MelPath(j, f) in out && out[MayaBatch.MelPath(j, f)] == MelText(s, parent, f) &&
      MayaBatch.ShellPath(j, f) in out && out[MayaBatch.ShellPath(j, f)] == ShellScript(MayaBatch.ShellCommand(j, f))
  {
    MayaBatch.RunLeaves(fs, Setup(s, parent), Job(s, parent), i);
  }

  /** Each frame's folder is made before the MEL script that bakes into it is written. */
  lemma FrameFolderFirst(s: Settings, parent: string, i: nat)
    requires i < |Frames(s)|
    ensures 5 + i < |Setup(s, parent)| + i < |Export(s, parent)|
    ensures Export(s, parent)[5 + i] == Mkdir(FrameDir(parent, s.start + i))
    ensures Export(s, parent)[|Setup(s, parent)| + i] ==
      Write(MayaBatch.MelPath(Job(s, parent), s.start + i), MelText(s, parent, s.start + i))
  {
    var j := Job(s, parent);
    var a := Setup(s, parent);
    var rest := MayaBatch.Generate(j) + MayaBatch.Jobs(j);
    ExportParts(s, parent);
    SetupAt(s, parent, i);
    MayaBatch.MelAt(j, i);
    MayaBatch.IndexConcat(a, rest, 5 + i, |a| + i);
  }

  lemma ExportParts(s: Settings, parent: string)
    ensures var j := Job(s, parent);
      Export(s, parent) == Setup(s, parent) + (MayaBatch.Generate(j) + MayaBatch.Jobs(j)) &&
      (MayaBatch.Generate(j) + MayaBatch.Jobs(j))[..|Frames(s)|] == WriteEach(MayaBatch.Mel(j), Frames(s))
  {
  }

  lemma SetupAt(s: Settings, parent: string, i: nat)
    requires i < |Frames(s)|
    ensures |Setup(s, parent)| == 5 + |Frames(s)|
    ensures Setup(s, parent)[5 + i] == Mkdir(FrameDir(parent, s.start + i))
  {
    var a := JobDirs(parent);
    var b := FrameDirs(s, parent);
    assert |a| == 5;
    assert (a + b)[5 + i] == b[i];
  }
}
