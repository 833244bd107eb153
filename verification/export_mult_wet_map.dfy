/** nuke/exportMultWetMap.py: one shell script per frame rendering that frame
    of a Nuke script with `nuke10 -F <frame> -x <script>`, and one render-queue
    job per shell script, all named after the Nuke script. */
module ExportMultWetMap {
  import opened Strings
  import opened Decimal
  import opened Paths
  import opened Naming
  import opened Batch

  /** The settings at the top of the script. */
  datatype Settings = Settings(nukeFile: string, outputPath: string, start: nat, end: nat, queue: string)

  const NukeDir: string := "/DPA/ewok/dpa/projects/eclipse/rnd/prods/wetMap/float_1/"
  const NukeName: string := "export_wetmap_float_1"

  const Shipped: Settings := Settings(
    NukeDir + (NukeName + "." + "nk"),
    "/DPA/ewok/dpa/projects/eclipse/rnd/prods/wetMap/float_1",
    1, 120, "cheezwhiz")

  /** `'nukeQueue-' + NUKEFILE.split('/')[-1].split('.')[0]`. */
  function ProdName(nukeFile: string): string {
    "nukeQueue-" + Stem(Basename(nukeFile))
  }

  /** The product is named after the Nuke script's file name up to its first dot. */
  lemma ProdNameOf(dir: string, name: string, ext: string)
    requires '/' !in name && '/' !in ext && '.' !in name
    ensures ProdName(PathJoin(dir, name + "." + ext)) == "nukeQueue-" + name
  {
    assert '/' !in name + "." + ext;
    BasenameOfJoin(dir, name + "." + ext);
    StemOfName(name, ext);
  }

  /** The shipped script's product is `nukeQueue-export_wetmap_float_1`. */
  lemma ShippedProdName()
    ensures ProdName(Shipped.nukeFile) == "nukeQueue-" + NukeName
  {
    var b := NukeName + "." + "nk";
    assert b[0] == 'e';
    assert EndsWith(NukeDir, "/") by {
      assert NukeDir[|NukeDir| - 1] == '/';
    }
    assert PathJoin(NukeDir, b) == Shipped.nukeFile;
    assert '/' !in NukeName && '.' !in NukeName && '/' !in "nk";
    ProdNameOf(NukeDir, NukeName, "nk");
  }

  /** `<OUTPUTPATH>/<prod>-<date>`: the run's script folder. */
  function ScriptDir(s: Settings, dates: string): string {
    PathJoin(s.outputPath, ProdName(s.nukeFile) + "-" + dates)
  }

  /** `<script folder>/<prod>.<f:04>.sh`, computed the same way for writing and submitting. */
  function ShellPath(s: Settings, dates: string, f: nat): string {
    PathJoin(ScriptDir(s, dates), Framed(ProdName(s.nukeFile) + ".", f, ".sh"))
  }

  /** The words of `nuke10 -F <f> -x <NUKEFILE>`. */
  function NukeWords(s: Settings, f: nat): seq<string> {
    ["nuke10", "-F", Dec(f), "-x", s.nukeFile]
  }

  /** `nuke10 -F <f> -x <NUKEFILE>`: render frame f of the Nuke script. */
  function NukeCommand(s: Settings, f: nat): string {
    Join(NukeWords(s, f), ' ')
  }

  function Shell(s: Settings, dates: string): PerFrame {
    PerFrame((f: nat) => ShellPath(s, dates, f), (f: nat) => ShellScript(NukeCommand(s, f)))
  }

  function Frames(s: Settings): seq<nat> {
    FrameRange(s.start, s.end)
  }

  /** The whole run: the folder, the shell scripts, then (the generator
      returns True) the jobs. */
  function Export(s: Settings, dates: string): seq<Action> {
    [Mkdir(ScriptDir(s, dates))] +
    WriteEach(Shell(s, dates), Frames(s)) +
    SubmitEach(s.queue, Shell(s, dates).path, Frames(s))
  }

  /** Split on spaces, frame f's command gives back its words, and the
      number after `-F` reads back as frame f. */
  lemma CommandReadsBack(s: Settings, f: nat)
    requires ' ' !in s.nukeFile
    ensures Split(NukeCommand(s, f), ' ') == NukeWords(s, f)
    ensures ValueOf(Split(NukeCommand(s, f), ' ')[2]) == f
  {
    var w := NukeWords(s, f);
    var d := Dec(f);
    assert ' ' !in d by {
      assert forall k :: 0 <= k < |d| ==> IsDigit(d[k]);
    }
    assert ' ' !in "nuke10" && ' ' !in "-F" && ' ' !in "-x";
    forall i | 0 <= i < |w| ensures ' ' !in w[i] {
    }
    SplitJoin(w, ' ');
  }

  /** Distinct frames never share a shell script. */
  lemma ShellPathsDistinct(s: Settings, dates: string, f: nat, g: nat)
    requires ShellPath(s, dates, f) == ShellPath(s, dates, g)
    ensures f == g
  {
    FramedPathInjective(ScriptDir(s, dates), ProdName(s.nukeFile) + ".", ".sh", f, g);
  }

  lemma ShellAt(s: Settings, dates: string, i: nat)
    requires i < |Frames(s)|
    ensures Shell(s, dates).path(Frames(s)[i]) == ShellPath(s, dates, s.start + i)
    ensures Shell(s, dates).text(Frames(s)[i]) == ShellScript(NukeCommand(s, s.start + i))
  {
  }

  /** The queue receives one job per frame from start to end, in increasing
      frame order, each the shell script of its frame. */
  lemma ExportSubmissions(s: Settings, dates: string)
    ensures |Submitted(Export(s, dates))| == if s.end < s.start then 0 else s.end - s.start + 1
    ensures forall i :: 0 <= i < |Submitted(Export(s, dates))| ==>
      Submitted(Export(s, dates))[i] == ShellPath(s, dates, s.start + i)
  {
    var pre := [Mkdir(ScriptDir(s, dates))] + WriteEach(Shell(s, dates), Frames(s));
    var q := SubmitEach(s.queue, Shell(s, dates).path, Frames(s));
    assert forall k :: 0 <= k < |pre| ==> !pre[k].Submit?;
    SubmittedNone(pre);
    SubmittedConcat(pre, q);
    SubmitEachSubmits(s.queue, Shell(s, dates).path, Frames(s));
    var r := Submitted(Export(s, dates));
    forall i | 0 <= i < |r| ensures r[i] == ShellPath(s, dates, s.start + i) {
      ShellAt(s, dates, i);
    }
  }

  /** The shipped settings submit 120 jobs, the first rendering frame 1 and
      the last frame 120. */
  lemma ShippedSubmissions(dates: string)
    ensures |Submitted(Export(Shipped, dates))| == 120
    ensures Submitted(Export(Shipped, dates))[0] == ShellPath(Shipped, dates, 1)
    ensures Submitted(Export(Shipped, dates))[119] == ShellPath(Shipped, dates, 120)
  {
    ExportSubmissions(Shipped, dates);
  }

  /** Every job's shell script exists by the time the job is submitted. */
  lemma ExportSubmitsWrittenScripts(s: Settings, dates: string)
    ensures SubmitsWrittenScripts(Export(s, dates))
  {
    var h := WriteEach(Shell(s, dates), Frames(s));
    var gen := [Mkdir(ScriptDir(s, dates))] + h;
    var q := SubmitEach(s.queue, Shell(s, dates).path, Frames(s));
    forall i | 0 <= i < |q| && q[i].Submit? ensures WrittenBefore(gen, |gen|, q[i].script) {
      assert gen[1 + i] == h[i];
    }
    SubmitAfterWrites(gen, q);
  }

  lemma ShellsDistinct(s: Settings, dates: string)
    ensures DistinctPaths(Shell(s, dates), Frames(s))
  {
    forall x, y | 0 <= x < y < |Frames(s)| ensures ShellPath(s, dates, Frames(s)[x]) != ShellPath(s, dates, Frames(s)[y]) {
      if ShellPath(s, dates, Frames(s)[x]) == ShellPath(s, dates, Frames(s)[y]) {
        ShellPathsDistinct(s, dates, Frames(s)[x], Frames(s)[y]);
      }
    }
  }

  /** After the run, frame f's shell script renders frame f. */
  lemma ExportLeavesScripts(fs: Files, s: Settings, dates: string, i: nat)
    requires i < |Frames(s)|
    ensures var out := Apply(fs, Export(s, dates)); var f := s.start + i;
      ShellPath(s, dates, f) in out && out[ShellPath(s, dates, f)] == ShellScript(NukeCommand(s, f))
  {
    var f := s.start + i;
    var a := [Mkdir(ScriptDir(s, dates))];
    var h := WriteEach(Shell(s, dates), Frames(s));
    var q := SubmitEach(s.queue, Shell(s, dates).path, Frames(s));
    ApplyConcat(fs, a + h, q);
    ApplyConcat(fs, a, h);
    ShellsDistinct(s, dates);
    ShellAt(s, dates, i);
    WriteEachLeaves(Apply(fs, a), Shell(s, dates), Frames(s), i);
    SubmitEachWritesNothing(s.queue, Shell(s, dates).path, Frames(s), ShellPath(s, dates, f));
    Untouched(Apply(Apply(fs, a), h), q, ShellPath(s, dates, f));
  }
}
