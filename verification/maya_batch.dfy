/** What the two Maya batch exports share: under a timestamped run folder, a
    `mel` folder with one MEL script per frame, a `script` folder with one
    shell script per frame running `maya2016 -batch` on that frame's MEL
    script, and one render-queue job per shell script. */
module MayaBatch {
  import opened Strings
  import opened Decimal
  import opened Paths
  import opened Naming
  import opened Batch

  /** One export: the run folder, the scene, the MEL and shell name stems,
      what frame f's MEL script says, the queue and the frames. */
  datatype Job = Job(
    parent: string,
    mayaFile: string,
    melName: string,
    shellName: string,
    melText: nat -> string,
    queue: string,
    start: nat,
    end: nat)

  function Frames(j: Job): seq<nat> {
    FrameRange(j.start, j.end)
  }

  function MelDir(parent: string): string { PathJoin(parent, "mel") }
  function ScriptDir(parent: string): string { PathJoin(parent, "script") }
  function OutputDir(parent: string): string { PathJoin(parent, "products") }

  /** `<mel>/<melName>.<f:04>.mel`. */
  function MelPath(j: Job, f: nat): string {
    PathJoin(MelDir(j.parent), Framed(j.melName + ".", f, ".mel"))
  }

  /** `<script>/<shellName>.<f:04>.sh`. */
  function ShellPath(j: Job, f: nat): string {
    PathJoin(ScriptDir(j.parent), Framed(j.shellName + ".", f, ".sh"))
  }

  /** `maya2016 -batch -file <scene> -script`: the same for every frame. */
  function MayaCommand(j: Job): string {
    "maya2016 -batch -file " + j.mayaFile + " -script"
  }

  /** `maya2016 -batch -file <scene> -script <frame f's MEL>`. */
  function ShellCommand(j: Job, f: nat): string {
    MayaCommand(j) + " " + MelPath(j, f)
  }

  function Mel(j: Job): PerFrame {
    PerFrame((f: nat) => MelPath(j, f), j.melText)
  }

  function Shell(j: Job): PerFrame {
    PerFrame((f: nat) => ShellPath(j, f), (f: nat) => ShellScript(ShellCommand(j, f)))
  }

  /** `create_mel()` then `create_shell()`. */
  function Generate(j: Job): seq<Action> {
    WriteEach(Mel(j), Frames(j)) + WriteEach(Shell(j), Frames(j))
  }

  /** `submit_task()`. */
  function Jobs(j: Job): seq<Action> {
    SubmitEach(j.queue, Shell(j).path, Frames(j))
  }

  lemma MelAt(j: Job, i: nat)
    requires i < |Frames(j)|
    ensures Mel(j).path(Frames(j)[i]) == MelPath(j, j.start + i)
    ensures Mel(j).text(Frames(j)[i]) == j.melText(j.start + i)
    ensures WriteEach(Mel(j), Frames(j))[i] == Write(MelPath(j, j.start + i), j.melText(j.start + i))
  {
  }

  lemma ShellAt(j: Job, i: nat)
    requires i < |Frames(j)|
    ensures Shell(j).path(Frames(j)[i]) == ShellPath(j, j.start + i)
    ensures WriteEach(Shell(j), Frames(j))[i] == Write(ShellPath(j, j.start + i), ShellScript(ShellCommand(j, j.start + i)))
  {
  }

  /** Distinct frames never share a MEL script or a shell script. */
  lemma NamesDistinct(j: Job, f: nat, g: nat)
    ensures MelPath(j, f) == MelPath(j, g) ==> f == g
    ensures ShellPath(j, f) == ShellPath(j, g) ==> f == g
  {
    if MelPath(j, f) == MelPath(j, g) {
      FramedPathInjective(MelDir(j.parent), j.melName + ".", ".mel", f, g);
    }
    if ShellPath(j, f) == ShellPath(j, g) {
      FramedPathInjective(ScriptDir(j.parent), j.shellName + ".", ".sh", f, g);
    }
  }

  /** A MEL script is never a shell script: one ends in `l`, the other in `h`. */
  lemma MelIsNoShell(j: Job, f: nat, g: nat)
    ensures MelPath(j, f) != ShellPath(j, g)
  {
    FramedPathLastChar(MelDir(j.parent), j.melName + ".", f, ".mel");
    FramedPathLastChar(ScriptDir(j.parent), j.shellName + ".", g, ".sh");
  }

  lemma PathsDistinct(j: Job)
    ensures DistinctPaths(Mel(j), Frames(j)) && DistinctPaths(Shell(j), Frames(j))
  {
    var fr := Frames(j);
    forall a, b | 0 <= a < b < |fr| ensures MelPath(j, fr[a]) != MelPath(j, fr[b]) && ShellPath(j, fr[a]) != ShellPath(j, fr[b]) {
      NamesDistinct(j, fr[a], fr[b]);
    }
  }

  /** After the generators, each frame's MEL and shell scripts hold that frame's text. */
  lemma GenerateLeaves(fs: Files, j: Job, i: nat)
    requires i < |Frames(j)|
    ensures var out := Apply(fs, Generate(j)); var f := j.start + i;
      MelPath(j, f) in out && out[MelPath(j, f)] == j.melText(f) &&
      ShellPath(j, f) in out && out[ShellPath(j, f)] == ShellScript(ShellCommand(j, f))
  {
    var f := j.start + i;
    var m := WriteEach(Mel(j), Frames(j));
    var h := WriteEach(Shell(j), Frames(j));
    ApplyConcat(fs, m, h);
    PathsDistinct(j);
    MelAt(j, i);
    ShellAt(j, i);
    WriteEachLeaves(fs, Mel(j), Frames(j), i);
    var fm := Apply(fs, m);
    forall k | 0 <= k < |Frames(j)| ensures ShellPath(j, Frames(j)[k]) != MelPath(j, f) {
      MelIsNoShell(j, f, Frames(j)[k]);
    }
    WriteEachAvoids(Shell(j), Frames(j), MelPath(j, f));
    Untouched(fm, h, MelPath(j, f));
    WriteEachLeaves(fm, Shell(j), Frames(j), i);
  }

  /** Whatever ran before, after generating and submitting each frame's MEL
      and shell scripts hold that frame's text. */
  lemma RunLeaves(fs: Files, pre: seq<Action>, j: Job, i: nat)
    requires i < |Frames(j)|
    ensures var out := Apply(fs, pre + Generate(j) + Jobs(j)); var f := j.start + i;
      MelPath(j, f) in out && out[MelPath(j, f)] == j.melText(f) &&
      ShellPath(j, f) in out && out[ShellPath(j, f)] == ShellScript(ShellCommand(j, f))
  {
    var f := j.start + i;
    ApplyConcat(fs, pre + Generate(j), Jobs(j));
    ApplyConcat(fs, pre, Generate(j));
    var fg := Apply(Apply(fs, pre), Generate(j));
    GenerateLeaves(Apply(fs, pre), j, i);
    SubmitEachWritesNothing(j.queue, Shell(j).path, Frames(j), MelPath(j, f));
    SubmitEachWritesNothing(j.queue, Shell(j).path, Frames(j), ShellPath(j, f));
    Untouched(fg, Jobs(j), MelPath(j, f));
    Untouched(fg, Jobs(j), ShellPath(j, f));
  }

  /** The generators write only MEL and shell scripts of the job's frames. */
  lemma GenerateWritesOnly(j: Job, p: string)
    requires Writes(Generate(j), p)
    ensures exists f :: j.start <= f <= j.end && (p == MelPath(j, f) || p == ShellPath(j, f))
  {
    var t := Generate(j);
    var m := WriteEach(Mel(j), Frames(j));
    var h := WriteEach(Shell(j), Frames(j));
    var k :| 0 <= k < |t| && t[k].Write? && t[k].path == p;
    if k < |m| {
      IndexConcat(m, h, k, |m|);
      MelAt(j, k);
      FrameRangeMembers(j.start, j.end, j.start + k);
    } else {
      IndexConcat(m, h, 0, k);
      ShellAt(j, k - |m|);
      FrameRangeMembers(j.start, j.end, j.start + (k - |m|));
    }
  }

  /** The queue receives one job per frame from start to end, in increasing
      frame order, each the shell script of its frame. */
  lemma JobsSubmit(j: Job)
    ensures |Submitted(Jobs(j))| == if j.end < j.start then 0 else j.end - j.start + 1
    ensures forall i :: 0 <= i < |Submitted(Jobs(j))| ==> Submitted(Jobs(j))[i] == ShellPath(j, j.start + i)
  {
    SubmitEachSubmits(j.queue, Shell(j).path, Frames(j));
    var r := Submitted(Jobs(j));
    forall i | 0 <= i < |r| ensures r[i] == ShellPath(j, j.start + i) {
      ShellAt(j, i);
    }
  }

  /** Generating the scripts submits nothing. */
  lemma GenerateSubmitsNothing(j: Job)
    ensures Submitted(Generate(j)) == []
  {
    var m := WriteEach(Mel(j), Frames(j));
    var h := WriteEach(Shell(j), Frames(j));
    SubmittedConcat(m, h);
    SubmittedNone(m);
    SubmittedNone(h);
  }

  /** The generators only write files. */
  lemma GenerateOnlyWrites(j: Job)
    ensures forall k :: 0 <= k < |Generate(j)| ==> Generate(j)[k].Write?
  {
    var m: seq<Action> := WriteEach(Mel(j), Frames(j));
    var h: seq<Action> := WriteEach(Shell(j), Frames(j));
    forall k | 0 <= k < |m + h| ensures (m + h)[k].Write? {
      if k < |m| {
        assert (m + h)[k] == m[k];
      } else {
        assert (m + h)[k] == h[k - |m|];
      }
    }
  }

  /** Every job's shell script was written before, by any run that generates first. */
  lemma JobsAfterGenerate(pre: seq<Action>, j: Job)
    requires forall k :: 0 <= k < |pre| ==> !pre[k].Submit?
    ensures SubmitsWrittenScripts(pre + Generate(j) + Jobs(j))
  {
    var gen := pre + Generate(j);
    var q := Jobs(j);
    var off := |pre| + |Frames(j)|;
    forall i | 0 <= i < |q| && q[i].Submit? ensures WrittenBefore(gen, |gen|, q[i].script) {
      ShellAt(j, i);
      assert gen[off + i] == WriteEach(Shell(j), Frames(j))[i];
    }
    SubmitAfterWrites(gen, q);
  }

  /** Split on spaces, the shell command's last word is the MEL script of the
      same frame, so by `NamesDistinct` the job for frame f runs frame f's MEL. */
  lemma ShellRunsItsFrame(j: Job, f: nat)
    requires ' ' !in j.parent && ' ' !in j.melName
    ensures Last(Split(ShellCommand(j, f), ' ')) == MelPath(j, f)
  {
    var m := MelPath(j, f);
    MelPathLacksSpace(j, f);
    assert ShellCommand(j, f) == MayaCommand(j) + [' '] + m;
    SplitAppend(MayaCommand(j), ' ', m);
    SplitNoSeparator(m, ' ');
  }

  lemma MelPathLacksSpace(j: Job, f: nat)
    requires ' ' !in j.parent && ' ' !in j.melName
    ensures ' ' !in MelPath(j, f)
  {
    assert ' ' !in j.melName + ".";
    FramedLacks(j.melName + ".", f, ".mel", ' ');
    JoinLacks(j.parent, "mel", ' ');
    JoinLacks(MelDir(j.parent), Framed(j.melName + ".", f, ".mel"), ' ');
  }

  lemma IndexConcat(a: seq<Action>, b: seq<Action>, x: nat, y: nat)
    requires x < |a| <= y < |a| + |b|
    ensures (a + b)[x] == a[x] && (a + b)[y] == b[y - |a|]
  {
  }
}
