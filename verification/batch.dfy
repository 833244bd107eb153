/** What the batch-export scripts do to the outside world, as a trace of
    actions: directories made, files written, and jobs handed to the render
    queue with `cqsubmittask <queue> <script>`. */
module Batch {
  import opened Strings
  import opened Decimal
  import opened Paths
  import opened Naming

  datatype Action =
    | Mkdir(dir: string)
    | Write(path: string, text: string)
    | Submit(queue: string, script: string)

  /** Making each folder in turn. */
  function Mkdirs(dirs: seq<string>): (r: seq<Action>)
    ensures |r| == |dirs|
    ensures forall i :: 0 <= i < |r| ==> r[i] == Mkdir(dirs[i])
  {
    seq(|dirs|, i requires 0 <= i < |dirs| => Mkdir(dirs[i]))
  }

  /** `xrange(start, end + 1)`. */
  function FrameRange(start: nat, end: nat): (r: seq<nat>)
    ensures |r| == if end < start then 0 else end - start + 1
    ensures forall i :: 0 <= i < |r| ==> r[i] == start + i
  {
    seq(if end < start then 0 else end - start + 1, i => start + i)
  }

  /** The frames of a range come in strictly increasing order. */
  lemma FrameRangeIncreasing(start: nat, end: nat, i: nat, j: nat)
    requires i < j < |FrameRange(start, end)|
    ensures FrameRange(start, end)[i] < FrameRange(start, end)[j]
  {
  }

  /** A frame is in the range exactly when it lies between the bounds. */
  lemma FrameRangeMembers(start: nat, end: nat, f: nat)
    ensures f in FrameRange(start, end) <==> start <= f <= end
  {
    var r := FrameRange(start, end);
    if start <= f <= end {
      assert r[f - start] == f;
    }
  }

  /** A shell script: the interpreter line, then the command. */
  function ShellScript(command: string): string {
    "#!/bin/bash\n" + command
  }

  /** `cqsubmittask <queue> <script>`. */
  function SubmitCommand(queue: string, path: string): string {
    "cqsubmittask " + queue + " " + path
  }

  /** The queue command hands the queue exactly the queue name and the script's path. */
  lemma SubmitCommandReadsBack(queue: string, path: string)
    requires ' ' !in queue && ' ' !in path
    ensures Split(SubmitCommand(queue, path), ' ') == ["cqsubmittask", queue, path]
  {
    var w := ["cqsubmittask", queue, path];
    assert ' ' !in "cqsubmittask";
    assert Join(w, ' ') == SubmitCommand(queue, path) by {
      JoinCons("cqsubmittask", w[1..], ' ');
      assert w == ["cqsubmittask"] + w[1..];
      JoinCons(queue, [path], ' ');
      assert w[1..] == [queue] + [path];
    }
    SplitJoin(w, ' ');
  }

  /** The scripts handed to the queue, in order. */
  function Submitted(trace: seq<Action>): (r: seq<string>)
    ensures |r| <= |trace|
    decreases |trace|
  {
    if |trace| == 0 then []
    else (if trace[0].Submit? then [trace[0].script] else []) + Submitted(trace[1..])
  }

  /** A trace without submissions submits nothing, and submissions concatenate. */
  lemma {:induction false} SubmittedConcat(a: seq<Action>, b: seq<Action>)
    ensures Submitted(a + b) == Submitted(a) + Submitted(b)
    decreases |a|
  {
    if |a| == 0 {
      assert a + b == b;
    } else {
      assert (a + b)[0] == a[0];
      assert (a + b)[1..] == a[1..] + b;
      SubmittedConcat(a[1..], b);
    }
  }

  lemma {:induction false} SubmittedNone(t: seq<Action>)
    requires forall i :: 0 <= i < |t| ==> !t[i].Submit?
    ensures Submitted(t) == []
    decreases |t|
  {
    if |t| > 0 {
      SubmittedNone(t[1..]);
    }
  }

  lemma {:induction false} SubmittedAll(t: seq<Action>)
    requires forall i :: 0 <= i < |t| ==> t[i].Submit?
    ensures |Submitted(t)| == |t|
    ensures forall i :: 0 <= i < |t| ==> Submitted(t)[i] == t[i].script
    decreases |t|
  {
    if |t| > 0 {
      SubmittedAll(t[1..]);
      assert Submitted(t) == [t[0].script] + Submitted(t[1..]);
    }
  }

  /** Some action before position `i` wrote `path`. */
  predicate WrittenBefore(trace: seq<Action>, i: nat, path: string)
    requires i <= |trace|
  {
    exists j :: 0 <= j < i && trace[j].Write? && trace[j].path == path
  }

  /** Every script the trace submits was written earlier in the same trace. */
  predicate SubmitsWrittenScripts(trace: seq<Action>) {
    forall i :: 0 <= i < |trace| && trace[i].Submit? ==> WrittenBefore(trace, i, trace[i].script)
  }

  /** Writing first and submitting only what was written never submits a
      script that does not exist yet. */
  lemma SubmitAfterWrites(gen: seq<Action>, subs: seq<Action>)
    requires forall i :: 0 <= i < |gen| ==> !gen[i].Submit?
    requires forall i :: 0 <= i < |subs| && subs[i].Submit? ==> WrittenBefore(gen, |gen|, subs[i].script)
    requires forall i :: 0 <= i < |subs| ==> !subs[i].Write?
    ensures SubmitsWrittenScripts(gen + subs)
  {
    var t := gen + subs;
    forall i | 0 <= i < |t| && t[i].Submit? ensures WrittenBefore(t, i, t[i].script) {
      assert i >= |gen|;
      assert t[i] == subs[i - |gen|];
      var j :| 0 <= j < |gen| && gen[j].Write? && gen[j].path == subs[i - |gen|].script;
      assert t[j] == gen[j];
    }
  }

  // ---------------------------------------------------------------------------
  // The files a trace leaves behind

  type Files = map<string, string>

  /** Some action of the trace writes `path`. */
  predicate Writes(trace: seq<Action>, path: string) {
    exists j :: 0 <= j < |trace| && trace[j].Write? && trace[j].path == path
  }

  /** A trace writes `path` when its first action does or the rest of it does. */
  lemma WritesCons(trace: seq<Action>, path: string)
    requires |trace| >= 1
    ensures Writes(trace, path) <==> (trace[0].Write? && trace[0].path == path) || Writes(trace[1..], path)
  {
    if Writes(trace, path) && !(trace[0].Write? && trace[0].path == path) {
      var j :| 0 <= j < |trace| && trace[j].Write? && trace[j].path == path;
      assert trace[1..][j - 1] == trace[j];
    }
    if Writes(trace[1..], path) {
      var j :| 0 <= j < |trace| - 1 && trace[1..][j].Write? && trace[1..][j].path == path;
      assert trace[j + 1] == trace[1..][j];
    }
  }

  /** The files after the trace: each write replaces the file's contents. */
  function Apply(fs: Files, trace: seq<Action>): (r: Files)
    ensures forall p :: p in r <==> p in fs || Writes(trace, p)
    decreases |trace|
  {
    if |trace| == 0 then fs
    else
      var fs' := if trace[0].Write? then fs[trace[0].path := trace[0].text] else fs;
      var r := Apply(fs', trace[1..]);
      assert forall p :: Writes(trace, p) <==> (trace[0].Write? && trace[0].path == p) || Writes(trace[1..], p) by {
        forall p ensures Writes(trace, p) <==> (trace[0].Write? && trace[0].path == p) || Writes(trace[1..], p) {
          WritesCons(trace, p);
        }
      }
      r
  }

  /** The contents the last write of `path` leaves. */
  function LastText(trace: seq<Action>, path: string): string
    requires Writes(trace, path)
    decreases |trace|
  {
    WritesCons(trace, path);
    if !Writes(trace[1..], path) then trace[0].text
    else LastText(trace[1..], path)
  }

  /** What each file holds after the trace: the last write of it, or what was there. */
  lemma {:induction false} ApplyAt(fs: Files, trace: seq<Action>, p: string)
    ensures Writes(trace, p) ==> Apply(fs, trace)[p] == LastText(trace, p)
    ensures !Writes(trace, p) && p in fs ==> Apply(fs, trace)[p] == fs[p]
    decreases |trace|
  {
    if |trace| > 0 {
      var fs' := if trace[0].Write? then fs[trace[0].path := trace[0].text] else fs;
      ApplyAt(fs', trace[1..], p);
      WritesCons(trace, p);
    }
  }

  /** Running the same writes twice leaves the files as running them once. */
  lemma ApplyTwice(fs: Files, trace: seq<Action>)
    ensures Apply(Apply(fs, trace), trace) == Apply(fs, trace)
  {
    var once := Apply(fs, trace);
    var twice := Apply(once, trace);
    forall p | p in twice ensures p in once && twice[p] == once[p] {
      ApplyAt(fs, trace, p);
      ApplyAt(once, trace, p);
    }
    assert twice.Keys == once.Keys;
  }

  lemma {:induction false} ApplyConcat(fs: Files, a: seq<Action>, b: seq<Action>)
    ensures Apply(fs, a + b) == Apply(Apply(fs, a), b)
    decreases |a|
  {
    if |a| == 0 {
      assert a + b == b;
    } else {
      assert (a + b)[0] == a[0];
      assert (a + b)[1..] == a[1..] + b;
      var fs' := if a[0].Write? then fs[a[0].path := a[0].text] else fs;
      ApplyConcat(fs', a[1..], b);
    }
  }

  /** The last write of a path decides what the file holds. */
  lemma {:induction false} LastWriteWins(trace: seq<Action>, j: nat)
    requires j < |trace| && trace[j].Write?
    requires forall k :: j < k < |trace| && trace[k].Write? ==> trace[k].path != trace[j].path
    ensures Writes(trace, trace[j].path) && LastText(trace, trace[j].path) == trace[j].text
    decreases j
  {
    var p := trace[j].path;
    WritesCons(trace, p);
    if j == 0 {
      assert !Writes(trace[1..], p) by {
        forall k | 0 <= k < |trace| - 1 && trace[1..][k].Write? ensures trace[1..][k].path != p {
          assert trace[1..][k] == trace[k + 1];
        }
      }
    } else {
      assert trace[1..][j - 1] == trace[j];
      LastWriteWins(trace[1..], j - 1);
    }
  }

  // ---------------------------------------------------------------------------
  // Per-frame generation

  /** One file per frame: where it goes and what it says. */
  datatype PerFrame = PerFrame(path: nat -> string, text: nat -> string)

  /** Writing the file of each frame, in frame order. */
  function WriteEach(g: PerFrame, frames: seq<nat>): (r: seq<Action>)
    ensures |r| == |frames|
    ensures forall i :: 0 <= i < |r| ==> r[i] == Write(g.path(frames[i]), g.text(frames[i]))
  {
    seq(|frames|, i requires 0 <= i < |frames| => Write(g.path(frames[i]), g.text(frames[i])))
  }

  /** Submitting the script of each frame, in frame order. */
  function SubmitEach(queue: string, script: nat -> string, frames: seq<nat>): (r: seq<Action>)
    ensures |r| == |frames|
    ensures forall i :: 0 <= i < |r| ==> r[i] == Submit(queue, script(frames[i]))
  {
    seq(|frames|, i requires 0 <= i < |frames| => Submit(queue, script(frames[i])))
  }

  /** No two frames share a file. */
  predicate DistinctPaths(g: PerFrame, frames: seq<nat>) {
    forall i, j :: 0 <= i < j < |frames| ==> g.path(frames[i]) != g.path(frames[j])
  }

  /** After writing every frame's file, each frame's file holds that frame's text. */
  lemma WriteEachLeaves(fs: Files, g: PerFrame, frames: seq<nat>, i: nat)
    requires DistinctPaths(g, frames) && i < |frames|
    ensures g.path(frames[i]) in Apply(fs, WriteEach(g, frames))
    ensures Apply(fs, WriteEach(g, frames))[g.path(frames[i])] == g.text(frames[i])
  {
    var t := WriteEach(g, frames);
    LastWriteWins(t, i);
    ApplyAt(fs, t, g.path(frames[i]));
  }

  /** Writing the frames' files submits nothing and writes exactly the frames' paths. */
  lemma WriteEachWrites(g: PerFrame, frames: seq<nat>, p: string)
    ensures Submitted(WriteEach(g, frames)) == []
    ensures Writes(WriteEach(g, frames), p) <==> exists i :: 0 <= i < |frames| && g.path(frames[i]) == p
  {
    var t := WriteEach(g, frames);
    assert forall k :: 0 <= k < |t| ==> !t[k].Submit?;
    SubmittedNone(t);
    if exists i :: 0 <= i < |frames| && g.path(frames[i]) == p {
      var i :| 0 <= i < |frames| && g.path(frames[i]) == p;
      assert t[i].Write? && t[i].path == p;
    }
  }

  /** A path that is no frame's file is not written. */
  lemma WriteEachAvoids(g: PerFrame, frames: seq<nat>, p: string)
    requires forall i :: 0 <= i < |frames| ==> g.path(frames[i]) != p
    ensures !Writes(WriteEach(g, frames), p)
  {
  }

  /** Submitting writes nothing. */
  lemma SubmitEachWritesNothing(queue: string, script: nat -> string, frames: seq<nat>, p: string)
    ensures !Writes(SubmitEach(queue, script, frames), p)
  {
  }

  /** A file the trace does not write keeps its contents. */
  lemma Untouched(fs: Files, trace: seq<Action>, p: string)
    requires p in fs && !Writes(trace, p)
    ensures p in Apply(fs, trace) && Apply(fs, trace)[p] == fs[p]
  {
    ApplyAt(fs, trace, p);
  }

  /** The queue receives each frame's script once, in frame order. */
  lemma SubmitEachSubmits(queue: string, script: nat -> string, frames: seq<nat>)
    ensures |Submitted(SubmitEach(queue, script, frames))| == |frames|
    ensures forall i :: 0 <= i < |frames| ==> Submitted(SubmitEach(queue, script, frames))[i] == script(frames[i])
  {
    SubmittedAll(SubmitEach(queue, script, frames));
  }
}
