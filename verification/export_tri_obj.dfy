/** maya/exportTriObj.py: read `<name>_<start>:<end>` from the user,
    triangulate every selected polygon, export the selection once per frame
    to `<name>_tri.<f:04>.obj`, then make the OBJ files writable and remove
    the `.mtl` files Maya writes next to them. */
module ExportTriObj {
  import opened Wrappers
  import opened Strings
  import opened Decimal
  import opened Paths
  import opened Naming

  const ObjDir: string := "/DPA/wookie/dpa/projects/eclipse/rnd/prods/waterThing"

  /** The three texts `get_inputs` returns. */
  datatype Inputs = Inputs(name: string, start: string, end: string)

  /** `get_inputs`: the name is the text before the first '_', the frame
      range the text between the first and second '_', and start and end
      the texts before and between the first and second ':' of the range;
      each but the range is stripped of spaces. A missing '_' or ':' is an
      `IndexError`. */
  function GetInputs(inputs: string): (r: Result<Inputs, PyError>)
    ensures '_' !in inputs ==> r == Failure(IndexError)
    ensures r.Success? <==> |Split(inputs, '_')| >= 2 && ':' in Split(inputs, '_')[1]
    ensures r.Failure? ==> r.error == IndexError
    ensures r.Success? ==> '_' !in r.value.name && ':' !in r.value.start && ':' !in r.value.end
  {
    var fields := Split(inputs, '_');
    SplitSeveral(inputs, '_');
    if |fields| < 2 then Failure(IndexError)
    else
      var range := Split(fields[1], ':');
      SplitSeveral(fields[1], ':');
      if |range| < 2 then Failure(IndexError)
      else
        StripExcludes(fields[0], {' '}, '_');
        StripExcludes(range[0], {' '}, ':');
        StripExcludes(range[1], {' '}, ':');
        Success(Inputs(Strip(fields[0], {' '}), Strip(range[0], {' '}), Strip(range[1], {' '})))
  }

  /** No space at either end. */
  predicate Trimmed(s: string) {
    s == [] || (s[0] != ' ' && s[|s| - 1] != ' ')
  }

  /** What the prompt asks for reads back as the name, start and end typed. */
  lemma GetInputsRoundTrip(name: string, a: string, b: string)
    requires '_' !in name && Trimmed(name)
    requires '_' !in a && ':' !in a && Trimmed(a)
    requires '_' !in b && ':' !in b && Trimmed(b)
    ensures GetInputs(name + "_" + a + ":" + b) == Success(Inputs(name, a, b))
  {
    TrimmedStrip(name);
    TrimmedStrip(a);
    TrimmedStrip(b);
    var range := a + ":" + b;
    var input := name + "_" + a + ":" + b;
    RangeFields(a, b);
    InputFields(name, a, b);
    GetInputsOf(input, name, range, a, b);
  }

  lemma TrimmedStrip(s: string)
    requires Trimmed(s)
    ensures Strip(s, {' '}) == s
  {
    StripClean(s, {' '});
  }

  lemma GetInputsOf(input: string, name: string, range: string, a: string, b: string)
    requires Split(input, '_') == [name, range] && Split(range, ':') == [a, b]
    ensures GetInputs(input) == Success(Inputs(Strip(name, {' '}), Strip(a, {' '}), Strip(b, {' '})))
  {
  }

  /** Whatever follows the second '_' or the second ':' is ignored: input
      `<name>_<a>:<b>...` parses to the stripped name, start and end. */
  lemma GetInputsFields(name: string, a: string, b: string, rest1: string, rest2: string)
    requires '_' !in name && '_' !in a + ":" + b + rest2
    requires rest1 == [] || rest1[0] == '_'
    requires ':' !in a && ':' !in b
    requires rest2 == [] || rest2[0] == ':'
    ensures GetInputs(name + "_" + (a + ":" + b + rest2) + rest1) ==
      Success(Inputs(Strip(name, {' '}), Strip(a, {' '}), Strip(b, {' '})))
  {
    var range := a + ":" + b + rest2;
    assert name + "_" + range + rest1 == name + ['_'] + range + rest1;
    assert a + ":" + b + rest2 == a + [':'] + b + rest2;
    SplitFirstTwo(name, '_', range, rest1);
    SplitFirstTwo(a, ':', b, rest2);
  }

  lemma InputFields(name: string, a: string, b: string)
    requires '_' !in name && '_' !in a + ":" + b
    ensures Split(name + "_" + a + ":" + b, '_') == [name, a + ":" + b]
  {
    assert name + "_" + a + ":" + b == name + ['_'] + (a + ":" + b);
    SplitTwo(name, '_', a + ":" + b);
  }

  lemma RangeFields(a: string, b: string)
    requires '_' !in a && ':' !in a && '_' !in b && ':' !in b
    ensures Split(a + ":" + b, ':') == [a, b] && '_' !in a + ":" + b
  {
    assert a + ":" + b == a + [':'] + b;
    SplitTwo(a, ':', b);
  }

  /** `int(s)` for the unsigned decimal texts the prompt asks for; anything
      else is a `ValueError`. */
  function IntOf(s: string): (r: Result<nat, PyError>)
    ensures r.Success? <==> s != [] && AllDigits(s)
    ensures r.Failure? ==> r.error == ValueError
    ensures r.Success? ==> AllDigits(s) && ValueOf(s) == r.value
  {
    if s != [] && AllDigits(s) then Success(ValueOf(s)) else Failure(ValueError)
  }

  /** Every frame number as `str()` writes it reads back as that frame. */
  lemma IntOfDec(n: nat)
    ensures IntOf(Dec(n)) == Success(n)
  {
  }

  /** A zero-padded frame number, as the exporters write it, converts back to that frame. */
  lemma IntOfPad4(n: nat)
    ensures IntOf(Pad4(n)) == Success(n)
  {
  }

  /** What the script asks Maya to do. */
  datatype Step =
    | Triangulate(poly: string)
    | Select(polys: seq<string>)
    | SetTime(t: nat)
    | ExportObj(path: string)
    | Chmod(pattern: Glob)
    | Remove(pattern: Glob)

  /** A shell pattern `<dir>/<before>*<after>`; the `*` never spans a '/'. */
  datatype Glob = Glob(dir: string, before: string, after: string)

  ghost predicate Matches(g: Glob, path: string) {
    exists m :: '/' !in m && path == PathJoin(g.dir, g.before + m + g.after)
  }

  /** `<OBJPATH>/<name>_tri.<t:04>.obj`. */
  function ObjPath(name: string, t: nat): string {
    PathJoin(ObjDir, Framed(name + "_tri.", t, ".obj"))
  }

  /** Triangulate each selected polygon, then select them all. */
  function Prepare(selection: seq<string>): seq<Step> {
    seq(|selection|, i requires 0 <= i < |selection| => Triangulate(selection[i])) + [Select(selection)]
  }

  /** For each time from t to end: go to that time, export the selection to
      that time's file. */
  function FrameSteps(objs: nat -> string, t: nat, end: nat): (r: seq<Step>)
    ensures |r| == if end < t then 0 else 2 * (end - t + 1)
    decreases end + 1 - t
  {
    if end < t then [] else [SetTime(t), ExportObj(objs(t))] + FrameSteps(objs, t + 1, end)
  }

  function Objs(name: string): nat -> string {
    (t: nat) => ObjPath(name, t)
  }

  lemma ObjsAt(name: string, t: nat)
    ensures Objs(name)(t) == ObjPath(name, t)
  {
  }

  /** `clear`: make the OBJ files writable, remove the MTL files. */
  function Clear(name: string): seq<Step> {
    [Chmod(Glob(ObjDir, name + "_tri.", ".obj")), Remove(Glob(ObjDir, name + "_tri.", ".mtl"))]
  }

  function Export(selection: seq<string>, name: string, start: nat, end: nat): seq<Step> {
    Prepare(selection) + FrameSteps(Objs(name), start, end)
  }

  /** `main()`: the inputs are parsed, the polygons triangulated and
      selected, and only then are start and end converted with `int`. */
  function Run(inputs: string, selection: seq<string>): (r: Outcome<Step>)
    ensures GetInputs(inputs).Failure? ==> r == Outcome([], Some(IndexError))
    ensures GetInputs(inputs).Success? ==>
      var x := GetInputs(inputs).value;
      (r.error == None <==> IntOf(x.start).Success? && IntOf(x.end).Success?) &&
      (r.error == None ==>
        r.steps == Export(selection, x.name, IntOf(x.start).value, IntOf(x.end).value) + Clear(x.name)) &&
      (r.error != None ==> r == Outcome(Prepare(selection), Some(ValueError)))
  {
    match GetInputs(inputs)
    case Failure(e) => Outcome([], Some(e))
    case Success(x) =>
      match (IntOf(x.start), IntOf(x.end))
      case (Success(s), Success(e)) => Outcome(Export(selection, x.name, s, e) + Clear(x.name), None)
      case _ => Outcome(Prepare(selection), Some(ValueError))
  }

  /** Typing `<name>_<start>:<end>` runs the whole export for that name and those frames. */
  lemma RunRoundTrip(name: string, start: nat, end: nat, selection: seq<string>)
    requires '_' !in name && Trimmed(name)
    ensures Run(name + "_" + Dec(start) + ":" + Dec(end), selection) ==
      Outcome(Export(selection, name, start, end) + Clear(name), None)
  {
    DecPlain(start);
    DecPlain(end);
    GetInputsRoundTrip(name, Dec(start), Dec(end));
    IntOfDec(start);
    IntOfDec(end);
  }

  lemma DecPlain(n: nat)
    ensures '_' !in Dec(n) && ':' !in Dec(n) && Trimmed(Dec(n))
  {
    var d := Dec(n);
    assert forall k :: 0 <= k < |d| ==> IsDigit(d[k]);
  }

  /** The paths exported, in order. */
  function Exports(steps: seq<Step>): (r: seq<string>)
    ensures |r| <= |steps|
    decreases |steps|
  {
    if |steps| == 0 then []
    else (if steps[0].ExportObj? then [steps[0].path] else []) + Exports(steps[1..])
  }

  lemma {:induction false} ExportsConcat(a: seq<Step>, b: seq<Step>)
    ensures Exports(a + b) == Exports(a) + Exports(b)
    decreases |a|
  {
    if |a| == 0 {
      assert a + b == b;
    } else {
      assert (a + b)[0] == a[0];
      assert (a + b)[1..] == a[1..] + b;
      ExportsConcat(a[1..], b);
    }
  }

  lemma {:induction false} ExportsNone(s: seq<Step>)
    requires forall i :: 0 <= i < |s| ==> !s[i].ExportObj?
    ensures Exports(s) == []
    decreases |s|
  {
    if |s| > 0 {
      ExportsNone(s[1..]);
    }
  }

  /** Frame by frame, each time is set just before the export that follows it. */
  lemma {:induction false} FrameStepsAt(objs: nat -> string, t: nat, end: nat, i: nat)
    requires t + i <= end
    ensures FrameSteps(objs, t, end)[2 * i] == SetTime(t + i)
    ensures FrameSteps(objs, t, end)[2 * i + 1] == ExportObj(objs(t + i))
    decreases i
  {
    if i > 0 {
      FrameStepsAt(objs, t + 1, end, i - 1);
    }
  }

  /** One OBJ per time from t to end, in increasing order of time. */
  lemma {:induction false} FrameStepsExports(objs: nat -> string, t: nat, end: nat)
    ensures |Exports(FrameSteps(objs, t, end))| == if end < t then 0 else end - t + 1
    ensures forall i :: 0 <= i < |Exports(FrameSteps(objs, t, end))| ==>
      Exports(FrameSteps(objs, t, end))[i] == objs(t + i)
    decreases end + 1 - t
  {
    if t <= end {
      var head := [SetTime(t), ExportObj(objs(t))];
      var rest := FrameSteps(objs, t + 1, end);
      FrameStepsExports(objs, t + 1, end);
      assert FrameSteps(objs, t, end) == head + rest;
      ExportsConcat(head, rest);
      assert Exports(head) == [objs(t)] by {
        assert head[1..] == [ExportObj(objs(t))];
        assert head[1..][1..] == [];
      }
      ShiftedFrames(objs, t, Exports(rest));
    }
  }

  lemma ShiftedFrames(objs: nat -> string, t: nat, rest: seq<string>)
    requires forall i :: 0 <= i < |rest| ==> rest[i] == objs(t + 1 + i)
    ensures forall i :: 0 <= i < 1 + |rest| ==> ([objs(t)] + rest)[i] == objs(t + i)
  {
    var r := [objs(t)] + rest;
    forall i | 0 <= i < |r| ensures r[i] == objs(t + i) {
      if i > 0 {
        assert r[i] == rest[i - 1];
      }
    }
  }

  /** The export writes one OBJ file per frame from start to end, in
      increasing frame order, each named after its frame. */
  lemma ExportWritesEachFrame(selection: seq<string>, name: string, start: nat, end: nat)
    ensures |Exports(Export(selection, name, start, end))| == if end < start then 0 else end - start + 1
    ensures forall i :: 0 <= i < |Exports(Export(selection, name, start, end))| ==>
      Exports(Export(selection, name, start, end))[i] == ObjPath(name, start + i)
  {
    var p := Prepare(selection);
    assert forall i :: 0 <= i < |p| ==> !p[i].ExportObj?;
    ExportsNone(p);
    ExportsConcat(p, FrameSteps(Objs(name), start, end));
    FrameStepsExports(Objs(name), start, end);
    var r := Exports(Export(selection, name, start, end));
    forall i | 0 <= i < |r| ensures r[i] == ObjPath(name, start + i) {
      ObjsAt(name, start + i);
    }
  }

  /** A run that fails exports no OBJ file; one that fails in `int` has
      already triangulated every selected polygon and selected them all. */
  lemma RunFailureExportsNothing(inputs: string, selection: seq<string>)
    ensures var r := Run(inputs, selection);
      r.error != None ==> Exports(r.steps) == []
    ensures var r := Run(inputs, selection);
      r.error == Some(ValueError) ==>
        |r.steps| == |selection| + 1 && r.steps[|selection|] == Select(selection) &&
        forall k :: 0 <= k < |selection| ==> r.steps[k] == Triangulate(selection[k])
  {
    var p := Prepare(selection);
    assert forall i :: 0 <= i < |p| ==> !p[i].ExportObj?;
    ExportsNone(p);
    ExportsNone([]);
  }

  /** Every selected polygon is triangulated exactly once, and before
      anything is exported. */
  lemma TriangulateFirst(selection: seq<string>, name: string, start: nat, end: nat)
    ensures var e := Export(selection, name, start, end);
      forall k :: 0 <= k < |e| ==> (e[k].Triangulate? <==> k < |selection|)
    ensures var e := Export(selection, name, start, end);
      forall k :: 0 <= k < |selection| ==> e[k] == Triangulate(selection[k])
  {
    var e := Export(selection, name, start, end);
    var p := Prepare(selection);
    forall k | |p| <= k < |e| ensures !e[k].Triangulate? {
      var j := k - |p|;
      var i := j / 2;
      assert e[k] == FrameSteps(Objs(name), start, end)[j];
      FrameStepsAt(Objs(name), start, end, i);
      assert j == 2 * i || j == 2 * i + 1;
    }
  }

  /** Each OBJ file is exported right after the time is set to its frame. */
  lemma TimeBeforeExport(selection: seq<string>, name: string, start: nat, end: nat, i: nat)
    requires start + i <= end
    ensures var e := Export(selection, name, start, end); var k := |selection| + 1 + 2 * i;
      k + 1 < |e| && e[k] == SetTime(start + i) && e[k + 1] == ExportObj(ObjPath(name, start + i))
  {
    StepsAt(selection, Objs(name), start, end, i);
    ObjsAt(name, start + i);
  }

  lemma StepsAt(selection: seq<string>, objs: nat -> string, start: nat, end: nat, i: nat)
    requires start + i <= end
    ensures var e := Prepare(selection) + FrameSteps(objs, start, end); var k := |selection| + 1 + 2 * i;
      k + 1 < |e| && e[k] == SetTime(start + i) && e[k + 1] == ExportObj(objs(start + i))
  {
    var p := Prepare(selection);
    var q := FrameSteps(objs, start, end);
    FrameStepsAt(objs, start, end, i);
    assert |p| == |selection| + 1;
    assert (p + q)[|p| + 2 * i] == q[2 * i];
    assert (p + q)[|p| + 2 * i + 1] == q[2 * i + 1];
  }

  /** Distinct frames never share an OBJ file. */
  lemma ObjPathsDistinct(name: string, f: nat, g: nat)
    requires ObjPath(name, f) == ObjPath(name, g)
    ensures f == g
  {
    FramedPathInjective(ObjDir, name + "_tri.", ".obj", f, g);
  }

  /** `clear` makes every exported OBJ file writable and removes none of them. */
  lemma ClearTargets(name: string, t: nat)
    ensures Matches(Clear(name)[0].pattern, ObjPath(name, t))
    ensures !Matches(Clear(name)[1].pattern, ObjPath(name, t))
  {
    var p := Pad4(t);
    assert forall k :: 0 <= k < |p| ==> IsDigit(p[k]);
    assert '/' !in p;
    assert ObjPath(name, t) == PathJoin(ObjDir, name + "_tri." + p + ".obj");
    FramedPathLastChar(ObjDir, name + "_tri.", t, ".obj");
    forall m | '/' !in m ensures ObjPath(name, t) != PathJoin(ObjDir, name + "_tri." + m + ".mtl") {
      FramedLastChar(name + "_tri.", m, ".mtl");
      JoinLastChar(ObjDir, name + "_tri." + m + ".mtl");
    }
  }
}
