/** The swell-parameter wedge of gilligan/waveShape_swell_wedge.py: one
    parameter record per combination of candidate values, each written to its
    own numbered JSON file, one submit script per parameter file running the
    wave-shape driver on it, and only the shell scripts submitted. */
module SwellWedge {
  import opened Wrappers
  import opened Strings
  import opened Decimal
  import opened Paths
  import opened WedgeProduct

  /** One row of the parameter table: a swell parameter and its candidate values. */
  datatype Parm = Parm(name: string, candidates: seq<real>)

  /** The shipped table. */
  const Table: seq<Parm> := [
    Parm("typicalheight", [0.1, 0.9]),
    Parm("travel", [3.0]),
    Parm("align", [8.0]),
    Parm("cuspscale", [0.0, 0.75 * 6.0]),
    Parm("longest", [10.0, 1000.0]),
    Parm("shortest", [0.25, 4.0]),
    Parm("depth", [10.0])]

  function Names(table: seq<Parm>): (r: seq<string>)
    ensures |r| == |table| && forall k :: 0 <= k < |table| ==> r[k] == table[k].name
  {
    seq(|table|, k requires 0 <= k < |table| => table[k].name)
  }

  function Candidates(table: seq<Parm>): (r: seq<seq<real>>)
    ensures |r| == |table| && forall k :: 0 <= k < |table| ==> r[k] == table[k].candidates
  {
    seq(|table|, k requires 0 <= k < |table| => table[k].candidates)
  }

  /** The shipped table gives 2 * 1 * 1 * 2 * 2 * 2 * 1 = 16 combinations. */
  lemma ShippedTableCount()
    ensures |Product(Candidates(Table))| == 16
  {
    var c := Candidates(Table);
    assert c == [[0.1, 0.9], [3.0], [8.0], [0.0, 4.5], [10.0, 1000.0], [0.25, 4.0], [10.0]];
    assert Combinations(c[6..]) == 1;
    assert Combinations(c[5..]) == 2;
    assert Combinations(c[4..]) == 4;
    assert Combinations(c[3..]) == 8;
    assert Combinations(c[2..]) == 8;
    assert Combinations(c[1..]) == 8;
  }

  // ---------------------------------------------------------------------------
  // Records

  type Record = map<string, real>

  /** `for id in xrange(len(names)): d[names[id]] = t[id]`, on the dictionary `d`. */
  function Assign(d: Record, names: seq<string>, t: seq<real>): (r: Record)
    requires |names| == |t|
    ensures forall x :: x in r <==> x in d || x in names
    decreases |names|
  {
    if |names| == 0 then d
    else
      var r := Assign(d[names[0] := t[0]], names[1..], t[1..]);
      assert forall x :: x in names <==> x == names[0] || x in names[1..] by {
        assert names == [names[0]] + names[1..];
      }
      r
  }

  /** The value the last write of `x` leaves. */
  function LastWrite(names: seq<string>, t: seq<real>, x: string): real
    requires |names| == |t| && x in names
    decreases |names|
  {
    if x in names[1..] then LastWrite(names[1..], t[1..], x) else t[0]
  }

  /** What each key holds after the writes: the last write of it, or what was there. */
  lemma {:induction false} AssignAt(d: Record, names: seq<string>, t: seq<real>, x: string)
    requires |names| == |t|
    ensures x in names ==> Assign(d, names, t)[x] == LastWrite(names, t, x)
    ensures x !in names && x in d ==> Assign(d, names, t)[x] == d[x]
    decreases |names|
  {
    if |names| > 0 {
      AssignAt(d[names[0] := t[0]], names[1..], t[1..], x);
      if x !in names[1..] && x in names {
        assert x == names[0];
      }
    }
  }

  /** With distinct parameter names, each name holds its own tuple component. */
  lemma {:induction false} LastWriteDistinct(names: seq<string>, t: seq<real>, k: nat)
    requires |names| == |t| && Distinct(names) && k < |names|
    ensures LastWrite(names, t, names[k]) == t[k]
    decreases |names|
  {
    if k == 0 {
      assert names[0] !in names[1..] by {
        forall j | 0 <= j < |names| - 1 ensures names[1..][j] != names[0] {
          assert names[1..][j] == names[j + 1];
        }
      }
    } else {
      assert names[k] == names[1..][k - 1];
      assert Distinct(names[1..]) by {
        forall i, j | 0 <= i < j < |names| - 1 ensures names[1..][i] != names[1..][j] {
          assert names[1..][i] == names[i + 1] && names[1..][j] == names[j + 1];
        }
      }
      LastWriteDistinct(names[1..], t[1..], k - 1);
    }
  }

  /** A dictionary whose keys are all rewritten carries nothing over from before. */
  lemma AssignOverwrites(d: Record, names: seq<string>, t: seq<real>)
    requires |names| == |t|
    requires forall x :: x in d ==> x in names
    ensures Assign(d, names, t) == Assign(map[], names, t)
  {
    var a := Assign(d, names, t);
    var b := Assign(map[], names, t);
    forall x | x in a ensures x in b && a[x] == b[x] {
      AssignAt(d, names, t, x);
      AssignAt(map[], names, t, x);
    }
    assert a.Keys == b.Keys;
  }

  /** The records in generation order; the source reuses one dictionary for all of them. */
  function Records(names: seq<string>, tuples: seq<seq<real>>, d: Record): (r: seq<Record>)
    requires forall i :: 0 <= i < |tuples| ==> |tuples[i]| == |names|
    ensures |r| == |tuples|
    decreases |tuples|
  {
    if |tuples| == 0 then []
    else
      var d' := Assign(d, names, tuples[0]);
      [d'] + Records(names, tuples[1..], d')
  }

  /** Reusing the dictionary is harmless: every record is built as if from scratch. */
  lemma {:induction false} RecordsFresh(names: seq<string>, tuples: seq<seq<real>>, d: Record, i: nat)
    requires forall j :: 0 <= j < |tuples| ==> |tuples[j]| == |names|
    requires forall x :: x in d ==> x in names
    requires i < |tuples|
    ensures Records(names, tuples, d)[i] == Assign(map[], names, tuples[i])
    decreases |tuples|
  {
    var d' := Assign(d, names, tuples[0]);
    AssignOverwrites(d, names, tuples[0]);
    if i > 0 {
      RecordsFresh(names, tuples[1..], d', i - 1);
    }
  }

  /** One parameter file: the swell record and the (always empty) small-wave record. */
  datatype ParmsDoc = ParmsDoc(swellWaves: Record, pmWaves: Record)

  /** `swell_wedge_parms_<i>.json`. */
  function FileName(i: nat): string {
    "swell_wedge_parms_" + Dec(i) + ".json"
  }

  /** The parameter files in generation order: path and content. */
  function Generate(parmsDir: string, table: seq<Parm>): (r: seq<(string, ParmsDoc)>)
    ensures |r| == Combinations(Candidates(table))
    ensures forall i :: 0 <= i < |r| ==>
      r[i].0 == PathJoin(parmsDir, FileName(i)) && r[i].1.pmWaves == map[] &&
      r[i].1.swellWaves == Assign(map[], Names(table), Product(Candidates(table))[i])
  {
    var recs := SharedRecords(table);
    seq(|recs|, i requires 0 <= i < |recs| => (PathJoin(parmsDir, FileName(i)), ParmsDoc(recs[i], map[])))
  }

  /** The swell records built in the one shared dictionary, one per combination. */
  function SharedRecords(table: seq<Parm>): (r: seq<Record>)
    ensures |r| == Combinations(Candidates(table))
    ensures forall i :: 0 <= i < |r| ==> r[i] == Assign(map[], Names(table), Product(Candidates(table))[i])
  {
    var tuples := Product(Candidates(table));
    var recs := Records(Names(table), tuples, map[]);
    assert forall i :: 0 <= i < |tuples| ==> recs[i] == Assign(map[], Names(table), tuples[i]) by {
      forall i | 0 <= i < |tuples| ensures recs[i] == Assign(map[], Names(table), tuples[i]) {
        RecordsFresh(Names(table), tuples, map[], i);
      }
    }
    recs
  }

  /** Each file holds exactly one value for each parameter, taken from the
      matching combination, and an empty small-wave record. */
  lemma GeneratedRecords(parmsDir: string, table: seq<Parm>, i: nat, k: nat)
    requires Distinct(Names(table))
    requires i < |Generate(parmsDir, table)| && k < |table|
    ensures Generate(parmsDir, table)[i].1.swellWaves.Keys == set p | p in table :: p.name
    ensures Generate(parmsDir, table)[i].1.swellWaves[table[k].name] == Product(Candidates(table))[i][k]
    ensures Product(Candidates(table))[i][k] in table[k].candidates
  {
    var names := Names(table);
    var t := Product(Candidates(table))[i];
    assert Fits(t, Candidates(table));
    AssignAt(map[], names, t, names[k]);
    LastWriteDistinct(names, t, k);
    RecordKeys(table, t);
  }

  /** A record built from the table has exactly the table's parameter names as keys. */
  lemma RecordKeys(table: seq<Parm>, t: seq<real>)
    requires |t| == |table|
    ensures Assign(map[], Names(table), t).Keys == set p | p in table :: p.name
  {
    var names := Names(table);
    var keys := Assign(map[], names, t).Keys;
    forall x | x in keys ensures x in set p | p in table :: p.name {
      var j :| 0 <= j < |names| && names[j] == x;
      assert table[j] in table;
    }
    forall x | x in set p | p in table :: p.name ensures x in keys {
      var p :| p in table && p.name == x;
      var j :| 0 <= j < |table| && table[j] == p;
      assert names[j] == x;
    }
  }

  /** Distinct records go to distinct files. */
  lemma FileNamesDistinct(i: nat, j: nat)
    requires FileName(i) == FileName(j)
    ensures i == j
  {
    MiddleCancel("swell_wedge_parms_", Dec(i), Dec(j), ".json");
    DecInjective(i, j);
  }

  // ---------------------------------------------------------------------------
  // Submit scripts

  /** The test area every fixed path of the wedge lives under. */
  const TestRoot: string := "/DPA/ewok/" + "dpa/projects/" + "eclipse/rnd/" + "oceansurface/" + "gilliganTest/"
  const WaveScript: string := TestRoot + "python/waveShape.py"
  const AssPath: string := TestRoot + "testAss/"
  const WedgeFrames: string := "1-120"
  const Queue: string := "brie"
  const LibraryLine: string := "export LD_LIBRARY_PATH=${LD_LIBRARY_PATH}:/DPA/wookie/dpa/projects/eclipse/share/gilligan/3rdparty/3rdbuild/lib/\n"

  /** `submit_<stem>.sh`. */
  function ScriptName(fileName: string): string {
    "submit_" + Stem(fileName) + ".sh"
  }

  /** The words of the driver's command line. */
  function CommandWords(stem: string, outputDir: string, parmPath: string): seq<string> {
    [WaveScript, "-wn", "hand02_tri", "-pn", stem, "-ap", AssPath, "-pp", outputDir, "-f", WedgeFrames, "-p", parmPath]
  }

  /** `<WAVESCRIPT> -wn hand02_tri -pn <stem> -ap <ass> -pp <output> -f 1-120 -p <parms>`. */
  function CommandLine(stem: string, outputDir: string, parmPath: string): string {
    Join(CommandWords(stem, outputDir, parmPath), ' ')
  }

  /** The whole script: interpreter line, library path, command line. */
  function ScriptText(stem: string, outputDir: string, parmPath: string): string {
    "#!/bin/bash\n" + LibraryLine + CommandLine(stem, outputDir, parmPath) + "\n"
  }

  /** One script per parameter file found under `root`, as path and content. */
  function Scripts(scriptDir: string, outputDir: string, root: string, parmFiles: seq<string>): (r: seq<(string, string)>)
    ensures |r| == |parmFiles|
    ensures forall i :: 0 <= i < |r| ==>
      r[i].0 == PathJoin(scriptDir, ScriptName(parmFiles[i])) &&
      r[i].1 == ScriptText(Stem(parmFiles[i]), outputDir, PathJoin(root, parmFiles[i]))
  {
    seq(|parmFiles|, i requires 0 <= i < |parmFiles| =>
      (PathJoin(scriptDir, ScriptName(parmFiles[i])), ScriptText(Stem(parmFiles[i]), outputDir, PathJoin(root, parmFiles[i]))))
  }

  /** The argument after the first occurrence of `flag`, as a command-line parser reads it. */
  function OptionValue(words: seq<string>, flag: string): (r: Option<string>)
    ensures r.Some? <==> exists i :: 0 <= i < |words| - 1 && words[i] == flag
    decreases |words|
  {
    if |words| < 2 then None
    else if words[0] == flag then Some(words[1])
    else
      var r := OptionValue(words[1..], flag);
      assert (exists i :: 0 <= i < |words| - 1 && words[i] == flag) <==>
        (exists i :: 0 <= i < |words| - 2 && words[1..][i] == flag) by {
        if exists i :: 0 <= i < |words| - 1 && words[i] == flag {
          var i :| 0 <= i < |words| - 1 && words[i] == flag;
          assert words[1..][i - 1] == flag;
        }
      }
      r
  }

  /** A word the driver's parser does not mistake for a flag or splits in two. */
  predicate PlainWord(w: string) {
    ' ' !in w && (w == [] || w[0] != '-')
  }

  /** None of the fixed words of the command line holds a space. */
  lemma FixedWordsSpaceFree()
    ensures ' ' !in WaveScript && ' ' !in AssPath && ' ' !in WedgeFrames
  {
    assert ' ' !in "/DPA/ewok/" && ' ' !in "dpa/projects/" && ' ' !in "eclipse/rnd/";
    assert ' ' !in "oceansurface/" && ' ' !in "gilliganTest/";
    assert ' ' !in "python/waveShape.py" && ' ' !in "testAss/";
  }

  /** Split back on spaces, the script's command line gives back its words. */
  lemma CommandSplitsBack(stem: string, outputDir: string, parmPath: string)
    requires PlainWord(stem) && PlainWord(outputDir) && PlainWord(parmPath)
    ensures Split(CommandLine(stem, outputDir, parmPath), ' ') == CommandWords(stem, outputDir, parmPath)
  {
    var w := CommandWords(stem, outputDir, parmPath);
    FixedWordsSpaceFree();
    forall i | 0 <= i < |w| ensures ' ' !in w[i] {
    }
    SplitJoin(w, ' ');
  }

  /** The driver's parser finds the parameter file's stem as the product name. */
  lemma CommandProductName(stem: string, outputDir: string, parmPath: string)
    requires PlainWord(stem) && PlainWord(outputDir) && PlainWord(parmPath)
    ensures OptionValue(CommandWords(stem, outputDir, parmPath), "-pn") == Some(stem)
  {
    var w := CommandWords(stem, outputDir, parmPath);
    OptionAfter(w, "-pn", 3);
  }

  /** The driver's parser finds the output directory as the products path. */
  lemma CommandProductsPath(stem: string, outputDir: string, parmPath: string)
    requires PlainWord(stem) && PlainWord(outputDir) && PlainWord(parmPath)
    ensures OptionValue(CommandWords(stem, outputDir, parmPath), "-pp") == Some(outputDir)
  {
    var w := CommandWords(stem, outputDir, parmPath);
    assert stem != "-pp";
    OptionAfter(w, "-pp", 7);
  }

  /** The driver's parser finds frames 1-120. */
  lemma CommandFrames(stem: string, outputDir: string, parmPath: string)
    requires PlainWord(stem) && PlainWord(outputDir) && PlainWord(parmPath)
    ensures OptionValue(CommandWords(stem, outputDir, parmPath), "-f") == Some(WedgeFrames)
  {
    var w := CommandWords(stem, outputDir, parmPath);
    assert stem != "-f" && outputDir != "-f";
    OptionAfter(w, "-f", 9);
  }

  /** The driver's parser finds the parameter file's path. */
  lemma CommandParmFile(stem: string, outputDir: string, parmPath: string)
    requires PlainWord(stem) && PlainWord(outputDir) && PlainWord(parmPath)
    ensures OptionValue(CommandWords(stem, outputDir, parmPath), "-p") == Some(parmPath)
  {
    var w := CommandWords(stem, outputDir, parmPath);
    assert stem != "-p" && outputDir != "-p";
    OptionAfter(w, "-p", 11);
  }

  /** The first occurrence of a flag that none of the first `n` words is. */
  lemma {:induction false} OptionAfter(words: seq<string>, flag: string, n: nat)
    requires n <= |words|
    requires forall i :: 0 <= i < n ==> words[i] != flag
    ensures OptionValue(words, flag) == OptionValue(words[n..], flag)
    decreases n
  {
    if n > 0 {
      if |words| < 2 {
        assert |words[n..]| < 2;
      } else {
        OptionAfter(words[1..], flag, n - 1);
        assert words[1..][n - 1..] == words[n..];
      }
    }
  }

  /** The stem of a generated parameter file is its name without `.json`. */
  lemma StemOfFileName(i: nat)
    ensures Stem(FileName(i)) == "swell_wedge_parms_" + Dec(i)
  {
    var x := "swell_wedge_parms_" + Dec(i);
    assert '.' !in x by {
      assert forall k :: 0 <= k < |Dec(i)| ==> IsDigit(Dec(i)[k]);
      forall k | 0 <= k < |x| ensures x[k] != '.' {
        if k >= 18 {
          assert x[k] == Dec(i)[k - 18];
        }
      }
    }
    assert FileName(i) == x + ['.'] + "json";
    SplitAppend(x, '.', "json");
    SplitNoSeparator(x, '.');
  }

  /** The script of generated record i is named after the record and passes
      the very path the record was written to. */
  lemma ScriptOfRecord(scriptDir: string, outputDir: string, parmsDir: string, i: nat)
    ensures var s := Scripts(scriptDir, outputDir, parmsDir, [FileName(i)])[0];
      var stem := "swell_wedge_parms_" + Dec(i);
      s.0 == PathJoin(scriptDir, "submit_" + stem + ".sh") &&
      s.1 == ScriptText(stem, outputDir, PathJoin(parmsDir, FileName(i)))
  {
    var s := Scripts(scriptDir, outputDir, parmsDir, [FileName(i)]);
    assert s[0].0 == PathJoin(scriptDir, ScriptName(FileName(i)));
    assert s[0].1 == ScriptText(Stem(FileName(i)), outputDir, PathJoin(parmsDir, FileName(i)));
    StemOfFileName(i);
  }

  // ---------------------------------------------------------------------------
  // Submission

  /** `script_path.endswith('.sh')`: only shell scripts are submitted, not the
      queue's log files next to them. */
  predicate IsScript(path: string) {
    EndsWith(path, ".sh")
  }

  /** The paths submitted for the files `names` listed in `root`, in listing order. */
  function Submitted(root: string, names: seq<string>): (r: seq<string>)
    ensures |r| <= |names|
    ensures forall k :: 0 <= k < |r| ==> IsScript(r[k])
    decreases |names|
  {
    if |names| == 0 then []
    else
      var p := PathJoin(root, names[0]);
      (if IsScript(p) then [p] else []) + Submitted(root, names[1..])
  }

  /** A path is submitted exactly when it is a shell script joined from a listed name. */
  lemma {:induction false} SubmittedMembers(root: string, names: seq<string>, p: string)
    ensures p in Submitted(root, names) <==> IsScript(p) && exists k :: 0 <= k < |names| && PathJoin(root, names[k]) == p
    decreases |names|
  {
    if |names| > 0 {
      SubmittedMembers(root, names[1..], p);
      JoinedFromCons(root, names, p);
    }
  }

  /** `p` is joined from some listed name exactly when it is joined from the
      first or from one of the rest. */
  lemma JoinedFromCons(root: string, names: seq<string>, p: string)
    requires |names| > 0
    ensures (exists k :: 0 <= k < |names| && PathJoin(root, names[k]) == p) <==>
      PathJoin(root, names[0]) == p || exists k :: 0 <= k < |names| - 1 && PathJoin(root, names[1..][k]) == p
  {
    if exists k :: 0 <= k < |names| && PathJoin(root, names[k]) == p {
      var k :| 0 <= k < |names| && PathJoin(root, names[k]) == p;
      if k > 0 {
        assert names[1..][k - 1] == names[k];
      }
    }
    if exists k :: 0 <= k < |names| - 1 && PathJoin(root, names[1..][k]) == p {
      var k :| 0 <= k < |names| - 1 && PathJoin(root, names[1..][k]) == p;
      assert names[k + 1] == names[1..][k];
    }
  }

  /** `.sh` as its last three characters. */
  lemma ScriptChars(x: string)
    ensures IsScript(x) <==> |x| >= 3 && x[|x| - 3] == '.' && x[|x| - 2] == 's' && x[|x| - 1] == 'h'
  {
    if |x| >= 3 {
      var t := x[|x| - 3..];
      assert t[0] == x[|x| - 3] && t[1] == x[|x| - 2] && t[2] == x[|x| - 1];
      assert ".sh"[0] == '.' && ".sh"[1] == 's' && ".sh"[2] == 'h';
      if t[0] == '.' && t[1] == 's' && t[2] == 'h' {
        assert t == ".sh";
      }
    }
  }

  /** Joining onto a directory neither makes nor spoils a `.sh` suffix. */
  lemma JoinKeepsScript(root: string, name: string)
    ensures IsScript(PathJoin(root, name)) <==> IsScript(name)
  {
    if !StartsWith(name, "/") {
      RelativeJoin(root, name);
      DirPartEnds(root);
      PrefixKeepsScript(DirPart(root), name);
    }
  }

  lemma DirPartEnds(a: string)
    ensures DirPart(a) == "" || DirPart(a)[|DirPart(a)| - 1] == '/'
  {
    if a != "" && EndsWith(a, "/") {
      assert a[|a| - 1] == a[|a| - 1..][0];
    }
  }

  /** A directory prefix ending in '/' neither makes nor spoils a `.sh` suffix. */
  lemma PrefixKeepsScript(d: string, name: string)
    requires d == "" || d[|d| - 1] == '/'
    ensures IsScript(d + name) <==> IsScript(name)
  {
    var r := d + name;
    ScriptChars(r);
    ScriptChars(name);
    if |name| >= 3 {
      assert r[|r| - 3] == name[|name| - 3];
      assert r[|r| - 2] == name[|name| - 2];
      assert r[|r| - 1] == name[|name| - 1];
    } else if d != "" {
      assert r[|d| - 1] == '/';
    }
  }

  /** How many of the listed names are shell scripts. */
  function ScriptCount(names: seq<string>): nat
    decreases |names|
  {
    if |names| == 0 then 0
    else (if IsScript(names[0]) then 1 else 0) + ScriptCount(names[1..])
  }

  /** One submission per shell script in the listing, whatever the directory. */
  lemma {:induction false} SubmittedCount(root: string, names: seq<string>)
    ensures |Submitted(root, names)| == ScriptCount(names)
    decreases |names|
  {
    if |names| > 0 {
      JoinKeepsScript(root, names[0]);
      SubmittedCount(root, names[1..]);
    }
  }

  lemma {:induction false} ScriptCountConcat(a: seq<string>, b: seq<string>)
    ensures ScriptCount(a + b) == ScriptCount(a) + ScriptCount(b)
    decreases |a|
  {
    if |a| > 0 {
      assert (a + b)[0] == a[0];
      assert (a + b)[1..] == a[1..] + b;
      ScriptCountConcat(a[1..], b);
    } else {
      assert a + b == b;
    }
  }

  /** The count does not depend on the order the directory is listed in. */
  lemma {:induction false} ScriptCountPermutation(a: seq<string>, b: seq<string>)
    requires multiset(a) == multiset(b)
    ensures ScriptCount(a) == ScriptCount(b)
    decreases |a|
  {
    if |a| > 0 {
      assert a[0] in multiset(b);
      var j :| 0 <= j < |b| && b[j] == a[0];
      var b' := b[..j] + b[j + 1..];
      RemoveOne(b, j);
      assert a == [a[0]] + a[1..];
      assert multiset(a[1..]) == multiset(a) - multiset{a[0]};
      ScriptCountPermutation(a[1..], b');
      ScriptCountRemove(b, j);
    }
  }

  /** Taking out the j-th name takes one copy of it out of the multiset. */
  lemma RemoveOne(b: seq<string>, j: nat)
    requires j < |b|
    ensures multiset(b[..j] + b[j + 1..]) == multiset(b) - multiset{b[j]}
  {
    assert b == b[..j] + [b[j]] + b[j + 1..];
    assert multiset(b) == multiset(b[..j]) + multiset{b[j]} + multiset(b[j + 1..]);
  }

  /** Taking out the j-th name lowers the count by one exactly when it is a script. */
  lemma ScriptCountRemove(b: seq<string>, j: nat)
    requires j < |b|
    ensures ScriptCount(b) == ScriptCount(b[..j] + b[j + 1..]) + (if IsScript(b[j]) then 1 else 0)
  {
    assert b == b[..j] + [b[j]] + b[j + 1..];
    ScriptCountConcat(b[..j] + [b[j]], b[j + 1..]);
    ScriptCountConcat(b[..j], [b[j]]);
    ScriptCountConcat(b[..j], b[j + 1..]);
  }

  /** Every script name is a shell script. */
  lemma ScriptNameIsScript(fileName: string)
    ensures IsScript(ScriptName(fileName))
  {
    var n := ScriptName(fileName);
    assert n[|n| - 3..] == ".sh";
  }

  /** The names of the scripts written for the parameter files, in order. */
  function ScriptNames(parmFiles: seq<string>): (r: seq<string>)
    ensures |r| == |parmFiles| && forall i :: 0 <= i < |r| ==> r[i] == ScriptName(parmFiles[i])
  {
    seq(|parmFiles|, i requires 0 <= i < |parmFiles| => ScriptName(parmFiles[i]))
  }

  lemma {:induction false} AllScripts(names: seq<string>)
    requires forall k :: 0 <= k < |names| ==> IsScript(names[k])
    ensures ScriptCount(names) == |names|
    decreases |names|
  {
    if |names| > 0 {
      AllScripts(names[1..]);
    }
  }

  lemma {:induction false} NoScripts(names: seq<string>)
    requires forall k :: 0 <= k < |names| ==> !IsScript(names[k])
    ensures ScriptCount(names) == 0
    decreases |names|
  {
    if |names| > 0 {
      NoScripts(names[1..]);
    }
  }

  /** When the script directory holds the generated scripts and any number of
      non-script files, in any order, every script is submitted once and the
      number of jobs is the number of parameter files. */
  lemma SubmitsEveryScript(scriptDir: string, parmFiles: seq<string>, others: seq<string>, listing: seq<string>)
    requires forall k :: 0 <= k < |others| ==> !IsScript(others[k])
    requires multiset(listing) == multiset(ScriptNames(parmFiles) + others)
    ensures |Submitted(scriptDir, listing)| == |parmFiles|
    ensures forall i :: 0 <= i < |parmFiles| ==> PathJoin(scriptDir, ScriptName(parmFiles[i])) in Submitted(scriptDir, listing)
  {
    var names := ScriptNames(parmFiles);
    forall k | 0 <= k < |names| ensures IsScript(names[k]) {
      ScriptNameIsScript(parmFiles[k]);
    }
    AllScripts(names);
    NoScripts(others);
    ScriptCountConcat(names, others);
    ScriptCountPermutation(listing, names + others);
    SubmittedCount(scriptDir, listing);
    forall i | 0 <= i < |parmFiles| ensures PathJoin(scriptDir, ScriptName(parmFiles[i])) in Submitted(scriptDir, listing) {
      var n := names[i];
      assert n in multiset(listing) by {
        assert (names + others)[i] == n;
      }
      var k :| 0 <= k < |listing| && listing[k] == n;
      ScriptNameIsScript(parmFiles[i]);
      JoinKeepsScript(scriptDir, n);
      SubmittedMembers(scriptDir, listing, PathJoin(scriptDir, n));
    }
  }

  /** Distinct parameter files get distinct scripts, so no script overwrites another. */
  lemma ScriptNamesDistinct(i: nat, j: nat)
    requires ScriptName(FileName(i)) == ScriptName(FileName(j))
    ensures i == j
  {
    var si, sj := "swell_wedge_parms_" + Dec(i), "swell_wedge_parms_" + Dec(j);
    StemOfFileName(i);
    StemOfFileName(j);
    MiddleCancel("submit_", si, sj, ".sh");
    assert Dec(i) == si[18..] && Dec(j) == sj[18..];
    DecInjective(i, j);
  }
}
