/** cleanFrameWetMap.py: after the wet-map bake, copy the image in each
    per-frame `tmp_<frame>` folder of `<cwd>/<folder>/products` up into the
    products folder as `<image>.<frame>.exr`, then remove the `tmp*` folders.
    The walk is bottom-up, so every folder is copied from before the root's
    removal; the first malformed folder stops the script with an `IndexError`. */
module CleanFrameWetMap {
  import opened Wrappers
  import opened Strings
  import opened Decimal
  import opened Paths
  import opened Naming
  import MayaBatch
  import ExportFrameWetMap

  /** A subfolder of the products folder: its name and its files in listing order. */
  datatype Folder = Folder(name: string, files: seq<string>)

  datatype Command =
    | Copy(source: string, target: string)
    | RemoveTmp(pattern: string)

  /** `os.path.join(os.getcwd(), folder, 'products')`: the products folder
      of the export run in `folder`. */
  function ProductPath(cwd: string, folder: string): string {
    MayaBatch.OutputDir(PathJoin(cwd, folder))
  }

  /** `root.split('/')[-1].split('_')[-1]`. */
  function FrameId(root: string): string {
    Last(Split(Basename(root), '_'))
  }

  /** `name.split('.')[-2]`: a name without a '.' has no such field. */
  function ImageName(file: string): (r: Result<string, PyError>)
    ensures r.Failure? <==> '.' !in file
    ensures r.Failure? ==> r.error == IndexError
    ensures r.Success? ==> '.' !in r.value
  {
    var parts := Split(file, '.');
    SplitSeveral(file, '.');
    if |parts| < 2 then Failure(IndexError) else Success(parts[|parts| - 2])
  }

  /** The copy one subfolder asks for: its first file, to
      `<products>/<image>.<frame id>.exr`. */
  function CopyOf(product: string, d: Folder): (r: Result<Command, PyError>)
    ensures r.Failure? <==> d.files == [] || '.' !in d.files[0]
    ensures r.Failure? ==> r.error == IndexError
    ensures r.Success? ==> r.value.Copy? && r.value.source == PathJoin(PathJoin(product, d.name), d.files[0])
  {
    if |d.files| == 0 then Failure(IndexError)
    else
      var root := PathJoin(product, d.name);
      match ImageName(d.files[0])
      case Failure(e) => Failure(e)
      case Success(img) => Success(Copy(PathJoin(root, d.files[0]), PathJoin(product, img + "." + FrameId(root) + ".exr")))
  }

  /** The subfolders in walk order, each handled by `step` until the first
      one that fails; the steps already taken stay taken. */
  function Walk<T>(step: Folder -> Result<T, PyError>, dirs: seq<Folder>): (r: Outcome<T>)
    ensures r.error == None <==> forall i :: 0 <= i < |dirs| ==> step(dirs[i]).Success?
    ensures r.error != None ==> (|r.steps| < |dirs| && step(dirs[|r.steps|]) == Failure(r.error.value))
    ensures r.error == None ==> |r.steps| == |dirs|
    ensures |r.steps| <= |dirs|
    ensures forall i :: 0 <= i < |r.steps| ==> step(dirs[i]) == Success(r.steps[i])
    decreases |dirs|
  {
    if |dirs| == 0 then Outcome([], None)
    else
      match step(dirs[0])
      case Failure(e) => Outcome([], Some(e))
      case Success(c) =>
        var rest := Walk(step, dirs[1..]);
        assert forall i :: 1 <= i < |dirs| ==> dirs[i] == dirs[1..][i - 1];
        Outcome([c] + rest.steps, rest.error)
  }

  function Copies(product: string): Folder -> Result<Command, PyError> {
    (d: Folder) => CopyOf(product, d)
  }

  lemma CopiesAt(product: string, d: Folder)
    ensures Copies(product)(d) == CopyOf(product, d)
  {
  }

  /** The whole script: every subfolder (bottom-up), then the products folder
      itself, whose turn removes the `tmp*` folders. */
  function Clean(cwd: string, folder: string, dirs: seq<Folder>): (r: Outcome<Command>)
    ensures r.error == None <==> forall i :: 0 <= i < |dirs| ==> |dirs[i].files| > 0 && '.' in dirs[i].files[0]
    ensures r.error == None ==> (|r.steps| == |dirs| + 1 &&
      r.steps[|dirs|] == RemoveTmp(PathJoin(ProductPath(cwd, folder), "tmp*")) &&
      forall i :: 0 <= i < |dirs| ==> CopyOf(ProductPath(cwd, folder), dirs[i]) == Success(r.steps[i]))
    ensures r.error != None ==> (r.error == Some(IndexError) && forall i :: 0 <= i < |r.steps| ==> r.steps[i].Copy?)
  {
    var product := ProductPath(cwd, folder);
    var copies := Walk(Copies(product), dirs);
    CopiesWalk(product, dirs);
    if copies.error.Some? then copies
    else
      var r := Outcome(copies.steps + [RemoveTmp(PathJoin(product, "tmp*"))], None);
      assert forall i :: 0 <= i < |dirs| ==> r.steps[i] == copies.steps[i];
      r
  }

  /** The walk with `CopyOf` as its step: it completes exactly when every
      subfolder's first file has a '.', and then holds each subfolder's copy. */
  lemma CopiesWalk(product: string, dirs: seq<Folder>)
    ensures var w := Walk(Copies(product), dirs);
      && (w.error == None <==> forall i :: 0 <= i < |dirs| ==> |dirs[i].files| > 0 && '.' in dirs[i].files[0])
      && (w.error == None ==> |w.steps| == |dirs| && forall i :: 0 <= i < |dirs| ==> CopyOf(product, dirs[i]) == Success(w.steps[i]))
      && (w.error != None ==> w.error == Some(IndexError) && forall i :: 0 <= i < |w.steps| ==> w.steps[i].Copy?)
  {
    var w := Walk(Copies(product), dirs);
    forall i | 0 <= i < |dirs| ensures Copies(product)(dirs[i]) == CopyOf(product, dirs[i]) {
      CopiesAt(product, dirs[i]);
    }
    if w.error != None {
      assert Copies(product)(dirs[|w.steps|]) == Failure(w.error.value);
    }
  }

  /** The frame id of an export's `tmp_<f:04>` folder is the frame's padded number. */
  lemma FrameIdOfFrameDir(parent: string, f: nat)
    ensures FrameId(ExportFrameWetMap.FrameDir(parent, f)) == Pad4(f)
    ensures ValueOf(FrameId(ExportFrameWetMap.FrameDir(parent, f))) == f
  {
    var p := Pad4(f);
    assert forall k :: 0 <= k < |p| ==> IsDigit(p[k]);
    var name := Framed("tmp_", f, "");
    assert '/' !in "tmp_" && '/' !in "";
    FramedLacks("tmp_", f, "", '/');
    BasenameOfJoin(MayaBatch.OutputDir(parent), name);
    TmpFields(p);
  }

  lemma TmpFields(p: string)
    requires AllDigits(p)
    ensures Split("tmp_" + p + "", '_') == ["tmp", p]
  {
    assert "tmp_" + p + "" == "tmp" + ['_'] + p;
    assert '_' !in p by {
      assert forall k :: 0 <= k < |p| ==> IsDigit(p[k]);
    }
    SplitTwo("tmp", '_', p);
  }

  /** An image file `<image>.<ext>` with one dot gives its image name. */
  lemma ImageNameOf(img: string, ext: string)
    requires '.' !in img && '.' !in ext
    ensures ImageName(img + "." + ext) == Success(img)
  {
    assert img + "." + ext == img + ['.'] + ext;
    SplitTwo(img, '.', ext);
  }

  /** Run in the folder an export ran in, the copy out of frame f's bake
      folder reads `<image>.exr` there and writes `<image>.<f:04>.exr` into
      the products folder. */
  lemma CopyOfFrame(cwd: string, folder: string, img: string, f: nat, more: seq<string>)
    requires '.' !in img
    ensures var product := ProductPath(cwd, folder);
      var parent := PathJoin(cwd, folder);
      CopyOf(product, Folder(Framed("tmp_", f, ""), [img + ".exr"] + more)) ==
      Success(Copy(PathJoin(ExportFrameWetMap.FrameDir(parent, f), img + ".exr"), Target(product, img, f)))
  {
    var product := ProductPath(cwd, folder);
    var parent := PathJoin(cwd, folder);
    var file := img + ".exr";
    ExrImage(img);
    FrameIdOfFrameDir(parent, f);
    var root := PathJoin(product, Framed("tmp_", f, ""));
    assert root == ExportFrameWetMap.FrameDir(parent, f);
    CopyOfImage(product, Framed("tmp_", f, ""), [file] + more, img);
  }

  lemma ExrImage(img: string)
    requires '.' !in img
    ensures ImageName(img + ".exr") == Success(img)
  {
    assert img + ".exr" == img + "." + "exr";
    ImageNameOf(img, "exr");
  }

  lemma CopyOfImage(product: string, name: string, files: seq<string>, img: string)
    requires |files| > 0 && ImageName(files[0]) == Success(img)
    ensures CopyOf(product, Folder(name, files)) ==
      Success(Copy(PathJoin(PathJoin(product, name), files[0]),
                   PathJoin(product, img + "." + FrameId(PathJoin(product, name)) + ".exr")))
  {
  }

  /** `<products>/<image>.<f:04>.exr`. */
  function Target(product: string, img: string, f: nat): string {
    PathJoin(product, Framed(img + ".", f, ".exr"))
  }

  /** Distinct frames of one image never overwrite each other's copy. */
  lemma TargetsDistinct(product: string, img: string, f: nat, g: nat)
    requires Target(product, img, f) == Target(product, img, g)
    ensures f == g
  {
    FramedPathInjective(product, img + ".", ".exr", f, g);
  }

  /** The bake folders of an export, one per frame, each holding `<image>.exr` first. */
  function BakeFolders(img: string, frames: seq<nat>): seq<Folder> {
    seq(|frames|, i requires 0 <= i < |frames| => Folder(Framed("tmp_", frames[i], ""), [img + ".exr"]))
  }

  /** The copy out of frame f's bake folder after an export. */
  function FrameCopy(cwd: string, folder: string, img: string, f: nat): Command {
    Copy(PathJoin(ExportFrameWetMap.FrameDir(PathJoin(cwd, folder), f), img + ".exr"), Target(ProductPath(cwd, folder), img, f))
  }

  /** Run after an export, the script copies every frame's image into the
      products folder under its own frame's name, and only then removes the
      bake folders. */
  lemma CleanAfterExport(cwd: string, folder: string, img: string, frames: seq<nat>)
    requires '.' !in img
    ensures Clean(cwd, folder, BakeFolders(img, frames)) ==
      Outcome(seq(|frames|, i requires 0 <= i < |frames| => FrameCopy(cwd, folder, img, frames[i])) +
              [RemoveTmp(PathJoin(ProductPath(cwd, folder), "tmp*"))], None)
  {
    var dirs := BakeFolders(img, frames);
    var product := ProductPath(cwd, folder);
    var cmds := seq(|frames|, i requires 0 <= i < |frames| => FrameCopy(cwd, folder, img, frames[i]));
    forall i | 0 <= i < |dirs| ensures CopyOf(product, dirs[i]) == Success(cmds[i]) {
      assert dirs[i] == Folder(Framed("tmp_", frames[i], ""), [img + ".exr"] + []);
      CopyOfFrame(cwd, folder, img, frames[i], []);
    }
    CleanSucceeds(cwd, folder, dirs, cmds);
  }

  /** When every subfolder yields its copy, the script makes exactly those
      copies, in walk order, and then removes the bake folders. */
  lemma CleanSucceeds(cwd: string, folder: string, dirs: seq<Folder>, cmds: seq<Command>)
    requires |cmds| == |dirs|
    requires forall i :: 0 <= i < |dirs| ==> CopyOf(ProductPath(cwd, folder), dirs[i]) == Success(cmds[i])
    ensures Clean(cwd, folder, dirs) == Outcome(cmds + [RemoveTmp(PathJoin(ProductPath(cwd, folder), "tmp*"))], None)
  {
    var r := Clean(cwd, folder, dirs);
    var want := cmds + [RemoveTmp(PathJoin(ProductPath(cwd, folder), "tmp*"))];
    assert r.error == None;
    assert |r.steps| == |want|;
    forall i | 0 <= i < |want| ensures r.steps[i] == want[i] {
      if i < |dirs| {
        assert CopyOf(ProductPath(cwd, folder), dirs[i]) == Success(r.steps[i]);
      }
    }
  }
}
