/** POSIX path handling as the scripts use it: `os.path.join` and the
    last-component idiom `p.split('/')[-1]`. */
module Paths {
  import opened Strings

  /** `os.path.join(a, b)`: an absolute `b` replaces `a`; otherwise `b` is
      appended, with a '/' unless `a` is empty or already ends in one. */
  function PathJoin(a: string, b: string): (r: string)
    ensures EndsWith(r, b)
    ensures !StartsWith(b, "/") ==> StartsWith(r, a)
    ensures !StartsWith(b, "/") && a != "" ==> EndsWith(r[..|r| - |b|], "/")
    ensures StartsWith(b, "/") ==> r == b
    ensures !StartsWith(b, "/") ==> |r| == |a| + |b| + (if a == "" || EndsWith(a, "/") then 0 else 1)
  {
    if StartsWith(b, "/") then b
    else if a == "" || EndsWith(a, "/") then a + b
    else a + "/" + b
  }

  /** What `os.path.join(a, b)` puts before a relative `b`. */
  function DirPart(a: string): string {
    if a == "" || EndsWith(a, "/") then a else a + "/"
  }

  lemma RelativeJoin(a: string, b: string)
    requires !StartsWith(b, "/")
    ensures PathJoin(a, b) == DirPart(a) + b
  {
  }

  /** `os.path.join(a, b, c)`. */
  function PathJoin3(a: string, b: string, c: string): string {
    PathJoin(PathJoin(a, b), c)
  }

  /** `p.split('/')[-1]`. */
  function Basename(p: string): string {
    Last(Split(p, '/'))
  }

  /** A plain file name joined onto any directory is that path's last component. */
  lemma BasenameOfJoin(a: string, b: string)
    requires '/' !in b
    ensures Basename(PathJoin(a, b)) == b
  {
    SplitNoSeparator(b, '/');
    var d := DirPart(a);
    RelativeJoin(a, b);
    if d != "" {
      LastAfterSeparator(d[..|d| - 1], b);
      assert d == d[..|d| - 1] + ['/'];
    }
  }

  /** The last '/'-field of `x/b` is `b`, for a '/'-free `b`. */
  lemma LastAfterSeparator(x: string, b: string)
    requires '/' !in b
    ensures Last(Split(x + ['/'] + b, '/')) == b
  {
    SplitAppend(x, '/', b);
    SplitNoSeparator(b, '/');
  }

  /** Joining names onto one directory never merges two names into one path. */
  lemma JoinInjective(a: string, b1: string, b2: string)
    requires StartsWith(b1, "/") <==> StartsWith(b2, "/")
    requires PathJoin(a, b1) == PathJoin(a, b2)
    ensures b1 == b2
  {
    var r := PathJoin(a, b1);
    assert b1 == r[|r| - |b1|..];
    assert b2 == r[|r| - |b2|..];
  }

  /** `name.split('.')[0]`. */
  function Stem(fileName: string): (r: string)
    ensures '.' !in r && StartsWith(fileName, r)
  {
    var parts := Split(fileName, '.');
    JoinSplit(fileName, '.');
    JoinStartsWithFirst(parts, '.');
    parts[0]
  }

  lemma JoinStartsWithFirst(parts: seq<string>, c: char)
    requires |parts| >= 1
    ensures StartsWith(Join(parts, c), parts[0])
  {
    if |parts| > 1 {
      JoinCons(parts[0], parts[1..], c);
      assert [parts[0]] + parts[1..] == parts;
    }
  }

  /** A name without dots before one dot and an extension has that name as its stem. */
  lemma StemOfName(name: string, ext: string)
    requires '.' !in name
    ensures Stem(name + "." + ext) == name
  {
    assert name + "." + ext == name + ['.'] + ext;
    SplitAppend(name, '.', ext);
    SplitNoSeparator(name, '.');
  }

  /** Joining adds no character but '/'. */
  lemma JoinLacks(a: string, b: string, c: char)
    requires c !in a && c !in b && c != '/'
    ensures c !in PathJoin(a, b)
  {
  }
}
