/** Per-frame file names: a fixed prefix, the zero-padded frame number and a
    fixed suffix, as every script here builds them with `'{:04}'`. */
module Naming {
  import opened Strings
  import opened Decimal
  import opened Paths

  /** `prefix + '{:04}'.format(f) + suffix`. */
  function Framed(prefix: string, f: nat, suffix: string): string {
    prefix + Pad4(f) + suffix
  }

  /** Two frames share a framed name only if they are the same frame. */
  lemma FramedInjective(prefix: string, suffix: string, f: nat, g: nat)
    requires Framed(prefix, f, suffix) == Framed(prefix, g, suffix)
    ensures f == g
  {
    MiddleCancel(prefix, Pad4(f), Pad4(g), suffix);
  }

  /** A framed name is absolute exactly when its prefix is; the frame number never decides it. */
  lemma FramedAbsolute(prefix: string, suffix: string, f: nat, g: nat)
    ensures StartsWith(Framed(prefix, f, suffix), "/") <==> StartsWith(Framed(prefix, g, suffix), "/")
  {
    FirstChar(prefix, suffix, f);
    FirstChar(prefix, suffix, g);
  }

  lemma FirstChar(prefix: string, suffix: string, f: nat)
    ensures StartsWith(Framed(prefix, f, suffix), "/") <==> (StartsWith(prefix, "/") || (prefix == [] && Pad4(f)[0] == '/'))
  {
    var x := Framed(prefix, f, suffix);
    var p := Pad4(f);
    assert |x| >= 1;
    assert StartsWith(x, "/") <==> x[0] == '/';
    if |prefix| == 0 {
      assert x == p + suffix;
      assert x[0] == p[0];
    } else {
      assert x == prefix + (p + suffix);
      assert x[0] == prefix[0];
    }
  }

  /** Two frames share a framed file in one directory only if they are the same frame. */
  lemma FramedPathInjective(dir: string, prefix: string, suffix: string, f: nat, g: nat)
    requires PathJoin(dir, Framed(prefix, f, suffix)) == PathJoin(dir, Framed(prefix, g, suffix))
    ensures f == g
  {
    FramedAbsolute(prefix, suffix, f, g);
    assert IsDigit(Pad4(f)[0]) && IsDigit(Pad4(g)[0]);
    JoinInjective(dir, Framed(prefix, f, suffix), Framed(prefix, g, suffix));
    FramedInjective(prefix, suffix, f, g);
  }

  /** A character in neither fixed part that is no digit is not in a framed name. */
  lemma FramedLacks(prefix: string, f: nat, suffix: string, c: char)
    requires c !in prefix && c !in suffix && !IsDigit(c)
    ensures c !in Framed(prefix, f, suffix)
  {
    var p := Pad4(f);
    assert forall k :: 0 <= k < |p| ==> IsDigit(p[k]);
  }

  /** A framed file ends with the last character of its suffix, in any directory. */
  lemma FramedPathLastChar(dir: string, prefix: string, f: nat, suffix: string)
    requires |suffix| >= 1
    ensures var r := PathJoin(dir, Framed(prefix, f, suffix));
      |r| >= 1 && r[|r| - 1] == suffix[|suffix| - 1]
  {
    var b := Framed(prefix, f, suffix);
    FramedLastChar(prefix, Pad4(f), suffix);
    JoinLastChar(dir, b);
  }

  lemma FramedLastChar(prefix: string, p: string, suffix: string)
    requires |suffix| >= 1
    ensures (prefix + p + suffix)[|prefix + p + suffix| - 1] == suffix[|suffix| - 1]
  {
  }

  lemma JoinLastChar(dir: string, b: string)
    requires |b| >= 1
    ensures var r := PathJoin(dir, b); |r| >= 1 && r[|r| - 1] == b[|b| - 1]
  {
    if !StartsWith(b, "/") {
      RelativeJoin(dir, b);
      LastOfAppend(DirPart(dir), b);
    }
  }

  lemma LastOfAppend(a: string, b: string)
    requires |b| >= 1
    ensures (a + b)[|a + b| - 1] == b[|b| - 1]
  {
  }
}
