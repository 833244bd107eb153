/** The Python string operations the scripts rely on, for one-character
    separators: `s.split(c)`, `c.join(parts)`, `s.strip(chars)` and suffix tests. */
module Strings {

  /** `s.split(c)`: the fields between consecutive occurrences of `c`.
      There is at least one field, and no field contains the separator;
      `SplitCount` gives the number of fields. */
  function Split(s: string, c: char): (r: seq<string>)
    ensures |r| >= 1
    ensures forall i :: 0 <= i < |r| ==> c !in r[i]
    decreases |s|
  {
    if |s| == 0 then [""]
    else
      assert s == [s[0]] + s[1..];
      var rest := Split(s[1..], c);
      if s[0] == c then [""] + rest
      else [[s[0]] + rest[0]] + rest[1..]
  }

  /** How many times `c` occurs in `s`. */
  function Occurrences(s: string, c: char): nat
    decreases |s|
  {
    if |s| == 0 then 0 else (if s[0] == c then 1 else 0) + Occurrences(s[1..], c)
  }

  /** There is one more field than there are separators. */
  lemma {:induction false} SplitCount(s: string, c: char)
    ensures |Split(s, c)| == Occurrences(s, c) + 1
    decreases |s|
  {
    if |s| > 0 {
      SplitCount(s[1..], c);
    }
  }

  /** `c.join(parts)`. */
  function Join(parts: seq<string>, c: char): string
    decreases |parts|
  {
    if |parts| == 0 then ""
    else if |parts| == 1 then parts[0]
    else parts[0] + [c] + Join(parts[1..], c)
  }

  /** `parts[-1]`: the last field of a split. */
  function Last(parts: seq<string>): string
    requires |parts| >= 1
  {
    parts[|parts| - 1]
  }

  predicate StartsWith(s: string, prefix: string) {
    |prefix| <= |s| && s[..|prefix|] == prefix
  }

  /** `s.endswith(suffix)`. */
  predicate EndsWith(s: string, suffix: string) {
    |suffix| <= |s| && s[|s| - |suffix|..] == suffix
  }

  /** `s.lstrip(chars)`: the longest suffix of `s` that does not start with a character of `chars`. */
  function StripLeft(s: string, chars: set<char>): (r: string)
    ensures |r| <= |s| && r == s[|s| - |r|..]
    ensures forall k :: 0 <= k < |s| - |r| ==> s[k] in chars
    ensures r == [] || r[0] !in chars
    decreases |s|
  {
    if |s| > 0 && s[0] in chars then StripLeft(s[1..], chars) else s
  }

  /** `s.rstrip(chars)`: the longest prefix of `s` that does not end with a character of `chars`. */
  function StripRight(s: string, chars: set<char>): (r: string)
    ensures |r| <= |s| && r == s[..|r|]
    ensures forall k :: |r| <= k < |s| ==> s[k] in chars
    ensures r == [] || r[|r| - 1] !in chars
    decreases |s|
  {
    if |s| > 0 && s[|s| - 1] in chars then StripRight(s[..|s| - 1], chars) else s
  }

  /** How many leading characters `s.strip(chars)` removes. */
  function StripOffset(s: string, chars: set<char>): nat
  {
    |s| - |StripLeft(s, chars)|
  }

  /** `s.strip(chars)`: characters of `chars` removed from both ends, and only from the ends. */
  function Strip(s: string, chars: set<char>): (r: string)
    ensures StripOffset(s, chars) + |r| <= |s|
    ensures r == s[StripOffset(s, chars)..StripOffset(s, chars) + |r|]
    ensures forall k :: 0 <= k < StripOffset(s, chars) ==> s[k] in chars
    ensures forall k :: StripOffset(s, chars) + |r| <= k < |s| ==> s[k] in chars
    ensures r == [] || (r[0] !in chars && r[|r| - 1] !in chars)
  {
    var left := StripLeft(s, chars);
    StripKeepsSlice(s, left, StripRight(left, chars));
    StripTrailing(s, left, chars);
    StripEnds(left, chars);
    StripRight(left, chars)
  }

  lemma StripKeepsSlice(s: string, left: string, r: string)
    requires |left| <= |s| && left == s[|s| - |left|..]
    requires |r| <= |left| && r == left[..|r|]
    ensures |s| - |left| + |r| <= |s|
    ensures r == s[|s| - |left|..|s| - |left| + |r|]
  {
  }

  lemma StripTrailing(s: string, left: string, chars: set<char>)
    requires |left| <= |s| && left == s[|s| - |left|..]
    ensures var r := StripRight(left, chars);
      forall k :: |s| - |left| + |r| <= k < |s| ==> s[k] in chars
  {
    var r := StripRight(left, chars);
    var off := |s| - |left|;
    forall k | off + |r| <= k < |s| ensures s[k] in chars {
      assert s[k] == left[k - off];
    }
  }

  lemma StripEnds(left: string, chars: set<char>)
    requires left == [] || left[0] !in chars
    ensures var r := StripRight(left, chars);
      r == [] || (r[0] !in chars && r[|r| - 1] !in chars)
  {
    var r := StripRight(left, chars);
    if r != [] {
      assert r[0] == left[0];
    }
  }

  /** A string that neither starts nor ends with a stripped character is left unchanged. */
  lemma StripClean(s: string, chars: set<char>)
    requires s == [] || (s[0] !in chars && s[|s| - 1] !in chars)
    ensures Strip(s, chars) == s
  {
    var left := StripLeft(s, chars);
    assert left == s;
    var r := StripRight(left, chars);
    assert r == left;
  }

  /** Stripping removes exactly a padding made of stripped characters around a clean core. */
  lemma StripPadded(x: string, a: string, y: string, chars: set<char>)
    requires forall k :: 0 <= k < |x| ==> x[k] in chars
    requires forall k :: 0 <= k < |y| ==> y[k] in chars
    requires a != [] && a[0] !in chars && a[|a| - 1] !in chars
    ensures Strip(x + a + y, chars) == a
  {
    StripLeftPadded(x, a + y, chars);
    assert x + a + y == x + (a + y);
    StripRightPadded(a, y, chars);
  }

  lemma {:induction false} StripLeftPadded(x: string, rest: string, chars: set<char>)
    requires forall k :: 0 <= k < |x| ==> x[k] in chars
    requires rest != [] && rest[0] !in chars
    ensures StripLeft(x + rest, chars) == rest
    decreases |x|
  {
    if |x| > 0 {
      assert (x + rest)[1..] == x[1..] + rest;
      StripLeftPadded(x[1..], rest, chars);
    }
  }

  lemma {:induction false} StripRightPadded(rest: string, y: string, chars: set<char>)
    requires forall k :: 0 <= k < |y| ==> y[k] in chars
    requires rest != [] && rest[|rest| - 1] !in chars
    ensures StripRight(rest + y, chars) == rest
    decreases |y|
  {
    if |y| > 0 {
      assert (rest + y)[..|rest + y| - 1] == rest + y[..|y| - 1];
      StripRightPadded(rest, y[..|y| - 1], chars);
    } else {
      assert rest + y == rest;
    }
  }

  /** Stripping only removes characters, so it adds none. */
  lemma StripExcludes(s: string, chars: set<char>, c: char)
    requires c !in s
    ensures c !in Strip(s, chars)
  {
    var r := Strip(s, chars);
    var off := StripOffset(s, chars);
    forall k | 0 <= k < |r| ensures r[k] != c {
      assert r[k] == s[off + k];
    }
  }

  /** Two separator-free fields joined by the separator split back into the two. */
  lemma SplitTwo(x: string, c: char, y: string)
    requires c !in x && c !in y
    ensures Split(x + [c] + y, c) == [x, y]
  {
    SplitAppend(x, c, y);
    SplitNoSeparator(x, c);
    SplitNoSeparator(y, c);
  }

  /** The first two fields of `x c y ...` are x and y, whatever follows y's separator. */
  lemma SplitFirstTwo(x: string, c: char, y: string, rest: string)
    requires c !in x && c !in y
    requires rest == [] || rest[0] == c
    ensures |Split(x + [c] + y + rest, c)| >= 2
    ensures Split(x + [c] + y + rest, c)[0] == x && Split(x + [c] + y + rest, c)[1] == y
  {
    assert x + [c] + y + rest == x + [c] + (y + rest);
    SplitAppend(x, c, y + rest);
    SplitNoSeparator(x, c);
    SplitNoSeparator(y, c);
    if rest != [] {
      assert y + rest == y + [c] + rest[1..];
      SplitAppend(y, c, rest[1..]);
    } else {
      assert y + rest == y;
    }
  }

  lemma ConcatAssoc(a: string, b: string, c: string)
    ensures a + b + c == a + (b + c)
  {
  }

  /** A string without the separator is a single field. */
  lemma {:induction false} SplitNoSeparator(s: string, c: char)
    requires c !in s
    ensures Split(s, c) == [s]
    decreases |s|
  {
    if |s| > 0 {
      assert s[0] != c && c !in s[1..];
      SplitNoSeparator(s[1..], c);
      assert s == [s[0]] + s[1..];
    }
  }

  /** A string splits into two or more fields exactly when it holds the separator. */
  lemma SplitSeveral(s: string, c: char)
    ensures |Split(s, c)| >= 2 <==> c in s
  {
    if c in s {
      var i :| 0 <= i < |s| && s[i] == c;
      assert s == s[..i] + [c] + s[i + 1..];
      SplitAppend(s[..i], c, s[i + 1..]);
    } else {
      SplitNoSeparator(s, c);
    }
  }

  /** One step of `Split`: the first character either ends the first field or extends it. */
  lemma SplitCons(s: string, c: char)
    requires |s| > 0
    ensures Split(s, c) ==
      if s[0] == c then [""] + Split(s[1..], c)
      else [[s[0]] + Split(s[1..], c)[0]] + Split(s[1..], c)[1..]
  {
  }

  /** Splitting at a separator splits the fields on each side independently. */
  lemma {:induction false} SplitAppend(x: string, c: char, y: string)
    ensures Split(x + [c] + y, c) == Split(x, c) + Split(y, c)
    decreases |x|
  {
    if |x| == 0 {
      assert x + [c] + y == [c] + y;
      assert ([c] + y)[1..] == y;
    } else {
      assert (x + [c] + y)[1..] == x[1..] + [c] + y;
      SplitAppend(x[1..], c, y);
    }
  }

  lemma JoinCons(p: string, rest: seq<string>, c: char)
    requires |rest| >= 1
    ensures Join([p] + rest, c) == p + [c] + Join(rest, c)
  {
    assert ([p] + rest)[1..] == rest;
  }

  /** Joining fields that do not contain the separator and splitting again gives the fields back. */
  lemma {:induction false} SplitJoin(parts: seq<string>, c: char)
    requires |parts| >= 1
    requires forall i :: 0 <= i < |parts| ==> c !in parts[i]
    ensures Split(Join(parts, c), c) == parts
    decreases |parts|
  {
    SplitNoSeparator(parts[0], c);
    if |parts| > 1 {
      SplitJoin(parts[1..], c);
      SplitAppend(parts[0], c, Join(parts[1..], c));
      assert parts == [parts[0]] + parts[1..];
    }
  }

  /** Splitting and joining again gives the original string. */
  lemma {:induction false} JoinSplit(s: string, c: char)
    ensures Join(Split(s, c), c) == s
    decreases |s|
  {
    if |s| > 0 {
      var rest := Split(s[1..], c);
      JoinSplit(s[1..], c);
      SplitCons(s, c);
      if s[0] == c {
        JoinCons("", rest, c);
      } else {
        JoinExtendsHead(s[0], rest, c);
      }
      assert s == [s[0]] + s[1..];
    }
  }

  /** Extending the first field extends the joined text at its front. */
  lemma JoinExtendsHead(x: char, rest: seq<string>, c: char)
    requires |rest| >= 1
    ensures Join([[x] + rest[0]] + rest[1..], c) == [x] + Join(rest, c)
  {
    if |rest| == 1 {
      assert [[x] + rest[0]] + rest[1..] == [[x] + rest[0]];
    } else {
      JoinCons([x] + rest[0], rest[1..], c);
      JoinCons(rest[0], rest[1..], c);
      assert rest == [rest[0]] + rest[1..];
    }
  }

  /** Strings that agree around a middle part agree in the middle part. */
  lemma MiddleCancel(a: string, x: string, y: string, b: string)
    requires a + x + b == a + y + b
    ensures x == y
  {
    var s := a + x + b;
    assert |x| == |y|;
    assert x == s[|a|..|a| + |x|];
    assert y == (a + y + b)[|a|..|a| + |y|];
  }
}
