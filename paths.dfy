/** The part of Rust's `std::path` that the driver relies on. `Path::ends_with`
    compares whole trailing components, not characters, so a path "ends with"
    `.png` only when its last component is exactly `.png`. Paths use the Unix
    separator `/`. */
module Paths {

  /** A `PathBuf`, kept as the text it was given on the command line. */
  datatype Path = Path(text: string)

  const Separator: char := '/'

  /** The text between separators, in order: `Split("a//b/")` is
      `["a", "", "b", ""]`. */
  function Split(s: string): (r: seq<string>)
    ensures |r| >= 1
    decreases |s|
  {
    if s == [] then [""]
    else
      var rest := Split(s[1..]);
      if s[0] == Separator then [""] + rest
      else [[s[0]] + rest[0]] + rest[1..]
  }

  /** No segment contains a separator. */
  lemma {:induction false} SplitSegmentsHaveNoSeparator(s: string)
    ensures forall i :: 0 <= i < |Split(s)| ==> Separator !in Split(s)[i]
    decreases |s|
  {
    if s != [] {
      SplitSegmentsHaveNoSeparator(s[1..]);
      var rest := Split(s[1..]);
      if s[0] != Separator {
        assert Separator !in [s[0]] + rest[0];
      }
    }
  }

  /** The segments put back together with a separator between each two. */
  function Join(parts: seq<string>): (r: string)
    requires |parts| >= 1
  {
    if |parts| == 1 then parts[0] else parts[0] + [Separator] + Join(parts[1..])
  }

  /** Splitting loses nothing: joining the segments gives the text back. */
  lemma {:induction false} JoinSplit(s: string)
    ensures Join(Split(s)) == s
    decreases |s|
  {
    if s != [] {
      JoinSplit(s[1..]);
      var rest := Split(s[1..]);
      if s[0] == Separator {
        assert s == [Separator] + s[1..];
      } else {
        if |rest| == 1 {
          assert s == [s[0]] + s[1..];
        } else {
          assert Join(rest) == rest[0] + [Separator] + Join(rest[1..]);
          var r := [[s[0]] + rest[0]] + rest[1..];
          assert r[1..] == rest[1..];
          assert s == [s[0]] + s[1..];
        }
      }
    }
  }

  /** Text without a separator is a single segment. */
  lemma {:induction false} SplitSegment(s: string)
    requires Separator !in s
    ensures Split(s) == [s]
    decreases |s|
  {
    if s != [] {
      SplitSegment(s[1..]);
      assert s == [s[0]] + s[1..];
    }
  }

  /** One step of Split, for text that starts with the character `c`. */
  lemma SplitCons(c: char, s: string)
    ensures Split([c] + s) ==
      if c == Separator then [""] + Split(s) else [[c] + Split(s)[0]] + Split(s)[1..]
  {
    assert ([c] + s)[0] == c && ([c] + s)[1..] == s;
  }

  /** A separator between two texts splits between their segments, the last
      segment of the first text and the first of the second staying apart. */
  lemma {:induction false} SplitAround(a: string, b: string)
    ensures Split(a + [Separator] + b) == Split(a) + Split(b)
    decreases |a|
  {
    if a == [] {
      assert a + [Separator] + b == [Separator] + b;
      SplitCons(Separator, b);
    } else {
      var tail := a[1..] + [Separator] + b;
      assert a + [Separator] + b == [a[0]] + tail;
      assert a == [a[0]] + a[1..];
      SplitAround(a[1..], b);
      SplitCons(a[0], tail);
      SplitCons(a[0], a[1..]);
      var rest, restB := Split(a[1..]), Split(b);
      if a[0] != Separator {
        assert (rest + restB)[1..] == rest[1..] + restB;
      }
    }
  }

  /** A segment that names something: not empty (from a repeated or trailing
      separator) and not the current directory `.`. */
  predicate IsNormal(segment: string)
  {
    segment != "" && segment != "."
  }

  /** The normal segments, in order. */
  function Normal(segments: seq<string>): (r: seq<string>)
    ensures forall i :: 0 <= i < |r| ==> IsNormal(r[i])
  {
    if segments == [] then []
    else if IsNormal(segments[0]) then [segments[0]] + Normal(segments[1..])
    else Normal(segments[1..])
  }

  /** The filter is exact: it keeps the normal segments and only those. */
  lemma {:induction false} NormalKeepsNamed(segments: seq<string>)
    ensures forall s :: s in Normal(segments) <==> s in segments && IsNormal(s)
  {
    if segments != [] {
      NormalKeepsNamed(segments[1..]);
      assert segments == [segments[0]] + segments[1..];
    }
  }

  /** Filtering distributes over concatenation. */
  lemma {:induction false} NormalAppend(a: seq<string>, b: seq<string>)
    ensures Normal(a + b) == Normal(a) + Normal(b)
  {
    if a == [] {
      assert a + b == b;
    } else {
      var ab := a + b;
      assert ab[0] == a[0] && ab[1..] == a[1..] + b;
      NormalAppend(a[1..], b);
      if IsNormal(a[0]) {
        assert Normal(ab) == [a[0]] + Normal(a[1..] + b);
        assert Normal(a) == [a[0]] + Normal(a[1..]);
      } else {
        assert Normal(ab) == Normal(a[1..] + b);
        assert Normal(a) == Normal(a[1..]);
      }
    }
  }

  /** The named components of a path, as `Path::components` yields them
      (`..` included, the root and `.` left out). */
  function Components(p: Path): (r: seq<string>)
    ensures forall i :: 0 <= i < |r| ==> IsNormal(r[i]) && Separator !in r[i]
  {
    SplitSegmentsHaveNoSeparator(p.text);
    NormalKeepsNamed(Split(p.text));
    Normal(Split(p.text))
  }

  /** `p.ends_with(name)` for a one-component `name`: the last component of
      `p` is `name`. It can hold only when `name` is itself a single named
      component. */
  predicate EndsWith(p: Path, name: string): (b: bool)
    ensures b ==> IsNormal(name) && Separator !in name
  {
    var c := Components(p);
    |c| > 0 && c[|c| - 1] == name
  }

  /** A file named `name` inside `dir` ends with `child` exactly when its
      name is `child`; its extension is not compared on its own. */
  lemma FileInDirEndsWith(dir: string, name: string, child: string)
    requires IsNormal(name) && Separator !in name
    ensures EndsWith(Path(dir + [Separator] + name), child) <==> name == child
  {
    SplitAround(dir, name);
    SplitSegment(name);
    NormalAppend(Split(dir), [name]);
    assert Normal([name]) == [name];
  }

  /** The same for a bare file name given without a directory. */
  lemma BareFileEndsWith(name: string, child: string)
    requires IsNormal(name) && Separator !in name
    ensures EndsWith(Path(name), child) <==> name == child
  {
    SplitSegment(name);
    assert Normal([name]) == [name];
  }
}
