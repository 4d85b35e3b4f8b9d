/** Absolute path texts, segment by segment: the meaning behind the index
    loops of the relative-path computation. */
module PathText {
  import opened Paths

  /** Every segment with a slash in front. */
  function Text(segs: seq<string>): string {
    if segs == [] then "" else "/" + segs[0] + Text(segs[1..])
  }

  predicate Names(segs: seq<string>) {
    forall i :: 0 <= i < |segs| ==> IsName(segs[i])
  }

  /** Segments as splitting gives them, empty ones included. */
  predicate Parts(segs: seq<string>) {
    forall i :: 0 <= i < |segs| ==> NoSlash(segs[i])
  }

  lemma NamesAreParts(segs: seq<string>)
    ensures Names(segs) ==> Parts(segs)
  {
  }

  lemma {:induction false} RenderText(segs: seq<string>)
    requires segs != []
    ensures "/" + Join(segs) == Text(segs) == Render(true, segs)
  {
    if |segs| > 1 { RenderText(segs[1..]); } else { assert segs[1..] == []; }
  }

  lemma {:induction false} TextConcat(a: seq<string>, b: seq<string>)
    ensures Text(a + b) == Text(a) + Text(b)
    decreases |a|
  {
    if a == [] {
      assert a + b == b;
    } else {
      assert (a + b)[1..] == a[1..] + b;
      TextConcat(a[1..], b);
    }
  }

  /** Equal texts have equal segments. */
  lemma TextInjective(a: seq<string>, b: seq<string>)
    requires Parts(a) && Parts(b) && Text(a) == Text(b)
    ensures a == b
  {
    if a != [] && b != [] {
      RenderText(a);
      RenderText(b);
      assert Join(a) == Text(a)[1..] == Text(b)[1..] == Join(b);
      SplitJoin(a);
      SplitJoin(b);
    }
  }

  lemma {:induction false} TextEnd(segs: seq<string>)
    requires Names(segs) && segs != []
    ensures |Text(segs)| >= 2 && Text(segs)[|Text(segs)| - 1] != '/' && Text(segs)[0] == '/' && Text(segs)[1] != '/'
  {
    var first := segs[0];
    assert first != "" && first[0] in first && first[|first| - 1] in first;
    if |segs| > 1 { TextEnd(segs[1..]); } else { assert Text(segs) == "/" + first; }
  }

  lemma HeadHasNoSlash(segs: seq<string>)
    requires Parts(segs) && segs != []
    ensures |Text(segs)| >= 1 + |segs[0]|
    ensures forall j :: 1 <= j < 1 + |segs[0]| ==> Text(segs)[j] != '/'
  {
    var first := segs[0];
    forall j | 1 <= j < 1 + |first|
      ensures Text(segs)[j] != '/'
    {
      assert first[j - 1] in first;
      assert Text(segs)[j] == first[j - 1];
    }
  }

  /** A slash in the text is the start of a segment. */
  lemma {:induction false} SlashBoundary(segs: seq<string>, at: nat) returns (k: nat)
    requires Parts(segs) && at < |Text(segs)| && Text(segs)[at] == '/'
    ensures k < |segs| && Text(segs)[..at] == Text(segs[..k]) && Text(segs)[at..] == Text(segs[k..])
  {
    var first := segs[0];
    if at == 0 {
      k := 0;
      assert segs[..0] == [] && segs[0..] == segs && Text(segs)[0..] == Text(segs);
    } else {
      var skip := 1 + |first|;
      HeadHasNoSlash(segs);
      assert at >= skip;
      k := SlashBoundary(segs[1..], at - skip);
      assert Text(segs)[at..] == Text(segs[1..])[at - skip..];
      assert segs[1..][k..] == segs[k + 1..] && segs[..k + 1][1..] == segs[1..][..k];
      assert Text(segs)[..at] == "/" + first + Text(segs[1..])[..at - skip];
      k := k + 1;
    }
  }

  function Slashes(s: string): nat {
    if s == "" then 0 else (if s[0] == '/' then 1 else 0) + Slashes(s[1..])
  }

  lemma {:induction false} SlashesConcat(a: string, b: string)
    ensures Slashes(a + b) == Slashes(a) + Slashes(b)
    decreases |a|
  {
    if a == "" {
      assert a + b == b;
    } else {
      assert (a + b)[1..] == a[1..] + b;
      SlashesConcat(a[1..], b);
    }
  }

  lemma {:induction false} SlashesNone(s: string)
    requires NoSlash(s)
    ensures Slashes(s) == 0
  {
    if s != "" {
      assert s[0] in s;
      SlashesNone(s[1..]);
    }
  }

  lemma {:induction false} SlashesText(segs: seq<string>)
    requires Parts(segs)
    ensures Slashes(Text(segs)) == |segs|
  {
    if segs != [] {
      SlashesText(segs[1..]);
      SlashesNone(segs[0]);
      SlashesConcat("/" + segs[0], Text(segs[1..]));
    }
  }

  function CommonPrefix(a: seq<string>, b: seq<string>): (k: nat)
    ensures k <= |a| && k <= |b| && a[..k] == b[..k]
    ensures k < |a| && k < |b| ==> a[k] != b[k]
  {
    if a != [] && b != [] && a[0] == b[0] then
      var k := CommonPrefix(a[1..], b[1..]);
      assert a[..k + 1] == [a[0]] + a[1..][..k] && b[..k + 1] == [b[0]] + b[1..][..k];
      k + 1
    else 0
  }

  lemma CommonPrefixIs(a: seq<string>, b: seq<string>, k: nat)
    requires k <= |a| && k <= |b| && a[..k] == b[..k]
    requires k < |a| && k < |b| ==> a[k] != b[k]
    ensures CommonPrefix(a, b) == k
  {
    var c := CommonPrefix(a, b);
    SameBefore(a, b, k);
    SameBefore(a, b, c);
  }

  lemma SameBefore(a: seq<string>, b: seq<string>, k: nat)
    requires k <= |a| && k <= |b| && a[..k] == b[..k]
    ensures forall j :: 0 <= j < k ==> a[j] == b[j]
  {
    assert forall j :: 0 <= j < k ==> a[j] == a[..k][j] && b[j] == b[..k][j];
  }

  function DotDots(n: nat): (segs: seq<string>)
    ensures |segs| == n && forall i :: 0 <= i < n ==> segs[i] == ".."
  {
    if n == 0 then [] else [".."] + DotDots(n - 1)
  }

  /** The shortest way from `cwd` to `path`: up to where they part, then down. */
  function RelativeSegments(path: seq<string>, cwd: seq<string>): seq<string> {
    var k := CommonPrefix(path, cwd);
    DotDots(|cwd| - k) + path[k..]
  }

  /** How many steps up and down lie between two directories. */
  function Distance(a: seq<string>, b: seq<string>): int {
    |a| + |b| - 2 * CommonPrefix(a, b)
  }

  /** One segment changes the distance by one at most. */
  lemma StepDistance(stack: seq<string>, x: string, goal: seq<string>)
    ensures Distance(Step(true, stack, x), goal) >= Distance(stack, goal) - 1
  {
    hide CommonPrefix;
    var next := Step(true, stack, x);
    if next == stack + [x] {
      PrefixOfSnoc(stack, x, goal);
    } else if next != stack {
      var n := |stack| - 1;
      assert stack == stack[..n] + [stack[n]];
      PrefixOfSnoc(stack[..n], stack[n], goal);
    }
  }

  lemma PrefixOfSnoc(stack: seq<string>, x: string, goal: seq<string>)
    ensures CommonPrefix(stack, goal) <= CommonPrefix(stack + [x], goal) <= CommonPrefix(stack, goal) + 1
    ensures CommonPrefix(stack + [x], goal) > CommonPrefix(stack, goal) ==> CommonPrefix(stack, goal) == |stack|
  {
    hide CommonPrefix;
    var k, more := CommonPrefix(stack, goal), stack + [x];
    assert more[..k] == stack[..k];
    if k < |stack| {
      assert more[k] == stack[k];
      CommonPrefixIs(more, goal, k);
    } else if k < |goal| && goal[k] == x {
      assert more[..k + 1] == stack[..k] + [x] == goal[..k] + [goal[k]] == goal[..k + 1];
      CommonPrefixIs(more, goal, k + 1);
    } else {
      CommonPrefixIs(more, goal, k);
    }
  }

  lemma {:induction false} WayCovers(stack: seq<string>, way: seq<string>, goal: seq<string>)
    requires Run(true, stack, way) == goal
    ensures |way| >= Distance(stack, goal)
    decreases |way|
  {
    hide CommonPrefix, Step;
    if way == [] {
      assert goal[..|goal|] == goal;
      CommonPrefixIs(stack, goal, |goal|);
    } else {
      StepDistance(stack, way[0], goal);
      WayCovers(Step(true, stack, way[0]), way[1..], goal);
    }
  }

  /** No list of segments that leads from one directory to the other is shorter. */
  lemma RelativeIsShortest(path: seq<string>, cwd: seq<string>, way: seq<string>)
    requires Run(true, cwd, way) == path
    ensures |RelativeSegments(path, cwd)| <= |way|
  {
    hide CommonPrefix, Run;
    WayCovers(cwd, way, path);
    var k := CommonPrefix(cwd, path);
    CommonPrefixIs(path, cwd, k);
  }

  lemma {:induction false} RunDotDots(stack: seq<string>, n: nat)
    requires Names(stack) && n <= |stack|
    ensures Run(true, stack, DotDots(n)) == stack[..|stack| - n]
  {
    if n > 0 {
      var up := stack[..|stack| - 1];
      assert Step(true, stack, "..") == up;
      RunDotDots(up, n - 1);
      assert DotDots(n)[1..] == DotDots(n - 1);
      assert up[..|up| - (n - 1)] == stack[..|stack| - n];
    }
  }

  lemma RelativeCanonical(names: seq<string>, n: nat)
    requires Names(names)
    ensures Canonical(false, DotDots(n) + names)
  {
  }

  /** Following it from `cwd` leads to `path`. */
  lemma RelativeLeadsBack(path: seq<string>, cwd: seq<string>)
    requires Names(path) && Names(cwd)
    ensures Canonical(false, RelativeSegments(path, cwd))
    ensures Run(true, cwd, RelativeSegments(path, cwd)) == path
  {
    hide Canonical, IsName, Names, Run, DotDots, CommonPrefix;
    var k := CommonPrefix(path, cwd);
    var up, down := DotDots(|cwd| - k), path[k..];
    TailNames(path, k);
    RelativeCanonical(down, |cwd| - k);
    RunAppend(true, cwd, up, down);
    RunDotDots(cwd, |cwd| - k);
    RunNames(true, cwd[..k], down);
    assert path == path[..k] + down;
  }

  lemma TailNames(segs: seq<string>, k: nat)
    requires Names(segs) && k <= |segs|
    ensures Names(segs[k..]) && Names(segs[..k])
  {
  }

  function Up(n: nat): string
    requires n > 0
  {
    Join(DotDots(n))
  }

  lemma {:induction false} JoinText(a: seq<string>, b: seq<string>)
    requires a != []
    ensures Join(a + b) == Join(a) + Text(b)
  {
    RenderText(a);
    RenderText(a + b);
    TextConcat(a, b);
    assert Join(a + b) == Text(a + b)[1..];
    assert Join(a) == Text(a)[1..];
  }
}
