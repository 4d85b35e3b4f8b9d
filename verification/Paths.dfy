/** Slash-separated path strings, their segments, and the canonical form that
    path normalization produces. Strings contain no NUL, as in the source,
    where they pass through `c_str()`. */
module Paths {

  /** Index of the first slash, or the length if there is none. */
  function FindSlash(s: string): (i: nat)
    ensures i <= |s|
    ensures forall j :: 0 <= j < i ==> s[j] != '/'
    ensures i < |s| ==> s[i] == '/'
  {
    if s == "" || s[0] == '/' then 0 else 1 + FindSlash(s[1..])
  }

  predicate NoSlash(s: string) {
    '/' !in s
  }

  function Split(s: string): (segs: seq<string>)
    ensures segs != [] && forall i :: 0 <= i < |segs| ==> NoSlash(segs[i])
  {
    var i := FindSlash(s);
    if i == |s| then [s] else [s[..i]] + Split(s[i + 1..])
  }

  function Join(segs: seq<string>): string
    requires segs != []
  {
    if |segs| == 1 then segs[0] else segs[0] + "/" + Join(segs[1..])
  }

  lemma {:induction false} JoinSnoc(segs: seq<string>, x: string)
    requires segs != []
    ensures Join(segs + [x]) == Join(segs) + "/" + x
    ensures segs[0] != "" ==> Join(segs) != ""
  {
    if |segs| == 1 {
      assert (segs + [x])[1..] == [x];
    } else {
      assert (segs + [x])[1..] == segs[1..] + [x];
      JoinSnoc(segs[1..], x);
    }
  }

  lemma FindSlashIs(s: string, i: nat)
    requires i <= |s| && NoSlash(s[..i]) && (i < |s| ==> s[i] == '/')
    ensures FindSlash(s) == i
  {
  }

  lemma {:induction false} SplitConcat(a: string, b: string)
    ensures Split(a + "/" + b) == Split(a) + Split(b)
    decreases |a|
  {
    var i := FindSlash(a);
    CutThere(a, b, i);
    FindSlashIs(a + "/" + b, i);
    if i < |a| {
      SplitConcat(a[i + 1..], b);
      assert [a[..i]] + (Split(a[i + 1..]) + Split(b)) == [a[..i]] + Split(a[i + 1..]) + Split(b);
    } else {
      assert a[..i] == a;
    }
  }

  lemma CutThere(a: string, b: string, i: nat)
    requires i <= |a|
    ensures var s := a + "/" + b;
            && s[..i] == a[..i] && s[i] == (if i == |a| then '/' else a[i])
            && s[i + 1..] == if i == |a| then b else a[i + 1..] + "/" + b
  {
  }

  lemma {:induction false} SplitJoin(segs: seq<string>)
    requires segs != [] && forall i :: 0 <= i < |segs| ==> NoSlash(segs[i])
    ensures Split(Join(segs)) == segs
  {
    SplitOne(segs[0]);
    if |segs| > 1 {
      SplitJoin(segs[1..]);
      SplitConcat(segs[0], Join(segs[1..]));
    }
  }

  lemma {:induction false} JoinSplit(s: string)
    ensures Join(Split(s)) == s
    decreases |s|
  {
    var i := FindSlash(s);
    if i < |s| {
      JoinSplit(s[i + 1..]);
      assert Split(s)[1..] == Split(s[i + 1..]);
      assert s == s[..i] + "/" + s[i + 1..];
    } else {
      assert s[..i] == s;
    }
  }

  lemma SplitOne(s: string)
    requires NoSlash(s)
    ensures Split(s) == [s]
  {
    assert s[..|s|] == s;
    FindSlashIs(s, |s|);
  }

  /** One segment of the normalization loop. */
  function Step(global: bool, stack: seq<string>, seg: string): seq<string> {
    if seg == ".." && stack != [] && stack[|stack| - 1] != ".." then stack[..|stack| - 1]
    else if global && seg == ".." && stack == [] then stack
    else if seg != "." && seg != "" then stack + [seg]
    else stack
  }

  function Run(global: bool, stack: seq<string>, segs: seq<string>): seq<string>
    decreases |segs|
  {
    if segs == [] then stack else Run(global, Step(global, stack, segs[0]), segs[1..])
  }

  predicate IsGlobal(path: string) {
    path != "" && path[0] == '/'
  }

  /** What a path denotes: the segments left after resolving `.`, `..` and empty ones. */
  function Segments(path: string): seq<string> {
    Run(IsGlobal(path), [], Split(path))
  }

  function Render(global: bool, segs: seq<string>): (s: string)
    ensures s == "" ==> segs != []
  {
    if segs == [] then (if global then "/" else ".")
    else (if global then "/" else "") + Join(segs)
  }

  function Normalize(path: string): string {
    Render(IsGlobal(path), Segments(path))
  }

  /** A plain directory or file name. */
  predicate IsName(s: string) {
    NoSlash(s) && s != "" && s != "." && s != ".."
  }

  /** Canonical segments: names, with `..` only as a leading run of a relative path. */
  predicate Canonical(global: bool, segs: seq<string>) {
    && (forall i :: 0 <= i < |segs| ==> IsName(segs[i]) || (segs[i] == ".." && !global))
    && (forall i :: 0 < i < |segs| && segs[i] == ".." ==> segs[i - 1] == "..")
  }

  lemma {:induction false} RunAppend(global: bool, stack: seq<string>, a: seq<string>, b: seq<string>)
    ensures Run(global, stack, a + b) == Run(global, Run(global, stack, a), b)
    decreases |a|
  {
    if a == [] {
      assert a + b == b;
    } else {
      assert (a + b)[1..] == a[1..] + b;
      RunAppend(global, Step(global, stack, a[0]), a[1..], b);
    }
  }

  lemma RunSnoc(global: bool, stack: seq<string>, a: seq<string>, x: string)
    ensures Run(global, stack, a + [x]) == Step(global, Run(global, stack, a), x)
  {
    RunAppend(global, stack, a, [x]);
  }

  lemma {:induction false} RunCanonical(global: bool, stack: seq<string>, segs: seq<string>)
    requires Canonical(global, stack) && forall i :: 0 <= i < |segs| ==> NoSlash(segs[i])
    ensures Canonical(global, Run(global, stack, segs))
    decreases |segs|
  {
    if segs != [] {
      var next := Step(global, stack, segs[0]);
      assert Canonical(global, next);
      RunCanonical(global, next, segs[1..]);
    }
  }

  /** Every normal form is canonical. */
  lemma SegmentsCanonical(path: string)
    ensures Canonical(IsGlobal(path), Segments(path))
  {
    RunCanonical(IsGlobal(path), [], Split(path));
  }

  /** Running over canonical segments from an empty stack keeps them. */
  lemma {:induction false} RunFixed(global: bool, segs: seq<string>)
    requires Canonical(global, segs)
    ensures Run(global, [], segs) == segs
    decreases |segs|
  {
    if segs != [] {
      var n := |segs| - 1;
      var init := segs[..n];
      assert segs == init + [segs[n]];
      RunFixed(global, init);
      RunSnoc(global, [], init, segs[n]);
    }
  }

  /** Running over plain names pushes them all. */
  lemma {:induction false} RunNames(global: bool, stack: seq<string>, names: seq<string>)
    requires forall i :: 0 <= i < |names| ==> IsName(names[i])
    ensures Run(global, stack, names) == stack + names
    decreases |names|
  {
    if names != [] {
      RunNames(global, stack + [names[0]], names[1..]);
      assert stack + [names[0]] + names[1..] == stack + names;
    } else {
      assert stack + names == stack;
    }
  }

  lemma NoOpSegments(global: bool, stack: seq<string>)
    ensures Run(global, stack, [""]) == stack && Run(global, stack, ["."]) == stack && Run(global, stack, []) == stack
  {
    assert [""][1..] == [] && ["."][1..] == [];
  }

  /** A leading slash is one empty segment. */
  lemma SplitLeadingSlash(s: string)
    ensures Split("/" + s) == [""] + Split(s)
  {
    hide Split;
    assert "" + "/" + s == "/" + s;
    SplitConcat("", s);
    SplitOne("");
  }

  /** Splitting a rendered canonical path and running over it, from any stack. */
  lemma RunRendered(global: bool, inner: bool, stack: seq<string>, segs: seq<string>)
    requires Canonical(inner, segs)
    ensures Run(global, stack, Split(Render(inner, segs))) == Run(global, stack, segs)
  {
    hide Split, Run, Join;
    NoOpSegments(global, stack);
    var body := if segs == [] then (if inner then "" else ".") else Join(segs);
    if segs == [] { SplitOne(body); } else { SplitJoin(segs); }
    if inner {
      SplitLeadingSlash(body);
      RunAppend(global, stack, [""], Split(body));
      assert Render(inner, segs) == "/" + body;
    } else {
      assert Render(inner, segs) == body;
    }
  }

  lemma {:induction false} RenderGlobal(global: bool, segs: seq<string>)
    requires Canonical(global, segs)
    ensures IsGlobal(Render(global, segs)) == global
  {
    if segs != [] {
      assert segs[0] != "" && NoSlash(segs[0]);
      assert Join(segs)[0] == segs[0][0];
    }
  }

  /** A rendered canonical path denotes the segments it was rendered from. */
  lemma SegmentsRender(global: bool, segs: seq<string>)
    requires Canonical(global, segs)
    ensures IsGlobal(Render(global, segs)) == global && Segments(Render(global, segs)) == segs
  {
    RenderGlobal(global, segs);
    RunRendered(global, global, [], segs);
    RunFixed(global, segs);
  }

  /** Normalization denotes what it is given and is idempotent. */
  lemma NormalizeIdempotent(path: string)
    ensures Normalize(path) != ""
    ensures IsGlobal(Normalize(path)) == IsGlobal(path) && Segments(Normalize(path)) == Segments(path)
    ensures Normalize(Normalize(path)) == Normalize(path)
  {
    SegmentsCanonical(path);
    SegmentsRender(IsGlobal(path), Segments(path));
    assert Segments(path) != [] ==> Segments(path)[0] != "";
  }

  /** Normalizing a relative path first changes nothing for the path it is appended to. */
  lemma {:induction false} RunRelative(global: bool, stack: seq<string>, done: seq<string>, segs: seq<string>)
    requires Canonical(false, done)
    requires forall i :: 0 <= i < |segs| ==> NoSlash(segs[i])
    ensures Run(global, stack, Run(false, done, segs)) == Run(global, Run(global, stack, done), segs)
    decreases |segs|
  {
    if segs != [] {
      var x := segs[0];
      RunCanonical(false, done, [x]);
      RunRelative(global, stack, Step(false, done, x), segs[1..]);
      StepRelative(global, stack, done, x);
    }
  }

  lemma StepRelative(global: bool, stack: seq<string>, done: seq<string>, x: string)
    requires Canonical(false, done)
    ensures Run(global, stack, Step(false, done, x)) == Step(global, Run(global, stack, done), x)
  {
    hide Run;
    if x == ".." && done != [] && done[|done| - 1] != ".." {
      hide Canonical;
      LastName(done);
      var n := |done| - 1;
      RunSnoc(global, stack, done[..n], done[n]);
      UpAfterName(global, Run(global, stack, done[..n]), done[n]);
    } else {
      RunSnoc(global, stack, done, x);
    }
  }

  lemma LastName(done: seq<string>)
    requires Canonical(false, done) && done != [] && done[|done| - 1] != ".."
    ensures var n := |done| - 1; done == done[..n] + [done[n]] && done[n] != "" && done[n] != "."
  {
  }

  lemma UpAfterName(global: bool, stack: seq<string>, name: string)
    requires name != "" && name != "." && name != ".."
    ensures Step(global, Step(global, stack, name), "..") == stack
  {
    assert (stack + [name])[..|stack|] == stack;
  }

  /** Concatenating with a slash concatenates the segments. */
  lemma SegmentsConcat(first: string, second: string)
    requires first != ""
    ensures IsGlobal(first + "/" + second) == IsGlobal(first)
    ensures Segments(first + "/" + second) == Run(IsGlobal(first), Segments(first), Split(second))
  {
    SplitConcat(first, second);
    RunAppend(IsGlobal(first), [], Split(first), Split(second));
  }

  /** For a relative second path, what it denotes is all that matters. */
  lemma SegmentsConcatRelative(first: string, second: string)
    requires first != "" && !IsGlobal(second)
    ensures Segments(first + "/" + second) == Run(IsGlobal(first), Segments(first), Segments(second))
  {
    SegmentsConcat(first, second);
    RunRelative(IsGlobal(first), Segments(first), [], Split(second));
  }
}
