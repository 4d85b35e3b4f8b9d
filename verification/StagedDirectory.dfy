/** The checks that keep a command's outputs inside its input root. */
module StagedDirectory {
  import opened Paths
  import opened PathText
  import opened FileUtils
  import opened PathJoins

  /** Empty, or normalized with a trailing slash; refused when absolute or above the root. */
  function GetWorkingDirectory(workingDirectory: string): (r: Result<string>)
    ensures r.Ok? ==> !IsGlobal(r.value)
  {
    if workingDirectory == "" then Ok("")
    else
      NormalizeIdempotent(workingDirectory);
      var w := Normalize(workingDirectory) + "/";
      if w[0] == '/' then Thrown
      else if "../" <= w then Thrown
      else Ok(w)
  }

  /** A working directory is refused exactly when it is absolute or goes up; what is
      accepted denotes the same segments, relative and with a slash at the end, and
      only the empty one stays empty. */
  lemma WorkingDirectoryIs(workingDirectory: string)
    ensures var r := GetWorkingDirectory(workingDirectory);
            && (r.Thrown? <==> IsGlobal(workingDirectory) || GoesUp(Segments(workingDirectory)))
            && (r.Ok? ==>
                  && !IsGlobal(r.value) && Segments(r.value) == Segments(workingDirectory)
                  && (r.value == "" <==> workingDirectory == "")
                  && (r.value != "" ==> r.value == Render(false, Segments(workingDirectory)) + "/"))
  {
    hide Segments, Normalize, Render;
    if workingDirectory == "" {
      NothingUp();
    } else {
      NormalizeCanonical(workingDirectory);
      var n := Normalize(workingDirectory);
      TrailingSlash(n);
      SlashBehind(n);
      if !IsGlobal(workingDirectory) { GoesUpText(workingDirectory); }
    }
  }

  lemma NothingUp()
    ensures !GoesUp(Segments(""))
  {
    SplitOne("");
    NoOpSegments(false, []);
  }

  lemma SlashBehind(n: string)
    ensures "../" <= n + "/" <==> n == ".." || "../" <= n
  {
    var s := n + "/";
    if "../" <= s {
      assert s[..3] == "../" && s[0] == '.' && s[1] == '.' && s[2] == '/';
      if |n| > 2 { assert n[..3] == s[..3]; }
    }
    if n == ".." { assert s == "../"; }
  }

  predicate InvalidSlashes(path: string) {
    path != "" && (path[0] == '/' || path[|path| - 1] == '/')
  }

  function PathInInputRoot(name: string, workingDirectory: string): Result<string> {
    if InvalidSlashes(name) then Thrown
    else
      var res := Normalize(workingDirectory + name);
      if res == ".." || "../" <= res then Thrown else Ok(res)
  }

  /** The path lies at or below the root, whatever root it is resolved against. */
  predicate Inside(root: string, path: string)
    requires path != ""
  {
    var absolute := MakePathAbsolute(path, root);
    absolute.Ok? && IsGlobal(absolute.value) && Segments(root) <= Segments(absolute.value)
  }

  /** A name is accepted exactly when it neither begins nor ends with a slash
      and, below the working directory, its normal form does not go up. */
  lemma AcceptedIsDownward(name: string, workingDirectory: string)
    requires !IsGlobal(workingDirectory)
    ensures var full := workingDirectory + name;
            && (PathInInputRoot(name, workingDirectory).Ok? ==> !IsGlobal(full))
            && PathInInputRoot(name, workingDirectory)
               == if (name != "" && (name[0] == '/' || name[|name| - 1] == '/')) || GoesUp(Segments(full)) then Thrown
                  else Ok(Normalize(full))
  {
    var full := workingDirectory + name;
    if !InvalidSlashes(name) {
      assert workingDirectory == "" ==> full == name;
      GoesUpText(full);
    }
  }

  /** Segments that do not go up are plain names. */
  lemma {:induction false} DownwardNames(segs: seq<string>)
    requires Canonical(false, segs) && !GoesUp(segs)
    ensures Names(segs)
    decreases |segs|
  {
    if segs != [] {
      var n := |segs| - 1;
      DownwardNames(segs[..n]);
      assert forall i :: 0 <= i < n ==> segs[i] == segs[..n][i];
      if n > 0 { assert IsName(segs[n - 1]); }
    }
  }

  /** Whatever the checks accept resolves to the root itself or beneath it:
      the root's segments followed by the accepted path's own. */
  lemma AcceptedStaysInside(command: string, name: string, root: string)
    requires IsGlobal(root)
    requires GetWorkingDirectory(command).Ok?
    requires PathInInputRoot(name, GetWorkingDirectory(command).value).Ok?
    ensures var path := PathInInputRoot(name, GetWorkingDirectory(command).value).value;
            && path != "" && !IsGlobal(path) && Inside(root, path)
            && MakePathAbsolute(path, root).Ok?
            && Segments(MakePathAbsolute(path, root).value) == Segments(root) + Segments(path)
  {
    hide Segments, Run, Normalize;
    var wd := GetWorkingDirectory(command).value;
    AcceptedIsDownward(name, wd);
    var full := wd + name;
    NormalizeCanonical(full);
    DownwardNames(Segments(full));
    var path := Normalize(full);
    AbsoluteOf(path, root);
    RunNames(true, Segments(root), Segments(path));
  }

  /** A name outside every given list. */
  lemma {:induction false} FreshName(segs: seq<string>) returns (r: string)
    ensures IsName(r) && r !in segs && |r| >= 3 && forall i :: 0 <= i < |segs| ==> |segs[i]| < |r|
  {
    if segs == [] {
      r := "xxx";
    } else {
      var s := FreshName(segs[1..]);
      r := Stretch(s, |segs[0]|);
      forall i | 0 <= i < |segs|
        ensures |segs[i]| < |r|
      {
        assert i > 0 ==> segs[i] == segs[1..][i - 1];
      }
    }
  }

  lemma {:induction false} Stretch(s: string, n: nat) returns (r: string)
    requires IsName(s) && |s| >= 3
    ensures IsName(r) && |r| == |s| + n + 1
    decreases n
  {
    r := s + "x";
    if n > 0 { r := Stretch(r, n - 1); }
  }

  /** Resolving from the root drops leading `..` segments and keeps the rest. */
  lemma {:induction false} RunAtRoot(segs: seq<string>)
    requires Canonical(false, segs)
    ensures forall x :: x in Run(true, [], segs) ==> x in segs
    decreases |segs|
  {
    if GoesUp(segs) {
      assert Canonical(false, segs[1..]);
      RunAtRoot(segs[1..]);
    } else {
      DownwardNames(segs);
      RunNames(true, [], segs);
    }
  }

  /** What is refused begins or ends with a slash or does leave some root: the
      check rejects no other name that would stay inside every root. */
  lemma RefusedLeavesSomeRoot(name: string, workingDirectory: string)
    requires !IsGlobal(workingDirectory)
    ensures Normalize(workingDirectory + name) != ""
    ensures PathInInputRoot(name, workingDirectory).Thrown?
            <==> || InvalidSlashes(name)
                 || exists root :: IsGlobal(root) && !Inside(root, Normalize(workingDirectory + name))
  {
    hide Segments, Run, Normalize, Inside;
    var full := workingDirectory + name;
    AcceptedIsDownward(name, workingDirectory);
    NormalizeCanonical(full);
    if InvalidSlashes(name) {
      return;
    }
    if GoesUp(Segments(full)) {
      var root := UpLeaves(Normalize(full));
    } else {
      forall root | IsGlobal(root)
        ensures Inside(root, Normalize(full))
      {
        DownStays(Normalize(full), root);
      }
    }
  }

  lemma DownStays(path: string, root: string)
    requires path != "" && !IsGlobal(path) && IsGlobal(root)
    requires Canonical(false, Segments(path)) && !GoesUp(Segments(path))
    ensures Inside(root, path)
  {
    hide Segments, Run;
    DownwardNames(Segments(path));
    AbsoluteOf(path, root);
    RunNames(true, Segments(root), Segments(path));
  }

  lemma UpLeaves(path: string) returns (root: string)
    requires path != "" && !IsGlobal(path) && Canonical(false, Segments(path)) && GoesUp(Segments(path))
    ensures IsGlobal(root) && !Inside(root, path)
  {
    hide Segments;
    var segs := Segments(path);
    var r := FreshName(segs);
    root := Render(true, [r]);
    SegmentsRender(true, [r]);
    AbsoluteOf(path, root);
    assert Run(true, [r], segs) == Run(true, [], segs[1..]);
    assert Canonical(false, segs[1..]);
    RunAtRoot(segs[1..]);
    var out := Run(true, [], segs[1..]);
    assert out != [] ==> out[0] in segs[1..];
  }
}
