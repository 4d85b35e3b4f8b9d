/** The lexical path operations. */
module FileUtils {
  import opened Paths
  import opened PathText

  /** A value, or one of the exceptions the source throws. */
  datatype Result<+T> = Ok(value: T) | Thrown

  predicate NormalAbsolute(path: string) {
    IsGlobal(path) && Normalize(path) == path
  }

  /** The normalization loop of the source. */
  method NormalizePath(path: string) returns (result: string)
    ensures result == Normalize(path)
  {
    hide Run, Split, NoSlash;
    var global := IsGlobal(path);
    var segments: seq<string> := [];
    var rest := path;
    var ended := false;
    while rest != "" && !ended
      invariant ended ==> segments == Segments(path)
      invariant !ended ==> Run(global, segments, Split(rest)) == Segments(path)
      decreases !ended, |rest|
    {
      var slash := FindSlash(rest);
      var segment := rest[..slash];
      NextSegment(global, segments, rest);
      if segment == ".." && segments != [] && segments[|segments| - 1] != ".." {
        segments := segments[..|segments| - 1];
      } else if global && segment == ".." && segments == [] {
      } else if segment != "." && segment != "" {
        segments := segments + [segment];
      }
      if slash == |rest| {
        ended := true;
      } else {
        rest := rest[slash + 1..];
      }
    }
    if !ended { NothingLeft(global, segments); }
    result := if global then "/" else "";
    if |segments| > 0 {
      var joined := JoinWithSlashes(segments);
      result := result + joined;
    } else if !global {
      result := ".";
    }
  }

  /** One round of the loop: the segment up to the next slash, then the rest. */
  lemma NextSegment(global: bool, segments: seq<string>, rest: string)
    ensures var slash := FindSlash(rest); var next := Step(global, segments, rest[..slash]);
            Run(global, segments, Split(rest))
            == if slash < |rest| then Run(global, next, Split(rest[slash + 1..])) else next
  {
    var slash := FindSlash(rest);
    if slash < |rest| {
      assert Split(rest)[1..] == Split(rest[slash + 1..]);
    } else {
      assert rest[..slash] == rest;
      NoOpSegments(global, Step(global, segments, rest));
      assert Split(rest)[1..] == [];
    }
  }

  lemma NothingLeft(global: bool, segments: seq<string>)
    ensures Run(global, segments, Split("")) == segments
  {
    SplitOne("");
    NoOpSegments(global, segments);
  }

  /** Appends every segment with a slash behind it, then drops the last slash. */
  method JoinWithSlashes(segments: seq<string>) returns (result: string)
    requires segments != []
    ensures result == Join(segments)
  {
    result := "";
    for i := 0 to |segments|
      invariant i > 0 ==> result == Join(segments[..i]) + "/"
      invariant i == 0 ==> result == ""
    {
      if i > 0 { JoinSnoc(segments[..i], segments[i]); }
      assert segments[..i + 1] == segments[..i] + [segments[i]];
      result := result + segments[i] + "/";
    }
    assert segments[..|segments|] == segments;
    result := result[..|result| - 1];
  }

  /** Normal form: canonical segments, the rendering of what it denotes, and stable. */
  lemma NormalizeCanonical(path: string)
    ensures var n := Normalize(path);
            && Canonical(IsGlobal(path), Segments(path))
            && n == Render(IsGlobal(path), Segments(path))
            && n != "" && IsGlobal(n) == IsGlobal(path) && Segments(n) == Segments(path) && Normalize(n) == n
  {
    SegmentsCanonical(path);
    NormalizeIdempotent(path);
  }

  function MakePathAbsolute(path: string, cwd: string): Result<string>
    requires path != ""
  {
    if !IsGlobal(cwd) then Thrown
    else
      var full := if path[0] != '/' then cwd + "/" + path else path;
      NormalizeIdempotent(full);
      var normalized := Normalize(full);
      Ok(if path[|path| - 1] == '/' && normalized[|normalized| - 1] != '/' then normalized + "/" else normalized)
  }

  /** `s[i]`, with the terminator one past the end. */
  function CharAt(s: string, i: nat): char
    requires i <= |s|
  {
    if i < |s| then s[i] else '\0'
  }

  predicate NoNul(s: string) {
    '\0' !in s
  }

  function RelativeText(path: seq<string>, cwd: seq<string>): string {
    Render(false, RelativeSegments(path, cwd)) + (if path == [] then "/" else "")
  }

  /** A working directory in normal form, possibly with a trailing slash. */
  predicate CleanCwd(cwd: string) {
    IsGlobal(cwd) && (Normalize(cwd) == cwd || (Normalize(cwd) != "/" && Normalize(cwd) + "/" == cwd))
  }

  /** The segments of an absolute path as they are written. */
  function RawSegments(path: string): (segs: seq<string>)
    requires IsGlobal(path)
    ensures segs != []
  {
    Split(path[1..])
  }

  function WithoutTrailing(cwd: string): (base: string)
    requires IsGlobal(cwd)
    ensures base == "" || IsGlobal(base)
    ensures cwd == base + (if cwd[|cwd| - 1] == '/' then "/" else "")
  {
    if cwd[|cwd| - 1] == '/' then cwd[..|cwd| - 1] else cwd
  }

  /** The segments of an absolute directory as they are written, a slash at its end aside. */
  function DirSegments(cwd: string): seq<string>
    requires IsGlobal(cwd)
  {
    var base := WithoutTrailing(cwd);
    if base == "" then [] else RawSegments(base)
  }

  /** The way to `path`, segment by segment as written, from a directory with
      these segments; `slash` says whether the directory ended in one. */
  function RelativeWay(path: seq<string>, cwd: seq<string>, slash: bool): string {
    var k := CommonPrefix(path, cwd);
    var rest := path[k..];
    if k < |cwd| then Up(|cwd| - k) + Text(rest)
    else if rest == [] then "."
    else if rest == [""] || (slash && rest == ["", ""]) then "./"
    else Join(rest)
  }

  /** What the matching loop returns when `cwd` turns out to be a prefix of `path`. */
  predicate EarlyResult(path: string, cwd: string, result: string) {
    && cwd <= path && cwd != ""
    && (|path| > |cwd| && cwd[|cwd| - 1] != '/' ==> path[|cwd|] == '/')
    && result ==
       if |path| == |cwd| then (if cwd[|cwd| - 1] == '/' then "./" else ".")
       else if |path| == |cwd| + 1 && path[|cwd|] == '/' then "./"
       else if cwd[|cwd| - 1] == '/' then path[|cwd|..]
       else path[|cwd| + 1..]
  }

  /** Where the two part: they agree before `i`, differ or end at `i`, and
      `last` is the last slash before it. */
  predicate Diverge(path: string, cwd: string, i: nat, last: nat) {
    && last < i <= |path| && i <= |cwd| && path[..i] == cwd[..i]
    && path[last] == '/' && NoSlash(path[last + 1..i])
    && (i < |path| && i < |cwd| ==> path[i] != cwd[i])
    && (i == |cwd| ==> i < |path| && path[i] != '/')
  }

  method MatchPrefix(path: string, cwd: string) returns (done: bool, result: string, i: nat, last: nat)
    requires IsGlobal(path) && IsGlobal(cwd) && NoNul(path)
    ensures done ==> EarlyResult(path, cwd, result)
    ensures !done ==> Diverge(path, cwd, i, last) && (i == |cwd| ==> cwd[i - 1] != '/')
  {
    hide NoSlash;
    i, last := 0, 0;
    while i < |path| && path[i] == CharAt(cwd, i)
      invariant i <= |path| && i <= |cwd| && path[..i] == cwd[..i]
      invariant i > 0 ==> last < i && path[last] == '/' && NoSlash(path[last + 1..i])
      invariant i == |cwd| ==> i < |path| && cwd[i - 1] != '/' && path[i] != '/'
      decreases |path| - i
    {
      assert path[i] in path;
      MatchOn(path, cwd, i);
      if i + 1 == |cwd| {
        assert cwd[..i + 1] == cwd;
        if |path| == i + 1 {
          return true, if path[i] == '/' then "./" else ".", i, last;
        } else if |path| == i + 2 && path[i + 1] == '/' {
          return true, "./", i, last;
        } else if path[i] == '/' {
          return true, path[i + 1..], i, last;
        } else if path[i + 1] == '/' {
          return true, path[i + 2..], i, last;
        }
      } else if path[i] == '/' {
        last := i;
      }
      NoSlashOn(path, last, i);
      i := i + 1;
    }
    done, result := false, "";
  }

  lemma MatchOn(path: string, cwd: string, i: nat)
    requires i < |path| && i < |cwd| && path[..i] == cwd[..i] && path[i] == cwd[i]
    ensures path[..i + 1] == cwd[..i + 1]
  {
    assert path[..i + 1] == path[..i] + [path[i]] && cwd[..i + 1] == cwd[..i] + [cwd[i]];
  }

  lemma NoSlashOn(path: string, last: nat, i: nat)
    requires last <= i < |path|
    ensures last < i && NoSlash(path[last + 1..i]) && path[i] != '/' ==> NoSlash(path[last + 1..i + 1])
    ensures NoSlash(path[i + 1..i + 1])
  {
    assert last < i ==> path[last + 1..i + 1] == path[last + 1..i] + [path[i]];
  }

  /** How many segments of `cwd` begin after `start`, and the one it is in. A
      slash at the very end begins none. */
  method CountSegments(cwd: string, start: nat) returns (n: nat)
    requires start <= |cwd| && NoNul(cwd)
    ensures n >= 1
    ensures start < |cwd| && cwd[|cwd| - 1] == '/' ==> n == Slashes(cwd[start..])
    ensures !(start < |cwd| && cwd[|cwd| - 1] == '/') ==> n == 1 + Slashes(cwd[start..])
  {
    n := 1;
    var i := start;
    while i < |cwd|
      invariant start <= i <= |cwd| && n >= 1
      invariant i < |cwd| || start == |cwd| || cwd[|cwd| - 1] != '/' ==>
                n + Slashes(cwd[i..]) == 1 + Slashes(cwd[start..])
      invariant i == |cwd| && start < |cwd| && cwd[|cwd| - 1] == '/' ==> n == Slashes(cwd[start..])
    {
      assert cwd[i..][1..] == cwd[i + 1..];
      assert i + 1 < |cwd| ==> cwd[i + 1] in cwd;
      if cwd[i] == '/' && CharAt(cwd, i + 1) != '\0' {
        n := n + 1;
      }
      i := i + 1;
    }
  }

  function Dots(n: nat): (s: string)
    ensures |s| == n && forall i :: 0 <= i < n ==> s[i] == '.'
  {
    seq(n, _ => '.')
  }

  lemma {:induction false} UpIsDots(n: nat, s: string)
    requires n > 0 && |s| == 3 * n - 1
    requires forall i :: 0 <= i < |s| ==> s[i] == if i % 3 == 2 then '/' else '.'
    ensures s == Up(n)
  {
    if n == 1 {
      assert s == ".." && DotDots(1) == [".."];
    } else {
      UpIsDots(n - 1, s[3..]);
      assert s == "../" + s[3..];
      assert DotDots(n)[1..] == DotDots(n - 1);
      assert "../" == ".." + "/";
    }
  }

  /** Replaces the first `last` characters by `n` times `..` with slashes
      between: first all dots, then the slashes one by one. */
  method ReplacePrefix(path: string, last: nat, n: nat) returns (result: string)
    requires last <= |path| && n > 0
    ensures result == Up(n) + path[last..]
  {
    result := Dots(3 * n - 1) + path[last..];
    var j := 0;
    while j < n - 1
      invariant 0 <= j <= n - 1
      invariant |result| == 3 * n - 1 + |path| - last && result[3 * n - 1..] == path[last..]
      invariant forall i :: 0 <= i < 3 * n - 1 ==> result[i] == if i % 3 == 2 && i < 3 * j then '/' else '.'
    {
      result := result[3 * j + 2 := '/'];
      j := j + 1;
    }
    UpIsDots(n, result[..3 * n - 1]);
    assert result == result[..3 * n - 1] + result[3 * n - 1..];
  }

  /** Between any two absolute paths the result is exactly the way along the
      segments as they are written; from a clean working directory these are what
      it denotes, and between normalized absolute paths the result is the shortest
      relative path. Anything but an absolute path comes back unmodified. */
  method MakePathRelative(path: string, cwd: string) returns (r: Result<string>)
    requires NoNul(path) && NoNul(cwd)
    ensures cwd == "" || !IsGlobal(path) ==> r == Ok(path)
    ensures r.Thrown? <==> cwd != "" && IsGlobal(path) && !IsGlobal(cwd)
    ensures IsGlobal(path) && IsGlobal(cwd) ==>
              r == Ok(RelativeWay(RawSegments(path), DirSegments(cwd), cwd[|cwd| - 1] == '/'))
    ensures CleanCwd(cwd) ==> DirSegments(cwd) == Segments(cwd)
    ensures NormalAbsolute(path) && NormalAbsolute(cwd) ==> r == Ok(RelativeText(Segments(path), Segments(cwd)))
  {
    hide Segments, Normalize, RelativeText, RelativeWay, RawSegments, DirSegments, CleanCwd;
    CleanSegments(cwd);
    if cwd == "" || path == "" || path[0] != '/' {
      return Ok(path);
    }
    if cwd[0] != '/' {
      return Thrown;
    }
    if NormalAbsolute(path) && NormalAbsolute(cwd) { NormalWay(path, cwd); }
    var done, result, pathIndex, last := MatchPrefix(path, cwd);
    if done {
      EarlyIsWay(path, cwd, result);
      return Ok(result);
    }
    if pathIndex == |path| && CharAt(cwd, pathIndex) == '/' {
      if pathIndex + 1 == |cwd| {
        SameIsWay(path, cwd);
        return Ok(".");
      }
      last := pathIndex;
      pathIndex := pathIndex + 1;
    }
    var dotdotsNeeded := CountSegments(cwd, pathIndex);
    result := ReplacePrefix(path, last, dotdotsNeeded);
    PartedIsWay(path, cwd, pathIndex, last, dotdotsNeeded);
    r := Ok(result);
  }

  /** A clean working directory is written with the segments it denotes. */
  lemma CleanSegments(cwd: string)
    ensures CleanCwd(cwd) ==> IsGlobal(cwd) && DirSegments(cwd) == Segments(cwd)
  {
    hide Segments, Normalize, RawSegments;
    if CleanCwd(cwd) {
      CleanText(cwd);
      DirIsText(cwd);
      SameButEnd(Text(DirSegments(cwd)), Text(Segments(cwd)), if cwd[|cwd| - 1] == '/' then "/" else "");
      TextInjective(DirSegments(cwd), Segments(cwd));
    }
  }

  lemma SameButEnd(a: string, b: string, end: string)
    requires a + end == b + end
    ensures a == b
  {
    assert a == (a + end)[..|a + end| - |end|] && b == (b + end)[..|b + end| - |end|];
  }

  /** An absolute working directory is the text of its segments, or that with a slash behind it. */
  lemma DirIsText(cwd: string)
    requires IsGlobal(cwd)
    ensures Parts(DirSegments(cwd))
    ensures cwd == Text(DirSegments(cwd)) + (if cwd[|cwd| - 1] == '/' then "/" else "")
  {
    hide RawSegments;
    var base := WithoutTrailing(cwd);
    TextNone();
    if base != "" { RawText(base); }
  }

  /** The text behind an absolute path. */
  lemma RawText(path: string)
    requires IsGlobal(path)
    ensures Parts(RawSegments(path)) && path == Text(RawSegments(path))
  {
    var segs := RawSegments(path);
    JoinSplit(path[1..]);
    RenderText(segs);
    assert path == "/" + path[1..];
  }

  /** `cwd` is the text of its segments, or that with a slash behind it. */
  lemma CleanText(cwd: string)
    requires CleanCwd(cwd)
    ensures var c := Segments(cwd);
            && Names(c) && Parts(c) && cwd != ""
            && cwd == Text(c) + (if cwd[|cwd| - 1] == '/' then "/" else "")
            && (c != [] ==> |Text(c)| >= 2 && Text(c)[|Text(c)| - 1] != '/')
  {
    hide Segments, Normalize;
    var n := Normalize(cwd);
    NormalizeCanonical(cwd);
    TrailingSlash(n);
    AbsoluteText(n);
    var c := Segments(cwd);
    NamesAreParts(c);
    if c != [] { TextEnd(c); }
  }

  lemma AbsoluteText(path: string)
    requires NormalAbsolute(path)
    ensures Names(Segments(path))
    ensures path == if Segments(path) == [] then "/" else Text(Segments(path))
  {
    SegmentsCanonical(path);
    if Segments(path) != [] { RenderText(Segments(path)); }
  }

  lemma EarlyIsWay(path: string, cwd: string, result: string)
    requires IsGlobal(path) && IsGlobal(cwd) && EarlyResult(path, cwd, result)
    ensures result == RelativeWay(RawSegments(path), DirSegments(cwd), cwd[|cwd| - 1] == '/')
  {
    hide RelativeWay, RawSegments, DirSegments;
    RawText(path);
    DirIsText(cwd);
    EarlyParts(path, cwd, result, RawSegments(path), DirSegments(cwd));
  }

  lemma EarlyParts(path: string, cwd: string, result: string, p: seq<string>, c: seq<string>)
    requires cwd != "" && EarlyResult(path, cwd, result)
    requires Parts(p) && p != [] && Parts(c) && path == Text(p)
    requires cwd == Text(c) + (if cwd[|cwd| - 1] == '/' then "/" else "")
    ensures result == RelativeWay(p, c, cwd[|cwd| - 1] == '/')
  {
    hide Join, Text, CommonPrefix, Parts;
    var n := |Text(c)|;
    assert path[..|cwd|] == cwd;
    if n < |path| {
      assert path[n] == '/' by {
        if cwd[|cwd| - 1] == '/' { assert path[..|cwd|][n] == cwd[n]; }
      }
      var k := SlashBoundary(p, n);
      PartsOf(p, k);
      assert path[..n] == cwd[..n] == Text(c);
      TextInjective(p[..k], c);
      RestIsWay(p, c, path[n..], cwd[|cwd| - 1] == '/', result);
    } else {
      assert path == Text(c);
      TextInjective(p, c);
      CommonPrefixIs(p, c, |c|);
    }
  }

  lemma PartsOf(segs: seq<string>, k: nat)
    requires Parts(segs) && k <= |segs|
    ensures Parts(segs[..k]) && Parts(segs[k..])
  {
  }

  /** What is left of the path below a prefix of it. */
  lemma RestIsWay(p: seq<string>, c: seq<string>, tail: string, slash: bool, result: string)
    requires Parts(p) && c <= p && tail == Text(p[|c|..]) && tail != ""
    requires result == if tail == "/" || (slash && tail == "//") then "./" else tail[1..]
    ensures result == RelativeWay(p, c, slash)
  {
    hide CommonPrefix, Join, Parts;
    CommonPrefixIs(p, c, |c|);
    var rest := p[|c|..];
    PartsOf(p, |c|);
    RenderText(rest);
    ShortTexts();
    if tail == "/" { TextInjective(rest, [""]); }
    if tail == "//" { TextInjective(rest, ["", ""]); }
  }

  lemma ShortTexts()
    ensures Text([""]) == "/" && Text(["", ""]) == "//" && Parts([""]) && Parts(["", ""])
  {
    assert [""][1..] == [] && ["", ""][1..] == [""];
  }

  /** The working directory with a trailing slash, and the path without. */
  lemma SameIsWay(path: string, cwd: string)
    requires IsGlobal(path) && IsGlobal(cwd) && cwd == path + "/"
    ensures RelativeWay(RawSegments(path), DirSegments(cwd), cwd[|cwd| - 1] == '/') == "."
  {
    hide RawSegments, DirSegments;
    RawText(path);
    DirIsText(cwd);
    var p, c := RawSegments(path), DirSegments(cwd);
    assert path == Text(c) by { assert cwd[..|cwd| - 1] == path; }
    TextInjective(p, c);
    CommonPrefixIs(p, c, |c|);
  }

  /** After the loop: either the two part within the segment after `last`, or
      `path` ends at `last` and `cwd` goes on below it. */
  predicate Parted(path: string, cwd: string, i: nat, last: nat) {
    || (Diverge(path, cwd, i, last) && (i == |path| && i < |cwd| ==> cwd[i] != '/'))
    || (i == last + 1 <= |cwd| && last == |path| && path != "" && path <= cwd && cwd[last] == '/')
  }

  lemma PartedIsWay(path: string, cwd: string, i: nat, last: nat, n: nat)
    requires IsGlobal(path) && IsGlobal(cwd) && Parted(path, cwd, i, last) && cwd != path + "/"
    requires n > 0 && (i == |cwd| ==> cwd[i - 1] != '/')
    requires i < |cwd| && cwd[|cwd| - 1] == '/' ==> n == Slashes(cwd[i..])
    requires !(i < |cwd| && cwd[|cwd| - 1] == '/') ==> n == 1 + Slashes(cwd[i..])
    ensures Up(n) + path[last..] == RelativeWay(RawSegments(path), DirSegments(cwd), cwd[|cwd| - 1] == '/')
  {
    hide RelativeWay, RawSegments, DirSegments, Slashes, Text;
    RawText(path);
    DirIsText(cwd);
    var c := DirSegments(cwd);
    WithoutSlash(path, cwd, Text(c), i, last, n, c);
    PartedFromText(RawSegments(path), c, path, Text(c), i, last, n, cwd[|cwd| - 1] == '/');
  }

  /** A trailing slash of `cwd` plays no part where the two part. */
  lemma WithoutSlash(path: string, cwd: string, base: string, i: nat, last: nat, n: nat, c: seq<string>)
    requires IsGlobal(path) && Parted(path, cwd, i, last) && cwd != path + "/"
    requires cwd != "" && cwd == base + (if cwd[|cwd| - 1] == '/' then "/" else "")
    requires base == Text(c) && (i == |cwd| ==> cwd[i - 1] != '/')
    requires i < |cwd| && cwd[|cwd| - 1] == '/' ==> n == Slashes(cwd[i..])
    requires !(i < |cwd| && cwd[|cwd| - 1] == '/') ==> n == 1 + Slashes(cwd[i..])
    ensures c != [] && Parted(path, base, i, last) && i <= |base| && n == 1 + Slashes(base[i..])
  {
    hide Text;
    assert c == [] ==> base == "" by { TextNone(); }
    if cwd != base {
      assert forall j :: 0 <= j < |base| ==> cwd[j] == base[j];
      if i <= |base| {
        assert cwd[i..] == base[i..] + "/";
        SlashesConcat(base[i..], "/");
        OneSlash();
        assert cwd[..i] == base[..i];
      }
    }
  }

  lemma OneSlash()
    ensures Slashes("/") == 1
  {
  }

  lemma TextNone()
    ensures Text([]) == ""
  {
  }

  lemma PartedFromText(p: seq<string>, c: seq<string>, path: string, base: string, i: nat, last: nat, n: nat,
                       slash: bool)
    requires Parts(p) && p != [] && Parts(c) && c != [] && Parted(path, base, i, last)
    requires path == Text(p) && base == Text(c)
    requires n > 0 && n == 1 + Slashes(base[i..])
    ensures Up(n) + path[last..] == RelativeWay(p, c, slash)
  {
    hide Slashes, CommonPrefix, Up, IsName, NoSlash, Parts, Text;
    PartedPrefix(path, base, i, last);
    var k := SlashBoundary(c, last);
    TailCount(path, base, i, last);
    PartsOf(c, k);
    SlashesText(c[k..]);
    AlignPath(p, c, path, base, i, last, k);
    CommonPrefixIs(p, c, k);
  }

  lemma PartedPrefix(path: string, cwd: string, i: nat, last: nat)
    requires Parted(path, cwd, i, last)
    ensures last <= |path| && last < |cwd| && path[..last] == cwd[..last] && cwd[last] == '/'
  {
    if last < |path| { assert path[..i][last] == cwd[..i][last] && path[..i][..last] == cwd[..i][..last]; }
  }

  /** `last` cuts both paths after the same `k` segments, and after it they differ. */
  lemma AlignPath(p: seq<string>, c: seq<string>, path: string, cwd: string, i: nat, last: nat, k: nat)
    requires Parts(p) && p != [] && Parts(c) && Parted(path, cwd, i, last)
    requires path == Text(p) && cwd == Text(c)
    requires last < |cwd| && path[..last] == cwd[..last] && last <= |path|
    requires k < |c| && cwd[..last] == Text(c[..k]) && cwd[last..] == Text(c[k..])
    ensures k <= |p| && p[..k] == c[..k] && (k < |p| ==> p[k] != c[k])
    ensures path[last..] == Text(p[k..])
  {
    hide Parts, NoSlash, Slashes, Text;
    PartsOf(c, k);
    if last == |path| {
      assert path[..last] == path;
      TextInjective(c[..k], p);
      TextNone();
      assert p[k..] == [];
    } else {
      assert path[last] == '/';
      var k2 := SlashBoundary(p, last);
      PartsOf(p, k2);
      TextInjective(p[..k2], c[..k]);
      PartAt(path, cwd, i, last, p[k..], c[k..]);
    }
  }

  /** The last matched slash and the unmatched rest hold all the slashes from there on. */
  lemma TailCount(path: string, cwd: string, i: nat, last: nat)
    requires Parted(path, cwd, i, last) && cwd[last] == '/'
    ensures Slashes(cwd[last..]) == 1 + Slashes(cwd[i..])
  {
    assert NoSlash(cwd[last + 1..i]) by {
      if last < |path| {
        assert path[..i][last + 1..i] == cwd[..i][last + 1..i];
        assert path[..i][last + 1..i] == path[last + 1..i] && cwd[..i][last + 1..i] == cwd[last + 1..i];
      }
    }
    SlashesNone(cwd[last + 1..i]);
    SlashesConcat(cwd[last + 1..i], cwd[i..]);
    assert cwd[last..][1..] == cwd[last + 1..i] + cwd[i..];
  }

  /** The segments after `last` differ. */
  lemma PartAt(path: string, cwd: string, i: nat, last: nat, p: seq<string>, c: seq<string>)
    requires Parted(path, cwd, i, last) && last < |path|
    requires Parts(p) && Parts(c) && p != [] && c != []
    requires path[last..] == Text(p) && cwd[last..] == Text(c)
    ensures p[0] != c[0]
  {
    RestBegins(p);
    RestBegins(c);
    SuffixAt(path, last);
    SuffixAt(cwd, last);
    NoSlashAt(path, last + 1, i);
    if p[0] == c[0] { SameHead(p, c); }
  }

  lemma SameHead(p: seq<string>, c: seq<string>)
    requires p != [] && c != [] && p[0] == c[0]
    ensures |Text(p)| > |p[0]| && |Text(c)| > |p[0]|
    ensures forall j :: 0 <= j < 1 + |p[0]| ==> Text(p)[j] == Text(c)[j]
  {
  }

  lemma SuffixAt(s: string, k: nat)
    requires k <= |s|
    ensures forall j {:trigger s[j]} :: k <= j < |s| ==> s[j] == s[k..][j - k]
    ensures forall j {:trigger s[k..][j]} :: 0 <= j < |s| - k ==> s[k..][j] == s[k + j]
  {
  }

  lemma NoSlashAt(s: string, from: nat, to: nat)
    requires from <= to <= |s| && NoSlash(s[from..to])
    ensures forall j :: from <= j < to ==> s[j] != '/'
  {
    forall j | from <= j < to
      ensures s[j] != '/'
    {
      assert s[from..to][j - from] in s[from..to];
    }
  }

  lemma RestBegins(segs: seq<string>)
    requires Parts(segs) && segs != []
    ensures var e := 1 + |segs[0]|;
            |Text(segs)| >= e && (|Text(segs)| > e ==> Text(segs)[e] == '/')
  {
    if |segs| > 1 { assert Text(segs[1..])[0] == '/'; } else { assert segs[1..] == []; }
  }

  /** A rendered canonical path ends in a segment, not in a slash. */
  lemma {:induction false} JoinEnd(segs: seq<string>)
    requires segs != [] && forall i :: 0 <= i < |segs| ==> NoSlash(segs[i]) && segs[i] != ""
    ensures Join(segs) != "" && Join(segs)[|Join(segs)| - 1] != '/' && Join(segs)[0] != '/'
  {
    var first := segs[0];
    assert first[0] in first && first[|first| - 1] in first;
    if |segs| > 1 { JoinEnd(segs[1..]); }
  }

  lemma RenderEnd(segs: seq<string>)
    requires Canonical(false, segs)
    ensures var r := Render(false, segs);
            r != "" && r[0] != '/' && r[|r| - 1] != '/'
  {
    if segs != [] { JoinEnd(segs); }
  }

  /** A relative path resolved against an absolute directory. */
  lemma AbsoluteOf(path: string, cwd: string)
    requires path != "" && !IsGlobal(path) && IsGlobal(cwd)
    ensures var r := MakePathAbsolute(path, cwd);
            && r.Ok? && IsGlobal(r.value)
            && Segments(r.value) == Run(true, Segments(cwd), Segments(path))
            && (path[|path| - 1] != '/' ==> r.value == Render(true, Run(true, Segments(cwd), Segments(path))))
  {
    hide Segments, Normalize;
    var full := cwd + "/" + path;
    SegmentsConcatRelative(cwd, path);
    NormalizeCanonical(full);
    var n := Normalize(full);
    assert IsGlobal(full) && IsGlobal(n);
    TrailingSlash(n);
  }

  /** The result, outright: refused exactly when the directory is not absolute;
      otherwise the text of what the path denotes there, with a slash at the end
      if the path has one. */
  lemma AbsoluteIs(path: string, cwd: string)
    requires path != ""
    ensures MakePathAbsolute(path, cwd).Thrown? <==> !IsGlobal(cwd)
    ensures IsGlobal(cwd) ==>
              var segs := if IsGlobal(path) then Segments(path) else Run(true, Segments(cwd), Segments(path));
              && Names(segs)
              && MakePathAbsolute(path, cwd)
                 == Ok(if segs == [] then "/" else Text(segs) + if path[|path| - 1] == '/' then "/" else "")
  {
    hide Segments, Run, Normalize;
    if IsGlobal(cwd) {
      var full := if IsGlobal(path) then path else cwd + "/" + path;
      if !IsGlobal(path) { SegmentsConcatRelative(cwd, path); }
      NormalizeCanonical(full);
      AbsoluteText(Normalize(full));
      if Segments(full) != [] { TextEnd(Segments(full)); }
      assert Text(Segments(full)) + "" == Text(Segments(full));
    }
  }

  lemma TrailingSlash(s: string)
    requires s != ""
    ensures IsGlobal(s + "/") == IsGlobal(s) && Segments(s + "/") == Segments(s)
  {
    hide Run, Split;
    SegmentsConcat(s, "");
    assert s + "/" + "" == s + "/";
    SplitOne("");
    NoOpSegments(IsGlobal(s), Segments(s));
  }

  /** Making a path relative and absolute again gives the path back. */
  lemma RelativeThenAbsolute(path: string, cwd: string)
    requires NormalAbsolute(path) && NormalAbsolute(cwd)
    ensures var r := RelativeText(Segments(path), Segments(cwd));
            r != "" && !IsGlobal(r) && MakePathAbsolute(r, cwd) == Ok(path)
  {
    hide Segments, Run, RelativeSegments, Normalize, Render;
    var p, c := Segments(path), Segments(cwd);
    AbsoluteText(path);
    AbsoluteText(cwd);
    RelativeLeadsBack(p, c);
    var way := RelativeSegments(p, c);
    RenderEnd(way);
    SegmentsRender(false, way);
    var r := Render(false, way);
    if p == [] {
      TrailingSlash(r);
      RootOnly(r + "/", cwd);
    } else {
      assert r + "" == r;
      LeadsTo(path, r, cwd);
    }
  }

  /** A relative text that runs to the segments of a normalized path resolves to that path. */
  lemma LeadsTo(path: string, r: string, cwd: string)
    requires NormalAbsolute(path) && IsGlobal(cwd) && r != "" && !IsGlobal(r) && r[|r| - 1] != '/'
    requires Run(true, Segments(cwd), Segments(r)) == Segments(path)
    ensures MakePathAbsolute(r, cwd) == Ok(path)
  {
    hide Segments, Run, Normalize, Render, MakePathAbsolute;
    AbsoluteOf(r, cwd);
    NormalizeCanonical(path);
  }

  /** Between normalized absolute paths the way as written is the shortest one. */
  lemma NormalWay(path: string, cwd: string)
    requires NormalAbsolute(path) && NormalAbsolute(cwd)
    ensures CleanCwd(cwd)
    ensures RelativeWay(RawSegments(path), Segments(cwd), cwd[|cwd| - 1] == '/')
            == RelativeText(Segments(path), Segments(cwd))
  {
    hide Segments, Normalize, RelativeWay, RelativeText;
    var p, c := Segments(path), Segments(cwd);
    AbsoluteText(path);
    AbsoluteText(cwd);
    if p == [] {
      SplitOne("");
      RootWay(c, cwd[|cwd| - 1] == '/');
    } else {
      RenderText(p);
      assert path[1..] == Join(p);
      NamesAreParts(p);
      SplitJoin(p);
      NamesWay(p, c, cwd[|cwd| - 1] == '/');
    }
  }

  lemma RootWay(c: seq<string>, slash: bool)
    requires Names(c)
    ensures RelativeWay([""], c, slash) == RelativeText([], c)
  {
    hide Join, Up;
    ShortTexts();
    CommonPrefixIs([""], c, 0);
    CommonPrefixIs([], c, 0);
    assert RelativeSegments([], c) == DotDots(|c|);
    assert [""][0..] == [""];
    if c != [] { UpText(|c|); }
  }

  lemma UpText(n: nat)
    requires n > 0
    ensures Up(n) == Join(DotDots(n))
  {
  }

  lemma NamesWay(p: seq<string>, c: seq<string>, slash: bool)
    requires Names(p) && p != [] && Names(c)
    ensures RelativeWay(p, c, slash) == RelativeText(p, c)
  {
    hide Join, CommonPrefix, Text, DotDots;
    var k := CommonPrefix(p, c);
    var rest := p[k..];
    var way := DotDots(|c| - k) + rest;
    if k < |c| {
      JoinText(DotDots(|c| - k), rest);
      assert way != [];
      assert Render(false, way) == Join(way);
    } else {
      assert way == rest;
      assert rest != [] ==> rest[0] == p[k] && IsName(rest[0]);
    }
    assert Render(false, way) + "" == Render(false, way);
  }

  /** Two slashes follow the working directory in the path. */
  predicate BreaksOut(path: string, cwd: string)
    requires cwd != ""
  {
    var slash := cwd[|cwd| - 1] == '/';
    var base := if slash then cwd[..|cwd| - 1] else cwd;
    base + "//" <= path && !(slash && path == base + "//")
  }

  /** For every absolute path and clean working directory: the result is a
      relative path exactly when no two slashes follow the directory in the path,
      and then it leads from the directory to the path. Otherwise the result is
      the rest of the path, an absolute path of its own. */
  lemma WayLeads(path: string, cwd: string)
    requires IsGlobal(path) && CleanCwd(cwd)
    ensures cwd != ""
    ensures var r := RelativeWay(RawSegments(path), Segments(cwd), cwd[|cwd| - 1] == '/');
            && r != ""
            && (IsGlobal(r) <==> BreaksOut(path, cwd))
            && (!IsGlobal(r) ==> MakePathAbsolute(r, cwd) == MakePathAbsolute(path, cwd))
            && (IsGlobal(r) ==> MakePathAbsolute(r, cwd) == MakePathAbsolute(RestBelow(path, cwd), cwd))
  {
    assert IsGlobal(cwd);
    hide Segments, CleanCwd, Normalize, RawSegments, RelativeWay, BreaksOut, Render, MakePathAbsolute, Text;
    CleanText(cwd);
    RawText(path);
    RawRun(path);
    var p, c, slash := RawSegments(path), Segments(cwd), cwd[|cwd| - 1] == '/';
    var r := RelativeWay(p, c, slash);
    WayRuns(p, c, slash);
    WayEnds(p, c, slash);
    WayBreaksOut(path, cwd, p, c);
    if !IsGlobal(r) { SameTarget(path, cwd, r); }
  }

  /** A relative path that runs to the segments of an absolute one and ends as it does. */
  lemma SameTarget(path: string, cwd: string, r: string)
    requires IsGlobal(path) && IsGlobal(cwd) && r != "" && !IsGlobal(r) && (EndsInSlash(r) <==> EndsInSlash(path))
    requires Run(true, Segments(cwd), Split(r)) == Segments(path)
    ensures MakePathAbsolute(r, cwd) == MakePathAbsolute(path, cwd)
  {
    hide Segments, Normalize, Run, Split, Render;
    var full := cwd + "/" + r;
    SegmentsConcat(cwd, r);
    NormalizeCanonical(full);
    NormalizeCanonical(path);
    assert Normalize(full) == Normalize(path);
  }

  /** What follows the working directory and one slash. */
  function RestBelow(path: string, cwd: string): (rest: string)
    requires cwd != "" && IsGlobal(path)
    ensures rest != ""
  {
    var n := |cwd| + if cwd[|cwd| - 1] == '/' then 0 else 1;
    if n < |path| then path[n..] else path
  }

  lemma RawRun(path: string)
    requires IsGlobal(path)
    ensures Segments(path) == Run(true, [], RawSegments(path))
  {
    hide Run, Split;
    assert path == "/" + path[1..];
    SplitLeadingSlash(path[1..]);
    RunAppend(true, [], [""], RawSegments(path));
    NoOpSegments(true, []);
  }

  /** Run from the directory's segments, the way ends at the path's. */
  lemma WayRuns(p: seq<string>, c: seq<string>, slash: bool)
    requires Parts(p) && p != [] && Names(c)
    ensures var r := RelativeWay(p, c, slash);
            r != "" && Run(true, c, Split(r)) == Run(true, [], p)
  {
    hide Run, Split, Join, CommonPrefix, Text, DotDots, IsName;
    var k := CommonPrefix(p, c);
    var rest := p[k..];
    assert p == c[..k] + rest;
    TailNames(c, k);
    RunAppend(true, [], c[..k], rest);
    RunNames(true, [], c[..k]);
    assert [] + c[..k] == c[..k];
    PartsOf(p, k);
    if k < |c| {
      UpRuns(c, |c| - k, rest);
      assert c[..|c| - (|c| - k)] == c[..k];
    } else {
      assert c[..k] == c;
      DownRuns(c, rest);
    }
  }

  lemma DownRuns(c: seq<string>, rest: seq<string>)
    requires Parts(rest)
    ensures Run(true, c, Split(".")) == c && Run(true, c, Split("./")) == c
    ensures Run(true, c, []) == c && Run(true, c, [""]) == c && Run(true, c, ["", ""]) == c
    ensures rest != [] && rest != [""] ==> Join(rest) != "" && Run(true, c, Split(Join(rest))) == Run(true, c, rest)
  {
    hide Run, Split, Join;
    NoOpSegments(true, c);
    DotParts(c);
    if rest != [] {
      SplitJoin(rest);
      JoinNonEmpty(rest);
    }
  }

  /** Up some levels and down along the rest. */
  lemma UpRuns(c: seq<string>, n: nat, rest: seq<string>)
    requires Names(c) && 0 < n <= |c| && Parts(rest)
    ensures var r := Up(n) + Text(rest);
            r != "" && Run(true, c, Split(r)) == Run(true, c[..|c| - n], rest)
  {
    hide Run, Split, Join, Text, DotDots, IsName;
    var up := DotDots(n);
    JoinText(up, rest);
    UpParts(up, rest);
    SplitJoin(up + rest);
    RunAppend(true, c, up, rest);
    RunDotDots(c, n);
    UpEnd(n);
  }

  lemma UpParts(up: seq<string>, rest: seq<string>)
    requires Parts(rest) && forall i :: 0 <= i < |up| ==> up[i] == ".."
    ensures Parts(up + rest)
  {
  }

  lemma DotParts(c: seq<string>)
    ensures Split(".") == ["."] && Split("./") == [".", ""] && Run(true, c, ["."]) == c && Run(true, c, [".", ""]) == c
    ensures Run(true, c, [""]) == c && Run(true, c, ["", ""]) == c
  {
    hide Run, Split;
    SplitOne(".");
    SplitOne("");
    SplitConcat(".", "");
    assert "." + "/" + "" == "./";
    NoOpSegments(true, c);
    RunAppend(true, c, ["."], [""]);
    RunAppend(true, c, [""], [""]);
    assert ["", ""] == [""] + [""] && [".", ""] == ["."] + [""];
  }

  lemma JoinNonEmpty(segs: seq<string>)
    requires segs != []
    ensures Join(segs) == "" <==> segs == [""]
    ensures Join(segs) != "" && Parts(segs) ==> (Join(segs)[0] == '/' <==> segs[0] == "")
  {
    assert |segs| == 1 ==> segs == [segs[0]];
    assert Parts(segs) && segs[0] != "" ==> segs[0][0] in segs[0];
  }

  lemma TextLast(segs: seq<string>)
    requires Parts(segs) && segs != []
    ensures Text(segs) != "" && (Text(segs)[|Text(segs)| - 1] == '/' <==> segs[|segs| - 1] == "")
  {
    var n := |segs| - 1;
    var last := segs[n];
    TextConcat(segs[..n], [last]);
    assert segs == segs[..n] + [last];
    assert [last][1..] == [] && Text([last]) == "/" + last;
    assert last != "" ==> last[|last| - 1] in last;
  }

  predicate EndsInSlash(s: string) {
    s != "" && s[|s| - 1] == '/'
  }

  /** The way ends in a slash when the path does. */
  lemma WayEnds(p: seq<string>, c: seq<string>, slash: bool)
    requires Parts(p) && p != [] && Names(c) && RelativeWay(p, c, slash) != ""
    ensures Text(p) != "" && (EndsInSlash(RelativeWay(p, c, slash)) <==> EndsInSlash(Text(p)))
  {
    hide Join, CommonPrefix, Text, Up, RelativeWay;
    var k := CommonPrefix(p, c);
    TextLast(p);
    PartsOf(p, k);
    RestEnds(p, c, k);
    if k < |c| { UpWayEnds(p, c, slash); } else { DownWayEnds(p, c, slash); }
  }

  /** The rest of the path ends as the path does; without a rest it ends in a name. */
  lemma RestEnds(p: seq<string>, c: seq<string>, k: nat)
    requires Parts(p) && p != [] && Names(c) && k <= |p| && k <= |c| && p[..k] == c[..k]
    ensures EndsInSlash(Text(p)) <==> p[k..] != [] && p[|p| - 1] == ""
    ensures p[k..] != [] ==> (EndsInSlash(Text(p)) <==> EndsInSlash(Text(p[k..])))
  {
    hide Text, Parts, NoSlash, Names;
    TextLast(p);
    PartsOf(p, k);
    if k < |p| {
      TextLast(p[k..]);
      assert p[k..][|p| - k - 1] == p[|p| - 1];
    } else {
      assert p[k - 1] == p[..k][k - 1] == c[..k][k - 1] == c[k - 1];
      NameNotEmpty(c, k - 1);
    }
  }

  lemma NameNotEmpty(segs: seq<string>, i: nat)
    requires Names(segs) && i < |segs|
    ensures segs[i] != ""
  {
  }

  lemma UpWayEnds(p: seq<string>, c: seq<string>, slash: bool)
    requires Parts(p) && p != [] && Names(c) && CommonPrefix(p, c) < |c|
    ensures EndsInSlash(RelativeWay(p, c, slash)) <==> EndsInSlash(Text(p))
  {
    hide Join, CommonPrefix, Text, Up;
    var k := CommonPrefix(p, c);
    RestEnds(p, c, k);
    UpEnd(|c| - k);
    TextNone();
    assert Up(|c| - k) + "" == Up(|c| - k);
    SlashAfter(Up(|c| - k), Text(p[k..]));
    if k < |p| {
      PartsOf(p, k);
      TextLast(p[k..]);
    }
  }

  lemma DownWayEnds(p: seq<string>, c: seq<string>, slash: bool)
    requires Parts(p) && p != [] && Names(c) && CommonPrefix(p, c) == |c| && RelativeWay(p, c, slash) != ""
    ensures EndsInSlash(RelativeWay(p, c, slash)) <==> EndsInSlash(Text(p))
  {
    hide Join, CommonPrefix, Text;
    var rest := p[|c|..];
    RestEnds(p, c, |c|);
    if rest != [] {
      RenderText(rest);
      SlashAfter("/", Join(rest));
    }
  }

  lemma SlashAfter(a: string, b: string)
    ensures b != "" ==> (EndsInSlash(a + b) <==> EndsInSlash(b))
  {
  }

  lemma UpEnd(n: nat)
    requires n > 0
    ensures Up(n) != "" && Up(n)[|Up(n)| - 1] != '/' && Up(n)[0] != '/'
  {
    JoinEnd(DotDots(n));
  }

  /** The way is an absolute path exactly when two slashes follow the directory. */
  lemma WayBreaksOut(path: string, cwd: string, p: seq<string>, c: seq<string>)
    requires cwd != "" && Parts(p) && p != [] && Names(c) && Parts(c) && path == Text(p) && IsGlobal(path)
    requires cwd == Text(c) + (if cwd[|cwd| - 1] == '/' then "/" else "")
    requires RelativeWay(p, c, cwd[|cwd| - 1] == '/') != ""
    ensures var r := RelativeWay(p, c, cwd[|cwd| - 1] == '/');
            && (IsGlobal(r) <==> BreaksOut(path, cwd))
            && (IsGlobal(r) ==> r == RestBelow(path, cwd))
  {
    hide Text, RelativeWay, IsName, Parts;
    var slash := cwd[|cwd| - 1] == '/';
    DropSlash(cwd, Text(c), slash);
    if Text(c) + "//" <= path {
      PrefixByText(p, c);
      BelowBreaksOut(p, c, slash, path, cwd);
    } else {
      NoBreakOut(p, c, slash, path);
    }
  }

  lemma DropSlash(cwd: string, base: string, slash: bool)
    requires cwd == base + (if slash then "/" else "")
    ensures (if slash then cwd[..|cwd| - 1] else cwd) == base
  {
  }

  lemma PrefixByText(p: seq<string>, c: seq<string>)
    requires Parts(p) && Parts(c) && Text(c) + "//" <= Text(p)
    ensures c <= p && |Text(p[|c|..])| >= 2 && Text(p[|c|..])[1] == '/'
  {
    hide Text, Parts;
    var base := Text(c);
    TwoSlashes(Text(p), base);
    var k := SlashBoundary(p, |base|);
    PartsOf(p, k);
    TextInjective(p[..k], c);
  }

  lemma TwoSlashes(path: string, base: string)
    requires base + "//" <= path
    ensures path[..|base|] == base && path[|base|] == '/'
    ensures |path[|base|..]| >= 2 && path[|base|..][1] == '/'
  {
    var s := base + "//";
    assert s[..|base|] == base && s[|base|] == '/' && s[|base| + 1] == '/';
    assert path[..|base|] == path[..|s|][..|base|];
  }

  lemma BelowBreaksOut(p: seq<string>, c: seq<string>, slash: bool, path: string, cwd: string)
    requires Parts(p) && c <= p && path == Text(p) && IsGlobal(path)
    requires cwd != "" && slash == (cwd[|cwd| - 1] == '/') && cwd == Text(c) + (if slash then "/" else "")
    requires |Text(p[|c|..])| >= 2 && Text(p[|c|..])[1] == '/'
    ensures var r := RelativeWay(p, c, slash);
            && (IsGlobal(r) <==> !(slash && path == Text(c) + "//"))
            && (IsGlobal(r) ==> r == RestBelow(path, cwd))
  {
    hide Join, CommonPrefix, Parts, Text, RelativeWay;
    var rest := p[|c|..];
    var tail := Text(rest);
    TextConcat(c, rest);
    assert p == c + rest;
    TextBegins(rest);
    RestIsWay(p, c, tail, slash, if slash && tail == "//" then "./" else tail[1..]);
    AfterPrefix(Text(c), tail, "//");
  }

  lemma AfterPrefix(a: string, b: string, c: string)
    ensures (a + b)[|a|..] == b && (b != "" ==> (a + b)[|a| + 1..] == b[1..])
    ensures a + b == a + c <==> b == c
  {
    assert (a + b)[|a|..] == b && (a + c)[|a|..] == c;
  }

  lemma TextBegins(segs: seq<string>)
    requires Text(segs) != ""
    ensures Text(segs)[0] == '/'
  {
  }

  lemma DoubleSlashPrefix(base: string, tail: string)
    ensures |tail| >= 2 && tail[0] == '/' && tail[1] == '/' ==> base + "//" <= base + tail
  {
  }

  lemma NoBreakOut(p: seq<string>, c: seq<string>, slash: bool, path: string)
    requires Parts(p) && p != [] && Names(c) && path == Text(p) && !(Text(c) + "//" <= path)
    requires RelativeWay(p, c, slash) != ""
    ensures !IsGlobal(RelativeWay(p, c, slash))
  {
    hide Join, CommonPrefix, DotDots, Text;
    var k := CommonPrefix(p, c);
    var rest := p[k..];
    PartsOf(p, k);
    if k < |c| {
      UpEnd(|c| - k);
    } else if rest != [] && Join(rest) != "" {
      assert p == c + rest;
      TextConcat(c, rest);
      RenderText(rest);
      DoubleSlashPrefix(Text(c), Text(rest));
    }
  }

  lemma RootOnly(path: string, cwd: string)
    requires path != "" && !IsGlobal(path) && IsGlobal(cwd)
    requires Run(true, Segments(cwd), Segments(path)) == []
    ensures MakePathAbsolute(path, cwd) == Ok("/")
  {
    SegmentsConcatRelative(cwd, path);
  }
}
