/** Single inputs on which the path operations do something unexpected. */
module PathExamples {
  import opened Paths
  import opened PathText
  import opened FileUtils
  import opened PathJoins

  /** The smallest such input: `/a//b` seen from `/a` becomes `/b`. */
  lemma DoubleSlashBreaksOut()
    ensures CleanCwd("/a") && BreaksOut("/a//b", "/a")
    ensures RelativeWay(RawSegments("/a//b"), Segments("/a"), false) == "/b"
  {
    OneDirectory();
    ThreeSegments();
    hide Segments, Normalize, RawSegments, RelativeWay;
    BreakingWay();
  }

  lemma OneDirectory()
    ensures Segments("/a") == ["a"] && Normalize("/a") == "/a"
  {
    assert ["a"][1..] == [];
    assert Canonical(true, ["a"]) && Render(true, ["a"]) == "/a";
    hide Render, Canonical;
    SegmentsRender(true, ["a"]);
  }

  lemma ThreeSegments()
    ensures RawSegments("/a//b") == ["a", "", "b"]
  {
    assert ["a", "", "b"][1..] == ["", "b"] && ["", "b"][1..] == ["b"];
    assert "/a//b"[1..] == "a" + "/" + ("" + "/" + "b") == Join(["a", "", "b"]);
    hide Split;
    SplitJoin(["a", "", "b"]);
  }

  lemma BreakingWay()
    ensures RelativeWay(["a", "", "b"], ["a"], false) == "/b"
  {
    var p, c := ["a", "", "b"], ["a"];
    assert p[..1] == c[..1] == ["a"];
    CommonPrefixIs(p, c, 1);
    assert p[1..] == ["", "b"] && ["", "b"][1..] == ["b"];
    assert Join(["", "b"]) == "" + "/" + "b" == "/b";
  }

  /** From a directory written with `..` the result counts that segment like a
      name: `/a/c` seen from `/a/b/..` becomes `../../c`, which leads to `/c`. */
  lemma ParentSegmentMisleads()
    ensures RelativeWay(RawSegments("/a/c"), DirSegments("/a/b/.."), false) == "../../c"
    ensures MakePathAbsolute("../../c", "/a/b/..") == Ok("/c")
  {
    WrittenSegments();
    MisleadingWay();
    MisledSegments();
    hide Segments, Normalize, RawSegments, DirSegments, RelativeWay;
    var full := "/a/b/.." + "/" + "../../c";
    assert full == "/a/b/../../../c";
    NormalizeCanonical(full);
    assert Normalize(full) == "/c";
  }

  lemma WrittenSegments()
    ensures RawSegments("/a/c") == ["a", "c"] && DirSegments("/a/b/..") == ["a", "b", ".."]
  {
    TwoSegments("a", "c");
    TwoSegments("b", "..");
    assert ["a", "b", ".."][1..] == ["b", ".."];
    assert Join(["a", "b", ".."]) == "a" + "/" + Join(["b", ".."]) == "a/b/..";
    hide Split, Join, RawSegments;
    Written(["a", "c"], "/a/c");
    Written(["a", "b", ".."], "/a/b/..");
  }

  lemma Written(segs: seq<string>, path: string)
    requires Parts(segs) && segs != [] && path == "/" + Join(segs)
    ensures RawSegments(path) == segs
    ensures path[|path| - 1] != '/' ==> DirSegments(path) == segs
  {
    SplitJoin(segs);
    assert path[1..] == Join(segs);
  }

  lemma TwoSegments(a: string, b: string)
    ensures Join([a, b]) == a + "/" + b
  {
    assert [a, b][1..] == [b];
  }

  lemma MisleadingWay()
    ensures RelativeWay(["a", "c"], ["a", "b", ".."], false) == "../../c"
  {
    var p, c := ["a", "c"], ["a", "b", ".."];
    assert p[..1] == c[..1] == ["a"];
    CommonPrefixIs(p, c, 1);
    assert p[1..] == ["c"] && ["c"][1..] == [];
    assert Text(["c"]) == "/c";
    TwoSegments("..", "..");
    assert DotDots(2) == ["..", ".."];
  }

  lemma MisledSegments()
    ensures Segments("/a/b/../../../c") == ["c"] && Render(true, ["c"]) == "/c"
  {
    var segs := MisledRun();
    var path := "/a/b/../../../c";
    hide Split, Run, Segments, RawSegments;
    Written(segs, path);
    RawRun(path);
    assert Render(true, ["c"]) == "/c";
  }

  lemma MisledRun() returns (segs: seq<string>)
    ensures Parts(segs) && segs != [] && Run(true, [], segs) == ["c"] && "/" + Join(segs) == "/a/b/../../../c"
  {
    hide Run, Join;
    var one := ["c"];
    NoOpSegments(true, one);
    StepRun([], "c", []);
    assert Step(true, [], "c") == one && one + [] == one;
    assert Join(one) == "c" by { JoinOne("c"); }
    segs := Climb([], one);
    segs := Climb(["a"], segs);
    assert ["a", "b"][..1] == ["a"] && ["a"][..0] == [];
    segs := Climb(["a", "b"], segs);
    assert Step(true, ["a"], "b") == ["a", "b"] && Step(true, [], "a") == ["a"];
    StepRun(["a"], "b", segs);
    JoinAfter("b", segs);
    segs := ["b"] + segs;
    StepRun([], "a", segs);
    JoinAfter("a", segs);
    segs := ["a"] + segs;
  }

  /** One `..` in front. */
  lemma Climb(stack: seq<string>, rest: seq<string>) returns (segs: seq<string>)
    requires Parts(rest) && rest != [] && (stack != [] ==> stack[|stack| - 1] != "..")
    ensures Parts(segs) && segs != [] && Join(segs) == "../" + Join(rest)
    ensures Run(true, stack, segs) == Run(true, if stack == [] then [] else stack[..|stack| - 1], rest)
  {
    hide Run, Join;
    segs := [".."] + rest;
    StepRun(stack, "..", rest);
    JoinAfter("..", rest);
  }

  lemma JoinOne(x: string)
    ensures Join([x]) == x
  {
  }

  lemma JoinAfter(x: string, rest: seq<string>)
    requires rest != []
    ensures Join([x] + rest) == x + "/" + Join(rest)
  {
    assert ([x] + rest)[1..] == rest;
  }

  lemma StepRun(stack: seq<string>, x: string, rest: seq<string>)
    ensures Run(true, stack, [x] + rest) == Run(true, Step(true, stack, x), rest)
  {
    assert ([x] + rest)[1..] == rest;
  }

  /** Two escapes the check lets through. */
  lemma NoEscapeMissedInputs()
    ensures JoinPathSegmentsNoEscape("..", "..", false) == Ok("../..")
    ensures JoinPathSegmentsNoEscape(".", "/a", false) == Ok("/a")
  {
    NormalTexts();
    hide Segments, Normalize;
    var j := JoinPathSegments("..", "..", false).value;
    assert j == Normalize("../..");
    assert ".." <= j && j[|".."|] == '/';
  }

  lemma NormalTexts()
    ensures Normalize("..") == ".." && Normalize("../..") == "../.." && Normalize("/a") == "/a" && Normalize(".") == "."
    ensures ".." + "/" + ".." == "../.."
  {
    assert [".."][1..] == [] && ["..", ".."][1..] == [".."] && ["a"][1..] == [];
    assert Canonical(false, [".."]) && Canonical(false, ["..", ".."]) && Canonical(true, ["a"]);
    assert Render(false, [".."]) == ".." && Render(false, ["..", ".."]) == "../.." && Render(true, ["a"]) == "/a";
    hide Segments, Render, Canonical;
    SegmentsRender(false, [".."]);
    SegmentsRender(false, ["..", ".."]);
    SegmentsRender(true, ["a"]);
    assert Render(false, []) == "." by { DotRendered(); }
    SegmentsRender(false, []) by { DotRendered(); }
  }

  lemma DotRendered()
    ensures Render(false, []) == "." && Canonical(false, [])
  {
  }

  /** A refused path whose join lies below the root: `../a` denotes `/a` there. */
  lemma NoEscapeRefusesBelowRoot(forceRelative: bool)
    ensures JoinPathSegments("/", "../a", forceRelative) == Ok("/a")
    ensures JoinPathSegmentsNoEscape("/", "../a", forceRelative) == Thrown
  {
    UpSegments();
    hide Segments, Join, Split;
    RootIsNormal();
    NoEscapeAtRoot("/", "../a", forceRelative);
    JoinOfNormalized("/", "../a", forceRelative);
    JoinMeaning("/", "../a", forceRelative);
    var j := JoinPathSegments("/", "../a", forceRelative).value;
    assert Segments("/") == [] by { SegmentsRender(true, []); }
    AbsoluteText(j);
    UpThenDown();
  }

  lemma UpSegments()
    ensures Segments("../a") == ["..", "a"]
  {
    assert Canonical(false, ["..", "a"]);
    assert ["..", "a"][1..] == ["a"];
    assert Render(false, ["..", "a"]) == ".." + "/" + "a" == "../a";
    SegmentsRender(false, ["..", "a"]);
  }

  lemma UpThenDown()
    ensures Run(true, [], ["..", "a"]) == ["a"]
    ensures Text(["a"]) == "/a"
  {
    assert ["..", "a"][1..] == ["a"] && ["a"][1..] == [];
  }
}
