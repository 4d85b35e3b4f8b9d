/** Joining paths, with and without the check that the result stays in its base. */
module PathJoins {
  import opened Paths
  import opened PathText
  import opened FileUtils

  function JoinPathSegments(first: string, second: string, forceRelative: bool): Result<string> {
    if first == "" || second == "" then Thrown
    else
      NormalizeIdempotent(second);
      var n1, n2 := Normalize(first), Normalize(second);
      Ok(if !forceRelative && n2[0] == '/' then n2 else Normalize(n1 + "/" + n2))
  }

  /** Normalizing either side before concatenating with a relative second path changes nothing. */
  lemma NormalizeBeforeJoin(first: string, second: string)
    requires first != "" && !IsGlobal(second)
    ensures Normalize(Normalize(first) + "/" + second) == Normalize(first + "/" + second)
    ensures Normalize(first + "/" + Normalize(second)) == Normalize(first + "/" + second)
    ensures Normalize(Normalize(first) + "/" + Normalize(second)) == Normalize(first + "/" + second)
  {
    hide Segments;
    NormalizeIdempotent(first);
    NormalizeIdempotent(second);
    SegmentsConcatRelative(first, second);
    SegmentsConcatRelative(Normalize(first), second);
    SegmentsConcatRelative(first, Normalize(second));
    SegmentsConcatRelative(Normalize(first), Normalize(second));
  }

  /** A join with a relative path denotes the second path's segments run from the first's. */
  lemma JoinMeaning(first: string, second: string, forceRelative: bool)
    requires first != "" && second != "" && !IsGlobal(second)
    ensures var j := JoinPathSegments(first, second, forceRelative);
            && j == Ok(Normalize(first + "/" + second))
            && j.value != "" && IsGlobal(j.value) == IsGlobal(first)
            && Segments(j.value) == Run(IsGlobal(first), Segments(first), Segments(second))
  {
    hide Segments, Normalize;
    NormalizeBeforeJoin(first, second);
    NormalizeIdempotent(second);
    NormalizeIdempotent(first + "/" + second);
    SegmentsConcatRelative(first, second);
  }

  /** A join with an absolute path is that path, or, when it is forced to be
      relative, the first path followed by its segments. */
  lemma JoinWithAbsolute(first: string, second: string)
    requires first != "" && IsGlobal(second)
    ensures JoinPathSegments(first, second, false) == Ok(Normalize(second))
    ensures var j := JoinPathSegments(first, second, true);
            && j.Ok? && IsGlobal(j.value) == IsGlobal(first)
            && Segments(j.value) == Segments(first) + Segments(second)
            && j.value == Render(IsGlobal(first), Segments(first) + Segments(second))
  {
    hide Segments, Normalize, Run;
    NormalizeCanonical(first);
    NormalizeCanonical(second);
    var n1, n2 := Normalize(first), Normalize(second);
    NormalizeCanonical(n1 + "/" + n2);
    SegmentsConcat(n1, n2);
    RunRendered(IsGlobal(first), true, Segments(first), Segments(second));
    RunNames(IsGlobal(first), Segments(first), Segments(second));
  }

  /** Relative joins are associative. */
  lemma JoinAssociative(a: string, b: string, c: string, forceRelative: bool)
    requires a != "" && b != "" && c != "" && !IsGlobal(b) && !IsGlobal(c)
    ensures var ab, bc := JoinPathSegments(a, b, forceRelative), JoinPathSegments(b, c, forceRelative);
            ab.Ok? && bc.Ok?
            && JoinPathSegments(ab.value, c, forceRelative) == JoinPathSegments(a, bc.value, forceRelative)
  {
    hide Segments, Normalize, Run, JoinPathSegments;
    JoinMeaning(a, b, forceRelative);
    JoinMeaning(b, c, forceRelative);
    NormalizeBeforeJoin(a + "/" + b, c);
    NormalizeBeforeJoin(a, b + "/" + c);
    var ab, bc := JoinPathSegments(a, b, forceRelative).value, JoinPathSegments(b, c, forceRelative).value;
    JoinMeaning(ab, c, forceRelative);
    JoinMeaning(a, bc, forceRelative);
    assert a + "/" + b + "/" + c == a + "/" + (b + "/" + c);
  }

  function JoinPathSegmentsNoEscape(base: string, within: string, forceRelative: bool): Result<string> {
    var nb, nw := Normalize(base), Normalize(within);
    var joined := JoinPathSegments(base, nw, forceRelative);
    if joined.Thrown? then Thrown
    else
      var j := joined.value;
      var escapes :=
        if j == nb then false
        else if nb == "/" || nb == "" || nb == "." then nw == ".." || "../" <= nw
        else if nb <= j then j[|nb|] != '/'
        else true;
      if escapes then Thrown else joined
  }

  /** Normalizing what is joined makes no difference to the join. */
  lemma JoinOfNormalized(first: string, second: string, forceRelative: bool)
    requires second != ""
    ensures JoinPathSegments(first, Normalize(second), forceRelative) == JoinPathSegments(first, second, forceRelative)
  {
    NormalizeIdempotent(second);
  }

  /** For every base but the root and `.` the textual check is the prefix check
      on segments: the join is returned exactly when it is a path of the same
      kind that begins with the base's segments. */
  lemma NoEscapeIsPrefix(base: string, within: string, forceRelative: bool)
    requires base != "" && Segments(base) != []
    ensures var j := JoinPathSegments(base, Normalize(within), forceRelative);
            && j.Ok?
            && JoinPathSegmentsNoEscape(base, within, forceRelative)
               == if IsGlobal(j.value) == IsGlobal(base) && Segments(base) <= Segments(j.value) then j else Thrown
  {
    hide Segments, Normalize, JoinPathSegments;
    NormalizeIdempotent(within);
    JoinNormal(base, Normalize(within), forceRelative);
    var j := JoinPathSegments(base, Normalize(within), forceRelative).value;
    NormalizeCanonical(base);
    RenderPrefix(IsGlobal(base), Segments(base), Normalize(base), IsGlobal(j), Segments(j), j);
  }

  /** A join is in normal form. */
  lemma JoinNormal(first: string, second: string, forceRelative: bool)
    requires first != "" && second != ""
    ensures var j := JoinPathSegments(first, second, forceRelative);
            && j.Ok? && Canonical(IsGlobal(j.value), Segments(j.value))
            && j.value == Render(IsGlobal(j.value), Segments(j.value))
  {
    hide Segments, Normalize;
    NormalizeCanonical(first);
    NormalizeCanonical(second);
    NormalizeCanonical(Normalize(first) + "/" + Normalize(second));
  }

  /** The check on rendered paths. */
  lemma RenderPrefix(g: bool, b: seq<string>, nb: string, gj: bool, j: seq<string>, jt: string)
    requires Canonical(g, b) && Canonical(gj, j) && b != []
    requires nb == Render(g, b) && jt == Render(gj, j)
    ensures nb != "/" && nb != "" && nb != "." && nb != "/."
    ensures gj == g && b <= j <==> jt == nb || (nb <= jt && |nb| < |jt| && jt[|nb|] == '/')
  {
    hide Join, IsName, Canonical;
    CanonicalParts(g, b);
    CanonicalParts(gj, j);
    JoinEnd(b);
    DotIsNoPath(g, b, nb);
    if j != [] {
      JoinEnd(j);
      TextPrefix(g, b, nb, gj, j, jt);
    }
  }

  lemma TextPrefix(g: bool, b: seq<string>, nb: string, gj: bool, j: seq<string>, jt: string)
    requires Parts(b) && Parts(j) && b != [] && j != []
    requires nb == (if g then "/" else "") + Join(b) && jt == (if gj then "/" else "") + Join(j)
    requires Join(b) != "" && Join(j) != "" && Join(b)[0] != '/' && Join(j)[0] != '/'
    ensures gj == g && b <= j <==> jt == nb || (nb <= jt && |nb| < |jt| && jt[|nb|] == '/')
  {
    hide Join, Text, Parts;
    RenderText(b);
    RenderText(j);
    PrefixText(b, j, Text(b), Text(j));
    assert nb <= jt ==> nb[0] == jt[0];
    if !g && !gj {
      Slashed(nb, jt);
      assert Text(b) == "/" + nb && Text(j) == "/" + jt;
    }
  }

  lemma CanonicalParts(g: bool, segs: seq<string>)
    requires Canonical(g, segs)
    ensures Parts(segs) && forall i :: 0 <= i < |segs| ==> NoSlash(segs[i]) && segs[i] != "" && segs[i] != "."
  {
  }

  lemma DotIsNoPath(g: bool, segs: seq<string>, text: string)
    requires segs != [] && text == Render(g, segs)
    requires forall i :: 0 <= i < |segs| ==> NoSlash(segs[i]) && segs[i] != "" && segs[i] != "."
    ensures text != "." && text != "/."
  {
    SplitJoin(segs);
    SplitOne(".");
    assert g ==> text[1..] == Join(segs);
    assert "/."[1..] == ".";
  }

  lemma Slashed(a: string, b: string)
    ensures "/" + a == "/" + b <==> a == b
    ensures "/" + a <= "/" + b <==> a <= b
    ensures |a| < |b| ==> ("/" + b)[|"/" + a|] == b[|a|]
  {
    assert ("/" + a)[1..] == a && ("/" + b)[1..] == b;
    if a <= b { assert "/" + b == ("/" + a) + b[|a|..]; }
    if "/" + a <= "/" + b { assert a == (("/" + b)[..|"/" + a|])[1..] == b[..|a|]; }
  }

  /** A path at or below a directory: its segments first, and no step up from there. */
  predicate Below(base: seq<string>, path: seq<string>) {
    base <= path && (|path| > |base| ==> path[|base|] != "..")
  }

  /** What the check lets through although it lies outside: exactly the joins
      that go on upwards from a base which itself only goes up, as `..` joined
      with `..` does. Nothing else escapes, and nothing inside is refused. */
  lemma NoEscapeMisses(base: string, within: string, forceRelative: bool)
    requires base != "" && Segments(base) != []
    ensures var j := JoinPathSegments(base, Normalize(within), forceRelative);
            var r := JoinPathSegmentsNoEscape(base, within, forceRelative);
            && j.Ok?
            && (IsGlobal(j.value) == IsGlobal(base) && Below(Segments(base), Segments(j.value)) ==> r == j)
            && (r.Ok? && !Below(Segments(base), Segments(j.value))
                <==> IsGlobal(j.value) == IsGlobal(base) && Segments(base) + [".."] <= Segments(j.value))
            && (Segments(base) + [".."] <= Segments(j.value) ==>
                  !IsGlobal(j.value) && forall i :: 0 <= i < |Segments(base)| ==> Segments(base)[i] == "..")
  {
    hide Segments, Normalize, JoinPathSegments, JoinPathSegmentsNoEscape, Render, IsName;
    NoEscapeIsPrefix(base, within, forceRelative);
    NormalizeIdempotent(within);
    JoinNormal(base, Normalize(within), forceRelative);
    var j := JoinPathSegments(base, Normalize(within), forceRelative).value;
    var b, js := Segments(base), Segments(j);
    if b + [".."] <= js {
      assert js[|b|] == (b + [".."])[|b|] == "..";
      UpsBefore(IsGlobal(j), js, |b|);
      assert forall i :: 0 <= i < |b| ==> js[i] == (b + [".."])[i] == b[i];
    }
    if b <= js && |js| > |b| && js[|b|] == ".." {
      assert js[..|b| + 1] == b + [".."];
    }
  }

  lemma {:induction false} UpsBefore(global: bool, segs: seq<string>, k: nat)
    requires Canonical(global, segs) && k < |segs| && segs[k] == ".."
    ensures !global && forall i :: 0 <= i <= k ==> segs[i] == ".."
    decreases k
  {
    if k > 0 { UpsBefore(global, segs, k - 1); }
  }

  /** At `.` a relative path is let through exactly when it does not go up; an
      absolute one is let through unless it is forced to be relative, and then
      the result is that absolute path, wherever it points. */
  lemma NoEscapeAtDot(base: string, within: string, forceRelative: bool)
    requires base != "" && Normalize(base) == "."
    ensures var j := JoinPathSegments(base, Normalize(within), forceRelative);
            var r := JoinPathSegmentsNoEscape(base, within, forceRelative);
            && j.Ok?
            && r == (if IsGlobal(within) || !GoesUp(Segments(within)) then j else Thrown)
            && (r.Ok? ==> (IsGlobal(j.value) <==> IsGlobal(within) && !forceRelative))
            && (r.Ok? && !IsGlobal(j.value) ==> !GoesUp(Segments(j.value)))
  {
    hide Segments, JoinPathSegments;
    NormalizeIdempotent(within);
    NormalizeCanonical(base);
    JoinAtDot(base, Normalize(within), forceRelative);
    if IsGlobal(within) {
      assert Normalize(within)[0] == '/';
    } else {
      GoesUpText(within);
    }
  }

  lemma JoinAtDot(base: string, within: string, forceRelative: bool)
    requires base != "" && Normalize(base) == "." && within != ""
    ensures var j := JoinPathSegments(base, within, forceRelative);
            && j.Ok? && (IsGlobal(j.value) <==> IsGlobal(within) && !forceRelative)
            && (!IsGlobal(j.value) ==>
                  Segments(j.value) == Segments(within) && (j.value == "." <==> Segments(within) == []))
            && (IsGlobal(within) ==> !GoesUp(Segments(within)))
  {
    hide Segments, Normalize;
    NormalizeCanonical(within);
    var n := Normalize(within);
    var full := "." + "/" + n;
    NormalizeCanonical(full);
    SegmentsConcat(".", n);
    assert Segments(".") == [] by { SegmentsRender(false, []); }
    if IsGlobal(within) && !forceRelative {
    } else {
      RunRendered(false, IsGlobal(within), [], Segments(within));
      WeakerCanonical(IsGlobal(within), Segments(within));
      RunFixed(false, Segments(within));
      CanonicalParts(false, Segments(full));
      if Segments(within) != [] { DotIsNoPath(false, Segments(full), Normalize(full)); }
    }
  }

  lemma WeakerCanonical(global: bool, segs: seq<string>)
    requires Canonical(global, segs)
    ensures Canonical(false, segs) && (global ==> !GoesUp(segs))
  {
  }

  lemma JoinAbsolute(first: string, second: string, forceRelative: bool)
    requires IsGlobal(first) && second != ""
    ensures var j := JoinPathSegments(first, second, forceRelative);
            j.Ok? && NormalAbsolute(j.value)
  {
    hide Segments, Normalize;
    NormalizeCanonical(first);
    NormalizeCanonical(second);
    NormalizeCanonical(Normalize(first) + "/" + Normalize(second));
  }

  lemma PrefixText(b: seq<string>, j: seq<string>, nb: string, jt: string)
    requires Parts(b) && Parts(j) && b != [] && nb == Text(b) && jt == Text(j)
    ensures b <= j <==> jt == nb || (nb <= jt && |nb| < |jt| && jt[|nb|] == '/')
  {
    if jt == nb {
      TextInjective(b, j);
    } else if nb <= jt && jt[|nb|] == '/' {
      var k := SlashBoundary(j, |nb|);
      TextInjective(j[..k], b);
    }
    if b <= j { ExtendText(b, j); }
  }

  lemma ExtendText(b: seq<string>, j: seq<string>)
    requires b <= j
    ensures Text(b) <= Text(j) && (b != j ==> |Text(j)| > |Text(b)| && Text(j)[|Text(b)|] == '/')
  {
    TextConcat(b, j[|b|..]);
    assert j == b + j[|b|..];
    assert b != j ==> j[|b|..] != [];
  }

  /** A relative path whose normal form begins with `..`. */
  predicate GoesUp(segs: seq<string>) {
    segs != [] && segs[0] == ".."
  }

  lemma GoesUpText(path: string)
    requires !IsGlobal(path)
    ensures Normalize(path) == ".." || "../" <= Normalize(path) <==> GoesUp(Segments(path))
  {
    SegmentsCanonical(path);
    RenderGoesUp(Segments(path));
  }

  lemma RenderGoesUp(segs: seq<string>)
    requires Canonical(false, segs)
    ensures Render(false, segs) == ".." || "../" <= Render(false, segs) <==> GoesUp(segs)
  {
    if segs != [] {
      var n := Join(segs);
      SplitJoinCanonical(segs);
      if segs[0] == ".." { JoinHead(segs); }
      if n == ".." || "../" <= n { DotDotHead(n); }
    }
  }

  lemma DotDotHead(n: string)
    requires n == ".." || "../" <= n
    ensures Split(n)[0] == ".."
  {
    hide Split;
    SplitOne("..");
    if n != ".." {
      SplitConcat("..", n[3..]);
      assert n == ".." + "/" + n[3..];
    }
  }

  lemma JoinHead(segs: seq<string>)
    requires segs != [] && segs[0] == ".."
    ensures Join(segs) == ".." || "../" <= Join(segs)
  {
  }

  lemma SplitJoinCanonical(segs: seq<string>)
    requires Canonical(false, segs) && segs != []
    ensures Split(Join(segs)) == segs
  {
    SplitJoin(segs);
  }

  /** At the root nothing lies above, so every join stays within the base. The
      check is stricter: it refuses exactly the relative paths that go up, unless
      they end at the root itself. */
  lemma NoEscapeAtRoot(base: string, within: string, forceRelative: bool)
    requires Normalize(base) == "/"
    ensures var j := JoinPathSegments(base, Normalize(within), forceRelative);
            && j.Ok? && NormalAbsolute(j.value) && Segments("/") <= Segments(j.value)
            && JoinPathSegmentsNoEscape(base, within, forceRelative)
               == if j.value == "/" || IsGlobal(within) || !GoesUp(Segments(within)) then j else Thrown
  {
    hide Segments, JoinPathSegments;
    assert base != "" by { EmptyIsDot(); }
    NormalizeCanonical(base);
    NormalizeIdempotent(within);
    JoinAbsolute(base, Normalize(within), forceRelative);
    assert Segments("/") == [] by { SegmentsRender(true, []); }
    if IsGlobal(within) {
      assert Normalize(within)[0] == '/';
    } else {
      GoesUpText(within);
    }
  }

  lemma EmptyIsDot()
    ensures Normalize("") == "."
  {
    SplitOne("");
    NoOpSegments(false, []);
  }

  /** The empty path within a base is the base itself, although a plain join refuses it. */
  lemma NoEscapeOfEmpty(base: string, forceRelative: bool)
    requires base != ""
    ensures JoinPathSegments(base, "", forceRelative).Thrown?
    ensures JoinPathSegmentsNoEscape(base, "", forceRelative) == Ok(Normalize(base))
  {
    hide Segments, Normalize;
    EmptyIsDot();
    NormalizeCanonical("");
    NormalizeCanonical(base);
    NormalizeCanonical(base + "/" + ".");
    JoinMeaning(base, ".", forceRelative);
    assert Segments(".") == [] by { SegmentsRender(false, []); }
  }

  lemma RootIsNormal()
    ensures Normalize("/") == "/"
  {
    SegmentsRender(true, []);
  }
}
