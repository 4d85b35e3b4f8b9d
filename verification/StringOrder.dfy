/** The order in which a `std::map` keyed by strings is walked. */
module StringOrder {

  predicate Leq(a: string, b: string) {
    if a == "" then true
    else if b == "" then false
    else if a[0] == b[0] then Leq(a[1..], b[1..])
    else a[0] < b[0]
  }

  /** Character by character: a prefix comes first, otherwise the smaller character
      where they first differ. */
  lemma {:induction false} LeqIsLexicographic(a: string, b: string)
    ensures Leq(a, b) <==> a <= b || exists k :: 0 <= k < |a| && k < |b| && a[..k] == b[..k] && a[k] < b[k]
  {
    if a != "" && b != "" {
      if a[0] == b[0] {
        LeqIsLexicographic(a[1..], b[1..]);
        DifferAfter(a, b);
      } else {
        assert a[..0] == b[..0];
        assert forall k :: 0 < k < |a| && k < |b| ==> a[..k][0] == a[0] && b[..k][0] == b[0];
      }
    }
  }

  lemma DifferAfter(a: string, b: string)
    requires a != "" && b != "" && a[0] == b[0]
    ensures a <= b <==> a[1..] <= b[1..]
    ensures (exists k :: 0 <= k < |a| && k < |b| && a[..k] == b[..k] && a[k] < b[k]) <==>
              exists k :: 0 <= k < |a[1..]| && k < |b[1..]| && a[1..][..k] == b[1..][..k] && a[1..][k] < b[1..][k]
  {
    assert a == [a[0]] + a[1..] && b == [b[0]] + b[1..];
    if k :| 0 <= k < |a| && k < |b| && a[..k] == b[..k] && a[k] < b[k] {
      assert a[1..][..k - 1] == a[..k][1..] && b[1..][..k - 1] == b[..k][1..];
      assert a[1..][k - 1] < b[1..][k - 1];
    }
    if k :| 0 <= k < |a[1..]| && k < |b[1..]| && a[1..][..k] == b[1..][..k] && a[1..][k] < b[1..][k] {
      assert a[..k + 1] == [a[0]] + a[1..][..k] && b[..k + 1] == [b[0]] + b[1..][..k];
      assert a[k + 1] < b[k + 1];
    }
  }

  lemma {:induction false} LeqTotal(a: string, b: string)
    ensures Leq(a, b) || Leq(b, a)
  {
    if a != "" && b != "" && a[0] == b[0] { LeqTotal(a[1..], b[1..]); }
  }

  lemma {:induction false} LeqAntisymmetric(a: string, b: string)
    requires Leq(a, b) && Leq(b, a)
    ensures a == b
  {
    if a != "" && b != "" {
      LeqAntisymmetric(a[1..], b[1..]);
      assert a == [a[0]] + a[1..] && b == [b[0]] + b[1..];
    }
  }

  lemma {:induction false} LeqTransitive(a: string, b: string, c: string)
    requires Leq(a, b) && Leq(b, c)
    ensures Leq(a, c)
  {
    if a != "" && b != "" && c != "" && a[0] == b[0] == c[0] { LeqTransitive(a[1..], b[1..], c[1..]); }
  }

  predicate IsFirst(m: string, s: set<string>) {
    m in s && forall x :: x in s ==> Leq(m, x)
  }

  lemma {:induction false} FirstExists(s: set<string>)
    requires s != {}
    ensures exists m :: IsFirst(m, s)
    decreases |s|
  {
    var x :| x in s;
    if s - {x} == {} {
      LeqTotal(x, x);
      assert s == {x};
      assert IsFirst(x, s);
    } else {
      FirstExists(s - {x});
      var m :| IsFirst(m, s - {x});
      LeqTotal(x, x);
      LeqTotal(m, x);
      var first := if Leq(m, x) then m else x;
      forall y | y in s
        ensures Leq(first, y)
      {
        if first == x && y != x { LeqTransitive(x, m, y); }
      }
      assert IsFirst(first, s);
    }
  }

  lemma FirstUnique(s: set<string>, m: string, n: string)
    requires IsFirst(m, s) && IsFirst(n, s)
    ensures m == n
  {
    LeqAntisymmetric(m, n);
  }

  /** The first key of a non-empty set. */
  function First(s: set<string>): (m: string)
    requires s != {}
    ensures IsFirst(m, s)
  {
    FirstExists(s);
    assert forall m, n :: IsFirst(m, s) && IsFirst(n, s) ==> m == n by {
      forall m, n | IsFirst(m, s) && IsFirst(n, s)
        ensures m == n
      {
        FirstUnique(s, m, n);
      }
    }
    var m :| m in s && IsFirst(m, s);
    m
  }

  predicate Sorted(keys: seq<string>) {
    forall i, j :: 0 <= i < j < |keys| ==> keys[i] != keys[j] && Leq(keys[i], keys[j])
  }

  /** All keys, each once, in order. */
  function SortedKeys(s: set<string>): (keys: seq<string>)
    ensures Sorted(keys) && |keys| == |s|
    ensures forall x :: x in keys <==> x in s
    decreases |s|
  {
    if s == {} then []
    else
      var m := First(s);
      var rest := SortedKeys(s - {m});
      FirstThenRest(m, rest, s);
      [m] + rest
  }

  lemma FirstThenRest(m: string, rest: seq<string>, s: set<string>)
    requires IsFirst(m, s) && Sorted(rest) && forall x :: x in rest <==> x in s - {m}
    ensures Sorted([m] + rest) && forall x :: x in [m] + rest <==> x in s
  {
    hide Leq;
    assert forall j :: 0 <= j < |rest| ==> rest[j] in rest;
    assert forall i :: 1 <= i < |[m] + rest| ==> ([m] + rest)[i] == rest[i - 1];
  }

  /** There is only one way to list a set in order. */
  lemma {:induction false} SortedUnique(a: seq<string>, b: seq<string>)
    requires Sorted(a) && Sorted(b) && forall x :: x in a <==> x in b
    ensures a == b
    decreases |a|
  {
    if a == [] {
      if b != [] { HeadMember(b); }
    } else {
      assert a[0] in b && b != [] && b[0] in a;
      if a[0] != b[0] { LeqAntisymmetric(a[0], b[0]); }
      TailMembers(a);
      TailMembers(b);
      SortedUnique(a[1..], b[1..]);
      assert a == [a[0]] + a[1..] && b == [b[0]] + b[1..];
    }
  }

  lemma HeadMember(a: seq<string>)
    requires a != []
    ensures a[0] in a
  {
  }

  lemma TailMembers(a: seq<string>)
    requires Sorted(a) && a != []
    ensures Sorted(a[1..]) && forall x :: x in a[1..] <==> x in a && x != a[0]
  {
    assert a == [a[0]] + a[1..];
    forall x | x in a[1..]
      ensures x != a[0]
    {
      var i :| 0 <= i < |a[1..]| && a[1..][i] == x;
      assert a[i + 1] == x;
    }
  }

  lemma SortedKeysOf(keys: seq<string>, s: set<string>)
    requires Sorted(keys) && forall x :: x in keys <==> x in s
    ensures SortedKeys(s) == keys
  {
    SortedUnique(keys, SortedKeys(s));
  }

  /** Where a key stands. */
  function IndexOf(names: seq<string>, x: string): (i: nat)
    requires x in names
    ensures i < |names| && names[i] == x
  {
    if names[0] == x then 0 else 1 + IndexOf(names[1..], x)
  }

  lemma IndexIs(names: seq<string>, i: nat)
    requires Sorted(names) && i < |names|
    ensures names[i] in names && IndexOf(names, names[i]) == i
  {
  }
}
