/** Shared value types and the few facts about finite sets and sequences that
    several components rely on. */
module Collections {

  datatype Option<+T> = None | Some(value: T)

  datatype Result<+T, +E> = Ok(value: T) | Err(error: E)

  lemma ConcatAssociates<T>(a: seq<T>, b: seq<T>, c: seq<T>)
    ensures (a + b) + c == a + (b + c)
  {
  }

  function Min(a: int, b: int): int { if a <= b then a else b }

  function Max(a: int, b: int): int { if a <= b then b else a }

  ghost predicate NoDuplicates<T>(s: seq<T>) {
    forall i, j :: 0 <= i < j < |s| ==> s[i] != s[j]
  }

  lemma EmptyIffNoMember<T(!new)>(s: seq<T>)
    ensures s == [] <==> forall x :: x !in s
  {
    assert |s| > 0 ==> s[0] in s;
  }

  function Elements<T>(s: seq<T>): set<T> { set x | x in s }

  /** `Vec::retain(|id| *id != x)`. */
  function Without<T(==, !new)>(s: seq<T>, x: T): (r: seq<T>)
    ensures forall y :: y in r <==> y in s && y != x
    ensures |r| <= |s|
  {
    if s == [] then []
    else if s[0] == x then Without(s[1..], x)
    else [s[0]] + Without(s[1..], x)
  }

  lemma {:induction false} WithoutKeepsOrder<T(!new)>(s: seq<T>, x: T)
    requires NoDuplicates(s)
    ensures NoDuplicates(Without(s, x))
  {
    if s != [] {
      WithoutKeepsOrder(s[1..], x);
      assert s[0] !in s[1..];
    }
  }

  lemma {:induction false} NoDuplicatesCardinality<T>(s: seq<T>)
    requires NoDuplicates(s)
    ensures |Elements(s)| == |s|
  {
    if s == [] {
      assert Elements(s) == {};
    } else {
      NoDuplicatesCardinality(s[1..]);
      assert Elements(s) == {s[0]} + Elements(s[1..]);
      assert s[0] !in s[1..];
    }
  }

  lemma SubsetCardinality<T>(a: set<T>, b: set<T>)
    requires a <= b
    ensures |a| <= |b|
  {
    assert b == a + (b - a);
  }

  /** A sequence longer than the set its elements come from repeats an element. */
  lemma Pigeonhole<T>(s: seq<T>, pool: set<T>) returns (i: nat, j: nat)
    requires |s| > |pool|
    requires forall x :: x in s ==> x in pool
    ensures i < j < |s| && s[i] == s[j]
  {
    if NoDuplicates(s) {
      NoDuplicatesCardinality(s);
      SubsetCardinality(Elements(s), pool);
      assert false;
    }
    i, j :| 0 <= i < j < |s| && s[i] == s[j];
  }

  // ---------------------------------------------------------------------
  // Ordered keys: the iteration order of a BTreeMap

  predicate IsLeast(m: nat, s: set<nat>) { m in s && forall x :: x in s ==> m <= x }

  lemma {:induction false} LeastExists(s: set<nat>)
    requires s != {}
    ensures exists m :: IsLeast(m, s)
  {
    var y :| y in s;
    var rest := s - {y};
    assert forall x :: x in s ==> x == y || x in rest;
    if rest == {} {
      assert IsLeast(y, s);
    } else {
      LeastExists(rest);
      var m :| IsLeast(m, rest);
      assert IsLeast(if y <= m then y else m, s);
    }
  }

  function Least(s: set<nat>): (m: nat)
    requires s != {}
    ensures IsLeast(m, s)
  {
    LeastExists(s);
    var m :| IsLeast(m, s);
    m
  }

  ghost predicate StrictlyAscending(s: seq<nat>) {
    forall i, j :: 0 <= i < j < |s| ==> s[i] < s[j]
  }

  function Ascending(s: set<nat>): (r: seq<nat>)
    ensures |r| == |s|
    ensures forall x :: x in r <==> x in s
  {
    if s == {} then []
    else
      var m := Least(s);
      [m] + Ascending(s - {m})
  }

  lemma {:induction false} AscendingIsSorted(s: set<nat>)
    ensures StrictlyAscending(Ascending(s)) && NoDuplicates(Ascending(s))
  {
    if s != {} {
      var m := Least(s);
      var rest := Ascending(s - {m});
      AscendingIsSorted(s - {m});
      forall i | 0 <= i < |rest| ensures m < rest[i] {
        assert rest[i] in rest;
      }
      HeadIsLeast(m, rest);
    }
  }

  lemma HeadIsLeast(m: nat, rest: seq<nat>)
    requires StrictlyAscending(rest) && NoDuplicates(rest) && forall i :: 0 <= i < |rest| ==> m < rest[i]
    ensures StrictlyAscending([m] + rest) && NoDuplicates([m] + rest)
  {
  }

  // ---------------------------------------------------------------------
  // Sums over finite sets

  function SumOver(s: set<nat>, f: nat -> nat): nat
  {
    if s == {} then 0
    else
      var m := Least(s);
      f(m) + SumOver(s - {m}, f)
  }

  lemma {:induction false} SumOverRemove(s: set<nat>, x: nat, f: nat -> nat)
    requires x in s
    ensures SumOver(s, f) == f(x) + SumOver(s - {x}, f)
  {
    var m := Least(s);
    if m != x {
      SumOverRemove(s - {m}, x, f);
      var rest := s - {x};
      assert m in rest && rest <= s;
      assert Least(rest) == m;
      assert rest - {m} == s - {m} - {x};
    }
  }

  lemma SumOverAdd(s: set<nat>, x: nat, f: nat -> nat)
    requires x !in s
    ensures SumOver(s + {x}, f) == f(x) + SumOver(s, f)
  {
    SumOverRemove(s + {x}, x, f);
    assert s + {x} - {x} == s;
  }

  lemma {:induction false} SumOverCongruence(s: set<nat>, f: nat -> nat, g: nat -> nat)
    requires forall x :: x in s ==> f(x) == g(x)
    ensures SumOver(s, f) == SumOver(s, g)
  {
    if s != {} {
      SumOverCongruence(s - {Least(s)}, f, g);
    }
  }

  lemma {:induction false} SumOverMonotone(s: set<nat>, f: nat -> nat, g: nat -> nat)
    requires forall x :: x in s ==> f(x) <= g(x)
    ensures SumOver(s, f) <= SumOver(s, g)
  {
    if s != {} {
      SumOverMonotone(s - {Least(s)}, f, g);
    }
  }

  lemma {:induction false} SumOverUnion(a: set<nat>, b: set<nat>, f: nat -> nat)
    requires a !! b
    ensures SumOver(a + b, f) == SumOver(a, f) + SumOver(b, f)
  {
    if a == {} {
      assert a + b == b;
    } else {
      var m := Least(a);
      SumOverUnion(a - {m}, b, f);
      SumOverRemove(a + b, m, f);
      assert a + b - {m} == (a - {m}) + b;
    }
  }

  lemma SumOverSubset(a: set<nat>, b: set<nat>, f: nat -> nat)
    requires a <= b
    ensures SumOver(a, f) <= SumOver(b, f)
  {
    SumOverUnion(a, b - a, f);
    assert a + (b - a) == b;
  }

  /** The sum of `f` along a sequence. */
  function SumAlong<T>(s: seq<T>, f: T -> nat): nat
  {
    if s == [] then 0 else f(s[0]) + SumAlong(s[1..], f)
  }

  lemma {:induction false} SumAlongConcat<T>(a: seq<T>, b: seq<T>, f: T -> nat)
    ensures SumAlong(a + b, f) == SumAlong(a, f) + SumAlong(b, f)
  {
    if a == [] {
      assert a + b == b;
    } else {
      assert (a + b)[1..] == a[1..] + b;
      SumAlongConcat(a[1..], b, f);
    }
  }

  lemma {:induction false} SumAlongIsSumOver(s: seq<nat>, f: nat -> nat)
    requires NoDuplicates(s)
    ensures SumAlong(s, f) == SumOver(Elements(s), f)
  {
    if s == [] {
      assert Elements(s) == {};
    } else {
      assert s[0] !in s[1..];
      SumAlongIsSumOver(s[1..], f);
      assert Elements(s) == Elements(s[1..]) + {s[0]};
      SumOverAdd(Elements(s[1..]), s[0], f);
    }
  }
}
