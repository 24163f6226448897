/** The two wrapper datatypes and the sequence facts the rest of the project shares. */
module Base {

  datatype Option<+T> = None | Some(value: T)

  datatype Result<+T, +E> = Ok(value: T) | Err(error: E)

  ghost predicate Distinct<T(!new)>(s: seq<T>) {
    forall i, j :: 0 <= i < j < |s| ==> s[i] != s[j]
  }

  function Elements<T(==)>(s: seq<T>): set<T> {
    set x | x in s
  }

  function MapSeq<S, T>(s: seq<S>, f: S -> T): (r: seq<T>)
    ensures |r| == |s|
    ensures forall i :: 0 <= i < |s| ==> r[i] == f(s[i])
  {
    seq(|s|, i requires 0 <= i < |s| => f(s[i]))
  }

  /** The pigeonhole step: a repetition-free sequence is no longer than any set that holds it. */
  lemma {:induction false} DistinctWithin<T(!new)>(s: seq<T>, bound: set<T>)
    requires Distinct(s)
    requires forall x :: x in s ==> x in bound
    ensures |s| <= |bound|
  {
    if s != [] {
      var last := s[|s| - 1];
      var rest := s[..|s| - 1];
      assert last !in rest;
      DistinctWithin(rest, bound - {last});
    }
  }

  lemma {:induction false} SubsetIsNoLarger<T>(a: set<T>, b: set<T>)
    requires a <= b
    ensures |a| <= |b|
    ensures |a| == |b| ==> a == b
  {
    assert b == a + (b - a);
    assert |b| == |a| + |b - a|;
  }

  /** A repetition-free sequence that fills a set has that set's size. */
  lemma {:induction false} DistinctSize<T(!new)>(s: seq<T>)
    requires Distinct(s)
    ensures |Elements(s)| == |s|
  {
    if s == [] {
      assert Elements(s) == {};
    } else {
      var rest := s[..|s| - 1];
      var last := s[|s| - 1];
      DistinctSize(rest);
      assert last !in rest;
      assert Elements(s) == Elements(rest) + {last};
    }
  }

  lemma DistinctAppend<T(!new)>(a: seq<T>, b: seq<T>)
    requires Distinct(a) && Distinct(b) && forall x :: x in b ==> x !in a
    ensures Distinct(a + b)
  {
    forall i, j | 0 <= i < j < |a + b| ensures (a + b)[i] != (a + b)[j] {
      if i < |a| <= j {
        assert (a + b)[i] in a && (a + b)[j] in b;
      }
    }
  }

  // Sorting numbers.

  ghost predicate Ascending(s: seq<nat>) {
    forall i, j :: 0 <= i < j < |s| ==> s[i] < s[j]
  }

  function InsertAscending(s: seq<nat>, x: nat): seq<nat> {
    if s == [] || x < s[0] then [x] + s else [s[0]] + InsertAscending(s[1..], x)
  }

  /** `sort_unstable`. */
  function SortAscending(s: seq<nat>): seq<nat> {
    if s == [] then [] else InsertAscending(SortAscending(s[1..]), s[0])
  }

  lemma {:induction false} InsertAscendingCorrect(s: seq<nat>, x: nat)
    requires Ascending(s) && x !in s
    ensures Ascending(InsertAscending(s, x))
    ensures forall y :: y in InsertAscending(s, x) <==> y == x || y in s
  {
    if s != [] && s[0] <= x {
      InsertAscendingCorrect(s[1..], x);
      assert s == [s[0]] + s[1..];
      var rest := InsertAscending(s[1..], x);
      forall j | 0 <= j < |rest| ensures s[0] < rest[j] {
        assert rest[j] == x || rest[j] in s[1..];
      }
    }
  }

  lemma {:induction false} SortAscendingCorrect(s: seq<nat>)
    requires Distinct(s)
    ensures Ascending(SortAscending(s))
    ensures forall y :: y in SortAscending(s) <==> y in s
  {
    if s != [] {
      SortAscendingCorrect(s[1..]);
      assert s == [s[0]] + s[1..] && s[0] !in s[1..];
      InsertAscendingCorrect(SortAscending(s[1..]), s[0]);
    }
  }

  /** A set has one ascending listing. */
  lemma {:induction false} AscendingUnique(s: seq<nat>, t: seq<nat>)
    requires Ascending(s) && Ascending(t) && Elements(s) == Elements(t)
    ensures s == t
    decreases |s|
  {
    AscendingTail(s);
    AscendingTail(t);
    if s != [] {
      assert s[0] in Elements(t) && t[0] in Elements(s);
      AscendingUnique(s[1..], t[1..]);
    }
  }

  lemma AscendingTail(s: seq<nat>)
    requires Ascending(s)
    ensures s == [] <==> Elements(s) == {}
    ensures s != [] ==> s == [s[0]] + s[1..] && Ascending(s[1..]) && Elements(s[1..]) == Elements(s) - {s[0]}
    ensures s != [] ==> s[0] in Elements(s) && forall x :: x in Elements(s) ==> s[0] <= x
  {
    if s != [] {
      assert s == [s[0]] + s[1..];
      assert s[0] in Elements(s);
    }
  }
}
