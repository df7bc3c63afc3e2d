/** Shared vocabulary: Go's uint64, optional values, success or failure, and sorting. */
module Common {
  const MAX_UINT64: nat := 0xFFFF_FFFF_FFFF_FFFF

  /** A Go uint64: every addition or product that may wrap has to be written out. */
  type U64 = n: nat | n <= MAX_UINT64

  datatype Option<+T> = None | Some(value: T)

  /** A Go `(value, error)` pair. Error texts are not modelled. */
  datatype Result<+T> = Ok(value: T) | Err

  // ---------- Sorting ----------

  ghost predicate TotalPreorder<T(!new)>(le: (T, T) -> bool) {
    && (forall x, y :: le(x, y) || le(y, x))
    && (forall x, y, z :: le(x, y) && le(y, z) ==> le(x, z))
  }

  ghost predicate Sorted<T>(le: (T, T) -> bool, s: seq<T>) {
    forall i, j :: 0 <= i < j < |s| ==> le(s[i], s[j])
  }

  /** Stands for `sort.Slice` and `sort.Strings`: an ordered permutation of the input. */
  function Sort<T(!new)>(le: (T, T) -> bool, s: seq<T>): (r: seq<T>)
    requires TotalPreorder(le)
    ensures Sorted(le, r) && multiset(r) == multiset(s)
  {
    if s == [] then [] else
      assert s == [s[0]] + s[1..];
      Insert(le, s[0], Sort(le, s[1..]))
  }

  function Insert<T(!new)>(le: (T, T) -> bool, x: T, s: seq<T>): (r: seq<T>)
    requires TotalPreorder(le) && Sorted(le, s)
    ensures Sorted(le, r) && multiset(r) == multiset{x} + multiset(s)
  {
    if s == [] || le(x, s[0]) then [x] + s else
      assert s == [s[0]] + s[1..];
      var rest := Insert(le, x, s[1..]);
      InsertElements(x, s[1..], rest);
      [s[0]] + rest
  }

  lemma {:induction false} InsertElements<T(!new)>(x: T, s: seq<T>, r: seq<T>)
    requires multiset(r) == multiset{x} + multiset(s)
    ensures forall i :: 0 <= i < |r| ==> r[i] == x || r[i] in s
  {
    forall i | 0 <= i < |r| ensures r[i] == x || r[i] in s {
      assert r[i] in multiset(r);
    }
  }

  /** Two ordered permutations of the same values are the same list when the order separates values. */
  lemma {:induction false} SortedUnique<T(!new)>(le: (T, T) -> bool, a: seq<T>, b: seq<T>)
    requires TotalPreorder(le) && Sorted(le, a) && Sorted(le, b) && multiset(a) == multiset(b)
    requires forall x, y :: x in a && y in a && le(x, y) && le(y, x) ==> x == y
    ensures a == b
  {
    assert |multiset(a)| == |a| && |multiset(b)| == |b|;
    if a != [] {
      assert a[0] in multiset(b) && b[0] in multiset(a);
      SortedHead(le, a, b[0]);
      SortedHead(le, b, a[0]);
      MultisetTail(a);
      MultisetTail(b);
      SortedUnique(le, a[1..], b[1..]);
    }
  }

  lemma {:induction false} MultisetTail<T>(s: seq<T>)
    requires s != []
    ensures multiset(s[1..]) == multiset(s) - multiset{s[0]}
  {
    assert s == [s[0]] + s[1..];
  }

  lemma {:induction false} SortedHead<T(!new)>(le: (T, T) -> bool, s: seq<T>, x: T)
    requires TotalPreorder(le) && Sorted(le, s) && x in s
    ensures le(s[0], x)
  {
  }

  predicate NatLe(x: nat, y: nat) { x <= y }

  /** Go's string order: the first difference decides, and a prefix comes first. */
  predicate StringLe(x: string, y: string) {
    x == [] || (y != [] && (x[0] < y[0] || (x[0] == y[0] && StringLe(x[1..], y[1..]))))
  }

  lemma {:induction false} StringLeTotal(x: string, y: string)
    ensures StringLe(x, y) || StringLe(y, x)
    ensures StringLe(x, y) && StringLe(y, x) ==> x == y
  {
    if x != [] && y != [] && x[0] == y[0] {
      StringLeTotal(x[1..], y[1..]);
      assert x == [x[0]] + x[1..] && y == [y[0]] + y[1..];
    }
  }

  lemma {:induction false} StringLeTransitive(x: string, y: string, z: string)
    requires StringLe(x, y) && StringLe(y, z)
    ensures StringLe(x, z)
  {
    if x != [] && x[0] == y[0] == z[0] {
      StringLeTransitive(x[1..], y[1..], z[1..]);
    }
  }

  lemma {:induction false} StringOrder()
    ensures TotalPreorder(StringLe)
    ensures forall x, y :: StringLe(x, y) && StringLe(y, x) ==> x == y
  {
    forall x, y
      ensures StringLe(x, y) || StringLe(y, x)
      ensures StringLe(x, y) && StringLe(y, x) ==> x == y
    {
      StringLeTotal(x, y);
    }
    forall x, y, z | StringLe(x, y) && StringLe(y, z)
      ensures StringLe(x, z)
    {
      StringLeTransitive(x, y, z);
    }
  }

  function SortStrings(s: seq<string>): (r: seq<string>)
    ensures Sorted(StringLe, r) && multiset(r) == multiset(s)
  {
    StringOrder();
    Sort(StringLe, s)
  }

  // ---------- Names ----------

  /** A name of a participant, client, target or group: compared as a whole, and ordered as its text. */
  datatype Name = Name(text: string)

  const NO_NAME := Name("")

  predicate NameLe(x: Name, y: Name) { StringLe(x.text, y.text) }

  function SortNames(s: seq<Name>): (r: seq<Name>)
    ensures Sorted(NameLe, r) && multiset(r) == multiset(s)
  {
    NameOrder();
    Sort(NameLe, s)
  }

  lemma {:induction false} NameOrder()
    ensures TotalPreorder(NameLe)
    ensures forall x, y :: NameLe(x, y) && NameLe(y, x) ==> x == y
  {
    StringOrder();
    assert forall x: Name, y: Name :: x.text == y.text ==> x == y;
  }

  /** A prefix grows by one element. */
  lemma {:induction false} PrefixStep<T>(s: seq<T>, n: nat)
    requires n < |s|
    ensures s[..n + 1] == s[..n] + [s[n]]
  {
  }

  // ---------- Lists without repetition ----------

  ghost predicate Distinct<T>(s: seq<T>) {
    forall i, j :: 0 <= i < j < |s| ==> s[i] != s[j]
  }

  function Elements<T>(s: seq<T>): set<T> {
    set x | x in s
  }

  lemma {:induction false} DistinctSize<T>(s: seq<T>)
    ensures |Elements(s)| <= |s|
    ensures Distinct(s) <==> |Elements(s)| == |s|
  {
    if s == [] {
      assert Elements(s) == {};
    } else {
      DistinctSize(s[1..]);
      assert Elements(s) == {s[0]} + Elements(s[1..]);
      if s[0] in s[1..] {
        var k :| 0 <= k < |s[1..]| && s[1..][k] == s[0];
        assert s[k + 1] == s[0];
        assert Elements(s) == Elements(s[1..]);
      } else {
        if Distinct(s[1..]) {
          forall i, j | 0 <= i < j < |s| ensures s[i] != s[j] {
            assert s[j] == s[1..][j - 1];
            if i > 0 { assert s[i] == s[1..][i - 1]; }
          }
        } else {
          var i, j :| 0 <= i < j < |s[1..]| && s[1..][i] == s[1..][j];
          assert s[i + 1] == s[j + 1];
        }
      }
    }
  }

  lemma {:induction false} PermutationElements<T(!new)>(s: seq<T>, t: seq<T>)
    requires multiset(s) == multiset(t)
    ensures |s| == |t| && (forall x :: x in s <==> x in t) && (Distinct(s) <==> Distinct(t))
  {
    assert |multiset(s)| == |s| && |multiset(t)| == |t|;
    forall x ensures x in s <==> x in t {
      assert x in s <==> x in multiset(s);
      assert x in t <==> x in multiset(t);
    }
    assert Elements(s) == Elements(t);
    DistinctSize(s);
    DistinctSize(t);
  }

  /** A list without repetition is a permutation of any other with the same elements. */
  lemma {:induction false} DistinctPermutation<T(!new)>(s: seq<T>, t: seq<T>)
    requires Distinct(s) && Distinct(t) && Elements(s) == Elements(t)
    ensures multiset(s) == multiset(t)
  {
    DistinctMultiset(s);
    DistinctMultiset(t);
  }

  lemma {:induction false} DistinctMultiset<T>(s: seq<T>)
    requires Distinct(s)
    ensures multiset(s) == multiset(Elements(s))
  {
    if s != [] {
      var init, last := s[..|s| - 1], s[|s| - 1];
      assert s == init + [last] && last !in init;
      DistinctMultiset(init);
      assert Elements(s) == Elements(init) + {last};
    }
  }

  // ---------- Mapping ----------

  function Mapped<T(!new), U>(f: T -> U, s: seq<T>): (r: seq<U>)
    ensures |r| == |s| && forall i :: 0 <= i < |s| ==> r[i] == f(s[i])
  {
    seq(|s|, i requires 0 <= i < |s| => f(s[i]))
  }

  lemma {:induction false} TakenOut<T>(s: seq<T>, k: nat)
    requires k < |s|
    ensures multiset(s) == multiset(s[..k] + s[k + 1..]) + multiset{s[k]}
  {
    assert s == s[..k] + [s[k]] + s[k + 1..];
  }

  lemma {:induction false} MappedTakenOut<T(!new), U>(f: T -> U, s: seq<T>, k: nat)
    requires k < |s|
    ensures multiset(Mapped(f, s)) == multiset(Mapped(f, s[..k] + s[k + 1..])) + multiset{f(s[k])}
  {
    TakenOut(Mapped(f, s), k);
    assert Mapped(f, s)[..k] + Mapped(f, s)[k + 1..] == Mapped(f, s[..k] + s[k + 1..]);
  }

  /** Mapping keeps permutations. */
  lemma {:induction false} MappedPermutes<T(!new), U>(f: T -> U, s: seq<T>, t: seq<T>)
    requires multiset(s) == multiset(t)
    ensures multiset(Mapped(f, s)) == multiset(Mapped(f, t))
    decreases |s|
  {
    PermutationElements(s, t);
    if s != [] {
      assert s[0] in s;
      var k :| 0 <= k < |t| && t[k] == s[0];
      SameRest(s, t, k);
      MappedTakenOut(f, s, 0);
      MappedTakenOut(f, t, k);
      MappedPermutes(f, s[..0] + s[1..], t[..k] + t[k + 1..]);
    }
  }

  lemma {:induction false} SameRest<T>(s: seq<T>, t: seq<T>, k: nat)
    requires s != [] && k < |t| && t[k] == s[0] && multiset(s) == multiset(t)
    ensures multiset(s[..0] + s[1..]) == multiset(t[..k] + t[k + 1..])
  {
    TakenOut(s, 0);
    TakenOut(t, k);
    assert multiset(s[..0] + s[1..]) == multiset(s) - multiset{s[0]};
    assert multiset(t[..k] + t[k + 1..]) == multiset(t) - multiset{s[0]};
  }
}
