/** Sequence helpers: duplicate-freedom, removal of every occurrence of a value
    (`Array.prototype.filter(s => s !== x)`) and the zone toggle built on it. */
module Lists {

  /** No value occurs twice. */
  predicate NoDup<T(==)>(s: seq<T>) {
    s == [] || (s[0] !in s[1..] && NoDup(s[1..]))
  }

  /** `s` with every occurrence of `x` dropped, the other elements kept in order. */
  function Without(s: seq<string>, x: string): (r: seq<string>)
    ensures forall y :: y in r <==> y in s && y != x
    ensures |r| <= |s|
  {
    if s == [] then []
    else
      assert s == [s[0]] + s[1..];
      if s[0] == x then Without(s[1..], x) else [s[0]] + Without(s[1..], x)
  }

  /** Removing a value that is absent changes nothing. */
  lemma {:induction false} WithoutAbsent(s: seq<string>, x: string)
    requires x !in s
    ensures Without(s, x) == s
  {
    if s != [] {
      assert s == [s[0]] + s[1..];
      WithoutAbsent(s[1..], x);
    }
  }

  /** Removal works element by element, so it keeps the relative order of what remains. */
  lemma {:induction false} WithoutConcat(a: seq<string>, b: seq<string>, x: string)
    ensures Without(a + b, x) == Without(a, x) + Without(b, x)
  {
    if a == [] {
      assert a + b == b;
    } else {
      assert (a + b)[0] == a[0];
      assert (a + b)[1..] == a[1..] + b;
      WithoutConcat(a[1..], b, x);
    }
  }

  /** Removal never introduces a duplicate. */
  lemma {:induction false} WithoutNoDup(s: seq<string>, x: string)
    requires NoDup(s)
    ensures NoDup(Without(s, x))
  {
    if s != [] {
      WithoutNoDup(s[1..], x);
      if s[0] != x {
        var r := [s[0]] + Without(s[1..], x);
        assert r[1..] == Without(s[1..], x);
      }
    }
  }

  /** Appending a value that is absent keeps a list duplicate-free. */
  lemma {:induction false} AppendNoDup<T>(s: seq<T>, x: T)
    requires NoDup(s) && x !in s
    ensures NoDup(s + [x])
  {
    if s != [] {
      assert (s + [x])[1..] == s[1..] + [x];
      AppendNoDup(s[1..], x);
    } else {
      assert [x][1..] == [];
    }
  }

  /** The updater of `handleSpaceToggle`: drop `x` if present, otherwise append it. */
  function Toggle(s: seq<string>, x: string): (r: seq<string>)
    ensures x in r <==> x !in s
    ensures forall y :: y != x ==> (y in r <==> y in s)
  {
    if x in s then Without(s, x) else s + [x]
  }

  /** Toggling never introduces a duplicate. */
  lemma ToggleNoDup(s: seq<string>, x: string)
    requires NoDup(s)
    ensures NoDup(Toggle(s, x))
  {
    if x in s {
      WithoutNoDup(s, x);
    } else {
      AppendNoDup(s, x);
    }
  }

  /** Toggling the same value twice: an absent value leaves the list exactly as it
      was; a present one is moved to the end. Either way the result is duplicate-free
      and holds the same values as before. */
  lemma ToggleTwice(s: seq<string>, x: string)
    requires NoDup(s)
    ensures x !in s ==> Toggle(Toggle(s, x), x) == s
    ensures x in s ==> Toggle(Toggle(s, x), x) == Without(s, x) + [x]
    ensures NoDup(Toggle(Toggle(s, x), x))
    ensures forall y :: y in Toggle(Toggle(s, x), x) <==> y in s
  {
    ToggleNoDup(s, x);
    ToggleNoDup(Toggle(s, x), x);
    if x !in s {
      WithoutConcat(s, [x], x);
      WithoutAbsent(s, x);
      assert Without([x], x) == [];
    }
  }

  /** A sequence has no more distinct values than elements. */
  lemma {:induction false} CardSetOfSeq<T>(s: seq<T>)
    ensures |set y | y in s| <= |s|
  {
    if s != [] {
      CardSetOfSeq(s[1..]);
      assert s == [s[0]] + s[1..];
      assert (set y | y in s) == (set y | y in s[1..]) + {s[0]};
    }
  }

  /** A subset of a sequence's values is no larger than the sequence. */
  lemma SubsetOfSeqCard<T>(a: set<T>, s: seq<T>)
    requires forall y :: y in a ==> y in s
    ensures |a| <= |s|
  {
    CardSetOfSeq(s);
    assert a <= set y | y in s;
    SubsetCard(a, set y | y in s);
  }

  lemma SubsetCard<T>(a: set<T>, b: set<T>)
    requires a <= b
    ensures |a| <= |b|
  {
    assert b == a + (b - a);
  }
}
