/**
 * Strictly ordered, duplicate-free sequences: what iterating a std::set
 * yields, and what std::sort followed by std::unique leaves in a vector.
 */
module Ordered {
  import opened Text

  ghost predicate StrictTotalOrder<T(!new)>(lt: (T, T) -> bool)
  {
    && (forall a :: !lt(a, a))
    && (forall a, b, c :: lt(a, b) && lt(b, c) ==> lt(a, c))
    && (forall a, b :: a != b ==> lt(a, b) || lt(b, a))
  }

  predicate StrictlySorted<T>(xs: seq<T>, lt: (T, T) -> bool)
  {
    forall i, j :: 0 <= i < j < |xs| ==> lt(xs[i], xs[j])
  }

  /** std::set::insert: places x at its rank, or leaves the sequence alone when x is already there. */
  function Insert<T(==,!new)>(xs: seq<T>, x: T, lt: (T, T) -> bool): (r: seq<T>)
    requires StrictTotalOrder(lt)
    requires StrictlySorted(xs, lt)
    ensures StrictlySorted(r, lt)
    ensures forall y :: y in r <==> y in xs || y == x
  {
    if xs == [] then [x]
    else if x == xs[0] then xs
    else if lt(x, xs[0]) then [x] + xs
    else
      var rest := Insert(xs[1..], x, lt);
      assert forall y :: y in rest ==> lt(xs[0], y) by {
        forall y | y in rest
          ensures lt(xs[0], y)
        {
          if y in xs[1..] {
            var i :| 0 <= i < |xs[1..]| && xs[1..][i] == y;
            assert xs[i + 1] == y;
          }
        }
      }
      [xs[0]] + rest
  }

  /** std::sort then std::unique: the elements of xs, ascending, each once. */
  function SortUnique<T(==,!new)>(xs: seq<T>, lt: (T, T) -> bool): (r: seq<T>)
    requires StrictTotalOrder(lt)
    ensures StrictlySorted(r, lt)
    ensures forall y :: y in r <==> y in xs
  {
    if xs == [] then []
    else
      var init := xs[..|xs| - 1];
      assert forall y :: y in xs <==> y in init || y == xs[|xs| - 1] by {
        assert xs == init + [xs[|xs| - 1]];
      }
      Insert(SortUnique(init, lt), xs[|xs| - 1], lt)
  }

  /**
   * A strictly sorted sequence is determined by its elements: whatever
   * algorithm sorts and deduplicates, the result is the same.
   */
  lemma {:induction false} SortedUnique<T(!new)>(xs: seq<T>, ys: seq<T>, lt: (T, T) -> bool)
    requires StrictTotalOrder(lt)
    requires StrictlySorted(xs, lt) && StrictlySorted(ys, lt)
    requires forall z :: z in xs <==> z in ys
    ensures xs == ys
  {
    FirstIsMember(xs);
    FirstIsMember(ys);
    if xs != [] && ys != [] {
      var a, b := xs[0], ys[0];
      HeadIsLeast(xs, lt, b);
      HeadIsLeast(ys, lt, a);
      forall z
        ensures z in xs[1..] <==> z in ys[1..]
      {
        if z in xs[1..] {
          var i :| 1 <= i < |xs| && xs[i] == z;
          assert lt(a, z);
          assert z != a;
          assert z in ys;
          assert z != ys[0];
          assert ys == [ys[0]] + ys[1..];
        }
        if z in ys[1..] {
          var i :| 1 <= i < |ys| && ys[i] == z;
          assert lt(b, z);
          assert z != b;
          assert z in xs;
          assert xs == [xs[0]] + xs[1..];
        }
      }
      SortedUnique(xs[1..], ys[1..], lt);
      assert xs == [a] + xs[1..] && ys == [b] + ys[1..];
    }
  }

  lemma FirstIsMember<T>(xs: seq<T>)
    ensures xs != [] ==> xs[0] in xs
  {
  }

  lemma HeadIsLeast<T(!new)>(xs: seq<T>, lt: (T, T) -> bool, z: T)
    requires StrictTotalOrder(lt) && StrictlySorted(xs, lt)
    requires z in xs
    ensures z == xs[0] || lt(xs[0], z)
  {
    var i :| 0 <= i < |xs| && xs[i] == z;
  }

  function IntLess(a: int, b: int): bool
  {
    a < b
  }

  lemma IntLessIsStrictTotal()
    ensures StrictTotalOrder(IntLess)
  {
  }

  /** std::string's operator< is a strict total order, as std::set and std::map rely on. */
  lemma LexLessIsStrictTotal()
    ensures StrictTotalOrder(LexLess)
  {
    forall a ensures !LexLess(a, a) {
      LexLessIrreflexive(a);
    }
    forall a, b, c | LexLess(a, b) && LexLess(b, c) ensures LexLess(a, c) {
      LexLessTransitive(a, b, c);
    }
    forall a, b | a != b ensures LexLess(a, b) || LexLess(b, a) {
      LexLessTotal(a, b);
    }
  }
}
