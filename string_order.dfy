/**
 * Kotlin's natural order on strings (`String.compareTo`), which `sorted()`
 * uses: the first differing character decides, and a proper prefix comes
 * first. Also the sorted list of a set of strings.
 */
module StringOrder {

  /** `a < b` in `String.compareTo`'s order. */
  predicate Less(a: string, b: string)
  {
    if a == [] then b != []
    else b != [] && (a[0] < b[0] || (a[0] == b[0] && Less(a[1..], b[1..])))
  }

  /** No string comes before itself. */
  lemma {:induction false} LessIrreflexive(a: string)
    ensures !Less(a, a)
    decreases |a|
  {
    if a != [] {
      LessIrreflexive(a[1..]);
    }
  }

  /** The order is transitive. */
  lemma {:induction false} LessTransitive(a: string, b: string, c: string)
    requires Less(a, b) && Less(b, c)
    ensures Less(a, c)
    decreases |a|
  {
    if a != [] && a[0] == b[0] && b[0] == c[0] {
      LessTransitive(a[1..], b[1..], c[1..]);
    }
  }

  /** Any two different strings are ordered one way or the other. */
  lemma {:induction false} LessTotal(a: string, b: string)
    requires a != b
    ensures Less(a, b) || Less(b, a)
    decreases |a|
  {
    if a != [] && b != [] && a[0] == b[0] {
      assert a == [a[0]] + a[1..] && b == [b[0]] + b[1..];
      LessTotal(a[1..], b[1..]);
    }
  }

  /** `m` comes before every other element of `s`. */
  predicate IsLeast(m: string, s: set<string>)
  {
    forall x :: x in s && x != m ==> Less(m, x)
  }

  /** Adding `y` to a set with least element `m` leaves `y` or `m` least. */
  lemma LeastAfterInsert(s: set<string>, m: string, y: string)
    requires IsLeast(m, s)
    ensures IsLeast(y, s + {y}) || IsLeast(m, s + {y})
  {
    if y != m {
      LessTotal(y, m);
      if Less(y, m) {
        forall x | x in s + {y} && x != y
          ensures Less(y, x)
        {
          if x != m {
            LessTransitive(y, m, x);
          }
        }
      }
    }
  }

  /** A non-empty set of strings has a least element. */
  lemma {:induction false} LeastExists(s: set<string>)
    requires s != {}
    ensures exists m :: m in s && IsLeast(m, s)
    decreases s
  {
    var y :| y in s;
    var rest := s - {y};
    if rest == {} {
      assert s == {y} && IsLeast(y, s);
    } else {
      LeastExists(rest);
      var m :| m in rest && IsLeast(m, rest);
      LeastAfterInsert(rest, m, y);
      assert rest + {y} == s;
    }
  }

  /** `xs` is strictly increasing, so it is in order and holds no string twice. */
  predicate StrictlySorted(xs: seq<string>)
  {
    forall i, j :: 0 <= i < j < |xs| ==> Less(xs[i], xs[j])
  }

  /**
   * `s.sorted()`: the elements of `s` in increasing order, each once.
   */
  ghost function Sorted(s: set<string>): (r: seq<string>)
    ensures |r| == |s|
    ensures forall x :: x in r <==> x in s
    ensures StrictlySorted(r)
    decreases s
  {
    if s == {} then []
    else
      LeastExists(s);
      var m :| m in s && IsLeast(m, s);
      var tail := Sorted(s - {m});
      assert forall j :: 0 <= j < |tail| ==> tail[j] in s - {m};
      [m] + tail
  }

  /** Only one strictly increasing list holds exactly the elements of a set. */
  lemma {:induction false} SortedUnique(xs: seq<string>, ys: seq<string>)
    requires StrictlySorted(xs) && StrictlySorted(ys)
    requires forall x :: x in xs <==> x in ys
    ensures xs == ys
    decreases |xs|
  {
    assert xs != [] ==> xs[0] in xs;
    assert ys != [] ==> ys[0] in ys;
    if xs != [] && ys != [] {
      assert xs[0] in ys && ys[0] in xs;
      var j :| 0 <= j < |xs| && xs[j] == ys[0];
      var k :| 0 <= k < |ys| && ys[k] == xs[0];
      if j != 0 && k != 0 {
        LessTransitive(xs[0], ys[0], xs[0]);
        LessIrreflexive(xs[0]);
        assert false;
      }
      assert xs[0] == ys[0];
      forall x
        ensures x in xs[1..] <==> x in ys[1..]
      {
        if x in xs[1..] {
          var i :| 1 <= i < |xs| && xs[i] == x;
          LessIrreflexive(xs[0]);
          assert x in ys && x != ys[0];
        }
        if x in ys[1..] {
          var i :| 1 <= i < |ys| && ys[i] == x;
          LessIrreflexive(ys[0]);
          assert x in xs && x != xs[0];
        }
      }
      SortedUnique(xs[1..], ys[1..]);
      assert xs == [xs[0]] + xs[1..] && ys == [ys[0]] + ys[1..];
    }
  }
}
