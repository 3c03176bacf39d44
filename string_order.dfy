/**
 * The ordering of `std::string`: lexicographic over characters, each
 * character compared as an unsigned byte (a `char` of this model whose
 * code point is that byte). It orders the keys of every `std::map<string, …>`
 * in the program and is the defaulted `<=>` of `Ticker`.
 */
module StringOrder {

  /** `a < b` for two strings. */
  predicate Less(a: string, b: string)
    decreases |a|
  {
    if |a| == 0 then |b| > 0
    else if |b| == 0 then false
    else if a[0] != b[0] then a[0] < b[0]
    else Less(a[1..], b[1..])
  }

  /** No string is below itself. */
  lemma {:induction false} LessIrreflexive(a: string)
    ensures !Less(a, a)
    decreases |a|
  {
    if |a| > 0 {
      LessIrreflexive(a[1..]);
    }
  }

  /** At most one of `a < b` and `b < a` holds. */
  lemma {:induction false} LessAsymmetric(a: string, b: string)
    ensures !(Less(a, b) && Less(b, a))
    decreases |a|
  {
    if |a| > 0 && |b| > 0 && a[0] == b[0] {
      LessAsymmetric(a[1..], b[1..]);
    }
  }

  /** The order is transitive. */
  lemma {:induction false} LessTransitive(a: string, b: string, c: string)
    requires Less(a, b) && Less(b, c)
    ensures Less(a, c)
    decreases |a|
  {
    if |a| > 0 && a[0] == b[0] && b[0] == c[0] {
      LessTransitive(a[1..], b[1..], c[1..]);
    }
  }

  /** Any two strings are equal or ordered one way or the other. */
  lemma {:induction false} LessTotal(a: string, b: string)
    ensures a == b || Less(a, b) || Less(b, a)
    decreases |a|
  {
    if |a| > 0 && |b| > 0 && a[0] == b[0] {
      LessTotal(a[1..], b[1..]);
      if a[1..] == b[1..] {
        assert a == [a[0]] + a[1..] && b == [b[0]] + b[1..];
      }
    }
  }

  /** `a` is a proper prefix of `b`. */
  ghost predicate ProperPrefix(a: string, b: string) {
    |a| < |b| && a == b[..|a|]
  }

  /** `a` and `b` agree up to a first difference where `a` holds the
      smaller character. */
  ghost predicate SmallerAtFirstDifference(a: string, b: string) {
    exists i | 0 <= i < |a| && i < |b| :: a[..i] == b[..i] && a[i] < b[i]
  }

  /** When the first characters differ, they alone decide. */
  lemma HeadsDiffer(a: string, b: string)
    requires |a| > 0 && |b| > 0 && a[0] != b[0]
    ensures !ProperPrefix(a, b)
    ensures SmallerAtFirstDifference(a, b) <==> a[0] < b[0]
  {
    if |a| < |b| {
      assert a[0] != b[..|a|][0];
    }
    forall i | 0 < i <= |a| && i <= |b|
      ensures a[..i] != b[..i]
    {
      assert a[..i][0] != b[..i][0];
    }
    assert a[..0] == b[..0];
  }

  /** When the first characters agree, both conditions carry over to the
      tails. */
  lemma HeadsAgree(a: string, b: string)
    requires |a| > 0 && |b| > 0 && a[0] == b[0]
    ensures ProperPrefix(a, b) <==> ProperPrefix(a[1..], b[1..])
    ensures SmallerAtFirstDifference(a, b) <==> SmallerAtFirstDifference(a[1..], b[1..])
  {
    var a', b' := a[1..], b[1..];
    if ProperPrefix(a', b') {
      assert a == [a[0]] + a' && b[..|a|] == [b[0]] + b'[..|a'|];
    }
    if ProperPrefix(a, b) {
      assert a' == b'[..|a'|];
    }
    if SmallerAtFirstDifference(a', b') {
      var i :| 0 <= i < |a'| && i < |b'| && a'[..i] == b'[..i] && a'[i] < b'[i];
      assert a[..i + 1] == [a[0]] + a'[..i] && b[..i + 1] == [b[0]] + b'[..i];
      assert a[i + 1] < b[i + 1];
    }
    if SmallerAtFirstDifference(a, b) {
      var i :| 0 <= i < |a| && i < |b| && a[..i] == b[..i] && a[i] < b[i];
      assert i > 0;
      assert a'[..i - 1] == a[..i][1..] == b[..i][1..] == b'[..i - 1];
      assert a'[i - 1] < b'[i - 1];
    }
  }

  /** The textbook definition, independently of the recursion: `a` is a
      proper prefix of `b`, or the two agree up to a first difference where
      `a` holds the smaller character. */
  lemma {:induction false} LessIsLexicographic(a: string, b: string)
    ensures Less(a, b) <==>
      (|a| < |b| && a == b[..|a|]) ||
      (exists i | 0 <= i < |a| && i < |b| :: a[..i] == b[..i] && a[i] < b[i])
    decreases |a|
  {
    if |a| == 0 {
    } else if |b| == 0 {
    } else if a[0] != b[0] {
      HeadsDiffer(a, b);
    } else {
      LessIsLexicographic(a[1..], b[1..]);
      HeadsAgree(a, b);
    }
  }

  /** The keys of a finite set of strings in strictly ascending order. */
  predicate Ascending(s: seq<string>) {
    forall i, j | 0 <= i < j < |s| :: Less(s[i], s[j])
  }

  /** Every non-empty finite set of strings has a least element. */
  lemma {:induction false} LeastExists(keys: set<string>)
    requires keys != {}
    ensures exists m | m in keys :: forall k | k in keys && k != m :: Less(m, k)
    decreases |keys|
  {
    var x :| x in keys;
    var rest := keys - {x};
    if rest == {} {
      assert keys == {x};
    } else {
      LeastExists(rest);
      var m :| m in rest && forall k | k in rest && k != m :: Less(m, k);
      LessTotal(m, x);
      if Less(m, x) {
        assert forall k | k in keys && k != m :: Less(m, k);
      } else {
        forall k | k in keys && k != x
          ensures Less(x, k)
        {
          if k != m {
            LessTransitive(x, m, k);
          }
        }
      }
    }
  }

  /** The least element of a non-empty set of strings. */
  ghost function Least(keys: set<string>): (m: string)
    requires keys != {}
    ensures m in keys
    ensures forall k | k in keys && k != m :: Less(m, k)
  {
    LeastExists(keys);
    var m :| m in keys && forall k | k in keys && k != m :: Less(m, k);
    m
  }

  /** The elements of `keys` listed once each in ascending order: the order
      in which a `std::map` with these keys is iterated. */
  ghost function SortedKeys(keys: set<string>): (s: seq<string>)
    ensures Ascending(s)
    ensures |s| == |keys|
    ensures forall k :: k in keys <==> k in s
    decreases |keys|
  {
    if keys == {} then []
    else
      var m := Least(keys);
      var s := SortedKeys(keys - {m});
      AscendingCons(m, s);
      [m] + s
  }

  /** A string below every element of an ascending list can head it. */
  lemma AscendingCons(m: string, s: seq<string>)
    requires Ascending(s)
    requires forall k | k in s :: Less(m, k)
    ensures Ascending([m] + s)
  {
    forall i, j | 0 <= i < j < |s| + 1
      ensures Less(([m] + s)[i], ([m] + s)[j])
    {
      assert ([m] + s)[j] == s[j - 1];
    }
  }
}
