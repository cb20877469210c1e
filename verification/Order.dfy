/** Lexicographic order on strings, the order in which names are sorted and in
    which ordered maps are walked. */
module Order {

  predicate Less(a: string, b: string)
  {
    b != [] && (a == [] || a[0] < b[0] || (a[0] == b[0] && Less(a[1..], b[1..])))
  }

  lemma LessIrreflexive(a: string)
    ensures !Less(a, a)
  {
  }

  lemma {:induction false} LessTransitive(a: string, b: string, c: string)
    requires Less(a, b) && Less(b, c)
    ensures Less(a, c)
  {
    if a != [] && a[0] == b[0] == c[0] {
      LessTransitive(a[1..], b[1..], c[1..]);
    }
  }

  lemma {:induction false} LessTotal(a: string, b: string)
    ensures Less(a, b) || a == b || Less(b, a)
  {
    if a != [] && b != [] && a[0] == b[0] {
      LessTotal(a[1..], b[1..]);
      assert a == [a[0]] + a[1..] && b == [b[0]] + b[1..];
    }
  }

  lemma LessAsymmetric(a: string, b: string)
    requires Less(a, b)
    ensures !Less(b, a)
  {
    if Less(b, a) {
      LessTransitive(a, b, a);
      LessIrreflexive(a);
    }
  }

  /** Equal-length prefixes decide first. */
  lemma {:induction false} LessConcat(a: string, b: string, c: string, d: string)
    requires |a| == |b|
    ensures Less(a + c, b + d) <==> Less(a, b) || (a == b && Less(c, d))
  {
    if a == [] {
      assert a + c == c && b + d == d;
    } else {
      assert (a + c)[1..] == a[1..] + c && (b + d)[1..] == b[1..] + d;
      LessConcat(a[1..], b[1..], c, d);
      assert a == [a[0]] + a[1..] && b == [b[0]] + b[1..];
    }
  }

  ghost predicate Ascending(s: seq<string>)
  {
    forall i, j | 0 <= i < j < |s| :: Less(s[i], s[j])
  }

  ghost function Elements(s: seq<string>): set<string>
  {
    set x | x in s
  }

  predicate IsLeast(keys: set<string>, m: string)
  {
    m in keys && forall x | x in keys :: x == m || Less(m, x)
  }

  lemma LeastExists(keys: set<string>)
    requires keys != {}
    ensures exists m :: IsLeast(keys, m)
  {
    var k :| k in keys;
    var rest := keys - {k};
    if rest == {} {
      assert keys == {k};
      assert IsLeast(keys, k);
    } else {
      LeastExists(rest);
      var m :| IsLeast(rest, m);
      LessTotal(k, m);
      if Less(k, m) {
        forall x | x in keys ensures x == k || Less(k, x) {
          if x != k && x != m {
            LessTransitive(k, m, x);
          }
        }
        assert IsLeast(keys, k);
      } else {
        assert IsLeast(keys, m);
      }
    }
  }

  lemma LeastUnique(keys: set<string>, m: string, m': string)
    requires IsLeast(keys, m) && IsLeast(keys, m')
    ensures m == m'
  {
    if m != m' {
      LessAsymmetric(m, m');
      assert false;
    }
  }

  /** The first key of an ordered map. */
  function Least(keys: set<string>): (m: string)
    requires keys != {}
    ensures IsLeast(keys, m)
  {
    LeastExists(keys);
    assert forall m, m' | IsLeast(keys, m) && IsLeast(keys, m') :: m == m' by {
      forall m, m' | IsLeast(keys, m) && IsLeast(keys, m') ensures m == m' {
        LeastUnique(keys, m, m');
      }
    }
    var m :| IsLeast(keys, m);
    m
  }

  lemma PrependLeast(keys: set<string>, m: string, rest: seq<string>)
    requires IsLeast(keys, m) && Ascending(rest) && Elements(rest) == keys - {m}
    ensures Ascending([m] + rest) && Elements([m] + rest) == keys
  {
    hide Less;
    var s := [m] + rest;
    forall i, j | 0 <= i < j < |s| ensures Less(s[i], s[j]) {
      assert s[j] == rest[j - 1];
      if i == 0 {
        assert rest[j - 1] in Elements(rest);
      } else {
        assert s[i] == rest[i - 1];
      }
    }
    forall x ensures x in Elements(s) <==> x in keys {
      assert x in s <==> x == m || x in rest;
      assert x in rest <==> x in Elements(rest);
    }
  }

  /** The keys of an ordered map in the order in which it is walked. */
  function Sorted(keys: set<string>): (s: seq<string>)
    ensures |s| == |keys|
    ensures Ascending(s) && Elements(s) == keys
  {
    if keys == {} then []
    else
      var m := Least(keys);
      var rest := Sorted(keys - {m});
      PrependLeast(keys, m, rest);
      [m] + rest
  }

  lemma AscendingDistinct(s: seq<string>)
    requires Ascending(s)
    ensures forall i, j | 0 <= i < j < |s| :: s[i] != s[j]
  {
    forall i, j | 0 <= i < j < |s| ensures s[i] != s[j] {
      LessIrreflexive(s[i]);
    }
  }

  lemma AscendingTail(s: seq<string>)
    requires Ascending(s) && s != []
    ensures Ascending(s[1..]) && s[0] !in s[1..] && Elements(s[1..]) == Elements(s) - {s[0]}
  {
    if s[0] in s[1..] {
      var i :| 0 < i < |s| && s[i] == s[0];
      LessIrreflexive(s[0]);
      assert false;
    }
    assert s == [s[0]] + s[1..];
  }

  /** There is only one way to list a set in ascending order. */
  lemma {:induction false} AscendingUnique(s: seq<string>, t: seq<string>)
    requires Ascending(s) && Ascending(t) && Elements(s) == Elements(t)
    ensures s == t
  {
    assert s != [] ==> s[0] in Elements(t);
    assert t != [] ==> t[0] in Elements(s);
    if s != [] {
      if s[0] != t[0] {
        LessAsymmetric(s[0], t[0]);
        assert false;
      }
      AscendingTail(s);
      AscendingTail(t);
      AscendingUnique(s[1..], t[1..]);
      assert s == [s[0]] + s[1..] && t == [t[0]] + t[1..];
    }
  }
}
