/** Strings compared character by character, and the sorted listing of a finite set of
    strings: the order that Python's `list.sort` and JavaScript's `Array.sort` give to
    distinct strings over characters below U+10000. */
module LexOrder {

  predicate Less(a: string, b: string) {
    |b| > 0 && (|a| == 0 || a[0] < b[0] || (a[0] == b[0] && Less(a[1..], b[1..])))
  }

  lemma {:induction false} Asymmetric(a: string, b: string)
    requires Less(a, b)
    ensures !Less(b, a) && a != b
  {
    if |a| > 0 && a[0] == b[0] {
      Asymmetric(a[1..], b[1..]);
    }
  }

  lemma {:induction false} Transitive(a: string, b: string, c: string)
    requires Less(a, b) && Less(b, c)
    ensures Less(a, c)
  {
    if |a| > 0 && a[0] == b[0] == c[0] {
      Transitive(a[1..], b[1..], c[1..]);
    }
  }

  lemma {:induction false} Total(a: string, b: string)
    ensures a == b || Less(a, b) || Less(b, a)
  {
    if |a| > 0 && |b| > 0 && a[0] == b[0] {
      Total(a[1..], b[1..]);
      assert a == [a[0]] + a[1..] && b == [b[0]] + b[1..];
    }
  }

  /** A common prefix does not matter. */
  lemma {:induction false} CommonPrefix(p: string, a: string, b: string)
    ensures Less(p + a, p + b) <==> Less(a, b)
  {
    if p == [] {
      assert p + a == a && p + b == b;
    } else {
      assert (p + a)[1..] == p[1..] + a && (p + b)[1..] == p[1..] + b;
      CommonPrefix(p[1..], a, b);
    }
  }

  /** Two different strings of one length are ordered before their tails are looked at. */
  lemma {:induction false} DecidedByPrefix(a: string, b: string, s: string, t: string)
    requires |a| == |b| && a != b
    ensures Less(a + s, b + t) <==> Less(a, b)
  {
    assert |a| > 0;
    assert a == [a[0]] + a[1..] && b == [b[0]] + b[1..];
    assert (a + s)[1..] == a[1..] + s && (b + t)[1..] == b[1..] + t;
    if a[0] == b[0] {
      DecidedByPrefix(a[1..], b[1..], s, t);
    }
  }

  ghost predicate Ascending(s: seq<string>) {
    forall i, j :: 0 <= i < j < |s| ==> Less(s[i], s[j])
  }

  ghost predicate IsLeast(m: string, names: set<string>) {
    m in names && forall x :: x in names ==> x == m || Less(m, x)
  }

  lemma {:induction false} LeastExists(names: set<string>)
    requires names != {}
    ensures exists m :: IsLeast(m, names)
    decreases |names|
  {
    var x :| x in names;
    var rest := names - {x};
    if rest == {} {
      assert forall y :: y in names ==> y == x || y in rest;
      assert IsLeast(x, names);
    } else {
      LeastExists(rest);
      var m :| IsLeast(m, rest);
      Total(m, x);
      if Less(m, x) {
        assert IsLeast(m, names);
      } else {
        forall y | y in names ensures y == x || Less(x, y) {
          if y != x && y != m {
            Transitive(x, m, y);
          }
        }
        assert IsLeast(x, names);
      }
    }
  }

  lemma {:induction false} LeastUnique(names: set<string>, m: string, m': string)
    requires IsLeast(m, names) && IsLeast(m', names)
    ensures m == m'
  {
    if m != m' {
      Asymmetric(m, m');
    }
  }

  function Least(names: set<string>): (m: string)
    requires names != {}
    ensures IsLeast(m, names)
  {
    LeastExists(names);
    assert forall a, b :: IsLeast(a, names) && IsLeast(b, names) ==> a == b by {
      forall a, b | IsLeast(a, names) && IsLeast(b, names) ensures a == b {
        LeastUnique(names, a, b);
      }
    }
    assert forall x :: IsLeast(x, names) <==> x in names && forall y :: y in names ==> y == x || Less(x, y);
    var m :| m in names && forall x :: x in names ==> x == m || Less(m, x);
    m
  }

  /** The members of `names`, each once, in ascending order. */
  function Sorted(names: set<string>): (s: seq<string>)
    ensures Ascending(s)
    ensures forall x :: x in s <==> x in names
    ensures |s| == |names|
    decreases |names|
  {
    if names == {} then [] else
      var m := Least(names);
      var rest := Sorted(names - {m});
      assert forall i :: 0 <= i < |rest| ==> rest[i] in rest;
      [m] + rest
  }
}
