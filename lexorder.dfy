/** The order in which the ledger's range queries return keys: lexicographic by
    code point, which for Unicode scalar values is the byte order of their UTF-8
    encodings (the order the state database iterates in). */
module LexOrder {

  /** `a` sorts strictly before `b`. */
  predicate Less(a: string, b: string)
    decreases |a|
  {
    |b| > 0 && (|a| == 0 || a[0] < b[0] || (a[0] == b[0] && Less(a[1..], b[1..])))
  }

  predicate LessEq(a: string, b: string) {
    a == b || Less(a, b)
  }

  lemma {:induction false} Irreflexive(a: string)
    ensures !Less(a, a)
  {
    if |a| > 0 {
      Irreflexive(a[1..]);
    }
  }

  lemma {:induction false} Transitive(a: string, b: string, c: string)
    requires Less(a, b) && Less(b, c)
    ensures Less(a, c)
  {
    if |a| > 0 && a[0] == b[0] && b[0] == c[0] {
      Transitive(a[1..], b[1..], c[1..]);
    }
  }

  lemma {:induction false} Total(a: string, b: string)
    requires a != b
    ensures Less(a, b) || Less(b, a)
  {
    if |a| > 0 && |b| > 0 && a[0] == b[0] {
      assert a == [a[0]] + a[1..] && b == [b[0]] + b[1..];
      Total(a[1..], b[1..]);
    }
  }

  lemma Asymmetric(a: string, b: string)
    requires Less(a, b)
    ensures !Less(b, a)
  {
    if Less(b, a) {
      Transitive(a, b, a);
      Irreflexive(a);
    }
  }

  /** A string sorts at or before every extension of it. */
  lemma {:induction false} PrefixLessEq(p: string, r: string)
    ensures LessEq(p, p + r)
  {
    if |p| > 0 && r != [] {
      assert (p + r)[1..] == p[1..] + r;
      PrefixLessEq(p[1..], r);
    }
  }

  /** The greatest character, U+10FFFF. */
  const Top: char := '\U{10FFFF}'

  /** The keys at or after `p` and strictly before `p + [Top]` are exactly the
      extensions of `p` whose next character is not `Top`. */
  lemma {:induction false} BetweenIsExtension(p: string, k: string)
    ensures LessEq(p, k) && Less(k, p + [Top])
        <==> |p| <= |k| && k[..|p|] == p && (|k| == |p| || k[|p|] != Top)
  {
    if |p| == 0 {
      assert k[..0] == p;
      if |k| > 0 && k[0] != Top {
        assert Less(k, [Top]);
      }
      if Less(k, p + [Top]) && |k| > 0 {
        assert k[0] <= Top;
      }
    } else if |k| == 0 {
    } else {
      assert (p + [Top])[1..] == p[1..] + [Top];
      assert (p + [Top])[0] == p[0];
      BetweenIsExtension(p[1..], k[1..]);
      if |p| <= |k| && k[..|p|] == p {
        assert k[1..][..|p[1..]|] == k[..|p|][1..];
        if k == p {
          assert LessEq(p, k);
        } else {
          assert k == [k[0]] + k[1..] && p == [p[0]] + p[1..];
        }
      }
      if LessEq(p, k) && Less(k, p + [Top]) {
        assert p[0] == k[0] by {
          if k != p {
            assert p[0] <= k[0];
          }
        }
        if k == p {
        } else {
          assert LessEq(p[1..], k[1..]);
          assert k[..|p|] == [k[0]] + k[1..][..|p| - 1];
          assert p == [p[0]] + p[1..];
        }
      }
    }
  }

  /** `m` is the key of `s` that sorts first. */
  predicate IsLeast(m: string, s: set<string>) {
    m in s && forall x :: x in s ==> LessEq(m, x)
  }

  lemma {:induction false} LeastExists(s: set<string>)
    requires s != {}
    ensures exists m :: IsLeast(m, s)
    decreases |s|
  {
    var x :| x in s;
    if s == {x} {
      assert IsLeast(x, s);
    } else {
      LeastExists(s - {x});
      var m :| IsLeast(m, s - {x});
      if Less(x, m) {
        forall y | y in s ensures LessEq(x, y) {
          if y != x && y != m {
            assert y in s - {x};
            Transitive(x, m, y);
          }
        }
        assert IsLeast(x, s);
      } else {
        if x != m {
          Total(x, m);
        }
        assert IsLeast(m, s);
      }
    }
  }

  lemma LeastUnique(m1: string, m2: string, s: set<string>)
    requires IsLeast(m1, s) && IsLeast(m2, s)
    ensures m1 == m2
  {
    if m1 != m2 {
      Asymmetric(m1, m2);
    }
  }

  /** Strictly ascending: no key twice, each before the next. */
  predicate Ascending(keys: seq<string>) {
    forall i, j :: 0 <= i < j < |keys| ==> Less(keys[i], keys[j])
  }

  /** The keys of `s` in ascending order: what a range iterator yields. */
  ghost function Sorted(s: set<string>): (keys: seq<string>)
    ensures Ascending(keys)
    ensures |keys| == |s|
    ensures forall k :: k in keys <==> k in s
    decreases |s|
  {
    if s == {} then []
    else
      LeastExists(s);
      var m :| IsLeast(m, s);
      var rest := Sorted(s - {m});
      assert forall j :: 0 <= j < |rest| ==> Less(m, rest[j]) by {
        forall j | 0 <= j < |rest| ensures Less(m, rest[j]) {
          assert rest[j] in s - {m};
        }
      }
      [m] + rest
  }

  /** The enumeration starts with the least key and continues with the rest. */
  lemma SortedUnfold(s: set<string>, m: string)
    requires IsLeast(m, s)
    ensures Sorted(s) == [m] + Sorted(s - {m})
  {
    var keys := Sorted(s);
    assert keys[0] in s;
    forall x | x in s ensures LessEq(keys[0], x) {
      var i :| 0 <= i < |keys| && keys[i] == x;
      assert i == 0 || Less(keys[0], keys[i]);
    }
    LeastUnique(keys[0], m, s);
  }

  /** Taking the least key moves it from the unvisited set to the visited
      prefix of the enumeration. */
  lemma SortedStep(visited: seq<string>, s: set<string>, m: string, all: set<string>)
    requires IsLeast(m, s)
    requires visited + Sorted(s) == Sorted(all)
    ensures (visited + [m]) + Sorted(s - {m}) == Sorted(all)
  {
    SortedUnfold(s, m);
    assert visited + ([m] + Sorted(s - {m})) == (visited + [m]) + Sorted(s - {m});
  }
}
