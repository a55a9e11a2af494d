/** The key order of std::map<std::string, T>: lexicographic, and the walk over the keys
    of a map in that order.  Every loop of the engine over a map follows this walk. */
module StringOrder {

  /** std::string's operator<. */
  predicate Less(a: string, b: string) {
    b != [] && (a == [] || a[0] < b[0] || (a[0] == b[0] && Less(a[1..], b[1..])))
  }

  lemma {:induction false} LessTotal(a: string, b: string)
    ensures a == b || Less(a, b) || Less(b, a)
  {
    if a != [] && b != [] {
      LessTotal(a[1..], b[1..]);
      if a[0] == b[0] && a[1..] == b[1..] {
        assert a == [a[0]] + a[1..] == [b[0]] + b[1..] == b;
      }
    }
  }

  lemma {:induction false} LessAsymmetric(a: string, b: string)
    requires Less(a, b)
    ensures a != b && !Less(b, a)
  {
    if a != [] && a[0] == b[0] {
      LessAsymmetric(a[1..], b[1..]);
    }
  }

  lemma {:induction false} LessTransitive(a: string, b: string, c: string)
    requires Less(a, b) && Less(b, c)
    ensures Less(a, c)
  {
    if a != [] && a[0] == b[0] == c[0] {
      LessTransitive(a[1..], b[1..], c[1..]);
    }
  }

  predicate IsLeast(m: string, s: set<string>) {
    m in s && forall k <- s :: k == m || Less(m, k)
  }

  lemma {:induction false} LeastExists(s: set<string>)
    requires s != {}
    ensures exists m :: IsLeast(m, s)
  {
    var x :| x in s;
    if s == {x} {
      assert IsLeast(x, s);
    } else {
      LeastExists(s - {x});
      var m :| IsLeast(m, s - {x});
      LessTotal(x, m);
      if Less(x, m) {
        forall k <- s ensures k == x || Less(x, k) {
          if k != x && k != m { LessTransitive(x, m, k); }
        }
        assert IsLeast(x, s);
      } else {
        assert IsLeast(m, s);
      }
    }
  }

  lemma LeastUnique(s: set<string>)
    ensures forall m, n | IsLeast(m, s) && IsLeast(n, s) :: m == n
  {
    forall m, n | IsLeast(m, s) && IsLeast(n, s) ensures m == n {
      if m != n { LessAsymmetric(m, n); }
    }
  }

  /** begin()->first of a non-empty map. */
  function Least(s: set<string>): (m: string)
    requires s != {}
    ensures IsLeast(m, s)
  {
    LeastExists(s);
    LeastUnique(s);
    var m :| IsLeast(m, s);
    m
  }

  ghost predicate NoDuplicates<T>(xs: seq<T>) {
    forall i, j | 0 <= i < j < |xs| :: xs[i] != xs[j]
  }

  /** The keys in the order of a for loop over the map. */
  function SortedKeys(s: set<string>): (ks: seq<string>)
    ensures forall k :: k in ks <==> k in s
  {
    if s == {} then [] else [Least(s)] + SortedKeys(s - {Least(s)})
  }

  /** The walk visits every key once, in ascending order. */
  lemma {:induction false} SortedKeysAscend(s: set<string>)
    ensures var ks := SortedKeys(s);
            && |ks| == |s|
            && NoDuplicates(ks)
            && forall i, j | 0 <= i < j < |ks| :: Less(ks[i], ks[j])
  {
    if s != {} {
      var m := Least(s);
      var rest := SortedKeys(s - {m});
      SortedKeysAscend(s - {m});
      var ks := [m] + rest;
      assert forall j | 0 < j < |ks| :: ks[j] == rest[j - 1] && ks[j] in rest;
      forall i, j | 0 <= i < j < |ks| ensures Less(ks[i], ks[j]) && ks[i] != ks[j] {
        assert i > 0 ==> Less(rest[i - 1], rest[j - 1]);
        LessAsymmetric(ks[i], ks[j]);
      }
    }
  }

  /** The walk meets a bad key, and only good ones before it. */
  predicate MeetsBad(keys: seq<string>, bad: string -> bool, good: string -> bool) {
    keys != [] && (bad(keys[0]) || (good(keys[0]) && MeetsBad(keys[1..], bad, good)))
  }

  ghost predicate HasFirstBad(s: set<string>, bad: string -> bool, good: string -> bool) {
    exists k <- s :: bad(k) && forall j <- s :: Less(j, k) ==> good(j)
  }

  lemma {:induction false} MeetsFirstBad(s: set<string>, bad: string -> bool, good: string -> bool)
    ensures MeetsBad(SortedKeys(s), bad, good) <==> HasFirstBad(s, bad, good)
  {
    if s != {} {
      var m := Least(s);
      MeetsFirstBad(s - {m}, bad, good);
      forall j <- s | j != m ensures Less(m, j) && !Less(j, m) { LessAsymmetric(m, j); }
      if Less(m, m) { LessAsymmetric(m, m); }
      if good(m) && HasFirstBad(s - {m}, bad, good) {
        var k :| k in s - {m} && bad(k) && forall j <- s - {m} :: Less(j, k) ==> good(j);
        assert forall j <- s :: Less(j, k) ==> good(j);
      }
    }
  }
}
