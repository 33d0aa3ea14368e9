/** The order of strings by character code, and sets of strings listed in that order. */
module Strings {
  predicate Less(a: string, b: string) {
    if b == "" then false
    else if a == "" then true
    else a[0] < b[0] || (a[0] == b[0] && Less(a[1..], b[1..]))
  }

  /** By the first character that differs; a proper prefix comes first. */
  lemma {:induction false} LessExactly(a: string, b: string)
    ensures Less(a, b) <==> exists k: nat :: DiffersAt(a, b, k)
  {
    if a != "" && b != "" && a[0] == b[0] {
      LessExactly(a[1..], b[1..]);
      forall k: nat | DiffersAt(a[1..], b[1..], k) ensures DiffersAt(a, b, k + 1) {
        assert a[..k + 1] == [a[0]] + a[1..][..k] && b[..k + 1] == [b[0]] + b[1..][..k];
      }
      forall k: nat | DiffersAt(a, b, k) ensures k > 0 && DiffersAt(a[1..], b[1..], k - 1) {
        assert a[1..][..k - 1] == a[..k][1..] && b[1..][..k - 1] == b[..k][1..];
      }
    } else if b != "" {
      assert a[..0] == b[..0];
      forall k: nat | DiffersAt(a, b, k) ensures k == 0 {
        FirstAgree(a, b, k);
      }
      assert Less(a, b) ==> DiffersAt(a, b, 0);
    }
  }

  predicate DiffersAt(a: string, b: string, k: nat) {
    k <= |a| && k < |b| && a[..k] == b[..k] && (k == |a| || a[k] < b[k])
  }

  lemma FirstAgree(a: string, b: string, k: nat)
    requires DiffersAt(a, b, k)
    ensures k > 0 ==> a != "" && b != "" && a[0] == b[0]
  {
    assert k > 0 ==> a[..k][0] == b[..k][0];
  }

  lemma {:induction false} Transitive(a: string, b: string, c: string)
    requires Less(a, b) && Less(b, c)
    ensures Less(a, c)
  {
    if a != "" && a[0] == b[0] && b[0] == c[0] {
      Transitive(a[1..], b[1..], c[1..]);
    }
  }

  /** Exactly one of less, equal and greater holds. */
  lemma {:induction false} Trichotomy(a: string, b: string)
    ensures Less(a, b) || a == b || Less(b, a)
    ensures !(Less(a, b) && Less(b, a)) && (a == b ==> !Less(a, b))
  {
    if a != "" && b != "" {
      Trichotomy(a[1..], b[1..]);
      if a[0] == b[0] && a[1..] == b[1..] {
        assert a == [a[0]] + a[1..] && b == [b[0]] + b[1..];
      }
    }
  }

  ghost predicate IsLeast(s: set<string>, m: string) { m in s && forall x :: x in s && x != m ==> Less(m, x) }

  lemma {:induction false} LeastExists(s: set<string>)
    requires s != {}
    ensures exists m :: IsLeast(s, m)
  {
    var x :| x in s;
    if s == {x} {
      assert IsLeast(s, x);
    } else {
      var rest := s - {x};
      LeastExists(rest);
      var m :| IsLeast(rest, m);
      Trichotomy(x, m);
      if Less(x, m) {
        forall y | y in s && y != x ensures Less(x, y) {
          if y != m {
            Transitive(x, m, y);
          }
        }
        assert IsLeast(s, x);
      } else {
        assert IsLeast(s, m);
      }
    }
  }

  lemma LeastUnique(s: set<string>, m: string, m': string)
    requires IsLeast(s, m) && IsLeast(s, m')
    ensures m == m'
  {
    Trichotomy(m, m');
  }

  /** The elements in ascending order. */
  ghost function Listed(s: set<string>): (r: seq<string>)
    ensures forall x :: x in r <==> x in s
    ensures |r| == |s|
    decreases |s|
  {
    if s == {} then []
    else
      LeastExists(s);
      var m :| IsLeast(s, m);
      [m] + Listed(s - {m})
  }

  lemma ListedFirst(s: set<string>, m: string)
    requires IsLeast(s, m)
    ensures Listed(s) == [m] + Listed(s - {m})
  {
    LeastExists(s);
    forall x | IsLeast(s, x) ensures x == m {
      LeastUnique(s, x, m);
    }
  }

  /** Ascending and without repetition. */
  lemma {:induction false} ListedAscends(s: set<string>, i: nat, j: nat)
    requires i < j < |s|
    ensures Less(Listed(s)[i], Listed(s)[j])
    decreases |s|
  {
    LeastExists(s);
    var m :| IsLeast(s, m);
    ListedFirst(s, m);
    hide Less, Listed;
    var rest := Listed(s - {m});
    if i > 0 {
      ListedAscends(s - {m}, i - 1, j - 1);
    } else {
      assert rest[j - 1] in rest;
    }
  }

  /** Sorting a set. */
  method Sort(s: set<string>) returns (r: seq<string>)
    ensures r == Listed(s)
  {
    r := [];
    var rest := s;
    assert [] + Listed(s) == Listed(s);
    while rest != {}
      invariant rest <= s && r + Listed(rest) == Listed(s)
    {
      var m := FindLeast(rest);
      ListedFirst(rest, m);
      assert r + ([m] + Listed(rest - {m})) == (r + [m]) + Listed(rest - {m});
      r := r + [m];
      rest := rest - {m};
    }
    assert r + [] == r;
  }

  method FindLeast(s: set<string>) returns (m: string)
    requires s != {}
    ensures IsLeast(s, m)
  {
    m :| m in s;
    var rest := s - {m};
    while rest != {}
      invariant rest <= s && m in s && m !in rest
      invariant forall x :: x in s && x !in rest && x != m ==> Less(m, x)
    {
      var x :| x in rest;
      Trichotomy(x, m);
      if Less(x, m) {
        forall y | y in s && y !in rest && y != m ensures Less(x, y) {
          Transitive(x, m, y);
        }
        m := x;
      }
      rest := rest - {x};
    }
  }
}
