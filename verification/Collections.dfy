/** Sequences without repetition, and the order of strings. */
module Collections {

  predicate Different<T(==)>(s: seq<T>) {
    forall i, j :: 0 <= i < j < |s| ==> s[i] != s[j]
  }

  lemma {:induction false} DifferentCount<T>(s: seq<T>)
    requires Different(s)
    ensures |set x | x in s| == |s|
  {
    if s == [] {
      assert (set x | x in s) == {};
    } else {
      var rest := s[..|s| - 1];
      DifferentCount(rest);
      assert (set x | x in s) == (set x | x in rest) + {s[|s| - 1]};
    }
  }

  /** The order of strings. */
  predicate Precedes(a: string, b: string) {
    if a == [] || b == [] then a == [] && b != []
    else a[0] < b[0] || (a[0] == b[0] && Precedes(a[1..], b[1..]))
  }

  lemma {:induction false} PrecedesOrders(a: string, b: string)
    ensures !Precedes(a, a)
    ensures a == b || Precedes(a, b) || Precedes(b, a)
  {
    if a == [] {
    } else {
      PrecedesOrders(a[1..], a[1..]);
      if b != [] && a[0] == b[0] {
        PrecedesOrders(a[1..], b[1..]);
        assert a[1..] == b[1..] ==> a == [a[0]] + a[1..] == [b[0]] + b[1..] == b;
      }
    }
  }

  lemma {:induction false} PrecedesChains(a: string, b: string, c: string)
    requires Precedes(a, b) && Precedes(b, c)
    ensures Precedes(a, c)
  {
    if a == [] {
    } else if a[0] == b[0] == c[0] {
      PrecedesChains(a[1..], b[1..], c[1..]);
    }
  }

  /** A string precedes another that goes on, or has a larger character, where the two part. */
  predicate PartsAt(a: string, b: string, k: nat) {
    k <= |a| && k < |b| && a[..k] == b[..k] && (k < |a| ==> (a[k] as int) < (b[k] as int))
  }

  lemma {:induction false} PrecedesIff(a: string, b: string)
    ensures Precedes(a, b) <==> exists k: nat :: PartsAt(a, b, k)
  {
    if a == [] || b == [] {
      assert b != [] ==> PartsAt([], b, 0);
    } else {
      PrecedesIff(a[1..], b[1..]);
      if k: nat :| PartsAt(a, b, k) {
        if k > 0 {
          assert a[0] == a[..k][0] == b[..k][0] == b[0];
          assert a[1..][..k - 1] == a[..k][1..] == b[..k][1..] == b[1..][..k - 1];
          assert PartsAt(a[1..], b[1..], k - 1);
        }
      }
      if a[0] < b[0] {
        assert PartsAt(a, b, 0);
      } else if a[0] == b[0] && Precedes(a[1..], b[1..]) {
        var j: nat :| PartsAt(a[1..], b[1..], j);
        assert a[..j + 1] == [a[0]] + a[1..][..j] == [b[0]] + b[1..][..j] == b[..j + 1];
        assert PartsAt(a, b, j + 1);
      }
    }
  }

  /** The name that an ordered map visits first. */
  method Least(names: set<string>) returns (least: string)
    requires names != {}
    ensures least in names && forall name :: name in names && name != least ==> Precedes(least, name)
  {
    least :| least in names;
    var rest := names - {least};
    while rest != {}
      invariant rest <= names && least in names - rest
      invariant forall name :: name in names - rest && name != least ==> Precedes(least, name)
      decreases |rest|
    {
      var name :| name in rest;
      PrecedesOrders(least, name);
      if Precedes(name, least) {
        forall other | other in names - rest && other != least
          ensures Precedes(name, other)
        {
          PrecedesChains(name, least, other);
        }
        least := name;
      }
      rest := rest - {name};
    }
  }
}
