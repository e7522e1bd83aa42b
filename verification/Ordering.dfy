/** The order in which a std::map keyed by std::string is iterated: ascending, character by character. */
module Ordering {

  /** `a` is not greater than `b` in the order of strcmp and of std::string. */
  predicate Le(a: string, b: string) {
    a == "" || (b != "" && (a[0] < b[0] || (a[0] == b[0] && Le(a[1..], b[1..]))))
  }

  lemma {:induction false} LeTotal(a: string, b: string)
    ensures Le(a, b) || Le(b, a)
  {
    if a != "" && b != "" {
      LeTotal(a[1..], b[1..]);
    }
  }

  lemma {:induction false} LeAntisymmetric(a: string, b: string)
    requires Le(a, b) && Le(b, a)
    ensures a == b
  {
    if a != "" && b != "" {
      LeAntisymmetric(a[1..], b[1..]);
      assert a == [a[0]] + a[1..] && b == [b[0]] + b[1..];
    }
  }

  lemma {:induction false} LeTransitive(a: string, b: string, c: string)
    requires Le(a, b) && Le(b, c)
    ensures Le(a, c)
  {
    if a != "" && b[0] == a[0] && c[0] == b[0] {
      LeTransitive(a[1..], b[1..], c[1..]);
    }
  }

  /** A prefix of a key never comes after the key. */
  lemma {:induction false} PrefixFirst(a: string, b: string)
    requires a <= b
    ensures Le(a, b)
  {
    if a != "" {
      PrefixFirst(a[1..], b[1..]);
    }
  }

  predicate IsLeast(k: string, keys: set<string>) {
    k in keys && forall j | j in keys :: Le(k, j)
  }

  lemma {:induction false} LeastExists(keys: set<string>)
    requires keys != {}
    ensures exists k :: IsLeast(k, keys)
  {
    var k :| k in keys;
    LeTotal(k, k);
    if keys == {k} {
      assert IsLeast(k, keys);
    } else {
      LeastExists(keys - {k});
      var m :| IsLeast(m, keys - {k});
      LeTotal(k, m);
      forall j | j in keys && Le(k, m)
        ensures Le(k, j)
      {
        if j != k {
          LeTransitive(k, m, j);
        }
      }
      assert IsLeast(if Le(k, m) then k else m, keys);
    }
  }

  lemma LeastUnique(keys: set<string>)
    ensures forall k, m :: IsLeast(k, keys) && IsLeast(m, keys) ==> k == m
  {
    forall k, m | IsLeast(k, keys) && IsLeast(m, keys)
      ensures k == m
    {
      LeAntisymmetric(k, m);
    }
  }

  /** The key that begin() of a non-empty map points to. */
  function Least(keys: set<string>): (k: string)
    requires keys != {}
    ensures k in keys && IsLeast(k, keys)
  {
    LeastExists(keys);
    LeastUnique(keys);
    var k :| k in keys && IsLeast(k, keys);
    k
  }

  predicate Sorted(s: seq<string>) {
    forall i, j | 0 <= i < j < |s| :: Le(s[i], s[j])
  }

  predicate Distinct(s: seq<string>) {
    forall i, j | 0 <= i < j < |s| :: s[i] != s[j]
  }

  /** The keys of a map in the order a range-for visits them: each once, ascending. */
  function Ascending(keys: set<string>): (s: seq<string>)
    ensures |s| == |keys|
    ensures forall k :: k in s <==> k in keys
    ensures Sorted(s) && Distinct(s)
  {
    if keys == {} then
      []
    else
      var k := Least(keys);
      var rest := Ascending(keys - {k});
      LeastThenRest(k, keys, rest);
      [k] + rest
  }

  lemma LeastThenRest(k: string, keys: set<string>, rest: seq<string>)
    requires IsLeast(k, keys) && Sorted(rest) && Distinct(rest) && forall j :: j in rest <==> j in keys - {k}
    ensures forall j :: j in [k] + rest <==> j in keys
    ensures Sorted([k] + rest) && Distinct([k] + rest)
  {
    hide Le;
    var s := [k] + rest;
    forall i, j | 0 <= i < j < |s|
      ensures Le(s[i], s[j]) && s[i] != s[j]
    {
      assert s[j] == rest[j - 1];
      if i > 0 {
        assert s[i] == rest[i - 1];
      } else {
        assert rest[j - 1] in keys - {k};
      }
    }
  }

  /** One turn of a range-for that has visited `done` and has the keys `rest` ahead. */
  lemma AscendingStep(done: seq<string>, rest: set<string>)
    requires rest != {}
    ensures Ascending(rest) == [Least(rest)] + Ascending(rest - {Least(rest)})
    ensures done + Ascending(rest) == done + [Least(rest)] + Ascending(rest - {Least(rest)})
  {
    assert Ascending(rest) == [Least(rest)] + Ascending(rest - {Least(rest)});
  }
}
