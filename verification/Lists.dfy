/** Order-preserving removal from duplicate-free lists, as `list_del` does it. */
module Lists {

  ghost predicate NoDup<T>(s: seq<T>) {
    forall i, j :: 0 <= i < j < |s| ==> s[i] != s[j]
  }

  function Remove<T(==, !new)>(s: seq<T>, x: T): (r: seq<T>)
    ensures forall y :: y in r <==> y in s && y != x
    ensures |r| <= |s|
  {
    if s == [] then []
    else if s[0] == x then Remove(s[1..], x)
    else [s[0]] + Remove(s[1..], x)
  }

  lemma {:induction false} RemoveNoDup<T(!new)>(s: seq<T>, x: T)
    requires NoDup(s)
    ensures NoDup(Remove(s, x))
    ensures |Remove(s, x)| == if x in s then |s| - 1 else |s|
  {
    if s == [] {
    } else {
      var t := s[1..];
      RemoveNoDup(t, x);
      assert s[0] !in t;
      assert x in s <==> x == s[0] || x in t;
    }
  }

  lemma RemoveAbsent<T(!new)>(s: seq<T>, x: T)
    requires x !in s
    ensures Remove(s, x) == s
  {
    if s != [] {
      RemoveAbsent(s[1..], x);
    }
  }

  lemma NoDupCons<T>(x: T, s: seq<T>)
    requires NoDup(s) && x !in s
    ensures NoDup([x] + s)
  {
  }

  lemma NoDupHead<T>(x: T, s: seq<T>)
    requires NoDup([x] + s)
    ensures x !in s
  {
    var r := [x] + s;
    forall i | 0 <= i < |s| ensures s[i] != x {
      assert r[i + 1] == s[i] && r[0] == x;
      assert r[0] != r[i + 1];
    }
  }

  lemma NoDupInsert<T(!new)>(s: seq<T>, p: nat, x: T)
    requires NoDup(s) && x !in s && p <= |s|
    ensures NoDup(s[..p] + [x] + s[p..])
    ensures forall y :: y in s[..p] + [x] + s[p..] <==> y == x || y in s
  {
    var r := s[..p] + [x] + s[p..];
    assert s == s[..p] + s[p..];
  }
}
