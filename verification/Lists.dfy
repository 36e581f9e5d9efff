/** Lists without repetitions. */
module Lists {

  ghost predicate Distinct<T>(s: seq<T>) {
    forall i, j :: 0 <= i < j < |s| ==> s[i] != s[j]
  }

  /** The list without n. */
  function Without<T(==)>(s: seq<T>, n: T): seq<T> {
    if s == [] then [] else if s[0] == n then Without(s[1..], n) else [s[0]] + Without(s[1..], n)
  }

  lemma {:induction false} WithoutMember<T>(s: seq<T>, n: T, m: T)
    ensures m in Without(s, n) <==> m in s && m != n
  {
    if s != [] {
      WithoutMember(s[1..], n, m);
    }
  }

  lemma {:induction false} WithoutAbsent<T>(s: seq<T>, n: T)
    requires n !in s
    ensures Without(s, n) == s
  {
    if s != [] {
      WithoutAbsent(s[1..], n);
    }
  }

  /** The list after its first n is erased. */
  function Erased<T(==)>(s: seq<T>, n: T): seq<T>
    requires n in s
  {
    if s[0] == n then s[1..] else [s[0]] + Erased(s[1..], n)
  }

  /** Where the first n is. */
  lemma {:induction false} ErasedAt<T>(s: seq<T>, n: T) returns (k: nat)
    requires n in s
    ensures k < |s| && s[k] == n && Erased(s, n) == s[..k] + s[k + 1..]
  {
    if s[0] == n {
      k := 0;
    } else {
      k := ErasedAt(s[1..], n);
      k := k + 1;
    }
  }

  /** The elements that are not in gone. */
  ghost function Kept<T>(s: seq<T>, gone: set<T>): seq<T> {
    if s == [] then [] else if s[0] in gone then Kept(s[1..], gone) else [s[0]] + Kept(s[1..], gone)
  }

  lemma {:induction false} KeptMember<T>(s: seq<T>, gone: set<T>, m: T)
    ensures m in Kept(s, gone) <==> m in s && m !in gone
  {
    if s != [] {
      KeptMember(s[1..], gone, m);
    }
  }

  lemma {:induction false} KeptDistinct<T>(s: seq<T>, gone: set<T>)
    requires Distinct(s)
    ensures Distinct(Kept(s, gone)) && forall m :: m in Kept(s, gone) <==> m in s && m !in gone
  {
    forall m
      ensures m in Kept(s, gone) <==> m in s && m !in gone
    {
      KeptMember(s, gone, m);
    }
    if s != [] {
      KeptDistinct(s[1..], gone);
    }
  }

  lemma {:induction false} KeptAll<T>(s: seq<T>, gone: set<T>)
    requires forall m :: m in s ==> m !in gone
    ensures Kept(s, gone) == s
  {
    if s != [] {
      KeptAll(s[1..], gone);
    }
  }

  lemma {:induction false} KeptAgree<T>(s: seq<T>, a: set<T>, b: set<T>)
    requires forall m :: m in s ==> (m in a <==> m in b)
    ensures Kept(s, a) == Kept(s, b)
  {
    if s != [] {
      KeptAgree(s[1..], a, b);
    }
  }

  /** One more element gone that is not in the list changes nothing. */
  lemma {:induction false} KeptSame<T>(s: seq<T>, gone: set<T>, n: T)
    requires n !in s
    ensures Kept(s, gone + {n}) == Kept(s, gone)
  {
    if s != [] {
      KeptSame(s[1..], gone, n);
    }
  }

  /** One more element gone that is in the list erases it. */
  lemma {:induction false} KeptErased<T>(s: seq<T>, gone: set<T>, n: T)
    requires Distinct(s) && n in s && n !in gone
    ensures n in Kept(s, gone) && Erased(Kept(s, gone), n) == Kept(s, gone + {n})
  {
    KeptMember(s, gone, n);
    if s[0] == n {
      KeptSame(s[1..], gone, n);
    } else {
      KeptErased(s[1..], gone, n);
    }
  }

  /** The list with n put in at position k. */
  function Inserted<T>(q: seq<T>, k: nat, n: T): seq<T>
    requires k <= |q|
  {
    q[..k] + [n] + q[k..]
  }

  lemma InsertedMember<T>(q: seq<T>, k: nat, n: T)
    requires k <= |q|
    ensures forall m :: m in Inserted(q, k, n) <==> m in q || m == n
  {
    assert q == q[..k] + q[k..];
  }
}
