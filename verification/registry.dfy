/** The dynamic registry that every list of the I/O layer is built on (the
    digital inputs, the CAN nodes, a node's endpoints, the safety interlock list).
    Its implementation is not part of this model; it is read from its callers as a
    sequence of handles with three operations:
    - `addEntry` inserts a handle at a position the registry chooses, here a parameter;
    - `removeEntry` unlinks a handle by identity and does nothing when it is absent;
    - `iterateOver` offers each handle to a visitor in sequence order, stops at the
      first visitor that returns true, and returns true iff one did. */
module Registry {

  datatype Option<T> = None | Some(value: T)

  /** `i` is the position at which `iterateOver` stops for visitor `claims`. */
  ghost predicate IsFirstMatch<T>(s: seq<T>, claims: T -> bool, i: int)
  {
    && 0 <= i < |s|
    && claims(s[i])
    && forall j :: 0 <= j < i ==> !claims(s[j])
  }

  /** The position at which a short-circuiting traversal stops, if any. */
  function FirstMatch<T>(s: seq<T>, claims: T -> bool): (r: Option<nat>)
    ensures r.Some? ==> IsFirstMatch(s, claims, r.value)
    ensures r.None? <==> forall j :: 0 <= j < |s| ==> !claims(s[j])
  {
    if |s| == 0 then None
    else if claims(s[0]) then Some(0)
    else
      match FirstMatch(s[1..], claims)
      case None => None
      case Some(i) => Some(i + 1)
  }

  /** `iterateOver`'s return value: true iff some visitor claimed its entry. */
  function IterateOver<T>(s: seq<T>, claims: T -> bool): (handled: bool)
    ensures handled <==> exists j :: 0 <= j < |s| && claims(s[j])
  {
    FirstMatch(s, claims).Some?
  }

  /** `addEntry`: the registry places the new handle at position `at`. */
  function Add<T>(s: seq<T>, x: T, at: nat): (r: seq<T>)
    requires at <= |s|
    ensures |r| == |s| + 1 && r[at] == x
    ensures forall k :: 0 <= k < at ==> r[k] == s[k]
    ensures forall k :: at < k < |r| ==> r[k] == s[k - 1]
    ensures multiset(r) == multiset(s) + multiset{x}
  {
    var r := s[..at] + [x] + s[at..];
    assert s == s[..at] + s[at..];
    r
  }

  /** `removeEntry`: unlink the first occurrence of `x`; no-op when absent. */
  function Remove<T(==)>(s: seq<T>, x: T): (r: seq<T>)
    ensures |s| - 1 <= |r| <= |s|
  {
    if |s| == 0 then []
    else if s[0] == x then s[1..]
    else [s[0]] + Remove(s[1..], x)
  }

  /** Removing an absent handle changes nothing. */
  lemma {:induction false} RemoveAbsent<T>(s: seq<T>, x: T)
    requires x !in s
    ensures Remove(s, x) == s
    decreases |s|
  {
    if |s| > 0 {
      assert s[0] in s;
      assert x !in s[1..] by { assert forall k :: 0 <= k < |s| - 1 ==> s[1..][k] == s[k + 1]; }
      RemoveAbsent(s[1..], x);
      assert s == [s[0]] + s[1..];
    }
  }

  /** Removing takes away exactly one copy of `x`, if there is one, and nothing
      else; removing an absent handle changes nothing. */
  lemma {:induction false} RemoveExactlyOne<T>(s: seq<T>, x: T)
    ensures multiset(Remove(s, x)) == multiset(s) - multiset{x}
    ensures x !in s ==> Remove(s, x) == s
    ensures x in s ==> |Remove(s, x)| == |s| - 1
    decreases |s|
  {
    if |s| > 0 {
      assert s == [s[0]] + s[1..];
      if s[0] != x {
        RemoveExactlyOne(s[1..], x);
      }
    }
    if x !in s {
      RemoveAbsent(s, x);
    } else {
      assert |multiset(Remove(s, x))| == |Remove(s, x)|;
    }
  }

  /** Removing `x` keeps every other handle and introduces none. */
  lemma RemoveMembers<T>(s: seq<T>, x: T)
    ensures forall k :: 0 <= k < |Remove(s, x)| ==> Remove(s, x)[k] in s
    ensures forall k :: 0 <= k < |s| && s[k] != x ==> s[k] in Remove(s, x)
  {
    var r := Remove(s, x);
    RemoveExactlyOne(s, x);
    forall k | 0 <= k < |r| ensures r[k] in s {
      assert r[k] in multiset(r);
    }
    forall k | 0 <= k < |s| && s[k] != x ensures s[k] in r {
      assert s[k] in multiset(s);
      assert multiset(r)[s[k]] == multiset(s)[s[k]];
    }
  }

  /** No handle occurs twice: the discipline the intrusive list relies on. */
  ghost predicate Distinct<T>(s: seq<T>)
  {
    forall i :: 0 <= i < |s| ==> multiset(s)[s[i]] == 1
  }

  /** Behind the head of a duplicate-free registry there is a duplicate-free
      registry without the head. */
  lemma DistinctTail<T>(s: seq<T>)
    requires Distinct(s) && |s| > 0
    ensures s[0] !in s[1..] && Distinct(s[1..])
  {
    var rest := s[1..];
    assert s == [s[0]] + rest;
    assert multiset(s)[s[0]] == 1;
    forall i | 0 <= i < |rest| ensures multiset(rest)[rest[i]] == 1 {
      assert rest[i] == s[i + 1];
      assert rest[i] in multiset(rest);
    }
  }

  /** Removing a handle from a duplicate-free registry removes it entirely and
      leaves the registry duplicate-free. */
  lemma RemoveDistinct<T>(s: seq<T>, x: T)
    requires Distinct(s)
    ensures x !in Remove(s, x)
    ensures Distinct(Remove(s, x))
  {
    RemoveExactlyOne(s, x);
    assert multiset(Remove(s, x))[x] == 0;
  }

  /** Registering a handle that is absent keeps the registry duplicate-free. */
  lemma AddDistinct<T>(s: seq<T>, x: T, at: nat)
    requires at <= |s| && Distinct(s) && x !in s
    ensures Distinct(Add(s, x, at))
  {
  }

  /** Unlinking the first occurrence of `x` drops exactly the copy that
      follows an `x`-free prefix. */
  lemma {:induction false} RemoveAfterPrefix<T>(p: seq<T>, x: T, q: seq<T>)
    requires x !in p
    ensures Remove(p + [x] + q, x) == p + q
    decreases |p|
  {
    var s := p + [x] + q;
    if |p| == 0 {
      assert s == [x] + q && s[1..] == q;
    } else {
      assert p[0] in p;
      assert x !in p[1..] by { assert forall k :: 0 <= k < |p[1..]| ==> p[1..][k] == p[k + 1]; }
      assert s[0] == p[0] && s[1..] == p[1..] + [x] + q;
      assert Remove(s, x) == [p[0]] + Remove(p[1..] + [x] + q, x);
      RemoveAfterPrefix(p[1..], x, q);
      assert p + q == [p[0]] + (p[1..] + q);
    }
  }

  /** Registering a handle that is absent and then removing it restores the
      registry exactly, wherever the registry chose to insert it. */
  lemma RemoveAfterAdd<T>(s: seq<T>, x: T, at: nat)
    requires at <= |s|
    requires x !in s
    ensures Remove(Add(s, x, at), x) == s
  {
    assert x !in s[..at] by { assert forall k :: 0 <= k < at ==> s[..at][k] == s[k]; }
    RemoveAfterPrefix(s[..at], x, s[at..]);
    assert s[..at] + s[at..] == s;
  }
}
