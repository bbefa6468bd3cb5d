/** Shared vocabulary: identifiers, optional values, HTTP-style replies and
    the generic sequence queries (search, filter, map) that stand in for the
    database's `findOne`, `find` and the client's `Array.filter`. */
module Common {

  /** A database identifier (a Mongo ObjectId); only equality matters. */
  type Id = nat

  datatype Option<+T> = None | Some(value: T) {
    function GetOr(default: T): T {
      match this
      case Some(v) => v
      case None => default
    }
  }

  /** An HTTP reply: a success body, or a status code with its JSON message. */
  datatype Reply<+T> = Ok(value: T) | Fail(code: nat, message: string)

  /** A collection after a request handler has run, with the reply it sent. */
  datatype Step<+S, +T> = Step(store: seq<S>, nextId: Id, reply: Reply<T>)

  /** The reply every controller's catch block sends. */
  function ServerError<T>(): Reply<T> {
    Fail(500, "Server Error")
  }

  /** Index of the first element satisfying `p`, as `findOne` returns the first match. */
  function FirstIndex<T>(s: seq<T>, p: T -> bool): (r: Option<nat>)
    ensures r.Some? ==> r.value < |s| && p(s[r.value])
    ensures r.Some? ==> forall j :: 0 <= j < r.value ==> !p(s[j])
    ensures r.None? <==> forall j :: 0 <= j < |s| ==> !p(s[j])
  {
    if |s| == 0 then None
    else if p(s[0]) then Some(0)
    else match FirstIndex(s[1..], p)
      case None => None
      case Some(k) => Some(k + 1)
  }

  /** The elements of `s` satisfying `p`, in their original order. */
  function Filter<T(!new)>(s: seq<T>, p: T -> bool): (r: seq<T>)
    ensures |r| <= |s|
    ensures forall x :: x in r ==> p(x)
    ensures forall x :: multiset(r)[x] == if p(x) then multiset(s)[x] else 0
  {
    if |s| == 0 then []
    else
      var rest := Filter(s[1..], p);
      assert s == [s[0]] + s[1..];
      if p(s[0]) then [s[0]] + rest else rest
  }

  /** An element is kept exactly when it occurs and passes the test. */
  lemma FilterMembers<T(!new)>(s: seq<T>, p: T -> bool)
    ensures forall x :: x in Filter(s, p) <==> x in s && p(x)
  {
    forall x ensures x in Filter(s, p) <==> x in s && p(x) {
      assert x in Filter(s, p) <==> multiset(Filter(s, p))[x] > 0;
      assert x in s <==> multiset(s)[x] > 0;
    }
  }

  /** Filtering a non-empty sequence: its head, when kept, then the filtered tail. */
  lemma FilterHead<T(!new)>(s: seq<T>, p: T -> bool)
    requires |s| > 0
    ensures Filter(s, p) == (if p(s[0]) then [s[0]] else []) + Filter(s[1..], p)
  {
    if !p(s[0]) {
      assert [] + Filter(s[1..], p) == Filter(s[1..], p);
    }
  }

  /** Filtering distributes over concatenation, so the kept elements stay in order. */
  lemma {:induction false} FilterConcat<T(!new)>(a: seq<T>, b: seq<T>, p: T -> bool)
    ensures Filter(a + b, p) == Filter(a, p) + Filter(b, p)
  {
    if |a| == 0 {
      assert a + b == b;
    } else {
      var x, rest := a[0], a[1..];
      var h := if p(x) then [x] else [];
      assert a == [x] + rest;
      ConsConcat(x, rest, b);
      calc {
        Filter(a + b, p);
        Filter([x] + (rest + b), p);
        { FilterCons(x, rest + b, p); }
        h + Filter(rest + b, p);
        { FilterConcat(rest, b, p); }
        h + (Filter(rest, p) + Filter(b, p));
        (h + Filter(rest, p)) + Filter(b, p);
        { FilterCons(x, rest, p); }
        Filter([x] + rest, p) + Filter(b, p);
        Filter(a, p) + Filter(b, p);
      }
    }
  }

  /** Regrouping a concatenation that starts with one element. */
  lemma ConsConcat<T>(x: T, rest: seq<T>, b: seq<T>)
    ensures [x] + rest + b == [x] + (rest + b)
  {
  }

  /** Filtering a sequence that starts with `x`. */
  lemma FilterCons<T(!new)>(x: T, s: seq<T>, p: T -> bool)
    ensures Filter([x] + s, p) == (if p(x) then [x] else []) + Filter(s, p)
  {
    FilterHead([x] + s, p);
    assert ([x] + s)[1..] == s;
  }

  /** A sequence whose every element passes the test is returned unchanged. */
  lemma {:induction false} FilterAll<T(!new)>(s: seq<T>, p: T -> bool)
    requires forall i :: 0 <= i < |s| ==> p(s[i])
    ensures Filter(s, p) == s
  {
    if |s| > 0 {
      FilterAll(s[1..], p);
    }
  }

  /** A sequence whose every element fails the test filters to nothing. */
  lemma {:induction false} FilterNone<T(!new)>(s: seq<T>, p: T -> bool)
    requires forall i :: 0 <= i < |s| ==> !p(s[i])
    ensures Filter(s, p) == []
  {
    if |s| > 0 {
      FilterNone(s[1..], p);
    }
  }

  /** Two tests that agree on every element select the same subsequence. */
  lemma {:induction false} FilterSame<T(!new)>(s: seq<T>, p: T -> bool, q: T -> bool)
    requires forall i :: 0 <= i < |s| ==> p(s[i]) == q(s[i])
    ensures Filter(s, p) == Filter(s, q)
  {
    if |s| > 0 {
      FilterSame(s[1..], p, q);
    }
  }

  /** `s.map(f)`. */
  function MapSeq<A, B>(s: seq<A>, f: A -> B): (r: seq<B>)
    ensures |r| == |s|
    ensures forall i :: 0 <= i < |s| ==> r[i] == f(s[i])
  {
    if |s| == 0 then [] else [f(s[0])] + MapSeq(s[1..], f)
  }

  lemma {:induction false} MapConcat<A, B>(a: seq<A>, b: seq<A>, f: A -> B)
    ensures MapSeq(a + b, f) == MapSeq(a, f) + MapSeq(b, f)
  {
    if |a| == 0 {
      assert a + b == b;
    } else {
      assert (a + b)[1..] == a[1..] + b;
      MapConcat(a[1..], b, f);
    }
  }

  /** Taking one element out of a sequence takes one occurrence out of its multiset. */
  lemma RemoveAt<A>(b: seq<A>, k: nat)
    requires k < |b|
    ensures multiset(b) == multiset(b[..k] + b[k + 1..]) + multiset{b[k]}
  {
    assert b == b[..k] + [b[k]] + b[k + 1..];
  }

  /** Removing matching elements from two permutations leaves permutations. */
  lemma PermutationTail<A>(a: seq<A>, b: seq<A>, k: nat)
    requires multiset(a) == multiset(b) && |a| > 0 && k < |b| && b[k] == a[0]
    ensures multiset(a[1..]) == multiset(b[..k] + b[k + 1..])
  {
    assert a == [a[0]] + a[1..];
    RemoveAt(b, k);
    var c := b[..k] + b[k + 1..];
    assert multiset(a[1..]) + multiset{a[0]} == multiset(c) + multiset{a[0]};
    assert multiset(a[1..]) == multiset(a) - multiset{a[0]} == multiset(c);
  }

  /** The image of a sequence with one element taken out. */
  lemma MapRemoveAt<A, B>(b: seq<A>, k: nat, f: A -> B)
    requires k < |b|
    ensures multiset(MapSeq(b, f)) == multiset(MapSeq(b[..k] + b[k + 1..], f)) + multiset{f(b[k])}
  {
    var mp, mq := MapSeq(b[..k], f), MapSeq(b[k + 1..], f);
    MapSplit(b, k, f);
    MapConcat(b[..k], b[k + 1..], f);
    assert multiset(mp + [f(b[k])] + mq) == multiset(mp) + multiset{f(b[k])} + multiset(mq);
  }

  /** The image of a sequence is the images of its parts around one position. */
  lemma MapSplit<A, B>(b: seq<A>, k: nat, f: A -> B)
    requires k < |b|
    ensures MapSeq(b, f) == MapSeq(b[..k], f) + [f(b[k])] + MapSeq(b[k + 1..], f)
  {
    var mp, mq := MapSeq(b[..k], f), MapSeq(b[k + 1..], f);
    var m, n := MapSeq(b, f), mp + [f(b[k])] + mq;
    assert |m| == |n|;
    forall i | 0 <= i < |m| ensures m[i] == n[i] {
      if i < k {
        assert n[i] == mp[i] == f(b[..k][i]);
      } else if i > k {
        assert n[i] == mq[i - k - 1] == f(b[k + 1..][i - k - 1]);
      }
    }
  }

  /** Mapping two permutations of one another gives permutations of one another. */
  lemma {:induction false} MapPermutation<A, B>(a: seq<A>, b: seq<A>, f: A -> B)
    requires multiset(a) == multiset(b)
    ensures multiset(MapSeq(a, f)) == multiset(MapSeq(b, f))
  {
    if |a| == 0 {
      assert |b| == |multiset(b)| == 0;
    } else {
      var x := a[0];
      assert x in multiset(b);
      var k :| 0 <= k < |b| && b[k] == x;
      var c := b[..k] + b[k + 1..];
      PermutationTail(a, b, k);
      MapPermutation(a[1..], c, f);
      MapRemoveAt(b, k, f);
      assert MapSeq(a, f) == [f(x)] + MapSeq(a[1..], f);
      assert multiset(MapSeq(a, f)) == multiset{f(x)} + multiset(MapSeq(a[1..], f));
    }
  }
}
