// Shared vocabulary of the model: optional values, the HTTP exceptions the
// services raise, and a few sequence helpers used by the ORM-style queries.
module Common {

  datatype Option<T> = None | Some(value: T)

  /** The NestJS exceptions raised by the services (and the plain `Error`
      raised by a repository guard). The argument of `BadRequest` and
      `Unauthorized` tells apart the guards that share a status code. */
  datatype Error =
    | NotFound
    | BadRequest(reason: string)
    | Unauthorized(reason: string)
    | Forbidden
    | Conflict
    | Internal(reason: string)

  /** The error a failed ORM `connect` (a relation to a row that does not
      exist) reaches the client as: not an HTTP exception, so the global
      filter answers 500. */
  const ConnectFailed: Error := Internal("Error interno del servidor")

  datatype Result<T> = Ok(value: T) | Err(error: Error)
  {
    predicate IsFailure() { Err? }
  }

  /** JavaScript truthiness of an optional numeric id: `undefined`, `null`
      and `0` are falsy. */
  predicate TruthyId(x: Option<int>)
  {
    x.Some? && x.value != 0
  }

  /** JavaScript truthiness of an optional string: `undefined`, `null` and
      `''` are falsy. */
  predicate TruthyStr(x: Option<string>)
  {
    x.Some? && x.value != ""
  }

  /** `a || b` on an optional string. */
  function OrElse(x: Option<string>, dflt: string): (r: string)
    ensures TruthyStr(x) ==> r == x.value
    ensures !TruthyStr(x) ==> r == dflt
  {
    if TruthyStr(x) then x.value else dflt
  }

  /** `a ?? b`: only `undefined`/`null` fall back. */
  function Coalesce<T>(x: Option<T>, dflt: T): (r: T)
    ensures x.Some? ==> r == x.value
    ensures x.None? ==> r == dflt
  {
    if x.Some? then x.value else dflt
  }

  /** A field written by a Prisma update: an undefined value leaves the
      stored one unchanged. */
  function Patch<T>(stored: T, given: Option<T>): T
  {
    if given.Some? then given.value else stored
  }

  function Filter<T(!new)>(s: seq<T>, p: T -> bool): (r: seq<T>)
    ensures |r| <= |s|
    ensures forall x :: x in r <==> x in s && p(x)
    ensures multiset(r) <= multiset(s)
  {
    if s == [] then []
    else
      assert s == s[..|s| - 1] + [s[|s| - 1]];
      if p(s[|s| - 1]) then Filter(s[..|s| - 1], p) + [s[|s| - 1]]
      else Filter(s[..|s| - 1], p)
  }

  lemma {:induction false} FilterAppend<T(!new)>(a: seq<T>, b: seq<T>, p: T -> bool)
    ensures Filter(a + b, p) == Filter(a, p) + Filter(b, p)
    decreases |b|
  {
    if b == [] {
      assert a + b == a;
    } else {
      var b' := b[..|b| - 1];
      assert (a + b)[..|a + b| - 1] == a + b';
      FilterAppend(a, b', p);
    }
  }

  lemma {:induction false} FilterAll<T(!new)>(s: seq<T>, p: T -> bool)
    requires forall x :: x in s ==> p(x)
    ensures Filter(s, p) == s
  {
    if s != [] {
      assert s == s[..|s| - 1] + [s[|s| - 1]];
      FilterAll(s[..|s| - 1], p);
    }
  }

  lemma {:induction false} FilterNone<T(!new)>(s: seq<T>, p: T -> bool)
    requires forall x :: x in s ==> !p(x)
    ensures Filter(s, p) == []
  {
    if s != [] {
      assert s[|s| - 1] in s;
      FilterNone(s[..|s| - 1], p);
    }
  }

  /** Filtering by two predicates that agree everywhere gives the same rows. */
  lemma {:induction false} FilterExt<T(!new)>(s: seq<T>, p: T -> bool, q: T -> bool)
    requires forall x :: p(x) == q(x)
    ensures Filter(s, p) == Filter(s, q)
  {
    if s != [] {
      FilterExt(s[..|s| - 1], p, q);
    }
  }

  /** `r` is `s` with some elements left out: the elements of `r` appear in
      `s` in the same order. */
  predicate Subseq<T(==)>(r: seq<T>, s: seq<T>)
    decreases |s|
  {
    if r == [] then true
    else if s == [] then false
    else if r[|r| - 1] == s[|s| - 1] then Subseq(r[..|r| - 1], s[..|s| - 1])
    else Subseq(r, s[..|s| - 1])
  }

  /** A `where` keeps the rows in the order the table lists them. */
  lemma {:induction false} FilterSubseq<T(!new)>(s: seq<T>, p: T -> bool)
    ensures Subseq(Filter(s, p), s)
  {
    if s != [] {
      var s' := s[..|s| - 1];
      var x := s[|s| - 1];
      FilterSubseq(s', p);
      var r := Filter(s, p);
      if p(x) {
        assert r == Filter(s', p) + [x];
        assert r[..|r| - 1] == Filter(s', p);
      } else {
        assert r == Filter(s', p);
        if r != [] {
          assert r[|r| - 1] in r;
        }
      }
    }
  }

  /** A `where` keeps every selected row as often as the table holds it. */
  lemma {:induction false} FilterMultiplicity<T(!new)>(s: seq<T>, p: T -> bool, x: T)
    ensures multiset(Filter(s, p))[x] == if p(x) then multiset(s)[x] else 0
  {
    if s != [] {
      var s' := s[..|s| - 1];
      FilterMultiplicity(s', p, x);
      assert s == s' + [s[|s| - 1]];
    }
  }

  /** Number of elements satisfying `p`: a Prisma `count` with a `where`. */
  function Count<T(!new)>(s: seq<T>, p: T -> bool): (n: nat)
    ensures n <= |s|
  {
    |Filter(s, p)|
  }

  lemma {:induction false} CountSplit<T(!new)>(s: seq<T>, p: T -> bool)
    ensures Count(s, p) + Count(s, x => !p(x)) == |s|
  {
    if s != [] {
      CountSplit(s[..|s| - 1], p);
    }
  }

  /** Two complementary filters share the rows between them. */
  lemma {:induction false} CountComplement<T(!new)>(s: seq<T>, p: T -> bool, q: T -> bool)
    requires forall x :: q(x) == !p(x)
    ensures Count(s, p) + Count(s, q) == |s|
  {
    if s != [] {
      CountComplement(s[..|s| - 1], p, q);
    }
  }

  /** `array.slice(0, n)` / Prisma `take`. */
  function Take<T>(s: seq<T>, n: nat): (r: seq<T>)
    ensures |r| == if n < |s| then n else |s|
    ensures r <= s
  {
    if n < |s| then s[..n] else s
  }

  /** Prisma `skip`. */
  function Drop<T>(s: seq<T>, n: nat): (r: seq<T>)
    ensures |r| == if n < |s| then |s| - n else 0
    ensures forall i :: 0 <= i < |r| ==> r[i] == s[n + i]
  {
    if n < |s| then s[n..] else []
  }

  /** How many of `n` rows a `skip`/`take` window holds: all those after
      the first `skip`, but no more than `take`. */
  function PageLength(n: nat, skip: nat, take: Option<nat>): nat
  {
    var avail := if skip < n then n - skip else 0;
    if take.Some? && take.value < avail then take.value else avail
  }

  /** `r` is the `skip`/`take` window of `s`: the rows of `s` from position
      `skip` on, in order, as many as `PageLength` allows. */
  ghost predicate IsPage<T>(r: seq<T>, s: seq<T>, skip: nat, take: Option<nat>)
  {
    |r| == PageLength(|s|, skip, take)
    && forall i :: 0 <= i < |r| ==> skip + i < |s| && r[i] == s[skip + i]
  }

  /** Prisma `skip` with an optional `take`: the rows from `skip` on, at
      most `take` of them, in order. */
  function Page<T>(s: seq<T>, skip: nat, take: Option<nat>): (r: seq<T>)
    ensures take.Some? ==> |r| <= take.value
    ensures IsPage(r, s, skip, take)
    ensures forall x :: x in r ==> x in s
  {
    var rest := Drop(s, skip);
    var r := if take.Some? then Take(rest, take.value) else rest;
    assert forall i :: 0 <= i < |r| ==> r[i] == rest[i];
    r
  }

  /** Consecutive pages tile the listing: a page of `a` rows followed by
      the page that starts right after it is the page of both together. */
  lemma PagesTile<T>(s: seq<T>, skip: nat, a: nat, b: Option<nat>)
    ensures Page(s, skip, Some(a)) + Page(s, skip + a, b)
         == Page(s, skip, if b.Some? then Some(a + b.value) else None)
  {
    var p := Page(s, skip, Some(a));
    var q := Page(s, skip + a, b);
    var w := Page(s, skip, if b.Some? then Some(a + b.value) else None);
    assert |p + q| == |w|;
    forall i | 0 <= i < |w| ensures (p + q)[i] == w[i] {
      if i >= |p| {
        assert |p| == a;
        assert q[i - a] == s[skip + a + (i - a)];
      }
    }
  }

  /** Without `skip` and `take` the page is the whole listing. */
  lemma WholePage<T>(s: seq<T>)
    ensures Page(s, 0, None) == s
  {
    assert |Page(s, 0, None)| == |s|;
  }

  predicate NoDup<T(==)>(s: seq<T>)
  {
    forall i, j :: 0 <= i < j < |s| ==> s[i] != s[j]
  }

  /** `[...new Set(s)]`: the distinct elements of `s`, each at the place of
      its first occurrence. */
  function Dedup<T(==,!new)>(s: seq<T>): (r: seq<T>)
    ensures NoDup(r)
    ensures forall x :: x in r <==> x in s
    ensures |r| <= |s|
  {
    if s == [] then []
    else
      var d := Dedup(s[..|s| - 1]);
      if s[|s| - 1] in d then d else d + [s[|s| - 1]]
  }

  lemma {:induction false} DedupOfNoDup<T(!new)>(s: seq<T>)
    requires NoDup(s)
    ensures Dedup(s) == s
  {
    if s != [] {
      var s' := s[..|s| - 1];
      DedupOfNoDup(s');
      assert s[|s| - 1] !in s' by {
        forall i | 0 <= i < |s'| ensures s'[i] != s[|s| - 1] {
          assert s[i] != s[|s| - 1];
        }
      }
      assert s' + [s[|s| - 1]] == s;
    }
  }

  /** The prefix property of first occurrences: deduplicating a longer
      sequence only appends to the deduplication of its prefix. */
  lemma {:induction false} DedupPrefix<T(!new)>(a: seq<T>, b: seq<T>)
    ensures Dedup(a) <= Dedup(a + b)
    decreases |b|
  {
    if b != [] {
      var b' := b[..|b| - 1];
      assert (a + b)[..|a + b| - 1] == a + b';
      DedupPrefix(a, b');
    } else {
      assert a + b == a;
    }
  }

  function Map<T, U>(s: seq<T>, f: T -> U): (r: seq<U>)
    ensures |r| == |s|
    ensures forall i :: 0 <= i < |s| ==> r[i] == f(s[i])
  {
    seq(|s|, i requires 0 <= i < |s| => f(s[i]))
  }

  /** One more element is kept by `Dedup` exactly when it is new. */
  lemma DedupSnoc<T(!new)>(s: seq<T>, x: T)
    ensures Dedup(s + [x]) == if x in Dedup(s) then Dedup(s) else Dedup(s) + [x]
  {
    assert (s + [x])[..|s|] == s;
  }

  /** Mapping one more element appends its image. */
  lemma MapSnoc<T, U>(s: seq<T>, j: int, f: T -> U)
    requires 0 <= j < |s|
    ensures Map(s[..j + 1], f) == Map(s[..j], f) + [f(s[j])]
  {
    var a := Map(s[..j + 1], f);
    var b := Map(s[..j], f) + [f(s[j])];
    assert |a| == |b|;
    forall k | 0 <= k < |a| ensures a[k] == b[k] {
      assert s[..j + 1][k] == s[k];
    }
  }

  function SeqSet<T(!new)>(s: seq<T>): (r: set<T>)
    ensures forall x :: x in r <==> x in s
  {
    set x | x in s
  }

  function Flatten<T>(ss: seq<seq<T>>): (r: seq<T>)
  {
    if ss == [] then [] else Flatten(ss[..|ss| - 1]) + ss[|ss| - 1]
  }

  lemma {:induction false} FlattenMembers<T>(ss: seq<seq<T>>, x: T)
    ensures x in Flatten(ss) <==> exists i :: 0 <= i < |ss| && x in ss[i]
  {
    if ss != [] {
      var ss' := ss[..|ss| - 1];
      FlattenMembers(ss', x);
      if x in ss[|ss| - 1] {
        assert x in Flatten(ss);
      }
      if exists i :: 0 <= i < |ss| && x in ss[i] {
        var i :| 0 <= i < |ss| && x in ss[i];
        if i < |ss| - 1 {
          assert x in ss'[i];
        }
      }
    }
  }
}
