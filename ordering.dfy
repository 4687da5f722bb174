// Ordering of query results. Every `orderBy` of the repositories sorts on at
// most two integer columns and one text column, so a result order is given
// by a key (a, b, s) compared lexicographically; a descending column is put
// in the key negated. Text compares by code point.
module Ordering {

  datatype Key = Key(a: int, b: int, s: string)

  predicate StrLe(x: string, y: string)
  {
    x == [] || (y != [] && (x[0] < y[0] || (x[0] == y[0] && StrLe(x[1..], y[1..]))))
  }

  predicate KeyLe(x: Key, y: Key)
  {
    x.a < y.a || (x.a == y.a && (x.b < y.b || (x.b == y.b && StrLe(x.s, y.s))))
  }

  lemma {:induction false} StrLeTotal(x: string, y: string)
    ensures StrLe(x, y) || StrLe(y, x)
  {
    if x != [] && y != [] && x[0] == y[0] {
      StrLeTotal(x[1..], y[1..]);
    }
  }

  lemma {:induction false} StrLeTrans(x: string, y: string, z: string)
    requires StrLe(x, y) && StrLe(y, z)
    ensures StrLe(x, z)
  {
    if x != [] && y != [] && z != [] && x[0] == y[0] && y[0] == z[0] {
      StrLeTrans(x[1..], y[1..], z[1..]);
    }
  }

  lemma KeyLeTotal(x: Key, y: Key)
    ensures KeyLe(x, y) || KeyLe(y, x)
  {
    StrLeTotal(x.s, y.s);
  }

  lemma KeyLeTrans(x: Key, y: Key, z: Key)
    requires KeyLe(x, y) && KeyLe(y, z)
    ensures KeyLe(x, z)
  {
    if x.a == y.a == z.a && x.b == y.b == z.b {
      StrLeTrans(x.s, y.s, z.s);
    }
  }

  predicate SortedBy<T>(s: seq<T>, key: T -> Key)
  {
    forall i, j :: 0 <= i < j < |s| ==> KeyLe(key(s[i]), key(s[j]))
  }

  function Insert<T(!new)>(x: T, s: seq<T>, key: T -> Key): (r: seq<T>)
    ensures multiset(r) == multiset(s) + multiset{x}
    ensures forall y :: y in r <==> y in s || y == x
    ensures |r| == |s| + 1
  {
    if s == [] then [x]
    else if KeyLe(key(x), key(s[0])) then [x] + s
    else
      assert s == [s[0]] + s[1..];
      [s[0]] + Insert(x, s[1..], key)
  }

  /** The order an `orderBy` clause gives: the rows sorted by their key,
      rows with equal keys kept in table order. */
  function SortByKey<T(!new)>(s: seq<T>, key: T -> Key): (r: seq<T>)
    ensures multiset(r) == multiset(s)
    ensures forall y :: y in r <==> y in s
    ensures |r| == |s|
  {
    if s == [] then []
    else
      assert s == [s[0]] + s[1..];
      Insert(s[0], SortByKey(s[1..], key), key)
  }

  lemma {:induction false} InsertSorted<T(!new)>(x: T, s: seq<T>, key: T -> Key)
    requires SortedBy(s, key)
    ensures SortedBy(Insert(x, s, key), key)
  {
    var r := Insert(x, s, key);
    if s == [] {
    } else if KeyLe(key(x), key(s[0])) {
      forall i, j | 0 <= i < j < |r| ensures KeyLe(key(r[i]), key(r[j])) {
        if i == 0 && j > 1 {
          KeyLeTrans(key(x), key(s[0]), key(s[j - 1]));
        }
      }
    } else {
      KeyLeTotal(key(x), key(s[0]));
      var t := Insert(x, s[1..], key);
      InsertSorted(x, s[1..], key);
      forall j | 0 <= j < |t| ensures KeyLe(key(s[0]), key(t[j])) {
        assert t[j] in multiset(t);
        assert t[j] in multiset(s[1..]) || t[j] == x;
        if t[j] != x {
          var k :| 0 <= k < |s[1..]| && s[1..][k] == t[j];
          assert s[k + 1] == t[j];
        }
      }
      assert r == [s[0]] + t;
    }
  }

  lemma {:induction false} SortByKeySorted<T(!new)>(s: seq<T>, key: T -> Key)
    ensures SortedBy(SortByKey(s, key), key)
  {
    if s != [] {
      SortByKeySorted(s[1..], key);
      InsertSorted(s[0], SortByKey(s[1..], key), key);
    }
  }

  function Reverse<T>(s: seq<T>): (r: seq<T>)
    ensures |r| == |s|
    ensures forall i :: 0 <= i < |s| ==> r[i] == s[|s| - 1 - i]
  {
    seq(|s|, i requires 0 <= i < |s| => s[|s| - 1 - i])
  }

  lemma ReverseMultiset<T>(s: seq<T>)
    ensures multiset(Reverse(s)) == multiset(s)
  {
    if s != [] {
      var s' := s[1..];
      ReverseMultiset(s');
      assert Reverse(s) == Reverse(s') + [s[0]];
      assert s == [s[0]] + s';
    }
  }

  /** A descending `orderBy` on a column: the ascending order reversed. */
  function SortByKeyDesc<T(!new)>(s: seq<T>, key: T -> Key): (r: seq<T>)
    ensures |r| == |s|
  {
    Reverse(SortByKey(s, key))
  }

  lemma SortByKeyDescSorted<T(!new)>(s: seq<T>, key: T -> Key)
    ensures multiset(SortByKeyDesc(s, key)) == multiset(s)
    ensures forall x :: x in SortByKeyDesc(s, key) <==> x in s
    ensures forall i, j :: 0 <= i < j < |s| ==>
      KeyLe(key(SortByKeyDesc(s, key)[j]), key(SortByKeyDesc(s, key)[i]))
  {
    SortByKeySorted(s, key);
    ReverseMultiset(SortByKey(s, key));
    var r := SortByKeyDesc(s, key);
    assert forall x :: x in r <==> x in multiset(r);
    assert forall x :: x in s <==> x in multiset(s);
  }

  datatype SortOrder = Asc | Desc

  predicate OrderedBy<T>(s: seq<T>, key: T -> Key, order: SortOrder)
  {
    forall i, j :: 0 <= i < j < |s| ==>
      if order == Asc then KeyLe(key(s[i]), key(s[j])) else KeyLe(key(s[j]), key(s[i]))
  }

  /** An `orderBy: { [column]: order }`. */
  function SortRows<T(!new)>(s: seq<T>, key: T -> Key, order: SortOrder): (r: seq<T>)
    ensures multiset(r) == multiset(s)
    ensures forall x :: x in r <==> x in s
    ensures OrderedBy(r, key, order)
  {
    if order == Asc then
      SortByKeySorted(s, key);
      SortByKey(s, key)
    else
      SortByKeyDescSorted(s, key);
      SortByKeyDesc(s, key)
  }
}
