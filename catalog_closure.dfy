// The descendant set of the document search: the recursive query that starts
// from the active catalogs among some start ids and repeatedly adds the
// active catalogs whose parent is already in the set. It is modelled as the
// least set closed under that step, computed by iteration on a finite table.
module CatalogClosure {
  import opened Common
  import opened Schema

  /** Ids of the active rows of the table. */
  function ActiveIds(rows: seq<Catalogo>): set<int>
  {
    set c | c in rows && c.activo :: c.id
  }

  /** The recursive member of the query: active rows whose parent is in `s`. */
  function ChildrenOf(rows: seq<Catalogo>, s: set<int>): set<int>
  {
    set c | c in rows && c.activo && c.parentId.Some? && c.parentId.value in s :: c.id
  }

  lemma ChildrenOfActive(rows: seq<Catalogo>, s: set<int>)
    ensures ChildrenOf(rows, s) <= ActiveIds(rows)
  {
  }

  lemma ChildrenOfMonotone(rows: seq<Catalogo>, s: set<int>, t: set<int>)
    requires s <= t
    ensures ChildrenOf(rows, s) <= ChildrenOf(rows, t)
  {
  }

  lemma ChildrenOfUnion(rows: seq<Catalogo>, s: set<int>, t: set<int>)
    ensures ChildrenOf(rows, s + t) == ChildrenOf(rows, s) + ChildrenOf(rows, t)
  {
  }

  lemma ProperSubsetCard(a: set<int>, b: set<int>)
    requires a < b
    ensures |a| < |b|
  {
    assert b == a + (b - a);
    assert b - a != {};
  }

  /** Iterates the recursive member from `s` until nothing new is added. */
  function Closure(rows: seq<Catalogo>, s: set<int>): (r: set<int>)
    requires s <= ActiveIds(rows)
    ensures s <= r <= ActiveIds(rows)
    ensures ChildrenOf(rows, r) <= r
    decreases |ActiveIds(rows) - s|
  {
    ChildrenOfActive(rows, s);
    var n := s + ChildrenOf(rows, s);
    if n == s then s
    else
      ProperSubsetCard(ActiveIds(rows) - n, ActiveIds(rows) - s);
      Closure(rows, n)
  }

  /** The ids the recursive query returns for the start ids `start`. */
  function Descendants(rows: seq<Catalogo>, start: set<int>): (r: set<int>)
    ensures start * ActiveIds(rows) <= r <= ActiveIds(rows)
    ensures ChildrenOf(rows, r) <= r
  {
    Closure(rows, start * ActiveIds(rows))
  }

  lemma {:induction false} ClosureLeast(rows: seq<Catalogo>, s: set<int>, bound: set<int>)
    requires s <= ActiveIds(rows)
    requires s <= bound && ChildrenOf(rows, bound) <= bound
    ensures Closure(rows, s) <= bound
    decreases |ActiveIds(rows) - s|
  {
    ChildrenOfActive(rows, s);
    var n := s + ChildrenOf(rows, s);
    if n != s {
      ChildrenOfMonotone(rows, s, bound);
      ProperSubsetCard(ActiveIds(rows) - n, ActiveIds(rows) - s);
      ClosureLeast(rows, n, bound);
    }
  }

  /** The descendant set is the least set that holds the active start ids
      and every active child of its members. */
  lemma DescendantsLeast(rows: seq<Catalogo>, start: set<int>, bound: set<int>)
    requires start * ActiveIds(rows) <= bound
    requires ChildrenOf(rows, bound) <= bound
    ensures Descendants(rows, start) <= bound
  {
    ClosureLeast(rows, start * ActiveIds(rows), bound);
  }

  /** The fixpoint equation: a member is an active start id or an active
      child of a member, and nothing else. */
  lemma DescendantsFixpoint(rows: seq<Catalogo>, start: set<int>)
    ensures Descendants(rows, start)
      == start * ActiveIds(rows) + ChildrenOf(rows, Descendants(rows, start))
  {
    var d := Descendants(rows, start);
    var e := start * ActiveIds(rows) + ChildrenOf(rows, d);
    assert e <= d;
    ChildrenOfMonotone(rows, e, d);
    DescendantsLeast(rows, start, e);
  }

  /** With unique ids, a row is determined by its id. */
  lemma SameIdSameRow(rows: seq<Catalogo>, a: Catalogo, b: Catalogo)
    requires UniqueCatalogIds(rows)
    requires a in rows && b in rows
    ensures a.id == b.id ==> a == b
  {
    var i :| 0 <= i < |rows| && rows[i] == a;
    var j :| 0 <= j < |rows| && rows[j] == b;
    assert i < j || i == j || j < i;
  }

  /** An inactive catalog is never in a descendant set, and a child of it is
      in one only when it is a start id itself: the inactive node cuts off
      its subtree. */
  lemma InactiveCutsOff(rows: seq<Catalogo>, start: set<int>, c: Catalogo, k: Catalogo)
    requires UniqueCatalogIds(rows)
    requires c in rows && !c.activo
    requires k in rows && k.parentId == Some(c.id)
    ensures c.id !in Descendants(rows, start)
    ensures k.id in Descendants(rows, start) ==> k.id in start
  {
    var d := Descendants(rows, start);
    forall a | a in rows && a.activo
      ensures a.id != c.id
    {
      SameIdSameRow(rows, a, c);
    }
    assert c.id !in ActiveIds(rows);
    forall a | a in rows && a.activo && a.parentId.Some? && a.parentId.value in d
      ensures a.id != k.id
    {
      SameIdSameRow(rows, a, k);
    }
    assert k.id !in ChildrenOf(rows, d);
    DescendantsFixpoint(rows, start);
  }

  /** Querying several start ids at once gives the union of the single
      queries. */
  lemma DescendantsUnion(rows: seq<Catalogo>, a: set<int>, b: set<int>)
    ensures Descendants(rows, a + b) == Descendants(rows, a) + Descendants(rows, b)
  {
    var da := Descendants(rows, a);
    var db := Descendants(rows, b);
    var dab := Descendants(rows, a + b);
    DescendantsLeast(rows, a, dab);
    DescendantsLeast(rows, b, dab);
    ChildrenOfUnion(rows, da, db);
    DescendantsLeast(rows, a + b, da + db);
  }

  lemma DescendantsMonotone(rows: seq<Catalogo>, a: set<int>, b: set<int>)
    requires a <= b
    ensures Descendants(rows, a) <= Descendants(rows, b)
  {
    DescendantsLeast(rows, a, Descendants(rows, b));
  }

  lemma DescendantsEmpty(rows: seq<Catalogo>)
    ensures Descendants(rows, {}) == {}
  {
    DescendantsLeast(rows, {}, {});
  }

  /** The rows the query returns, one per catalog in the descendant set, in
      table order. */
  function CteRows(rows: seq<Catalogo>, start: set<int>): (r: seq<int>)
    ensures forall x :: x in r <==> x in Descendants(rows, start)
  {
    var d := Descendants(rows, start);
    var sel := Filter(rows, (c: Catalogo) => c.activo && c.id in d);
    var r := Map(sel, (c: Catalogo) => c.id);
    assert forall x :: x in r ==> x in d by {
      forall x | x in r ensures x in d {
        var i :| 0 <= i < |r| && r[i] == x;
        assert sel[i] in sel;
      }
    }
    assert forall x :: x in d ==> x in r by {
      forall x | x in d ensures x in r {
        var c :| c in rows && c.activo && c.id == x;
        assert c in sel;
        var i :| 0 <= i < |sel| && sel[i] == c;
        assert r[i] == x;
      }
    }
    r
  }
}
