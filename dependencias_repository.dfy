// The dependencias repository: the queries on the three-level hierarchy of
// government units (always active rows only), the root filter of the tree,
// and the full "A > B > C" path of every unit, built by walking up the
// parent links.
module DependenciasRepository {
  import opened Common
  import opened Strings
  import opened Ordering

  datatype Dependencia = Dependencia(
    id: int,
    nombre: string,
    idTipo: int,
    idPadre: Option<int>,
    nivel: int,
    orden: int,
    activo: bool)

  datatype TipoDependencia = TipoDependencia(id: int, nombre: string)

  predicate UniqueDepIds(deps: seq<Dependencia>)
  {
    forall i, j :: 0 <= i < j < |deps| ==> deps[i].id != deps[j].id
  }

  /** `orderBy: [{ nivel }, { orden }, { nombre }]`. */
  function LevelKey(d: Dependencia): Key
  {
    Key(d.nivel, d.orden, d.nombre)
  }

  /** `orderBy: [{ orden }, { nombre }]`. */
  function OrderKey(d: Dependencia): Key
  {
    Key(d.orden, 0, d.nombre)
  }

  function TipoKey(t: TipoDependencia): Key
  {
    Key(0, 0, t.nombre)
  }

  /** The active rows satisfying `p`, sorted by `key`. */
  function ActiveWhere(deps: seq<Dependencia>, p: Dependencia -> bool, key: Dependencia -> Key)
    : (r: seq<Dependencia>)
    ensures forall d :: d in r <==> d in deps && d.activo && p(d)
    ensures SortedBy(r, key)
    ensures multiset(r) <= multiset(deps)
  {
    var matching := Filter(deps, (d: Dependencia) => d.activo && p(d));
    SortByKeySorted(matching, key);
    SortByKey(matching, key)
  }

  /** `findAllTiposDependencia`: every type, by name. */
  function FindAllTipos(tipos: seq<TipoDependencia>): (r: seq<TipoDependencia>)
    ensures multiset(r) == multiset(tipos)
    ensures SortedBy(r, TipoKey)
  {
    SortByKeySorted(tipos, TipoKey);
    SortByKey(tipos, TipoKey)
  }

  /** `findAllDependencias`: the active rows by level, order and name. */
  function FindAllDependencias(deps: seq<Dependencia>): (r: seq<Dependencia>)
    ensures forall d :: d in r <==> d in deps && d.activo
    ensures SortedBy(r, LevelKey)
    ensures multiset(r) <= multiset(deps)
  {
    ActiveWhere(deps, (d: Dependencia) => true, LevelKey)
  }

  /** `findDependenciasByNivel`. */
  function FindByNivel(deps: seq<Dependencia>, nivel: int): (r: seq<Dependencia>)
    ensures forall d :: d in r <==> d in deps && d.activo && d.nivel == nivel
    ensures SortedBy(r, OrderKey)
    ensures multiset(r) <= multiset(deps)
  {
    ActiveWhere(deps, (d: Dependencia) => d.nivel == nivel, OrderKey)
  }

  /** `findDependenciasByTipo`. */
  function FindByTipo(deps: seq<Dependencia>, idTipo: int): (r: seq<Dependencia>)
    ensures forall d :: d in r <==> d in deps && d.activo && d.idTipo == idTipo
    ensures SortedBy(r, LevelKey)
    ensures multiset(r) <= multiset(deps)
  {
    ActiveWhere(deps, (d: Dependencia) => d.idTipo == idTipo, LevelKey)
  }

  /** `findDependenciasByPadre`. */
  function FindByPadre(deps: seq<Dependencia>, idPadre: int): (r: seq<Dependencia>)
    ensures forall d :: d in r <==> d in deps && d.activo && d.idPadre == Some(idPadre)
    ensures SortedBy(r, OrderKey)
    ensures multiset(r) <= multiset(deps)
  {
    ActiveWhere(deps, (d: Dependencia) => d.idPadre == Some(idPadre), OrderKey)
  }

  /** `findDependenciasForUserSelection`: the active level-3 units. */
  function FindForUserSelection(deps: seq<Dependencia>): (r: seq<Dependencia>)
    ensures r == FindByNivel(deps, 3)
    ensures forall d :: d in r ==> d.nivel == 3 && d.activo
  {
    FindByNivel(deps, 3)
  }

  function FindDependencia(deps: seq<Dependencia>, id: int): (r: Option<Dependencia>)
    ensures r.Some? ==> r.value in deps && r.value.id == id
    ensures r.None? ==> forall d :: d in deps ==> d.id != id
  {
    if deps == [] then None
    else if deps[0].id == id then Some(deps[0])
    else FindDependencia(deps[1..], id)
  }

  /** A unit as `findDependenciaById` loads it: with its parent row and its
      active children by order and name. */
  datatype DependenciaDetail = DependenciaDetail(dep: Dependencia, padre: Option<Dependencia>, hijos: seq<Dependencia>)

  /** `findDependenciaById`: any row with the id, active or not, with its
      parent row (`padre: true` loads it whether active or not) and its
      active children. */
  function FindDependenciaById(deps: seq<Dependencia>, id: int): (r: Option<DependenciaDetail>)
    ensures r.None? <==> forall d :: d in deps ==> d.id != id
    ensures r.Some? ==> r.value.dep in deps && r.value.dep.id == id
    ensures r.Some? ==> r.value.hijos == FindByPadre(deps, id)
    ensures r.Some? ==>
      (r.value.padre.Some? <==> r.value.dep.idPadre.Some? && exists p :: p in deps && p.id == r.value.dep.idPadre.value)
    ensures r.Some? && r.value.padre.Some? ==>
      r.value.padre.value in deps && Some(r.value.padre.value.id) == r.value.dep.idPadre
  {
    var found := FindDependencia(deps, id);
    if found.None? then None
    else
      var padre := if found.value.idPadre.Some? then FindDependencia(deps, found.value.idPadre.value) else None;
      Some(DependenciaDetail(found.value, padre, FindByPadre(deps, id)))
  }

  /** A root of the tree: level 1, or no parent (`!dep.idPadre`: a missing
      or zero parent id). */
  predicate IsRoot(d: Dependencia)
  {
    d.nivel == 1 || !TruthyId(d.idPadre)
  }

  /** A child of a root as the tree loads it, with its own active
      children. */
  datatype SubTree = SubTree(dep: Dependencia, hijos: seq<Dependencia>)

  datatype Tree = Tree(dep: Dependencia, hijos: seq<SubTree>)

  function SubTrees(deps: seq<Dependencia>, children: seq<Dependencia>): (r: seq<SubTree>)
    ensures |r| == |children|
    ensures forall i :: 0 <= i < |r| ==> r[i] == SubTree(children[i], FindByPadre(deps, children[i].id))
  {
    seq(|children|, i requires 0 <= i < |children| => SubTree(children[i], FindByPadre(deps, children[i].id)))
  }

  /** The roots `findDependenciasTree` keeps. */
  function TreeRoots(deps: seq<Dependencia>): (r: seq<Dependencia>)
    ensures forall d :: d in r <==> d in deps && d.activo && IsRoot(d)
    ensures SortedBy(r, LevelKey)
    ensures multiset(r) <= multiset(deps)
  {
    var all := FindAllDependencias(deps);
    var roots := Filter(all, IsRoot);
    SortedFilter(all, IsRoot, LevelKey);
    roots
  }

  lemma {:induction false} SortedFilter<T(!new)>(s: seq<T>, p: T -> bool, key: T -> Key)
    requires SortedBy(s, key)
    ensures SortedBy(Filter(s, p), key)
  {
    if s != [] {
      var s' := s[..|s| - 1];
      var x := s[|s| - 1];
      SortedFilter(s', p, key);
      var r' := Filter(s', p);
      if p(x) {
        forall i | 0 <= i < |r'| ensures KeyLe(key(r'[i]), key(x)) {
          assert r'[i] in s';
          var k :| 0 <= k < |s'| && s'[k] == r'[i];
          assert s[k] == r'[i];
        }
      }
    }
  }

  /** The children of `d` as the tree shows them: exactly its active
      children, by order and name, each with exactly its own active
      children, by order and name. */
  ghost predicate LoadedChildren(hijos: seq<SubTree>, deps: seq<Dependencia>, d: Dependencia)
  {
    ChildSet(hijos, deps, d) && ChildOrder(hijos) && GrandchildSets(hijos, deps)
  }

  ghost predicate ChildSet(hijos: seq<SubTree>, deps: seq<Dependencia>, d: Dependencia)
  {
    forall c :: c in deps && c.activo && c.idPadre == Some(d.id) <==> exists s :: s in hijos && s.dep == c
  }

  predicate ChildOrder(hijos: seq<SubTree>)
  {
    forall i, j :: 0 <= i < j < |hijos| ==> KeyLe(OrderKey(hijos[i].dep), OrderKey(hijos[j].dep))
  }

  ghost predicate GrandchildSets(hijos: seq<SubTree>, deps: seq<Dependencia>)
  {
    forall s :: s in hijos ==>
      (forall g :: g in s.hijos <==> g in deps && g.activo && g.idPadre == Some(s.dep.id))
      && SortedBy(s.hijos, OrderKey)
  }

  /** `findDependenciasTree`: the active roots, by level, order and name,
      each with its active children and grandchildren. */
  function FindDependenciasTree(deps: seq<Dependencia>): (r: seq<Tree>)
    ensures |r| == |TreeRoots(deps)|
    ensures forall i :: 0 <= i < |r| ==> r[i] == TreeOf(deps, TreeRoots(deps)[i])
    ensures forall i :: 0 <= i < |r| ==>
      r[i].dep == TreeRoots(deps)[i] && LoadedChildren(r[i].hijos, deps, r[i].dep)
  {
    Trees(deps, TreeRoots(deps))
  }

  function Trees(deps: seq<Dependencia>, roots: seq<Dependencia>): (r: seq<Tree>)
    ensures |r| == |roots|
    ensures forall i :: 0 <= i < |r| ==> r[i] == TreeOf(deps, roots[i])
  {
    seq(|roots|, i requires 0 <= i < |roots| => TreeOf(deps, roots[i]))
  }

  /** One root with its children and grandchildren. */
  function TreeOf(deps: seq<Dependencia>, d: Dependencia): (t: Tree)
    ensures t.dep == d && t.hijos == SubTrees(deps, FindByPadre(deps, d.id))
    ensures LoadedChildren(t.hijos, deps, d)
  {
    SubTreesLoaded(deps, d);
    Tree(d, SubTrees(deps, FindByPadre(deps, d.id)))
  }

  lemma SubTreesLoaded(deps: seq<Dependencia>, d: Dependencia)
    ensures LoadedChildren(SubTrees(deps, FindByPadre(deps, d.id)), deps, d)
  {
    var children := FindByPadre(deps, d.id);
    SubTreesChildSet(deps, d, children);
    assert ChildOrder(SubTrees(deps, children));
    SubTreesGrandchildren(deps, children);
  }

  lemma SubTreesChildSet(deps: seq<Dependencia>, d: Dependencia, children: seq<Dependencia>)
    requires children == FindByPadre(deps, d.id)
    ensures ChildSet(SubTrees(deps, children), deps, d)
  {
    SubTreesShowChildren(deps, children);
  }

  /** The subtrees show exactly the given children. */
  lemma SubTreesShowChildren(deps: seq<Dependencia>, children: seq<Dependencia>)
    ensures forall c :: c in children <==> exists s :: s in SubTrees(deps, children) && s.dep == c
  {
    SubTreesCoverChildren(deps, children);
    SubTreesOnlyChildren(deps, children);
  }

  /** Every given child has its subtree. */
  lemma SubTreesCoverChildren(deps: seq<Dependencia>, children: seq<Dependencia>)
    ensures forall c :: c in children ==> exists s :: s in SubTrees(deps, children) && s.dep == c
  {
    var hijos := SubTrees(deps, children);
    forall c | c in children
      ensures exists s :: s in hijos && s.dep == c
    {
      var k :| 0 <= k < |children| && children[k] == c;
      assert hijos[k] in hijos && hijos[k].dep == c;
    }
  }

  /** Every subtree is of a given child. */
  lemma SubTreesOnlyChildren(deps: seq<Dependencia>, children: seq<Dependencia>)
    ensures forall s :: s in SubTrees(deps, children) ==> s.dep in children
  {
    var hijos := SubTrees(deps, children);
    forall s | s in hijos
      ensures s.dep in children
    {
      var k :| 0 <= k < |hijos| && hijos[k] == s;
      assert s.dep == children[k];
    }
  }

  lemma SubTreesGrandchildren(deps: seq<Dependencia>, children: seq<Dependencia>)
    ensures GrandchildSets(SubTrees(deps, children), deps)
  {
    var hijos := SubTrees(deps, children);
    forall s | s in hijos
      ensures s.hijos == FindByPadre(deps, s.dep.id)
    {
      var k :| 0 <= k < |hijos| && hijos[k] == s;
    }
  }

  /** The `dependenciasMap` of `findDependenciasWithFullPath`: id to row,
      a later row overwriting an earlier one with the same id. */
  function DepMap(deps: seq<Dependencia>): (m: map<int, Dependencia>)
    ensures forall id :: id in m <==> exists d :: d in deps && d.id == id
    ensures forall id :: id in m ==> m[id] in deps && m[id].id == id
  {
    if deps == [] then map[]
    else
      var last := deps[|deps| - 1];
      var m' := DepMap(deps[..|deps| - 1]);
      assert forall d :: d in deps[..|deps| - 1] ==> d in deps;
      assert forall d :: d in deps ==> d in deps[..|deps| - 1] || d == last;
      m'[last.id := last]
  }

  /** With unique ids, every row is the map's entry for its id. */
  lemma {:induction false} DepMapOfUnique(deps: seq<Dependencia>)
    requires UniqueDepIds(deps)
    ensures forall d :: d in deps ==> DepMap(deps)[d.id] == d
  {
    if deps != [] {
      var init := deps[..|deps| - 1];
      assert UniqueDepIds(init);
      DepMapOfUnique(init);
      forall d | d in deps ensures DepMap(deps)[d.id] == d {
        var k :| 0 <= k < |deps| && deps[k] == d;
        if k < |deps| - 1 {
          assert d in init;
          assert deps[k].id != deps[|deps| - 1].id;
        }
      }
    }
  }

  /** `dependencias.forEach(dep => dependenciasMap.set(dep.id, dep))`. */
  method BuildDepMap(deps: seq<Dependencia>) returns (m: map<int, Dependencia>)
    ensures m == DepMap(deps)
  {
    m := map[];
    for i := 0 to |deps|
      invariant m == DepMap(deps[..i])
    {
      assert deps[..i + 1][..i] == deps[..i];
      m := m[deps[i].id := deps[i]];
    }
    assert deps[..|deps|] == deps;
  }

  /** The parent links of a map climb a rank: following a link that stays
      in the map always reaches a smaller rank, so every walk ends. */
  ghost predicate RankedParents(m: map<int, Dependencia>, rank: map<int, nat>)
  {
    (forall id :: id in m ==> id in rank)
    && forall id :: id in m && TruthyId(m[id].idPadre) && m[id].idPadre.value in m ==>
      m[id].idPadre.value in rank && rank[m[id].idPadre.value] < rank[id]
  }

  /** The measure of a walk standing at `cur`. */
  ghost function WalkRank(m: map<int, Dependencia>, rank: map<int, nat>, cur: Option<int>): nat
    requires RankedParents(m, rank)
  {
    if TruthyId(cur) && cur.value in m then rank[cur.value] + 1 else 0
  }

  /** The names of the ancestors reached from `cur`, root first: the walk
      stops at a falsy id or an id that is not in the map. */
  ghost function AncestorNames(m: map<int, Dependencia>, rank: map<int, nat>, cur: Option<int>): (r: seq<string>)
    requires RankedParents(m, rank)
    decreases WalkRank(m, rank, cur)
  {
    if TruthyId(cur) && cur.value in m then
      AncestorNames(m, rank, m[cur.value].idPadre) + [m[cur.value].nombre]
    else []
  }

  /** The full path of a unit: its ancestors' names root first, then its
      own, joined by " > ". */
  ghost function FullPath(m: map<int, Dependencia>, rank: map<int, nat>, d: Dependencia): string
    requires RankedParents(m, rank)
  {
    Join(AncestorNames(m, rank, d.idPadre) + [d.nombre], " > ")
  }

  /** A unit whose parent is missing, falsy or not loaded has its own name
      as path. */
  lemma PathOfTopUnit(m: map<int, Dependencia>, rank: map<int, nat>, d: Dependencia)
    requires RankedParents(m, rank)
    requires !TruthyId(d.idPadre) || d.idPadre.value !in m
    ensures FullPath(m, rank, d) == d.nombre
  {
  }

  /** The path of a unit whose parent is loaded is the parent's path, " > "
      and its own name. */
  lemma PathExtendsParentPath(m: map<int, Dependencia>, rank: map<int, nat>, d: Dependencia)
    requires RankedParents(m, rank)
    requires TruthyId(d.idPadre) && d.idPadre.value in m
    ensures FullPath(m, rank, d) == FullPath(m, rank, m[d.idPadre.value]) + " > " + d.nombre
  {
    var p := m[d.idPadre.value];
    var above := AncestorNames(m, rank, p.idPadre);
    assert AncestorNames(m, rank, d.idPadre) == above + [p.nombre];
    JoinLastTwo(above, p.nombre, d.nombre, " > ");
    JoinAppend(above + [p.nombre], d.nombre, " > ");
  }

  /** `getFullPath`: the path starts as the unit's name, and while the
      current parent id is truthy and loaded, the parent's name and " > "
      are put in front and the walk moves to the parent's parent. */
  method GetFullPath(m: map<int, Dependencia>, ghost rank: map<int, nat>, d: Dependencia) returns (path: string)
    requires RankedParents(m, rank)
    ensures path == FullPath(m, rank, d)
  {
    path := d.nombre;
    var currentId := d.idPadre;
    while TruthyId(currentId) && currentId.value in m
      invariant Join(AncestorNames(m, rank, currentId) + [path], " > ") == FullPath(m, rank, d)
      decreases WalkRank(m, rank, currentId)
    {
      var parent := m[currentId.value];
      var above := AncestorNames(m, rank, parent.idPadre);
      assert AncestorNames(m, rank, currentId) == above + [parent.nombre];
      JoinLastTwo(above, parent.nombre, path, " > ");
      assert above + [parent.nombre] + [path] == above + [parent.nombre, path];
      path := parent.nombre + " > " + path;
      currentId := parent.idPadre;
    }
  }

  datatype DependenciaWithPath = DependenciaWithPath(dep: Dependencia, path: string)

  /** Every parent link between two rows climbs `rank`. */
  ghost predicate AcyclicParents(deps: seq<Dependencia>, rank: map<int, nat>)
  {
    (forall d :: d in deps ==> d.id in rank)
    && forall d, p :: d in deps && p in deps && TruthyId(d.idPadre) && p.id == d.idPadre.value ==>
      rank[p.id] < rank[d.id]
  }

  lemma RankedMapOf(deps: seq<Dependencia>, rows: seq<Dependencia>, rank: map<int, nat>)
    requires AcyclicParents(deps, rank)
    requires forall d :: d in rows ==> d in deps
    ensures RankedParents(DepMap(rows), rank)
  {
  }

  /** The first `n` rows of `r` are the first `n` rows of `rows`, each
      with its full path in `m`. */
  ghost predicate PathsUpTo(r: seq<DependenciaWithPath>, rows: seq<Dependencia>, m: map<int, Dependencia>,
                            rank: map<int, nat>, n: nat)
    requires RankedParents(m, rank)
  {
    n <= |r| && n <= |rows| &&
    forall k :: 0 <= k < n ==> r[k] == DependenciaWithPath(rows[k], FullPath(m, rank, rows[k]))
  }

  /** Pairs every row with its path, in the order of `rows`. */
  method WithFullPaths(rows: seq<Dependencia>, m: map<int, Dependencia>, ghost rank: map<int, nat>)
    returns (r: seq<DependenciaWithPath>)
    requires RankedParents(m, rank)
    ensures |r| == |rows| && PathsUpTo(r, rows, m, rank, |rows|)
  {
    r := [];
    for i := 0 to |rows|
      invariant |r| == i && PathsUpTo(r, rows, m, rank, i)
    {
      var path := GetFullPath(m, rank, rows[i]);
      r := r + [DependenciaWithPath(rows[i], path)];
    }
  }

  /** `findDependenciasWithFullPath`: the active rows by level, order and
      name, each with its full path through the active rows. The walk has
      no cycle guard: it ends only because the parent links among the
      active rows are acyclic; inactive rows are never loaded or walked. */
  method FindDependenciasWithFullPath(deps: seq<Dependencia>, ghost rank: map<int, nat>)
    returns (r: seq<DependenciaWithPath>)
    requires AcyclicParents(FindAllDependencias(deps), rank)
    ensures RankedParents(DepMap(FindAllDependencias(deps)), rank)
    ensures |r| == |FindAllDependencias(deps)|
    ensures PathsUpTo(r, FindAllDependencias(deps), DepMap(FindAllDependencias(deps)), rank, |r|)
  {
    var rows := FindAllDependencias(deps);
    var m := BuildDepMap(rows);
    RankedMapOf(rows, rows, rank);
    r := WithFullPaths(rows, m, rank);
  }
}
