// The dependencias service: the level guard, the not-found guard, the
// per-level lists and the counts by level and by type.
module DependenciasService {
  import opened Common
  import opened Strings
  import opened Ordering
  import opened DependenciasRepository

  /** `findDependenciasByNivel`: only levels 1, 2 and 3 exist. */
  function FindDependenciasByNivel(deps: seq<Dependencia>, nivel: int): (r: Result<seq<Dependencia>>)
    ensures r.Err? <==> nivel < 1 || nivel > 3
    ensures r.Err? ==> r.error == NotFound
    ensures r.Ok? ==> forall d :: d in r.value <==> d in deps && d.activo && d.nivel == nivel
    ensures r.Ok? ==> SortedBy(r.value, OrderKey) && multiset(r.value) <= multiset(deps)
    ensures r.Ok? ==> r.value == FindByNivel(deps, nivel)
  {
    if nivel < 1 || nivel > 3 then Err(NotFound)
    else Ok(FindByNivel(deps, nivel))
  }

  /** `findDependenciaById`: NotFound when no row has the id. */
  function FindDependenciaById(deps: seq<Dependencia>, id: int): (r: Result<DependenciaDetail>)
    ensures r.Err? <==> forall d :: d in deps ==> d.id != id
    ensures r.Err? ==> r.error == NotFound
    ensures r.Ok? ==> r.value.dep in deps && r.value.dep.id == id
  {
    var found := DependenciasRepository.FindDependenciaById(deps, id);
    if found.None? then Err(NotFound) else Ok(found.value)
  }

  /** `validateDependenciaExists`: true exactly when the lookup finds a
      row, active or not. */
  function ValidateDependenciaExists(deps: seq<Dependencia>, id: int): (b: bool)
    ensures b <==> exists d :: d in deps && d.id == id
    ensures b <==> FindDependenciaById(deps, id).Ok?
  {
    DependenciasRepository.FindDependenciaById(deps, id).Some?
  }

  datatype ByLevel = ByLevel(nivel1: seq<Dependencia>, nivel2: seq<Dependencia>, nivel3: seq<Dependencia>)

  /** `getDependenciasByLevel`: the three level lists; none of the three
      levels is rejected by the guard. */
  function GetDependenciasByLevel(deps: seq<Dependencia>): (r: ByLevel)
    ensures forall d :: d in r.nivel1 <==> d in deps && d.activo && d.nivel == 1
    ensures forall d :: d in r.nivel2 <==> d in deps && d.activo && d.nivel == 2
    ensures forall d :: d in r.nivel3 <==> d in deps && d.activo && d.nivel == 3
    ensures r.nivel1 == FindByNivel(deps, 1) && r.nivel2 == FindByNivel(deps, 2)
      && r.nivel3 == FindByNivel(deps, 3)
    ensures SortedBy(r.nivel1, OrderKey) && SortedBy(r.nivel2, OrderKey) && SortedBy(r.nivel3, OrderKey)
    ensures multiset(r.nivel1) <= multiset(deps) && multiset(r.nivel2) <= multiset(deps)
      && multiset(r.nivel3) <= multiset(deps)
  {
    ByLevel(FindDependenciasByNivel(deps, 1).value, FindDependenciasByNivel(deps, 2).value,
            FindDependenciasByNivel(deps, 3).value)
  }

  datatype Structure = Structure(tipos: seq<TipoDependencia>, dependencias: seq<Dependencia>, tree: seq<Tree>)

  /** `getDependenciaStructure`: the types, the active units and the tree. */
  function GetDependenciaStructure(tipos: seq<TipoDependencia>, deps: seq<Dependencia>): (r: Structure)
    ensures multiset(r.tipos) == multiset(tipos)
    ensures forall d :: d in r.dependencias <==> d in deps && d.activo
    ensures r.dependencias == FindAllDependencias(deps)
    ensures r.tree == FindDependenciasTree(deps)
    ensures |r.tree| == |TreeRoots(deps)|
    ensures forall i :: 0 <= i < |r.tree| ==>
      r.tree[i].dep == TreeRoots(deps)[i] && LoadedChildren(r.tree[i].hijos, deps, r.tree[i].dep)
  {
    Structure(FindAllTipos(tipos), FindAllDependencias(deps), FindDependenciasTree(deps))
  }

  // ---- Counts ----

  /** The number of rows on a level. */
  function CountNivel(ds: seq<Dependencia>, nivel: int): nat
  {
    if ds == [] then 0
    else CountNivel(ds[..|ds| - 1], nivel) + (if ds[|ds| - 1].nivel == nivel then 1 else 0)
  }

  /** The type ids of the rows, in row order. */
  function TipoIds(ds: seq<Dependencia>): (r: seq<int>)
    ensures |r| == |ds|
    ensures forall i :: 0 <= i < |ds| ==> r[i] == ds[i].idTipo
  {
    if ds == [] then [] else TipoIds(ds[..|ds| - 1]) + [ds[|ds| - 1].idTipo]
  }

  /** The number of rows of a type. */
  function CountTipo(ds: seq<Dependencia>, tipo: int): nat
  {
    if ds == [] then 0
    else CountTipo(ds[..|ds| - 1], tipo) + (if ds[|ds| - 1].idTipo == tipo then 1 else 0)
  }

  /** A type is counted at least once exactly when some row has it. */
  lemma {:induction false} CountTipoPositive(ds: seq<Dependencia>, tipo: int)
    ensures CountTipo(ds, tipo) > 0 <==> tipo in TipoIds(ds)
  {
    if ds != [] {
      var init := ds[..|ds| - 1];
      CountTipoPositive(init, tipo);
      assert TipoIds(ds) == TipoIds(init) + [ds[|ds| - 1].idTipo];
    }
  }

  datatype LevelCount = LevelCount(nivel: int, count: nat)

  datatype TypeCount = TypeCount(tipoId: int, tipoNombre: string, count: nat)

  datatype DependenciasCount = DependenciasCount(total: nat, byLevel: seq<LevelCount>, byType: seq<TypeCount>)

  /** The entry of one type: its placeholder name `Tipo <id>` and its count. */
  function TypeRow(ds: seq<Dependencia>, tipo: int): TypeCount
  {
    TypeEntry(tipo, CountTipo(ds, tipo))
  }

  function TypeEntry(tipo: int, count: nat): TypeCount
  {
    TypeCount(tipo, "Tipo " + IntToString(tipo), count)
  }

  /** The types in order of first appearance (the insertion order of the
      `Map`), each with its count. */
  function ByType(ds: seq<Dependencia>): (r: seq<TypeCount>)
  {
    TypeRows(ds, Dedup(TipoIds(ds)))
  }

  /** The entries of the given types, in order. */
  function TypeRows(ds: seq<Dependencia>, tipos: seq<int>): seq<TypeCount>
  {
    Map(tipos, t => TypeRow(ds, t))
  }

  /** The grouping builds the `tipoMap` one row at a time: a type is
      inserted with count 0 the first time it is seen, then incremented. */
  method GroupByTipo(ds: seq<Dependencia>) returns (r: seq<TypeCount>)
    ensures r == ByType(ds)
  {
    var tipos, counts := TallyTipos(ds);
    r := [];
    for k := 0 to |tipos|
      invariant r == TypeRows(ds, tipos[..k])
    {
      TalliedEntry(ds, tipos, counts, k);
      MapSnoc(tipos, k, t => TypeRow(ds, t));
      r := r + [TypeEntry(tipos[k], counts[tipos[k]])];
    }
    assert tipos[..|tipos|] == tipos;
  }

  /** Each tallied type has a count, and its entry is the type's row. */
  lemma TalliedEntry(ds: seq<Dependencia>, tipos: seq<int>, counts: map<int, nat>, k: nat)
    requires Tallied(ds, tipos, counts)
    requires k < |tipos|
    ensures tipos[k] in counts
    ensures TypeEntry(tipos[k], counts[tipos[k]]) == TypeRow(ds, tipos[k])
  {
    assert tipos[k] in tipos;
  }

  /** The tally loop: the types in order of first appearance and the count
      of each. */
  method TallyTipos(ds: seq<Dependencia>) returns (tipos: seq<int>, counts: map<int, nat>)
    ensures Tallied(ds, tipos, counts)
  {
    tipos := [];
    counts := map[];
    for i := 0 to |ds|
      invariant Tallied(ds[..i], tipos, counts)
    {
      var d := ds[i];
      ghost var tipos0, counts0 := tipos, counts;
      if d.idTipo !in counts {
        counts := counts[d.idTipo := 0];
        tipos := tipos + [d.idTipo];
      }
      ghost var counts1 := counts;
      counts := counts[d.idTipo := counts[d.idTipo] + 1];
      TallyStep(ds[..i], d, tipos0, counts0, tipos, counts1, counts);
      assert ds[..i + 1] == ds[..i] + [d];
    }
    assert ds[..|ds|] == ds;
  }

  /** The `tipoMap` after some rows: its keys in insertion order are the
      distinct types, and each maps to its count. */
  ghost predicate Tallied(ds: seq<Dependencia>, tipos: seq<int>, counts: map<int, nat>)
  {
    && tipos == Dedup(TipoIds(ds))
    && (forall t :: t in counts <==> t in tipos)
    && (forall t :: t in counts ==> counts[t] == CountTipo(ds, t))
  }

  /** One more row: its type is appended when new, and its count goes up by
      one (from 0 when new). */
  lemma TallyStep(ds: seq<Dependencia>, d: Dependencia, tipos: seq<int>, counts: map<int, nat>,
                  tipos2: seq<int>, counts1: map<int, nat>, counts2: map<int, nat>)
    requires Tallied(ds, tipos, counts)
    requires tipos2 == if d.idTipo in counts then tipos else tipos + [d.idTipo]
    requires counts1 == if d.idTipo in counts then counts else counts[d.idTipo := 0]
    requires counts2 == counts1[d.idTipo := counts1[d.idTipo] + 1]
    ensures Tallied(ds + [d], tipos2, counts2)
  {
    var t := d.idTipo;
    TallyMembership(ds, tipos, counts, t);
    CountTipoPositive(ds, t);
    assert t !in counts ==> CountTipo(ds, t) == 0;
    DedupStep(ds, d);
    assert tipos2 == Dedup(TipoIds(ds + [d]));
    TallyKeys(tipos, counts, t, tipos2, counts1, counts2);
    TallyCounts(ds, d, counts, counts1, counts2);
    assert forall u :: u in counts2 <==> u in tipos2;
    assert forall u :: u in counts2 ==> counts2[u] == CountTipo(ds + [d], u);
  }

  /** A type has a count exactly when some row has it. */
  lemma TallyMembership(ds: seq<Dependencia>, tipos: seq<int>, counts: map<int, nat>, t: int)
    requires tipos == Dedup(TipoIds(ds))
    requires forall u :: u in counts <==> u in tipos
    ensures t in counts <==> t in TipoIds(ds)
  {
    assert t in counts <==> t in tipos;
  }

  lemma TallyKeys(tipos: seq<int>, counts: map<int, nat>, t: int,
                  tipos2: seq<int>, counts1: map<int, nat>, counts2: map<int, nat>)
    requires forall u :: u in counts <==> u in tipos
    requires tipos2 == if t in counts then tipos else tipos + [t]
    requires counts1 == if t in counts then counts else counts[t := 0]
    requires counts2 == counts1[t := counts1[t] + 1]
    ensures forall u :: u in counts2 <==> u in tipos2
  {
    forall u ensures u in counts2 <==> u in tipos2 {
      if u != t {
        assert u in counts2 <==> u in counts;
        assert u in tipos2 <==> u in tipos;
      }
    }
  }

  lemma TallyCounts(ds: seq<Dependencia>, d: Dependencia, counts: map<int, nat>,
                    counts1: map<int, nat>, counts2: map<int, nat>)
    requires forall u :: u in counts ==> counts[u] == CountTipo(ds, u)
    requires d.idTipo !in counts ==> CountTipo(ds, d.idTipo) == 0
    requires counts1 == if d.idTipo in counts then counts else counts[d.idTipo := 0]
    requires counts2 == counts1[d.idTipo := counts1[d.idTipo] + 1]
    ensures forall u :: u in counts2 ==> counts2[u] == CountTipo(ds + [d], u)
  {
    CountStep(ds, d);
    forall u | u in counts2
      ensures counts2[u] == CountTipo(ds + [d], u)
    {
      if u != d.idTipo {
        assert counts2[u] == counts[u];
      }
    }
  }

  lemma DedupStep(ds: seq<Dependencia>, d: Dependencia)
    ensures var s := TipoIds(ds);
      Dedup(TipoIds(ds + [d])) == if d.idTipo in s then Dedup(s) else Dedup(s) + [d.idTipo]
  {
    var all := ds + [d];
    assert all[..|ds|] == ds;
    var s := TipoIds(ds);
    assert TipoIds(all) == s + [d.idTipo];
    DedupSnoc(s, d.idTipo);
  }

  lemma CountStep(ds: seq<Dependencia>, d: Dependencia)
    ensures forall t :: CountTipo(ds + [d], t) == CountTipo(ds, t) + (if d.idTipo == t then 1 else 0)
  {
    var all := ds + [d];
    assert all[..|ds|] == ds;
  }

  /** `getDependenciasCount` over the active rows. */
  method GetDependenciasCount(deps: seq<Dependencia>) returns (c: DependenciasCount)
    ensures var all := FindAllDependencias(deps);
      c == DependenciasCount(|all|,
        [LevelCount(1, CountNivel(all, 1)), LevelCount(2, CountNivel(all, 2)), LevelCount(3, CountNivel(all, 3))],
        ByType(all))
  {
    var all := FindAllDependencias(deps);
    var byType := GroupByTipo(all);
    c := DependenciasCount(|all|,
      [LevelCount(1, CountNivel(all, 1)), LevelCount(2, CountNivel(all, 2)), LevelCount(3, CountNivel(all, 3))],
      byType);
  }

  /** The three level counts never exceed the total, and add up to it when
      every row is on level 1, 2 or 3. */
  lemma {:induction false} LevelCountsBounded(ds: seq<Dependencia>)
    ensures CountNivel(ds, 1) + CountNivel(ds, 2) + CountNivel(ds, 3) <= |ds|
    ensures (forall d :: d in ds ==> 1 <= d.nivel <= 3) ==>
      CountNivel(ds, 1) + CountNivel(ds, 2) + CountNivel(ds, 3) == |ds|
  {
    if ds != [] {
      var init := ds[..|ds| - 1];
      LevelCountsBounded(init);
      assert forall d :: d in init ==> d in ds;
    }
  }

  function SumTypeCounts(rows: seq<TypeCount>): nat
  {
    if rows == [] then 0 else SumTypeCounts(rows[..|rows| - 1]) + rows[|rows| - 1].count
  }

  /** The sum of the counts of the types `xs` over `ds`. */
  function SumCounts(xs: seq<int>, ds: seq<Dependencia>): nat
  {
    if xs == [] then 0 else SumCounts(xs[..|xs| - 1], ds) + CountTipo(ds, xs[|xs| - 1])
  }

  /** One more row adds one to the sum exactly when its type is listed. */
  lemma {:induction false} SumCountsStep(xs: seq<int>, ds: seq<Dependencia>, d: Dependencia)
    requires NoDup(xs)
    ensures SumCounts(xs, ds + [d]) == SumCounts(xs, ds) + (if d.idTipo in xs then 1 else 0)
  {
    assert (ds + [d])[..|ds + [d]| - 1] == ds;
    if xs != [] {
      var init := xs[..|xs| - 1];
      assert NoDup(init);
      SumCountsStep(init, ds, d);
      assert d.idTipo in xs <==> d.idTipo in init || d.idTipo == xs[|xs| - 1];
      assert xs[|xs| - 1] !in init by {
        forall j | 0 <= j < |init| ensures init[j] != xs[|xs| - 1] {
          assert xs[j] != xs[|xs| - 1];
        }
      }
    }
  }

  /** Every row is counted under exactly one type. */
  lemma {:induction false} TypeCountsCoverRows(ds: seq<Dependencia>)
    ensures SumCounts(Dedup(TipoIds(ds)), ds) == |ds|
  {
    if ds != [] {
      var init := ds[..|ds| - 1];
      var d := ds[|ds| - 1];
      assert ds == init + [d];
      TypeCountsCoverRows(init);
      var xs := Dedup(TipoIds(init));
      assert TipoIds(ds) == TipoIds(init) + [d.idTipo];
      SumCountsStep(xs, init, d);
      if d.idTipo !in xs {
        CountTipoPositive(init, d.idTipo);
        assert Dedup(TipoIds(ds)) == xs + [d.idTipo];
        assert (xs + [d.idTipo])[..|xs|] == xs;
      }
    }
  }

  lemma {:induction false} SumTypeRows(xs: seq<int>, ds: seq<Dependencia>)
    ensures SumTypeCounts(Map(xs, t => TypeRow(ds, t))) == SumCounts(xs, ds)
  {
    if xs != [] {
      var init := xs[..|xs| - 1];
      SumTypeRows(init, ds);
      assert Map(xs, t => TypeRow(ds, t))[..|xs| - 1] == Map(init, t => TypeRow(ds, t));
    }
  }

  /** The counts by type add up to the number of rows. */
  lemma ByTypeSumsToRows(ds: seq<Dependencia>)
    ensures SumTypeCounts(ByType(ds)) == |ds|
  {
    TypeCountsCoverRows(ds);
    SumTypeRows(Dedup(TipoIds(ds)), ds);
  }

  /** Each type appears once, with its own count, which is at least one. */
  lemma ByTypeEntries(ds: seq<Dependencia>)
    ensures forall i, j :: 0 <= i < j < |ByType(ds)| ==> ByType(ds)[i].tipoId != ByType(ds)[j].tipoId
    ensures forall i :: 0 <= i < |ByType(ds)| ==>
      ByType(ds)[i] == TypeRow(ds, ByType(ds)[i].tipoId) && ByType(ds)[i].count > 0
  {
    var xs := Dedup(TipoIds(ds));
    var bt := ByType(ds);
    forall i | 0 <= i < |bt| ensures bt[i] == TypeRow(ds, bt[i].tipoId) && bt[i].count > 0 {
      assert bt[i] == TypeRow(ds, xs[i]);
      CountTipoPositive(ds, xs[i]);
    }
  }

  /** Every row's type has an entry. */
  lemma ByTypeCoversRows(ds: seq<Dependencia>)
    ensures forall d :: d in ds ==> exists i :: 0 <= i < |ByType(ds)| && ByType(ds)[i].tipoId == d.idTipo
  {
    var xs := Dedup(TipoIds(ds));
    var bt := ByType(ds);
    forall d | d in ds ensures exists i :: 0 <= i < |bt| && bt[i].tipoId == d.idTipo {
      var k :| 0 <= k < |ds| && ds[k] == d;
      assert TipoIds(ds)[k] == d.idTipo;
      assert d.idTipo in xs;
      var i :| 0 <= i < |xs| && xs[i] == d.idTipo;
      assert bt[i] == TypeRow(ds, xs[i]);
    }
  }

  /** The counts of `getDependenciasCount` are consistent with its total. */
  lemma CountsAgreeWithTotal(deps: seq<Dependencia>)
    ensures var all := FindAllDependencias(deps);
      SumTypeCounts(ByType(all)) == |all|
      && CountNivel(all, 1) + CountNivel(all, 2) + CountNivel(all, 3) <= |all|
  {
    var all := FindAllDependencias(deps);
    ByTypeSumsToRows(all);
    LevelCountsBounded(all);
  }
}
