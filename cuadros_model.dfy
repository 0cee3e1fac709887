/** `src/models/cuadrosModel.js`: the paginated, filtered catalogue query and the row-level
    operations on `cuadros`. */
module CuadrosModel {
  import opened Wrappers
  import opened Strings
  import opened Db
  import opened JsArrays

  // ---------------------------------------------------------------------------
  // Catalogue rows and the join
  // ---------------------------------------------------------------------------

  /** A row of the catalogue query: the cuadro's columns with the names of its
      subcategory and category. */
  datatype CatalogoItem = CatalogoItem(
    id: nat, titulo: string, descripcion: Option<string>, imagen: Option<string>,
    subcategoria: string, categoria: string, creadoEn: int)

  /** The object `mostrarCatalogoPaginado` returns. */
  datatype Catalogo = Catalogo(cuadros: seq<CatalogoItem>, total: nat, totalPages: nat, currentPage: nat)

  /** The optional filters of the query string; a missing or empty value is no filter. */
  datatype Filtros = Filtros(categoria: Option<string>, subcategoria: Option<string>, search: Option<string>)

  /** One clause of the dynamic `WHERE`, with its parameter. */
  datatype Condicion = CategoriaEs(nombre: string) | SubcategoriaEs(nombre: string) | Busca(termino: string)

  /** Both joins of the query find their row (the foreign keys guarantee it). */
  predicate Joinable(cuadros: map<nat, Cuadro>, subs: map<nat, Subcategoria>, cats: map<nat, Categoria>) {
    && (forall k :: k in cuadros ==> cuadros[k].subcategoriaId in subs)
    && (forall k :: k in subs ==> subs[k].categoriaId in cats)
  }

  /** `JOIN subcategorias s ON c.subcategoria_id = s.id JOIN categorias cat ON s.categoria_id = cat.id`
      for one cuadro. Neither join looks at the deleted flag. */
  function Unir(cuadros: map<nat, Cuadro>, subs: map<nat, Subcategoria>, cats: map<nat, Categoria>, k: nat): (it: CatalogoItem)
    requires Joinable(cuadros, subs, cats) && k in cuadros
    ensures it.id == k && it.titulo == cuadros[k].titulo && it.descripcion == cuadros[k].descripcion
    ensures it.imagen == cuadros[k].imagen && it.creadoEn == cuadros[k].creadoEn
    ensures it.subcategoria == subs[cuadros[k].subcategoriaId].nombre
    ensures it.categoria == cats[subs[cuadros[k].subcategoriaId].categoriaId].nombre
  {
    var c := cuadros[k];
    var s := subs[c.subcategoriaId];
    CatalogoItem(k, c.titulo, c.descripcion, c.imagen, s.nombre, cats[s.categoriaId].nombre, c.creadoEn)
  }

  // ---------------------------------------------------------------------------
  // The dynamic WHERE
  // ---------------------------------------------------------------------------

  /** The `AND` clauses appended after `c.is_deleted = 0`, in the order the source appends
      them: category, subcategory, search. */
  function Where(f: Filtros): (conds: seq<Condicion>)
    ensures |conds| <= 3
  {
    (if Truthy(f.categoria) then [CategoriaEs(f.categoria.value)] else [])
    + (if Truthy(f.subcategoria) then [SubcategoriaEs(f.subcategoria.value)] else [])
    + (if Truthy(f.search) then [Busca(f.search.value)] else [])
  }

  /** One clause on a joined row; `LIKE '%term%'` on the title or on the description
      (a NULL description does not match). */
  predicate CumpleCondicion(it: CatalogoItem, cond: Condicion) {
    match cond
    case CategoriaEs(n) => it.categoria == n
    case SubcategoriaEs(n) => it.subcategoria == n
    case Busca(t) => LikeContains(Some(it.titulo), t) || LikeContains(it.descripcion, t)
  }

  predicate Cumple(it: CatalogoItem, conds: seq<Condicion>) {
    forall i :: 0 <= i < |conds| ==> CumpleCondicion(it, conds[i])
  }

  /** The clauses are AND-ed, and each is present exactly when its filter is truthy. */
  lemma WhereMeaning(it: CatalogoItem, f: Filtros)
    ensures Cumple(it, Where(f)) <==>
      && (Truthy(f.categoria) ==> it.categoria == f.categoria.value)
      && (Truthy(f.subcategoria) ==> it.subcategoria == f.subcategoria.value)
      && (Truthy(f.search) ==> LikeContains(Some(it.titulo), f.search.value) || LikeContains(it.descripcion, f.search.value))
  {
    var a := if Truthy(f.categoria) then [CategoriaEs(f.categoria.value)] else [];
    var b := if Truthy(f.subcategoria) then [SubcategoriaEs(f.subcategoria.value)] else [];
    var c := if Truthy(f.search) then [Busca(f.search.value)] else [];
    var w := Where(f);
    assert w == a + b + c;
    if Truthy(f.categoria) { assert w[0] == CategoriaEs(f.categoria.value); }
    if Truthy(f.subcategoria) { assert w[|a|] == SubcategoriaEs(f.subcategoria.value); }
    if Truthy(f.search) { assert w[|a| + |b|] == Busca(f.search.value); }
    if (&& (Truthy(f.categoria) ==> it.categoria == f.categoria.value)
        && (Truthy(f.subcategoria) ==> it.subcategoria == f.subcategoria.value)
        && (Truthy(f.search) ==> LikeContains(Some(it.titulo), f.search.value) || LikeContains(it.descripcion, f.search.value))) {
      forall i | 0 <= i < |w| ensures CumpleCondicion(it, w[i]) {
        if i < |a| {
          assert w[i] == a[i];
        } else if i < |a| + |b| {
          assert w[i] == b[i - |a|];
        } else {
          assert w[i] == c[i - |a| - |b|];
        }
      }
    }
  }

  /** The full `WHERE`: a live cuadro whose joined row meets every clause. */
  predicate Visible(cuadros: map<nat, Cuadro>, subs: map<nat, Subcategoria>, cats: map<nat, Categoria>,
                    conds: seq<Condicion>, k: nat)
    requires Joinable(cuadros, subs, cats)
  {
    k in cuadros && !cuadros[k].isDeleted && Cumple(Unir(cuadros, subs, cats, k), conds)
  }

  // ---------------------------------------------------------------------------
  // ORDER BY c.creado_en DESC
  // ---------------------------------------------------------------------------

  /** Non-increasing creation time along the sequence. */
  predicate NewestFirst(cuadros: map<nat, Cuadro>, s: seq<nat>)
    requires forall i :: 0 <= i < |s| ==> s[i] in cuadros
  {
    forall i, j :: 0 <= i < j < |s| ==> cuadros[s[i]].creadoEn >= cuadros[s[j]].creadoEn
  }

  /** Inserts `k` after every element at least as new as it. */
  function InsertarPorFecha(cuadros: map<nat, Cuadro>, k: nat, s: seq<nat>): (r: seq<nat>)
    requires k in cuadros && forall i :: 0 <= i < |s| ==> s[i] in cuadros
    ensures multiset(r) == multiset(s) + multiset{k}
    ensures |r| == |s| + 1
    ensures forall i :: 0 <= i < |r| ==> r[i] in cuadros
  {
    if s == [] then [k]
    else if cuadros[k].creadoEn > cuadros[s[0]].creadoEn then [k] + s
    else
      assert s == [s[0]] + s[1..];
      [s[0]] + InsertarPorFecha(cuadros, k, s[1..])
  }

  /** Inserting a row no newer than `t` into rows no newer than `t` gives rows no newer
      than `t`. */
  lemma {:induction false} InsertarCota(cuadros: map<nat, Cuadro>, k: nat, s: seq<nat>, t: int)
    requires k in cuadros && forall i :: 0 <= i < |s| ==> s[i] in cuadros
    requires cuadros[k].creadoEn <= t
    requires forall i :: 0 <= i < |s| ==> cuadros[s[i]].creadoEn <= t
    ensures forall j :: 0 <= j < |s| + 1 ==> cuadros[InsertarPorFecha(cuadros, k, s)[j]].creadoEn <= t
  {
    if s != [] && cuadros[k].creadoEn <= cuadros[s[0]].creadoEn {
      InsertarCota(cuadros, k, s[1..], t);
    }
  }

  /** Inserting into a newest-first list keeps it newest first. */
  lemma {:induction false} InsertarOrdenado(cuadros: map<nat, Cuadro>, k: nat, s: seq<nat>)
    requires k in cuadros && forall i :: 0 <= i < |s| ==> s[i] in cuadros
    requires NewestFirst(cuadros, s)
    ensures NewestFirst(cuadros, InsertarPorFecha(cuadros, k, s))
  {
    if s != [] && cuadros[k].creadoEn <= cuadros[s[0]].creadoEn {
      var t := InsertarPorFecha(cuadros, k, s[1..]);
      InsertarOrdenado(cuadros, k, s[1..]);
      InsertarCota(cuadros, k, s[1..], cuadros[s[0]].creadoEn);
      var r := [s[0]] + t;
      assert InsertarPorFecha(cuadros, k, s) == r;
      forall i, j | 0 <= i < j < |r| ensures cuadros[r[i]].creadoEn >= cuadros[r[j]].creadoEn {
        assert r[j] == t[j - 1];
        if i > 0 {
          assert r[i] == t[i - 1];
        }
      }
    }
  }

  /** The rows in `ids` ordered newest first; rows created at the same time keep their
      order in `ids` (SQLite leaves that order unspecified). */
  function OrdenarPorFecha(cuadros: map<nat, Cuadro>, ids: seq<nat>): (r: seq<nat>)
    requires forall i :: 0 <= i < |ids| ==> ids[i] in cuadros
    ensures multiset(r) == multiset(ids)
    ensures |r| == |ids|
    ensures forall i :: 0 <= i < |r| ==> r[i] in cuadros
    ensures NewestFirst(cuadros, r)
  {
    if ids == [] then []
    else
      var last := |ids| - 1;
      assert ids == ids[..last] + [ids[last]];
      var sorted := OrdenarPorFecha(cuadros, ids[..last]);
      InsertarOrdenado(cuadros, ids[last], sorted);
      InsertarPorFecha(cuadros, ids[last], sorted)
  }

  // ---------------------------------------------------------------------------
  // Page arithmetic
  // ---------------------------------------------------------------------------

  /** `Math.max(1, parseInt(pagina || '1', 10))`, for an integer or absent `pagina`. */
  function ClampPage(pagina: Option<int>): (page: nat)
    ensures page >= 1
    ensures pagina.None? ==> page == 1
    ensures pagina.Some? ==> page == if pagina.value < 1 then 1 else pagina.value
  {
    var p := pagina.GetOr(1);
    if p < 1 then 1 else p
  }

  /** `Math.max(1, parseInt(limite || '12', 10))`, for an integer or absent `limite`. */
  function ClampLimit(limite: Option<int>): (limit: nat)
    ensures limit >= 1
    ensures limite.None? ==> limit == 12
    ensures limite.Some? ==> limit == if limite.value < 1 then 1 else limite.value
  {
    var l := limite.GetOr(12);
    if l < 1 then 1 else l
  }

  /** `Math.max(1, Math.ceil(total / limit))`. */
  function TotalPages(total: nat, limit: nat): (n: nat)
    requires limit >= 1
    ensures n >= 1
    ensures n * limit >= total
    ensures total > 0 ==> (n - 1) * limit < total
    ensures total == 0 ==> n == 1
  {
    var q := (total + limit - 1) / limit;
    if q < 1 then 1 else q
  }

  /** `(page - 1) * limit`. */
  function Offset(page: nat, limit: nat): (offset: nat)
    requires page >= 1
  {
    (page - 1) * limit
  }

  /** `LIMIT limit OFFSET offset` on the ordered rows: the rows from position `offset` on,
      at most `limit` of them. */
  function Paginar<T>(rows: seq<T>, page: nat, limit: nat): (r: seq<T>)
    requires page >= 1
    ensures |r| <= limit
    ensures |r| == if Offset(page, limit) >= |rows| then 0
                   else if |rows| - Offset(page, limit) < limit then |rows| - Offset(page, limit) else limit
    ensures forall i :: 0 <= i < |r| ==> Offset(page, limit) + i < |rows| && r[i] == rows[Offset(page, limit) + i]
  {
    var offset := Offset(page, limit);
    var lo := if offset < |rows| then offset else |rows|;
    var hi := if offset + limit < |rows| then offset + limit else |rows|;
    rows[lo..hi]
  }

  // ---------------------------------------------------------------------------
  // The query
  // ---------------------------------------------------------------------------

  /** The ids matching the `WHERE`, newest first: the rows both queries range over. */
  function Seleccion(cuadros: map<nat, Cuadro>, next: nat, subs: map<nat, Subcategoria>, cats: map<nat, Categoria>,
                     conds: seq<Condicion>): (r: seq<nat>)
    requires Joinable(cuadros, subs, cats)
    ensures forall i :: 0 <= i < |r| ==> r[i] in cuadros
    ensures NewestFirst(cuadros, r)
  {
    var ids := Filter(IdsDesc(cuadros.Keys, next), k => Visible(cuadros, subs, cats, conds, k));
    assert forall i :: 0 <= i < |ids| ==> ids[i] in cuadros by {
      forall i | 0 <= i < |ids| ensures ids[i] in cuadros {
        assert ids[i] in ids;
      }
    }
    OrdenarPorFecha(cuadros, ids)
  }

  /** The selection holds every matching row below `next` exactly once. */
  lemma SeleccionExacta(cuadros: map<nat, Cuadro>, next: nat, subs: map<nat, Subcategoria>, cats: map<nat, Categoria>,
                        conds: seq<Condicion>, k: nat)
    requires Joinable(cuadros, subs, cats)
    requires forall x :: x in cuadros ==> x < next
    ensures multiset(Seleccion(cuadros, next, subs, cats, conds))[k]
            == if Visible(cuadros, subs, cats, conds, k) then 1 else 0
  {
    var p := (x: nat) => Visible(cuadros, subs, cats, conds, x);
    var all := IdsDesc(cuadros.Keys, next);
    FilterCount(all, p, k);
    if k in cuadros {
      DescOnce(all, k);
    } else {
      assert k !in all;
    }
  }

  /** A strictly descending sequence holds each of its elements once. */
  lemma {:induction false} DescOnce(s: seq<nat>, k: nat)
    requires forall i, j :: 0 <= i < j < |s| ==> s[i] > s[j]
    ensures multiset(s)[k] == if k in s then 1 else 0
  {
    if s != [] {
      assert s == [s[0]] + s[1..];
      DescOnce(s[1..], k);
      if k == s[0] {
        assert k !in s[1..];
      }
    }
  }

  /** The number of matching rows: the `COUNT(*)` query over the same `WHERE`. */
  function Contar(cuadros: map<nat, Cuadro>, subs: map<nat, Subcategoria>, cats: map<nat, Categoria>,
                  conds: seq<Condicion>): nat
    requires Joinable(cuadros, subs, cats)
  {
    |set k | k in cuadros && Visible(cuadros, subs, cats, conds, k)|
  }

  /** The selection is as long as the `COUNT(*)` result. */
  lemma SeleccionCuenta(cuadros: map<nat, Cuadro>, next: nat, subs: map<nat, Subcategoria>, cats: map<nat, Categoria>,
                        conds: seq<Condicion>)
    requires Joinable(cuadros, subs, cats)
    requires forall x :: x in cuadros ==> x < next
    ensures |Seleccion(cuadros, next, subs, cats, conds)| == Contar(cuadros, subs, cats, conds)
  {
    var sel := Seleccion(cuadros, next, subs, cats, conds);
    var vis := set k | k in cuadros && Visible(cuadros, subs, cats, conds, k);
    forall x ensures x in vis <==> x in sel {
      SeleccionExacta(cuadros, next, subs, cats, conds, x);
    }
    forall i, j | 0 <= i < j < |sel| ensures sel[i] != sel[j] {
      if sel[i] == sel[j] {
        SeleccionExacta(cuadros, next, subs, cats, conds, sel[i]);
        TwiceInMultiset(sel, i, j);
      }
    }
    DistinctCard(sel, vis);
  }

  lemma TwiceInMultiset(s: seq<nat>, i: nat, j: nat)
    requires 0 <= i < j < |s| && s[i] == s[j]
    ensures multiset(s)[s[i]] >= 2
  {
    assert s == s[..j] + [s[j]] + s[j + 1..];
    assert s[i] in multiset(s[..j]) by { assert s[..j][i] == s[i]; }
  }

  /** The rows of the data query before `LIMIT`: the joined rows matching the `WHERE`,
      newest first, each matching row once. */
  function Filas(cuadros: map<nat, Cuadro>, next: nat, subs: map<nat, Subcategoria>, cats: map<nat, Categoria>,
                 conds: seq<Condicion>): (r: seq<CatalogoItem>)
    requires Joinable(cuadros, subs, cats)
    requires forall x :: x in cuadros ==> x < next
    ensures |r| == |Seleccion(cuadros, next, subs, cats, conds)|
    ensures forall i :: 0 <= i < |r| ==>
              Seleccion(cuadros, next, subs, cats, conds)[i] in cuadros &&
              r[i] == Unir(cuadros, subs, cats, Seleccion(cuadros, next, subs, cats, conds)[i])
  {
    var sel := Seleccion(cuadros, next, subs, cats, conds);
    seq(|sel|, i requires 0 <= i < |sel| => Unir(cuadros, subs, cats, sel[i]))
  }

  /** The rows are as many as the `COUNT(*)` result. */
  lemma FilasCuenta(cuadros: map<nat, Cuadro>, next: nat, subs: map<nat, Subcategoria>, cats: map<nat, Categoria>,
                    conds: seq<Condicion>)
    requires Joinable(cuadros, subs, cats)
    requires forall x :: x in cuadros ==> x < next
    ensures |Filas(cuadros, next, subs, cats, conds)| == Contar(cuadros, subs, cats, conds)
  {
    SeleccionCuenta(cuadros, next, subs, cats, conds);
  }

  /** Each row is the join of a live cuadro that meets every clause. */
  lemma FilasVisibles(cuadros: map<nat, Cuadro>, next: nat, subs: map<nat, Subcategoria>, cats: map<nat, Categoria>,
                      conds: seq<Condicion>, i: nat)
    requires Joinable(cuadros, subs, cats)
    requires forall x :: x in cuadros ==> x < next
    requires i < |Filas(cuadros, next, subs, cats, conds)|
    ensures var it := Filas(cuadros, next, subs, cats, conds)[i];
            it.id in cuadros && it == Unir(cuadros, subs, cats, it.id) && Visible(cuadros, subs, cats, conds, it.id)
  {
    var sel := Seleccion(cuadros, next, subs, cats, conds);
    SeleccionExacta(cuadros, next, subs, cats, conds, sel[i]);
    assert sel[i] in multiset(sel);
  }

  /** The rows are newest first and no cuadro appears twice. */
  lemma FilasOrdenadas(cuadros: map<nat, Cuadro>, next: nat, subs: map<nat, Subcategoria>, cats: map<nat, Categoria>,
                       conds: seq<Condicion>, i: nat, j: nat)
    requires Joinable(cuadros, subs, cats)
    requires forall x :: x in cuadros ==> x < next
    requires i < j < |Filas(cuadros, next, subs, cats, conds)|
    ensures var r := Filas(cuadros, next, subs, cats, conds);
            r[i].creadoEn >= r[j].creadoEn && r[i].id != r[j].id
  {
    var sel := Seleccion(cuadros, next, subs, cats, conds);
    assert NewestFirst(cuadros, sel);
    if sel[i] == sel[j] {
      SeleccionExacta(cuadros, next, subs, cats, conds, sel[i]);
      TwiceInMultiset(sel, i, j);
    }
  }

  /** The integrity constraints give the joins and the id bound the query relies on. */
  lemma ValidJoinable(db: Database)
    requires db.Valid()
    ensures Joinable(db.cuadros, db.subcategorias, db.categorias)
    ensures forall x :: x in db.cuadros ==> x < db.nextCuadroId
  {
  }

  /** The rows the query pages over, for the filters `f`. */
  function FilasDe(db: Database, f: Filtros): (r: seq<CatalogoItem>)
    reads db
    requires db.Valid()
  {
    ValidJoinable(db);
    Filas(db.cuadros, db.nextCuadroId, db.subcategorias, db.categorias, Where(f))
  }

  /** `mostrarCatalogoPaginado(pagina, limite, filtros)`: the requested page of the rows,
      the number of rows, the page count and the clamped page. */
  function MostrarCatalogoPaginado(db: Database, pagina: Option<int>, limite: Option<int>, f: Filtros): (r: Catalogo)
    reads db
    requires db.Valid()
    ensures r.currentPage == ClampPage(pagina)
    ensures r.total == |FilasDe(db, f)|
    ensures r.totalPages == TotalPages(r.total, ClampLimit(limite))
    ensures r.cuadros == Paginar(FilasDe(db, f), ClampPage(pagina), ClampLimit(limite))
  {
    var rows := FilasDe(db, f);
    var page := ClampPage(pagina);
    var limit := ClampLimit(limite);
    Catalogo(Paginar(rows, page, limit), |rows|, TotalPages(|rows|, limit), page)
  }

  /** `total` is the `COUNT(*)` of the matching rows. */
  lemma TotalEsCuenta(db: Database, pagina: Option<int>, limite: Option<int>, f: Filtros)
    requires db.Valid()
    ensures MostrarCatalogoPaginado(db, pagina, limite, f).total
            == Contar(db.cuadros, db.subcategorias, db.categorias, Where(f))
  {
    ValidJoinable(db);
    FilasCuenta(db.cuadros, db.nextCuadroId, db.subcategorias, db.categorias, Where(f));
  }

  /** Every row on the page is a live cuadro meeting all the filters, the page holds at
      most `limit` rows, and it is ordered newest first. */
  lemma PaginaCorrecta(db: Database, pagina: Option<int>, limite: Option<int>, f: Filtros)
    requires db.Valid()
    ensures var r := MostrarCatalogoPaginado(db, pagina, limite, f);
      && |r.cuadros| <= ClampLimit(limite)
      && (forall i :: 0 <= i < |r.cuadros| ==>
            Visible(db.cuadros, db.subcategorias, db.categorias, Where(f), r.cuadros[i].id))
      && (forall i, j :: 0 <= i < j < |r.cuadros| ==> r.cuadros[i].creadoEn >= r.cuadros[j].creadoEn)
  {
    ValidJoinable(db);
    PaginaDeFilas(db.cuadros, db.nextCuadroId, db.subcategorias, db.categorias, Where(f),
                  ClampPage(pagina), ClampLimit(limite));
  }

  /** Any page of the rows holds matching rows, newest first. */
  lemma PaginaDeFilas(cuadros: map<nat, Cuadro>, next: nat, subs: map<nat, Subcategoria>, cats: map<nat, Categoria>,
                      conds: seq<Condicion>, p: nat, limit: nat)
    requires Joinable(cuadros, subs, cats)
    requires forall x :: x in cuadros ==> x < next
    requires p >= 1
    ensures var page := Paginar(Filas(cuadros, next, subs, cats, conds), p, limit);
      && (forall i :: 0 <= i < |page| ==> Visible(cuadros, subs, cats, conds, page[i].id))
      && (forall i, j :: 0 <= i < j < |page| ==> page[i].creadoEn >= page[j].creadoEn)
  {
    PaginaVisible(cuadros, next, subs, cats, conds, p, limit);
    PaginaOrdenada(cuadros, next, subs, cats, conds, p, limit);
  }

  lemma PaginaVisible(cuadros: map<nat, Cuadro>, next: nat, subs: map<nat, Subcategoria>, cats: map<nat, Categoria>,
                      conds: seq<Condicion>, p: nat, limit: nat)
    requires Joinable(cuadros, subs, cats)
    requires forall x :: x in cuadros ==> x < next
    requires p >= 1
    ensures var page := Paginar(Filas(cuadros, next, subs, cats, conds), p, limit);
      forall i :: 0 <= i < |page| ==> Visible(cuadros, subs, cats, conds, page[i].id)
  {
    var rows := Filas(cuadros, next, subs, cats, conds);
    var ok := (it: CatalogoItem) => Joinable(cuadros, subs, cats) && Visible(cuadros, subs, cats, conds, it.id);
    forall k | 0 <= k < |rows| ensures ok(rows[k]) {
      FilasVisibles(cuadros, next, subs, cats, conds, k);
    }
    PaginarConserva(rows, p, limit, ok);
  }

  /** A property of every row is a property of every row of any page. */
  lemma PaginarConserva<T>(rows: seq<T>, p: nat, limit: nat, ok: T -> bool)
    requires p >= 1
    requires forall k :: 0 <= k < |rows| ==> ok(rows[k])
    ensures forall i :: 0 <= i < |Paginar(rows, p, limit)| ==> ok(Paginar(rows, p, limit)[i])
  {
  }

  lemma PaginaOrdenada(cuadros: map<nat, Cuadro>, next: nat, subs: map<nat, Subcategoria>, cats: map<nat, Categoria>,
                       conds: seq<Condicion>, p: nat, limit: nat)
    requires Joinable(cuadros, subs, cats)
    requires forall x :: x in cuadros ==> x < next
    requires p >= 1
    ensures var page := Paginar(Filas(cuadros, next, subs, cats, conds), p, limit);
      forall i, j :: 0 <= i < j < |page| ==> page[i].creadoEn >= page[j].creadoEn
  {
    var rows := Filas(cuadros, next, subs, cats, conds);
    var page := Paginar(rows, p, limit);
    var offset := Offset(p, limit);
    forall i, j | 0 <= i < j < |page| ensures page[i].creadoEn >= page[j].creadoEn {
      FilasOrdenadas(cuadros, next, subs, cats, conds, offset + i, offset + j);
    }
  }

  /** The page position `i` of the ordering falls on: `Math.floor(i / limit) + 1`. */
  function PaginaDe(i: nat, limit: nat): (p: nat)
    requires limit >= 1
    ensures p >= 1 && Offset(p, limit) <= i < Offset(p, limit) + limit
  {
    var q := i / limit;
    assert Offset(q + 1, limit) == q * limit;
    q + 1
  }

  /** Every matching row is on exactly one page: the row at position `i` of the ordering
      is on page `PaginaDe(i, limit)`, which does not exceed `totalPages`. */
  lemma CadaCuadroEnSuPagina(db: Database, limite: Option<int>, f: Filtros, i: nat)
    requires db.Valid()
    requires i < |FilasDe(db, f)|
    ensures var limit := ClampLimit(limite);
            var p := PaginaDe(i, limit);
            var r := MostrarCatalogoPaginado(db, Some(p), limite, f);
            && p <= r.totalPages
            && 0 <= i - Offset(p, limit) < |r.cuadros|
            && r.cuadros[i - Offset(p, limit)] == FilasDe(db, f)[i]
  {
    var limit := ClampLimit(limite);
    var p := PaginaDe(i, limit);
    var rows := FilasDe(db, f);
    var offset := Offset(p, limit);
    PaginaExiste(p, offset, limit, i, |rows|);
    PaginarContiene(rows, p, limit, i);
    assert ClampPage(Some(p)) == p;
  }

  /** A row whose position lies in a page's window is on that page. */
  lemma PaginarContiene<T>(rows: seq<T>, p: nat, limit: nat, i: nat)
    requires p >= 1 && Offset(p, limit) <= i < Offset(p, limit) + limit && i < |rows|
    ensures i - Offset(p, limit) < |Paginar(rows, p, limit)|
    ensures Paginar(rows, p, limit)[i - Offset(p, limit)] == rows[i]
  {
    var offset := Offset(p, limit);
    assert Paginar(rows, p, limit)[i - offset] == rows[offset + (i - offset)];
  }

  /** The page holding an existing row is a page that exists. */
  lemma PaginaExiste(p: nat, offset: nat, limit: nat, i: nat, total: nat)
    requires p >= 1 && limit >= 1 && offset == Offset(p, limit) && offset <= i < total
    ensures p <= TotalPages(total, limit)
  {
    var n := TotalPages(total, limit);
    if n < p {
      MulMono(n, p - 1, limit);
    }
  }

  lemma MulMono(a: nat, b: nat, c: nat)
    requires a <= b
    ensures a * c <= b * c
  {
  }

  /** Without filters, `total` is the number of live cuadros. */
  lemma SinFiltrosCuentaActivos(db: Database, pagina: Option<int>, limite: Option<int>)
    requires db.Valid()
    ensures MostrarCatalogoPaginado(db, pagina, limite, Filtros(None, None, None)).total == ContarCuadrosActivos(db)
  {
    TotalEsCuenta(db, pagina, limite, Filtros(None, None, None));
    assert Where(Filtros(None, None, None)) == [];
    ValidJoinable(db);
    ContarSinCondiciones(db.cuadros, db.subcategorias, db.categorias);
  }

  /** With no clause besides `c.is_deleted = 0`, the matching rows are the live rows. */
  lemma ContarSinCondiciones(cuadros: map<nat, Cuadro>, subs: map<nat, Subcategoria>, cats: map<nat, Categoria>)
    requires Joinable(cuadros, subs, cats)
    ensures Contar(cuadros, subs, cats, []) == |LiveCuadroIds(cuadros)|
  {
    assert (set k | k in cuadros && Visible(cuadros, subs, cats, [], k)) == LiveCuadroIds(cuadros);
  }

  // ---------------------------------------------------------------------------
  // Row-level operations
  // ---------------------------------------------------------------------------

  function LiveCuadroIds(cuadros: map<nat, Cuadro>): set<nat> {
    set k | k in cuadros && !cuadros[k].isDeleted
  }

  /** `obtenerCuadro`: the row with that id if it is live, else nothing. */
  function ObtenerCuadro(db: Database, id: nat): (r: Option<Cuadro>)
    reads db
    ensures r.Some? <==> id in LiveCuadroIds(db.cuadros)
    ensures r.Some? ==> r.value == db.cuadros[id] && !r.value.isDeleted
  {
    if id in db.cuadros && !db.cuadros[id].isDeleted then Some(db.cuadros[id]) else None
  }

  /** The live ids are some of the table's ids, and there are none only when every row
      is deleted. */
  lemma LiveCuadroIdsCard(cuadros: map<nat, Cuadro>)
    ensures |LiveCuadroIds(cuadros)| <= |cuadros|
    ensures |LiveCuadroIds(cuadros)| == 0 <==> forall k :: k in cuadros ==> cuadros[k].isDeleted
  {
    SubsetCard(LiveCuadroIds(cuadros), cuadros.Keys);
    if exists k :: k in cuadros && !cuadros[k].isDeleted {
      var k :| k in cuadros && !cuadros[k].isDeleted;
      assert k in LiveCuadroIds(cuadros);
    }
  }

  lemma {:induction false} SubsetCard(a: set<nat>, b: set<nat>)
    requires a <= b
    ensures |a| <= |b|
    decreases a
  {
    if a != {} {
      var x :| x in a;
      SubsetCard(a - {x}, b - {x});
    }
  }

  /** `contarCuadrosActivos`: the number of live rows; zero exactly when every row is
      deleted, and never more than the rows the table holds. */
  function ContarCuadrosActivos(db: Database): (n: nat)
    reads db
    ensures n <= |db.cuadros|
    ensures n == 0 <==> forall k :: k in db.cuadros ==> db.cuadros[k].isDeleted
  {
    LiveCuadroIdsCard(db.cuadros);

    |LiveCuadroIds(db.cuadros)|
  }

  /** `eliminarCuadro`: sets the deleted flag with no `is_deleted` filter, so it reports
      true for any existing row, an already-deleted one included. */
  method EliminarCuadro(db: Database, id: nat) returns (r: bool)
    requires db.Valid()
    modifies db
    ensures db.Valid()
    ensures r <==> id in old(db.cuadros)
    ensures db.cuadros == if r then old(db.cuadros)[id := old(db.cuadros)[id].(isDeleted := true)] else old(db.cuadros)
    ensures db.usuarios == old(db.usuarios) && db.categorias == old(db.categorias)
    ensures db.subcategorias == old(db.subcategorias)
    ensures db.nextUsuarioId == old(db.nextUsuarioId) && db.nextCategoriaId == old(db.nextCategoriaId)
    ensures db.nextSubcategoriaId == old(db.nextSubcategoriaId) && db.nextCuadroId == old(db.nextCuadroId)
    ensures ObtenerCuadro(db, id).None?
    ensures LiveCuadroIds(db.cuadros) == LiveCuadroIds(old(db.cuadros)) - {id}
  {
    r := id in db.cuadros;
    if r {
      db.cuadros := db.cuadros[id := db.cuadros[id].(isDeleted := true)];
    }
  }

  /** `actualizarCuadro`: `UPDATE ... WHERE id = ? AND is_deleted = 0`. A missing or deleted
      row is left alone and reported false. On a live row, a missing title (`undefined`
      binds as NULL) breaks `titulo TEXT NOT NULL` and a new subcategory that does not
      exist breaks the foreign key; either makes the statement throw, changing nothing,
      and the NOT NULL check comes first. */
  method ActualizarCuadro(db: Database, id: nat, titulo: Option<string>, descripcion: Option<string>,
                          imagen: Option<string>, subcategoriaId: nat)
    returns (r: Result<bool, DbError>)
    requires db.Valid()
    modifies db
    ensures db.Valid()
    ensures id !in LiveCuadroIds(old(db.cuadros)) ==> r == Success(false) && unchanged(db)
    ensures id in LiveCuadroIds(old(db.cuadros)) && titulo.None? ==>
              r == Failure(NotNullCuadroTitulo) && unchanged(db)
    ensures id in LiveCuadroIds(old(db.cuadros)) && titulo.Some? && subcategoriaId !in old(db.subcategorias) ==>
              r == Failure(ForeignKeyFailed) && unchanged(db)
    ensures id in LiveCuadroIds(old(db.cuadros)) && titulo.Some? && subcategoriaId in old(db.subcategorias) ==>
              && r == Success(true)
              && db.cuadros == old(db.cuadros)[id := old(db.cuadros)[id].(titulo := titulo.value,
                   descripcion := descripcion, imagen := imagen, subcategoriaId := subcategoriaId)]
    ensures r.Success? && r.value ==> titulo.Some? && ObtenerCuadro(db, id) == Some(Cuadro(titulo.value, descripcion, imagen,
              subcategoriaId, old(db.cuadros)[id].creadoEn, false))
    ensures db.usuarios == old(db.usuarios) && db.categorias == old(db.categorias)
    ensures db.subcategorias == old(db.subcategorias)
    ensures db.nextUsuarioId == old(db.nextUsuarioId) && db.nextCategoriaId == old(db.nextCategoriaId)
    ensures db.nextSubcategoriaId == old(db.nextSubcategoriaId) && db.nextCuadroId == old(db.nextCuadroId)
  {
    if !(id in db.cuadros && !db.cuadros[id].isDeleted) {
      return Success(false);
    }
    if titulo.None? {
      return Failure(NotNullCuadroTitulo);
    }
    if subcategoriaId !in db.subcategorias {
      return Failure(ForeignKeyFailed);
    }
    db.cuadros := db.cuadros[id := db.cuadros[id].(titulo := titulo.value, descripcion := descripcion,
                                                    imagen := imagen, subcategoriaId := subcategoriaId)];
    r := Success(true);
  }
}
