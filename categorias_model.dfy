/** `src/models/categoriasModel.js`: categories with their subcategories, created,
    reconciled and soft-deleted inside all-or-nothing transactions.

    A transaction here works on local copies of the tables and writes them back to
    the database only when it commits; a thrown error returns before that, which is
    the rollback. */
module CategoriasModel {
  import opened Wrappers
  import opened Db
  import opened JsArrays

  /** A row of `SELECT * FROM categorias`. */
  datatype CategoriaFila = CategoriaFila(id: nat, nombre: string)

  /** A row of `SELECT * FROM subcategorias`. */
  datatype SubcategoriaFila = SubcategoriaFila(id: nat, nombre: string, categoriaId: nat)

  const CategoriaNoExiste := DbError(NoCode, "La categoría que intentas actualizar no existe.")

  /** The error thrown when an update would drop a subcategory that is in use. */
  function SubcategoriaEnUso(nombre: string): (e: DbError)
    ensures e.code == SqliteConstraintForeignKey
  {
    DbError(SqliteConstraintForeignKey,
      "No se puede eliminar la subcategoría \"" + nombre + "\" porque está en uso.")
  }

  // ---------------------------------------------------------------------------
  // Table predicates and the statements the transactions run
  // ---------------------------------------------------------------------------

  predicate CategoriaViva(cats: map<nat, Categoria>, id: nat) {
    id in cats && !cats[id].isDeleted
  }

  /** Some row other than `except` already has this name (the UNIQUE constraint sees
      soft-deleted rows too). */
  predicate NombreOcupado(cats: map<nat, Categoria>, nombre: string, except: Option<nat>) {
    exists k :: k in cats && Some(k) != except && cats[k].nombre == nombre
  }

  /** The ids of the live subcategories of category `c`. */
  function LiveSubcatIds(subs: map<nat, Subcategoria>, c: nat): set<nat> {
    set k | k in subs && subs[k].categoriaId == c && !subs[k].isDeleted
  }

  /** The names of the live subcategories of category `c`. */
  function LiveSubcatNames(subs: map<nat, Subcategoria>, c: nat): set<string> {
    set k | k in subs && subs[k].categoriaId == c && !subs[k].isDeleted :: subs[k].nombre
  }

  /** Some live cuadro points at subcategory `sid`. */
  predicate InUse(cuadros: map<nat, Cuadro>, sid: nat) {
    exists k :: k in cuadros && cuadros[k].subcategoriaId == sid && !cuadros[k].isDeleted
  }

  /** `INSERT INTO subcategorias (nombre, categoria_id) VALUES (?, ?)`, once per name,
      the i-th insert receiving id `next + i`. */
  function InsertSubcategorias(subs: map<nat, Subcategoria>, next: nat, names: seq<string>, c: nat)
    : (r: map<nat, Subcategoria>)
    ensures forall k :: k in r <==> k in subs || next <= k < next + |names|
    ensures forall k :: k in subs && k < next ==> r[k] == subs[k]
    ensures forall i :: 0 <= i < |names| ==> r[next + i] == Subcategoria(names[i], c, false)
  {
    if names == [] then subs
    else
      var last := |names| - 1;
      InsertSubcategorias(subs, next, names[..last], c)[next + last := Subcategoria(names[last], c, false)]
  }

  /** Every row after the inserts is an old row, unchanged, or a new live row of `c`. */
  lemma InsertedRows(subs: map<nat, Subcategoria>, next: nat, names: seq<string>, c: nat)
    requires forall k :: k in subs ==> k < next
    ensures forall k :: k in InsertSubcategorias(subs, next, names, c) ==>
      || (k in subs && InsertSubcategorias(subs, next, names, c)[k] == subs[k])
      || (next <= k < next + |names| && InsertSubcategorias(subs, next, names, c)[k].categoriaId == c
          && !InsertSubcategorias(subs, next, names, c)[k].isDeleted)
  {
    var r := InsertSubcategorias(subs, next, names, c);
    forall k | k in r && k !in subs ensures next <= k < next + |names| && r[k].categoriaId == c {
      assert r[next + (k - next)] == Subcategoria(names[k - next], c, false);
    }
  }

  /** `UPDATE subcategorias SET is_deleted = 1 WHERE id = ?` for each id of `ids`. */
  function MarkDeleted(subs: map<nat, Subcategoria>, ids: seq<nat>): (r: map<nat, Subcategoria>)
  {
    map k | k in subs :: if k in ids then subs[k].(isDeleted := true) else subs[k]
  }

  /** `SELECT id, nombre FROM subcategorias WHERE categoria_id = ? AND is_deleted = 0`,
      in rowid order. */
  function ExistingSubcats(subs: map<nat, Subcategoria>, c: nat, hi: nat): seq<nat> {
    IdsAsc(LiveSubcatIds(subs, c), hi)
  }

  /** `subcatsToDelete`: the existing subcategories whose name is not in the new list
      (names compared exactly, as JavaScript's `Set.has` does). */
  function ToDelete(subs: map<nat, Subcategoria>, c: nat, hi: nat, names: seq<string>): (r: seq<nat>)
    ensures forall k :: k in r ==> k < hi && k in LiveSubcatIds(subs, c)
  {
    var newNames := set n | n in names;
    Filter(ExistingSubcats(subs, c, hi), k => k in subs && subs[k].nombre !in newNames)
  }

  /** `subcatsToDelete` holds exactly the live subcategories of `c` below `hi` whose name
      the new list does not have. */
  lemma ToDeleteMembers(subs: map<nat, Subcategoria>, c: nat, hi: nat, names: seq<string>, k: nat)
    ensures k in ToDelete(subs, c, hi, names) <==> k < hi && k in LiveSubcatIds(subs, c) && subs[k].nombre !in names
  {
  }

  /** `subcatsToAdd`: the entries of the new list whose name no live subcategory has,
      in list order, repeats included. */
  function ToAdd(subs: map<nat, Subcategoria>, c: nat, names: seq<string>): (r: seq<string>)
    ensures forall n :: n in r <==> n in names && n !in LiveSubcatNames(subs, c)
  {
    var existingNames := LiveSubcatNames(subs, c);
    Filter(names, n => n !in existingNames)
  }

  /** The index of the first id of `ids` that a live cuadro uses, or `|ids|` if none is. */
  function FirstInUse(cuadros: map<nat, Cuadro>, ids: seq<nat>): (r: nat)
    ensures r <= |ids|
    ensures forall t :: 0 <= t < r ==> !InUse(cuadros, ids[t])
    ensures r < |ids| ==> InUse(cuadros, ids[r])
  {
    if ids == [] then 0
    else if InUse(cuadros, ids[0]) then 0
    else 1 + FirstInUse(cuadros, ids[1..])
  }

  /** The subcategory table after a successful reconciliation of category `c`. */
  function Reconciled(subs: map<nat, Subcategoria>, c: nat, hi: nat, names: seq<string>): (r: map<nat, Subcategoria>)
    ensures subs.Keys <= r.Keys
  {
    InsertSubcategorias(MarkDeleted(subs, ToDelete(subs, c, hi, names)), hi, ToAdd(subs, c, names), c)
  }

  /** `UPDATE subcategorias SET is_deleted = 1 WHERE categoria_id = ?`. */
  function DeleteSubcatsOf(subs: map<nat, Subcategoria>, c: nat): (r: map<nat, Subcategoria>)
    ensures forall k :: k in r ==> k in subs && r[k].nombre == subs[k].nombre && r[k].categoriaId == subs[k].categoriaId
    ensures forall k :: k in r && subs[k].isDeleted ==> r[k].isDeleted
  {
    map k | k in subs :: if subs[k].categoriaId == c then subs[k].(isDeleted := true) else subs[k]
  }

  /** The guard query of `eliminarCategoria`: a live cuadro whose subcategory (deleted or
      not) belongs to category `c`. */
  predicate CategoriaEnUso(cuadros: map<nat, Cuadro>, subs: map<nat, Subcategoria>, c: nat)
    ensures CategoriaEnUso(cuadros, subs, c) <==> exists sid :: sid in subs && subs[sid].categoriaId == c && InUse(cuadros, sid)
  {
    exists k :: k in cuadros && !cuadros[k].isDeleted && cuadros[k].subcategoriaId in subs
                && subs[cuadros[k].subcategoriaId].categoriaId == c
  }

  // ---------------------------------------------------------------------------
  // Properties of the statements
  // ---------------------------------------------------------------------------

  /** The inserted rows are live rows of `c` carrying exactly the inserted names. */
  lemma {:induction false} InsertLiveNames(subs: map<nat, Subcategoria>, next: nat, names: seq<string>, c: nat, d: nat)
    requires forall k :: k in subs ==> k < next
    ensures LiveSubcatNames(InsertSubcategorias(subs, next, names, c), d)
         == LiveSubcatNames(subs, d) + (if d == c then set n | n in names else {})
  {
    var r := InsertSubcategorias(subs, next, names, c);
    forall n | n in LiveSubcatNames(r, d)
      ensures n in LiveSubcatNames(subs, d) + (if d == c then set n | n in names else {})
    {
      var k :| k in r && r[k].categoriaId == d && !r[k].isDeleted && r[k].nombre == n;
      if k < next {
        assert k in subs && r[k] == subs[k];
      } else {
        assert r[next + (k - next)] == Subcategoria(names[k - next], c, false);
      }
    }
    forall n | n in LiveSubcatNames(subs, d) ensures n in LiveSubcatNames(r, d) {
      var k :| k in subs && subs[k].categoriaId == d && !subs[k].isDeleted && subs[k].nombre == n;
      assert r[k] == subs[k];
    }
    if d == c {
      forall n | n in names ensures n in LiveSubcatNames(r, d) {
        var i :| 0 <= i < |names| && names[i] == n;
        assert r[next + i] == Subcategoria(names[i], c, false);
      }
    }
  }

  /** Live names after the soft deletes: the old live names that the new list keeps. */
  lemma MarkDeletedLiveNames(subs: map<nat, Subcategoria>, c: nat, hi: nat, names: seq<string>)
    requires forall k :: k in subs ==> k < hi
    ensures LiveSubcatNames(MarkDeleted(subs, ToDelete(subs, c, hi, names)), c)
         == LiveSubcatNames(subs, c) * (set n | n in names)
  {
    var del := ToDelete(subs, c, hi, names);
    var m := MarkDeleted(subs, del);
    forall n | n in LiveSubcatNames(m, c) ensures n in LiveSubcatNames(subs, c) && n in names {
      var k :| k in m && m[k].categoriaId == c && !m[k].isDeleted && m[k].nombre == n;
      assert k !in del && m[k] == subs[k];
      assert k in ExistingSubcats(subs, c, hi);
    }
    forall n | n in LiveSubcatNames(subs, c) && n in names ensures n in LiveSubcatNames(m, c) {
      var k :| k in subs && subs[k].categoriaId == c && !subs[k].isDeleted && subs[k].nombre == n;
      assert k !in del;
      assert m[k] == subs[k];
    }
  }

  /** After a successful update, the set of live subcategory names of the category is
      exactly the set of names in the list (compared exactly). */
  lemma ReconciledLiveNames(subs: map<nat, Subcategoria>, c: nat, hi: nat, names: seq<string>)
    requires forall k :: k in subs ==> k < hi
    ensures LiveSubcatNames(Reconciled(subs, c, hi, names), c) == set n | n in names
  {
    var m := MarkDeleted(subs, ToDelete(subs, c, hi, names));
    var add := ToAdd(subs, c, names);
    InsertLiveNames(m, hi, add, c, c);
    MarkDeletedLiveNames(subs, c, hi, names);
    assert (set n | n in add) == (set n | n in names) - LiveSubcatNames(subs, c);
  }

  /** A live subcategory whose name survives keeps its id, its row and its live status. */
  lemma ReconciledKeepsSurvivors(subs: map<nat, Subcategoria>, c: nat, hi: nat, names: seq<string>, k: nat)
    requires forall k :: k in subs ==> k < hi
    requires k in subs && subs[k].categoriaId == c && !subs[k].isDeleted && subs[k].nombre in names
    ensures k in Reconciled(subs, c, hi, names) && Reconciled(subs, c, hi, names)[k] == subs[k]
  {
    var del := ToDelete(subs, c, hi, names);
    assert k !in del;
  }

  /** A live subcategory whose name is not in the list is soft-deleted, nothing else
      about it changes. */
  lemma ReconciledDropsAbsent(subs: map<nat, Subcategoria>, c: nat, hi: nat, names: seq<string>, k: nat)
    requires forall k :: k in subs ==> k < hi
    requires k in subs && subs[k].categoriaId == c && !subs[k].isDeleted && subs[k].nombre !in names
    ensures k in Reconciled(subs, c, hi, names)
    ensures Reconciled(subs, c, hi, names)[k] == subs[k].(isDeleted := true)
  {
    var del := ToDelete(subs, c, hi, names);
    assert k in ExistingSubcats(subs, c, hi);
    assert k in del;
  }

  /** Rows of other categories are untouched, no row disappears, and every new row is a
      live row of `c`. */
  lemma ReconciledOtherCategories(subs: map<nat, Subcategoria>, c: nat, hi: nat, names: seq<string>)
    requires forall k :: k in subs ==> k < hi
    ensures forall k :: k in subs && subs[k].categoriaId != c ==> Reconciled(subs, c, hi, names)[k] == subs[k]
    ensures forall k :: k in Reconciled(subs, c, hi, names) && k !in subs ==>
              Reconciled(subs, c, hi, names)[k].categoriaId == c && !Reconciled(subs, c, hi, names)[k].isDeleted
    ensures forall k :: k in subs ==> k in Reconciled(subs, c, hi, names)
  {
    var del := ToDelete(subs, c, hi, names);
    var m := MarkDeleted(subs, del);
    var add := ToAdd(subs, c, names);
    var r := InsertSubcategorias(m, hi, add, c);
    assert m.Keys == subs.Keys;
    forall k | k in subs && subs[k].categoriaId != c ensures r[k] == subs[k] {
      if k in del {
        assert false;
      }
      assert m[k] == subs[k];
    }
    forall k | k in r && k !in subs ensures r[k].categoriaId == c && !r[k].isDeleted {
      assert r[hi + (k - hi)] == Subcategoria(add[k - hi], c, false);
    }
  }

  /** The reconciled table keeps every row id, stays below the new AUTOINCREMENT value,
      and only refers to categories that exist. */
  lemma ReconciledIntegrity(subs: map<nat, Subcategoria>, cats: map<nat, Categoria>, cuadros: map<nat, Cuadro>,
                            c: nat, hi: nat, names: seq<string>)
    requires forall k :: k in subs ==> 1 <= k < hi && subs[k].categoriaId in cats
    requires forall k :: k in cuadros ==> cuadros[k].subcategoriaId in subs
    requires c in cats && 1 <= hi
    ensures forall k :: k in subs ==> k in Reconciled(subs, c, hi, names)
    ensures IdsBelow(Reconciled(subs, c, hi, names).Keys, hi + |ToAdd(subs, c, names)|)
    ensures forall k :: k in Reconciled(subs, c, hi, names) ==> Reconciled(subs, c, hi, names)[k].categoriaId in cats
    ensures forall k :: k in cuadros ==> cuadros[k].subcategoriaId in Reconciled(subs, c, hi, names)
  {
    var m := MarkDeleted(subs, ToDelete(subs, c, hi, names));
    assert forall k :: k in m ==> k in subs && m[k].categoriaId == subs[k].categoriaId;
    InsertedRows(m, hi, ToAdd(subs, c, names), c);
  }

  /** Each new name is added once per occurrence in the list (a repeated new name twice),
      a name some live subcategory already has not at all. */
  lemma ToAddOccurrences(subs: map<nat, Subcategoria>, c: nat, names: seq<string>, n: string)
    ensures multiset(ToAdd(subs, c, names))[n]
         == if n in LiveSubcatNames(subs, c) then 0 else multiset(names)[n]
  {
    var existingNames := LiveSubcatNames(subs, c);
    FilterCount(names, n => n !in existingNames, n);
  }

  /** A successful update never drops or alters a subcategory that a live cuadro uses. */
  lemma ReconciledKeepsUsed(subs: map<nat, Subcategoria>, cuadros: map<nat, Cuadro>, c: nat, hi: nat, names: seq<string>, sid: nat)
    requires forall k :: k in subs ==> k < hi
    requires FirstInUse(cuadros, ToDelete(subs, c, hi, names)) == |ToDelete(subs, c, hi, names)|
    requires sid in subs && InUse(cuadros, sid)
    ensures sid in Reconciled(subs, c, hi, names) && Reconciled(subs, c, hi, names)[sid] == subs[sid]
  {
    var del := ToDelete(subs, c, hi, names);
    if sid in del {
      assert false;
    }
  }

  /** After the cascade of `eliminarCategoria`, category `c` has no live subcategory and
      the rows of other categories are untouched. */
  lemma DeleteSubcatsOfEffect(subs: map<nat, Subcategoria>, c: nat)
    ensures LiveSubcatIds(DeleteSubcatsOf(subs, c), c) == {}
    ensures forall k :: k in subs && subs[k].categoriaId != c ==> DeleteSubcatsOf(subs, c)[k] == subs[k]
    ensures DeleteSubcatsOf(subs, c).Keys == subs.Keys
  {
  }

  // ---------------------------------------------------------------------------
  // Transactions
  // ---------------------------------------------------------------------------

  /** The insert loop of both transactions: one `INSERT INTO subcategorias` per name,
      on the transaction's copy of the table. */
  method InsertarSubcategorias(subs: map<nat, Subcategoria>, next: nat, names: seq<string>, c: nat)
    returns (subs': map<nat, Subcategoria>, next': nat)
    ensures subs' == InsertSubcategorias(subs, next, names, c)
    ensures next' == next + |names|
  {
    subs', next' := subs, next;
    for i := 0 to |names|
      invariant next' == next + i
      invariant subs' == InsertSubcategorias(subs, next, names[..i], c)
    {
      assert names[..i + 1][..i] == names[..i];
      subs' := subs'[next' := Subcategoria(names[i], c, false)];
      next' := next' + 1;
    }
    assert names[..|names|] == names;
  }

  /** The soft-delete loop of the update: for each id in turn, refuse (with that id) if a
      live cuadro uses it, else `UPDATE subcategorias SET is_deleted = 1 WHERE id = ?`. */
  method BorrarSubcategorias(cuadros: map<nat, Cuadro>, subs: map<nat, Subcategoria>, ids: seq<nat>)
    returns (r: Result<map<nat, Subcategoria>, nat>)
    ensures FirstInUse(cuadros, ids) < |ids| ==> r == Failure(ids[FirstInUse(cuadros, ids)])
    ensures FirstInUse(cuadros, ids) == |ids| ==> r == Success(MarkDeleted(subs, ids))
  {
    var cur := subs;
    for j := 0 to |ids|
      invariant cur == MarkDeleted(subs, ids[..j])
      invariant forall t :: 0 <= t < j ==> !InUse(cuadros, ids[t])
    {
      var sid := ids[j];
      if InUse(cuadros, sid) {
        assert FirstInUse(cuadros, ids) == j by { FirstInUseAt(cuadros, ids, j); }
        return Failure(sid);
      }
      assert ids[..j + 1] == ids[..j] + [sid];
      if sid in cur {
        cur := cur[sid := cur[sid].(isDeleted := true)];
      }
    }
    assert ids[..|ids|] == ids;
    FirstInUseAt(cuadros, ids, |ids|);
    r := Success(cur);
  }

  /** `FirstInUse` is the first index in use. */
  lemma {:induction false} FirstInUseAt(cuadros: map<nat, Cuadro>, ids: seq<nat>, j: nat)
    requires j <= |ids|
    requires forall t :: 0 <= t < j ==> !InUse(cuadros, ids[t])
    requires j < |ids| ==> InUse(cuadros, ids[j])
    ensures FirstInUse(cuadros, ids) == j
  {
    if j > 0 {
      FirstInUseAt(cuadros, ids[1..], j - 1);
    }
  }

  /** `crearCategoriaConSubcategorias`: inserts the category, then one subcategory row per
      list entry (repeats included), all in one transaction; returns the new id. */
  method CrearCategoriaConSubcategorias(db: Database, nombre: string, subcategorias: seq<string>)
    returns (r: Result<nat, DbError>)
    requires db.Valid()
    modifies db
    ensures db.Valid()
    ensures r.Failure? <==> NombreOcupado(old(db.categorias), nombre, None)
    ensures r.Failure? ==> r.error == UniqueCategoriaNombre && unchanged(db)
    ensures r.Success? ==>
      && r.value == old(db.nextCategoriaId)
      && db.categorias == old(db.categorias)[r.value := Categoria(nombre, false)]
      && db.nextCategoriaId == r.value + 1
      && db.subcategorias == InsertSubcategorias(old(db.subcategorias), old(db.nextSubcategoriaId), subcategorias, r.value)
      && db.nextSubcategoriaId == old(db.nextSubcategoriaId) + |subcategorias|
      && db.usuarios == old(db.usuarios) && db.nextUsuarioId == old(db.nextUsuarioId)
      && db.cuadros == old(db.cuadros) && db.nextCuadroId == old(db.nextCuadroId)
    ensures r.Success? ==> LiveSubcatNames(db.subcategorias, r.value) == set n | n in subcategorias
    ensures r.Success? ==> forall k :: k in LiveSubcatIds(db.subcategorias, r.value) <==>
                             old(db.nextSubcategoriaId) <= k < db.nextSubcategoriaId
  {
    if NombreOcupado(db.categorias, nombre, None) {
      return Failure(UniqueCategoriaNombre);
    }
    // 1. INSERT INTO categorias
    var categoriaId := db.nextCategoriaId;
    var cats := db.categorias[categoriaId := Categoria(nombre, false)];
    // 2-3. one INSERT INTO subcategorias per name
    var subs, next := InsertarSubcategorias(db.subcategorias, db.nextSubcategoriaId, subcategorias, categoriaId);
    CreatedSubcats(db.subcategorias, db.categorias, db.nextSubcategoriaId, subcategorias, categoriaId);
    InsertedRows(db.subcategorias, db.nextSubcategoriaId, subcategorias, categoriaId);
    // commit
    db.categorias, db.nextCategoriaId := cats, categoriaId + 1;
    db.subcategorias, db.nextSubcategoriaId := subs, next;
    r := Success(categoriaId);
  }

  /** The subcategories of a category that did not exist before are exactly the inserted
      rows. */
  lemma CreatedSubcats(subs: map<nat, Subcategoria>, cats: map<nat, Categoria>, next: nat, names: seq<string>, c: nat)
    requires forall k :: k in subs ==> k < next && subs[k].categoriaId in cats
    requires c !in cats
    ensures LiveSubcatNames(InsertSubcategorias(subs, next, names, c), c) == set n | n in names
    ensures forall k :: k in LiveSubcatIds(InsertSubcategorias(subs, next, names, c), c) <==> next <= k < next + |names|
  {
    var r := InsertSubcategorias(subs, next, names, c);
    InsertLiveNames(subs, next, names, c, c);
    assert LiveSubcatNames(subs, c) == {};
    forall k | k in r && r[k].categoriaId == c ensures next <= k < next + |names| {
      if k < next {
        assert false;
      }
    }
    forall k | next <= k < next + |names| ensures k in LiveSubcatIds(r, c) {
      assert r[next + (k - next)] == Subcategoria(names[k - next], c, false);
    }
  }

  /** `actualizarCategoriaConSubcategorias`: renames a live category and reconciles its
      subcategories by name, in one transaction. */
  method ActualizarCategoriaConSubcategorias(db: Database, id: nat, nombre: string, subcategorias: seq<string>)
    returns (r: Outcome<DbError>)
    requires db.Valid()
    modifies db
    ensures db.Valid()
    ensures r.Fail? ==> unchanged(db)
    ensures !CategoriaViva(old(db.categorias), id) ==> r == Fail(CategoriaNoExiste)
    ensures CategoriaViva(old(db.categorias), id) && NombreOcupado(old(db.categorias), nombre, Some(id))
            ==> r == Fail(UniqueCategoriaNombre)
    ensures CategoriaViva(old(db.categorias), id) && !NombreOcupado(old(db.categorias), nombre, Some(id)) ==>
      var del := ToDelete(old(db.subcategorias), id, old(db.nextSubcategoriaId), subcategorias);
      var f := FirstInUse(old(db.cuadros), del);
      f < |del| ==>
        del[f] in old(db.subcategorias) && r == Fail(SubcategoriaEnUso(old(db.subcategorias)[del[f]].nombre))
    ensures CategoriaViva(old(db.categorias), id) && !NombreOcupado(old(db.categorias), nombre, Some(id)) ==>
      var del := ToDelete(old(db.subcategorias), id, old(db.nextSubcategoriaId), subcategorias);
      FirstInUse(old(db.cuadros), del) == |del| ==>
        && r == Pass
        && db.categorias == old(db.categorias)[id := Categoria(nombre, false)]
        && db.subcategorias == Reconciled(old(db.subcategorias), id, old(db.nextSubcategoriaId), subcategorias)
        && db.nextSubcategoriaId == old(db.nextSubcategoriaId) + |ToAdd(old(db.subcategorias), id, subcategorias)|
        && db.nextCategoriaId == old(db.nextCategoriaId)
        && db.usuarios == old(db.usuarios) && db.nextUsuarioId == old(db.nextUsuarioId)
        && db.cuadros == old(db.cuadros) && db.nextCuadroId == old(db.nextCuadroId)
  {
    // 1. the category must exist and be live
    if !CategoriaViva(db.categorias, id) {
      return Fail(CategoriaNoExiste);
    }
    // 2. UPDATE categorias SET nombre = ? WHERE id = ?
    if NombreOcupado(db.categorias, nombre, Some(id)) {
      return Fail(UniqueCategoriaNombre);
    }
    var cats := db.categorias[id := Categoria(nombre, false)];
    // 3-4. the diff by name
    var toDelete := ToDelete(db.subcategorias, id, db.nextSubcategoriaId, subcategorias);
    var toAdd := ToAdd(db.subcategorias, id, subcategorias);
    // 5. soft-delete the dropped subcategories, stopping at the first one in use
    var borrado := BorrarSubcategorias(db.cuadros, db.subcategorias, toDelete);
    if borrado.Failure? {
      assert borrado.error in toDelete;
      return Fail(SubcategoriaEnUso(db.subcategorias[borrado.error].nombre));
    }
    // 6. insert the new names
    var subs, next := InsertarSubcategorias(borrado.value, db.nextSubcategoriaId, toAdd, id);
    UpdateConsistent(db.usuarios, db.nextUsuarioId, db.categorias, db.nextCategoriaId,
                     db.subcategorias, db.nextSubcategoriaId, db.cuadros, db.nextCuadroId, id, nombre, subcategorias);
    db.CommitCategorias(cats, db.nextCategoriaId, subs, next);
    r := Pass;
  }

  /** Renaming a category to a name no other row has keeps the names unique. */
  lemma RenameKeepsUnique(cats: map<nat, Categoria>, id: nat, nombre: string)
    requires forall a, b :: a in cats && b in cats && a != b ==> cats[a].nombre != cats[b].nombre
    requires id in cats && !NombreOcupado(cats, nombre, Some(id))
    ensures var cats' := cats[id := Categoria(nombre, false)];
      forall a, b :: a in cats' && b in cats' && a != b ==> cats'[a].nombre != cats'[b].nombre
  {
    var cats' := cats[id := Categoria(nombre, false)];
    forall a, b | a in cats' && b in cats' && a != b ensures cats'[a].nombre != cats'[b].nombre {
      if a == id {
        assert cats[b].nombre != nombre;
      } else if b == id {
        assert cats[a].nombre != nombre;
      }
    }
  }

  /** A successful update keeps every integrity constraint of the schema. */
  lemma UpdateConsistent(
    us: map<nat, Usuario>, nu: nat, cats: map<nat, Categoria>, nc: nat,
    subs: map<nat, Subcategoria>, ns: nat, cuadros: map<nat, Cuadro>, ncu: nat,
    id: nat, nombre: string, names: seq<string>)
    requires Consistent(us, nu, cats, nc, subs, ns, cuadros, ncu)
    requires CategoriaViva(cats, id) && !NombreOcupado(cats, nombre, Some(id))
    ensures Consistent(us, nu, cats[id := Categoria(nombre, false)], nc,
                       Reconciled(subs, id, ns, names), ns + |ToAdd(subs, id, names)|, cuadros, ncu)
  {
    ReconciledIntegrity(subs, cats, cuadros, id, ns, names);
    RenameKeepsUnique(cats, id, nombre);
    assert cats[id := Categoria(nombre, false)].Keys == cats.Keys;
  }

  /** `eliminarCategoria`: refuses while a live cuadro uses any subcategory of the category;
      otherwise soft-deletes all its subcategories and the category, and returns whether a
      category row with that id exists (a deleted one included). */
  method EliminarCategoria(db: Database, id: nat) returns (r: Result<bool, DbError>)
    requires db.Valid()
    modifies db
    ensures db.Valid()
    ensures CategoriaEnUso(old(db.cuadros), old(db.subcategorias), id) ==>
              r == Failure(ForeignKeyFailed) && unchanged(db)
    ensures !CategoriaEnUso(old(db.cuadros), old(db.subcategorias), id) ==>
      && r == Success(id in old(db.categorias))
      && db.subcategorias == DeleteSubcatsOf(old(db.subcategorias), id)
      && db.categorias == (if id in old(db.categorias)
                           then old(db.categorias)[id := old(db.categorias)[id].(isDeleted := true)]
                           else old(db.categorias))
      && db.nextCategoriaId == old(db.nextCategoriaId) && db.nextSubcategoriaId == old(db.nextSubcategoriaId)
      && db.usuarios == old(db.usuarios) && db.nextUsuarioId == old(db.nextUsuarioId)
      && db.cuadros == old(db.cuadros) && db.nextCuadroId == old(db.nextCuadroId)
    ensures r.Success? ==> LiveSubcatIds(db.subcategorias, id) == {} && !CategoriaViva(db.categorias, id)
  {
    if CategoriaEnUso(db.cuadros, db.subcategorias, id) {
      return Failure(ForeignKeyFailed);
    }
    var subs := DeleteSubcatsOf(db.subcategorias, id);
    var found := id in db.categorias;
    var cats := if found then db.categorias[id := db.categorias[id].(isDeleted := true)] else db.categorias;
    DeleteSubcatsOfEffect(db.subcategorias, id);
    db.subcategorias, db.categorias := subs, cats;
    r := Success(found);
  }

  // ---------------------------------------------------------------------------
  // Queries
  // ---------------------------------------------------------------------------

  function LiveCategoriaIds(cats: map<nat, Categoria>): set<nat> {
    set k | k in cats && !cats[k].isDeleted
  }

  /** `obtenerCategorias`: the live categories, highest id first. */
  function ObtenerCategorias(db: Database): (r: seq<CategoriaFila>)
    reads db
    requires db.Valid()
    ensures forall i :: 0 <= i < |r| ==>
              CategoriaViva(db.categorias, r[i].id) && r[i].nombre == db.categorias[r[i].id].nombre
    ensures forall k :: CategoriaViva(db.categorias, k) ==> exists i :: 0 <= i < |r| && r[i].id == k
    ensures forall i, j :: 0 <= i < j < |r| ==> r[i].id > r[j].id
  {
    var cats := db.categorias;
    var ids := IdsDesc(LiveCategoriaIds(cats), db.nextCategoriaId);
    var r := CategoriaFilas(cats, ids);
    CategoriasCubre(cats, ids, r);
    r
  }

  /** The rows `ids` of `categorias`, in that order. */
  function CategoriaFilas(cats: map<nat, Categoria>, ids: seq<nat>): (r: seq<CategoriaFila>)
    requires forall i :: 0 <= i < |ids| ==> ids[i] in cats
    ensures |r| == |ids| && forall i :: 0 <= i < |ids| ==> r[i] == CategoriaFila(ids[i], cats[ids[i]].nombre)
  {
    seq(|ids|, i requires 0 <= i < |ids| => CategoriaFila(ids[i], cats[ids[i]].nombre))
  }

  lemma CategoriasCubre(cats: map<nat, Categoria>, ids: seq<nat>, r: seq<CategoriaFila>)
    requires forall k :: k in LiveCategoriaIds(cats) ==> k in ids
    requires |r| == |ids| && forall i :: 0 <= i < |ids| ==> r[i].id == ids[i]
    ensures forall k :: CategoriaViva(cats, k) ==> exists i :: 0 <= i < |r| && r[i].id == k
  {
    forall k | CategoriaViva(cats, k) ensures exists i :: 0 <= i < |r| && r[i].id == k {
      assert k in LiveCategoriaIds(cats);
      var i :| 0 <= i < |ids| && ids[i] == k;
      assert r[i].id == k;
    }
  }

  /** `contarCategoriasActivas`: the number of live categories, which is the length of the
      list `obtenerCategorias` returns. */
  function ContarCategoriasActivas(db: Database): (n: nat)
    reads db
    requires db.Valid()
    ensures n == |ObtenerCategorias(db)|
    ensures n == |LiveCategoriaIds(db.categorias)|
  {
    IdsDescCard(LiveCategoriaIds(db.categorias), db.nextCategoriaId);
    |LiveCategoriaIds(db.categorias)|
  }

  /** `subcategoriasPorCategoria`: the live subcategories of one category, in rowid order. */
  function SubcategoriasPorCategoria(db: Database, categoriaId: nat): (r: seq<SubcategoriaFila>)
    reads db
    requires db.Valid()
    ensures forall i :: 0 <= i < |r| ==>
              && r[i].id in LiveSubcatIds(db.subcategorias, categoriaId)
              && r[i].nombre == db.subcategorias[r[i].id].nombre
              && r[i].categoriaId == categoriaId
    ensures forall k :: k in LiveSubcatIds(db.subcategorias, categoriaId) ==>
              exists i :: 0 <= i < |r| && r[i].id == k
    ensures forall i, j :: 0 <= i < j < |r| ==> r[i].id < r[j].id
  {
    var subs := db.subcategorias;
    var ids := ExistingSubcats(subs, categoriaId, db.nextSubcategoriaId);
    var r := seq(|ids|, i requires 0 <= i < |ids| => SubcategoriaFila(ids[i], subs[ids[i]].nombre, categoriaId));
    assert forall k :: k in LiveSubcatIds(subs, categoriaId) ==> exists i :: 0 <= i < |r| && r[i].id == k by {
      forall k | k in LiveSubcatIds(subs, categoriaId) ensures exists i :: 0 <= i < |r| && r[i].id == k {
        assert k in ids;
        var i :| 0 <= i < |ids| && ids[i] == k;
        assert r[i].id == k;
      }
    }
    r
  }
}
