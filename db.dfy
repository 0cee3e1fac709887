/** The SQLite database of the site (`src/config/db.js`): four tables with an
    AUTOINCREMENT id, a soft-delete flag and the UNIQUE / FOREIGN KEY constraints the
    schema declares. Each table is a map from row id to row, with the next id the
    AUTOINCREMENT sequence will hand out. */
module Db {
  import opened Wrappers

  /** A row of `usuarios`; `password` holds the stored hash. */
  datatype Usuario = Usuario(
    nombre: string, password: string, rol: string, estado: string,
    avatar: Option<string>, creadoEn: int, isDeleted: bool)

  /** A row of `categorias` (the `color` column is not part of this model). */
  datatype Categoria = Categoria(nombre: string, isDeleted: bool)

  /** A row of `subcategorias`. */
  datatype Subcategoria = Subcategoria(nombre: string, categoriaId: nat, isDeleted: bool)

  /** A row of `cuadros`; `creadoEn` is the creation timestamp as an ordered key. */
  datatype Cuadro = Cuadro(
    titulo: string, descripcion: Option<string>, imagen: Option<string>,
    subcategoriaId: nat, creadoEn: int, isDeleted: bool)

  /** The `code` property of an error thrown by the data layer. */
  datatype ErrorCode = SqliteConstraintForeignKey | SqliteConstraintUnique | SqliteConstraintNotNull | NoCode

  /** An error thrown inside a statement or a transaction: its `code` and `message`. */
  datatype DbError = DbError(code: ErrorCode, message: string)

  const UniqueCategoriaNombre := DbError(SqliteConstraintUnique, "UNIQUE constraint failed: categorias.nombre")
  const UniqueUsuarioNombre := DbError(SqliteConstraintUnique, "UNIQUE constraint failed: usuarios.nombre")
  const ForeignKeyFailed := DbError(SqliteConstraintForeignKey, "FOREIGN KEY constraint failed")
  const NotNullCuadroTitulo := DbError(SqliteConstraintNotNull, "NOT NULL constraint failed: cuadros.titulo")

  /** Every id of a table lies in [1, next): AUTOINCREMENT starts at 1 and never reuses. */
  predicate IdsBelow(keys: set<nat>, next: nat) {
    forall k :: k in keys ==> 1 <= k < next
  }

  /** The ids of `s` below `hi`, highest first: a scan of the table by `id DESC`. */
  function IdsDesc(s: set<nat>, hi: nat): (r: seq<nat>)
    ensures forall i :: 0 <= i < |r| ==> r[i] in s && r[i] < hi
    ensures forall x :: x in s && x < hi ==> x in r
    ensures forall i, j :: 0 <= i < j < |r| ==> r[i] > r[j]
  {
    if hi == 0 then []
    else (if hi - 1 in s then [hi - 1] else []) + IdsDesc(s, hi - 1)
  }

  /** The ids of `s` below `hi`, lowest first: a scan of the table in rowid order. */
  function IdsAsc(s: set<nat>, hi: nat): (r: seq<nat>)
    ensures forall i :: 0 <= i < |r| ==> r[i] in s && r[i] < hi
    ensures forall x :: x in s && x < hi ==> x in r
    ensures forall i, j :: 0 <= i < j < |r| ==> r[i] < r[j]
  {
    if hi == 0 then []
    else IdsAsc(s, hi - 1) + (if hi - 1 in s then [hi - 1] else [])
  }

  /** A sequence without repetitions has as many elements as the set of its elements. */
  lemma {:induction false} DistinctCard<T>(r: seq<T>, s: set<T>)
    requires forall i, j :: 0 <= i < j < |r| ==> r[i] != r[j]
    requires forall x :: x in s <==> x in r
    ensures |r| == |s|
  {
    if r != [] {
      var s' := s - {r[0]};
      forall x ensures x in s' <==> x in r[1..] {
        if x in r[1..] {
          var j :| 0 <= j < |r[1..]| && r[1..][j] == x;
          assert r[j + 1] == x;
        }
      }
      DistinctCard(r[1..], s');
    }
  }

  /** A scan of all ids of a table (all below `hi`) lists each of them once. */
  lemma IdsDescCard(s: set<nat>, hi: nat)
    requires forall x :: x in s ==> x < hi
    ensures |IdsDesc(s, hi)| == |s|
  {
    DistinctCard(IdsDesc(s, hi), s);
  }

  /** The integrity constraints SQLite enforces on this schema (`PRAGMA foreign_keys = ON`,
      the two UNIQUE name columns, AUTOINCREMENT), stated on the tables' contents. */
  ghost predicate Consistent(
    usuarios: map<nat, Usuario>, nextUsuarioId: nat,
    categorias: map<nat, Categoria>, nextCategoriaId: nat,
    subcategorias: map<nat, Subcategoria>, nextSubcategoriaId: nat,
    cuadros: map<nat, Cuadro>, nextCuadroId: nat)
  {
    && 1 <= nextUsuarioId && 1 <= nextCategoriaId && 1 <= nextSubcategoriaId && 1 <= nextCuadroId
    && IdsBelow(usuarios.Keys, nextUsuarioId)
    && IdsBelow(categorias.Keys, nextCategoriaId)
    && IdsBelow(subcategorias.Keys, nextSubcategoriaId)
    && IdsBelow(cuadros.Keys, nextCuadroId)
    && (forall k :: k in subcategorias ==> subcategorias[k].categoriaId in categorias)
    && (forall k :: k in cuadros ==> cuadros[k].subcategoriaId in subcategorias)
    && (forall a, b :: a in categorias && b in categorias && a != b ==>
          categorias[a].nombre != categorias[b].nombre)
    && (forall a, b :: a in usuarios && b in usuarios && a != b ==>
          usuarios[a].nombre != usuarios[b].nombre)
  }

  /** The whole database: one field per table, one AUTOINCREMENT counter per table. */
  class Database {
    var usuarios: map<nat, Usuario>
    var nextUsuarioId: nat
    var categorias: map<nat, Categoria>
    var nextCategoriaId: nat
    var subcategorias: map<nat, Subcategoria>
    var nextSubcategoriaId: nat
    var cuadros: map<nat, Cuadro>
    var nextCuadroId: nat

    /** The integrity constraints SQLite enforces on this schema. */
    ghost predicate Valid()
      reads this
    {
      Consistent(usuarios, nextUsuarioId, categorias, nextCategoriaId,
                 subcategorias, nextSubcategoriaId, cuadros, nextCuadroId)
    }

    /** `COMMIT` of a transaction over the category tables: writes the transaction's
        copies back, which the constraints allow. */
    method CommitCategorias(cats: map<nat, Categoria>, nextCat: nat, subs: map<nat, Subcategoria>, nextSub: nat)
      requires Consistent(usuarios, nextUsuarioId, cats, nextCat, subs, nextSub, cuadros, nextCuadroId)
      modifies this
      ensures Valid()
      ensures categorias == cats && nextCategoriaId == nextCat
      ensures subcategorias == subs && nextSubcategoriaId == nextSub
      ensures usuarios == old(usuarios) && nextUsuarioId == old(nextUsuarioId)
      ensures cuadros == old(cuadros) && nextCuadroId == old(nextCuadroId)
    {
      categorias, nextCategoriaId := cats, nextCat;
      subcategorias, nextSubcategoriaId := subs, nextSub;
    }

    /** A write to `usuarios` that the constraints allow. */
    method CommitUsuarios(us: map<nat, Usuario>, next: nat)
      requires Consistent(us, next, categorias, nextCategoriaId, subcategorias, nextSubcategoriaId, cuadros, nextCuadroId)
      modifies this
      ensures Valid()
      ensures usuarios == us && nextUsuarioId == next
      ensures categorias == old(categorias) && nextCategoriaId == old(nextCategoriaId)
      ensures subcategorias == old(subcategorias) && nextSubcategoriaId == old(nextSubcategoriaId)
      ensures cuadros == old(cuadros) && nextCuadroId == old(nextCuadroId)
    {
      usuarios, nextUsuarioId := us, next;
    }

    /** A freshly created, empty database file. */
    constructor ()
      ensures Valid()
      ensures usuarios == map[] && categorias == map[] && subcategorias == map[] && cuadros == map[]
      ensures nextUsuarioId == 1 && nextCategoriaId == 1 && nextSubcategoriaId == 1 && nextCuadroId == 1
    {
      usuarios, categorias, subcategorias, cuadros := map[], map[], map[], map[];
      nextUsuarioId, nextCategoriaId, nextSubcategoriaId, nextCuadroId := 1, 1, 1, 1;
    }
  }
}
