/** `src/models/usuariosModel.js`: the user rows. The bcrypt hash is a function
    parameter: `hash(p)` is what `bcrypt.hashSync(p, salt)` produced on that call. */
module UsuariosModel {
  import opened Wrappers
  import opened Db

  /** The object `crearUsuario` returns: the stored fields without the password. */
  datatype UsuarioCreado = UsuarioCreado(id: nat, nombre: string, rol: string, estado: string, avatar: Option<string>)

  /** A row of `SELECT id, nombre, rol, estado, avatar, creado_en FROM usuarios`. */
  datatype UsuarioPublico = UsuarioPublico(
    id: nat, nombre: string, rol: string, estado: string, avatar: Option<string>, creadoEn: int)

  /** A row of `SELECT * FROM usuarios`: every column, the password hash included. */
  datatype UsuarioFila = UsuarioFila(id: nat, usuario: Usuario)

  function LiveUsuarioIds(usuarios: map<nat, Usuario>): set<nat> {
    set k | k in usuarios && !usuarios[k].isDeleted
  }

  /** `nombre` is taken by a row other than `except`; UNIQUE covers deleted rows too. */
  predicate NombreTomado(usuarios: map<nat, Usuario>, nombre: string, except: Option<nat>) {
    exists k :: k in usuarios && usuarios[k].nombre == nombre && except != Some(k)
  }

  /** Adding a row whose name is free keeps the constraints. */
  lemma InsertKeepsConsistent(db: Database, u: Usuario)
    requires db.Valid()
    requires !NombreTomado(db.usuarios, u.nombre, None)
    ensures Consistent(db.usuarios[db.nextUsuarioId := u], db.nextUsuarioId + 1,
                       db.categorias, db.nextCategoriaId, db.subcategorias, db.nextSubcategoriaId,
                       db.cuadros, db.nextCuadroId)
  {
    var us := db.usuarios[db.nextUsuarioId := u];
    forall a, b | a in us && b in us && a != b ensures us[a].nombre != us[b].nombre {
      if a == db.nextUsuarioId {
        assert db.usuarios[b].nombre == us[b].nombre;
      } else if b == db.nextUsuarioId {
        assert db.usuarios[a].nombre == us[a].nombre;
      }
    }
  }

  /** Replacing row `id` by one whose name no other row holds keeps the constraints. */
  lemma ReplaceKeepsConsistent(db: Database, id: nat, u: Usuario)
    requires db.Valid() && id in db.usuarios
    requires !NombreTomado(db.usuarios, u.nombre, Some(id))
    ensures Consistent(db.usuarios[id := u], db.nextUsuarioId,
                       db.categorias, db.nextCategoriaId, db.subcategorias, db.nextSubcategoriaId,
                       db.cuadros, db.nextCuadroId)
  {
    var us := db.usuarios[id := u];
    assert us.Keys == db.usuarios.Keys;
    forall a, b | a in us && b in us && a != b ensures us[a].nombre != us[b].nombre {
      if a == id {
        assert db.usuarios[b].nombre == us[b].nombre;
      } else if b == id {
        assert db.usuarios[a].nombre == us[a].nombre;
      }
    }
  }

  /** `crearUsuario`: inserts the row with the hash of the password and returns the new
      id with the other fields. A name that any row holds, a deleted one included, makes
      the INSERT throw the UNIQUE error. */
  method CrearUsuario(db: Database, nombre: string, password: string, rol: string, estado: string,
                      avatar: Option<string>, hash: string -> string, now: int)
    returns (r: Result<UsuarioCreado, DbError>)
    requires db.Valid()
    modifies db
    ensures db.Valid()
    ensures NombreTomado(old(db.usuarios), nombre, None) ==> r == Failure(UniqueUsuarioNombre) && unchanged(db)
    ensures !NombreTomado(old(db.usuarios), nombre, None) ==>
              && r == Success(UsuarioCreado(old(db.nextUsuarioId), nombre, rol, estado, avatar))
              && db.usuarios == old(db.usuarios)[old(db.nextUsuarioId) :=
                   Usuario(nombre, hash(password), rol, estado, avatar, now, false)]
              && db.nextUsuarioId == old(db.nextUsuarioId) + 1
    ensures db.categorias == old(db.categorias) && db.subcategorias == old(db.subcategorias)
    ensures db.cuadros == old(db.cuadros)
    ensures db.nextCategoriaId == old(db.nextCategoriaId) && db.nextSubcategoriaId == old(db.nextSubcategoriaId)
    ensures db.nextCuadroId == old(db.nextCuadroId)
  {
    if NombreTomado(db.usuarios, nombre, None) {
      return Failure(UniqueUsuarioNombre);
    }
    var id := db.nextUsuarioId;
    var u := Usuario(nombre, hash(password), rol, estado, avatar, now, false);
    InsertKeepsConsistent(db, u);
    db.CommitUsuarios(db.usuarios[id := u], id + 1);
    r := Success(UsuarioCreado(id, nombre, rol, estado, avatar));
  }

  /** The listed columns of one row. */
  function Publico(id: nat, u: Usuario): UsuarioPublico {
    UsuarioPublico(id, u.nombre, u.rol, u.estado, u.avatar, u.creadoEn)
  }

  /** The live rows of `usuarios` (ids below `next`), highest id first, without the
      password. */
  function Listar(us: map<nat, Usuario>, next: nat): (r: seq<UsuarioPublico>)
    ensures forall i :: 0 <= i < |r| ==> r[i].id < next && r[i].id in LiveUsuarioIds(us)
    ensures forall i :: 0 <= i < |r| ==> r[i].id in us && r[i] == Publico(r[i].id, us[r[i].id])
    ensures forall k :: k < next && k in LiveUsuarioIds(us) ==> exists i :: 0 <= i < |r| && r[i].id == k
    ensures forall i, j :: 0 <= i < j < |r| ==> r[i].id > r[j].id
  {
    var ids := IdsDesc(LiveUsuarioIds(us), next);
    var r := Publicos(us, ids);
    ListarCubre(us, next, ids, r);
    r
  }

  /** The listed columns of the rows `ids`, in that order. */
  function Publicos(us: map<nat, Usuario>, ids: seq<nat>): (r: seq<UsuarioPublico>)
    requires forall i :: 0 <= i < |ids| ==> ids[i] in us
    ensures |r| == |ids| && forall i :: 0 <= i < |ids| ==> r[i] == Publico(ids[i], us[ids[i]])
  {
    seq(|ids|, i requires 0 <= i < |ids| => Publico(ids[i], us[ids[i]]))
  }

  lemma ListarCubre(us: map<nat, Usuario>, next: nat, ids: seq<nat>, r: seq<UsuarioPublico>)
    requires forall k :: k in LiveUsuarioIds(us) && k < next ==> k in ids
    requires |r| == |ids| && forall i :: 0 <= i < |ids| ==> r[i].id == ids[i]
    ensures forall k :: k < next && k in LiveUsuarioIds(us) ==> exists i :: 0 <= i < |r| && r[i].id == k
  {
    forall k | k < next && k in LiveUsuarioIds(us) ensures exists i :: 0 <= i < |r| && r[i].id == k {
      var i :| 0 <= i < |ids| && ids[i] == k;
      assert r[i].id == k;
    }
  }

  /** `obtenerUsuarios`: every live user once, highest id first, without the password. */
  function ObtenerUsuarios(db: Database): (r: seq<UsuarioPublico>)
    reads db
    requires db.Valid()
    ensures forall i :: 0 <= i < |r| ==> r[i].id in LiveUsuarioIds(db.usuarios)
    ensures forall k :: k in LiveUsuarioIds(db.usuarios) ==> exists i :: 0 <= i < |r| && r[i].id == k
  {
    Listar(db.usuarios, db.nextUsuarioId)
  }

  /** `obtenerUsuario`: `SELECT * ... WHERE id = ? AND is_deleted = 0`. */
  function ObtenerUsuario(db: Database, id: nat): (r: Option<UsuarioFila>)
    reads db
    ensures r.Some? <==> id in LiveUsuarioIds(db.usuarios)
    ensures r.Some? ==> r.value == UsuarioFila(id, db.usuarios[id])
  {
    if id in db.usuarios && !db.usuarios[id].isDeleted then Some(UsuarioFila(id, db.usuarios[id])) else None
  }

  /** The first id below `hi` of a live row named `nombre`, in rowid order. */
  function BuscarPorNombre(usuarios: map<nat, Usuario>, nombre: string, hi: nat): (r: Option<nat>)
    ensures r.Some? ==> r.value < hi && r.value in LiveUsuarioIds(usuarios) && usuarios[r.value].nombre == nombre
    ensures r.None? ==> forall k :: k < hi && k in LiveUsuarioIds(usuarios) ==> usuarios[k].nombre != nombre
  {
    if hi == 0 then None
    else
      var r := BuscarPorNombre(usuarios, nombre, hi - 1);
      if r.Some? then r
      else if hi - 1 in LiveUsuarioIds(usuarios) && usuarios[hi - 1].nombre == nombre then Some(hi - 1)
      else None
  }

  /** `obtenerUsuarioPorNombre` (the login lookup): the live row with that name, if any;
      names are unique, so it is the only live row with that name. */
  function ObtenerUsuarioPorNombre(db: Database, nombre: string): (r: Option<UsuarioFila>)
    reads db
    requires db.Valid()
    ensures r.Some? <==> exists k :: k in LiveUsuarioIds(db.usuarios) && db.usuarios[k].nombre == nombre
    ensures r.Some? ==> r.value.id in LiveUsuarioIds(db.usuarios) && r.value.usuario == db.usuarios[r.value.id]
                        && r.value.usuario.nombre == nombre
    ensures r.Some? ==> forall k :: k in db.usuarios && db.usuarios[k].nombre == nombre ==> k == r.value.id
  {
    var found := BuscarPorNombre(db.usuarios, nombre, db.nextUsuarioId);
    if found.Some? then Some(UsuarioFila(found.value, db.usuarios[found.value])) else None
  }

  /** The lookup by name and the lookup by id agree on every live user. */
  lemma PorNombreEsPorId(db: Database, id: nat)
    requires db.Valid()
    requires id in LiveUsuarioIds(db.usuarios)
    ensures ObtenerUsuarioPorNombre(db, db.usuarios[id].nombre) == ObtenerUsuario(db, id)
  {
  }

  /** `eliminarUsuario`: `UPDATE ... SET is_deleted = 1 WHERE id = ?` with no `is_deleted`
      filter, so an already-deleted row also reports true. */
  method EliminarUsuario(db: Database, id: nat) returns (r: bool)
    requires db.Valid()
    modifies db
    ensures db.Valid()
    ensures r <==> id in old(db.usuarios)
    ensures db.usuarios == if r then old(db.usuarios)[id := old(db.usuarios)[id].(isDeleted := true)] else old(db.usuarios)
    ensures LiveUsuarioIds(db.usuarios) == LiveUsuarioIds(old(db.usuarios)) - {id}
    ensures db.nextUsuarioId == old(db.nextUsuarioId)
    ensures db.categorias == old(db.categorias) && db.subcategorias == old(db.subcategorias)
    ensures db.cuadros == old(db.cuadros)
    ensures db.nextCategoriaId == old(db.nextCategoriaId) && db.nextSubcategoriaId == old(db.nextSubcategoriaId)
    ensures db.nextCuadroId == old(db.nextCuadroId)
  {
    r := id in db.usuarios;
    if r {
      var u := db.usuarios[id].(isDeleted := true);
      ReplaceKeepsConsistent(db, id, u);
      db.CommitUsuarios(db.usuarios[id := u], db.nextUsuarioId);
    }
  }

  /** The password column after an update: the hash of a non-empty new password, else the
      stored one (`if (password)`: absent and `''` both keep it). */
  function NuevaPassword(stored: string, password: Option<string>, hash: string -> string): (p: string)
    ensures password.Some? && password.value != "" ==> p == hash(password.value)
    ensures password.None? || password.value == "" ==> p == stored
  {
    if password.Some? && password.value != "" then hash(password.value) else stored
  }

  /** `actualizarUsuario`: `UPDATE ... WHERE id = ? AND is_deleted = 0` of the name, role,
      state, avatar and, when given, the password hash. A missing or deleted row reports
      false and nothing changes; a name another row holds makes the UPDATE throw. */
  method ActualizarUsuario(db: Database, id: nat, nombre: string, rol: string, estado: string,
                           avatar: Option<string>, password: Option<string>, hash: string -> string)
    returns (r: Result<bool, DbError>)
    requires db.Valid()
    modifies db
    ensures db.Valid()
    ensures id !in LiveUsuarioIds(old(db.usuarios)) ==> r == Success(false) && unchanged(db)
    ensures id in LiveUsuarioIds(old(db.usuarios)) && NombreTomado(old(db.usuarios), nombre, Some(id)) ==>
              r == Failure(UniqueUsuarioNombre) && unchanged(db)
    ensures id in LiveUsuarioIds(old(db.usuarios)) && !NombreTomado(old(db.usuarios), nombre, Some(id)) ==>
              && r == Success(true)
              && db.usuarios == old(db.usuarios)[id := old(db.usuarios)[id].(nombre := nombre, rol := rol,
                   estado := estado, avatar := avatar,
                   password := NuevaPassword(old(db.usuarios)[id].password, password, hash))]
    ensures db.nextUsuarioId == old(db.nextUsuarioId)
    ensures db.categorias == old(db.categorias) && db.subcategorias == old(db.subcategorias)
    ensures db.cuadros == old(db.cuadros)
    ensures db.nextCategoriaId == old(db.nextCategoriaId) && db.nextSubcategoriaId == old(db.nextSubcategoriaId)
    ensures db.nextCuadroId == old(db.nextCuadroId)
  {
    if !(id in db.usuarios && !db.usuarios[id].isDeleted) {
      return Success(false);
    }
    if NombreTomado(db.usuarios, nombre, Some(id)) {
      return Failure(UniqueUsuarioNombre);
    }
    var fila := db.usuarios[id];
    var u := fila.(nombre := nombre, rol := rol, estado := estado, avatar := avatar,
                   password := NuevaPassword(fila.password, password, hash));
    ReplaceKeepsConsistent(db, id, u);
    db.CommitUsuarios(db.usuarios[id := u], db.nextUsuarioId);
    r := Success(true);
  }

  /** `contarUsuariosActivos`: the number of live users, which is the length of the list
      `obtenerUsuarios` returns. */
  function ContarUsuariosActivos(db: Database): (n: nat)
    reads db
    requires db.Valid()
    ensures n == |ObtenerUsuarios(db)|
  {
    ListarCuenta(db.usuarios, db.nextUsuarioId);
    |LiveUsuarioIds(db.usuarios)|
  }

  /** No id is listed twice, so the list is as long as the set of live ids. */
  lemma ListarCuenta(us: map<nat, Usuario>, next: nat)
    requires forall k :: k in us ==> k < next
    ensures |Listar(us, next)| == |LiveUsuarioIds(us)|
  {
    var r := Listar(us, next);
    var ids := seq(|r|, i requires 0 <= i < |r| => r[i].id);
    forall x ensures x in LiveUsuarioIds(us) <==> x in ids {
      if x in LiveUsuarioIds(us) {
        var i :| 0 <= i < |r| && r[i].id == x;
        assert ids[i] == x;
      }
    }
    DistinctCard(ids, LiveUsuarioIds(us));
  }
}
