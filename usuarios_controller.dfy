/** `src/controllers/usuariosController.js`: validation, the choice of avatar and of the
    password to store, and the mapping of model results to responses for the user
    endpoints. Form fields arrive as optional strings; an uploaded file is given by the
    name the upload middleware stored it under. */
module UsuariosController {
  import opened Wrappers
  import opened Strings
  import opened Db
  import opened Http
  import opened UsuariosModel

  const AvatarPorDefecto := "/uploads/avatars/default.png"

  /** The path an uploaded avatar is served from. */
  function RutaAvatar(filename: string): (r: string)
    ensures |r| == 17 + |filename| && r[..17] == "/uploads/avatars/" && r[17..] == filename
  {
    "/uploads/avatars/" + filename
  }

  /** The avatar of a new user: the upload when there is one, else the default picture. */
  function AvatarCreacion(archivo: Option<string>): (a: string)
    ensures archivo.Some? ==> a == RutaAvatar(archivo.value)
    ensures archivo.None? ==> a == AvatarPorDefecto
  {
    if archivo.Some? then RutaAvatar(archivo.value) else AvatarPorDefecto
  }

  /** The fields `crearUsuario` is called with. */
  datatype DatosCreacion = DatosCreacion(nombre: string, password: string, rol: string, estado: string, avatar: string)

  /** The guards of `crearNuevoUsuario`: the four fields are required and the password
      has at least 4 characters; on success, the fields with the chosen avatar. */
  function ValidarCreacion(nombre: Option<string>, password: Option<string>, rol: Option<string>,
                           estado: Option<string>, archivo: Option<string>): (r: Result<DatosCreacion, Respuesta>)
    ensures r.Success? <==>
              Truthy(nombre) && Truthy(rol) && Truthy(estado) && Truthy(password) && |password.value| >= 4
    ensures !(Truthy(nombre) && Truthy(rol) && Truthy(estado) && Truthy(password)) ==>
              r == Failure(Respuesta(400, Mensaje("Nombre, contraseña, rol y estado son obligatorios.")))
    ensures Truthy(nombre) && Truthy(rol) && Truthy(estado) && Truthy(password) && |password.value| < 4 ==>
              r == Failure(Respuesta(400, Mensaje("La contraseña debe tener al menos 4 caracteres.")))
    ensures r.Success? ==>
              r.value == DatosCreacion(nombre.value, password.value, rol.value, estado.value, AvatarCreacion(archivo))
  {
    if !(Truthy(nombre) && Truthy(rol) && Truthy(estado) && Truthy(password)) then
      Failure(Respuesta(400, Mensaje("Nombre, contraseña, rol y estado son obligatorios.")))
    else if |password.value| < 4 then
      Failure(Respuesta(400, Mensaje("La contraseña debe tener al menos 4 caracteres.")))
    else
      Success(DatosCreacion(nombre.value, password.value, rol.value, estado.value, AvatarCreacion(archivo)))
  }

  /** `crearNuevoUsuario`: 201 with the created user (no password in it), 400 on a failed
      guard, 500 when the insert throws. */
  method CrearNuevoUsuario(db: Database, nombre: Option<string>, password: Option<string>, rol: Option<string>,
                           estado: Option<string>, archivo: Option<string>, hash: string -> string, now: int)
    returns (resp: Respuesta)
    requires db.Valid()
    modifies db
    ensures db.Valid()
    ensures resp.status != 201 ==> unchanged(db)
    ensures ValidarCreacion(nombre, password, rol, estado, archivo).Failure? ==>
              resp == ValidarCreacion(nombre, password, rol, estado, archivo).error
    ensures resp.status == 201 <==>
              ValidarCreacion(nombre, password, rol, estado, archivo).Success? &&
              !NombreTomado(old(db.usuarios), nombre.value, None)
    ensures resp.status == 201 ==>
              && resp.cuerpo == MensajeUsuario("Usuario creado con éxito",
                   UsuarioCreado(old(db.nextUsuarioId), nombre.value, rol.value, estado.value,
                                 Some(AvatarCreacion(archivo))))
              && old(db.nextUsuarioId) in db.usuarios
              && db.usuarios[old(db.nextUsuarioId)].password == hash(password.value)
  {
    var v := ValidarCreacion(nombre, password, rol, estado, archivo);
    if v.Failure? {
      return v.error;
    }
    var d := v.value;
    var r := CrearUsuario(db, d.nombre, d.password, d.rol, d.estado, Some(d.avatar), hash, now);
    if r.Failure? {
      return Respuesta(500, Mensaje("Error interno del servidor al crear el usuario."));
    }
    resp := Respuesta(201, MensajeUsuario("Usuario creado con éxito", r.value));
  }

  /** The guards of `actualizarUsuarioExistente`: name, role and state are required, and a
      non-empty new password has at least 4 characters. `None` means every guard passed. */
  function ValidarActualizacion(nombre: Option<string>, rol: Option<string>, estado: Option<string>,
                                password: Option<string>): (r: Option<Respuesta>)
    ensures r.None? <==> Truthy(nombre) && Truthy(rol) && Truthy(estado) && !(Truthy(password) && |password.value| < 4)
    ensures r.Some? ==> r.value.status == 400
  {
    if !(Truthy(nombre) && Truthy(rol) && Truthy(estado)) then
      Some(Respuesta(400, Mensaje("Nombre, rol y estado son obligatorios.")))
    else if Truthy(password) && |password.value| < 4 then
      Some(Respuesta(400, Mensaje("La nueva contraseña debe tener al menos 4 caracteres.")))
    else None
  }

  /** The avatar of an updated user: the upload when there is one, else the one stored. */
  function AvatarActualizacion(archivo: Option<string>, existente: Option<string>): (a: Option<string>)
    ensures archivo.Some? ==> a == Some(RutaAvatar(archivo.value))
    ensures archivo.None? ==> a == existente
  {
    if archivo.Some? then Some(RutaAvatar(archivo.value)) else existente
  }

  /** `if (password) datosActualizados.password = password`: only a non-empty password is
      passed on. */
  function PasswordEnviada(password: Option<string>): (p: Option<string>)
    ensures p.Some? <==> Truthy(password)
    ensures p.Some? ==> p == password
  {
    if Truthy(password) then password else None
  }

  /** Whatever the request sends, the stored password changes only to the hash of a
      non-empty password, and an empty or missing one keeps it. */
  lemma PasswordSoloSiSeEnvia(stored: string, password: Option<string>, hash: string -> string)
    ensures Truthy(password) ==> NuevaPassword(stored, PasswordEnviada(password), hash) == hash(password.value)
    ensures !Truthy(password) ==> NuevaPassword(stored, PasswordEnviada(password), hash) == stored
  {
  }

  /** `actualizarUsuarioExistente`: 400 on a failed guard, 404 for a user that is missing
      or deleted (before any write), 200 when the update changed the row, 500 otherwise. */
  method ActualizarUsuarioExistente(db: Database, id: nat, nombre: Option<string>, rol: Option<string>,
                                    estado: Option<string>, password: Option<string>, archivo: Option<string>,
                                    hash: string -> string)
    returns (resp: Respuesta)
    requires db.Valid()
    modifies db
    ensures db.Valid()
    ensures resp.status != 200 ==> unchanged(db)
    ensures ValidarActualizacion(nombre, rol, estado, password).Some? ==>
              resp == ValidarActualizacion(nombre, rol, estado, password).value
    ensures ValidarActualizacion(nombre, rol, estado, password).None? && id !in LiveUsuarioIds(old(db.usuarios)) ==>
              resp == Respuesta(404, Mensaje("Usuario no encontrado."))
    ensures resp.status == 200 <==>
              && ValidarActualizacion(nombre, rol, estado, password).None?
              && id in LiveUsuarioIds(old(db.usuarios))
              && !NombreTomado(old(db.usuarios), nombre.value, Some(id))
    ensures resp.status == 200 ==>
              var u := old(db.usuarios)[id];
              db.usuarios == old(db.usuarios)[id := u.(nombre := nombre.value, rol := rol.value, estado := estado.value,
                avatar := AvatarActualizacion(archivo, u.avatar),
                password := NuevaPassword(u.password, PasswordEnviada(password), hash))]
  {
    var v := ValidarActualizacion(nombre, rol, estado, password);
    if v.Some? {
      return v.value;
    }
    var existente := ObtenerUsuario(db, id);
    if existente.None? {
      return Respuesta(404, Mensaje("Usuario no encontrado."));
    }
    var avatar := AvatarActualizacion(archivo, existente.value.usuario.avatar);
    var r := ActualizarUsuario(db, id, nombre.value, rol.value, estado.value, avatar, PasswordEnviada(password), hash);
    if r.Failure? {
      return Respuesta(500, Mensaje("Error interno del servidor."));
    }
    if r.value {
      resp := Respuesta(200, Mensaje("Usuario actualizado correctamente."));
    } else {
      resp := Respuesta(500, Mensaje("No se pudo actualizar el usuario."));
    }
  }

  /** The response of `eliminarUsuarioExistente`. */
  function RespuestaEliminar(ok: bool): (resp: Respuesta)
    ensures resp.status == 200 <==> ok
    ensures resp.status == 404 <==> !ok
  {
    if ok then Respuesta(200, Mensaje("Usuario eliminado correctamente."))
    else Respuesta(404, Mensaje("Usuario no encontrado o ya eliminado."))
  }

  /** `eliminarUsuarioExistente`: 200 for any existing row (already deleted included),
      404 for an id no row has. */
  method EliminarUsuarioExistente(db: Database, id: nat) returns (resp: Respuesta)
    requires db.Valid()
    modifies db
    ensures db.Valid()
    ensures resp.status == 200 <==> id in old(db.usuarios)
    ensures resp.status == 404 <==> id !in old(db.usuarios)
    ensures id !in LiveUsuarioIds(db.usuarios)
  {
    var ok := EliminarUsuario(db, id);
    resp := RespuestaEliminar(ok);
  }
}
