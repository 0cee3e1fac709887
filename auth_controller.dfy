/** `src/controllers/authController.js`: login and logout as updates of the session's
    `user`, and the three route guards as decisions over that value. `req.accepts(...)`
    is given as booleans; the bcrypt comparison is a function parameter. */
module AuthController {
  import opened Wrappers
  import opened Strings
  import opened Db
  import opened Http
  import opened UsuariosModel

  /** What the session keeps of the user who logged in: four columns, no password. */
  datatype SesionUsuario = SesionUsuario(id: nat, nombre: string, rol: string, avatar: Option<string>)

  /** The projection stored in `req.session.user`. */
  function Proyeccion(f: UsuarioFila): SesionUsuario {
    SesionUsuario(f.id, f.usuario.nombre, f.usuario.rol, f.usuario.avatar)
  }

  /** The outcome of checking the credentials. */
  datatype Login = Rechazado(status: nat, message: string) | Aceptado(user: SesionUsuario)

  /** A live user with this name whose stored hash matches the password. */
  predicate Credenciales(usuarios: map<nat, Usuario>, nombre: string, password: string,
                         compare: (string, string) -> bool, k: nat) {
    k in LiveUsuarioIds(usuarios) && usuarios[k].nombre == nombre && compare(password, usuarios[k].password)
  }

  /** The checks of `handleLogin`: both fields are required (400); an unknown or deleted
      user or a failed comparison is 401; otherwise the projection of that user. */
  function DecidirLogin(db: Database, nombre: Option<string>, password: Option<string>,
                        compare: (string, string) -> bool): (r: Login)
    reads db
    requires db.Valid()
    ensures !(Truthy(nombre) && Truthy(password)) ==> r == Rechazado(400, "Nombre y contraseña son obligatorios.")
    ensures Truthy(nombre) && Truthy(password) ==>
              (r.Aceptado? <==> exists k :: Credenciales(db.usuarios, nombre.value, password.value, compare, k))
    ensures Truthy(nombre) && Truthy(password) && r.Rechazado? ==> r == Rechazado(401, "Credenciales incorrectas.")
    ensures r.Aceptado? ==>
              && Credenciales(db.usuarios, nombre.value, password.value, compare, r.user.id)
              && r.user == Proyeccion(UsuarioFila(r.user.id, db.usuarios[r.user.id]))
  {
    if !(Truthy(nombre) && Truthy(password)) then Rechazado(400, "Nombre y contraseña son obligatorios.")
    else
      var usuario := ObtenerUsuarioPorNombre(db, nombre.value);
      assert forall k :: Credenciales(db.usuarios, nombre.value, password.value, compare, k) ==>
                           usuario.Some? && k == usuario.value.id;
      if usuario.None? || !compare(password.value, usuario.value.usuario.password) then
        Rechazado(401, "Credenciales incorrectas.")
      else
        assert Credenciales(db.usuarios, nombre.value, password.value, compare, usuario.value.id);
        Aceptado(Proyeccion(usuario.value))
  }

  /** `handleError`: JSON when the client accepts it, else the login page with the error. */
  function ErrorLogin(status: nat, message: string, aceptaJson: bool): (resp: Respuesta)
    ensures resp.status == status
    ensures aceptaJson ==> resp.cuerpo == Mensaje(message)
    ensures !aceptaJson ==> resp.cuerpo == Vista("login", Some(message))
  {
    if aceptaJson then Respuesta(status, Mensaje(message)) else Respuesta(status, Vista("login", Some(message)))
  }

  /** The next step a middleware takes: call `next()`, or answer and stop. */
  datatype Paso = Siguiente | Corta(resp: Respuesta)

  /** `isAuthenticated`: passes iff there is a session user; otherwise 401 for a client
      that accepts JSON and not HTML, and a redirect to the login page for the rest. */
  function IsAuthenticated(user: Option<SesionUsuario>, aceptaJson: bool, aceptaHtml: bool): (p: Paso)
    ensures p.Siguiente? <==> user.Some?
    ensures user.None? && aceptaJson && !aceptaHtml ==>
              p == Corta(Respuesta(401, Mensaje("Sesión expirada. Por favor, inicie sesión de nuevo.")))
    ensures user.None? && !(aceptaJson && !aceptaHtml) ==> p == Corta(Redireccion("/login"))
  {
    if user.Some? then Siguiente
    else if aceptaJson && !aceptaHtml then
      Corta(Respuesta(401, Mensaje("Sesión expirada. Por favor, inicie sesión de nuevo.")))
    else Corta(Redireccion("/login"))
  }

  /** `isAdmin`: passes iff the session user has the role `admin`; otherwise 403. */
  function IsAdmin(user: Option<SesionUsuario>): (p: Paso)
    ensures p.Siguiente? <==> user.Some? && user.value.rol == "admin"
    ensures p.Corta? ==> p.resp.status == 403
  {
    if user.Some? && user.value.rol == "admin" then Siguiente
    else Corta(Respuesta(403, Mensaje("Acceso denegado. Se requiere rol de Administrador.")))
  }

  /** `isAdminOrEditor`: passes iff the session user has the role `admin` or `editor`;
      otherwise 403. */
  function IsAdminOrEditor(user: Option<SesionUsuario>): (p: Paso)
    ensures p.Siguiente? <==> user.Some? && user.value.rol in {"admin", "editor"}
    ensures p.Corta? ==> p.resp.status == 403
  {
    if user.Some? && (user.value.rol == "admin" || user.value.rol == "editor") then Siguiente
    else Corta(Respuesta(403, Mensaje("Acceso denegado. Se requiere rol de Administrador o Editor.")))
  }

  /** The guards are nested: whoever passes `isAdmin` passes `isAdminOrEditor`, and whoever
      passes that passes `isAuthenticated`; an editor shows the second inclusion is strict. */
  lemma GuardasAnidadas(user: Option<SesionUsuario>, aceptaJson: bool, aceptaHtml: bool)
    ensures IsAdmin(user).Siguiente? ==> IsAdminOrEditor(user).Siguiente?
    ensures IsAdminOrEditor(user).Siguiente? ==> IsAuthenticated(user, aceptaJson, aceptaHtml).Siguiente?
    ensures user.Some? && user.value.rol == "editor" ==> IsAdminOrEditor(user).Siguiente? && IsAdmin(user).Corta?
  {
  }

  /** The session of one client. */
  class Sesion {
    /** `req.session.user`. */
    var user: Option<SesionUsuario>

    /** A new session has no user. */
    constructor ()
      ensures user.None?
    {
      user := None;
    }

    /** `handleLogin`: on accepted credentials stores the projection of the user and
      answers with the way to `/admin`; on rejected ones answers the error and leaves the
      session as it was. */
    method HandleLogin(db: Database, nombre: Option<string>, password: Option<string>,
                       compare: (string, string) -> bool, aceptaJson: bool)
      returns (resp: Respuesta)
      requires db.Valid()
      modifies this
      ensures DecidirLogin(db, nombre, password, compare).Rechazado? ==>
                && user == old(user)
                && resp == ErrorLogin(DecidirLogin(db, nombre, password, compare).status,
                                      DecidirLogin(db, nombre, password, compare).message, aceptaJson)
      ensures DecidirLogin(db, nombre, password, compare).Aceptado? ==>
                && user == Some(DecidirLogin(db, nombre, password, compare).user)
                && resp == (if aceptaJson then Respuesta(200, RedirectTo("/admin")) else Redireccion("/admin"))
      ensures user != old(user) ==> IsAuthenticated(user, aceptaJson, false).Siguiente?
    {
      var r := DecidirLogin(db, nombre, password, compare);
      if r.Rechazado? {
        return ErrorLogin(r.status, r.message, aceptaJson);
      }
      user := Some(r.user);
      if aceptaJson {
        resp := Respuesta(200, RedirectTo("/admin"));
      } else {
        resp := Redireccion("/admin");
      }
    }

    /** `handleLogout`: a destroyed session has no user and the client goes to `/login`;
      when the store fails to destroy it, the client goes back to `/admin`. */
    method HandleLogout(fallaDestruir: bool) returns (resp: Respuesta)
      modifies this
      ensures fallaDestruir ==> resp == Redireccion("/admin") && user == old(user)
      ensures !fallaDestruir ==> resp == Redireccion("/login") && user.None?
      ensures !fallaDestruir ==> IsAuthenticated(user, false, true) == Corta(Redireccion("/login"))
    {
      if fallaDestruir {
        return Redireccion("/admin");
      }
      user := None;
      resp := Redireccion("/login");
    }
  }
}
