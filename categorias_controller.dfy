/** `src/controllers/categoriasController.js`: request validation and the mapping of
    model results and thrown errors to HTTP responses for the category endpoints. */
module CategoriasController {
  import opened Wrappers
  import opened Strings
  import opened Db
  import opened Http
  import opened CategoriasModel

  const NombreObligatorio := "El nombre de la categoría es obligatorio."
  const SubcategoriaObligatoria := "Debe proporcionar al menos una subcategoría."

  /** The two guards shared by create and update. On success: the trimmed name and the
      subcategory names as sent (not trimmed). A `nombre` that is an array passes `!nombre`
      and then has no `trim` method: the handler throws outside its `try`. */
  function ValidarCategoria(nombre: Campo, subcategorias: Campo): (r: Result<(string, seq<string>), Respuesta>)
    ensures r.Success? <==>
              nombre.Texto? && Trim(nombre.s) != "" && subcategorias.Lista? && |subcategorias.items| > 0
    ensures r.Success? ==> r.value == (Trim(nombre.s), subcategorias.items)
    ensures !CampoTruthy(nombre) || (nombre.Texto? && Trim(nombre.s) == "") ==>
              r == Failure(Respuesta(400, Mensaje(NombreObligatorio)))
    ensures nombre.Lista? ==> r == Failure(NoCapturada)
    ensures nombre.Texto? && Trim(nombre.s) != "" && !(subcategorias.Lista? && |subcategorias.items| > 0) ==>
              r == Failure(Respuesta(400, Mensaje(SubcategoriaObligatoria)))
  {
    if !CampoTruthy(nombre) then Failure(Respuesta(400, Mensaje(NombreObligatorio)))
    else if nombre.Lista? then Failure(NoCapturada)
    else if Trim(nombre.s) == "" then Failure(Respuesta(400, Mensaje(NombreObligatorio)))
    else if !subcategorias.Lista? || |subcategorias.items| == 0 then
      Failure(Respuesta(400, Mensaje(SubcategoriaObligatoria)))
    else Success((Trim(nombre.s), subcategorias.items))
  }

  /** What validation passes on is itself valid and passes on unchanged: the name is
      already trimmed. */
  lemma ValidarIdempotente(nombre: Campo, subcategorias: Campo)
    requires ValidarCategoria(nombre, subcategorias).Success?
    ensures var v := ValidarCategoria(nombre, subcategorias).value;
            ValidarCategoria(Texto(v.0), Lista(v.1)) == Success(v)
  {
    TrimIdempotent(nombre.s);
  }

  /** `error.message || default`. */
  function MensajeDe(e: DbError, porDefecto: string): (m: string)
    ensures e.message != "" ==> m == e.message
    ensures e.message == "" ==> m == porDefecto
    ensures m != "" <==> e.message != "" || porDefecto != ""
  {
    if e.message != "" then e.message else porDefecto
  }

  /** The response of `crearNuevaCategoria` once the model was called. */
  function RespuestaCrear(r: Result<nat, DbError>): (resp: Respuesta)
    ensures resp.status == 201 <==> r.Success?
    ensures r.Success? ==> resp.cuerpo == MensajeId("Categoría creada exitosamente", r.value)
    ensures r.Failure? ==> resp == Respuesta(500, Mensaje(
              MensajeDe(r.error, "Error interno del servidor al crear la categoría.")))
  {
    match r
    case Success(id) => Respuesta(201, MensajeId("Categoría creada exitosamente", id))
    case Failure(e) => Respuesta(500, Mensaje(MensajeDe(e, "Error interno del servidor al crear la categoría.")))
  }

  /** The response of `actualizarCategoria` once the model was called: a foreign-key
      error is the client's fault (400, with the model's message), any other is 500. */
  function RespuestaActualizar(id: nat, r: Outcome<DbError>): (resp: Respuesta)
    ensures resp.status == 200 <==> r.Pass?
    ensures resp.status == 400 <==> r.Fail? && r.error.code == SqliteConstraintForeignKey
    ensures resp.status == 400 ==> resp.cuerpo == Mensaje(r.error.message)
    ensures resp.status in {200, 400, 500}
  {
    match r
    case Pass => Respuesta(200, MensajeId("Categoría actualizada exitosamente", id))
    case Fail(e) =>
      if e.code == SqliteConstraintForeignKey then Respuesta(400, Mensaje(e.message))
      else Respuesta(500, Mensaje(MensajeDe(e, "Error interno del servidor al actualizar la categoría.")))
  }

  /** The response of `eliminarCategoria`: true is 200, false 404, a foreign-key error
      400 and any other error 500. */
  function RespuestaEliminar(r: Result<bool, DbError>): (resp: Respuesta)
    ensures resp.status == 200 <==> r == Success(true)
    ensures resp.status == 404 <==> r == Success(false)
    ensures resp.status == 400 <==> r.Failure? && r.error.code == SqliteConstraintForeignKey
    ensures resp.status == 500 <==> r.Failure? && r.error.code != SqliteConstraintForeignKey
  {
    match r
    case Success(true) => Respuesta(200, Mensaje("Categoría eliminada correctamente."))
    case Success(false) => Respuesta(404, Mensaje("Categoría no encontrada o no se pudo eliminar."))
    case Failure(e) =>
      if e.code == SqliteConstraintForeignKey
      then Respuesta(400, Mensaje("No se puede eliminar. La categoría está en uso por uno o más cuadros."))
      else Respuesta(500, Mensaje("Error interno del servidor."))
  }

  /** `crearNuevaCategoria`: validation, then the model's transaction. */
  method CrearNuevaCategoria(db: Database, nombre: Campo, subcategorias: Campo) returns (resp: Respuesta)
    requires db.Valid()
    modifies db
    ensures db.Valid()
    ensures ValidarCategoria(nombre, subcategorias).Failure? ==>
              resp == ValidarCategoria(nombre, subcategorias).error && unchanged(db)
    ensures resp.status == 201 <==>
              ValidarCategoria(nombre, subcategorias).Success? && !NombreOcupado(old(db.categorias), Trim(nombre.s), None)
    ensures resp.status == 201 ==>
              && resp.cuerpo == MensajeId("Categoría creada exitosamente", old(db.nextCategoriaId))
              && CategoriaViva(db.categorias, old(db.nextCategoriaId))
              && db.categorias[old(db.nextCategoriaId)].nombre == Trim(nombre.s)
              && LiveSubcatNames(db.subcategorias, old(db.nextCategoriaId)) == set n | n in subcategorias.items
  {
    var v := ValidarCategoria(nombre, subcategorias);
    if v.Failure? {
      return v.error;
    }
    var r := CrearCategoriaConSubcategorias(db, v.value.0, v.value.1);
    resp := RespuestaCrear(r);
  }

  /** `actualizarCategoria`: validation, then the model's reconciliation. A missing or
      deleted category is reported by the model's plain error, hence by a 500. */
  method ActualizarCategoria(db: Database, id: nat, nombre: Campo, subcategorias: Campo) returns (resp: Respuesta)
    requires db.Valid()
    modifies db
    ensures db.Valid()
    ensures ValidarCategoria(nombre, subcategorias).Failure? ==>
              resp == ValidarCategoria(nombre, subcategorias).error && unchanged(db)
    ensures resp.status != 200 ==> unchanged(db)
    ensures ValidarCategoria(nombre, subcategorias).Success? && !CategoriaViva(old(db.categorias), id) ==>
              resp == Respuesta(500, Mensaje(CategoriaNoExiste.message))
    ensures resp.status == 200 ==>
              && ValidarCategoria(nombre, subcategorias).Success?
              && db.categorias == old(db.categorias)[id := Categoria(Trim(nombre.s), false)]
              && db.subcategorias == Reconciled(old(db.subcategorias), id, old(db.nextSubcategoriaId), subcategorias.items)
  {
    var v := ValidarCategoria(nombre, subcategorias);
    if v.Failure? {
      return v.error;
    }
    var r := ActualizarCategoriaConSubcategorias(db, id, v.value.0, v.value.1);
    resp := RespuestaActualizar(id, r);
  }

  /** `eliminarCategoria`. */
  method EliminarCategoriaHandler(db: Database, id: nat) returns (resp: Respuesta)
    requires db.Valid()
    modifies db
    ensures db.Valid()
    ensures resp.status == 400 <==> CategoriaEnUso(old(db.cuadros), old(db.subcategorias), id)
    ensures resp.status == 400 ==> unchanged(db)
    ensures resp.status == 404 <==> !CategoriaEnUso(old(db.cuadros), old(db.subcategorias), id) && id !in old(db.categorias)
    ensures resp.status == 200 <==> !CategoriaEnUso(old(db.cuadros), old(db.subcategorias), id) && id in old(db.categorias)
    ensures resp.status == 200 ==> !CategoriaViva(db.categorias, id) && LiveSubcatIds(db.subcategorias, id) == {}
  {
    var r := EliminarCategoria(db, id);
    resp := RespuestaEliminar(r);
  }

  /** `obtenerSubcategoriasPorCategoria`: `categoria_id` is required; the answer is the
      list the model returns (`None` stands for a missing or empty query parameter). */
  function ObtenerSubcategoriasPorCategoria(db: Database, categoriaId: Option<nat>)
    : (r: Result<seq<SubcategoriaFila>, Respuesta>)
    reads db
    requires db.Valid()
    ensures categoriaId.None? <==> r.Failure?
    ensures r.Failure? ==> r.error == Respuesta(400, Mensaje("El parámetro 'categoria_id' es requerido."))
    ensures r.Success? ==> forall i :: 0 <= i < |r.value| ==>
              r.value[i].categoriaId == categoriaId.value && r.value[i].id in LiveSubcatIds(db.subcategorias, categoriaId.value)
  {
    if categoriaId.None? then Failure(Respuesta(400, Mensaje("El parámetro 'categoria_id' es requerido.")))
    else Success(SubcategoriasPorCategoria(db, categoriaId.value))
  }
}
