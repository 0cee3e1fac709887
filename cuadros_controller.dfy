/** `src/controllers/cuadrosController.js`: the update guard, the choice of image and the
    responses of the update and delete endpoints. Neither handler has a `try`: an error the
    model throws reaches Express's default handler. */
module CuadrosController {
  import opened Wrappers
  import opened Strings
  import opened Db
  import opened Http
  import opened CuadrosModel

  /** The path an uploaded picture is served from. */
  function RutaImagen(filename: string): (r: string)
    ensures |r| == 9 + |filename| && r[..9] == "/uploads/" && r[9..] == filename
  {
    "/uploads/" + filename
  }

  /** The image of an updated cuadro: the upload if a file was sent, else the image of
      the live row (`cuadroExistente?.imagen || null`: an empty or missing one is null). */
  function ImagenActualizacion(archivo: Option<string>, existente: Option<Cuadro>): (img: Option<string>)
    ensures archivo.Some? ==> img == Some(RutaImagen(archivo.value))
    ensures archivo.None? && existente.Some? && Truthy(existente.value.imagen) ==> img == existente.value.imagen
    ensures archivo.None? && !(existente.Some? && Truthy(existente.value.imagen)) ==> img.None?
    ensures img.Some? ==> img.value != "" || archivo.Some?
  {
    if archivo.Some? then Some(RutaImagen(archivo.value))
    else if existente.Some? && Truthy(existente.value.imagen) then existente.value.imagen
    else None
  }

  /** The response of `actualizarCuadro` once the model was called. */
  function RespuestaActualizar(r: Result<bool, DbError>): (resp: Respuesta)
    ensures resp.status == 200 <==> r == Success(true)
    ensures resp.status == 404 <==> r == Success(false)
    ensures r.Failure? ==> resp == NoCapturada
  {
    match r
    case Success(true) => Respuesta(200, Mensaje("Cuadro actualizado correctamente"))
    case Success(false) => Respuesta(404, Error("Cuadro no encontrado"))
    case Failure(_) => NoCapturada
  }

  /** `actualizarCuadro`: without a subcategory, 400 and the model is not called;
      otherwise the row is updated if it is live (200) and the answer is 404 if it is not.
      A live row with no title, or with a subcategory that does not exist, makes the model
      throw, which Express answers with 500. `subcategoria` is `None` for a missing or
      empty form field, `titulo` for a missing one. */
  method ActualizarCuadroHandler(db: Database, id: nat, titulo: Option<string>, descripcion: Option<string>,
                                 subcategoria: Option<nat>, archivo: Option<string>)
    returns (resp: Respuesta)
    requires db.Valid()
    modifies db
    ensures db.Valid()
    ensures subcategoria.None? ==>
              resp == Respuesta(400, Error("Debes seleccionar una subcategoría")) && unchanged(db)
    ensures resp.status != 200 ==> unchanged(db)
    ensures resp.status == 404 <==> subcategoria.Some? && id !in LiveCuadroIds(old(db.cuadros))
    ensures resp.status == 200 <==>
              && subcategoria.Some? && id in LiveCuadroIds(old(db.cuadros)) && titulo.Some?
              && subcategoria.value in old(db.subcategorias)
    ensures subcategoria.Some? && id in LiveCuadroIds(old(db.cuadros)) && titulo.None? ==> resp == NoCapturada
    ensures subcategoria.Some? && id in LiveCuadroIds(old(db.cuadros)) && subcategoria.value !in old(db.subcategorias) ==>
              resp == NoCapturada
    ensures resp.status == 200 ==>
              db.cuadros == old(db.cuadros)[id := old(db.cuadros)[id].(titulo := titulo.value, descripcion := descripcion,
                imagen := ImagenActualizacion(archivo, old(ObtenerCuadro(db, id))), subcategoriaId := subcategoria.value)]
  {
    if subcategoria.None? {
      return Respuesta(400, Error("Debes seleccionar una subcategoría"));
    }
    var imagen := ImagenActualizacion(archivo, ObtenerCuadro(db, id));
    var r := ActualizarCuadro(db, id, titulo, descripcion, imagen, subcategoria.value);
    resp := RespuestaActualizar(r);
  }

  /** The response of `eliminarCuadro`. */
  function RespuestaEliminar(ok: bool): (resp: Respuesta)
    ensures resp.status == 200 <==> ok
    ensures resp.status == 404 <==> !ok
  {
    if ok then Respuesta(200, Mensaje("Cuadro eliminado correctamente"))
    else Respuesta(404, Error("Cuadro no encontrado o ya eliminado"))
  }

  /** `eliminarCuadro`: 200 for any existing row, an already-deleted one included; 404
      for an id no row has. */
  method EliminarCuadroHandler(db: Database, id: nat) returns (resp: Respuesta)
    requires db.Valid()
    modifies db
    ensures db.Valid()
    ensures resp.status == 200 <==> id in old(db.cuadros)
    ensures resp.status == 404 <==> id !in old(db.cuadros)
    ensures id !in LiveCuadroIds(db.cuadros)
  {
    var ok := EliminarCuadro(db, id);
    resp := RespuestaEliminar(ok);
  }
}
