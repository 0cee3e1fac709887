/** What a controller sees of an Express request and what it sends back: the status and
    the body (a JSON object, a redirect or a rendered view). */
module Http {
  import opened Wrappers
  import opened Strings
  import opened UsuariosModel

  /** A field of a parsed request body: absent, a string, or an array of strings. */
  datatype Campo = Ausente | Texto(s: string) | Lista(items: seq<string>)

  /** The field is truthy in JavaScript: a non-empty string or any array. */
  predicate CampoTruthy(c: Campo) {
    (c.Texto? && c.s != "") || c.Lista?
  }

  /** The body of a response. */
  datatype Cuerpo =
    | Mensaje(message: string)                               // json({ message })
    | MensajeId(message: string, id: nat)                    // json({ message, id })
    | MensajeUsuario(message: string, usuario: UsuarioCreado) // json({ message, usuario })
    | Error(error: string)                                  // json({ error })
    | RedirectTo(url: string)                                // json({ redirectTo })
    | Redirect(location: string)                             // res.redirect(location)
    | Vista(vista: string, aviso: Option<string>)            // res.render(vista, { error })
    | ErrorNoCapturado                                       // Express's default handler for a throw

  datatype Respuesta = Respuesta(status: nat, cuerpo: Cuerpo)

  /** `res.redirect(location)`: a 302 with the location. */
  function Redireccion(location: string): Respuesta {
    Respuesta(302, Redirect(location))
  }

  /** An exception that no `try` catches reaches Express's default error handler. */
  const NoCapturada := Respuesta(500, ErrorNoCapturado)
}
