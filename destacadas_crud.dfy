/** `public/js/destacadasCRUD.js`: the panel of "featured" checkboxes, one per category,
    with its cap of four checked boxes and its save button. The boxes are kept in document
    order as their `value` attributes and their checked states. */
module DestacadasCrud {
  import opened Wrappers
  import opened Strings

  /** The cap the change handler enforces. */
  const MaxDestacadas := 4

  /** A category as `/api/categorias` lists it, reduced to what the panel uses. */
  datatype CategoriaCargada = CategoriaCargada(id: nat, destacada: bool)

  /** A `notyf` notification. */
  datatype Aviso = Exito(texto: string) | Fallo(texto: string)

  /** The label of the save button. */
  datatype Etiqueta = GuardarCambios | Guardando

  /** How the save request ended: accepted; answered with an error status, whose JSON
      body may carry a message; or failed before an answer (its error's message). */
  datatype ResultadoGuardado = Guardado | Rechazado(message: Option<string>) | SinRespuesta(error: string)

  /** The paragraph shown instead of boxes. */
  datatype Nota = NoHayCategorias | ErrorCarga(message: string)

  /** The number of checked boxes (`$$('input[name="destacada"]:checked').length`). */
  function Marcadas(checked: seq<bool>): (n: nat)
    ensures n <= |checked|
  {
    if checked == [] then 0 else (if checked[0] then 1 else 0) + Marcadas(checked[1..])
  }

  /** Setting one box changes the count by that box alone. */
  lemma {:induction false} MarcadasActualizar(checked: seq<bool>, i: nat, b: bool)
    requires i < |checked|
    ensures Marcadas(checked[i := b]) == Marcadas(checked) - (if checked[i] then 1 else 0) + (if b then 1 else 0)
  {
    if i > 0 {
      assert checked[i := b][1..] == checked[1..][i - 1 := b];
      MarcadasActualizar(checked[1..], i - 1, b);
    } else {
      assert checked[i := b][1..] == checked[1..];
    }
  }

  /** The values of the checked boxes, in document order, through `parseInt(v, 10)`. */
  function IdsMarcados(values: seq<string>, checked: seq<bool>): (r: seq<Option<int>>)
    requires |values| == |checked|
    ensures |r| == Marcadas(checked)
  {
    if values == [] then []
    else (if checked[0] then [ParseInt(values[0])] else []) + IdsMarcados(values[1..], checked[1..])
  }

  /** The `value` attribute of each box: `${cat.id}`. */
  function Valores(cats: seq<CategoriaCargada>): (r: seq<string>)
    ensures |r| == |cats| && forall k :: 0 <= k < |cats| ==> r[k] == NatToDecimal(cats[k].id)
  {
    seq(|cats|, k requires 0 <= k < |cats| => NatToDecimal(cats[k].id))
  }

  /** The initial checked state of each box: `is_featured`. */
  function Estados(cats: seq<CategoriaCargada>): (r: seq<bool>)
    ensures |r| == |cats| && forall k :: 0 <= k < |cats| ==> r[k] == cats[k].destacada
  {
    seq(|cats|, k requires 0 <= k < |cats| => cats[k].destacada)
  }

  /** The ids of the featured categories, in the order the API listed them. */
  function IdsDestacadas(cats: seq<CategoriaCargada>): seq<Option<int>> {
    if cats == [] then [] else (if cats[0].destacada then [Some(cats[0].id)] else []) + IdsDestacadas(cats[1..])
  }

  /** Saving right after loading sends exactly the ids of the featured categories: each
      box's value parses back to its category's id. */
  lemma {:induction false} GuardarTrasCargar(cats: seq<CategoriaCargada>)
    ensures IdsMarcados(Valores(cats), Estados(cats)) == IdsDestacadas(cats)
  {
    if cats != [] {
      assert Valores(cats)[1..] == Valores(cats[1..]);
      assert Estados(cats)[1..] == Estados(cats[1..]);
      ParseIntOfDecimal(cats[0].id);
      GuardarTrasCargar(cats[1..]);
    }
  }

  /** The notification the save handler ends with. */
  function AvisoDe(r: ResultadoGuardado): (a: Aviso)
    ensures a.Exito? <==> r.Guardado?
    ensures r.Rechazado? && Truthy(r.message) ==> a == Fallo(r.message.value)
    ensures r.Rechazado? && !Truthy(r.message) ==> a == Fallo("Error al guardar")
    ensures r.SinRespuesta? ==> a == Fallo(r.error)
  {
    match r
    case Guardado => Exito("Categorías destacadas actualizadas.")
    case Rechazado(m) => Fallo(if Truthy(m) then m.value else "Error al guardar")
    case SinRespuesta(e) => Fallo(e)
  }

  class PanelDestacadas {
    /** The boxes, in document order. */
    var valores: seq<string>
    var marcadas: seq<bool>
    /** The paragraph shown when there are no boxes. */
    var nota: Option<Nota>
    /** The save button. */
    var deshabilitado: bool
    var etiqueta: Etiqueta
    /** The notifications shown so far. */
    var avisos: seq<Aviso>

    ghost predicate Valid()
      reads this`valores, this`marcadas
    {
      |valores| == |marcadas|
    }

    constructor ()
      ensures Valid() && valores == [] && marcadas == [] && nota.None?
      ensures !deshabilitado && etiqueta == GuardarCambios && avisos == []
    {
      valores, marcadas, nota := [], [], None;
      deshabilitado, etiqueta, avisos := false, GuardarCambios, [];
    }

    /** `renderCheckboxes`: one box per category, checked iff featured; the note when the
        list is empty. */
    method RenderCheckboxes(cats: seq<CategoriaCargada>)
      modifies this
      ensures Valid()
      ensures valores == Valores(cats) && marcadas == Estados(cats)
      ensures nota == if cats == [] then Some(NoHayCategorias) else None
      ensures deshabilitado == old(deshabilitado) && etiqueta == old(etiqueta) && avisos == old(avisos)
    {
      valores, marcadas, nota := [], [], None;
      if |cats| == 0 {
        nota := Some(NoHayCategorias);
        return;
      }
      var vs, ms := [], [];
      var k := 0;
      while k < |cats|
        invariant 0 <= k <= |cats|
        invariant vs == Valores(cats[..k]) && ms == Estados(cats[..k])
      {
        vs, ms := vs + [NatToDecimal(cats[k].id)], ms + [cats[k].destacada];
        k := k + 1;
      }
      assert cats[..k] == cats;
      valores, marcadas := vs, ms;
    }

    /** `loadCategories`, given what the request produced: the list, or the message of the
        error it threw (a non-OK answer throws 'No se pudieron cargar las categorías'). */
    method LoadCategories(r: Result<seq<CategoriaCargada>, string>)
      modifies this
      ensures Valid()
      ensures r.Success? ==> valores == Valores(r.value) && marcadas == Estados(r.value)
      ensures r.Failure? ==> valores == [] && marcadas == [] && nota == Some(ErrorCarga(r.error))
      ensures deshabilitado == old(deshabilitado) && etiqueta == old(etiqueta) && avisos == old(avisos)
    {
      if r.Success? {
        RenderCheckboxes(r.value);
      } else {
        valores, marcadas, nota := [], [], Some(ErrorCarga(r.error));
      }
    }

    /** The `change` handler, after the browser toggled box `i`: when more than four boxes
        are checked it shows an error and unchecks box `i`; otherwise nothing changes. */
    method OnChange(i: nat)
      requires Valid() && i < |marcadas|
      modifies this
      ensures Valid() && valores == old(valores)
      ensures Marcadas(old(marcadas)) > MaxDestacadas ==>
                marcadas == old(marcadas)[i := false] &&
                avisos == old(avisos) + [Fallo("Solo puedes seleccionar hasta 4 categorías.")]
      ensures Marcadas(old(marcadas)) <= MaxDestacadas ==> marcadas == old(marcadas) && avisos == old(avisos)
      ensures deshabilitado == old(deshabilitado) && etiqueta == old(etiqueta) && nota == old(nota)
    {
      if Marcadas(marcadas) > MaxDestacadas {
        avisos := avisos + [Fallo("Solo puedes seleccionar hasta 4 categorías.")];
        marcadas := marcadas[i := false];
      }
    }

    /** A click on box `i`: the browser toggles it, then the `change` handler runs. From at
        most four checked boxes there are never more: checking a fifth (or more) is undone
        at once, while unchecking, or checking up to the fourth, stays. */
    method Click(i: nat)
      requires Valid() && i < |marcadas|
      modifies this
      ensures Valid() && valores == old(valores)
      ensures Marcadas(old(marcadas)) <= MaxDestacadas ==> Marcadas(marcadas) <= MaxDestacadas
      ensures !old(marcadas)[i] && Marcadas(old(marcadas)) >= MaxDestacadas ==> marcadas == old(marcadas)
      ensures !old(marcadas)[i] && Marcadas(old(marcadas)) < MaxDestacadas ==> marcadas == old(marcadas)[i := true]
      ensures old(marcadas)[i] ==> marcadas == old(marcadas)[i := false]
      ensures deshabilitado == old(deshabilitado) && etiqueta == old(etiqueta) && nota == old(nota)
    {
      MarcadasActualizar(marcadas, i, !marcadas[i]);
      marcadas := marcadas[i := !marcadas[i]];
      OnChange(i);
      MarcadasActualizar(old(marcadas)[i := !old(marcadas)[i]], i, false);
    }

    /** The save handler up to the request: the body's `ids` are the checked values parsed
        as base-10 integers, in document order; the button is disabled and relabelled. */
    method IniciarGuardado() returns (ids: seq<Option<int>>)
      requires Valid()
      modifies this
      ensures Valid()
      ensures ids == IdsMarcados(valores, marcadas) && |ids| == Marcadas(marcadas)
      ensures deshabilitado && etiqueta == Guardando
      ensures valores == old(valores) && marcadas == old(marcadas) && nota == old(nota) && avisos == old(avisos)
    {
      ids := IdsMarcados(valores, marcadas);
      deshabilitado := true;
      etiqueta := Guardando;
    }

    /** The rest of the save handler, whatever the request's outcome: one notification,
        then the `finally` that re-enables the button. */
    method TerminarGuardado(r: ResultadoGuardado)
      modifies this
      ensures !deshabilitado && etiqueta == GuardarCambios
      ensures avisos == old(avisos) + [AvisoDe(r)]
      ensures valores == old(valores) && marcadas == old(marcadas) && nota == old(nota)
    {
      avisos := avisos + [AvisoDe(r)];
      deshabilitado := false;
      etiqueta := GuardarCambios;
    }
  }
}
