/** `public/js/categoriasCRUD.js`: the category form of the admin page. The module-level
    `subcategorias` array, the rendered subcategory rows, the hidden inputs the form
    submits and the inputs and messages the handlers touch are the fields of one class;
    `escapeHtml` is a function. */
module CategoriasCrud {
  import opened Wrappers
  import opened Strings
  import opened JsArrays

  // ---------------------------------------------------------------------------
  // escapeHtml
  // ---------------------------------------------------------------------------

  /** The entity written for one character. */
  function EscapeChar(c: char): string {
    if c == '&' then "&amp;"
    else if c == '<' then "&lt;"
    else if c == '>' then "&gt;"
    else if c == '"' then "&quot;"
    else if c == '\'' then "&#039;"
    else [c]
  }

  /** Each character replaced by its entity: the reference meaning of `escapeHtml`. */
  function EscapeChars(s: string): string {
    if s == [] then [] else EscapeChar(s[0]) + EscapeChars(s[1..])
  }

  /** The five global replacements of `escapeHtml`, `&` first. */
  function ReplaceChain(s: string): string {
    ReplaceAll(ReplaceAll(ReplaceAll(ReplaceAll(ReplaceAll(s, '&', "&amp;"), '<', "&lt;"), '>', "&gt;"),
               '"', "&quot;"), '\'', "&#039;")
  }

  /** `escapeHtml(unsafe)` on a string: the chain of replacements, which escapes each
      character once (the `&` of an entity written by a later step is not escaped again);
      no `<`, `>`, `"` or `'` is left. */
  function EscapeHtml(s: string): (r: string)
    ensures r == EscapeChars(s)
    ensures '<' !in r && '>' !in r && '"' !in r && '\'' !in r
  {
    ChainIsPerChar(s);
    NoSpecials(s);
    ReplaceChain(s)
  }

  /** `escapeHtml(unsafe)` on any value: `None` stands for a value that is not a string,
      for which the result is empty. */
  function EscapeHtmlValue(v: Option<string>): (r: string)
    ensures v.None? ==> r == ""
    ensures v.Some? ==> r == EscapeHtml(v.value)
  {
    if v.None? then "" else EscapeHtml(v.value)
  }

  lemma SingleReplace(c: char, d: char, e: string)
    ensures ReplaceAll([c], d, e) == if c == d then e else [c]
  {
    assert [c][1..] == [];
  }

  /** The chain on one character, for any entities each free of the characters replaced after it. */
  lemma ChainGen(c: char, e1: string, e2: string, e3: string, e4: string, e5: string)
    requires '<' !in e1 && '>' !in e1 && '"' !in e1 && '\'' !in e1
    requires '>' !in e2 && '"' !in e2 && '\'' !in e2
    requires '"' !in e3 && '\'' !in e3
    requires '\'' !in e4
    ensures ReplaceAll(ReplaceAll(ReplaceAll(ReplaceAll(ReplaceAll([c], '&', e1), '<', e2), '>', e3), '"', e4), '\'', e5)
         == if c == '&' then e1 else if c == '<' then e2 else if c == '>' then e3
            else if c == '"' then e4 else if c == '\'' then e5 else [c]
  {
    SingleReplace(c, '&', e1);
    if c == '&' {
      ReplaceAllAbsent(e1, '<', e2);
      ReplaceAllAbsent(e1, '>', e3);
      ReplaceAllAbsent(e1, '"', e4);
      ReplaceAllAbsent(e1, '\'', e5);
    } else {
      SingleReplace(c, '<', e2);
      if c == '<' {
        ReplaceAllAbsent(e2, '>', e3);
        ReplaceAllAbsent(e2, '"', e4);
        ReplaceAllAbsent(e2, '\'', e5);
      } else {
        SingleReplace(c, '>', e3);
        if c == '>' {
          ReplaceAllAbsent(e3, '"', e4);
          ReplaceAllAbsent(e3, '\'', e5);
        } else {
          SingleReplace(c, '"', e4);
          if c == '"' {
            ReplaceAllAbsent(e4, '\'', e5);
          } else {
            SingleReplace(c, '\'', e5);
          }
        }
      }
    }
  }

  lemma ChainOfChar(c: char)
    ensures ReplaceChain([c]) == EscapeChar(c)
  {
    ChainGen(c, "&amp;", "&lt;", "&gt;", "&quot;", "&#039;");
  }

  lemma ChainAppend(a: string, b: string)
    ensures ReplaceChain(a + b) == ReplaceChain(a) + ReplaceChain(b)
  {
    var a1, b1 := ReplaceAll(a, '&', "&amp;"), ReplaceAll(b, '&', "&amp;");
    ReplaceAllAppend(a, b, '&', "&amp;");
    var a2, b2 := ReplaceAll(a1, '<', "&lt;"), ReplaceAll(b1, '<', "&lt;");
    ReplaceAllAppend(a1, b1, '<', "&lt;");
    var a3, b3 := ReplaceAll(a2, '>', "&gt;"), ReplaceAll(b2, '>', "&gt;");
    ReplaceAllAppend(a2, b2, '>', "&gt;");
    var a4, b4 := ReplaceAll(a3, '"', "&quot;"), ReplaceAll(b3, '"', "&quot;");
    ReplaceAllAppend(a3, b3, '"', "&quot;");
    ReplaceAllAppend(a4, b4, '\'', "&#039;");
  }

  /** The chain of replacements escapes character by character. */
  lemma {:induction false} ChainIsPerChar(s: string)
    ensures ReplaceChain(s) == EscapeChars(s)
  {
    if s == [] {
    } else {
      assert s == [s[0]] + s[1..];
      ChainAppend([s[0]], s[1..]);
      ChainOfChar(s[0]);
      ChainIsPerChar(s[1..]);
    }
  }

  lemma EscapeCharSafe(c: char)
    ensures var e := EscapeChar(c); '<' !in e && '>' !in e && '"' !in e && '\'' !in e
  {
  }

  lemma {:induction false} NoSpecials(s: string)
    ensures var r := EscapeChars(s); '<' !in r && '>' !in r && '"' !in r && '\'' !in r
  {
    if s != [] {
      EscapeCharSafe(s[0]);
      NoSpecials(s[1..]);
    }
  }

  /** The entity at the front of `s`, decoded, if there is one. */
  function EntityAt(s: string): (r: Option<(char, nat)>)
    ensures r.Some? ==> 0 < r.value.1 <= |s|
  {
    if |s| >= 5 && s[..5] == "&amp;" then Some(('&', 5))
    else if |s| >= 4 && s[..4] == "&lt;" then Some(('<', 4))
    else if |s| >= 4 && s[..4] == "&gt;" then Some(('>', 4))
    else if |s| >= 6 && s[..6] == "&quot;" then Some(('"', 6))
    else if |s| >= 6 && s[..6] == "&#039;" then Some(('\'', 6))
    else None
  }

  /** What a browser shows for escaped text: the five entities decoded. */
  function Unescape(s: string): string
    decreases |s|
  {
    if s == [] then []
    else
      var e := EntityAt(s);
      if e.Some? then [e.value.0] + Unescape(s[e.value.1..]) else [s[0]] + Unescape(s[1..])
  }

  lemma UnescapeChar(c: char, t: string)
    ensures Unescape(EscapeChar(c) + t) == [c] + Unescape(t)
  {
    var e := EscapeChar(c);
    var s := e + t;
    assert s[..|e|] == e && s[|e|..] == t;
    assert s[0] == e[0];
    if |s| >= 4 { assert s[..4][1] == s[1]; }
    if |s| >= 5 { assert s[..5][1] == s[1]; }
    if |s| >= 6 { assert s[..6][1] == s[1]; }
    if c == '&' || c == '<' || c == '>' || c == '"' || c == '\'' {
      assert s[1] == e[1];
      assert EntityAt(s) == Some((c, |e|));
    } else {
      assert s[0] == c && s[1..] == t;
      if |s| >= 4 { assert s[..4][0] == c; }
      if |s| >= 5 { assert s[..5][0] == c; }
      if |s| >= 6 { assert s[..6][0] == c; }
      assert EntityAt(s).None?;
    }
  }

  /** A name rendered with `escapeHtml` reads back as the name itself. */
  lemma {:induction false} UnescapeEscape(s: string)
    ensures Unescape(EscapeHtml(s)) == s
  {
    if s != [] {
      assert EscapeChars(s) == EscapeChar(s[0]) + EscapeChars(s[1..]);
      UnescapeChar(s[0], EscapeChars(s[1..]));
      UnescapeEscape(s[1..]);
    }
  }

  // ---------------------------------------------------------------------------
  // The subcategory list editor
  // ---------------------------------------------------------------------------

  /** No two entries are equal ignoring case. */
  predicate SinDuplicados(list: seq<string>) {
    forall i, j :: 0 <= i < j < |list| ==> !EqualsIgnoringCase(list[i], list[j])
  }

  /** Some entry equals `val` ignoring case (`subcategorias.some(...)`). */
  predicate ExisteIgnorandoCaso(list: seq<string>, val: string) {
    exists i :: 0 <= i < |list| && EqualsIgnoringCase(list[i], val)
  }

  /** The list after `addSubcategoria` with `input` in the text box: the trimmed value is
      appended unless it is empty or already there ignoring case. */
  function Agregar(list: seq<string>, input: string): (r: seq<string>)
    ensures |Trim(input)| == 0 || ExisteIgnorandoCaso(list, Trim(input)) ==> r == list
    ensures |Trim(input)| != 0 && !ExisteIgnorandoCaso(list, Trim(input)) ==> r == list + [Trim(input)]
  {
    var val := Trim(input);
    if |val| == 0 || ExisteIgnorandoCaso(list, val) then list else list + [val]
  }

  /** Additions never introduce a case-insensitive duplicate. */
  lemma AgregarSinDuplicados(list: seq<string>, input: string)
    requires SinDuplicados(list)
    ensures SinDuplicados(Agregar(list, input))
  {
    var r := Agregar(list, input);
    if r != list {
      forall i, j | 0 <= i < j < |r| ensures !EqualsIgnoringCase(r[i], r[j]) {
        if j == |list| {
          assert r[i] == list[i] && r[j] == Trim(input);
        } else {
          assert r[i] == list[i] && r[j] == list[j];
        }
      }
    }
  }

  /** Removing an entry never introduces a duplicate either. */
  lemma QuitarSinDuplicados(list: seq<string>, idx: int)
    requires SinDuplicados(list)
    ensures SinDuplicados(SpliceOne(list, idx))
  {
    var k := SpliceStart(|list|, idx);
    var r := SpliceOne(list, idx);
    if k < |list| {
      forall i, j | 0 <= i < j < |r| ensures !EqualsIgnoringCase(r[i], r[j]) {
        var i' := if i < k then i else i + 1;
        var j' := if j < k then j else j + 1;
        assert r[i] == list[i'] && r[j] == list[j'];
      }
    }
  }

  /** The entries escaped, one table row each. */
  function Filas(list: seq<string>): (r: seq<string>)
    ensures |r| == |list|
    ensures forall i :: 0 <= i < |list| ==> r[i] == EscapeHtml(list[i])
  {
    seq(|list|, i requires 0 <= i < |list| => EscapeHtml(list[i]))
  }

  /** The request the submit handler sends. */
  datatype Peticion = Peticion(metodo: string, url: string, nombre: string, subcategorias: seq<string>)

  /** The texts the message under the subcategory input takes. */
  datatype AvisoSubcat = Ayuda | Vacia | Duplicada | AlMenosUna

  function TextoAviso(a: AvisoSubcat): string {
    match a
    case Ayuda => "Presiona Enter o 'Agregar' para añadir a la lista."
    case Vacia => "La subcategoría no puede estar vacía."
    case Duplicada => "La subcategoría ya existe."
    case AlMenosUna => "Debes añadir al menos una subcategoría."
  }

  class CategoryForm {
    /** The module-level `subcategorias` array. */
    var subcategorias: seq<string>
    /** The text of the rendered rows of the subcategory table. */
    var filas: seq<string>
    /** Whether the "no subcategories" message is shown. */
    var sinSubcatVisible: bool
    /** The values of the form's `subcategorias[]` hidden inputs, in document order. */
    var hidden: seq<string>
    /** The inputs: category name, new subcategory, hidden category id. */
    var categoriaNombre: string
    var subcatInput: string
    var categoriaId: string
    /** The two messages under the inputs; the text of the first is `TextoAviso(subcatError)`. */
    var subcatError: AvisoSubcat
    var subcatErrorVisible: bool
    var categoriaErrorVisible: bool

    /** What every handler keeps: the table shows the list, and whenever the list is not
        empty the hidden inputs hold it (rendering an empty list returns before
        rebuilding them, so they may then be stale). */
    ghost predicate Valid()
      reads this`subcategorias, this`filas, this`sinSubcatVisible, this`hidden
    {
      && filas == Filas(subcategorias)
      && (sinSubcatVisible <==> subcategorias == [])
      && (subcategorias != [] ==> hidden == subcategorias)
    }

    constructor ()
      ensures Valid() && subcategorias == [] && hidden == [] && categoriaId == ""
      ensures categoriaNombre == "" && subcatInput == ""
    {
      subcategorias, filas, sinSubcatVisible, hidden := [], [], true, [];
      categoriaNombre, subcatInput, categoriaId := "", "", "";
      subcatError, subcatErrorVisible, categoriaErrorVisible := Ayuda, false, false;
    }

    /** `syncHiddenInputs`: removes the old hidden inputs and appends one per entry. */
    method SyncHiddenInputs()
      modifies this
      ensures hidden == subcategorias
      ensures subcategorias == old(subcategorias) && filas == old(filas) && sinSubcatVisible == old(sinSubcatVisible)
      ensures categoriaNombre == old(categoriaNombre) && subcatInput == old(subcatInput)
      ensures categoriaId == old(categoriaId) && subcatError == old(subcatError)
      ensures subcatErrorVisible == old(subcatErrorVisible) && categoriaErrorVisible == old(categoriaErrorVisible)
    {
      var inputs := [];
      var i := 0;
      while i < |subcategorias|
        invariant 0 <= i <= |subcategorias|
        invariant inputs == subcategorias[..i]
      {
        inputs := inputs + [subcategorias[i]];
        i := i + 1;
      }
      hidden := inputs;
    }

    /** `renderSubcats`: rebuilds the table from the list; for a non-empty list also the
        hidden inputs. */
    method RenderSubcats()
      modifies this
      ensures Valid()
      ensures subcategorias == old(subcategorias)
      ensures subcategorias == [] ==> hidden == old(hidden)
      ensures categoriaNombre == old(categoriaNombre) && subcatInput == old(subcatInput)
      ensures categoriaId == old(categoriaId) && subcatError == old(subcatError)
      ensures subcatErrorVisible == old(subcatErrorVisible) && categoriaErrorVisible == old(categoriaErrorVisible)
    {
      filas := [];
      if |subcategorias| == 0 {
        sinSubcatVisible := true;
        return;
      }
      sinSubcatVisible := false;
      var rows := [];
      var i := 0;
      while i < |subcategorias|
        invariant 0 <= i <= |subcategorias|
        invariant rows == Filas(subcategorias[..i])
      {
        rows := rows + [EscapeHtml(subcategorias[i])];
        i := i + 1;
      }
      assert subcategorias[..i] == subcategorias;
      filas := rows;
      SyncHiddenInputs();
    }

    /** `addSubcategoria`: appends the trimmed text unless it is empty (error) or already in
        the list ignoring case (error), which keep the typed text; on success clears the
        text box, restores the help text and leaves that line's visibility alone. */
    method AddSubcategoria()
      requires Valid()
      modifies this
      ensures Valid()
      ensures subcategorias == Agregar(old(subcategorias), old(subcatInput))
      ensures |Trim(old(subcatInput))| == 0 ==>
                subcatError == Vacia && subcatErrorVisible
      ensures |Trim(old(subcatInput))| != 0 && ExisteIgnorandoCaso(old(subcategorias), Trim(old(subcatInput))) ==>
                subcatError == Duplicada && subcatErrorVisible
      ensures |Trim(old(subcatInput))| != 0 && !ExisteIgnorandoCaso(old(subcategorias), Trim(old(subcatInput))) ==>
                && subcatInput == "" && subcatError == Ayuda && subcatErrorVisible == old(subcatErrorVisible)
      ensures |Trim(old(subcatInput))| == 0 || ExisteIgnorandoCaso(old(subcategorias), Trim(old(subcatInput))) ==>
                subcatInput == old(subcatInput)
      ensures categoriaNombre == old(categoriaNombre) && categoriaId == old(categoriaId)
      ensures categoriaErrorVisible == old(categoriaErrorVisible)
    {
      var val := Trim(subcatInput);
      var existe := ExisteIgnorandoCaso(subcategorias, val);
      if |val| == 0 {
        subcatError, subcatErrorVisible := Vacia, true;
      } else if existe {
        subcatError, subcatErrorVisible := Duplicada, true;
      } else {
        subcatError := Ayuda;
        subcategorias := subcategorias + [val];
        subcatInput := "";
        RenderSubcats();
      }
    }

    /** The click handler of a row's remove button: `Number(data-index)`, `None` for NaN;
        `splice(idx, 1)` and a re-render. */
    method RemoveAt(idx: Option<int>)
      requires Valid()
      modifies this
      ensures Valid()
      ensures idx.None? ==> subcategorias == old(subcategorias)
      ensures idx.Some? ==> subcategorias == SpliceOne(old(subcategorias), idx.value)
      ensures categoriaNombre == old(categoriaNombre) && categoriaId == old(categoriaId)
      ensures subcatInput == old(subcatInput)
    {
      if idx.Some? {
        subcategorias := SpliceOne(subcategorias, idx.value);
        RenderSubcats();
      }
    }

    /** `validateForm`: true iff the trimmed name is not empty and the list is not empty;
        shows the message of each failed check. */
    method ValidateForm() returns (isValid: bool)
      requires Valid()
      modifies this
      ensures Valid()
      ensures isValid <==> |Trim(categoriaNombre)| != 0 && |subcategorias| > 0
      ensures categoriaErrorVisible <==> |Trim(categoriaNombre)| == 0
      ensures |subcategorias| == 0 ==> subcatError == AlMenosUna && subcatErrorVisible
      ensures subcategorias == old(subcategorias) && hidden == old(hidden)
      ensures categoriaNombre == old(categoriaNombre) && categoriaId == old(categoriaId)
      ensures subcatInput == old(subcatInput)
    {
      var nombreVacio := |Trim(categoriaNombre)| == 0;
      var sinSubcats := |subcategorias| == 0;
      isValid := !nombreVacio && !sinSubcats;
      categoriaErrorVisible, subcatError := nombreVacio, if sinSubcats then AlMenosUna else Ayuda;
      if sinSubcats {
        subcatErrorVisible := true;
      }
    }

    /** `clearForm`: empties the inputs and the list and hides the messages. */
    method ClearForm()
      modifies this
      ensures Valid()
      ensures subcategorias == [] && categoriaNombre == "" && subcatInput == ""
      ensures !categoriaErrorVisible && !subcatErrorVisible
      ensures categoriaId == old(categoriaId)
    {
      categoriaNombre := "";
      subcatInput := "";
      subcategorias := [];
      RenderSubcats();
      categoriaErrorVisible := false;
      subcatErrorVisible := false;
    }

    /** `setupCreateModal`: a cleared form with no category id. */
    method SetupCreateModal()
      modifies this
      ensures Valid()
      ensures subcategorias == [] && categoriaNombre == "" && categoriaId == ""
    {
      ClearForm();
      categoriaId := "";
    }

    /** `setupEditModal(data)`: a cleared form filled with the category's id, name and
        subcategory list. */
    method SetupEditModal(id: string, nombre: string, subs: seq<string>)
      modifies this
      ensures Valid()
      ensures subcategorias == subs && categoriaNombre == nombre && categoriaId == id
    {
      ClearForm();
      categoriaId := id;
      categoriaNombre := nombre;
      subcategorias := subs;
      RenderSubcats();
    }

    /** The submit handler up to the request: nothing is sent when validation fails;
        otherwise a PUT to `/api/categorias/<id>` when the hidden id is not empty and a
        POST to `/api/categorias` when it is, carrying the name as typed and the hidden
        inputs, which are exactly the list. */
    method Submit() returns (p: Option<Peticion>)
      requires Valid()
      modifies this
      ensures Valid()
      ensures p.Some? <==> |Trim(categoriaNombre)| != 0 && |subcategorias| > 0
      ensures p.Some? ==> p.value.subcategorias == subcategorias && p.value.nombre == categoriaNombre
      ensures p.Some? && categoriaId != "" ==> p.value.metodo == "PUT" && p.value.url == "/api/categorias/" + categoriaId
      ensures p.Some? && categoriaId == "" ==> p.value.metodo == "POST" && p.value.url == "/api/categorias"
      ensures subcategorias == old(subcategorias) && categoriaNombre == old(categoriaNombre)
      ensures categoriaId == old(categoriaId)
    {
      var ok := ValidateForm();
      if !ok {
        return None;
      }
      var isEditing := categoriaId != "";
      var url := if isEditing then "/api/categorias/" + categoriaId else "/api/categorias";
      var metodo := if isEditing then "PUT" else "POST";
      p := Some(Peticion(metodo, url, categoriaNombre, hidden));
    }
  }
}
