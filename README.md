# ArieX gallery — a verified model of the data layer, the request logic and the client state machines

ArieX is a server-rendered gallery with an admin area. Express controllers call a thin
SQLite data layer. Small browser scripts drive the admin forms and the public pages.
This project models in Dafny:

- **The database** (`Db.Database`). It is a class with one map per table (`usuarios`,
  `categorias`, `subcategorias`, `cuadros`), each from row id to row, each row with its
  soft-delete flag. Each table also has the next id its AUTOINCREMENT sequence hands out.
  `Valid()` holds the schema's constraints:
  - UNIQUE names of users and categories;
  - every foreign key points at an existing row;
  - every id lies below its counter.
- **The category data layer** (`CategoriasModel`). Create, update and delete are
  transactions: methods that either commit their whole effect or fail with the database
  unchanged. Update reconciles the subcategory list by name. The reads are functions.
- **The catalogue query and the cuadro and user rows** (`CuadrosModel`, `UsuariosModel`).
  The paginated catalogue clamps page and limit, filters through the joins, sorts newest
  first, slices one page and counts the pages. Password hashing is a function parameter.
- **The controllers** (`CategoriasController`, `UsuariosController`, `CuadrosController`,
  `AuthController`). They validate input and map model outcomes to a status and a body
  (`Http.Respuesta`). The login session is a small class.
- **The client scripts**:
  - `CategoriasCrud`: the subcategory list editor of the category form, and `escapeHtml`;
  - `DestacadasCrud`: the featured-categories panel with its cap of four;
  - `PublicLightbox`: the product-page lightbox;
  - `Catalogo`: the mobile page-limit redirect.

  Each script's mutable state is a class whose methods are the event handlers.

`Strings` and `JsArrays` hold the few JavaScript built-ins the code relies on:
- `trim`, `toLowerCase`, `endsWith` and `replace(/c/g, …)`;
- `parseInt` and the decimal form of a number;
- `filter` and `splice`.

### Where the model follows the code rather than the documented design

- The UPDATE-based soft deletes have no `is_deleted` filter. `eliminarCuadro`,
  `eliminarUsuario` and `eliminarCategoria` therefore report success for a row that was
  already deleted.
- The guard of `eliminarCategoria` joins subcategories without looking at their deleted
  flag. A live cuadro that points at an already deleted subcategory still blocks the
  delete.
- The form de-duplicates subcategories ignoring case. The server's reconciliation compares
  names exactly.
- Updating a category that does not exist answers 500, not 404. The model's error carries
  no FOREIGN KEY code, so the controller's catch falls through to 500.
- An array `nombre` makes `nombre.trim()` throw before the `try`. This gives Express's
  default 500 (`Http.NoCapturada`). `cuadrosController.actualizarCuadro` has no `try` at
  all, so a FOREIGN KEY failure there ends the same way, and so does an update of a live
  cuadro without `titulo`, which binds NULL against `titulo TEXT NOT NULL`.
- `renderSubcats` on an empty list returns before rebuilding the hidden inputs. The form
  invariant therefore only ties the hidden inputs to the list when the list is not empty.
  Submission is unaffected, because an empty list never passes validation.
- The PUT and DELETE category routes carry no authentication middleware. The routes are
  not modelled. The middleware predicates are modelled on their own.

## Model

| member | source | states |
|---|---|---|
| Db.Database.constructor | src/config/db.js:17-69 | A fresh database is consistent, has four empty tables, and every AUTOINCREMENT counter starts at 1 |
| Db.Database.CommitCategorias | src/models/categoriasModel.js:15-37 | Committing a category transaction installs exactly the new category and subcategory tables; users, cuadros and their counters stay as they were |
| Db.Database.CommitUsuarios | src/models/usuariosModel.js:10-11 | Committing a user write installs exactly the new user table; the other tables and counters stay as they were |
| Db.IdsDesc | src/models/categoriasModel.js:111 | `ORDER BY id DESC`: exactly the ids of the set below the bound, each once, strictly descending |
| Db.IdsAsc | src/models/categoriasModel.js:123 | The rowid order of a query without ORDER BY: exactly the ids of the set below the bound, strictly ascending |
| Db.IdsDescCard | src/models/categoriasModel.js:175 | `COUNT(*)` over a set of ids equals the length of the listing of that set |
| JsArrays.Filter | src/models/categoriasModel.js:67-68 | `Array.prototype.filter`: an element is in the result exactly when it is in the input and satisfies the predicate; never longer than the input |
| JsArrays.FilterCount | src/models/categoriasModel.js:68 | `filter` keeps every occurrence of a passing element, repeats included, and drops every occurrence of a failing one |
| JsArrays.SpliceOne | public/js/categoriasCRUD.js:237 | `splice(idx, 1)`: at an in-range start exactly that entry goes and the others keep their order; past the end nothing changes |
| Strings.Trim | src/controllers/categoriasController.js:52 | `String.prototype.trim`: empty exactly for an all-whitespace string, otherwise it neither starts nor ends with whitespace; `TrimIsSlice` pins its exact value |
| Strings.TrimIdempotent | public/js/categoriasCRUD.js:194 | Trimming a trimmed value changes nothing |
| Strings.TrimIsSlice | src/controllers/categoriasController.js:52 | Unless the input is all whitespace, the result is the input from its first non-whitespace character to its last: exactly the leading and the trailing whitespace are removed |
| Strings.AsciiLower | src/models/cuadrosModel.js:84 | SQLite's LIKE folding, one character for one; its meaning is stated by `AsciiLowerChanges`, `AsciiLowerIdempotent` and `LikeIgnoresCase` |
| Strings.JsToLowerCase | public/js/categoriasCRUD.js:208 | `toLowerCase`, one character for one; `JsToLowerCaseIdempotent` and `EqualsIgnoringCaseEquivalence` state what the duplicate check relies on |
| Strings.AsciiLowerChanges | src/models/cuadrosModel.js:84 | The folding changes exactly the upper-case ASCII letters, and leaves none in the result |
| Strings.AsciiLowerIdempotent | src/models/cuadrosModel.js:84 | Folding a folded string changes nothing |
| Strings.JsToLowerCaseIdempotent | public/js/categoriasCRUD.js:208 | Lower-casing a lower-cased string changes nothing |
| Strings.LikeIgnoresCase | src/models/cuadrosModel.js:84 | `LIKE '%term%'` gives the same answer whatever the ASCII case of the term or of the text |
| Strings.EqualsIgnoringCaseEquivalence | public/js/categoriasCRUD.js:208 | Comparing after `toLowerCase` is reflexive, symmetric and transitive, relates every string to its lower case, and only relates strings of the same length |
| Strings.ReplaceAllRemoves | public/js/categoriasCRUD.js:65-70 | After `replace(/c/g, e)` with a replacement free of `c`, no `c` is left |
| Strings.ParseInt | public/js/destacadasCRUD.js:51 | `parseInt(s, 10)` yields a number only when the string holds a digit |
| Strings.ParseIntOfDecimal | public/js/destacadasCRUD.js:51 | `parseInt` of a number's decimal form gives back that number |
| CategoriasModel.SubcategoriaEnUso | src/models/categoriasModel.js:77-78 | The in-use error carries the code `SQLITE_CONSTRAINT_FOREIGNKEY` |
| CategoriasModel.InsertSubcategorias | src/models/categoriasModel.js:29-31 | One new row per list entry, repeats included, with consecutive fresh ids, the entry's name, the category and the live flag; existing rows untouched |
| CategoriasModel.InsertedRows | src/models/categoriasModel.js:86-89 | Every row after the inserts is either an old row unchanged or a new live row of the category |
| CategoriasModel.InsertarSubcategorias | src/models/categoriasModel.js:29-31 | The insert loop computes exactly `InsertSubcategorias`, and the counter advances by the number of entries |
| CategoriasModel.FirstInUse | src/models/categoriasModel.js:75-80 | The position of the first subcategory to delete that a live cuadro uses; none before it is used |
| CategoriasModel.ToDelete | src/models/categoriasModel.js:62-67 | `subcatsToDelete` holds only live subcategories of the category; `ToDeleteMembers` gives the exact membership |
| CategoriasModel.ToDeleteMembers | src/models/categoriasModel.js:62-67 | An id is to be deleted exactly when it is a live subcategory of the category whose name is not in the new list, compared exactly |
| CategoriasModel.ToAdd | src/models/categoriasModel.js:62-68 | `subcatsToAdd` holds exactly the list names that no live subcategory of the category has; `ToAddOccurrences` gives the repeats |
| CategoriasModel.Reconciled | src/models/categoriasModel.js:69-89 | The reconciled table keeps every existing row (deletes are soft); `ReconciledLiveNames` and the lemmas after it state the rest |
| CategoriasModel.BorrarSubcategorias | src/models/categoriasModel.js:75-82 | The delete loop stops at the first used subcategory and reports it; otherwise it soft-deletes every listed one |
| CategoriasModel.InsertLiveNames | src/models/categoriasModel.js:86-89 | Inserting adds exactly the list's names to the live names of that category and changes no other category's names |
| CategoriasModel.MarkDeletedLiveNames | src/models/categoriasModel.js:67-82 | After the deletions, the live names of the category are the old live names that appear in the new list |
| CategoriasModel.ReconciledLiveNames | src/models/categoriasModel.js:59-89 | After a successful update, the category's live subcategory names are exactly the set of names in the list, compared exactly |
| CategoriasModel.ReconciledKeepsSurvivors | src/models/categoriasModel.js:62-68 | A live subcategory whose name is in the new list keeps its row, id and live status |
| CategoriasModel.ReconciledDropsAbsent | src/models/categoriasModel.js:67-81 | A live subcategory whose name is not in the new list keeps its id and is flagged deleted |
| CategoriasModel.ReconciledOtherCategories | src/models/categoriasModel.js:59-89 | Rows of other categories are untouched, no row disappears, and every new row is a live row of the category |
| CategoriasModel.ReconciledIntegrity | src/models/categoriasModel.js:59-89 | The reconciliation keeps the foreign keys and ids below the advanced counter |
| CategoriasModel.ToAddOccurrences | src/models/categoriasModel.js:68 | A name that is not already live is inserted once per occurrence in the list; a live one is never inserted again |
| CategoriasModel.ReconciledKeepsUsed | src/models/categoriasModel.js:72-82 | When the update passes its guard, every subcategory a live cuadro uses survives unchanged |
| CategoriasModel.DeleteSubcatsOfEffect | src/models/categoriasModel.js:164 | Soft-deleting by category leaves it with no live subcategory and changes no other category's rows |
| CategoriasModel.DeleteSubcatsOf | src/models/categoriasModel.js:164 | The cascade keeps every row with its name and category, and only ever sets the deleted flag |
| CategoriasModel.CategoriaEnUso | src/models/categoriasModel.js:148-154 | The guard query finds a row exactly when some subcategory of the category, deleted or not, is used by a live cuadro |
| CategoriasModel.CrearCategoriaConSubcategorias | src/models/categoriasModel.js:13-38 | Fails with the UNIQUE error, changing nothing, exactly when the name is taken (deleted rows included). Otherwise returns the new id, adds one live category with the name and one live subcategory per entry bound to it, and touches no other table |
| CategoriasModel.CreatedSubcats | src/models/categoriasModel.js:26-31 | A new category's live subcategories carry exactly the list's names and are exactly the freshly numbered rows |
| CategoriasModel.ActualizarCategoriaConSubcategorias | src/models/categoriasModel.js:50-93 | A missing or deleted id, a taken name, or a used subcategory to drop each fail with the database unchanged. The last reports that subcategory's name and the FOREIGN KEY code. Otherwise it renames the category and reconciles its subcategories |
| CategoriasModel.RenameKeepsUnique | src/models/categoriasModel.js:59 | Renaming to a name no other row has keeps category names unique |
| CategoriasModel.UpdateConsistent | src/models/categoriasModel.js:50-93 | A successful update keeps every constraint of the schema |
| CategoriasModel.EliminarCategoria | src/models/categoriasModel.js:144-171 | If a live cuadro uses any subcategory of the category, it fails with the FOREIGN KEY code and changes nothing. Otherwise it soft-deletes the category and all its subcategories, and answers whether a row with that id exists |
| CategoriasModel.ObtenerCategorias | src/models/categoriasModel.js:110-113 | Exactly the live categories with their names, highest id first |
| CategoriasModel.CategoriaFilas | src/models/categoriasModel.js:111-112 | One row per listed id, with that category's name |
| CategoriasModel.ContarCategoriasActivas | src/models/categoriasModel.js:174-177 | The count equals the number of live categories and the length of their listing |
| CategoriasModel.SubcategoriasPorCategoria | src/models/categoriasModel.js:122-125 | Exactly the live subcategories of the category, in rowid order |
| CuadrosModel.Unir | src/models/cuadrosModel.js:89-94 | A catalogue row carries its cuadro's columns with the names of its subcategory and that subcategory's category |
| CuadrosModel.Where | src/models/cuadrosModel.js:72-86 | At most three conditions are added to the live-row filter |
| CuadrosModel.WhereMeaning | src/models/cuadrosModel.js:72-86 | A row passes the built WHERE exactly when it matches the category name if one is given, the subcategory name if one is given, and the search term in the title or the description if one is given |
| CuadrosModel.InsertarPorFecha | src/models/cuadrosModel.js:96 | Inserting into the newest-first order adds exactly that cuadro |
| CuadrosModel.InsertarOrdenado | src/models/cuadrosModel.js:96 | Inserting keeps the list newest first |
| CuadrosModel.OrdenarPorFecha | src/models/cuadrosModel.js:96 | `ORDER BY creado_en DESC`: a permutation of the rows, newest first |
| CuadrosModel.ClampPage | src/models/cuadrosModel.js:65 | The page is at least 1, 1 when absent, and equal to the given page otherwise |
| CuadrosModel.ClampLimit | src/models/cuadrosModel.js:66 | The limit is at least 1, 12 when absent, and equal to the given limit otherwise |
| CuadrosModel.TotalPages | src/models/cuadrosModel.js:112 | At least one page, enough pages to hold every row, and no empty last page when there are rows |
| CuadrosModel.Paginar | src/models/cuadrosModel.js:97 | `LIMIT ? OFFSET ?`: the rows from position `(page - 1) * limit` on, at most `limit` of them, as many as remain |
| CuadrosModel.Seleccion | src/models/cuadrosModel.js:89-100 | The selected cuadros come newest first |
| CuadrosModel.SeleccionExacta | src/models/cuadrosModel.js:89-96 | A cuadro is selected exactly once when it is live and passes the WHERE, and never otherwise |
| CuadrosModel.SeleccionCuenta | src/models/cuadrosModel.js:103-111 | The selection has as many rows as the count query counts |
| CuadrosModel.Filas | src/models/cuadrosModel.js:89-100 | The result rows are the joins of the selected cuadros, in order |
| CuadrosModel.FilasCuenta | src/models/cuadrosModel.js:103-111 | The unpaginated result has exactly `total` rows |
| CuadrosModel.FilasVisibles | src/models/cuadrosModel.js:72-95 | Every result row is the join of a live cuadro that passes the WHERE |
| CuadrosModel.FilasOrdenadas | src/models/cuadrosModel.js:96 | Result rows are newest first and no cuadro appears twice |
| CuadrosModel.ValidJoinable | src/config/db.js:63-66 | In a consistent database every cuadro joins to a subcategory and a category |
| CuadrosModel.MostrarCatalogoPaginado | src/models/cuadrosModel.js:64-121 | The page is the slice of the filtered, sorted rows at the clamped page and limit; `total` is their number; `totalPages` and `currentPage` follow from it |
| CuadrosModel.TotalEsCuenta | src/models/cuadrosModel.js:103-111 | `total` counts exactly the filtered set the page is drawn from |
| CuadrosModel.PaginaCorrecta | src/models/cuadrosModel.js:89-100 | A returned page has at most `limit` rows, each visible under the filters, newest first |
| CuadrosModel.PaginaDeFilas | src/models/cuadrosModel.js:96-97 | Any slice of the result keeps its rows visible and newest first |
| CuadrosModel.PaginaVisible | src/models/cuadrosModel.js:95-97 | Every row of a page passes the filters |
| CuadrosModel.PaginaOrdenada | src/models/cuadrosModel.js:96-97 | Every page is newest first |
| CuadrosModel.PaginaDe | src/models/cuadrosModel.js:67 | The page holding a given position: its offset window contains that position |
| CuadrosModel.CadaCuadroEnSuPagina | src/models/cuadrosModel.js:64-121 | Every filtered row appears, at its place, on a page no later than `totalPages`: paging loses nothing |
| CuadrosModel.SinFiltrosCuentaActivos | src/models/cuadrosModel.js:124-127 | Without filters, the catalogue's total equals `contarCuadrosActivos` |
| CuadrosModel.ContarCuadrosActivos | src/models/cuadrosModel.js:124-127 | The live count never exceeds the rows of the table, and is zero exactly when every row is deleted; `SinFiltrosCuentaActivos` ties it to the catalogue's total |
| CuadrosModel.ContarSinCondiciones | src/models/cuadrosModel.js:103-108 | With no condition the count is the number of live cuadros |
| CuadrosModel.ObtenerCuadro | src/models/cuadrosModel.js:44-47 | The row when that id is live, nothing for a missing or deleted id |
| CuadrosModel.EliminarCuadro | src/models/cuadrosModel.js:50-54 | True exactly when a row with that id exists, deleted or not; that row is flagged deleted, it is no longer found, and nothing else changes |
| CuadrosModel.ActualizarCuadro | src/models/cuadrosModel.js:57-61 | A missing or deleted id gives false with no change. On a live row, a missing title gives the NOT NULL error and an unknown subcategory the FOREIGN KEY error, both with no change. Otherwise the four columns of that row are replaced and it reads back as written |
| UsuariosModel.InsertKeepsConsistent | src/config/db.js:19-21 | Adding a user with a free name at the next id keeps every constraint |
| UsuariosModel.ReplaceKeepsConsistent | src/config/db.js:19-21 | Rewriting a user with a name no other row has keeps every constraint |
| UsuariosModel.CrearUsuario | src/models/usuariosModel.js:5-13 | A taken name gives the UNIQUE error with no change. Otherwise one row storing `hash(password)` is added at the next id, and the returned object has no password; `hash` is a parameter the model does not constrain |
| UsuariosModel.Listar | src/models/usuariosModel.js:16-24 | Exactly the live users, highest id first, in their public projection without the password |
| UsuariosModel.Publicos | src/models/usuariosModel.js:18 | Each listed user through the projection of the SELECT columns |
| UsuariosModel.ObtenerUsuarios | src/models/usuariosModel.js:16-24 | Exactly the live users of the database |
| UsuariosModel.ObtenerUsuario | src/models/usuariosModel.js:27-30 | The row when that id is live, nothing for a missing or deleted one |
| UsuariosModel.BuscarPorNombre | src/models/usuariosModel.js:34 | A live user with that name when there is one, else none has it |
| UsuariosModel.ObtenerUsuarioPorNombre | src/models/usuariosModel.js:33-36 | Found exactly when a live user has that name; the name being unique, it is that user |
| UsuariosModel.PorNombreEsPorId | src/models/usuariosModel.js:27-36 | Looking up a live user by its name finds the same row as looking it up by id |
| UsuariosModel.EliminarUsuario | src/models/usuariosModel.js:39-43 | True exactly when a row with that id exists, deleted or not; the row is flagged deleted and nothing else changes |
| UsuariosModel.NuevaPassword | src/models/usuariosModel.js:48-54 | With a non-empty password the stored value becomes its hash; without one it stays as it was |
| UsuariosModel.ActualizarUsuario | src/models/usuariosModel.js:46-62 | A missing or deleted id gives false with no change, and a taken name the UNIQUE error with no change. Otherwise it rewrites name, role, state and avatar, and changes the password only when one is given |
| UsuariosModel.ContarUsuariosActivos | src/models/usuariosModel.js:65-69 | The count equals the length of the live-user listing |
| UsuariosModel.ListarCuenta | src/models/usuariosModel.js:65-69 | The listing has one entry per live user |
| CategoriasController.ValidarCategoria | src/controllers/categoriasController.js:52-57 | Passes exactly for a non-blank name and a non-empty array, giving the trimmed name and the untrimmed list. A missing or blank name gives 400, and a missing, non-array or empty list gives 400. An array name throws uncaught |
| CategoriasController.ValidarIdempotente | src/controllers/categoriasController.js:60 | The validated values pass validation again unchanged |
| CategoriasController.RespuestaCrear | src/controllers/categoriasController.js:59-65 | 201 with the new id exactly on success; otherwise 500 with the error's message or the default one |
| CategoriasController.MensajeDe | src/controllers/categoriasController.js:64 | `error.message || default`: the error's message when it has one, else the default, and empty only when both are |
| CategoriasController.RespuestaActualizar | src/controllers/categoriasController.js:80-89 | 200 exactly on success; 400 with the model's message exactly for the FOREIGN KEY code; anything else 500 |
| CategoriasController.RespuestaEliminar | src/controllers/categoriasController.js:106-120 | 200 for true, 404 for false, 400 for the FOREIGN KEY code, 500 for any other error, each exactly |
| CategoriasController.CrearNuevaCategoria | src/controllers/categoriasController.js:49-66 | Invalid input is answered without touching the database. 201 exactly when the input is valid and the trimmed name is free, and then the new live category has the trimmed name and the list's subcategory names |
| CategoriasController.ActualizarCategoria | src/controllers/categoriasController.js:69-90 | Invalid input is answered without touching the database. Every non-200 leaves it unchanged, and a missing category gives 500. On 200 the category carries the trimmed name and its subcategories are reconciled with the list |
| CategoriasController.EliminarCategoriaHandler | src/controllers/categoriasController.js:104-121 | 400 with no change exactly when a live cuadro uses the category, 404 when no such row exists, and 200 otherwise. After a 200 the category and its subcategories are no longer live |
| CategoriasController.ObtenerSubcategoriasPorCategoria | src/controllers/categoriasController.js:34-46 | 400 exactly when `categoria_id` is missing; otherwise only live subcategories of that category |
| UsuariosController.AvatarCreacion | src/controllers/usuariosController.js:17 | The uploaded file's path, else the default avatar |
| UsuariosController.RutaAvatar | src/controllers/usuariosController.js:17 | An uploaded avatar is served under `/uploads/avatars/`, and the stored file name reads back after that prefix |
| UsuariosController.ValidarCreacion | src/controllers/usuariosController.js:19-25 | Passes exactly when the four fields are present and the password has at least 4 characters; each failure has its own 400 |
| UsuariosController.CrearNuevoUsuario | src/controllers/usuariosController.js:15-34 | Every non-201 leaves the database unchanged. 201 exactly for valid input with a free name, and then the new row stores the password's hash and the answer carries the new user |
| UsuariosController.ValidarActualizacion | src/controllers/usuariosController.js:41-47 | Passes exactly when name, role and state are present and any given password has at least 4 characters; failures are 400 |
| UsuariosController.AvatarActualizacion | src/controllers/usuariosController.js:56 | The uploaded file's path, else the existing avatar |
| UsuariosController.PasswordEnviada | src/controllers/usuariosController.js:59-60 | The password goes into the update exactly when it is non-empty |
| UsuariosController.PasswordSoloSiSeEnvia | src/controllers/usuariosController.js:59-61 | Through controller and model, the stored password becomes the hash of a non-empty new one and is otherwise kept |
| UsuariosController.ActualizarUsuarioExistente | src/controllers/usuariosController.js:37-72 | Invalid input gives its 400, and a missing or deleted user 404 before any write. 200 exactly when valid, live and the name is free, and then the row gets the new fields, the chosen avatar and the conditional password. Every non-200 changes nothing |
| UsuariosController.RespuestaEliminar | src/controllers/usuariosController.js:79-83 | Success exactly for true, 404 exactly for false |
| UsuariosController.EliminarUsuarioExistente | src/controllers/usuariosController.js:75-88 | Success exactly when the row exists, 404 otherwise; afterwards the user is not live |
| CuadrosController.ImagenActualizacion | src/controllers/cuadrosController.js:60-67 | The upload's path if a file was sent, else the live row's non-empty image, else null |
| CuadrosController.RutaImagen | src/controllers/cuadrosController.js:62 | An uploaded picture is served under `/uploads/`, and the stored file name reads back after that prefix |
| CuadrosController.RespuestaActualizar | src/controllers/cuadrosController.js:69-75 | Success exactly for true, 404 exactly for false; a thrown error is uncaught |
| CuadrosController.ActualizarCuadroHandler | src/controllers/cuadrosController.js:51-76 | A missing subcategory gives 400 without calling the model. 404 exactly for a missing or deleted cuadro, and every non-200 changes nothing. On a live cuadro a missing title or an unknown subcategory is an uncaught error, so 500. On 200 the row gets the title, the description, the chosen image and the subcategory |
| CuadrosController.RespuestaEliminar | src/controllers/cuadrosController.js:43-47 | Success exactly for true, 404 exactly for false |
| CuadrosController.EliminarCuadroHandler | src/controllers/cuadrosController.js:39-48 | Success exactly when the row exists, 404 otherwise; afterwards the cuadro is not live |
| AuthController.DecidirLogin | src/controllers/authController.js:24-41 | A missing field gives 400. A login is accepted exactly when a live user has the name and the password compares true against its hash, and then the session value is that user's projection without the password. Otherwise it gives 401 |
| AuthController.ErrorLogin | src/controllers/authController.js:16-22 | The given status, as JSON when JSON is accepted, else the login view with the message |
| AuthController.IsAuthenticated | src/controllers/authController.js:64-77 | Passes exactly with a session user; otherwise 401 JSON when JSON but not HTML is accepted, else a redirect to `/login` |
| AuthController.IsAdmin | src/controllers/authController.js:80-86 | Passes exactly for a session user with role `admin`; otherwise 403 |
| AuthController.IsAdminOrEditor | src/controllers/authController.js:89-95 | Passes exactly for a session user with role `admin` or `editor`; otherwise 403 |
| AuthController.GuardasAnidadas | src/controllers/authController.js:80-95 | Passing `isAdmin` implies passing `isAdminOrEditor`, which implies passing `isAuthenticated`; an editor passes only the second |
| AuthController.Sesion.constructor | src/controllers/authController.js:36 | A new session has no user |
| AuthController.Sesion.HandleLogin | src/controllers/authController.js:13-50 | A rejected login leaves the session as it was and answers the error. An accepted one stores exactly the projection and answers `{redirectTo:'/admin'}` or a redirect; a changed session then passes `isAuthenticated` |
| AuthController.Sesion.HandleLogout | src/controllers/authController.js:53-61 | With a destroy error, a redirect to `/admin` and the session kept. Otherwise a redirect to `/login` with no user left, so `isAuthenticated` then redirects to `/login` |
| CategoriasCrud.EscapeHtml | public/js/categoriasCRUD.js:63-71 | The chained replacements act character by character, and the output holds no raw `<`, `>`, `"` or `'` |
| CategoriasCrud.EscapeHtmlValue | public/js/categoriasCRUD.js:64 | A non-string gives the empty string; a string is escaped |
| CategoriasCrud.ChainIsPerChar | public/js/categoriasCRUD.js:65-70 | Replacing `&` first and then the other four equals escaping each character on its own, so no entity is escaped twice |
| CategoriasCrud.EscapeCharSafe | public/js/categoriasCRUD.js:65-70 | No escaped character contains a raw `<`, `>`, `"` or `'` |
| CategoriasCrud.NoSpecials | public/js/categoriasCRUD.js:65-70 | An escaped string contains no raw `<`, `>`, `"` or `'` |
| CategoriasCrud.EntityAt | public/js/categoriasCRUD.js:65-70 | A recognised entity lies within the remaining text |
| CategoriasCrud.UnescapeChar | public/js/categoriasCRUD.js:65-70 | Decoding an escaped character followed by more text gives back the character and then decodes the rest |
| CategoriasCrud.UnescapeEscape | public/js/categoriasCRUD.js:63-71 | Decoding the five entities undoes `escapeHtml`: escaping loses nothing |
| CategoriasCrud.Agregar | public/js/categoriasCRUD.js:192-225 | A blank input or one equal to an entry ignoring case leaves the list alone; otherwise the trimmed value is appended |
| CategoriasCrud.AgregarSinDuplicados | public/js/categoriasCRUD.js:207-218 | Adding keeps the list free of case-insensitive duplicates |
| CategoriasCrud.QuitarSinDuplicados | public/js/categoriasCRUD.js:235-238 | Removing an entry keeps the list free of duplicates |
| CategoriasCrud.Filas | public/js/categoriasCRUD.js:140-158 | One table row per entry, in order, holding the escaped name |
| CategoriasCrud.CategoryForm.constructor | public/js/categoriasCRUD.js:100-119 | The form starts with an empty list, empty inputs and no hidden inputs, with the table matched to the list |
| CategoriasCrud.CategoryForm.SyncHiddenInputs | public/js/categoriasCRUD.js:167-186 | The hidden inputs become exactly the list, in order; nothing else changes |
| CategoriasCrud.CategoryForm.RenderSubcats | public/js/categoriasCRUD.js:125-162 | The table shows the list, and the empty message shows exactly when the list is empty. The hidden inputs are rebuilt when the list is not empty and kept as they were when it is |
| CategoriasCrud.CategoryForm.AddSubcategoria | public/js/categoriasCRUD.js:192-225 | The list becomes `Agregar` of the old list and input. A blank input shows the empty message and a duplicate the duplicate message, both keeping the typed text. An accepted entry clears the input and restores the help text, leaving its visibility alone. The form invariant is kept |
| CategoriasCrud.CategoryForm.RemoveAt | public/js/categoriasCRUD.js:232-240 | A non-numeric index changes nothing; a numeric one splices exactly that entry out and re-renders |
| CategoriasCrud.CategoryForm.ValidateForm | public/js/categoriasCRUD.js:273-296 | True exactly when the trimmed name is non-empty and the list is not; each failure shows its message; the list and inputs are untouched |
| CategoriasCrud.CategoryForm.ClearForm | public/js/categoriasCRUD.js:100-119 | Empties the list and both inputs and hides both error messages, keeping the hidden id |
| CategoriasCrud.CategoryForm.SetupCreateModal | public/js/categoriasCRUD.js:301-306 | A cleared form with an empty hidden id |
| CategoriasCrud.CategoryForm.SetupEditModal | public/js/categoriasCRUD.js:312-325 | The form holds the category's id, name and subcategories |
| CategoriasCrud.CategoryForm.Submit | public/js/categoriasCRUD.js:417-456 | A request is sent exactly when the form validates. It carries the name and the list, and goes as PUT `/api/categorias/<id>` when the hidden id is non-empty, else as POST `/api/categorias` |
| DestacadasCrud.Marcadas | public/js/destacadasCRUD.js:42 | The number of checked boxes is at most the number of boxes |
| DestacadasCrud.MarcadasActualizar | public/js/destacadasCRUD.js:45 | Setting one box changes the checked count by exactly that box's change |
| DestacadasCrud.IdsMarcados | public/js/destacadasCRUD.js:51 | One parsed value per checked box, in document order |
| DestacadasCrud.Valores | public/js/destacadasCRUD.js:28-32 | Each box's value is its category's id in decimal |
| DestacadasCrud.Estados | public/js/destacadasCRUD.js:32 | Each box starts checked exactly when its category is featured |
| DestacadasCrud.GuardarTrasCargar | public/js/destacadasCRUD.js:32-51 | Saving right after loading sends exactly the featured categories' ids, in order |
| DestacadasCrud.AvisoDe | public/js/destacadasCRUD.js:63-71 | Success notice exactly for an accepted save; a rejection shows the server's message or `Error al guardar`; a network failure shows its error |
| DestacadasCrud.PanelDestacadas.constructor | public/js/destacadasCRUD.js:6-7 | An empty panel with the save button enabled |
| DestacadasCrud.PanelDestacadas.RenderCheckboxes | public/js/destacadasCRUD.js:21-38 | One box per category with its id as value and its featured flag as state; the empty message exactly for no categories |
| DestacadasCrud.PanelDestacadas.LoadCategories | public/js/destacadasCRUD.js:9-19 | A loaded list is rendered; a failure leaves no boxes and shows the error |
| DestacadasCrud.PanelDestacadas.OnChange | public/js/destacadasCRUD.js:40-48 | When more than 4 are checked, that box is unchecked and an error notice added; otherwise nothing is reverted |
| DestacadasCrud.PanelDestacadas.Click | public/js/destacadasCRUD.js:40-48 | A user click followed by the handler never lifts the count above 4 from 4 or fewer; a fifth check is undone and an uncheck always stays |
| DestacadasCrud.PanelDestacadas.IniciarGuardado | public/js/destacadasCRUD.js:50-54 | The payload is the checked boxes' parsed values, one per checked box, and the button is disabled with the saving label |
| DestacadasCrud.PanelDestacadas.TerminarGuardado | public/js/destacadasCRUD.js:63-75 | In every outcome the button is re-enabled with its label and one notice for the outcome is added |
| PublicLightbox.FindIndex | public/js/public.js:86-88 | `findIndex` with `endsWith`: the first matching position, or -1 exactly when none matches |
| PublicLightbox.StartIndex | public/js/public.js:96 | Opening starts on a matching image when there is one, else on the first |
| PublicLightbox.CounterText | public/js/public.js:74 | The counter text ends with " / " and the number of images |
| PublicLightbox.CounterTextStartsWithPosition | public/js/public.js:74 | The counter text begins with the shown position counted from one, followed by " / " and the number of images |
| PublicLightbox.CounterTextLeadingNumber | public/js/public.js:74 | The leading number of the counter text is the shown position counted from one |
| PublicLightbox.CounterTextInjective | public/js/public.js:74 | Two counters with the same text show the same position out of the same number of images |
| PublicLightbox.Swipe | public/js/public.js:153-166 | Previous exactly for a recorded start and a move right of more than 50; next exactly for one left of more than 50; otherwise nothing |
| PublicLightbox.Lightbox.constructor | public/js/public.js:60-68 | The images are the thumbnails' full-size sources, else the main image alone, else none; the index starts at 0 |
| PublicLightbox.Lightbox.ShowImage | public/js/public.js:70-80 | Out of range changes nothing. In range it shows that image and its counter, hides the previous arrow exactly at the first image and the next arrow exactly at the last, and keeps the index valid |
| PublicLightbox.Lightbox.Prev | public/js/public.js:112 | `showImage(currentIndex - 1)`: one image back, showing that image, its counter and arrows hidden exactly at the ends; at the first image nothing changes |
| PublicLightbox.Lightbox.Next | public/js/public.js:113 | `showImage(currentIndex + 1)`: one image forward, showing that image, its counter and the arrows; at the last image nothing changes |
| PublicLightbox.Lightbox.Open | public/js/public.js:84-103 | With several images it shows the counter and the matching image (else the first) with its counter and arrows hidden exactly at the ends; with one or none it shows that image and hides counter and both arrows |
| PublicLightbox.Lightbox.Close | public/js/public.js:106-109 | The lightbox is closed and nothing else changes |
| PublicLightbox.Lightbox.KeyDown | public/js/public.js:122-128 | Only while open: the right arrow does what Next does and the left arrow what Prev does, each showing the new image, counter and arrows or changing nothing at its end; Escape closes and keeps what is shown; any other key changes nothing |
| PublicLightbox.Lightbox.TouchStart | public/js/public.js:135-144 | A touch on the image records its start position |
| PublicLightbox.Lightbox.HandleSwipe | public/js/public.js:153-166 | Ignored with no recorded start. Otherwise the start is reset to 0 and, as `Swipe` decides, the previous or next image is shown with its counter and arrows, or, at that end or for a short move, what is shown stays as it was |
| PublicLightbox.Lightbox.TouchEnd | public/js/public.js:146-151 | A touch ending on the image records the end and handles the swipe with the outcomes of HandleSwipe; a touch elsewhere changes nothing |
| Catalogo.Get | public/js/catalogo.js:15 | `searchParams.get`: the value of the first pair with the name, none exactly when no pair has it |
| Catalogo.Without | public/js/catalogo.js:20 | No pair with the name remains |
| Catalogo.Set | public/js/catalogo.js:20 | `searchParams.set`: the pair with the value is present, it is the only pair with that name, and every other pair was already there |
| Catalogo.GetSet | public/js/catalogo.js:20 | After `set`, `get` answers the value set |
| Catalogo.GetSetOther | public/js/catalogo.js:20 | `set` leaves every other parameter's value as it was |
| Catalogo.GetWithout | public/js/catalogo.js:20 | Removing one name leaves every other parameter's value as it was |
| Catalogo.DebeRedirigirCasos | public/js/catalogo.js:19 | No redirect at 768 pixels or more, nor on mobile with `limit=6`; a redirect on mobile in every other case |
| Catalogo.DebeRedirigir | public/js/catalogo.js:14-19 | A redirect happens only on a window narrower than 768 pixels whose `limit` is not already `"6"` |
| Catalogo.SinBucle | public/js/catalogo.js:17-20 | The address after the redirect does not redirect again at any width, and keeps every other parameter |
| Catalogo.Ventana.constructor | public/js/catalogo.js:13-14 | The window holds its width and address |
| Catalogo.Ventana.HandleResponsivePagination | public/js/catalogo.js:12-23 | Navigates exactly when the rule says so, to the address with `limit=6`; otherwise nothing changes. Afterwards the rule no longer fires |

## Left out

- I/O is not modelled: `fetch`, the DOM, notifications, focus, CSS classes, animation, timers and console logging. Each handler's effect is represented by the state it changes.
- Password hashing and comparison (bcrypt) are function parameters `hash` and `compare`. The salt and its randomness are not modelled.
- `req.accepts('json')` and `req.accepts('html')` are booleans. The session store, cookies and `req.session.destroy` are reduced to the session's user and a flag saying whether destroy failed.
- The routes and the Express wiring in `src/app.js` and `src/routes/` are not modelled, nor is multer. An upload is the optional file name.
- `parseInt` of page and limit and its NaN are not modelled: page and limit are an optional integer. `parseInt` itself is modelled for the decimal strings found in the lightbox counter and the checkbox values.
- Ids are natural numbers. Request parameters are already-parsed ids, so a non-numeric `:id` is not modelled.
- Search is a plain substring test on ASCII-lowered text. `LIKE`'s `%` and `_` in the term are treated as literal characters.
- `toLowerCase` is modelled for ASCII and Latin-1 letters only. String lengths are counted in characters, not UTF-16 units.
- Timestamps (`creado_en`) are an abstract integer.
- `ORDER BY creado_en DESC` leaves ties in an order SQLite does not define. The model fixes one order: among equal timestamps, a higher id comes first.
- A query without `ORDER BY` (`subcategoriasPorCategoria`, the existing subcategories in an update) is taken to return rows in id order.
- Transactions are all-or-nothing state updates. Isolation and concurrency are not modelled.
- `crearCategoria`, `crearSubcategoria`, `obtenerSubcategorias` and `obtenerCategoriasConSubcategorias` (with its `GROUP_CONCAT`) are not modelled. Neither are the controllers that only forward them (`obtenerTodasCategorias`, `obtenerTodasSubcategorias`, `obtenerCategoriasParaTabla`, `obtenerTodosUsuarios`): they are outside the modelled core.
- `crearCuadro`, `obtenerCuadros` and `obtenerCuadrosPorCategoria` in `src/models/cuadrosModel.js`, and the cuadros controller's other handlers, are outside the modelled core.
- The category `color` and `imagen_url` columns, the image preview of the category form, and the unused `cuadro_imagenes` table are not modelled, because the modelled functions ignore them.
- The seeding of the admin user and the schema creation in `src/config/db.js` are not modelled. The schema only supplies the row shapes and constraints.
- The render and table-parsing helpers of `public/js/categoriasCRUD.js` (`handleEditClick`, `handleDeleteClick`, the table reload) are not modelled. The edit modal takes the category's data as parameters.
- The featured categories' server side (`/api/categorias/destacadas`) is not part of this model. The save result is an input to `TerminarGuardado`.
- In `public/js/public.js` these are not modelled: the hamburger menu, the footer year, the thumbnail clicks, the "read more" toggle and the initial display of the arrows and counter. The main image's path and a touch's `screenX` are parameters.
- In `public/js/catalogo.js` the address is reduced to its query parameters and the navigation to the new query. The filter form's submit-on-change is not modelled.
- The random shuffle of the home page and the other scripts (`cuadrosCrud.js`, `usuariosCRUD.js`, `modals.js`, `login.js`, `main.js`) are outside the modelled core.
- DestacadasCrud.PanelDestacadas.Click: the four-box cap is stated for a click followed by the change handler. Changes made by code rather than by the user are not covered.
