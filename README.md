# Verified model of the `usuarios` table of app-rest-express

The service keeps its users in a module-level JavaScript array `usuarios` of
`{id, nombre}` records. Its HTTP handlers read and change it: GET by id, POST,
PUT and DELETE on `/api/usuarios`. This project models that table and those
handlers in Dafny and proves what they do. That includes the quirks the code
really has:

- ids are handed out as `length + 1`, so a create after a delete can repeat a surviving id;
- the PUT handler does not `return` after its 404 and falls through to validation;
- an id text that `parseInt` reads as NaN matches no record.

`app.js` and `routes/usuarios.js` hold the same seed, the same `existe_usuario`
and `validarUsuario`, and the same handler bodies. One model covers both. The
table at the end maps the lines of `routes/usuarios.js` to the members below.

Modules, leaf first:

- `Wrappers`: `Option` (`None` stands for `undefined` and for NaN) and `Result`.
- `JsString`: JavaScript white space; `length` counted in UTF-16 code units; `TrimStart`.
- `JsParseInt`: the global `parseInt(string)` with no radix, as section 19.2.5 of ECMA-262 defines it. It skips leading white space, takes an optional sign, switches to hexadecimal after `0x`/`0X`, reads the longest digit run, and gives NaN when there is no digit.
- `Validation`: the Joi schema `string().min(3).required()` as a predicate over a request-body value (`Undefined`, a string, or any other JSON value).
- `UserTable`: the `Usuario` record, the seed, `find`, `existe_usuario`, `indexOf`, `splice(i, 1)` and the table invariants.
- `Handlers`: each handler as a pure function from the table before the request to the reply and the table after. `Reply.after` records what the handler still does after its first response (a second send, or an assignment on `undefined`). The lemmas state what the handlers promise.
- `UsuariosApp`: class `Usuarios`, whose field `usuarios` the methods change in place: push, field assignment, splice at `indexOf`. Each method is proved equal to its `Handlers` function. The method `IdRepeatsScenario` reruns `Handlers.IdRepeatsAfterDelete` on an instance of the class: delete id 2, create "Carlos", then GET id 4.

## Behaviour worth knowing

- New ids are `usuarios.length + 1`, so a create after a delete can repeat an id still in use; while ids are 1..n (as in the seed), it does so after deleting any record but the last (`Handlers.IdRepeatsAfterDelete`).
- An accepted name is stored exactly as submitted, untrimmed.
- `min(3)` counts UTF-16 code units, not characters (`Validation.AcceptsAstralPair`).
- `parseInt` with no radix also reads hexadecimal after `0x` (`JsParseInt.ParseIntHexExample`).

## routes/usuarios.js

The router file repeats the same code, and the members of the table below model it too:

- lines 5-10, the seed (app.js 53-58): UserTable.Seed
- lines 12-14, the list route (app.js 83-85): Handlers.ListAll and UsuariosApp.Usuarios.List
- lines 18-30, GET by id, with the 404 followed by a second send (app.js 89-101): Handlers.GetById and UsuariosApp.Usuarios.GetById
- lines 38-79, POST (app.js 123-164): Handlers.Post and UsuariosApp.Usuarios.Post
- lines 86-105, PUT, which falls through after the 404 (app.js 169-188): Handlers.Put and UsuariosApp.Usuarios.Put
- lines 111-122, DELETE (app.js 192-203): Handlers.Delete and UsuariosApp.Usuarios.Delete
- lines 125-127, existe_usuario (app.js 60-62): UserTable.ExisteUsuario
- lines 129-137, validarUsuario (app.js 64-72): Validation.ValidarUsuario

## Model

| member | source | states |
|---|---|---|
| UserTable.Seed | app.js:53-58 | the table starts with four records whose ids are exactly 1, 2, 3, 4 (so pairwise distinct), all names valid |
| UserTable.ConsecutiveIdsAreDistinct | app.js:53-58 | ids that are exactly 1..n are pairwise distinct |
| UserTable.FindIndex | app.js:96 | the position of the first record whose id is strictly equal to the key; none when no record matches, or when the key is NaN |
| UserTable.Find | app.js:96 | `find` returns the record at the first matching position, or undefined exactly when nothing matches |
| UserTable.ConsecutiveFind | app.js:96 | while ids are 1..n, `find` locates id k at position k - 1 |
| UserTable.ExisteUsuario | app.js:60-62 | the result is a record of the table whose id equals `parseInt(id)`, the first one; undefined iff no id matches; NaN text always gives undefined |
| UserTable.IndexOf | app.js:199 | `indexOf` gives the first position holding an equal record, and -1 exactly when the record is absent |
| UserTable.IndexOfFindsFoundRecord | app.js:199-200 | `indexOf` of the record `find` returned is the very position `find` found, so the splice removes that slot |
| UserTable.IndexOfWithDuplicateRecords | app.js:199-200 | with two field-for-field equal records, `indexOf` still picks the first, the one `find` returned |
| UserTable.RemoveAt | app.js:200 | `splice(i, 1)` removes exactly the record at i: one shorter, records before i unchanged, later ones shifted down by one, same multiset minus that record, invariants kept |
| JsString.JsLength | app.js:68 | a string's JavaScript length is at least its character count and at most twice it, and equals it when every character is in the Basic Multilingual Plane |
| JsString.TrimStart | app.js:61 | the result is a suffix of the input, everything removed is JavaScript white space, and the result does not start with white space |
| JsString.TrimStartSkipsWhiteSpace | app.js:61 | trimming ignores any white-space prefix |
| JsParseInt.ParseInt | app.js:94 | `parseInt(id)` is NaN exactly when no digit of the radix follows the leading white space, the optional sign and the optional `0x`/`0X`; a negative result only comes after a minus sign |
| JsParseInt.IntToText | app.js:144 | an id printed as JavaScript prints a number: non-empty, starting with `-` exactly for negatives, never with `+` or white space |
| JsParseInt.DigitRunLength | app.js:61 | parseInt reads the maximal run of digits: all read characters are digits and the next one is not |
| JsParseInt.ParseDigits | app.js:61 | NaN exactly when the text does not start with a digit |
| JsParseInt.DecimalText | app.js:144 | the decimal numeral of an id is non-empty, all digits, with no leading zero |
| JsParseInt.ParseIntRoundTrip | app.js:94 | `parseInt(String(i)) === i` for every integer i printed in plain decimal, which covers every id |
| JsParseInt.ParseIntReadsPrintedInt | app.js:94 | a printed integer followed by text is read back as that integer, except when a digit follows, or when the number is 0 and an `x` follows |
| JsParseInt.ParseIntOneDigit | app.js:94 | one-digit id texts such as "2" parse to their value |
| JsParseInt.ParseIntSkipsWhiteSpace | app.js:94 | leading white space does not change what parseInt reads |
| JsParseInt.ParseIntNaN | app.js:94 | text starting with anything other than white space, a sign or a digit is NaN |
| JsParseInt.ParseIntDecimalExample | app.js:94 | "42" is 42 |
| JsParseInt.ParseIntSignedExample | app.js:94 | " \t-7" is -7 |
| JsParseInt.ParseIntTrailingTextExample | app.js:94 | "12abc" is 12 |
| JsParseInt.ParseIntLettersExample | app.js:94 | "abc" is NaN |
| JsParseInt.ParseIntEmptyExample | app.js:94 | the empty text is NaN |
| JsParseInt.ParseIntHexExample | app.js:94 | "0x1A" is 26 |
| JsParseInt.ParseIntBarePrefixExample | app.js:94 | "0x" with no hex digit is NaN |
| Validation.ValidarUsuario | app.js:64-72 | accepts exactly the strings of JavaScript length at least 3 and yields the submitted string; a missing value fails as missing, a non-string as not a string, a short string as too short |
| Validation.AcceptsThreeCharacters | app.js:127-137 | every string of three or more characters is accepted |
| Validation.RejectsOneCharacter | app.js:127-137 | strings of zero or one character are rejected as too short |
| Validation.AcceptsAstralPair | app.js:127-137 | a two-character string is accepted when one character lies outside the Basic Multilingual Plane (length counts UTF-16 code units) |
| Validation.BoundaryExamples | app.js:127-137 | "ab" and "" are rejected as too short, "abc" is accepted, undefined is missing, a non-string is not a string |
| Handlers.ListAll | app.js:83-85 | GET /api/usuarios answers 200 with the whole table in order |
| Handlers.GetById | app.js:89-101 | 200 with the first record whose id is parseInt(id), exactly when one exists; otherwise 404, after which the handler still reaches a second send |
| Handlers.Post | app.js:123-149 | a valid name appends exactly `{id: old length + 1, nombre}` at the end, keeps every earlier record, and returns it with 200; an invalid one yields 400 with the reason and leaves the table unchanged; invariants and consecutive ids kept |
| Handlers.Put | app.js:169-188 | 200 exactly when the id is found and the name valid: only that record's name changes, to the submitted string, with length, order and ids unchanged. A missing id gives 404 and falls through (assignment on undefined for a valid name, a second send otherwise) with the table unchanged. A found id with an invalid name gives 400, table unchanged |
| Handlers.Delete | app.js:192-203 | a found id removes the first record with that id at its index and returns it: length drops by one, the others keep their order; a missing id gives 404 with no change; unique ids stay unique |
| Handlers.Serve | app.js:83-203 | any request keeps the store invariant; reads never change the table; everything but DELETE keeps ids 1..n |
| Handlers.RunPreservesStoreInvariant | app.js:123-203 | after any sequence of requests every id is positive and every name is one the schema accepts |
| Handlers.RunWithoutRemoveKeepsIdsUnique | app.js:140 | starting from ids 1..n, any sequence of requests without DELETE keeps ids 1..m and hence distinct |
| Handlers.CreateThenGet | app.js:139-144 | after a create, a GET with the returned id as URL text yields the created record, provided no record already held that id |
| Handlers.CreateThenGetWhileConsecutive | app.js:139-144 | the same round trip holds whenever ids are 1..n |
| Handlers.DeleteRemovesId | app.js:193-200 | when ids are unique, no record with the deleted id remains |
| Handlers.NonNumericIdMatchesNothing | app.js:94-196 | an id text that parseInt reads as NaN gives 404 on GET, PUT and DELETE and changes nothing |
| Handlers.SeedHasNo999 | app.js:94-99 | GET of id 999 on the seed is 404 |
| Handlers.SeedDeleteTwo | app.js:192-203 | deleting id 2 from the seed returns Ana and leaves Juan, Miguel, Maria in that order |
| Handlers.SeedUpdateThree | app.js:169-188 | renaming id 3 of the seed to Mike changes only that name, in place |
| Handlers.IdRepeatsAfterDelete | app.js:139-143 | after deleting id 2 from the seed, a create gets id 4 again: ids are no longer distinct, and GET of id 4 returns Maria, not the new record |
| Handlers.CreateAfterDeleteTwo | app.js:139-143 | the create after that delete appends `{id: 4, nombre: "Carlos"}` |
| Handlers.GetAfterIdRepeats | app.js:94-100 | with two records of id 4, GET returns the older one |
| Handlers.IdRepeatsAfterDeleteExample | app.js:139-143 | the same with the URL texts "2" and "4" |
| UsuariosApp.Usuarios.constructor | app.js:53-58 | the table starts as the seed |
| UsuariosApp.Usuarios.List | app.js:83-85 | the method answers as Handlers.ListAll |
| UsuariosApp.Usuarios.GetById | app.js:89-101 | parse, then find: the reply is Handlers.GetById of the current table, and nothing changes |
| UsuariosApp.Usuarios.Post | app.js:137-148 | validate, then push: the new table and reply are those of Handlers.Post |
| UsuariosApp.Usuarios.Put | app.js:171-187 | look up, 404 without return, validate, assign the field of the found record: table and reply are those of Handlers.Put |
| UsuariosApp.Usuarios.Delete | app.js:193-202 | look up, `indexOf`, `splice`: table and reply are those of Handlers.Delete |

## Left out

- Express wiring: the middleware (`express.json`, `urlencoded`, `static`, `morgan`), the `debug` loggers, the `console.log(usuario)` in the GET-by-id handler (app.js:97, routes/usuarios.js:26), the `config.get` reads, the port and `app.listen`. They are framework and I/O glue. Request bodies reach the model already parsed, as a `JsValue`.
- The `ruta.app.get/post/put/delete` registrations in `routes/usuarios.js`. `ruta.app` is undefined on a Router, so they would throw when the module loads, and `app.js` never loads it. Only the handler bodies are modelled.
- Response bodies and message texts: the greeting, the 404 texts (including the parsed id in the GET message), and Joi's `error.details[0].message`. Joi reports the empty string under its own code; the model reports it as `TooShort`.
- The runtime effect of the second response and of the TypeError. They are recorded as `SendsAgain` and `ThrowsTypeError` in `Reply.after`. The table is unchanged and the client sees the 404.
- The query-string echo route (`/api/usuarios/:year/:month`) and the constant product list (`/api/productos`): pure passthrough and a constant, with no table.
- JavaScript object identity: records are values. `indexOf` is modelled by value equality, which `UserTable.IndexOfFindsFoundRecord` proves picks the slot `find` found. The record returned by PUT is the updated value, not a shared reference.
- JsParseInt.IntToText: prints every integer in plain decimal. JavaScript switches to exponent notation from 10^21 up (`String(1e21)` is `"1e+21"`, which `parseInt` reads as 1). No id comes near that bound, for the reason given in the next line.
- JsParseInt.ParseInt: the result is an exact integer; JavaScript would round digit strings beyond 2^53 to a double. This cannot change a match: every id is at most one more than the largest length the table has ever had, far below 2^53, and a digit string so long that JavaScript reads it as Infinity matches no id either.
- Names with unpaired UTF-16 surrogates: a JSON body can carry one (`"\ud800"`), and JavaScript counts it as one code unit. A Dafny `string` holds only Unicode scalar values, so such names are not represented. Nothing changes for the names that can be represented.
- Concurrency: the handlers run one at a time to completion, so each is modelled as one atomic step.
- The commented-out validation and explanatory blocks.
