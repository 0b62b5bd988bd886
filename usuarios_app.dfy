/**
 * The module-level `usuarios` array and the handlers that change it in
 * place: POST pushes, PUT assigns a field of the found record, DELETE
 * splices at the record's index. Each method is proved to behave as the
 * handler function of the same name in module Handlers, whose contracts and
 * lemmas state what the handlers promise (among them that every handler
 * keeps StoreInvariant, which the seed satisfies).
 */
module UsuariosApp {
  import opened Wrappers
  import opened JsParseInt
  import opened Validation
  import opened UserTable
  import opened Handlers

  class Usuarios {
    var usuarios: seq<Usuario>

    /** The table as the server starts it. */
    constructor ()
      ensures usuarios == Seed()
    {
      usuarios := Seed();
    }

    /** GET /api/usuarios. */
    method List() returns (reply: Reply)
      ensures reply == Handlers.ListAll(usuarios)
    {
      reply := Reply(Listed(usuarios), Returned);
    }

    /** GET /api/usuarios/:id: the id is parsed, then the table is searched. */
    method GetById(idText: string) returns (reply: Reply)
      ensures reply == Handlers.GetById(usuarios, idText)
    {
      var id := ParseInt(idText);
      var usuario := Find(usuarios, id);
      if usuario.None? {
        // 404 is sent; the handler then reaches res.send(usuario) as well
        reply := Reply(NotFound, SendsAgain);
      } else {
        reply := Reply(Ok(usuario.value), Returned);
      }
    }

    /** POST /api/usuarios: validate, then push {id: length + 1, nombre}. */
    method Post(nombre: JsValue) returns (reply: Reply)
      modifies this
      ensures Handled(reply, usuarios) == Handlers.Post(old(usuarios), nombre)
    {
      var v := ValidarUsuario(nombre);
      if v.Success? {
        var usuario := Usuario(|usuarios| + 1, nombre.s);
        usuarios := usuarios + [usuario];
        reply := Reply(Ok(usuario), Returned);
      } else {
        reply := Reply(Invalid(v.error), Returned);
      }
    }

    /**
     * PUT /api/usuarios/:id: look the record up, send 404 if it is missing but
     * carry on, validate, then overwrite `nombre` of the record found.
     */
    method Put(idText: string, nombre: JsValue) returns (reply: Reply)
      modifies this
      ensures Handled(reply, usuarios) == Handlers.Put(old(usuarios), idText, nombre)
    {
      var usuario := ExisteUsuario(usuarios, idText);
      var notFound := usuario.None?;
      var v := ValidarUsuario(nombre);
      if v.Success? {
        if notFound {
          // usuario.nombre = ... on undefined throws; the table is untouched
          reply := Reply(NotFound, ThrowsTypeError);
          return;
        }
        // the slot that the found object occupies
        var index := FindIndex(usuarios, ParseInt(idText)).value;
        usuarios := usuarios[index := usuarios[index].(nombre := v.value)];
        reply := Reply(Ok(usuarios[index]), Returned);
      } else if notFound {
        // the 400 would be a second response after the 404
        reply := Reply(NotFound, SendsAgain);
      } else {
        reply := Reply(Invalid(v.error), Returned);
      }
    }

    /** DELETE /api/usuarios/:id: look the record up, find its index, splice it out. */
    method Delete(idText: string) returns (reply: Reply)
      modifies this
      ensures Handled(reply, usuarios) == Handlers.Delete(old(usuarios), idText)
    {
      var usuario := ExisteUsuario(usuarios, idText);
      if usuario.None? {
        reply := Reply(NotFound, Returned);
        return;
      }
      var index := IndexOf(usuarios, usuario.value);
      IndexOfFindsFoundRecord(usuarios, ParseInt(idText));
      usuarios := RemoveAt(usuarios, index);
      reply := Reply(Ok(usuario.value), Returned);
    }
  }

  /**
   * What a client of the class can rely on: from the seed, deleting id 2 and
   * creating "Carlos" hands out id 4 a second time.
   */
  method IdRepeatsScenario(deletedId: string, fetchedId: string)
    requires ParseInt(deletedId) == Some(2) && ParseInt(fetchedId) == Some(4)
  {
    var api := new Usuarios();
    IdRepeatsAfterDelete(deletedId, fetchedId);
    var deleted := api.Delete(deletedId);
    assert deleted.outcome == Ok(Usuario(2, "Ana"));
    var created := api.Post(JsStr("Carlos"));
    assert created.outcome == Ok(Usuario(4, "Carlos"));
    var fetched := api.GetById(fetchedId);
    assert fetched.outcome == Ok(Usuario(4, "Maria"));
  }
}
