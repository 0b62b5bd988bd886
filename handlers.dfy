/**
 * The route handlers over the table, as pure functions of the table before
 * the request: what the client receives and what the table is afterwards.
 */
module Handlers {
  import opened Wrappers
  import opened JsParseInt
  import opened Validation
  import opened UserTable

  /** The response that reaches the client: 200 with a record or the list, 404, or 400. */
  datatype Outcome =
    | Ok(usuario: Usuario)
    | Listed(usuarios: seq<Usuario>)
    | NotFound
    | Invalid(reason: Reason)
  {
    function Status(): int {
      match this
      case Ok(_) => 200
      case Listed(_) => 200
      case NotFound => 404
      case Invalid(_) => 400
    }
  }

  /**
   * What the handler does after its first response. `SendsAgain`: it goes on
   * to a second `res.send`. `ThrowsTypeError`: it goes on to assign a field of
   * `undefined`. Neither changes the table or the response already sent.
   */
  datatype After = Returned | SendsAgain | ThrowsTypeError

  datatype Reply = Reply(outcome: Outcome, after: After)

  datatype Handled = Handled(reply: Reply, table: seq<Usuario>)

  /** GET /api/usuarios: the whole table, in order. */
  function ListAll(t: seq<Usuario>): (r: Reply)
    ensures r.outcome == Listed(t) && r.outcome.Status() == 200
  {
    Reply(Listed(t), Returned)
  }

  /**
   * GET /api/usuarios/:id: the first record whose id is parseInt(id), else 404
   * after which the handler falls through to a second send.
   */
  function GetById(t: seq<Usuario>, idText: string): (r: Reply)
    ensures r.outcome.Ok? || r.outcome == NotFound
    ensures r.outcome.Ok? <==> exists j | 0 <= j < |t| :: Matches(t[j], ParseInt(idText))
    ensures r.outcome.Ok? ==> r.outcome.usuario == t[FindIndex(t, ParseInt(idText)).value]
    ensures r.outcome.Ok? ==> r.after == Returned
    ensures r.outcome == NotFound ==> r.after == SendsAgain
  {
    var usuario := Find(t, ParseInt(idText));
    if usuario.None? then Reply(NotFound, SendsAgain) else Reply(Ok(usuario.value), Returned)
  }

  /**
   * POST /api/usuarios: a valid name appends `{id: |t| + 1, nombre}` at the
   * end; an invalid one changes nothing and yields 400.
   */
  function Post(t: seq<Usuario>, nombre: JsValue): (h: Handled)
    ensures h.reply.after == Returned
    ensures h.reply.outcome.Ok? <==> ValidarUsuario(nombre).Success?
    ensures h.reply.outcome.Ok? ==>
      && |h.table| == |t| + 1 && h.table[..|t|] == t
      && h.table[|t|] == Usuario(|t| + 1, nombre.s)
      && h.reply.outcome.usuario == h.table[|t|]
    ensures !h.reply.outcome.Ok? ==>
      h.table == t && h.reply.outcome == Invalid(ValidarUsuario(nombre).error)
    ensures StoreInvariant(t) ==> StoreInvariant(h.table)
    ensures ConsecutiveIds(t) ==> ConsecutiveIds(h.table)
  {
    match ValidarUsuario(nombre)
    case Failure(e) => Handled(Reply(Invalid(e), Returned), t)
    case Success(s) =>
      var u := Usuario(|t| + 1, s);
      var t' := t + [u];
      assert t'[..|t|] == t;
      Handled(Reply(Ok(u), Returned), t')
  }

  /**
   * PUT /api/usuarios/:id: with a found record and a valid name, that record's
   * name becomes the submitted string and nothing else changes. An unknown id
   * gives 404 and the handler falls through to the validation: a valid name
   * then reaches an assignment on `undefined`, an invalid one a second send.
   * The table changes only on 200.
   */
  function Put(t: seq<Usuario>, idText: string, nombre: JsValue): (h: Handled)
    ensures |h.table| == |t|
    ensures forall j | 0 <= j < |t| :: h.table[j].id == t[j].id
    ensures h.reply.outcome.Ok? <==> ExisteUsuario(t, idText).Some? && ValidarUsuario(nombre).Success?
    ensures h.reply.outcome.Ok? ==>
      var i := FindIndex(t, ParseInt(idText)).value;
      && h.table[i] == Usuario(t[i].id, nombre.s)
      && (forall j | 0 <= j < |t| && j != i :: h.table[j] == t[j])
      && h.reply == Reply(Ok(h.table[i]), Returned)
    ensures !h.reply.outcome.Ok? ==> h.table == t
    ensures ExisteUsuario(t, idText).None? ==>
      && h.reply.outcome == NotFound
      && h.reply.after == (if ValidarUsuario(nombre).Success? then ThrowsTypeError else SendsAgain)
    ensures ExisteUsuario(t, idText).Some? && ValidarUsuario(nombre).Failure? ==>
      h.reply == Reply(Invalid(ValidarUsuario(nombre).error), Returned)
    ensures StoreInvariant(t) ==> StoreInvariant(h.table)
    ensures ConsecutiveIds(t) ==> ConsecutiveIds(h.table)
  {
    var found := FindIndex(t, ParseInt(idText));
    var v := ValidarUsuario(nombre);
    assert ExisteUsuario(t, idText).Some? <==> found.Some?;
    if found.None? then
      Handled(Reply(NotFound, if v.Success? then ThrowsTypeError else SendsAgain), t)
    else if v.Failure? then
      Handled(Reply(Invalid(v.error), Returned), t)
    else
      var i := found.value;
      var u := t[i].(nombre := v.value);
      Handled(Reply(Ok(u), Returned), t[i := u])
  }

  /**
   * DELETE /api/usuarios/:id: the first record with that id is removed from
   * its position and returned; the others keep their order. An unknown id
   * gives 404 and changes nothing.
   */
  function Delete(t: seq<Usuario>, idText: string): (h: Handled)
    ensures h.reply.after == Returned
    ensures h.reply.outcome.Ok? || h.reply.outcome == NotFound
    ensures h.reply.outcome.Ok? <==> ExisteUsuario(t, idText).Some?
    ensures h.reply.outcome.Ok? ==>
      var i := FindIndex(t, ParseInt(idText)).value;
      && h.reply.outcome.usuario == t[i]
      && h.table == RemoveAt(t, i)
      && |h.table| == |t| - 1
      && multiset(h.table) + multiset{t[i]} == multiset(t)
    ensures h.reply.outcome == NotFound ==> h.table == t
    ensures StoreInvariant(t) ==> StoreInvariant(h.table)
    ensures DistinctIds(t) ==> DistinctIds(h.table)
  {
    match FindIndex(t, ParseInt(idText))
    case None => Handled(Reply(NotFound, Returned), t)
    case Some(i) => Handled(Reply(Ok(t[i]), Returned), RemoveAt(t, i))
  }

  /** The requests the table's routes accept. */
  datatype Request =
    | GetAll
    | GetOne(id: string)
    | Create(nombre: JsValue)
    | Update(id: string, nombre: JsValue)
    | Remove(id: string)

  function Serve(t: seq<Usuario>, req: Request): (h: Handled)
    ensures !req.Update? && !req.Create? && !req.Remove? ==> h.table == t
    ensures StoreInvariant(t) ==> StoreInvariant(h.table)
    ensures !req.Remove? && ConsecutiveIds(t) ==> ConsecutiveIds(h.table)
  {
    match req
    case GetAll => Handled(ListAll(t), t)
    case GetOne(id) => Handled(GetById(t, id), t)
    case Create(nombre) => Post(t, nombre)
    case Update(id, nombre) => Put(t, id, nombre)
    case Remove(id) => Delete(t, id)
  }

  /** The table after serving `reqs` one after another. */
  function Run(t: seq<Usuario>, reqs: seq<Request>): seq<Usuario>
    decreases |reqs|
  {
    if reqs == [] then t else Run(Serve(t, reqs[0]).table, reqs[1..])
  }

  predicate NoRemove(reqs: seq<Request>) {
    forall k | 0 <= k < |reqs| :: !reqs[k].Remove?
  }

  /** No sequence of requests stores a bad name or a non-positive id. */
  lemma {:induction false} RunPreservesStoreInvariant(t: seq<Usuario>, reqs: seq<Request>)
    requires StoreInvariant(t)
    ensures StoreInvariant(Run(t, reqs))
    decreases |reqs|
  {
    if reqs != [] {
      RunPreservesStoreInvariant(Serve(t, reqs[0]).table, reqs[1..]);
    }
  }

  /**
   * Without a DELETE, ids stay exactly 1..n, so every create gives a fresh,
   * distinct id; from the seed, any run of GET, POST and PUT keeps ids unique.
   */
  lemma {:induction false} RunWithoutRemoveKeepsIdsUnique(t: seq<Usuario>, reqs: seq<Request>)
    requires ConsecutiveIds(t) && NoRemove(reqs)
    ensures ConsecutiveIds(Run(t, reqs)) && DistinctIds(Run(t, reqs))
    decreases |reqs|
  {
    if reqs == [] {
      ConsecutiveIdsAreDistinct(t);
    } else {
      assert !reqs[0].Remove?;
      RunWithoutRemoveKeepsIdsUnique(Serve(t, reqs[0]).table, reqs[1..]);
    }
  }

  /**
   * Creating then fetching by the returned id (as the client writes it in the
   * URL) gives back the created record, provided no record already holds the
   * id |t| + 1 (true while ids are 1..n).
   */
  lemma CreateThenGet(t: seq<Usuario>, name: string)
    requires IsValidNombre(name)
    requires forall j | 0 <= j < |t| :: t[j].id != |t| + 1
    ensures var h := Post(t, JsStr(name));
            GetById(h.table, IntToText(|t| + 1)) == h.reply
  {
    var h := Post(t, JsStr(name));
    ParseIntRoundTrip(|t| + 1);
    assert forall j | 0 <= j < |t| :: h.table[j] == t[j];
    assert FindIndex(h.table, Some(|t| + 1)) == Some(|t|);
  }

  lemma CreateThenGetWhileConsecutive(t: seq<Usuario>, name: string)
    requires IsValidNombre(name) && ConsecutiveIds(t)
    ensures var h := Post(t, JsStr(name));
            GetById(h.table, IntToText(|t| + 1)) == h.reply
  {
    CreateThenGet(t, name);
  }

  /** When ids are unique, a deleted id is gone from the table. */
  lemma DeleteRemovesId(t: seq<Usuario>, idText: string)
    requires DistinctIds(t)
    requires ExisteUsuario(t, idText).Some?
    ensures forall u | u in Delete(t, idText).table :: u.id != ExisteUsuario(t, idText).value.id
  {
    var i := FindIndex(t, ParseInt(idText)).value;
    var r := Delete(t, idText).table;
    forall u | u in r ensures u.id != t[i].id {
      var k :| 0 <= k < |r| && r[k] == u;
      if k < i { assert r[k] == t[k]; } else { assert r[k] == t[k + 1]; }
    }
  }

  /** Non-numeric text in the URL finds no record: GET, PUT and DELETE answer 404 and change nothing. */
  lemma NonNumericIdMatchesNothing(t: seq<Usuario>, idText: string, nombre: JsValue)
    requires ParseInt(idText).None?
    ensures GetById(t, idText).outcome == NotFound
    ensures Put(t, idText, nombre).reply.outcome == NotFound && Put(t, idText, nombre).table == t
    ensures Delete(t, idText) == Handled(Reply(NotFound, Returned), t)
  {
  }

  /** Fetching id 999 from the seed finds nothing. */
  lemma SeedHasNo999()
    ensures GetById(Seed(), "999") == Reply(NotFound, SendsAgain)
  {
    ParseIntRoundTrip(999);
    assert IntToText(999) == "999";
  }

  /** Deleting id 2 (any text parseInt reads as 2, such as "2") from the seed leaves the other three, in order. */
  lemma SeedDeleteTwo(idText: string)
    requires ParseInt(idText) == Some(2)
    ensures Delete(Seed(), idText) ==
      Handled(Reply(Ok(Usuario(2, "Ana")), Returned),
              [Usuario(1, "Juan"), Usuario(3, "Miguel"), Usuario(4, "Maria")])
  {
    var t := Seed();
    ConsecutiveFind(t, 2);
    DeleteFound(t, idText, 1);
    RemoveSecondOfFour(t);
  }

  /** Delete, once the index of the record is known. */
  lemma DeleteFound(t: seq<Usuario>, idText: string, i: nat)
    requires FindIndex(t, ParseInt(idText)) == Some(i)
    ensures i < |t| && Delete(t, idText) == Handled(Reply(Ok(t[i]), Returned), RemoveAt(t, i))
  {
  }

  lemma RemoveSecondOfFour(t: seq<Usuario>)
    requires |t| == 4
    ensures RemoveAt(t, 1) == [t[0], t[2], t[3]]
  {
  }

  /** Renaming id 3 in the seed to "Mike" changes that one name in place. */
  lemma SeedUpdateThree(idText: string)
    requires ParseInt(idText) == Some(3)
    ensures Put(Seed(), idText, JsStr("Mike")) ==
      Handled(Reply(Ok(Usuario(3, "Mike")), Returned),
              [Usuario(1, "Juan"), Usuario(2, "Ana"), Usuario(3, "Mike"), Usuario(4, "Maria")])
  {
    var t := Seed();
    ConsecutiveFind(t, 3);
    AcceptsThreeCharacters("Mike");
    PutFound(t, idText, "Mike", 2);
  }

  /** Put with a valid name, once the index of the record is known. */
  lemma PutFound(t: seq<Usuario>, idText: string, nombre: string, i: nat)
    requires FindIndex(t, ParseInt(idText)) == Some(i) && ValidarUsuario(JsStr(nombre)).Success?
    ensures i < |t| && Put(t, idText, JsStr(nombre)) ==
      Handled(Reply(Ok(Usuario(t[i].id, nombre)), Returned), t[i := Usuario(t[i].id, nombre)])
  {
  }

  /**
   * Ids are assigned by count: after deleting id 2 from the seed, a create
   * gets id 4 again, and a GET for id 4 returns the older record, not the new.
   */
  lemma IdRepeatsAfterDelete(deleted: string, fetched: string)
    requires ParseInt(deleted) == Some(2) && ParseInt(fetched) == Some(4)
    ensures var t := Delete(Seed(), deleted).table;
            var h := Post(t, JsStr("Carlos"));
            && h.table == [Usuario(1, "Juan"), Usuario(3, "Miguel"), Usuario(4, "Maria"), Usuario(4, "Carlos")]
            && !DistinctIds(h.table)
            && GetById(h.table, fetched).outcome == Ok(Usuario(4, "Maria"))
  {
    SeedDeleteTwo(deleted);
    CreateAfterDeleteTwo();
    GetAfterIdRepeats(fetched);
  }

  lemma GetAfterIdRepeats(fetched: string)
    requires ParseInt(fetched) == Some(4)
    ensures var t := [Usuario(1, "Juan"), Usuario(3, "Miguel"), Usuario(4, "Maria"), Usuario(4, "Carlos")];
            !DistinctIds(t) && GetById(t, fetched).outcome == Ok(Usuario(4, "Maria"))
  {
    var t := [Usuario(1, "Juan"), Usuario(3, "Miguel"), Usuario(4, "Maria"), Usuario(4, "Carlos")];
    assert t[2].id == t[3].id;
    assert !Matches(t[0], Some(4)) && !Matches(t[1], Some(4)) && Matches(t[2], Some(4));
    assert FindIndex(t, Some(4)) == Some(2);
  }

  lemma CreateAfterDeleteTwo()
    ensures Post([Usuario(1, "Juan"), Usuario(3, "Miguel"), Usuario(4, "Maria")], JsStr("Carlos")).table ==
      [Usuario(1, "Juan"), Usuario(3, "Miguel"), Usuario(4, "Maria"), Usuario(4, "Carlos")]
  {
    var t := [Usuario(1, "Juan"), Usuario(3, "Miguel"), Usuario(4, "Maria")];
    AcceptsThreeCharacters("Carlos");
    assert Post(t, JsStr("Carlos")).table == t + [Usuario(4, "Carlos")];
  }

  /** The same scenario with the URLs a client would use. */
  lemma IdRepeatsAfterDeleteExample()
    ensures var t := Delete(Seed(), "2").table;
            GetById(Post(t, JsStr("Carlos")).table, "4").outcome == Ok(Usuario(4, "Maria"))
  {
    ParseIntOneDigit("2", 2);
    ParseIntOneDigit("4", 4);
    IdRepeatsAfterDelete("2", "4");
  }
}
