/**
 * The in-memory table `usuarios`: an ordered sequence of `{id, nombre}`
 * records, its seed, and the two array searches the handlers use on it
 * (`find` by id and `indexOf` of a record).
 */
module UserTable {
  import opened Wrappers
  import opened JsParseInt
  import opened Validation

  datatype Usuario = Usuario(id: int, nombre: string)

  /** The four records the table starts with. */
  function Seed(): (t: seq<Usuario>)
    ensures |t| == 4
    ensures ConsecutiveIds(t) && DistinctIds(t)
    ensures StoreInvariant(t)
  {
    var t := [Usuario(1, "Juan"), Usuario(2, "Ana"), Usuario(3, "Miguel"), Usuario(4, "Maria")];
    assert IsValidNombre("Ana") by { assert JsString.JsLength("Ana") == 3; }
    t
  }

  /** The ids are exactly 1, 2, ..., |t|, in order. */
  predicate ConsecutiveIds(t: seq<Usuario>) {
    forall i | 0 <= i < |t| :: t[i].id == i + 1
  }

  predicate DistinctIds(t: seq<Usuario>) {
    forall i, j | 0 <= i < j < |t| :: t[i].id != t[j].id
  }

  /** What every handler keeps: positive ids and names the schema accepts. */
  predicate StoreInvariant(t: seq<Usuario>) {
    forall i | 0 <= i < |t| :: t[i].id > 0 && IsValidNombre(t[i].nombre)
  }

  lemma ConsecutiveIdsAreDistinct(t: seq<Usuario>)
    requires ConsecutiveIds(t)
    ensures DistinctIds(t)
  {
  }

  /**
   * `t.splice(i, 1)` for an index in range: the record at `i` leaves, the
   * records before it stay put, the records after it move down by one.
   */
  function RemoveAt(t: seq<Usuario>, i: nat): (r: seq<Usuario>)
    requires i < |t|
    ensures |r| == |t| - 1
    ensures forall j | 0 <= j < i :: r[j] == t[j]
    ensures forall j | i <= j < |r| :: r[j] == t[j + 1]
    ensures multiset(r) + multiset{t[i]} == multiset(t)
    ensures StoreInvariant(t) ==> StoreInvariant(r)
    ensures DistinctIds(t) ==> DistinctIds(r)
  {
    var r := t[..i] + t[i + 1..];
    assert t == t[..i] + [t[i]] + t[i + 1..];
    r
  }

  /** `u.id === key`: NaN (None) is equal to no id. */
  predicate Matches(u: Usuario, key: Option<int>) {
    key.Some? && u.id == key.value
  }

  /** The position of the first record whose id is `key`, if any. */
  function FindIndex(t: seq<Usuario>, key: Option<int>): (r: Option<nat>)
    ensures r.Some? ==> r.value < |t| && Matches(t[r.value], key)
    ensures r.Some? ==> forall j | 0 <= j < r.value :: !Matches(t[j], key)
    ensures r.None? <==> forall j | 0 <= j < |t| :: !Matches(t[j], key)
  {
    if t == [] then None
    else if Matches(t[0], key) then Some(0)
    else match FindIndex(t[1..], key)
      case None => None
      case Some(i) => Some(i + 1)
  }

  /** While ids are 1..n, id k sits at position k - 1. */
  lemma ConsecutiveFind(t: seq<Usuario>, k: int)
    requires ConsecutiveIds(t) && 1 <= k <= |t|
    ensures FindIndex(t, Some(k)) == Some(k - 1)
  {
    assert Matches(t[k - 1], Some(k));
  }

  /** `t.find(u => u.id === key)`: the first matching record, or undefined. */
  function Find(t: seq<Usuario>, key: Option<int>): (r: Option<Usuario>)
    ensures r.Some? <==> FindIndex(t, key).Some?
    ensures r.Some? ==> r.value == t[FindIndex(t, key).value]
  {
    match FindIndex(t, key)
    case None => None
    case Some(i) => Some(t[i])
  }

  /**
   * existe_usuario(id): the first record whose id is `parseInt(id)` (the one
   * at FindIndex's position, which no earlier match precedes). Text that
   * parseInt reads as NaN finds nothing.
   */
  function ExisteUsuario(t: seq<Usuario>, idText: string): (r: Option<Usuario>)
    ensures r.Some? ==> r.value in t && Some(r.value.id) == ParseInt(idText)
    ensures r.None? <==> forall j | 0 <= j < |t| :: !Matches(t[j], ParseInt(idText))
    ensures r.Some? ==> r.value == t[FindIndex(t, ParseInt(idText)).value]
    ensures ParseInt(idText).None? ==> r.None?
  {
    Find(t, ParseInt(idText))
  }

  /** `t.indexOf(u)`: the first position holding `u`, or -1. */
  function IndexOf(t: seq<Usuario>, u: Usuario): (r: int)
    ensures -1 <= r < |t|
    ensures r == -1 <==> u !in t
    ensures 0 <= r ==> t[r] == u && forall j | 0 <= j < r :: t[j] != u
  {
    if t == [] then -1
    else if t[0] == u then 0
    else
      var k := IndexOf(t[1..], u);
      if k == -1 then -1 else k + 1
  }

  /**
   * indexOf finds the record that find returned at the very position find
   * found it: no earlier record can equal it, since an equal record has the
   * same id. So `splice(indexOf(usuario), 1)` removes the found slot, even
   * when two records are equal field for field.
   */
  lemma IndexOfFindsFoundRecord(t: seq<Usuario>, key: Option<int>)
    requires FindIndex(t, key).Some?
    ensures IndexOf(t, t[FindIndex(t, key).value]) == FindIndex(t, key).value
  {
    var i := FindIndex(t, key).value;
    var k := IndexOf(t, t[i]);
    assert k != -1;
    assert Matches(t[k], key);
  }

  /** Two records may be equal field for field once ids repeat; indexOf still agrees with find. */
  lemma IndexOfWithDuplicateRecords()
    ensures var t := [Usuario(1, "Juan"), Usuario(4, "Maria"), Usuario(4, "Maria")];
            IndexOf(t, t[FindIndex(t, Some(4)).value]) == 1
  {
    var t := [Usuario(1, "Juan"), Usuario(4, "Maria"), Usuario(4, "Maria")];
    IndexOfFindsFoundRecord(t, Some(4));
    assert !Matches(t[0], Some(4)) && Matches(t[1], Some(4));
  }
}
