/**
 * The backend's user service: the dictionary rewrite that swaps the plain password for its
 * hash before a user record is stored, what `create_user` returns, and the decision of
 * `login_user`. A Python `dict` is a sequence of entries with distinct keys, kept in
 * insertion order. Hashing, verification, token creation and the database are foreign:
 * their results arrive as parameters.
 */
module UserServices {
  import opened Wrappers
  import opened Lists

  /** A Python `dict`: its entries in iteration order. */
  type Dict<K, V> = seq<(K, V)>

  function Keys<K, V>(d: Dict<K, V>): (r: seq<K>)
    ensures |r| == |d| && forall k :: 0 <= k < |d| ==> r[k] == d[k].0
  {
    seq(|d|, k requires 0 <= k < |d| => d[k].0)
  }

  /** Keys are distinct, as in every `dict`. */
  predicate IsDict<K(==), V>(d: Dict<K, V>) {
    NoDuplicates(Keys(d))
  }

  /** `d.get(key)`. */
  function Lookup<K(==), V>(d: Dict<K, V>, key: K): (r: Option<V>)
    ensures r.None? <==> key !in Keys(d)
    ensures r.Some? ==> exists k :: 0 <= k < |d| && d[k] == (key, r.value)
  {
    if d == [] then None
    else if d[0].0 == key then Some(d[0].1)
    else
      var r := Lookup(d[1..], key);
      assert Keys(d) == [d[0].0] + Keys(d[1..]);
      assert r.Some? ==> exists k :: 0 <= k < |d[1..]| && d[1..][k] == (key, r.value);
      r
  }

  /**
   * `d[key] = value`: an existing key keeps its place and takes the new value, a new key
   * goes at the end.
   */
  function Assign<K(==), V>(d: Dict<K, V>, key: K, value: V): (r: Dict<K, V>)
    ensures key in Keys(d) ==> |r| == |d| && forall k :: 0 <= k < |d| ==>
      r[k] == (if d[k].0 == key then (key, value) else d[k])
    ensures key !in Keys(d) ==> r == d + [(key, value)]
  {
    if key in Keys(d) then
      seq(|d|, k requires 0 <= k < |d| => if d[k].0 == key then (key, value) else d[k])
    else d + [(key, value)]
  }

  /** What the loop of `_mutate_dict` has built after its first `n` entries. */
  function MutatePrefix<K(==), V>(mapping: Dict<K, V>, n: nat, oldKey: K, newKey: K, newValue: V): Dict<K, V>
    requires n <= |mapping|
  {
    if n == 0 then []
    else
      var (k, v) := mapping[n - 1];
      var rest := MutatePrefix(mapping, n - 1, oldKey, newKey, newValue);
      if k == oldKey then Assign(rest, newKey, newValue) else Assign(rest, k, v)
  }

  /** The result of `_mutate_dict`. */
  function Mutate<K(==), V>(mapping: Dict<K, V>, oldKey: K, newKey: K, newValue: V): Dict<K, V> {
    MutatePrefix(mapping, |mapping|, oldKey, newKey, newValue)
  }

  /** `_mutate_dict`: copies the entries in order, putting `newKey: newValue` where `oldKey` was. */
  method MutateDict<K(==), V>(mapping: Dict<K, V>, oldKey: K, newKey: K, newValue: V)
    returns (mutated: Dict<K, V>)
    ensures mutated == Mutate(mapping, oldKey, newKey, newValue)
  {
    mutated := [];
    var i := 0;
    while i < |mapping|
      invariant 0 <= i <= |mapping|
      invariant mutated == MutatePrefix(mapping, i, oldKey, newKey, newValue)
    {
      var (k, v) := mapping[i];
      if k == oldKey {
        mutated := Assign(mutated, newKey, newValue);
      } else {
        mutated := Assign(mutated, k, v);
      }
      i := i + 1;
    }
  }

  /** The reference: every `oldKey` entry becomes `newKey: newValue` in place; the rest stay. */
  function Renamed<K(==), V>(d: Dict<K, V>, oldKey: K, newKey: K, newValue: V): (r: Dict<K, V>)
    ensures |r| == |d|
  {
    seq(|d|, k requires 0 <= k < |d| => if d[k].0 == oldKey then (newKey, newValue) else d[k])
  }

  /**
   * On a dict where `newKey` is not already another entry's key, the loop does exactly the
   * in-place rename.
   */
  lemma {:induction false} MutateIsRename<K, V>(d: Dict<K, V>, n: nat, oldKey: K, newKey: K, newValue: V)
    requires IsDict(d) && n <= |d|
    requires oldKey !in Keys(d) || newKey == oldKey || newKey !in Keys(d)
    ensures MutatePrefix(d, n, oldKey, newKey, newValue) == Renamed(d[..n], oldKey, newKey, newValue)
  {
    if n > 0 {
      MutateIsRename(d, n - 1, oldKey, newKey, newValue);
      var rest := Renamed(d[..n - 1], oldKey, newKey, newValue);
      var (k, v) := d[n - 1];
      var key := if k == oldKey then newKey else k;
      var value := if k == oldKey then newValue else v;
      assert key !in Keys(rest) by {
        forall m | 0 <= m < |rest| ensures rest[m].0 != key {
          assert d[m].0 != k by { assert Keys(d)[m] != Keys(d)[n - 1]; }
          if k == oldKey && newKey != oldKey {
            assert newKey !in Keys(d) by { assert oldKey == Keys(d)[n - 1]; }
            assert d[m].0 != newKey by { assert Keys(d)[m] == d[m].0; }
          } else if k != oldKey && d[m].0 == oldKey {
            assert newKey == oldKey || newKey !in Keys(d) by { assert Keys(d)[m] == oldKey; }
            assert newKey != k by { assert Keys(d)[n - 1] == k; }
          }
        }
      }
      assert Renamed(d[..n], oldKey, newKey, newValue) == rest + [(key, value)];
    }
  }

  /** Keys only ever come from the input or from `newKey`; an `oldKey` other than `newKey` never survives. */
  lemma {:induction false} MutateDropsOldKey<K, V>(d: Dict<K, V>, n: nat, oldKey: K, newKey: K, newValue: V)
    requires n <= |d| && newKey != oldKey
    ensures oldKey !in Keys(MutatePrefix(d, n, oldKey, newKey, newValue))
  {
    if n > 0 {
      MutateDropsOldKey(d, n - 1, oldKey, newKey, newValue);
      var rest := MutatePrefix(d, n - 1, oldKey, newKey, newValue);
      var (k, v) := d[n - 1];
      if k == oldKey {
        AssignKeys(rest, newKey, newValue);
      } else {
        AssignKeys(rest, k, v);
      }
    }
  }

  lemma AssignKeys<K, V>(d: Dict<K, V>, key: K, value: V)
    ensures forall x :: x in Keys(Assign(d, key, value)) ==> x in Keys(d) || x == key
  {
    var r := Assign(d, key, value);
    forall x | x in Keys(r) ensures x in Keys(d) || x == key {
      var m :| 0 <= m < |r| && Keys(r)[m] == x;
      if m < |d| && x != key {
        assert Keys(d)[m] == x;
      }
    }
  }

  /**
   * The properties `_mutate_dict` is used for: with `oldKey` present and `newKey` new, the
   * result maps `newKey` to `newValue`, `oldKey` is gone, every other entry keeps its key,
   * value and place, and `newKey` takes `oldKey`'s place; with `oldKey` absent the dict comes
   * back unchanged.
   */
  lemma MutateDictSpec<K, V>(d: Dict<K, V>, oldKey: K, newKey: K, newValue: V)
    requires IsDict(d)
    ensures oldKey in Keys(d) && newKey !in Keys(d) ==> Lookup(Mutate(d, oldKey, newKey, newValue), newKey) == Some(newValue)
    ensures newKey != oldKey ==> oldKey !in Keys(Mutate(d, oldKey, newKey, newValue))
    ensures newKey !in Keys(d) ==>
      var r := Mutate(d, oldKey, newKey, newValue);
      |r| == |d| && forall k :: 0 <= k < |d| ==>
        (d[k].0 == oldKey ==> r[k] == (newKey, newValue)) && (d[k].0 != oldKey ==> r[k] == d[k])
    ensures oldKey !in Keys(d) ==> Mutate(d, oldKey, newKey, newValue) == d
  {
    var r := Mutate(d, oldKey, newKey, newValue);
    assert d[..|d|] == d;
    if newKey != oldKey {
      MutateDropsOldKey(d, |d|, oldKey, newKey, newValue);
    }
    if oldKey !in Keys(d) {
      MutateIsRename(d, |d|, oldKey, newKey, newValue);
      assert forall k :: 0 <= k < |d| ==> d[k].0 != oldKey by {
        forall k | 0 <= k < |d| ensures d[k].0 != oldKey { assert Keys(d)[k] == d[k].0; }
      }
    }
    if newKey !in Keys(d) {
      MutateIsRename(d, |d|, oldKey, newKey, newValue);
      if oldKey in Keys(d) {
        var m :| 0 <= m < |d| && Keys(d)[m] == oldKey;
        assert r[m] == (newKey, newValue);
        assert Keys(r)[m] == newKey;
        var found := Lookup(r, newKey);
        var j :| 0 <= j < |r| && r[j] == (newKey, found.value);
        assert d[j].0 == oldKey by { assert Keys(d)[j] == d[j].0; }
      }
    }
  }

  /**
   * When `newKey` is already a key, the result depends on order: an entry after `oldKey`
   * overwrites `newValue`, one before it is overwritten.
   */
  lemma MutateCollision<K, V>(oldKey: K, newKey: K, a: V, b: V, newValue: V)
    requires oldKey != newKey
    ensures Mutate([(oldKey, a), (newKey, b)], oldKey, newKey, newValue) == [(newKey, b)]
    ensures Mutate([(newKey, b), (oldKey, a)], oldKey, newKey, newValue) == [(newKey, newValue)]
  {
    var d1 := [(oldKey, a), (newKey, b)];
    assert MutatePrefix(d1, 1, oldKey, newKey, newValue) == [(newKey, newValue)];
    AssignSingle(newKey, newValue, b);
    var d2 := [(newKey, b), (oldKey, a)];
    assert MutatePrefix(d2, 1, oldKey, newKey, newValue) == [(newKey, b)];
    AssignSingle(newKey, b, newValue);
  }

  /** Assigning to the only key of a one-entry dict replaces its value. */
  lemma AssignSingle<K, V>(key: K, v: V, w: V)
    ensures Assign([(key, v)], key, w) == [(key, w)]
  {
    assert Keys([(key, v)]) == [key];
  }

  // ---- create_user -------------------------------------------------------------------

  /** A `UserCreate` payload. */
  datatype UserCreate = UserCreate(first_name: string, surname: string, email: string, password: string)

  /** `payload.model_dump()`: the fields in declaration order. */
  function Dump(p: UserCreate): Dict<string, string> {
    [("first_name", p.first_name), ("surname", p.surname), ("email", p.email), ("password", p.password)]
  }

  /** The record `create_user` inserts: the dump with `password` replaced by `password_hash`. */
  function InsertedRecord(p: UserCreate, hashed: string): Dict<string, string> {
    Mutate(Dump(p), "password", "password_hash", hashed)
  }

  /**
   * The stored record carries the hash under `password_hash` in the password's place, no
   * `password` key at all, and the other fields as given.
   */
  lemma InsertedRecordHidesPassword(p: UserCreate, hashed: string)
    ensures InsertedRecord(p, hashed) ==
      [("first_name", p.first_name), ("surname", p.surname), ("email", p.email), ("password_hash", hashed)]
    ensures "password" !in Keys(InsertedRecord(p, hashed))
    ensures Lookup(InsertedRecord(p, hashed), "password_hash") == Some(hashed)
  {
    var d := Dump(p);
    assert |"first_name"| == 10 && |"surname"| == 7 && |"email"| == 5;
    assert |"password"| == 8 && |"password_hash"| == 13;
    RenameLastOfFour("first_name", "surname", "email", "password", "password_hash",
                     p.first_name, p.surname, p.email, p.password, hashed);
    assert "password" !in ["first_name", "surname", "email", "password_hash"];
  }

  /** The rename on a four-entry dict whose last key is replaced by a fresh one. */
  lemma RenameLastOfFour<K, V>(a: K, b: K, c: K, o: K, n: K, x: V, y: V, z: V, w: V, h: V)
    requires a != b && a != c && a != o && b != c && b != o && c != o
    requires n != a && n != b && n != c && n != o
    ensures Mutate([(a, x), (b, y), (c, z), (o, w)], o, n, h) == [(a, x), (b, y), (c, z), (n, h)]
    ensures Keys([(a, x), (b, y), (c, z), (n, h)]) == [a, b, c, n]
    ensures Lookup([(a, x), (b, y), (c, z), (n, h)], n) == Some(h)
  {
    var d := [(a, x), (b, y), (c, z), (o, w)];
    assert MutatePrefix(d, 1, o, n, h) == [(a, x)];
    assert MutatePrefix(d, 2, o, n, h) == [(a, x), (b, y)];
    assert MutatePrefix(d, 3, o, n, h) == [(a, x), (b, y), (c, z)];
  }

  /** What `create_user` returns for the insert's outcome: the first row, `None` for no row, and a database error raised again. */
  function CreateUserResult<R>(inserted: Result<seq<R>, string>): (r: Result<Option<R>, string>)
    ensures inserted.Failure? ==> r == Failure(inserted.error)
    ensures inserted.Success? ==> r.Success? && (r.value.None? <==> inserted.value == [])
    ensures inserted.Success? && inserted.value != [] ==> r.value == Some(inserted.value[0])
  {
    match inserted
    case Failure(e) => Failure(e)
    case Success(rows) => Success(if rows != [] then Some(rows[0]) else None)
  }

  // ---- login_user --------------------------------------------------------------------

  /** Why `login_user` raises: the query failed, no user has the email, or the password is wrong. */
  datatype LoginFailure =
    | QueryFailed(error: string)
    | NoSuchUser
    | HttpError(status: nat, detail: string)

  const Mismatch := "Email or password do not match!"

  /**
   * `login_user`: the password hash of the first row for the email is checked with
   * `verify`; a match returns `token` (the access token the security service would make).
   * `rows` holds the hashes the query returned, or its error.
   */
  function LoginUser(password: string, rows: Result<seq<string>, string>,
                     verify: (string, string) -> bool, token: string): (r: Result<string, LoginFailure>)
    ensures r.Success? <==> rows.Success? && rows.value != [] && verify(password, rows.value[0])
    ensures r.Success? ==> r.value == token
    ensures rows.Failure? ==> r == Failure(QueryFailed(rows.error))
    ensures rows == Success([]) ==> r == Failure(NoSuchUser)
    ensures rows.Success? && rows.value != [] && !verify(password, rows.value[0]) ==>
      r == Failure(HttpError(404, Mismatch))
  {
    match rows
    case Failure(e) => Failure(QueryFailed(e))
    case Success(hashes) =>
      if hashes == [] then Failure(NoSuchUser)
      else if verify(password, hashes[0]) then Success(token)
      else Failure(HttpError(404, Mismatch))
  }

  /** Only the first row for the email is consulted: later rows never change the outcome. */
  lemma LoginUsesFirstRow(password: string, first: string, more: seq<string>,
                          verify: (string, string) -> bool, token: string)
    ensures LoginUser(password, Success([first] + more), verify, token) ==
            LoginUser(password, Success([first]), verify, token)
  {
  }
}
