/**
 * The user store: the `users` table (rows keyed by their generated id plus the
 * id sequence) behind the repository object, its uniqueness invariant, and the
 * read and delete operations of the users service.
 */
module Users {
  import opened Common
  import opened UserEntity

  /** The table's rows by primary key, and the next value of the id sequence
      (sequences never hand out a value twice, even after a delete). */
  datatype Table = Table(rows: map<int, User>, nextId: int)

  /** The storage constraints: generated ids start at 1 and are below the
      sequence; usernames are unique; non-null emails are unique. Nicknames
      carry no constraint. */
  ghost predicate TableValid(t: Table)
  {
    && t.nextId >= 1
    && (forall k | k in t.rows :: t.rows[k].id == k && 1 <= k < t.nextId)
    && (forall a, b | a in t.rows && b in t.rows && t.rows[a].username == t.rows[b].username :: a == b)
    && (forall a, b | a in t.rows && b in t.rows && t.rows[a].email.Some? && t.rows[a].email == t.rows[b].email :: a == b)
  }

  /** The column conditions `findOne({ where: { … } })` is called with. */
  datatype Key = ByUsername(username: string) | ByEmail(email: string) | ByNickname(nickname: string)

  predicate Matches(u: User, k: Key)
  {
    match k
    case ByUsername(n) => u.username == n
    case ByEmail(e) => u.email == Some(e)
    case ByNickname(n) => u.nickname == Some(n)
  }

  /** Some row satisfies the condition. */
  ghost predicate Taken(t: Table, k: Key)
  {
    exists j | j in t.rows :: Matches(t.rows[j], k)
  }

  /** The smallest id at or above `from` whose row satisfies the condition. */
  function FirstMatch(t: Table, k: Key, from: int): (r: Option<int>)
    requires 1 <= from <= t.nextId
    decreases t.nextId - from
    ensures r.Some? ==> from <= r.value < t.nextId && r.value in t.rows && Matches(t.rows[r.value], k)
    ensures r.None? ==> forall j | j in t.rows && from <= j < t.nextId :: !Matches(t.rows[j], k)
  {
    if from == t.nextId then None
    else if from in t.rows && Matches(t.rows[from], k) then Some(from)
    else FirstMatch(t, k, from + 1)
  }

  /** `findOne({ where: { column: value } })` (`findByUsername`, `findByEmail`,
      `findByNickname`): a row with exactly that value, or `null`. When several
      rows match (possible only for nicknames) the row with the smallest id is
      returned. */
  function FindBy(t: Table, k: Key): (r: Option<User>)
    requires TableValid(t)
    ensures r.Some? <==> Taken(t, k)
    ensures r.Some? ==> Matches(r.value, k) && r.value.id in t.rows && t.rows[r.value.id] == r.value
  {
    match FirstMatch(t, k, 1)
    case Some(j) => Some(t.rows[j])
    case None => None
  }

  /** On a unique column the lookup finds THE row holding the value. */
  lemma FindByUnique(t: Table, j: int, k: Key)
    requires TableValid(t) && j in t.rows && Matches(t.rows[j], k)
    requires k.ByUsername? || k.ByEmail?
    ensures FindBy(t, k) == Some(t.rows[j])
  {
    var r := FindBy(t, k);
    assert Taken(t, k);
    assert t.rows[r.value.id] == r.value;
  }

  /** `findOne(id)`: the row without its password, with `bio` turned to `null`
      when empty; `NotFound` when no row has the id. */
  function FindOne(t: Table, id: int): (r: Result<UserView>)
    requires TableValid(t)
    ensures r.Err? <==> id !in t.rows
    ensures r.Err? ==> r.error == NotFound
    ensures r.Ok? ==> r.value == WithoutPassword(t.rows[id]).(bio := OrNull(t.rows[id].bio))
    ensures r.Ok? ==> r.value.id == id && (r.value.bio.Some? ==> r.value.bio.value != "")
  {
    if id in t.rows then Ok(WithoutPassword(t.rows[id]).(bio := OrNull(t.rows[id].bio)))
    else Err(NotFound)
  }

  /** The password-free rows with ids in `[from, nextId)`, in id order. */
  function ListFrom(t: Table, from: int): (r: seq<UserView>)
    requires TableValid(t) && 1 <= from <= t.nextId
    decreases t.nextId - from
    ensures forall i | 0 <= i < |r| :: from <= r[i].id && r[i].id in t.rows && r[i] == WithoutPassword(t.rows[r[i].id])
    ensures forall i, j | 0 <= i < j < |r| :: r[i].id < r[j].id
    ensures forall k | k in t.rows && from <= k :: WithoutPassword(t.rows[k]) in r
  {
    if from == t.nextId then []
    else
      var rest := ListFrom(t, from + 1);
      if from in t.rows then [WithoutPassword(t.rows[from])] + rest else rest
  }

  /** `findAll()`: one password-free entry per stored row, no row twice. */
  function FindAll(t: Table): (r: seq<UserView>)
    requires TableValid(t)
    ensures forall i | 0 <= i < |r| :: r[i].id in t.rows && r[i] == WithoutPassword(t.rows[r[i].id])
    ensures forall i, j | 0 <= i < j < |r| :: r[i].id != r[j].id
    ensures forall k | k in t.rows :: WithoutPassword(t.rows[k]) in r
  {
    ListFrom(t, 1)
  }

  /** `remove(id)`: `NotFound` for an unknown id, otherwise that row is gone and
      every other row is untouched. */
  function RemoveStep(t: Table, id: int): (r: (Result<()>, Table))
    requires TableValid(t)
    ensures TableValid(r.1)
    ensures r.0.Err? <==> id !in t.rows
    ensures r.0.Err? ==> r.0.error == NotFound && r.1 == t
    ensures r.0.Ok? ==> r.1.rows.Keys == t.rows.Keys - {id} && r.1.nextId == t.nextId
    ensures forall j | j in r.1.rows :: j in t.rows && r.1.rows[j] == t.rows[j]
  {
    if id !in t.rows then (Err(NotFound), t) else (Ok(()), Table(t.rows - {id}, t.nextId))
  }

  /** The repository object: the table it persists to. */
  class UserRepository {
    var table: Table

    ghost predicate Valid()
      reads this
    {
      TableValid(table)
    }

    /** An empty table whose sequence starts at 1. */
    constructor ()
      ensures Valid() && table == Table(map[], 1)
    {
      table := Table(map[], 1);
    }
  }

  /** `UsersService.remove`. */
  method Remove(repo: UserRepository, id: int) returns (r: Result<()>)
    requires repo.Valid()
    modifies repo
    ensures repo.Valid()
    ensures (r, repo.table) == RemoveStep(old(repo.table), id)
  {
    if id !in repo.table.rows {
      return Err(NotFound);
    }
    repo.table := repo.table.(rows := repo.table.rows - {id});
    r := Ok(());
  }
}
