/** The `user` table the resolvers and the refresh route work on: rows keyed by
    an id assigned from a serial counter, a unique email, the stored password hash
    and the per-user token version, which only the revoke mutation changes. */
module UserStore {
  import opened Wrappers
  import Js

  datatype User = User(id: int, email: string, password: string, tokenVersion: nat)

  /** The table as a value: its rows and the next id the serial column hands out. */
  datatype Store = Store(rows: map<int, User>, nextId: int)

  /** A fresh database: no rows, ids start at 1. */
  const Empty := Store(map[], 1)

  predicate EmailTaken(rows: map<int, User>, email: string)
  {
    exists id :: id in rows && rows[id].email == email
  }

  ghost predicate EmailsUnique(rows: map<int, User>)
  {
    forall i, j :: i in rows && j in rows && rows[i].email == rows[j].email ==> i == j
  }

  /** The table's invariant: each row sits under its own id, every id was handed out
      by the counter before, and the unique constraint on email holds. */
  ghost predicate Consistent(s: Store)
  {
    && 1 <= s.nextId
    && (forall id :: id in s.rows ==> s.rows[id].id == id && id < s.nextId)
    && EmailsUnique(s.rows)
  }

  /** Everything about a row except its token version. */
  predicate SameAccount(u: User, v: User)
  {
    u.id == v.id && u.email == v.email && u.password == v.password
  }

  /** `User.insert({email, password})` when the insert goes through. */
  function Insert(s: Store, email: string, hashed: string): (r: Store)
    requires Consistent(s) && !EmailTaken(s.rows, email)
    ensures Consistent(r)
    ensures s.nextId !in s.rows && r.rows.Keys == s.rows.Keys + {s.nextId}
    ensures forall id :: id in s.rows ==> r.rows[id] == s.rows[id]
    ensures r.rows[s.nextId] == User(s.nextId, email, hashed, 0)
    ensures r.nextId > s.nextId
  {
    Store(s.rows[s.nextId := User(s.nextId, email, hashed, 0)], s.nextId + 1)
  }

  /** Whether the insert of a row with this email goes through: it fails on a
      storage fault or when the unique constraint on email is violated. */
  predicate InsertSucceeds(s: Store, email: string, storageFault: bool)
  {
    !storageFault && !EmailTaken(s.rows, email)
  }

  /** `increment({ id }, 'tokenVersion', 1)`: an UPDATE that matches at most one row. */
  function Increment(rows: map<int, User>, id: int): (r: map<int, User>)
    ensures r.Keys == rows.Keys
    ensures id in rows ==> SameAccount(r[id], rows[id]) && r[id].tokenVersion == rows[id].tokenVersion + 1
    ensures forall k :: k in rows && k != id ==> r[k] == rows[k]
    ensures id !in rows ==> r == rows
  {
    if id in rows then rows[id := rows[id].(tokenVersion := rows[id].tokenVersion + 1)] else rows
  }

  /** `User.findOne({ id: v })`: only a number selects a row. */
  function FindById(rows: map<int, User>, v: Js.Value): (r: Option<User>)
    ensures r.Some? <==> v.Num? && v.n in rows
    ensures r.Some? ==> r.value == rows[v.n]
  {
    if v.Num? && v.n in rows then Some(rows[v.n]) else None
  }

  /** `User.findOne({ where: { email } })`; the unique constraint makes the row unique. */
  function FindByEmail(rows: map<int, User>, email: string): (r: Option<User>)
    requires EmailsUnique(rows)
    ensures r.Some? <==> EmailTaken(rows, email)
    ensures r.Some? ==> r.value.email == email && exists id :: id in rows && rows[id] == r.value
  {
    if EmailTaken(rows, email) then
      var id :| id in rows && rows[id].email == email;
      Some(rows[id])
    else
      None
  }

  /** The two ways the table is written to. */
  datatype Mutation =
    | RegisterUser(email: string, hashed: string, storageFault: bool)
    | RevokeUser(userId: int)

  /** The table after one mutation, failed inserts included. */
  function Apply(s: Store, m: Mutation): (r: Store)
    requires Consistent(s)
    ensures Consistent(r)
    ensures s.rows.Keys <= r.rows.Keys
    ensures forall id :: id in s.rows ==>
              SameAccount(r.rows[id], s.rows[id]) && s.rows[id].tokenVersion <= r.rows[id].tokenVersion
  {
    match m
    case RegisterUser(email, hashed, storageFault) =>
      if InsertSucceeds(s, email, storageFault) then Insert(s, email, hashed) else s
    case RevokeUser(id) =>
      Store(Increment(s.rows, id), s.nextId)
  }

  /** The table after a sequence of mutations, applied in order. */
  function Run(s: Store, ms: seq<Mutation>): (r: Store)
    requires Consistent(s)
    ensures Consistent(r)
    decreases |ms|
  {
    if ms == [] then s else Run(Apply(s, ms[0]), ms[1..])
  }

  lemma {:induction false} RunAppend(s: Store, a: seq<Mutation>, b: seq<Mutation>)
    requires Consistent(s)
    ensures Run(s, a + b) == Run(Run(s, a), b)
    decreases |a|
  {
    if a != [] {
      assert (a + b)[0] == a[0];
      assert (a + b)[1..] == a[1..] + b;
      RunAppend(Apply(s, a[0]), a[1..], b);
    } else {
      assert a + b == b;
    }
  }

  /** No mutation deletes a row, alters its id, email or password, or lowers its
      token version. */
  lemma {:induction false} VersionsNeverDecrease(s: Store, ms: seq<Mutation>)
    requires Consistent(s)
    ensures s.rows.Keys <= Run(s, ms).rows.Keys
    ensures forall id :: id in s.rows ==>
              SameAccount(Run(s, ms).rows[id], s.rows[id]) &&
              s.rows[id].tokenVersion <= Run(s, ms).rows[id].tokenVersion
    decreases |ms|
  {
    if ms != [] {
      VersionsNeverDecrease(Apply(s, ms[0]), ms[1..]);
    }
  }

  /** Once a user's tokens are revoked, the version stays above every value it had
      before the revoke, whatever mutations follow. */
  lemma RevokeOutdatesSnapshot(s: Store, pre: seq<Mutation>, id: int, post: seq<Mutation>)
    requires Consistent(s) && id in Run(s, pre).rows
    ensures id in Run(s, pre + [RevokeUser(id)] + post).rows
    ensures Run(s, pre + [RevokeUser(id)] + post).rows[id].tokenVersion
            >= Run(s, pre).rows[id].tokenVersion + 1
  {
    var r := RevokeUser(id);
    var mid := Run(s, pre);
    var revoked := Apply(mid, r);
    assert revoked.rows[id].tokenVersion == mid.rows[id].tokenVersion + 1;
    assert Run(mid, [r]) == revoked by {
      assert [r][1..] == [];
    }
    RunAppend(s, pre, [r]);
    RunAppend(s, pre + [r], post);
    VersionsNeverDecrease(revoked, post);
  }

  /** Only a revoke of that very id changes a row: inserts and revokes of other
      users leave it as it was. */
  lemma {:induction false} UntouchedWithoutRevoke(s: Store, ms: seq<Mutation>, id: int)
    requires Consistent(s) && id in s.rows
    requires forall i :: 0 <= i < |ms| ==> ms[i] != RevokeUser(id)
    ensures id in Run(s, ms).rows && Run(s, ms).rows[id] == s.rows[id]
    decreases |ms|
  {
    if ms != [] {
      UntouchedWithoutRevoke(Apply(s, ms[0]), ms[1..], id);
    }
  }

  /** The table as the server holds it: updated in place by the mutations. */
  class UserTable {
    var rows: map<int, User>
    var nextId: int

    function State(): Store
      reads this
    {
      Store(rows, nextId)
    }

    ghost predicate Valid()
      reads this
    {
      Consistent(State())
    }

    constructor ()
      ensures Valid() && State() == Empty
    {
      rows := map[];
      nextId := 1;
    }
  }
}
