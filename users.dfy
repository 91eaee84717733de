/** The users table and the repository that runs SQL against it
    (internal/users/data.go). The User record's fields are the columns its
    `SELECT *` scans, in that order. */
module Users {
  import opened Wrappers
  import opened Sql
  import opened Sets

  /** One row of the users table. The model assumes no unique index on `email`:
      the migrations are not part of this model, and the Go code never checks. */
  datatype User = User(id: int, email: string, hashedPassword: string, createdAt: string)

  /** The users table as UsersDbRepository reaches it through its *sql.DB.
      `rows` maps each primary key to its row; `nextId` is the next value of the
      id sequence; `online` says whether statements reach the database at all. */
  class UsersTable {
    var rows: map<int, User>
    var nextId: int
    var online: bool

    /** Every row is stored under its own id, and the sequence is past every id. */
    ghost predicate Valid()
      reads this
    {
      forall id :: id in rows ==> rows[id].id == id && id < nextId
    }

    /** The ids of the rows `WHERE email = $1` matches. */
    ghost function WithEmail(email: string): set<int>
      reads this
    {
      set id | id in rows && rows[id].email == email
    }

    /** No two rows share an email. The modelled table does not enforce this. */
    ghost predicate UniqueEmails()
      reads this
    {
      forall i, j :: i in rows && j in rows && rows[i].email == rows[j].email ==> i == j
    }

    /** An empty table whose id sequence starts at 1. */
    constructor (online: bool)
      ensures Valid()
      ensures rows == map[] && nextId == 1 && this.online == online
    {
      rows := map[];
      nextId := 1;
      this.online := online;
    }

    /** `SELECT * FROM users WHERE id = $1`. */
    method GetUserById(id: int) returns (r: Result<User, StoreError>)
      requires Valid()
      ensures r.Ok? <==> online && id in rows
      ensures r.Ok? ==> r.value.id == id && r.value == rows[id]
      ensures r.Err? ==> r.error == if online then NoRows else ConnectionFailed
    {
      if !online {
        return Err(ConnectionFailed);
      }
      if id !in rows {
        return Err(NoRows);
      }
      return Ok(rows[id]);
    }

    /** `SELECT * FROM users WHERE email = $1` through QueryRow, which scans the
        first row the database returns. With no ORDER BY that may be any
        matching row, so the choice here is left open. */
    method GetUserByEmail(email: string) returns (r: Result<User, StoreError>)
      requires Valid()
      ensures r.Ok? <==> online && WithEmail(email) != {}
      ensures r.Ok? ==> r.value.email == email && r.value.id in rows && rows[r.value.id] == r.value
      ensures r.Err? ==> r.error == if online then NoRows else ConnectionFailed
    {
      if !online {
        return Err(ConnectionFailed);
      }
      var matching := set id | id in rows && rows[id].email == email;
      if matching == {} {
        return Err(NoRows);
      }
      HasElement(matching);
      var id :| id in matching;
      return Ok(rows[id]);
    }

    /** `INSERT INTO users (email, hashed_password, created_at) VALUES ($1, $2, NOW())`.
        The insert is unconditional: an email already present is inserted again. */
    method CreateUser(email: string, hashedPassword: string, now: string) returns (r: Result<(), StoreError>)
      requires Valid()
      modifies this
      ensures Valid() && online == old(online)
      ensures r.Ok? <==> online
      ensures r.Err? ==> r.error == ConnectionFailed && rows == old(rows) && nextId == old(nextId)
      ensures r.Ok? ==> old(nextId) !in old(rows) && nextId == old(nextId) + 1
      ensures r.Ok? ==> rows == old(rows)[old(nextId) := User(old(nextId), email, hashedPassword, now)]
    {
      if !online {
        return Err(ConnectionFailed);
      }
      rows := rows[nextId := User(nextId, email, hashedPassword, now)];
      nextId := nextId + 1;
      return Ok(());
    }

    /** Two inserts of one email both succeed and leave two rows with that email. */
    method CreateUserTwice(email: string, firstHash: string, secondHash: string, now: string)
      returns (first: Result<(), StoreError>, second: Result<(), StoreError>)
      requires Valid()
      modifies this
      ensures Valid()
      ensures first.Ok? <==> old(online)
      ensures second.Ok? <==> old(online)
      ensures old(online) ==> {old(nextId), old(nextId) + 1} <= WithEmail(email) && !UniqueEmails()
    {
      first := CreateUser(email, firstHash, now);
      second := CreateUser(email, secondHash, now);
      if old(online) {
        assert rows[old(nextId)].email == email && rows[old(nextId) + 1].email == email;
      }
    }

    /** `UPDATE users SET email = $1, hashed_password = $2 WHERE id = $3`, then the
        rows-affected check. Only the email and hash of row `id` change. */
    method UpdateUser(id: int, email: string, hashedPassword: string) returns (r: Result<(), StoreError>)
      requires Valid()
      modifies this
      ensures Valid() && online == old(online) && nextId == old(nextId)
      ensures r.Ok? <==> online && id in old(rows)
      ensures r.Err? ==> r.error == (if online then UserNotFound else ConnectionFailed) && rows == old(rows)
      ensures r.Ok? ==> rows.Keys == old(rows).Keys
      ensures r.Ok? ==> rows[id] == old(rows)[id].(email := email, hashedPassword := hashedPassword)
      ensures r.Ok? ==> forall k :: k in old(rows) && k != id ==> rows[k] == old(rows)[k]
    {
      if !online {
        return Err(ConnectionFailed);
      }
      if id !in rows {
        return Err(UserNotFound);
      }
      rows := rows[id := rows[id].(email := email, hashedPassword := hashedPassword)];
      return Ok(());
    }

    /** `DELETE FROM users WHERE id = $1`. Unlike UpdateUser, a missing id is not an error. */
    method DeleteUser(id: int) returns (r: Result<(), StoreError>)
      requires Valid()
      modifies this
      ensures Valid() && online == old(online) && nextId == old(nextId)
      ensures r.Ok? <==> online
      ensures r.Err? ==> r.error == ConnectionFailed && rows == old(rows)
      ensures r.Ok? ==> rows == old(rows) - {id}
      ensures r.Ok? ==> id !in rows && forall k :: k in rows ==> rows[k] == old(rows)[k]
    {
      if !online {
        return Err(ConnectionFailed);
      }
      rows := rows - {id};
      return Ok(());
    }
  }
}
