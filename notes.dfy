/** The notes table and the repository that runs SQL against it
    (internal/notes/storage.go, internal/notes/data.go). */
module Notes {
  import opened Wrappers
  import opened Sql
  import opened Sets

  /** One row of the notes table; the column order is the order `SELECT *` scans. */
  datatype Note = Note(id: int, userId: int, title: string, body: string, createdAt: string)

  /** The notes table as NotesDbRepository reaches it through its *sql.DB.
      `rows` maps each primary key to its row; `nextId` is the next value of the
      id sequence; `online` says whether statements reach the database at all. */
  class NotesTable {
    var rows: map<int, Note>
    var nextId: int
    var online: bool

    /** Every row is stored under its own id, and the sequence is past every id. */
    ghost predicate Valid()
      reads this
    {
      forall id :: id in rows ==> rows[id].id == id && id < nextId
    }

    /** The rows `SELECT * FROM notes WHERE user_id = $1` matches. */
    ghost function OwnedBy(userId: int): set<Note>
      reads this
    {
      set id | id in rows && rows[id].userId == userId :: rows[id]
    }

    /** An empty table whose id sequence starts at 1. */
    constructor (online: bool)
      ensures Valid()
      ensures rows == map[] && nextId == 1 && this.online == online
    {
      rows := map[];
      nextId := 1;
      this.online := online;
    }

    /** `SELECT * FROM notes WHERE id = $1`. Nothing restricts the row to a caller. */
    method GetNote(id: int) returns (r: Result<Note, StoreError>)
      requires Valid()
      ensures r.Ok? <==> online && id in rows
      ensures r.Ok? ==> r.value.id == id && r.value == rows[id]
      ensures r.Err? ==> r.error == if online then NoRows else ConnectionFailed
    {
      if !online {
        return Err(ConnectionFailed);
      }
      if id !in rows {
        return Err(NoRows);
      }
      return Ok(rows[id]);
    }

    /** `SELECT * FROM notes WHERE user_id = $1`, appending each scanned row.
        The rows come back in no particular order, each at most once; no
        matching row gives an empty list, not an error. `interruptAt` is the
        number of rows delivered before a driver error ends `rows.Next()`
        (None when iteration runs to the end). The repository never asks
        `rows.Err()`, so an interrupted scan still succeeds with the rows it had. */
    method GetUserNotes(userId: int, interruptAt: Option<nat>) returns (r: Result<seq<Note>, StoreError>)
      requires Valid()
      ensures r.Ok? <==> online
      ensures r.Err? ==> r.error == ConnectionFailed
      ensures r.Ok? ==> multiset(r.value) <= multiset(OwnedBy(userId))
      ensures r.Ok? && (interruptAt.None? || |OwnedBy(userId)| <= interruptAt.value) ==>
        multiset(r.value) == multiset(OwnedBy(userId))
      ensures r.Ok? && interruptAt.Some? && interruptAt.value < |OwnedBy(userId)| ==>
        |r.value| == interruptAt.value
    {
      if !online {
        return Err(ConnectionFailed);
      }
      var found: seq<Note> := [];
      var remaining := rows.Keys;
      while remaining != {} && (interruptAt.None? || |found| < interruptAt.value)
        invariant remaining <= rows.Keys
        invariant multiset(found) == multiset(ScannedOwnedBy(userId, remaining))
        invariant interruptAt.Some? ==> |found| <= interruptAt.value
        decreases remaining
      {
        HasElement(remaining);
        var key :| key in remaining;
        ScannedStep(userId, remaining, key);

        if rows[key].userId == userId {
          found := found + [rows[key]];
        }
        remaining := remaining - {key};
      }
      ScannedWithin(userId, remaining);
      MultisetOfSetSize(OwnedBy(userId));
      if remaining == {} {
        assert ScannedOwnedBy(userId, {}) == OwnedBy(userId);
      } else if |OwnedBy(userId)| <= |found| {
        FullSubMultiset(multiset(found), multiset(OwnedBy(userId)));
      }
      return Ok(found);
    }

    /** The rows of `userId` whose ids are no longer in `remaining`. */
    ghost function ScannedOwnedBy(userId: int, remaining: set<int>): set<Note>
      reads this
    {
      set id | id in rows && id !in remaining && rows[id].userId == userId :: rows[id]
    }

    /** Scanning one more row adds it to the matches exactly when it is the user's. */
    lemma ScannedStep(userId: int, remaining: set<int>, id: int)
      requires Valid() && id in remaining && remaining <= rows.Keys
      ensures rows[id] !in ScannedOwnedBy(userId, remaining)
      ensures multiset(ScannedOwnedBy(userId, remaining - {id}))
           == multiset(ScannedOwnedBy(userId, remaining))
              + if rows[id].userId == userId then multiset{rows[id]} else multiset{}
    {
      var before := ScannedOwnedBy(userId, remaining);
      var after := ScannedOwnedBy(userId, remaining - {id});
      if rows[id].userId == userId {
        assert after == before + {rows[id]};
      } else {
        assert after == before;
      }
    }

    /** The rows scanned so far are rows of the user. */
    lemma ScannedWithin(userId: int, remaining: set<int>)
      ensures ScannedOwnedBy(userId, remaining) <= OwnedBy(userId)
      ensures multiset(ScannedOwnedBy(userId, remaining)) <= multiset(OwnedBy(userId))
      ensures |ScannedOwnedBy(userId, remaining)| <= |OwnedBy(userId)|
    {
      var scanned := ScannedOwnedBy(userId, remaining);
      var owned := OwnedBy(userId);
      assert scanned <= owned;
      assert owned == scanned + (owned - scanned);
    }

    /** `INSERT INTO notes (user_id, title, body, created_at) VALUES ($1, $2, $3, NOW())`.
        The new row takes the next sequence value as its id and `now` as its
        creation time; the insert is unconditional. */
    method CreateNote(userId: int, title: string, body: string, now: string) returns (r: Result<(), StoreError>)
      requires Valid()
      modifies this
      ensures Valid() && online == old(online)
      ensures r.Ok? <==> online
      ensures r.Err? ==> r.error == ConnectionFailed && rows == old(rows) && nextId == old(nextId)
      ensures r.Ok? ==> old(nextId) !in old(rows) && nextId == old(nextId) + 1
      ensures r.Ok? ==> rows == old(rows)[old(nextId) := Note(old(nextId), userId, title, body, now)]
    {
      if !online {
        return Err(ConnectionFailed);
      }
      rows := rows[nextId := Note(nextId, userId, title, body, now)];
      nextId := nextId + 1;
      return Ok(());
    }

    /** `UPDATE notes SET title = $1, body = $2 WHERE id = $3`, then the
        rows-affected check. Only the title and body of row `id` change. */
    method UpdateNote(id: int, title: string, body: string) returns (r: Result<(), StoreError>)
      requires Valid()
      modifies this
      ensures Valid() && online == old(online) && nextId == old(nextId)
      ensures r.Ok? <==> online && id in old(rows)
      ensures r.Err? ==> r.error == (if online then NoteNotFound else ConnectionFailed) && rows == old(rows)
      ensures r.Ok? ==> rows.Keys == old(rows).Keys
      ensures r.Ok? ==> rows[id] == old(rows)[id].(title := title, body := body)
      ensures r.Ok? ==> forall k :: k in old(rows) && k != id ==> rows[k] == old(rows)[k]
    {
      if !online {
        return Err(ConnectionFailed);
      }
      if id !in rows {
        return Err(NoteNotFound);
      }
      rows := rows[id := rows[id].(title := title, body := body)];
      return Ok(());
    }

    /** `DELETE FROM notes WHERE id = $1`. A missing id deletes nothing and is not an error. */
    method DeleteNote(id: int) returns (r: Result<(), StoreError>)
      requires Valid()
      modifies this
      ensures Valid() && online == old(online) && nextId == old(nextId)
      ensures r.Ok? <==> online
      ensures r.Err? ==> r.error == ConnectionFailed && rows == old(rows)
      ensures r.Ok? ==> rows == old(rows) - {id}
      ensures r.Ok? ==> id !in rows && forall k :: k in rows ==> rows[k] == old(rows)[k]
    {
      if !online {
        return Err(ConnectionFailed);
      }
      rows := rows - {id};
      return Ok(());
    }
  }
}
