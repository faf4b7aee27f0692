/** The persistence backend behind the handlers, abstracted to a table of games
    keyed by their identifier. Saving pending changes either commits them all
    or throws with a message; which of the two happens is decided by the
    backend and enters the model as a parameter. */
module Data {
  import opened Models

  type Rows = map<Id, GameEntity>

  /** The outcome of SaveChangesAsync as the backend decides it. */
  datatype Save = Commits | Throws(message: string)

  /** The message of the concurrency failure that a save raises when an update
      or a removal affects no stored row. */
  const ConcurrencyMessage: string := "Attempted to update or delete an entity that does not exist in the store."

  /** The store's invariant: the empty identifier is never a key, and every row
      is stored under its own identifier. */
  predicate WellFormed(rows: Rows) {
    && EmptyId !in rows
    && forall k :: k in rows ==> rows[k].id == k
  }

  /** What the key generator promises of a new identifier. */
  predicate IsFresh(id: Id, rows: Rows) {
    id != EmptyId && id !in rows
  }

  /** `list` holds every row of the store exactly once, in some order. */
  predicate Enumerates(list: seq<GameEntity>, rows: Rows) {
    && |list| == |rows|
    && (forall i :: 0 <= i < |list| ==> list[i].id in rows && rows[list[i].id] == list[i])
    && (forall i, j :: 0 <= i < j < |list| ==> list[i].id != list[j].id)
    && (forall k :: k in rows ==> exists i :: 0 <= i < |list| && list[i].id == k)
  }

  /** Some identifier is always available to the key generator. */
  lemma {:induction false} FreshIdExists(rows: Rows)
    ensures exists id :: IsFresh(id, rows)
  {
    var b := UpperBound(rows.Keys);
    assert IsFresh(b + 1, rows);
  }

  lemma {:induction false} UpperBound(ids: set<Id>) returns (b: Id)
    ensures forall x :: x in ids ==> x <= b
    decreases |ids|
  {
    if ids == {} {
      b := 0;
    } else {
      var x :| x in ids;
      var rest := UpperBound(ids - {x});
      b := if x <= rest then rest else x;
      forall y | y in ids ensures y <= b {
        if y != x { assert y in ids - {x}; }
      }
    }
  }

  /** The Games table of the database context. */
  class GameStore {
    var rows: Rows

    predicate Valid()
      reads this
    {
      WellFormed(rows)
    }

    constructor ()
      ensures Valid() && rows == map[]
    {
      rows := map[];
    }

    /** ToListAsync: the stored rows, in an order the backend chooses. */
    method ToList() returns (entities: array<GameEntity>)
      requires Valid()
      ensures fresh(entities)
      ensures Enumerates(entities[..], rows)
    {
      var pending := rows.Keys;
      var acc: seq<GameEntity> := [];
      while pending != {}
        invariant pending <= rows.Keys
        invariant |acc| + |pending| == |rows|
        invariant forall i :: 0 <= i < |acc| ==> acc[i].id in rows && rows[acc[i].id] == acc[i] && acc[i].id !in pending
        invariant forall i, j :: 0 <= i < j < |acc| ==> acc[i].id != acc[j].id
        invariant forall k :: k in rows && k !in pending ==> exists i :: 0 <= i < |acc| && acc[i].id == k
        decreases |pending|
      {
        var k :| k in pending;
        ghost var before := acc;
        acc := acc + [rows[k]];
        pending := pending - {k};
        forall j | j in rows && j !in pending
          ensures exists i :: 0 <= i < |acc| && acc[i].id == j
        {
          if j == k {
            assert acc[|acc| - 1].id == j;
          } else {
            var i :| 0 <= i < |before| && before[i].id == j;
            assert acc[i].id == j;
          }
        }
      }
      entities := new GameEntity[|acc|](i requires 0 <= i < |acc| => acc[i]);
      assert entities[..] == acc;
    }
  }
}
