/** Listing every game (Features/GetAllGamesCommand.cs): the handler reads the
    stored rows and copies each one, field for field, into a new DTO. */
module GetAllGames {
  import opened Models
  import opened Data

  datatype GetAllGamesCommand = GetAllGamesCommand

  /** `dtos` shows every stored game exactly once, as a copy of its row. */
  predicate Lists(dtos: seq<GameDto>, rows: Rows) {
    && |dtos| == |rows|
    && (forall i :: 0 <= i < |dtos| ==> dtos[i].id in rows && ToDto(rows[dtos[i].id]) == dtos[i])
    && (forall i, j :: 0 <= i < j < |dtos| ==> dtos[i].id != dtos[j].id)
    && (forall k :: k in rows ==> exists i :: 0 <= i < |dtos| && dtos[i].id == k)
  }

  function Ids(dtos: seq<GameDto>): set<Id> {
    set i | 0 <= i < |dtos| :: dtos[i].id
  }

  /** A listing names exactly the stored identifiers. */
  lemma ListsExactlyTheKeys(dtos: seq<GameDto>, rows: Rows)
    requires Lists(dtos, rows)
    ensures Ids(dtos) == rows.Keys
  {
    forall k | k in rows.Keys ensures k in Ids(dtos) {
      var i :| 0 <= i < |dtos| && dtos[i].id == k;
    }
  }

  /** The foreach loop: the i-th DTO is built from the i-th entity's fields. */
  method CopyToDtos(entities: array<GameEntity>) returns (dtos: seq<GameDto>)
    ensures |dtos| == entities.Length
    ensures forall i :: 0 <= i < |dtos| ==> dtos[i] == ToDto(entities[i])
  {
    dtos := [];
    for i := 0 to entities.Length
      invariant |dtos| == i
      invariant forall j :: 0 <= j < i ==> dtos[j] == ToDto(entities[j])
    {
      var e := entities[i];
      dtos := dtos + [GameDto(e.id, e.title, e.platform, e.genre, e.releaseDate)];
    }
  }

  /** Copying an enumeration of the rows yields a listing of them. */
  lemma {:induction false} CopyOfEnumerationLists(entities: seq<GameEntity>, dtos: seq<GameDto>, rows: Rows)
    requires Enumerates(entities, rows)
    requires |dtos| == |entities| && forall i :: 0 <= i < |dtos| ==> dtos[i] == ToDto(entities[i])
    ensures Lists(dtos, rows)
  {
    forall k | k in rows ensures exists i :: 0 <= i < |dtos| && dtos[i].id == k {
      var i :| 0 <= i < |entities| && entities[i].id == k;
      assert dtos[i].id == k;
    }
  }

  /** GetAllGamesCommandHandler.Handle: a new list holding a copy of each stored
      game. The store is only read. */
  method Handle(store: GameStore) returns (dtos: seq<GameDto>)
    requires store.Valid()
    ensures Lists(dtos, store.rows)
  {
    var entities := store.ToList();
    dtos := CopyToDtos(entities);
    CopyOfEnumerationLists(entities[..], dtos, store.rows);
  }
}
