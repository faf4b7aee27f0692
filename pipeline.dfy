/** The mediator as the application configures it (Program.cs): every request
    passes the validation gate, with the validators registered for its type,
    before it reaches its handler. Only create-or-update has a validator. */
module Pipeline {
  import opened Models
  import opened Data
  import opened ValidationBehavior
  import CreateOrUpdateGame
  import DeleteGame
  import GetAllGames

  const DeleteValidators: seq<Validator<DeleteGame.DeleteGameCommand>> := []
  const GetAllValidators: seq<Validator<GetAllGames.GetAllGamesCommand>> := []

  /** Sending a create-or-update command: the gate, then the handler. */
  function SendCreateOrUpdate(rows: Rows, cmd: CreateOrUpdateGame.CreateOrUpdateGameCommand, newId: Id, save: Save)
    : (out: (Reply<Result<GameDto, CreateOrUpdateGame.CreateError>>, Rows))
    ensures out.0.Rejected? <==> CreateOrUpdateGame.Validate(cmd) != []
    ensures out.0.Rejected? ==> out.0.failures == CreateOrUpdateGame.Validate(cmd) && out.1 == rows
    ensures out.0.Forwarded? ==> out == (Forwarded(CreateOrUpdateGame.Apply(rows, cmd, newId, save).0), CreateOrUpdateGame.Apply(rows, cmd, newId, save).1)
    ensures out.0 != Forwarded(Failure(CreateOrUpdateGame.NullGame))
  {
    CreateOrUpdateGame.CollectIsValidate(cmd);
    Handle(CreateOrUpdateGame.Validators, cmd, (c, r) => CreateOrUpdateGame.Apply(r, c, newId, save), rows)
  }

  /** Sending a delete command: the gate has nothing to check. */
  function SendDelete(rows: Rows, cmd: DeleteGame.DeleteGameCommand, save: Save): (out: (Reply<DeleteGame.GenericStateResponse>, Rows))
    ensures out == (Forwarded(DeleteGame.Apply(rows, cmd, save).0), DeleteGame.Apply(rows, cmd, save).1)
  {
    NoValidatorsForward(cmd, (c, r) => DeleteGame.Apply(r, c, save), rows);
    Handle(DeleteValidators, cmd, (c, r) => DeleteGame.Apply(r, c, save), rows)
  }

  /** Every persisted game passed the validator. */
  predicate AllValid(rows: Rows) {
    forall k :: k in rows ==> CreateOrUpdateGame.IsValidGame(ToDto(rows[k]))
  }

  /** Because the gate stands before the handler, the store only ever holds
      games the validator accepts, and keeps its own invariant. */
  lemma SendCreateOrUpdateKeepsStoreValid(rows: Rows, cmd: CreateOrUpdateGame.CreateOrUpdateGameCommand, newId: Id, save: Save)
    requires WellFormed(rows) && AllValid(rows) && IsFresh(newId, rows)
    ensures WellFormed(SendCreateOrUpdate(rows, cmd, newId, save).1)
    ensures AllValid(SendCreateOrUpdate(rows, cmd, newId, save).1)
  {
    var out := SendCreateOrUpdate(rows, cmd, newId, save);
    CreateOrUpdateGame.ApplyKeepsWellFormed(rows, cmd, newId, save);
    if out.0.Forwarded? && out.0.response.Success? {
      var saved := out.0.response.value;
      assert saved == cmd.game.value.(id := saved.id);
      assert CreateOrUpdateGame.IsValidGame(cmd.game.value);
      forall k | k in out.1 ensures CreateOrUpdateGame.IsValidGame(ToDto(out.1[k])) {
        if k != saved.id { assert k in rows; }
      }
    }
  }

  lemma SendDeleteKeepsStoreValid(rows: Rows, cmd: DeleteGame.DeleteGameCommand, save: Save)
    requires WellFormed(rows) && AllValid(rows)
    ensures WellFormed(SendDelete(rows, cmd, save).1) && AllValid(SendDelete(rows, cmd, save).1)
  {
    DeleteGame.ApplyKeepsWellFormed(rows, cmd, save);
  }

  /** A valid new game sent with a fresh identifier is stored under it. */
  lemma CreateAddsKey(rows: Rows, dto: GameDto, newId: Id)
    requires dto.id == EmptyId && CreateOrUpdateGame.IsValidGame(dto) && IsFresh(newId, rows)
    ensures var out := SendCreateOrUpdate(rows, CreateOrUpdateGame.CreateOrUpdateGameCommand(Some(dto)), newId, Commits);
      out.0 == Forwarded(Success(dto.(id := newId))) && out.1.Keys == rows.Keys + {newId}
  {
  }

  /** Two creates of valid games and the delete of the first, all saved, leave
      exactly the second one beside the games that were there before. */
  lemma TwoCreatesOneDelete(rows0: Rows, rows1: Rows, rows2: Rows, rows3: Rows, a: GameDto, b: GameDto, idA: Id, idB: Id, listed: seq<GameDto>)
    requires a.id == EmptyId && b.id == EmptyId
    requires CreateOrUpdateGame.IsValidGame(a) && CreateOrUpdateGame.IsValidGame(b)
    requires IsFresh(idA, rows0) && IsFresh(idB, rows1)
    requires rows1 == SendCreateOrUpdate(rows0, CreateOrUpdateGame.CreateOrUpdateGameCommand(Some(a)), idA, Commits).1
    requires rows2 == SendCreateOrUpdate(rows1, CreateOrUpdateGame.CreateOrUpdateGameCommand(Some(b)), idB, Commits).1
    requires rows3 == SendDelete(rows2, DeleteGame.DeleteGameCommand(a.(id := idA)), Commits).1
    requires GetAllGames.Lists(listed, rows3)
    ensures GetAllGames.Ids(listed) == rows0.Keys + {idB}
  {
    CreateAddsKey(rows0, a, idA);
    CreateAddsKey(rows1, b, idB);
    assert idA in rows2 && idA != idB;
    GetAllGames.ListsExactlyTheKeys(listed, rows3);
  }

  /** IMediator over the application's store. */
  class Mediator {
    const store: GameStore

    constructor (store: GameStore)
      ensures this.store == store
    {
      this.store := store;
    }

    /** Send(CreateOrUpdateGameCommand): the gate runs the validator; only a
        clean command reaches the handler. */
    method SendCreateOrUpdateGame(cmd: CreateOrUpdateGame.CreateOrUpdateGameCommand, newId: Id, save: Save)
      returns (reply: Reply<Result<GameDto, CreateOrUpdateGame.CreateError>>)
      requires store.Valid() && IsFresh(newId, store.rows)
      modifies store
      ensures store.Valid()
      ensures (reply, store.rows) == SendCreateOrUpdate(old(store.rows), cmd, newId, save)
    {
      var failures := Collect(CreateOrUpdateGame.Validators, cmd);
      CreateOrUpdateGame.CollectIsValidate(cmd);
      if failures == [] {
        var response := CreateOrUpdateGame.Handle(store, cmd, newId, save);
        reply := Forwarded(response);
      } else {
        reply := Rejected(failures);
      }
    }

    /** Send(DeleteGameCommand). */
    method SendDeleteGame(cmd: DeleteGame.DeleteGameCommand, save: Save) returns (reply: Reply<DeleteGame.GenericStateResponse>)
      requires store.Valid()
      modifies store
      ensures store.Valid()
      ensures (reply, store.rows) == SendDelete(old(store.rows), cmd, save)
    {
      var failures := Collect(DeleteValidators, cmd);
      if failures == [] {
        var response := DeleteGame.Handle(store, cmd, save);
        reply := Forwarded(response);
      } else {
        reply := Rejected(failures);
      }
    }

    /** Send(GetAllGamesCommand): always forwarded, and the store is only read. */
    method SendGetAllGames() returns (reply: Reply<seq<GameDto>>)
      requires store.Valid()
      ensures reply.Forwarded? && GetAllGames.Lists(reply.response, store.rows)
    {
      var failures := Collect(GetAllValidators, GetAllGames.GetAllGamesCommand);
      if failures == [] {
        var dtos := GetAllGames.Handle(store);
        reply := Forwarded(dtos);
      } else {
        reply := Rejected(failures);
      }
    }
  }
}
