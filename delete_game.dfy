/** Deleting a game (Features/DeleteGameCommand.cs): the handler removes the row
    with the request's identifier and reports the save's outcome as a status
    instead of throwing. */
module DeleteGame {
  import opened Models
  import opened Data

  datatype DeleteGameCommand = DeleteGameCommand(game: GameDto)

  datatype StateEnum = Ok | Ko

  /** GenericStateResponse: the state, and the failure's message on Ko. */
  datatype GenericStateResponse = GenericStateResponse(state: StateEnum, message: Option<string>)

  /** The handler's effect on the store and its response. The removal is keyed
      by the identifier alone; a failed save, including one that removes no
      row, is reported as Ko with the failure's message and changes nothing. */
  function Apply(rows: Rows, cmd: DeleteGameCommand, save: Save): (out: (GenericStateResponse, Rows))
    ensures out.0.state == Ok <==> save.Commits? && cmd.game.id in rows
    ensures out.0.state == Ok ==> out.0.message == None && cmd.game.id !in out.1 && out.1.Keys == rows.Keys - {cmd.game.id}
    ensures out.0.state == Ko ==> out.1 == rows && out.0.message.Some?
    ensures save.Throws? ==> out.0 == GenericStateResponse(Ko, Some(save.message))
    ensures save.Commits? && cmd.game.id !in rows ==> out.0 == GenericStateResponse(Ko, Some(ConcurrencyMessage))
    ensures forall k :: k in rows && k != cmd.game.id ==> k in out.1 && out.1[k] == rows[k]
  {
    var id := cmd.game.id;
    if save.Throws? then (GenericStateResponse(Ko, Some(save.message)), rows)
    else if id !in rows then (GenericStateResponse(Ko, Some(ConcurrencyMessage)), rows)
    else (GenericStateResponse(Ok, None), rows - {id})
  }

  /** Only the request's identifier decides what is removed: the other copied
      fields make no difference. */
  lemma KeyedByIdOnly(rows: Rows, a: DeleteGameCommand, b: DeleteGameCommand, save: Save)
    requires a.game.id == b.game.id
    ensures Apply(rows, a, save) == Apply(rows, b, save)
  {
  }

  /** A successful delete removes exactly one row. */
  lemma OkShrinksByOne(rows: Rows, cmd: DeleteGameCommand, save: Save)
    requires Apply(rows, cmd, save).0.state == Ok
    ensures |Apply(rows, cmd, save).1| == |rows| - 1
  {
  }

  lemma ApplyKeepsWellFormed(rows: Rows, cmd: DeleteGameCommand, save: Save)
    requires WellFormed(rows)
    ensures WellFormed(Apply(rows, cmd, save).1)
  {
  }

  /** DeleteGameCommandHandler.Handle: copies the request into an entity,
      stages its removal, saves, and turns a failed save into a Ko status. */
  method Handle(store: GameStore, cmd: DeleteGameCommand, save: Save) returns (response: GenericStateResponse)
    requires store.Valid()
    modifies store
    ensures store.Valid()
    ensures (response, store.rows) == Apply(old(store.rows), cmd, save)
  {
    var game := cmd.game;
    var entity := GameEntity(game.id, game.title, game.platform, game.genre, game.releaseDate);
    // Remove: the row with this identifier is to be deleted
    var affectsNoRow := entity.id !in store.rows;
    var staged := store.rows - {entity.id};
    // SaveChangesAsync, whose DbUpdateException is caught
    if save.Throws? {
      return GenericStateResponse(Ko, Some(save.message));
    }
    if affectsNoRow {
      return GenericStateResponse(Ko, Some(ConcurrencyMessage));
    }
    store.rows := staged;
    response := GenericStateResponse(Ok, None);
  }
}
