/** Creating or updating a game (Features/CreateOrUpdateGameCommand.cs): the
    command, its validator, and the handler that inserts a game with the empty
    identifier under a newly generated one, or replaces the stored game with
    the same identifier. */
module CreateOrUpdateGame {
  import opened Models
  import opened Data
  import ValidationBehavior

  /** The command carries the DTO being submitted, which may be null. */
  datatype CreateOrUpdateGameCommand = CreateOrUpdateGameCommand(game: Option<GameDto>)

  // ---------------------------------------------------------------- validator

  const GameIsNull: ValidationFailure := ValidationFailure("Game", "Game is null")
  const TitleRequired: ValidationFailure := ValidationFailure("Game.Title", "Title is required")
  const GenreRequired: ValidationFailure := ValidationFailure("Game.Genre", "Genre is required")
  const PlatformRequired: ValidationFailure := ValidationFailure("Game.Platform", "Platform is required")
  const ReleaseDateIsDefault: ValidationFailure := ValidationFailure("Game.ReleaseDate", "Release Date cannot be default")

  /** A game every field rule accepts. */
  predicate IsValidGame(g: GameDto) {
    !Blank(g.title) && !Blank(g.genre) && !Blank(g.platform) && g.releaseDate > DefaultDate
  }

  /** The position of a field rule in the validator, used to state rule order. */
  function RuleRank(f: ValidationFailure): nat {
    if f == TitleRequired then 0
    else if f == GenreRequired then 1
    else if f == PlatformRequired then 2
    else 3
  }

  function Rule(passes: bool, failure: ValidationFailure): seq<ValidationFailure> {
    if passes then [] else [failure]
  }

  /** CreateOrUpdateGameCommandValidator: the failures for one command, in rule
      order. A null game fails the first rule. */
  function Validate(cmd: CreateOrUpdateGameCommand): (failures: seq<ValidationFailure>)
    ensures cmd.game.None? ==> |failures| > 0 && failures[0] == GameIsNull
    ensures cmd.game.Some? ==> (failures == [] <==> IsValidGame(cmd.game.value))
    ensures cmd.game.Some? ==> (TitleRequired in failures <==> Blank(cmd.game.value.title))
    ensures cmd.game.Some? ==> (GenreRequired in failures <==> Blank(cmd.game.value.genre))
    ensures cmd.game.Some? ==> (PlatformRequired in failures <==> Blank(cmd.game.value.platform))
    ensures cmd.game.Some? ==> (ReleaseDateIsDefault in failures <==> cmd.game.value.releaseDate <= DefaultDate)
    ensures cmd.game.Some? ==> forall i, j :: 0 <= i < j < |failures| ==> RuleRank(failures[i]) < RuleRank(failures[j])
    ensures cmd.game.Some? ==> forall f :: f in failures ==> f in [TitleRequired, GenreRequired, PlatformRequired, ReleaseDateIsDefault]
  {
    match cmd.game
    case None => [GameIsNull]
    case Some(g) =>
      Rule(!Blank(g.title), TitleRequired)
      + Rule(!Blank(g.genre), GenreRequired)
      + Rule(!Blank(g.platform), PlatformRequired)
      + Rule(g.releaseDate > DefaultDate, ReleaseDateIsDefault)
  }

  /** The validators registered for this command: just the one above. */
  const Validators: seq<ValidationBehavior.Validator<CreateOrUpdateGameCommand>> :=
    [cmd => ValidationBehavior.AsErrors(Validate(cmd))]

  /** The gate collects exactly the validator's failures for this command. */
  lemma CollectIsValidate(cmd: CreateOrUpdateGameCommand)
    ensures ValidationBehavior.Collect(Validators, cmd) == Validate(cmd)
  {
    ValidationBehavior.CollectSingle(Validators[0], cmd);
    ValidationBehavior.NonNullAsErrors(Validate(cmd));
  }

  /** A game whose title is empty but is otherwise valid fails on the title alone. */
  lemma EmptyTitleExample()
    ensures Validate(CreateOrUpdateGameCommand(Some(GameDto(EmptyId, "", "PC", "RPG", 637134336000000000))))
         == [TitleRequired]
  {
    var g := GameDto(EmptyId, "", "PC", "RPG", 637134336000000000);
    assert !Blank(g.platform) by { assert !IsWhiteSpace(g.platform[0]); }
    assert !Blank(g.genre) by { assert !IsWhiteSpace(g.genre[0]); }
  }

  // ------------------------------------------------------------------ handler

  /** What the handler throws: a null reference when the command carries no
      game, or the storage failure raised by the save. */
  datatype CreateError = NullGame | StorageFailure(message: string)

  /** The handler's effect on the store and its response. A game with the empty
      identifier is added under `newId`, the identifier the key generator
      supplies; any other is an update, which affects no row (the concurrency
      failure) when its identifier is not stored. A failed save changes
      nothing. */
  function Apply(rows: Rows, cmd: CreateOrUpdateGameCommand, newId: Id, save: Save): (out: (Result<GameDto, CreateError>, Rows))
    ensures out.0.Failure? ==> out.1 == rows
    ensures cmd.game.None? ==> out.0 == Failure(NullGame)
    ensures cmd.game.Some? && save.Throws? ==> out.0 == Failure(StorageFailure(save.message))
    ensures out.0.Success? ==>
      && cmd.game.Some? && save.Commits?
      && out.0.value == cmd.game.value.(id := out.0.value.id)
      && out.0.value.id in out.1 && out.1[out.0.value.id] == ToEntity(out.0.value)
      && (forall k :: k in rows && k != out.0.value.id ==> k in out.1 && out.1[k] == rows[k])
    ensures cmd.game.Some? && cmd.game.value.id == EmptyId ==>
      (out.0.Success? <==> save.Commits?) &&
      (out.0.Success? ==> out.0.value.id == newId && out.1.Keys == rows.Keys + {newId})
    ensures cmd.game.Some? && cmd.game.value.id != EmptyId ==>
      (out.0.Success? <==> save.Commits? && cmd.game.value.id in rows) &&
      (out.0.Success? ==> out.0.value == cmd.game.value && out.1.Keys == rows.Keys) &&
      (save.Commits? && cmd.game.value.id !in rows ==> out.0 == Failure(StorageFailure(ConcurrencyMessage)))
  {
    match cmd.game
    case None => (Failure(NullGame), rows)
    case Some(dto) =>
      var entity := ToEntity(dto);
      var saved := if entity.id == EmptyId then entity.(id := newId) else entity;
      if save.Throws? then (Failure(StorageFailure(save.message)), rows)
      else if entity.id != EmptyId && entity.id !in rows then (Failure(StorageFailure(ConcurrencyMessage)), rows)
      else (Success(dto.(id := saved.id)), rows[saved.id := saved])
  }

  /** An insert with a fresh identifier returns a non-empty identifier that was
      not a key before, and the store grows by exactly one row. */
  lemma InsertGrowsByOne(rows: Rows, dto: GameDto, newId: Id)
    requires dto.id == EmptyId && IsFresh(newId, rows)
    ensures var out := Apply(rows, CreateOrUpdateGameCommand(Some(dto)), newId, Commits);
      && out.0.Success? && out.0.value.id != EmptyId && out.0.value.id !in rows
      && |out.1| == |rows| + 1
  {
  }

  /** An update of a stored game replaces it and creates no duplicate. */
  lemma UpdateKeepsSize(rows: Rows, dto: GameDto, newId: Id)
    requires dto.id != EmptyId && dto.id in rows
    ensures var out := Apply(rows, CreateOrUpdateGameCommand(Some(dto)), newId, Commits);
      && out.0 == Success(dto) && out.1 == rows[dto.id := ToEntity(dto)]
      && |out.1| == |rows|
  {
  }

  /** The handler keeps the store's invariant when the key generator is fresh. */
  lemma ApplyKeepsWellFormed(rows: Rows, cmd: CreateOrUpdateGameCommand, newId: Id, save: Save)
    requires WellFormed(rows) && IsFresh(newId, rows)
    ensures WellFormed(Apply(rows, cmd, newId, save).1)
  {
  }

  /** CreateOrUpdateGameCommandHandler.Handle: copies the request into an
      entity, stages an insert or an update, saves, and on success writes the
      entity's identifier back into the request's game, which it returns. */
  method Handle(store: GameStore, cmd: CreateOrUpdateGameCommand, newId: Id, save: Save)
    returns (response: Result<GameDto, CreateError>)
    requires store.Valid() && IsFresh(newId, store.rows)
    modifies store
    ensures store.Valid()
    ensures (response, store.rows) == Apply(old(store.rows), cmd, newId, save)
  {
    if cmd.game.None? {
      return Failure(NullGame);
    }
    var game := cmd.game.value;
    var entity := GameEntity(game.id, game.title, game.platform, game.genre, game.releaseDate);
    var staged: Rows;
    var affectsNoRow := false;
    if entity.id == EmptyId {
      // AddAsync: the key generator fills in the identifier
      entity := entity.(id := newId);
      staged := store.rows[entity.id := entity];
    } else {
      // Update: the row with this identifier is to be replaced
      affectsNoRow := entity.id !in store.rows;
      staged := store.rows[entity.id := entity];
    }
    // SaveChangesAsync
    if save.Throws? {
      return Failure(StorageFailure(save.message));
    }
    if affectsNoRow {
      return Failure(StorageFailure(ConcurrencyMessage));
    }
    store.rows := staged;
    game := game.(id := entity.id);
    response := Success(game);
  }
}
