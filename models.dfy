/** The values that travel between the view model, the handlers and the store:
    the persisted game entity, its data-transfer twin, and the validation
    failure that the validators produce. */
module Models {

  datatype Option<T> = None | Some(value: T)

  /** A handler's result: the value it returns, or the exception it throws. */
  datatype Result<T, E> = Success(value: T) | Failure(error: E)

  /** A game identifier (a Guid in the application). EmptyId plays the role of
      Guid.Empty, the identifier of a game that has not been stored yet. */
  type Id = nat
  const EmptyId: Id := 0

  /** A DateTime as its (never negative) tick count; DefaultDate is default(DateTime). */
  type Ticks = nat
  const DefaultDate: Ticks := 0

  /** The row persisted by the store (Data/Entities/GameEntity.cs). */
  datatype GameEntity = GameEntity(id: Id, title: string, platform: string, genre: string, releaseDate: Ticks)

  /** The shape the UI edits and the handlers return; it mirrors GameEntity. */
  datatype GameDto = GameDto(id: Id, title: string, platform: string, genre: string, releaseDate: Ticks)

  /** `new GameDto()`: empty identifier, empty texts and the default date. */
  const NewGameDto: GameDto := GameDto(EmptyId, "", "", "", DefaultDate)

  /** The field-for-field copy a handler makes from the request into an entity. */
  function ToEntity(dto: GameDto): (e: GameEntity)
    ensures e.id == dto.id && ToDto(e) == dto
  {
    GameEntity(dto.id, dto.title, dto.platform, dto.genre, dto.releaseDate)
  }

  /** The field-for-field copy list-all makes from an entity into a DTO. */
  function ToDto(e: GameEntity): (dto: GameDto)
    ensures dto.id == e.id
  {
    GameDto(e.id, e.title, e.platform, e.genre, e.releaseDate)
  }

  /** ToEntity undoes ToDto: an entity listed as a DTO and copied back is the
      same entity. */
  lemma EntityDtoRoundTrip(e: GameEntity)
    ensures ToEntity(ToDto(e)) == e
  {
  }

  /** A field-level failure: the property path ("Game.Title") and the message. */
  datatype ValidationFailure = ValidationFailure(propertyName: string, errorMessage: string)

  /** Environment.NewLine, fixed to the line feed. */
  const NewLine: string := "\n"

  predicate IsWhiteSpace(c: char) {
    c == ' ' || c == '\t' || c == '\n' || c == '\r'
  }

  /** What the NotEmpty rule rejects for a string: empty or only white space. */
  predicate Blank(s: string) {
    forall i :: 0 <= i < |s| ==> IsWhiteSpace(s[i])
  }
}
