# Games CRUD sample: validation gate, handlers and view model

This project models the small command/query application behind a "games"
page. A game record (title, platform, genre, release date, identifier) is
edited in a view model and sent as a command through a mediator. A validation
gate runs every validator registered for the command's type. It rejects the
command with all the collected failures, or forwards it to the one handler for
that command. There are three handlers over a games table:

- create-or-update: insert under a generated identifier when the identifier
  is empty, otherwise update;
- delete: remove by identifier and report Ok or Ko;
- list-all: copy every row into a DTO.

After a submit, the view model files validation failures by field and resets
the game being edited, unless the save threw, in which case the exception
escapes and the game being edited is kept.

Modules, following the program's layers:

- `Models` (models.dfy): the shared data. `GameEntity` is the persisted row (Data/Entities/GameEntity.cs).
  `GameDto` is the record the page edits; its definition is not part of this model, and it is taken to
  carry the same five fields. `ValidationFailure` is the validation library's failure (property path and
  message). `Option` and `Result` are the usual wrappers.
- `Data` (store.dfy): the games table the handlers share, as `map<Id, GameEntity>` in class `GameStore`.
  It stands for the database context, which is not part of this model. Its invariant is that `EmptyId`
  (Guid.Empty) is never a key and every row sits under its own identifier.
- `ValidationBehavior` (validation_behavior.dfy): the gate. `Collect` is the Select/SelectMany/Where
  pipeline. `Handle` forwards to the rest of the pipeline or rejects. The rest of the pipeline is
  a function from a state to a response and a new state, so "run exactly once" and "not run" can be stated.
- `CreateOrUpdateGame`, `DeleteGame` (one file each): the handler's effect is a pure function on the
  table (`Apply`), which states its contract. An imperative `Handle` method works on the `GameStore`
  object and is proved equal to that function.
- `GetAllGames` (get_all_games.dfy): the backend chooses the listing order, so there is no function to
  be equal to. The handler is specified by the relation `Lists`: every stored row appears exactly once,
  as a field-for-field copy.
- `Pipeline` (pipeline.dfy): class `Mediator`, which puts the gate in front of every handler.
  Only create-or-update has a validator. This file also has the end-to-end lemmas.
- `ViewModel` (games_component_vm.dfy): class `GamesComponentVm` with fields `errors`, `games` and
  `currentGame`, over a `Mediator`.

Inputs from the environment are parameters:

- the outcome of saving (`Save`: commits, or throws with a message);
- the identifier the key generator returns on insert (`newId`, assumed fresh).

Behaviour of the code the model keeps:

- An update of an identifier that is not stored is the concurrency failure the handler documents
  (CreateOrUpdateGameCommand.cs:37-41): the save affects no row, it throws, and the table is unchanged.
- The view model never looks at the status of a delete: `DeleteGame` leaves the view model's own
  state as it was.

The view model reproduces a quirk at GamesComponentVm.cs line 110. When a second failure arrives
for a key that is already in the table, the code adds it to a copy of the stored list. The stored
list is unchanged, so that failure is lost.

## Model

| member | source | states |
|---|---|---|
| Models.ToEntity | Nj.Samples.Cqrs/Features/CreateOrUpdateGameCommand.cs:47-54 | the entity copied from a request keeps its identifier, and copying it back into a DTO gives the request unchanged: no field is lost |
| Models.ToDto | Nj.Samples.Cqrs/Features/GetAllGamesCommand.cs:40-46 | the DTO copied from a row keeps the row's identifier; EntityDtoRoundTrip shows no other field is lost |
| Models.EntityDtoRoundTrip | Nj.Samples.Cqrs/Features/GetAllGamesCommand.cs:40-46 | copying a row into a DTO and back gives the same row, so together with ToEntity's contract the two copies are inverse |
| Data.FreshIdExists | Nj.Samples.Cqrs/Features/CreateOrUpdateGameCommand.cs:55-58 | for any table there is a non-empty identifier that is not yet a key, so the key generator can always be fresh |
| Data.GameStore.ToList | Nj.Samples.Cqrs/Features/GetAllGamesCommand.cs:37 | the entity list holds every stored row exactly once (same length, distinct identifiers, every key present), in an order the backend chooses |
| ValidationBehavior.Flatten | Nj.Samples.Cqrs/Mediator/DnjPipelineFluentValidationBehavior.cs:36 | an entry is in the concatenation exactly when it is in some validator's result; FlattenAppend states the order |
| ValidationBehavior.NonNull | Nj.Samples.Cqrs/Mediator/DnjPipelineFluentValidationBehavior.cs:37 | the kept failures are exactly the non-null entries, never more entries than were given |
| ValidationBehavior.Handle | Nj.Samples.Cqrs/Mediator/DnjPipelineFluentValidationBehavior.cs:34-41 | forwards exactly when no failure was collected, and then returns next's response and next's state; otherwise rejects with the whole collected list and leaves the state as it was |
| ValidationBehavior.FlattenAppend | Nj.Samples.Cqrs/Mediator/DnjPipelineFluentValidationBehavior.cs:36 | SelectMany of two lists of results is the SelectMany of the first followed by that of the second |
| ValidationBehavior.NonNullAppend | Nj.Samples.Cqrs/Mediator/DnjPipelineFluentValidationBehavior.cs:37 | dropping nulls keeps the order: it distributes over concatenation |
| ValidationBehavior.NonNullSingleton | Nj.Samples.Cqrs/Mediator/DnjPipelineFluentValidationBehavior.cs:37 | a null entry is dropped and a present one is kept |
| ValidationBehavior.NonNullAsErrors | Nj.Samples.Cqrs/Mediator/DnjPipelineFluentValidationBehavior.cs:35-37 | a validator's failures pass through unchanged when it reports no nulls |
| ValidationBehavior.CollectAppend | Nj.Samples.Cqrs/Mediator/DnjPipelineFluentValidationBehavior.cs:34-38 | the collected failures follow validator order: those of the first validators, then those of the rest |
| ValidationBehavior.CollectSingle | Nj.Samples.Cqrs/Mediator/DnjPipelineFluentValidationBehavior.cs:35-37 | one validator contributes its own non-null failures in its own order |
| ValidationBehavior.Collect | Nj.Samples.Cqrs/Mediator/DnjPipelineFluentValidationBehavior.cs:34-38 | a failure is collected if and only if some registered validator reported it as a non-null entry; CollectAppend and CollectSingle give the order |
| ValidationBehavior.NoValidatorsForward | Nj.Samples.Cqrs/Mediator/DnjPipelineFluentValidationBehavior.cs:40 | with no registered validator nothing is collected and the gate always forwards to next |
| ValidationBehavior.HandlerRunsOnce | Nj.Samples.Cqrs/Mediator/DnjPipelineFluentValidationBehavior.cs:40-41 | next runs once on a clean request and never on a rejected one, and it receives the request unchanged |
| CreateOrUpdateGame.Validate | Nj.Samples.Cqrs/Features/CreateOrUpdateGameCommand.cs:76-89 | a null game fails first with "Game is null". Otherwise: no failure exactly when all four fields are valid; each field's failure appears exactly when that field is blank (or the date is the default); failures come in rule order Title, Genre, Platform, ReleaseDate; nothing else appears |
| CreateOrUpdateGame.CollectIsValidate | Nj.Samples.Cqrs/Features/CreateOrUpdateGameCommand.cs:74-89 | the gate's collected list for this command is exactly the validator's failures |
| CreateOrUpdateGame.EmptyTitleExample | Nj.Samples.Cqrs/Features/CreateOrUpdateGameCommand.cs:84 | an empty title with the other fields valid gives exactly the one failure "Title is required" on Game.Title |
| CreateOrUpdateGame.Apply | Nj.Samples.Cqrs/Features/CreateOrUpdateGameCommand.cs:43-68 | a failure changes nothing. A null game is a null-reference failure. A throwing save propagates its message. On success the response is the request's game with only the identifier overwritten, the table maps that identifier to it, and other rows are untouched. Empty identifier: success exactly when the save commits, under `newId`, with one key added. Other identifier: success exactly when it is stored and the save commits, keys unchanged; a missing identifier is the concurrency failure |
| CreateOrUpdateGame.InsertGrowsByOne | Nj.Samples.Cqrs/Features/CreateOrUpdateGameCommand.cs:55-67 | an insert with a fresh key returns a non-empty identifier that was not a key, and the table grows by exactly one row |
| CreateOrUpdateGame.UpdateKeepsSize | Nj.Samples.Cqrs/Features/CreateOrUpdateGameCommand.cs:60-65 | an update of a stored identifier returns the request unchanged, replaces that row only, and creates no duplicate |
| CreateOrUpdateGame.ApplyKeepsWellFormed | Nj.Samples.Cqrs/Features/CreateOrUpdateGameCommand.cs:55-66 | the table invariant is kept when the key generator is fresh |
| CreateOrUpdateGame.Handle | Nj.Samples.Cqrs/Features/CreateOrUpdateGameCommand.cs:43-68 | the imperative handler's response and new table are those of Apply, and the invariant is kept |
| DeleteGame.Apply | Nj.Samples.Cqrs/Features/DeleteGameCommand.cs:36-67 | Ok exactly when the save commits and the identifier is stored; Ok has no message and removes just that key; Ko changes nothing and carries the thrown message, or the concurrency message for a missing identifier; other rows are untouched in both cases |
| DeleteGame.KeyedByIdOnly | Nj.Samples.Cqrs/Features/DeleteGameCommand.cs:40-49 | two requests with the same identifier have the same effect, whatever their other fields |
| DeleteGame.OkShrinksByOne | Nj.Samples.Cqrs/Features/DeleteGameCommand.cs:49-66 | a successful delete removes exactly one row |
| DeleteGame.ApplyKeepsWellFormed | Nj.Samples.Cqrs/Features/DeleteGameCommand.cs:49-66 | the table invariant is kept |
| DeleteGame.Handle | Nj.Samples.Cqrs/Features/DeleteGameCommand.cs:36-67 | the imperative handler's status and new table are those of Apply; no failure escapes |
| GetAllGames.ListsExactlyTheKeys | Nj.Samples.Cqrs/Features/GetAllGamesCommand.cs:37-48 | a listing names exactly the stored identifiers |
| GetAllGames.CopyToDtos | Nj.Samples.Cqrs/Features/GetAllGamesCommand.cs:38-47 | the output has the entity list's length, and the i-th DTO is the field-for-field copy of the i-th entity |
| GetAllGames.CopyOfEnumerationLists | Nj.Samples.Cqrs/Features/GetAllGamesCommand.cs:37-47 | copying every row once yields a listing: each DTO is a copy of its stored row, identifiers are distinct, and every key appears |
| GetAllGames.Handle | Nj.Samples.Cqrs/Features/GetAllGamesCommand.cs:34-49 | the result lists the store, and the store is only read |
| Pipeline.SendCreateOrUpdate | Nj.Samples.Cqrs/Program.cs:28-29 | the command is rejected exactly when the validator reports failures, with those failures and no change to the table; otherwise it is the handler's result; the handler never runs on a null game |
| Pipeline.SendDelete | Nj.Samples.Cqrs/Program.cs:28 | a delete always passes the gate and is exactly the handler's result |
| Pipeline.SendCreateOrUpdateKeepsStoreValid | Nj.Samples.Cqrs/Mediator/DnjPipelineFluentValidationBehavior.cs:40-41 | since the gate runs before the handler, the table keeps its invariant and only ever holds games the validator accepts |
| Pipeline.SendDeleteKeepsStoreValid | Nj.Samples.Cqrs/Features/DeleteGameCommand.cs:49-66 | a delete keeps the table invariant and the all-valid property |
| Pipeline.CreateAddsKey | Nj.Samples.Cqrs/Features/CreateOrUpdateGameCommand.cs:55-67 | a valid new game sent with a fresh key is stored under that key, and the game comes back carrying it |
| Pipeline.TwoCreatesOneDelete | Nj.Samples.Cqrs/Features/GetAllGamesCommand.cs:37-48 | after two saved creates and the delete of the first, list-all names exactly the old keys plus the second game's key |
| Pipeline.Mediator.SendCreateOrUpdateGame | Nj.Samples.Cqrs/Program.cs:27-29 | sending runs the gate, then the handler only if no failure was collected; the reply and table are those of SendCreateOrUpdate |
| Pipeline.Mediator.SendDeleteGame | Nj.Samples.Cqrs/Program.cs:27-29 | the reply and table are those of SendDelete |
| Pipeline.Mediator.SendGetAllGames | Nj.Samples.Cqrs/Program.cs:27-29 | list-all is always forwarded and its response lists the store |
| ViewModel.Split | Nj.Samples.Cqrs/ViewModel/GamesComponentVm.cs:108 | splitting a property path on '.' yields at least one piece |
| ViewModel.JoinSplit | Nj.Samples.Cqrs/ViewModel/GamesComponentVm.cs:108 | joining the pieces with '.' gives back the path |
| ViewModel.SplitPiecesHaveNoDot | Nj.Samples.Cqrs/ViewModel/GamesComponentVm.cs:108 | no piece contains the separator |
| ViewModel.SplitAppendDotFree | Nj.Samples.Cqrs/ViewModel/GamesComponentVm.cs:108 | appending dot-free text extends only the last piece |
| ViewModel.SplitTrailingDot | Nj.Samples.Cqrs/ViewModel/GamesComponentVm.cs:108 | a trailing dot starts a new, empty last piece |
| ViewModel.SplitDotFree | Nj.Samples.Cqrs/ViewModel/GamesComponentVm.cs:108 | a dot-free path is one piece |
| ViewModel.SplitJoin | Nj.Samples.Cqrs/ViewModel/GamesComponentVm.cs:108 | splitting the join of dot-free pieces gives the pieces back |
| ViewModel.ErrorKey | Nj.Samples.Cqrs/ViewModel/GamesComponentVm.cs:108-109 | the key of a property path holds no dot, and a path without a dot is its own key; ErrorKeyIsLastSegment pins it as the last piece |
| ViewModel.ErrorKeyIsLastSegment | Nj.Samples.Cqrs/ViewModel/GamesComponentVm.cs:108-113 | the error key is the longest dot-free suffix of the property path |
| ViewModel.ErrorKeyExamples | Nj.Samples.Cqrs/ViewModel/GamesComponentVm.cs:108-113 | "Game.Title" is filed under "Title", "Game.ReleaseDate" under "ReleaseDate", and "Game" under "Game" |
| ViewModel.AddFailuresKeys | Nj.Samples.Cqrs/ViewModel/GamesComponentVm.cs:104-118 | the table gains exactly the keys of the new failures and loses none |
| ViewModel.AddFailures | Nj.Samples.Cqrs/ViewModel/GamesComponentVm.cs:104-118 | a key already in the table keeps its stored list whatever failures follow, because later failures for it go to a copy; AddFailuresKeys and AddFailuresFirstWins give the keys and the new lists |
| ViewModel.AddFailuresFirstWins | Nj.Samples.Cqrs/ViewModel/GamesComponentVm.cs:111-116 | a new key holds the one-element list of the first failure filed under it |
| ViewModel.SecondFailureForKeyIsLost | Nj.Samples.Cqrs/ViewModel/GamesComponentVm.cs:109-110 | after "Title is required", a second title failure leaves the table as it was |
| ViewModel.Display | Nj.Samples.Cqrs/ViewModel/GamesComponentVm.cs:78-88 | the display text is empty exactly when there are no failures |
| ViewModel.DisplayAppend | Nj.Samples.Cqrs/ViewModel/GamesComponentVm.cs:80-87 | the text of two lists of failures is the text of the first followed by the text of the second, each message followed by the newline |
| ViewModel.GamesComponentVm.constructor | Nj.Samples.Cqrs/ViewModel/GamesComponentVm.cs:25-33 | over a valid store, a new view model is valid and has no errors, no games and an empty current game |
| ViewModel.GamesComponentVm.GetErrors | Nj.Samples.Cqrs/ViewModel/GamesComponentVm.cs:90-95 | the stored list for a present key; an empty list for a null or absent key |
| ViewModel.GamesComponentVm.HasErrors | Nj.Samples.Cqrs/ViewModel/GamesComponentVm.cs:97 | true exactly when the table is not empty |
| ViewModel.GamesComponentVm.GetErrorsDisplay | Nj.Samples.Cqrs/ViewModel/GamesComponentVm.cs:78-88 | the text built by the loop is Display of the field's failures, and is empty exactly when the field has none |
| ViewModel.GamesComponentVm.AddErrors | Nj.Samples.Cqrs/ViewModel/GamesComponentVm.cs:104-118 | the table becomes AddFailures of the old table; keys only grow, so HasErrors stays true; games and current game are unchanged |
| ViewModel.GamesComponentVm.CreateGame | Nj.Samples.Cqrs/ViewModel/GamesComponentVm.cs:35-53 | sends the current game through the gate and handler. A rejection files its failures and resets the current game. A success resets it and leaves errors alone. A storage failure escapes and leaves the current game as it was. The games list is unchanged |
| ViewModel.GamesComponentVm.GetAllGames | Nj.Samples.Cqrs/ViewModel/GamesComponentVm.cs:55-60 | the games list becomes a listing of the store; nothing else changes |
| ViewModel.GamesComponentVm.DeleteGame | Nj.Samples.Cqrs/ViewModel/GamesComponentVm.cs:62-70 | the store changes as the delete pipeline says; the status is ignored, and the games list, errors and current game are unchanged |
| ViewModel.GamesComponentVm.EditGame | Nj.Samples.Cqrs/ViewModel/GamesComponentVm.cs:72-76 | the given game becomes the current game; nothing else changes |

## Left out

- CreateOrUpdateGame.Validate: for a null game the model returns only "Game is null", and its contract states only that this is the first failure. The code goes on to run the field rules on the null game, and what the validation library does with that is not modelled.
- Blank: the NotEmpty rule is modelled as "empty or only space, tab, line feed and carriage return". Other Unicode white space is not modelled.
- Asynchrony, cancellation tokens and `OperationCanceledException` are not modelled. Each call runs to completion.
- The `PropertyChanged` and `ErrorsChanged` notifications are not modelled. They carry no data the model keeps.
- Guid generation is not modelled. The identifier the key generator returns is a parameter, `newId`, and callers must supply a fresh one.
- The persistence library's change tracking and save are not modelled. Staged changes are a map that is committed whole or not at all. Whether the save throws is a parameter, and the exact text of the concurrency failure belongs to the library.
- Object identity is not modelled: DTOs are values. The handler's write of the identifier into `request.Game` becomes a returned copy. `EditGame` cannot alias an element of `games` in the model, so UI edits that change that element in place are not captured.
- The view model's `currentGame` is never null in the model (`GameDto` is a value), so the "Game is null" rejection cannot be reached from the view model, although `EditGame` in the source accepts a null game and the next `CreateGame` sends it. A null game passed to `DeleteGame` (a null-reference exception in the delete handler) is not modelled either.
- Null strings in a DTO are not modelled: `NewGameDto` takes the strings of `new GameDto()` to be "". The NotEmpty rule rejects null and "" alike, so validation gives the same result.
- `DateTime` is its tick count with no upper bound. `Environment.NewLine` is fixed to the line feed.
- Exceptions other than the storage failure leaving `DeleteGame` or `GetAllGames` are not modelled.
- The join and second throw after the unconditional throw in the gate are dead code and are not modelled.
- Hosting, dependency injection and the HTTP pipeline in Program.cs are not modelled. Only the fact that the gate wraps every request is kept.
- The list-all result is a sequence value, so it is a fresh list and never aliases the store by construction.
