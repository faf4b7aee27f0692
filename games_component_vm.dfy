/** The presenter behind the games page (ViewModel/GamesComponentVm.cs): the
    game being edited, the list shown, and a table of validation failures by
    field, with the display text for one field. */
module ViewModel {
  import opened Models
  import opened Data
  import opened ValidationBehavior
  import opened CreateOrUpdateGame
  import opened DeleteGame
  import opened GetAllGames
  import opened Pipeline

  // ----------------------------------------------------------- property paths

  /** String.Split("."): the pieces between the dots, at least one. */
  function Split(s: string): (parts: seq<string>)
    ensures |parts| >= 1
    decreases |s|
  {
    if s == [] then [""]
    else
      var init := Split(s[..|s| - 1]);
      var c := s[|s| - 1];
      if c == '.' then init + [""]
      else init[..|init| - 1] + [init[|init| - 1] + [c]]
  }

  /** The inverse of Split: the pieces with a dot between each two. */
  function Join(parts: seq<string>): string
    requires |parts| >= 1
    decreases |parts|
  {
    if |parts| == 1 then parts[0]
    else Join(parts[..|parts| - 1]) + "." + parts[|parts| - 1]
  }


  lemma {:induction false} JoinSplit(s: string)
    ensures Join(Split(s)) == s
    decreases |s|
  {
    if s != [] {
      var init := Split(s[..|s| - 1]);
      var c := s[|s| - 1];
      JoinSplit(s[..|s| - 1]);
      assert s == s[..|s| - 1] + [c];
      if c == '.' {
        var parts := init + [""];
        assert parts[..|parts| - 1] == init;
      } else if |init| == 1 {
        assert Split(s) == [init[0] + [c]];
      } else {
        var parts := init[..|init| - 1] + [init[|init| - 1] + [c]];
        assert parts[..|parts| - 1] == init[..|init| - 1];
        assert Join(init) == Join(init[..|init| - 1]) + "." + init[|init| - 1];
      }
    }
  }

  lemma {:induction false} SplitPiecesHaveNoDot(s: string)
    ensures forall i :: 0 <= i < |Split(s)| ==> '.' !in Split(s)[i]
    decreases |s|
  {
    if s != [] {
      SplitPiecesHaveNoDot(s[..|s| - 1]);
    }
  }

  /** Appending dot-free text to a string extends its last piece. */
  lemma {:induction false} SplitAppendDotFree(x: string, y: string)
    requires '.' !in y
    ensures var px := Split(x);
      Split(x + y) == px[..|px| - 1] + [px[|px| - 1] + y]
    decreases |y|
  {
    var px := Split(x);
    var n := |px|;
    if y == [] {
      assert x + y == x;
      assert px[n - 1] + y == px[n - 1];
      assert px[..n - 1] + [px[n - 1]] == px;
    } else {
      var y' := y[..|y| - 1];
      var c := y[|y| - 1];
      assert '.' !in y' by {
        forall i | 0 <= i < |y'| ensures y'[i] != '.' { assert y'[i] == y[i]; }
      }
      assert c in y;
      SplitAppendDotFree(x, y');
      var init := Split(x + y');
      assert init == px[..n - 1] + [px[n - 1] + y'];
      assert |init| == n;
      assert (x + y)[..|x + y| - 1] == x + y';
      assert (x + y)[|x + y| - 1] == c;
      assert Split(x + y) == init[..n - 1] + [init[n - 1] + [c]];
      assert init[..n - 1] == px[..n - 1];
      assert init[n - 1] + [c] == px[n - 1] + y;
    }
  }

  /** A trailing dot starts a new, empty piece. */
  lemma SplitTrailingDot(x: string)
    ensures Split(x + ".") == Split(x) + [""]
  {
    var s := x + ".";
    assert s[..|s| - 1] == x;
  }

  /** A dot-free string is a single piece. */
  lemma SplitDotFree(s: string)
    requires '.' !in s
    ensures Split(s) == [s]
  {
    SplitAppendDotFree("", s);
    assert "" + s == s;
  }

  /** Split undoes Join on dot-free pieces: together with JoinSplit, a round trip
      in both directions. */
  lemma {:induction false} SplitJoin(parts: seq<string>)
    requires |parts| >= 1 && forall i :: 0 <= i < |parts| ==> '.' !in parts[i]
    ensures Split(Join(parts)) == parts
    decreases |parts|
  {
    if |parts| == 1 {
      SplitDotFree(parts[0]);
    } else {
      var last := parts[|parts| - 1];
      var init := parts[..|parts| - 1];
      assert '.' !in last;
      assert forall i :: 0 <= i < |init| ==> '.' !in init[i];
      SplitJoin(init);
      var x := Join(init) + ".";
      assert Join(parts) == x + last;
      SplitTrailingDot(Join(init));
      assert Split(x) == init + [""];
      SplitAppendDotFree(x, last);
      var px := init + [""];
      assert px[..|px| - 1] == init && px[|px| - 1] + last == last;
      assert parts == init + [last];
    }
  }

  /** The key under which a failure is filed: propNameArr[^1], the last piece.
      It holds no dot, and a path without a dot is its own key. */
  function ErrorKey(propertyName: string): (key: string)
    ensures '.' !in key
    ensures '.' !in propertyName ==> key == propertyName
  {
    var parts := Split(propertyName);
    SplitPiecesHaveNoDot(propertyName);
    assert '.' !in propertyName ==> parts == [propertyName] by {
      if '.' !in propertyName { SplitDotFree(propertyName); }
    }
    parts[|parts| - 1]
  }

  /** The key is the longest dot-free suffix of the property path. */
  lemma ErrorKeyIsLastSegment(propertyName: string)
    ensures var key := ErrorKey(propertyName);
      && |key| <= |propertyName|
      && propertyName[|propertyName| - |key|..] == key
      && (|key| < |propertyName| ==> propertyName[|propertyName| - |key| - 1] == '.')
  {
    var parts := Split(propertyName);
    var key := parts[|parts| - 1];
    JoinSplit(propertyName);
    if |parts| > 1 {
      var front := Join(parts[..|parts| - 1]);
      assert propertyName == front + "." + key;
      assert propertyName[|propertyName| - |key|..] == key;
    }
  }

  lemma ErrorKeyExamples()
    ensures ErrorKey("Game.Title") == "Title"
    ensures ErrorKey("Game.ReleaseDate") == "ReleaseDate"
    ensures ErrorKey("Game") == "Game"
  {
    SplitJoin(["Game", "Title"]);
    assert Join(["Game", "Title"]) == "Game.Title";
    SplitJoin(["Game", "ReleaseDate"]);
    assert Join(["Game", "ReleaseDate"]) == "Game.ReleaseDate";
    SplitJoin(["Game"]);
  }

  // -------------------------------------------------------------- error table

  type ErrorTable = map<string, seq<ValidationFailure>>

  /** What AddErrors makes of the table: the first failure for a new key is
      filed under it as a one-element list; a failure for a key already present
      is added to a copy of that key's list, so the table keeps the old list. */
  function AddFailures(errors: ErrorTable, failures: seq<ValidationFailure>): (table: ErrorTable)
    ensures forall k :: k in errors ==> k in table && table[k] == errors[k]
    decreases |failures|
  {
    if failures == [] then errors
    else
      var key := ErrorKey(failures[0].propertyName);
      AddFailures(if key in errors then errors else errors[key := [failures[0]]], failures[1..])
  }

  /** The table gains the keys of the new failures and loses none. */
  lemma {:induction false} AddFailuresKeys(errors: ErrorTable, failures: seq<ValidationFailure>)
    ensures AddFailures(errors, failures).Keys == errors.Keys + (set f | f in failures :: ErrorKey(f.propertyName))
    decreases |failures|
  {
    if failures != [] {
      var key := ErrorKey(failures[0].propertyName);
      var next := if key in errors then errors else errors[key := [failures[0]]];
      AddFailuresKeys(next, failures[1..]);
      assert failures == [failures[0]] + failures[1..];
      assert (set f | f in failures :: ErrorKey(f.propertyName))
          == {key} + (set f | f in failures[1..] :: ErrorKey(f.propertyName));
    }
  }

  /** A key new to the table holds just the first failure filed under it. */
  lemma {:induction false} AddFailuresFirstWins(errors: ErrorTable, failures: seq<ValidationFailure>, key: string, i: nat)
    requires key !in errors
    requires i < |failures| && ErrorKey(failures[i].propertyName) == key
    requires forall j :: 0 <= j < i ==> ErrorKey(failures[j].propertyName) != key
    ensures key in AddFailures(errors, failures) && AddFailures(errors, failures)[key] == [failures[i]]
    decreases i
  {
    var k := ErrorKey(failures[0].propertyName);
    var next := if k in errors then errors else errors[k := [failures[0]]];
    if i > 0 {
      assert k != key;
      AddFailuresFirstWins(next, failures[1..], key, i - 1);
    }
  }

  /** A second failure for a field is lost: after the required-title failure,
      another one on the title leaves the table as it was. */
  lemma SecondFailureForKeyIsLost(other: ValidationFailure)
    requires ErrorKey(other.propertyName) == "Title"
    ensures AddFailures(map[], [TitleRequired, other]) == map["Title" := [TitleRequired]]
  {
    ErrorKeyExamples();
    var once := map["Title" := [TitleRequired]];
    assert ErrorKey(TitleRequired.propertyName) == "Title";
    assert [TitleRequired, other][1..] == [other];
    assert AddFailures(map[], [TitleRequired, other]) == AddFailures(once, [other]);
    assert [other][1..] == [];
    assert AddFailures(once, [other]) == AddFailures(once, []);
  }

  // ------------------------------------------------------------- display text

  /** Each message followed by a line break. */
  function Display(failures: seq<ValidationFailure>): (text: string)
    ensures text == "" <==> failures == []
    decreases |failures|
  {
    if failures == [] then "" else failures[0].errorMessage + NewLine + Display(failures[1..])
  }

  lemma {:induction false} DisplayAppend(a: seq<ValidationFailure>, b: seq<ValidationFailure>)
    ensures Display(a + b) == Display(a) + Display(b)
    decreases |a|
  {
    if a == [] {
      assert a + b == b;
    } else {
      assert (a + b)[1..] == a[1..] + b;
      DisplayAppend(a[1..], b);
    }
  }

  // --------------------------------------------------------------- the class

  class GamesComponentVm {
    var errors: ErrorTable
    var games: seq<GameDto>
    var currentGame: GameDto
    const mediator: Mediator

    predicate Valid()
      reads this, mediator.store
    {
      mediator.store.Valid()
    }

    constructor (mediator: Mediator)
      requires mediator.store.Valid()
      ensures Valid() && this.mediator == mediator
      ensures errors == map[] && games == [] && currentGame == NewGameDto
    {
      this.mediator := mediator;
      errors := map[];
      games := [];
      currentGame := NewGameDto;
    }

    /** GetErrors: the failures filed under a field; none for a null or unknown one. */
    function GetErrors(propertyName: Option<string>): (failures: seq<ValidationFailure>)
      reads this
      ensures propertyName.Some? && propertyName.value in errors ==> failures == errors[propertyName.value]
      ensures propertyName.None? || propertyName.value !in errors ==> failures == []
    {
      if propertyName.Some? && propertyName.value in errors then errors[propertyName.value] else []
    }

    /** HasErrors: some field has failures filed. */
    function HasErrors(): (has: bool)
      reads this
      ensures has <==> errors != map[]
    {
      |errors| > 0
    }

    /** GetErrorsDisplay: the messages filed under a field, one per line. */
    method GetErrorsDisplay(propertyName: string) returns (display: string)
      ensures display == Display(GetErrors(Some(propertyName)))
      ensures display == "" <==> GetErrors(Some(propertyName)) == []
    {
      var failures := GetErrors(Some(propertyName));
      display := "";
      for i := 0 to |failures|
        invariant display == Display(failures[..i])
      {
        DisplayAppend(failures[..i], [failures[i]]);
        assert failures[..i + 1] == failures[..i] + [failures[i]];
        display := display + failures[i].errorMessage;
        display := display + NewLine;
      }
      assert failures[..|failures|] == failures;
    }

    /** AddErrors: files each failure under the last piece of its property path. */
    method AddErrors(failures: seq<ValidationFailure>)
      requires Valid()
      modifies this
      ensures Valid()
      ensures errors == AddFailures(old(errors), failures)
      ensures old(errors).Keys <= errors.Keys
      ensures old(HasErrors()) ==> HasErrors()
      ensures games == old(games) && currentGame == old(currentGame)
    {
      var i := 0;
      while i < |failures|
        invariant 0 <= i <= |failures|
        invariant AddFailures(errors, failures[i..]) == AddFailures(old(errors), failures)
        invariant games == old(games) && currentGame == old(currentGame)
      {
        var failure := failures[i];
        var propNameArr := Split(failure.propertyName);
        var key := propNameArr[|propNameArr| - 1];
        if key in errors {
          // ToList() copies the stored list; the failure is added to the copy only
          var copy := errors[key] + [failure];
        } else {
          errors := errors[key := [failure]];
        }
        assert failures[i..][1..] == failures[i + 1..];
        i := i + 1;
      }
      assert failures[|failures|..] == [];
      AddFailuresKeys(old(errors), failures);
      if old(errors) != map[] {
        var k :| k in old(errors);
        assert k in errors;
      }
    }

    /** CreateGame: sends the current game through the mediator. A rejection
        files its failures; a storage failure escapes before the current game is
        reset; otherwise the current game becomes a new empty one. */
    method CreateGame(newId: Id, save: Save) returns (thrown: Option<CreateError>)
      requires Valid() && IsFresh(newId, mediator.store.rows)
      modifies this, mediator.store
      ensures Valid()
      ensures var sent := SendCreateOrUpdate(old(mediator.store.rows), CreateOrUpdateGameCommand(Some(old(currentGame))), newId, save);
        && mediator.store.rows == sent.1
        && games == old(games)
        && errors == (if sent.0.Rejected? then AddFailures(old(errors), sent.0.failures) else old(errors))
        && (thrown.Some? <==> sent.0.Forwarded? && sent.0.response.Failure?)
        && (thrown.Some? ==> thrown.value == sent.0.response.error && currentGame == old(currentGame))
        && (thrown.None? ==> currentGame == NewGameDto)
      ensures old(HasErrors()) ==> HasErrors()
    {
      var command := CreateOrUpdateGameCommand(Some(currentGame));
      var reply := mediator.SendCreateOrUpdateGame(command, newId, save);
      thrown := None;
      match reply
      case Rejected(failures) =>
        AddErrors(failures);
        currentGame := NewGameDto;
      case Forwarded(Success(_)) =>
        currentGame := NewGameDto;
      case Forwarded(Failure(e)) =>
        thrown := Some(e);
    }

    /** GetAllGames: replaces the list with a fresh listing of the store. */
    method GetAllGames()
      requires Valid()
      modifies this
      ensures Valid()
      ensures Lists(games, mediator.store.rows)
      ensures errors == old(errors) && currentGame == old(currentGame)
    {
      var reply := mediator.SendGetAllGames();
      games := reply.response;
    }

    /** DeleteGame: sends the delete and ignores the status; the list shown is
        left as it was. */
    method DeleteGame(dto: GameDto, save: Save)
      requires Valid()
      modifies mediator.store
      ensures Valid()
      ensures mediator.store.rows == SendDelete(old(mediator.store.rows), DeleteGameCommand(dto), save).1
      ensures games == old(games) && errors == old(errors) && currentGame == old(currentGame)
    {
      var res := mediator.SendDeleteGame(DeleteGameCommand(dto), save);
    }

    /** EditGame: the given game becomes the current one. */
    method EditGame(dto: GameDto)
      requires Valid()
      modifies this
      ensures Valid()
      ensures currentGame == dto
      ensures games == old(games) && errors == old(errors)
    {
      currentGame := dto;
    }
  }
}
