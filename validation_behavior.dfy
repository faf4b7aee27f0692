/** The validation gate that wraps every request on its way to the handler
    (Mediator/DnjPipelineFluentValidationBehavior.cs). It runs every validator
    registered for the request's type, gathers their failures, and either hands
    the request to the rest of the pipeline or rejects it with all of them. */
module ValidationBehavior {
  import opened Models

  /** A validator as the gate sees it: the Errors list of its validation result,
      whose entries may be null (None). */
  type Validator<!T> = T -> seq<Option<ValidationFailure>>

  /** What the gate does with a request: forward it and return the handler's
      response, or reject it by throwing the validation exception with every
      failure it gathered. */
  datatype Reply<R> = Forwarded(response: R) | Rejected(failures: seq<ValidationFailure>)

  /** The errors of a validator that produces no null entries. */
  function AsErrors(failures: seq<ValidationFailure>): (errors: seq<Option<ValidationFailure>>)
    ensures |errors| == |failures|
    ensures forall i :: 0 <= i < |failures| ==> errors[i] == Some(failures[i])
  {
    seq(|failures|, i requires 0 <= i < |failures| => Some(failures[i]))
  }

  /** SelectMany: the results of the validators, one after the other. An entry
      is in the concatenation exactly when it is in one of the results. */
  function Flatten(results: seq<seq<Option<ValidationFailure>>>): (all: seq<Option<ValidationFailure>>)
    ensures forall e :: e in all <==> exists i :: 0 <= i < |results| && e in results[i]
    decreases |results|
  {
    if results == [] then []
    else
      assert forall i :: 0 <= i < |results| - 1 ==> results[1..][i] == results[i + 1];
      results[0] + Flatten(results[1..])
  }

  /** Where(failure is not null): the entries that are present, in order. */
  function NonNull(errors: seq<Option<ValidationFailure>>): (present: seq<ValidationFailure>)
    ensures |present| <= |errors|
    ensures forall f :: f in present <==> Some(f) in errors
  {
    if errors == [] then []
    else (if errors[0].Some? then [errors[0].value] else []) + NonNull(errors[1..])
  }

  /** The failures the gate collects for `request`: every validator's result
      (Select), concatenated (SelectMany), with the null entries dropped (Where).
      A failure is collected exactly when some validator reported it; null
      entries never appear, since the collected list holds plain failures. */
  function Collect<T>(validators: seq<Validator<T>>, request: T): (failures: seq<ValidationFailure>)
    ensures forall f :: f in failures <==> exists i :: 0 <= i < |validators| && Some(f) in validators[i](request)
  {
    var results := seq(|validators|, i requires 0 <= i < |validators| => validators[i](request));
    assert forall i :: 0 <= i < |validators| ==> results[i] == validators[i](request);
    NonNull(Flatten(results))
  }

  /** Handle: with no failure the request goes on to `next`, the rest of the
      pipeline, which turns the state into a response and a new state; with a
      failure the request is rejected and `next` is not run, so the state is
      left as it was. */
  function Handle<T, S, R>(validators: seq<Validator<T>>, request: T, next: (T, S) -> (R, S), state: S): (out: (Reply<R>, S))
    ensures out.0.Forwarded? <==> Collect(validators, request) == []
    ensures out.0.Forwarded? ==> out.0.response == next(request, state).0 && out.1 == next(request, state).1
    ensures out.0.Rejected? ==> out.0.failures == Collect(validators, request) && out.1 == state
  {
    var failures := Collect(validators, request);
    if failures == [] then
      var (response, after) := next(request, state);
      (Forwarded(response), after)
    else
      (Rejected(failures), state)
  }

  lemma {:induction false} FlattenAppend(a: seq<seq<Option<ValidationFailure>>>, b: seq<seq<Option<ValidationFailure>>>)
    ensures Flatten(a + b) == Flatten(a) + Flatten(b)
    decreases |a|
  {
    if a == [] {
      assert a + b == b;
    } else {
      assert (a + b)[1..] == a[1..] + b;
      FlattenAppend(a[1..], b);
    }
  }

  lemma {:induction false} NonNullAppend(a: seq<Option<ValidationFailure>>, b: seq<Option<ValidationFailure>>)
    ensures NonNull(a + b) == NonNull(a) + NonNull(b)
    decreases |a|
  {
    if a == [] {
      assert a + b == b;
    } else {
      assert (a + b)[1..] == a[1..] + b;
      NonNullAppend(a[1..], b);
    }
  }

  /** A null entry is dropped, a present one is kept. */
  lemma {:induction false} NonNullSingleton(e: Option<ValidationFailure>)
    ensures NonNull([e]) == (if e.Some? then [e.value] else [])
  {
    assert [e][1..] == [];
  }

  /** The entries of a validator without null entries come through unchanged. */
  lemma {:induction false} NonNullAsErrors(failures: seq<ValidationFailure>)
    ensures NonNull(AsErrors(failures)) == failures
    decreases |failures|
  {
    if failures != [] {
      assert AsErrors(failures)[1..] == AsErrors(failures[1..]);
      NonNullAsErrors(failures[1..]);
    }
  }

  /** Validator order: the failures of a list of validators split at any point
      are those of the first part followed by those of the second. */
  lemma {:induction false} CollectAppend<T>(first: seq<Validator<T>>, second: seq<Validator<T>>, request: T)
    ensures Collect(first + second, request) == Collect(first, request) + Collect(second, request)
  {
    var all := first + second;
    var ra := seq(|first|, i requires 0 <= i < |first| => first[i](request));
    var rb := seq(|second|, i requires 0 <= i < |second| => second[i](request));
    assert seq(|all|, i requires 0 <= i < |all| => all[i](request)) == ra + rb;
    FlattenAppend(ra, rb);
    NonNullAppend(Flatten(ra), Flatten(rb));
  }

  /** One validator contributes its own non-null failures, in its own order. */
  lemma {:induction false} CollectSingle<T>(v: Validator<T>, request: T)
    ensures Collect([v], request) == NonNull(v(request))
  {
    var rs := seq(1, i requires 0 <= i < 1 => [v][i](request));
    assert rs == [v(request)];
    assert rs[1..] == [];
    assert Flatten(rs) == v(request) + [];
    assert v(request) + [] == v(request);
  }

  /** With no registered validator (delete and list-all) the gate always forwards. */
  lemma NoValidatorsForward<T, S, R>(request: T, next: (T, S) -> (R, S), state: S)
    ensures Collect([], request) == []
    ensures Handle([], request, next, state) == (Forwarded(next(request, state).0), next(request, state).1)
  {
  }

  /** The rest of the pipeline runs exactly once on a clean request and not at
      all on a rejected one, and it receives the request as it was sent: here
      it counts its runs and echoes the request it was given. */
  lemma HandlerRunsOnce<T>(validators: seq<Validator<T>>, request: T, runs: int)
    ensures var out := Handle(validators, request, (r: T, n: int) => (r, n + 1), runs);
      && out.1 == (if Collect(validators, request) == [] then runs + 1 else runs)
      && (out.0.Forwarded? ==> out.0.response == request)
  {
  }
}
