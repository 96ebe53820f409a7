/**
  The external summarisation capability (the BART pipeline) as the pipeline sees it:
  a function from an input text and a fixed parameter record to either a summary or
  an exception.  Nothing is assumed about what the summaries say.
*/
module Bart {
  import opened Wrappers

  /** The keyword arguments passed to the summarisation pipeline; opaque configuration. */
  datatype Params = Params(
    maxLength: nat,
    minLength: nat,
    doSample: bool,
    truncation: Option<bool>,
    repetitionPenalty: Option<real>)

  /** What one call returns: the "summary_text" of its first result, or the raised
      exception's message. */
  datatype Outcome = Ok(summary: string) | Err(message: string)

  type Model = (string, Params) -> Outcome

  /** The sentinel every empty-input path returns instead of calling the model. */
  const NoContent: string := "No content to summarize."

  function Kept(o: Outcome): seq<string>
  {
    if o.Ok? then [o.summary] else []
  }

  /** The summaries of the calls that succeeded, in call order: a failed call
      contributes nothing and does not stop the later calls. */
  function Successes(model: Model, params: Params, inputs: seq<string>): (outs: seq<string>)
    ensures |outs| <= |inputs|
  {
    if inputs == [] then []
    else
      Successes(model, params, inputs[..|inputs| - 1]) + Kept(model(inputs[|inputs| - 1], params))
  }

  predicate AllOk(model: Model, params: Params, inputs: seq<string>)
  {
    forall i :: 0 <= i < |inputs| ==> model(inputs[i], params).Ok?
  }

  lemma {:induction false} SuccessesAppend(model: Model, params: Params, a: seq<string>, b: seq<string>)
    ensures Successes(model, params, a + b) == Successes(model, params, a) + Successes(model, params, b)
    decreases |b|
  {
    if b == [] {
      assert a + b == a;
    } else {
      var ab := a + b;
      assert ab[..|ab| - 1] == a + b[..|b| - 1];
      assert ab[|ab| - 1] == b[|b| - 1];
      SuccessesAppend(model, params, a, b[..|b| - 1]);
    }
  }

  /** When every call succeeds, the successes are all the summaries, one per input, in
      input order; when none succeeds, there are none. */
  lemma {:induction false} SuccessesWhenAllOk(model: Model, params: Params, inputs: seq<string>)
    requires AllOk(model, params, inputs)
    ensures |Successes(model, params, inputs)| == |inputs|
    ensures forall i :: 0 <= i < |inputs| ==>
              Successes(model, params, inputs)[i] == model(inputs[i], params).summary
    decreases |inputs|
  {
    if inputs != [] {
      SuccessesWhenAllOk(model, params, inputs[..|inputs| - 1]);
    }
  }

  lemma {:induction false} SuccessesWhenAllFail(model: Model, params: Params, inputs: seq<string>)
    requires forall i :: 0 <= i < |inputs| ==> model(inputs[i], params).Err?
    ensures Successes(model, params, inputs) == []
    decreases |inputs|
  {
    if inputs != [] {
      SuccessesWhenAllFail(model, params, inputs[..|inputs| - 1]);
    }
  }

  /** Successes look at the model only at the given inputs: two models that agree there
      give the same successes. */
  lemma {:induction false} SuccessesDependOnInputsOnly(m1: Model, m2: Model, params: Params, inputs: seq<string>)
    requires forall i :: 0 <= i < |inputs| ==> m1(inputs[i], params) == m2(inputs[i], params)
    ensures Successes(m1, params, inputs) == Successes(m2, params, inputs)
    decreases |inputs|
  {
    if inputs != [] {
      SuccessesDependOnInputsOnly(m1, m2, params, inputs[..|inputs| - 1]);
    }
  }
}
