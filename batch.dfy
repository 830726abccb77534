/** `process_inputs`: run a handler on every input, in order, and swallow
    whatever a single call raises so that the remaining inputs are still
    processed.  The handler is any function from an input to the way its
    call ended; nothing is collected or returned by the program, so the
    model's result is the trace of attempts. */
module Batch {

  /** How one call of the handler ended: it returned, or it raised. */
  datatype Outcome = Returned | Raised(error: string)

  datatype Attempt = Attempt(item: string, outcome: Outcome)

  /** The attempts made for `items`, first to last. */
  function Trace(items: seq<string>, handler: string -> Outcome): (r: seq<Attempt>)
    ensures |r| == |items|
  {
    if items == [] then [] else [Attempt(items[0], handler(items[0]))] + Trace(items[1..], handler)
  }

  /** The i-th attempt is the i-th input, with the outcome of calling the
      handler on that input alone. */
  lemma {:induction false} TraceAt(items: seq<string>, handler: string -> Outcome, i: int)
    requires 0 <= i < |items|
    ensures Trace(items, handler)[i] == Attempt(items[i], handler(items[i]))
  {
    if i > 0 {
      TraceAt(items[1..], handler, i - 1);
    }
  }

  /** Processing two batches one after the other is processing their
      concatenation. */
  lemma {:induction false} TraceAppend(a: seq<string>, b: seq<string>, handler: string -> Outcome)
    ensures Trace(a + b, handler) == Trace(a, handler) + Trace(b, handler)
  {
    if a == [] {
      assert a + b == b;
    } else {
      assert (a + b)[1..] == a[1..] + b;
      TraceAppend(a[1..], b, handler);
    }
  }

  /** A failure never stops the batch: every input is attempted, whatever
      the handler did on the inputs before it. */
  lemma FailureIsolation(items: seq<string>, h1: string -> Outcome, h2: string -> Outcome, i: int)
    requires 0 <= i < |items|
    requires h1(items[i]) == h2(items[i])
    ensures Trace(items, h1)[i] == Trace(items, h2)[i]
  {
    TraceAt(items, h1, i);
    TraceAt(items, h2, i);
  }

  /** `process_inputs(inputs, handler, args)`: the loop over the inputs. */
  method ProcessInputs(inputs: seq<string>, handler: string -> Outcome) returns (trace: seq<Attempt>)
    ensures trace == Trace(inputs, handler)
    ensures forall i :: 0 <= i < |inputs| ==> trace[i] == Attempt(inputs[i], handler(inputs[i]))
  {
    trace := [];
    for i := 0 to |inputs|
      invariant trace == Trace(inputs[..i], handler)
    {
      var item := inputs[i];
      var outcome := handler(item);
      trace := trace + [Attempt(item, outcome)];
      assert inputs[..i + 1] == inputs[..i] + [item];
      TraceAppend(inputs[..i], [item], handler);
    }
    assert inputs[..|inputs|] == inputs;
    forall i | 0 <= i < |inputs|
      ensures trace[i] == Attempt(inputs[i], handler(inputs[i]))
    {
      TraceAt(inputs, handler, i);
    }
  }
}
