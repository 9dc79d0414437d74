/** Running a planned sequence of operations in order, returning at the first one that fails:
    the `if err != nil { return err }` discipline shared by every path of the engine. */
module Batch {
  import opened Types

  /** The operations actually attempted, and the error of the last one if it failed. */
  datatype Execution = Execution(ops: seq<Op>, result: Outcome)

  /** Attempts the plan's steps in order and stops right after the first one that fails. What the
      result means is stated once, by ExecuteMeaning, rather than as a postcondition that every
      proof about the engine would carry. */
  function Execute(plan: seq<Op>, kernel: Kernel): (x: Execution)
  {
    if plan == [] then Execution([], Ok)
    else if !Succeeds(plan[0], kernel) then Execution([plan[0]], kernel(plan[0]))
    else
      var rest := Execute(plan[1..], kernel);
      Execution([plan[0]] + rest.ops, rest.result)
  }

  /** What a run means: what was attempted is a prefix of the plan; success exactly when the whole
      plan ran and every step went through; failure when the last attempted step failed with the
      returned error and every step before it went through. */
  lemma {:induction false} ExecuteMeaning(plan: seq<Op>, kernel: Kernel)
    ensures var x := Execute(plan, kernel);
            && x.ops <= plan
            && (x.result.Ok? <==>
                  x.ops == plan && forall i :: 0 <= i < |plan| ==> Succeeds(plan[i], kernel))
            && (x.result.Err? ==>
                  && 0 < |x.ops|
                  && !Succeeds(plan[|x.ops| - 1], kernel)
                  && x.result == kernel(plan[|x.ops| - 1])
                  && forall i :: 0 <= i < |x.ops| - 1 ==> Succeeds(plan[i], kernel))
  {
    if plan != [] && Succeeds(plan[0], kernel) {
      ExecuteMeaning(plan[1..], kernel);
      var x, rest := Execute(plan, kernel), Execute(plan[1..], kernel);
      assert x.ops == [plan[0]] + rest.ops;
      forall i | 1 <= i < |plan| ensures plan[i] == plan[1..][i - 1] {}
    }
  }

  /** Running two plans one after the other, stopping after the first if it fails, is the same as
      running their concatenation. */
  lemma {:induction false} ExecuteAppend(a: seq<Op>, b: seq<Op>, kernel: Kernel)
    ensures Execute(a + b, kernel) ==
              (var xa := Execute(a, kernel);
               if xa.result.Err? then xa
               else var xb := Execute(b, kernel); Execution(a + xb.ops, xb.result))
  {
    if a == [] {
      assert a + b == b;
    } else {
      var ab := a + b;
      assert ab[0] == a[0];
      assert ab[1..] == a[1..] + b;
      if Succeeds(a[0], kernel) {
        var xa, xr := Execute(a[1..], kernel), Execute(a[1..] + b, kernel);
        assert Execute(a, kernel) == Execution([a[0]] + xa.ops, xa.result);
        assert Execute(ab, kernel) == Execution([a[0]] + xr.ops, xr.result);
        ExecuteAppend(a[1..], b, kernel);
        if xa.result.Ok? {
          var xb := Execute(b, kernel);
          assert [a[0]] + (a[1..] + xb.ops) == a + xb.ops;
        }
      }
    }
  }

  /** Stating the first failing step directly: when step k is the first that fails, the run stops
      right after it with its error. */
  lemma {:induction false} StopsAtFirstFailure(plan: seq<Op>, kernel: Kernel, k: nat)
    requires k < |plan| && !Succeeds(plan[k], kernel)
    requires forall j :: 0 <= j < k ==> Succeeds(plan[j], kernel)
    ensures Execute(plan, kernel) == Execution(plan[..k + 1], kernel(plan[k]))
  {
    if k == 0 {
      assert plan[..1] == [plan[0]];
    } else {
      assert Succeeds(plan[0], kernel);
      var tail := plan[1..];
      forall j | 0 <= j < k - 1 ensures Succeeds(tail[j], kernel) {
        assert tail[j] == plan[j + 1];
      }
      StopsAtFirstFailure(tail, kernel, k - 1);
      assert [plan[0]] + tail[..k] == plan[..k + 1];
    }
  }
}
