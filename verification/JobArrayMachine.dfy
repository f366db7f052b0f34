/** The `JobArray` class of src/core/jobarray.ts, keeping its claim set in place, proved against `Drain`. */
module JobArrayMachine {
  import opened Basics
  import M = FanOutModel
  import F = FanOutMachine
  import opened Drain

  class JobArray {
    const fanOut: F.FanOut
    var drained: set<M.InstanceId>
    /** The calls of `enforceViability` made so far: their locals, and at the end their results. */
    var calls: seq<Call>

    function View(registered: bool): System
      reads this, fanOut
    {
      System(fanOut.View(), drained, calls, registered)
    }

    constructor (fanOut: F.FanOut)
      requires fanOut.Valid()
      ensures this.fanOut == fanOut
      ensures View(true) == System(fanOut.View(), {}, [], true)
    {
      this.fanOut := fanOut;
      drained, calls := {}, [];
    }

    /** The loop of a call, to its next terminate or its end. */
    method GoOn(call: Call) returns (next: Call)
      modifies this`drained
      ensures (View(true), next) == Advance(old(View(true)), call)
    {
      var i := 0;
      ghost var skip := Skipped(call.rest, drained);
      while i < |call.rest|
        invariant 0 <= i <= skip
        invariant drained == old(drained)
      {
        if call.rest[i] !in drained {
          drained := drained + {call.rest[i]};
          return call.(rest := call.rest[i + 1..], inFlight := Some(call.rest[i]));
        }
        i := i + 1;
      }
      return call.(rest := [], inFlight := None);
    }

    method EnforceViability()
      requires fanOut.Valid()
      modifies this
      ensures View(true) == StartCall(fanOut.cfg, old(View(true)))
    {
      var ids := [];
      var candidates := fanOut.ViableCandidates();
      if candidates < fanOut.cfg.minViable {
        ids := fanOut.SurvivorIds();
      }
      var call := GoOn(Call(ids, ids, None, [], []));
      calls := calls + [call];
    }

    /** The terminate that call c waits for is over: it succeeded, or it threw. */
    method TerminateSettled(c: nat, ok: bool)
      requires c < |calls| && calls[c].inFlight.Some?
      modifies this
      ensures View(true) == EndTerminate(old(View(true)), c, ok)
    {
      var call := calls[c];
      var id := call.inFlight.value;
      if ok {
        call := call.(terminated := call.terminated + [id]);
      } else {
        drained := drained - {id};
        call := call.(failed := call.failed + [id]);
      }
      call := GoOn(call);
      calls := calls[c := call];
    }
  }
}
