/** The gateway's Apply and Shutdown as one caller sees them: which runtime ends up where on every path. */
module GatewayApply {

  class Runtime {
    var closes: nat

    constructor ()
      ensures closes == 0
    {
      closes := 0;
    }

    method Close()
      modifies this
      ensures closes == old(closes) + 1
    {
      closes := closes + 1;
    }
  }

  class Pipeline {
    var rt: Runtime?
    var workspace: string
    var slashReg: nat  // which registry is stored

    constructor ()
      ensures rt == null
    {
      rt := null;
      workspace := "";
      slashReg := 0;
    }

    /** Swaps in the new runtime and closes the one it replaces; a channel failure changes nothing. */
    method Reload(channelsOk: bool, newRt: Runtime, workspace: string, slashReg: nat) returns (ok: bool)
      requires newRt != rt
      modifies this, rt
      ensures ok == channelsOk
      ensures !ok ==> unchanged(this) && (rt != null ==> unchanged(rt))
      ensures ok ==> rt == newRt && this.workspace == workspace && this.slashReg == slashReg
      ensures ok && old(rt) != null ==> old(rt).closes == old(rt.closes) + 1
      ensures newRt.closes == old(newRt.closes)
    {
      if !channelsOk {
        return false;
      }
      var prev := rt;
      rt := newRt;
      this.workspace := workspace;
      this.slashReg := slashReg;
      if prev != null {
        prev.Close();
      }
      return true;
    }

    method TakeRuntimeForShutdown() returns (prev: Runtime?)
      modifies this`rt
      ensures prev == old(rt) && rt == null
    {
      prev := rt;
      rt := null;
    }
  }

  // What each fallible part of Apply does this time.
  datatype Conditions = Conditions(
    workspaceChanged: bool,
    logLevelOk: bool,
    cronOk: bool,
    promptOk: bool,
    slashOk: bool,
    factoryOk: bool,
    channelsOk: bool,
    triggersOk: bool)

  // How far Apply got. Every case but Applied is an error to the caller.
  datatype Outcome = Refused | NotBuilt | NotInstalled | NotStarted | Applied

  function Expected(c: Conditions): Outcome {
    if c.workspaceChanged || !c.logLevelOk then Refused
    else if !c.cronOk || !c.promptOk || !c.slashOk || !c.factoryOk then NotBuilt
    else if !c.channelsOk then NotInstalled
    else if !c.triggersOk then NotStarted
    else Applied
  }

  class Gateway {
    const pipe: Pipeline
    var triggersUp: bool

    constructor (pipe: Pipeline)
      ensures this.pipe == pipe && !triggersUp
    {
      this.pipe := pipe;
      triggersUp := false;
    }

    /** A runtime that was built is either installed and open, the replaced one closed once, or closed
        once itself with the pipeline untouched. After the checks have passed, the triggers run again
        only when everything succeeded. */
    method Apply(c: Conditions, workspace: string, slashReg: nat) returns (outcome: Outcome, built: Runtime?)
      modifies this`triggersUp, pipe, pipe.rt
      ensures outcome == Expected(c)
      ensures outcome == Refused <==> c.workspaceChanged || !c.logLevelOk
      ensures outcome.NotBuilt? ==> !c.cronOk || !c.promptOk || !c.slashOk || !c.factoryOk
      ensures outcome.NotInstalled? ==> !c.channelsOk
      ensures outcome.NotStarted? ==> !c.triggersOk
      ensures outcome.Applied? ==>
                c.cronOk && c.promptOk && c.slashOk && c.factoryOk && c.channelsOk && c.triggersOk
      ensures built != null <==> outcome !in {Refused, NotBuilt}
      ensures built != null ==> fresh(built)
      ensures outcome in {NotStarted, Applied} ==>
                && pipe.rt == built && built.closes == 0
                && pipe.workspace == workspace && pipe.slashReg == slashReg
                && (old(pipe.rt) != null ==> old(pipe.rt).closes == old(pipe.rt.closes) + 1)
      ensures outcome in {Refused, NotBuilt, NotInstalled} ==>
                unchanged(pipe) && (pipe.rt != null ==> unchanged(pipe.rt))
      ensures outcome == NotInstalled ==> built.closes == 1
      ensures triggersUp == if outcome == Refused then old(triggersUp) else outcome == Applied
    {
      built := null;
      if c.workspaceChanged || !c.logLevelOk {
        return Refused, null;
      }
      triggersUp := false;
      if !c.cronOk || !c.promptOk || !c.slashOk || !c.factoryOk {
        return NotBuilt, null;
      }
      built := new Runtime();
      var ok := pipe.Reload(c.channelsOk, built, workspace, slashReg);
      if !ok {
        built.Close();
        return NotInstalled, built;
      }
      if !c.triggersOk {
        return NotStarted, built;
      }
      triggersUp := true;
      outcome := Applied;
    }

    /** Takes the runtime out of the pipeline and closes it; a second call finds nothing to close. */
    method Shutdown()
      modifies this`triggersUp, pipe`rt, pipe.rt
      ensures pipe.rt == null && !triggersUp
      ensures old(pipe.rt) != null ==> old(pipe.rt).closes == old(pipe.rt.closes) + 1
    {
      triggersUp := false;
      var rt := pipe.TakeRuntimeForShutdown();
      if rt != null {
        rt.Close();
      }
    }
  }

  /** Any sequence of Apply calls followed by Shutdown closes every runtime that was built, each once. */
  method Lifetime(applies: seq<Conditions>) returns (runtimes: seq<Runtime>)
    ensures fresh(runtimes)
    ensures |runtimes| == |BuiltBy(applies)|
    ensures forall i :: 0 <= i < |runtimes| ==> runtimes[i].closes == 1
  {
    var pipe := new Pipeline();
    var gateway := new Gateway(pipe);
    runtimes := [];
    var i := 0;
    while i < |applies|
      invariant 0 <= i <= |applies|
      invariant gateway.pipe == pipe && fresh(gateway) && fresh(pipe) && fresh(runtimes)
      invariant |runtimes| == |BuiltBy(applies[..i])|
      invariant forall a, b :: 0 <= a < b < |runtimes| ==> runtimes[a] != runtimes[b]
      invariant pipe.rt != null ==> pipe.rt in runtimes
      invariant forall rt :: rt in runtimes ==> rt.closes == if rt == pipe.rt then 0 else 1
    {
      var _, built := gateway.Apply(applies[i], "", i);
      if built != null {
        runtimes := runtimes + [built];
      }
      assert applies[..i + 1][..i] == applies[..i];
      i := i + 1;
    }
    assert applies[..i] == applies;
    gateway.Shutdown();
  }

  /** The Apply calls whose factory returns a runtime. */
  function BuiltBy(applies: seq<Conditions>): seq<Conditions> {
    if applies == [] then []
    else
      var last := applies[|applies| - 1];
      BuiltBy(applies[..|applies| - 1]) + if Expected(last) in {Refused, NotBuilt} then [] else [last]
  }
}
