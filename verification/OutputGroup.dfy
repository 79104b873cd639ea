/** Several outputs driven together: opening all of them or none, and sending one frame to each. */
module OutputGroup {
  import opened Util
  import opened Lists
  import opened DatagramOutput
  import opened FrameMapping
  import opened Ddp

  // --- sending -----------------------------------------------------------------------------------

  /** An output is passed over while it is unhealthy, except for the safe state. */
  predicate PassedOver(st: State, frame: PhysicalFrame) { !st.health.healthy && !frame.safeState }

  function Submit(st: State): State { st.(health := st.health.(framesSubmitted := st.health.framesSubmitted + 1)) }

  /** One output's turn; the outcome is what escapes to the caller. */
  function Turn(u: Setup, st: State, frame: PhysicalFrame): (State, Outcome) {
    if PassedOver(st, frame) then (Submit(st), Returned)
    else
      var (after, r) := Sent(u, Submit(st), frame);
      if r.Returned? then (after, Returned)
      else
        (after.(health := after.health.Unwell()), if u.mode == Production && !frame.safeState then Raised else Returned)
  }

  /** The turns of the first `k` outputs, up to the first exception. */
  function SentAll(us: seq<Setup>, sts: seq<State>, frame: PhysicalFrame, k: nat): (r: (seq<State>, Outcome))
    requires k <= |us| == |sts|
    ensures |r.0| == |sts|
  {
    if k == 0 then (sts, Returned)
    else
      var (before, r) := SentAll(us, sts, frame, k - 1);
      if r.Raised? then (before, Raised)
      else
        var (after, escaped) := Turn(us[k - 1], before[k - 1], frame);
        (before[k - 1 := after], escaped)
  }

  // --- opening -----------------------------------------------------------------------------------

  datatype Opening = Opening(states: seq<State>, entered: seq<nat>, outcome: Outcome)

  /** Closes the given outputs, the last one first. */
  function RolledBack(us: seq<Setup>, sts: seq<State>, which: seq<nat>): (r: seq<State>)
    requires |us| == |sts| && forall j :: 0 <= j < |which| ==> which[j] < |us|
    ensures |r| == |sts|
    decreases |which|
  {
    if which == [] then sts
    else
      var i := which[|which| - 1];
      RolledBack(us, sts[i := Closed(us[i], sts[i])], which[..|which| - 1])
  }

  /** One output's opening, with the handler's mark on a failed one. */
  function Attempted(u: Setup, st: State, works: bool): (State, Outcome) {
    var (after, r) := Opened(u, st, works);
    (if r.Raised? then after.(health := after.health.Unwell()) else after, r)
  }

  function OpenedAll(us: seq<Setup>, sts: seq<State>, works: seq<bool>, k: nat): (r: Opening)
    requires k <= |us| == |sts| == |works|
    ensures |r.states| == |sts| && forall j :: 0 <= j < |r.entered| ==> r.entered[j] < k
  {
    if k == 0 then Opening(sts, [], Returned)
    else
      var before := OpenedAll(us, sts, works, k - 1);
      if before.outcome.Raised? then before
      else
        var (after, r) := Attempted(us[k - 1], before.states[k - 1], works[k - 1]);
        var states := before.states[k - 1 := after];
        if r.Returned? then Opening(states, before.entered + [k - 1], Returned)
        else if us[k - 1].mode == Production then
          Opening(RolledBack(us, states, before.entered), before.entered, Raised)
        else Opening(states, before.entered, Returned)
  }

  /** One more output: opened, failed and given up, or failed with the rest rolled back. */
  lemma OpeningStep(us: seq<Setup>, sts: seq<State>, works: seq<bool>, k: nat)
    requires k < |us| == |sts| == |works| && OpenedAll(us, sts, works, k).outcome.Returned?
    ensures var before, o := OpenedAll(us, sts, works, k), OpenedAll(us, sts, works, k + 1);
      var (after, r) := Attempted(us[k], before.states[k], works[k]);
      var states := before.states[k := after];
      && (r.Returned? ==> o == Opening(states, before.entered + [k], Returned))
      && (r.Raised? && us[k].mode == Production ==>
            o == Opening(RolledBack(us, states, before.entered), before.entered, Raised))
      && (r.Raised? && us[k].mode != Production ==> o == Opening(states, before.entered, Returned))
  {
    hide Attempted, RolledBack;
  }

  // --- the loops ---------------------------------------------------------------------------------

  ghost function States(outputs: seq<Output>): (r: seq<State>)
    reads outputs
    ensures |r| == |outputs| && forall i :: 0 <= i < |outputs| ==> r[i] == outputs[i].Now()
  {
    if outputs == [] then [] else States(outputs[..|outputs| - 1]) + [outputs[|outputs| - 1].Now()]
  }

  ghost function Setups(outputs: seq<Output>): (r: seq<Setup>)
    ensures |r| == |outputs| && forall i :: 0 <= i < |outputs| ==> r[i] == outputs[i].setup
  {
    seq(|outputs|, i requires 0 <= i < |outputs| => outputs[i].setup)
  }

  method TakeTurn(output: Output, frame: PhysicalFrame) returns (r: Outcome)
    modifies output
    ensures (output.Now(), r) == Turn(output.setup, old(output.Now()), frame)
  {
    hide Sent;
    ghost var passed := PassedOver(output.Now(), frame);
    var healthy := output.health.healthy;
    output.health := output.health.(framesSubmitted := output.health.framesSubmitted + 1);
    if !healthy && !frame.safeState {
      return Returned;
    }
    r := output.SendFrame(frame);
    if r.Raised? {
      output.health := output.health.Unwell();
      if output.setup.mode != Production || frame.safeState {
        r := Returned;
      }
    }
  }

  method SendAll(outputs: seq<Output>, frame: PhysicalFrame) returns (r: Outcome)
    requires Distinct(outputs)
    modifies outputs
    ensures (States(outputs), r) == SentAll(Setups(outputs), old(States(outputs)), frame, |outputs|)
  {
    hide Turn, Output.Now, States, SentAll;
    ghost var us, start := Setups(outputs), States(outputs);
    ghost var now := start;
    SendingStep(us, start, frame, 0);
    for k := 0 to |outputs|
      invariant |now| == |outputs| && forall i :: 0 <= i < |outputs| ==> outputs[i].Now() == now[i]
      invariant (now, Returned) == SentAll(us, start, frame, k)
    {
      SendingStep(us, start, frame, k);
      r := TakeTurn(outputs[k], frame);
      now := now[k := outputs[k].Now()];
      if r.Raised? {
        SendingStops(us, start, frame, k + 1, |outputs|);
        assert States(outputs) == now;
        return;
      }
    }
    assert States(outputs) == now;
    r := Returned;
  }

  lemma SendingStep(us: seq<Setup>, sts: seq<State>, frame: PhysicalFrame, k: nat)
    requires k <= |us| == |sts|
    ensures SentAll(us, sts, frame, 0) == (sts, Returned)
    ensures k < |us| ==>
      var (before, r) := SentAll(us, sts, frame, k);
      r.Returned? ==> SentAll(us, sts, frame, k + 1)
                      == (var (after, escaped) := Turn(us[k], before[k], frame); (before[k := after], escaped))
  {
    hide Turn;
  }

  lemma {:induction false} SendingStops(us: seq<Setup>, sts: seq<State>, frame: PhysicalFrame, k: nat, n: nat)
    requires k <= n <= |us| == |sts| && SentAll(us, sts, frame, k).1.Raised?
    ensures SentAll(us, sts, frame, n) == SentAll(us, sts, frame, k)
    decreases n
  {
    hide Turn;
    if k < n {
      SendingStops(us, sts, frame, k, n - 1);
    }
  }

  method TryOpen(output: Output, works: bool) returns (r: Outcome)
    modifies output
    ensures (output.Now(), r) == Attempted(output.setup, old(output.Now()), works)
  {
    hide Opened;
    r := output.Open(works);
    if r.Raised? {
      output.health := output.health.Unwell();
    }
  }

  method OpenAll(outputs: seq<Output>, works: seq<bool>) returns (r: Outcome)
    requires Distinct(outputs) && |works| == |outputs|
    modifies outputs
    ensures var o := OpenedAll(Setups(outputs), old(States(outputs)), works, |outputs|);
      States(outputs) == o.states && r == o.outcome
  {
    hide Attempted, Output.Now, States, RolledBack, OpenedAll, Setups;
    NothingOpened(Setups(outputs), States(outputs), works);
    ghost var us, start := Setups(outputs), States(outputs);
    ghost var now := start;
    var done: seq<nat> := [];
    for k := 0 to |outputs|
      invariant |now| == |outputs| && forall i :: 0 <= i < |outputs| ==> outputs[i].Now() == now[i]
      invariant OpenedAll(us, start, works, k) == Opening(now, done, Returned)
    {
      OpeningStep(us, start, works, k);
      r := TryOpen(outputs[k], works[k]);
      now := now[k := outputs[k].Now()];
      assert forall i :: 0 <= i < |outputs| ==> outputs[i].Now() == now[i];
      if r.Returned? {
        done := done + [k];
      } else if outputs[k].setup.mode == Production {
        OpeningStops(us, start, works, k + 1, |outputs|);
        StatesAre(outputs, now);
        RollBack(outputs, done);
        return Raised;
      }
    }
    StatesAre(outputs, now);
    r := Returned;
  }

  lemma StatesAre(outputs: seq<Output>, now: seq<State>)
    requires |now| == |outputs| && forall i :: 0 <= i < |outputs| ==> outputs[i].Now() == now[i]
    ensures States(outputs) == now
  {
    hide Output.Now;
  }

  method RollBack(outputs: seq<Output>, which: seq<nat>)
    requires Distinct(outputs) && forall j :: 0 <= j < |which| ==> which[j] < |outputs|
    modifies outputs
    ensures States(outputs) == RolledBack(Setups(outputs), old(States(outputs)), which)
  {
    hide Closed, Output.Now, States;
    ghost var us, start := Setups(outputs), States(outputs);
    ghost var now := start;
    var k := |which|;
    assert which[..k] == which;
    while k > 0
      invariant 0 <= k <= |which|
      invariant |now| == |outputs| && forall i :: 0 <= i < |outputs| ==> outputs[i].Now() == now[i]
      invariant RolledBack(us, now, which[..k]) == RolledBack(us, start, which)
    {
      k := k - 1;
      assert which[..k + 1][..k] == which[..k];
      outputs[which[k]].Close();
      now := now[which[k] := outputs[which[k]].Now()];
    }
    assert States(outputs) == now;
  }

  lemma NothingOpened(us: seq<Setup>, sts: seq<State>, works: seq<bool>)
    requires |us| == |sts| == |works|
    ensures OpenedAll(us, sts, works, 0) == Opening(sts, [], Returned)
  {
  }

  lemma {:induction false} OpeningStops(us: seq<Setup>, sts: seq<State>, works: seq<bool>, k: nat, n: nat)
    requires k <= n <= |us| == |sts| == |works| && OpenedAll(us, sts, works, k).outcome.Raised?
    ensures OpenedAll(us, sts, works, n) == OpenedAll(us, sts, works, k)
    decreases n
  {
    hide Attempted, RolledBack;
    if k < n {
      OpeningStops(us, sts, works, k, n - 1);
    }
  }

  // --- all or nothing ----------------------------------------------------------------------------

  /** Opening needs a socket that cannot be had. */
  predicate OpenFails(u: Setup, st: State, works: bool) { u.mode == Production && !st.hasSocket && !works }

  predicate Ready(st: State) { st.isOpen && st.health.healthy }

  lemma OpeningOne(u: Setup, st: State, works: bool)
    ensures var (after, r) := Attempted(u, st, works);
      && (r.Raised? ==> !after.health.healthy)
      && (r.Raised? <==> OpenFails(u, st, works))
      && (r.Returned? ==> Ready(after))
      && (r.Raised? ==> u.mode == Production && after.isOpen == st.isOpen)
    ensures !Closed(u, st).isOpen
  {
  }

  function FirstOf(k: nat): seq<nat> { if k == 0 then [] else FirstOf(k - 1) + [k - 1] }

  lemma {:induction false} FirstOfAt(k: nat)
    ensures |FirstOf(k)| == k && forall i :: 0 <= i < k ==> FirstOf(k)[i] == i
  {
    if k > 0 {
      FirstOfAt(k - 1);
    }
  }

  lemma {:induction false} RollingBackCloses(us: seq<Setup>, sts: seq<State>, k: nat)
    requires k <= |us| == |sts|
    ensures |FirstOf(k)| == k && forall j :: 0 <= j < k ==> FirstOf(k)[j] < |us|
    ensures var after := RolledBack(us, sts, FirstOf(k));
      forall i :: 0 <= i < |us| ==> after[i] == if i < k then Closed(us[i], sts[i]) else sts[i]
    decreases k
  {
    hide Closed;
    FirstOfAt(k);
    if k > 0 {
      assert FirstOf(k)[..k - 1] == FirstOf(k - 1);
      RollingBackCloses(us, sts[k - 1 := Closed(us[k - 1], sts[k - 1])], k - 1);
    }
  }

  lemma {:induction false} OpeningSoFar(us: seq<Setup>, sts: seq<State>, works: seq<bool>, k: nat)
    requires k <= |us| == |sts| == |works| && forall j :: 0 <= j < k ==> !OpenFails(us[j], sts[j], works[j])
    ensures var o := OpenedAll(us, sts, works, k);
      && o.outcome.Returned? && o.entered == FirstOf(k)
      && forall i :: 0 <= i < |us| ==> o.states[i] == if i < k then Attempted(us[i], sts[i], works[i]).0 else sts[i]
  {
    hide Attempted, RolledBack, OpenFails, OpenedAll;
    NothingOpened(us, sts, works);
    if k > 0 {
      OpeningSoFar(us, sts, works, k - 1);
      OpeningStep(us, sts, works, k - 1);
      OpeningOne(us[k - 1], sts[k - 1], works[k - 1]);
      var before := OpenedAll(us, sts, works, k - 1);
      var after := Attempted(us[k - 1], sts[k - 1], works[k - 1]).0;
      assert OpenedAll(us, sts, works, k)
          == Opening(before.states[k - 1 := after], before.entered + [k - 1], Returned);
      assert FirstOf(k) == FirstOf(k - 1) + [k - 1];
    }
  }

  lemma OpenAllOpensAll(us: seq<Setup>, sts: seq<State>, works: seq<bool>)
    requires |us| == |sts| == |works| && forall j :: 0 <= j < |us| ==> !OpenFails(us[j], sts[j], works[j])
    ensures var o := OpenedAll(us, sts, works, |us|);
      o.outcome.Returned? && forall i :: 0 <= i < |us| ==> Ready(o.states[i])
  {
    hide OpenFails, OpenedAll, Attempted, Ready, Opened, Closed, RolledBack, FirstOf;
    OpeningSoFar(us, sts, works, |us|);
    forall i | 0 <= i < |us|
      ensures Ready(Attempted(us[i], sts[i], works[i]).0)
    {
      OpeningOne(us[i], sts[i], works[i]);
    }
  }

  /** Opening several outputs succeeds exactly if none of them fails, and then all of them are open and healthy. */
  lemma OpenAllSucceedsIff(us: seq<Setup>, sts: seq<State>, works: seq<bool>)
    requires |us| == |sts| == |works|
    ensures var o := OpenedAll(us, sts, works, |us|);
      && (o.outcome.Returned? <==> forall j :: 0 <= j < |us| ==> !OpenFails(us[j], sts[j], works[j]))
      && (o.outcome.Returned? ==> forall i :: 0 <= i < |us| ==> Ready(o.states[i]))
  {
    hide OpenFails, OpenedAll, Attempted, RolledBack, Closed, Ready;
    if forall j :: 0 <= j < |us| ==> !OpenFails(us[j], sts[j], works[j]) {
      OpenAllOpensAll(us, sts, works);
    } else {
      var k := FirstFailure(us, sts, works, 0);
      var failed := FailureAt(us, sts, works, k);
    }
  }

  lemma FirstFailure(us: seq<Setup>, sts: seq<State>, works: seq<bool>, from: nat) returns (k: nat)
    requires from <= |us| == |sts| == |works|
    requires forall j :: 0 <= j < from ==> !OpenFails(us[j], sts[j], works[j])
    requires !forall j :: 0 <= j < |us| ==> !OpenFails(us[j], sts[j], works[j])
    ensures k < |us| && OpenFails(us[k], sts[k], works[k])
    ensures forall j :: 0 <= j < k ==> !OpenFails(us[j], sts[j], works[j])
    decreases |us| - from
  {
    hide OpenFails;
    if OpenFails(us[from], sts[from], works[from]) {
      k := from;
    } else {
      k := FirstFailure(us, sts, works, from + 1);
    }
  }

  /** The first failure is at `k`: the states before the roll-back, and that the exception escapes. */
  lemma FailureAt(us: seq<Setup>, sts: seq<State>, works: seq<bool>, k: nat) returns (failed: seq<State>)
    requires k < |us| == |sts| == |works| && OpenFails(us[k], sts[k], works[k])
    requires forall j :: 0 <= j < k ==> !OpenFails(us[j], sts[j], works[j])
    ensures |failed| == |us| && |FirstOf(k)| == k && forall j :: 0 <= j < k ==> FirstOf(k)[j] < |us|
    ensures OpenedAll(us, sts, works, |us|) == Opening(RolledBack(us, failed, FirstOf(k)), FirstOf(k), Raised)
    ensures forall i :: 0 <= i < k ==> failed[i] == Attempted(us[i], sts[i], works[i]).0
    ensures !failed[k].health.healthy && failed[k].isOpen == sts[k].isOpen
    ensures forall i :: k < i < |us| ==> failed[i] == sts[i]
  {
    hide OpenedAll, RolledBack, Attempted, Closed, OpenFails;
    OpeningSoFar(us, sts, works, k);
    OpeningOne(us[k], sts[k], works[k]);
    OpeningStep(us, sts, works, k);
    FirstOfAt(k);
    failed := OpenedAll(us, sts, works, k).states[k := Attempted(us[k], sts[k], works[k]).0];
    OpeningStops(us, sts, works, k + 1, |us|);
  }

  /** When the first failure is at `k`, the exception escapes, every output opened before it in this call is closed
      again, the failed one is unhealthy, and those after it are untouched. */
  lemma OpenAllRollsBack(us: seq<Setup>, sts: seq<State>, works: seq<bool>, k: nat)
    requires k < |us| == |sts| == |works| && OpenFails(us[k], sts[k], works[k])
    requires forall j :: 0 <= j < k ==> !OpenFails(us[j], sts[j], works[j])
    ensures var o := OpenedAll(us, sts, works, |us|);
      && o.outcome.Raised?
      && (forall i :: 0 <= i < k ==>
            o.states[i] == Closed(us[i], Attempted(us[i], sts[i], works[i]).0) && !o.states[i].isOpen)
      && !o.states[k].health.healthy && o.states[k].isOpen == sts[k].isOpen
      && forall i :: k < i < |us| ==> o.states[i] == sts[i]
  {
    hide OpenedAll, RolledBack, Attempted, OpenFails;
    var failed := FailureAt(us, sts, works, k);
    RollingBackCloses(us, failed, k);
  }

  // --- who gets a frame --------------------------------------------------------------------------

  /** Only production outputs let an exception escape. */
  lemma TurnEscapes(u: Setup, st: State, frame: PhysicalFrame)
    ensures Turn(u, st, frame).1.Raised? ==> u.mode == Production && !frame.safeState
    ensures Turn(u, st, frame).1.Raised? ==> !Turn(u, st, frame).0.health.healthy
    ensures Turn(u, st, frame).0.health.framesSubmitted == st.health.framesSubmitted + 1
  {
    hide Flushed;
    FlushKeepsSubmitted(u, Submit(st).(slot := Some(frame)));
    FlushKeepsSubmitted(u, Submit(st).(slot := Some(frame), health := Submit(st).health.DropFrame()));
  }

  lemma FlushKeepsSubmitted(u: Setup, st: State)
    ensures Flushed(u, st).0.health.framesSubmitted == st.health.framesSubmitted
  {
    hide FlushNodes;
    if st.slot.Some? {
      NodesKeepSubmitted(u, st.(slot := None), st.slot.value, st.slot.value.nodes);
    }
  }

  lemma {:induction false} NodesKeepSubmitted(u: Setup, st: State, frame: PhysicalFrame, nodes: seq<NodeFrame>)
    ensures FlushNodes(u, st, frame, nodes).0.health.framesSubmitted == st.health.framesSubmitted
  {
    hide SendPackets;
    if nodes != [] {
      NodesKeepSubmitted(u, st, frame, nodes[..|nodes| - 1]);
      var n, before := nodes[|nodes| - 1], FlushNodes(u, st, frame, nodes[..|nodes| - 1]).0;
      if u.encode(n, frame).Some? {
        PacketsKeepSubmitted(u, before, u.encode(n, frame).value, u.AddressOf(n));
      }
    }
  }

  lemma {:induction false} PacketsKeepSubmitted(u: Setup, st: State, packets: seq<Bytes>, address: Address)
    ensures SendPackets(u, st, packets, address).0.health.framesSubmitted == st.health.framesSubmitted
  {
    if packets != [] {
      PacketsKeepSubmitted(u, st, packets[..|packets| - 1], address);
    }
  }

  lemma {:induction false} SentSoFar(us: seq<Setup>, sts: seq<State>, frame: PhysicalFrame, k: nat)
    requires k <= |us| == |sts| && forall i :: 0 <= i < k ==> Turn(us[i], sts[i], frame).1.Returned?
    ensures var (after, r) := SentAll(us, sts, frame, k);
      && r.Returned?
      && forall i :: 0 <= i < |us| ==> after[i] == if i < k then Turn(us[i], sts[i], frame).0 else sts[i]
  {
    hide Turn;
    if k > 0 {
      SentSoFar(us, sts, frame, k - 1);
    }
  }

  /** The safe state is offered to every output, healthy or not, and nothing escapes. */
  lemma SafeStateReachesAll(us: seq<Setup>, sts: seq<State>, frame: PhysicalFrame)
    requires |us| == |sts| && frame.safeState
    ensures var (after, r) := SentAll(us, sts, frame, |us|);
      && r.Returned?
      && forall i :: 0 <= i < |us| ==>
           var st := Sent(us[i], Submit(sts[i]), frame).0;
           after[i] == st || after[i] == st.(health := st.health.Unwell())
  {
    hide Sent;
    forall i | 0 <= i < |us| ensures Turn(us[i], sts[i], frame).1.Returned? {
      TurnEscapes(us[i], sts[i], frame);
    }
    SentSoFar(us, sts, frame, |us|);
  }

  /** When an exception escapes from output `k`: those before it had their turn, `k` is a production output and now
      unhealthy, and those after it were not even submitted the frame. */
  lemma EscapeStopsTheRest(us: seq<Setup>, sts: seq<State>, frame: PhysicalFrame, k: nat)
    requires k < |us| == |sts| && Turn(us[k], sts[k], frame).1.Raised?
    requires forall i :: 0 <= i < k ==> Turn(us[i], sts[i], frame).1.Returned?
    ensures var (after, r) := SentAll(us, sts, frame, |us|);
      && r.Raised? && us[k].mode == Production && !after[k].health.healthy
      && (forall i :: 0 <= i <= k ==> after[i] == Turn(us[i], sts[i], frame).0)
      && forall i :: k < i < |us| ==> after[i] == sts[i]
  {
    hide Turn;
    SentSoFar(us, sts, frame, k);
    TurnEscapes(us[k], sts[k], frame);
    SendingStops(us, sts, frame, k + 1, |us|);
  }

  // --- accounting of one output in the group -----------------------------------------------------

  /** What happens to one output: a turn with a frame, its own flush, or opening and closing. */
  datatype Act = TurnAct(frame: PhysicalFrame) | FlushAct | OpenAct(works: bool) | CloseAct

  function ActOn(u: Setup, st: State, a: Act): State {
    match a
    case TurnAct(frame) => Turn(u, st, frame).0
    case FlushAct => Flushed(u, st).0
    case OpenAct(works) => Opened(u, st, works).0
    case CloseAct => Closed(u, st)
  }

  function Life(u: Setup, injectedSocket: bool, acts: seq<Act>): State {
    if acts == [] then State(false, injectedSocket, None, NEW_HEALTH, 0, [])
    else ActOn(u, Life(u, injectedSocket, acts[..|acts| - 1]), acts[|acts| - 1])
  }

  /** The turns in which the output was passed over. */
  function Skips(u: Setup, injectedSocket: bool, acts: seq<Act>): nat {
    if acts == [] then 0
    else
      var init, a := acts[..|acts| - 1], acts[|acts| - 1];
      Skips(u, injectedSocket, init)
      + (if a.TurnAct? && PassedOver(Life(u, injectedSocket, init), a.frame) then 1 else 0)
  }

  lemma ActAccounts(u: Setup, st: State, a: Act)
    ensures var after := ActOn(u, st, a);
      var skipped := if a.TurnAct? && PassedOver(st, a.frame) then 1 else 0;
      after.health.framesSubmitted - (after.health.framesSent + after.health.framesDropped + after.Pending())
      == st.health.framesSubmitted - (st.health.framesSent + st.health.framesDropped + st.Pending()) + skipped
  {
    hide Flushed;
    match a {
      case FlushAct =>
        FlushAccounts(u, st);
        FlushKeepsSubmitted(u, st);
      case TurnAct(frame) =>
        TurnEscapes(u, st, frame);
        var one := Submit(st);
        var health := if one.slot.Some? then one.health.DropFrame() else one.health;
        FlushAccounts(u, one.(slot := Some(frame), health := health));
      case OpenAct(works) =>
      case CloseAct =>
    }
  }

  /** Over every life of an output in a group: each frame submitted to it was sent, dropped, is still waiting, or was
      passed over because the output was unhealthy. */
  lemma {:induction false} SubmittedFramesAreAccountedFor(u: Setup, injectedSocket: bool, acts: seq<Act>)
    ensures var st := Life(u, injectedSocket, acts);
      st.health.framesSubmitted
      == st.health.framesSent + st.health.framesDropped + st.Pending() + Skips(u, injectedSocket, acts)
  {
    hide ActOn;
    if acts != [] {
      SubmittedFramesAreAccountedFor(u, injectedSocket, acts[..|acts| - 1]);
      ActAccounts(u, Life(u, injectedSocket, acts[..|acts| - 1]), acts[|acts| - 1]);
    }
  }
}
