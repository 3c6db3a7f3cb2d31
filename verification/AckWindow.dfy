/**
 `ack` and `last_ack` of one socket under several tasks: every load and store of
 fake-tcp/src/lib.rs:152-154 and 202-208 is a step of its own, and the steps of
 the tasks that call `send` and `recv` interleave.
 */
module AckWindow {
  import opened Bytes
  import opened Packet
  import opened Socket

  /** Where a task is: outside any call; in `recv`, with `last_ack` loaded; in
      `recv`, about to build an idle ACK; or building, with `ack` loaded. */
  datatype Task = Resting | Loaded(newAck: u32, last: u32) | Answering | Building(ack: u32)

  datatype Window = Window(ackNo: u32, lastAck: u32, tasks: seq<Task>)

  datatype Step =
    | RecvLoad(task: nat, newAck: u32)   // `recv` of a segment that ends at `newAck` loads `last_ack`
    | RecvStore(task: nat)               // and stores `ack`
    | AnswerLoad(task: nat)              // an idle ACK loads `ack`
    | SendLoad(task: nat)                // a `send` loads `ack`
    | BuildStore(task: nat)              // either of them stores `last_ack`

  predicate Enabled(w: Window, e: Step) {
    && e.task < |w.tasks|
    && match e
       case RecvLoad(i, _) => w.tasks[i].Resting?
       case RecvStore(i) => w.tasks[i].Loaded?
       case AnswerLoad(i) => w.tasks[i].Answering?
       case SendLoad(i) => w.tasks[i].Resting?
       case BuildStore(i) => w.tasks[i].Building?
  }

  function Apply(w: Window, e: Step): Window
    requires Enabled(w, e)
  {
    match e
    case RecvLoad(i, newAck) => w.(tasks := w.tasks[i := Loaded(newAck, w.lastAck)])
    case RecvStore(i) =>
      var x := w.tasks[i];
      Window(x.newAck, w.lastAck, w.tasks[i := if Diff32(x.newAck, x.last) > MAX_UNACKED_LEN then Answering else Resting])
    case AnswerLoad(i) => w.(tasks := w.tasks[i := Building(w.ackNo)])
    case SendLoad(i) => w.(tasks := w.tasks[i := Building(w.ackNo)])
    case BuildStore(i) => Window(w.ackNo, w.tasks[i].ack, w.tasks[i := Resting])
  }

  /** A run, or nothing if one of its steps is not enabled. */
  function Run(w: Window, steps: seq<Step>): Option<Window>
    decreases |steps|
  {
    if steps == [] then Some(w)
    else if Enabled(w, steps[0]) then Run(Apply(w, steps[0]), steps[1..])
    else None
  }

  /** No call is under way. */
  predicate Quiet(w: Window) {
    forall i :: 0 <= i < |w.tasks| ==> w.tasks[i].Resting?
  }

  predicate Bounded(w: Window) {
    Diff32(w.ackNo, w.lastAck) <= MAX_UNACKED_LEN
  }

  // --------------------------------------------------------------- windows

  /** A store of `last_ack` between another task's load of it and store of `ack`. */
  predicate CutsRecv(w: Window, e: Step) {
    e.BuildStore? && exists j :: 0 <= j < |w.tasks| && j != e.task && w.tasks[j].Loaded?
  }

  /** A store of `ack` between another task's load of it and store of `last_ack`. */
  predicate CutsBuild(w: Window, e: Step) {
    e.RecvStore? && exists j :: 0 <= j < |w.tasks| && j != e.task && w.tasks[j].Building?
  }

  function Count(b: bool): nat { if b then 1 else 0 }

  /** How many steps of a run cut a receive, and how many cut a build. */
  function RecvCuts(w: Window, steps: seq<Step>): nat
    decreases |steps|
  {
    if steps == [] || !Enabled(w, steps[0]) then 0
    else Count(CutsRecv(w, steps[0])) + RecvCuts(Apply(w, steps[0]), steps[1..])
  }

  function BuildCuts(w: Window, steps: seq<Step>): nat
    decreases |steps|
  {
    if steps == [] || !Enabled(w, steps[0]) then 0
    else Count(CutsBuild(w, steps[0])) + BuildCuts(Apply(w, steps[0]), steps[1..])
  }

  predicate Uncut(w: Window, steps: seq<Step>) {
    RecvCuts(w, steps) == 0 && BuildCuts(w, steps) == 0
  }

  lemma RunStep(w: Window, e: Step, steps: seq<Step>)
    requires Enabled(w, e)
    ensures Run(w, [e] + steps) == Run(Apply(w, e), steps)
    ensures RecvCuts(w, [e] + steps) == Count(CutsRecv(w, e)) + RecvCuts(Apply(w, e), steps)
    ensures BuildCuts(w, [e] + steps) == Count(CutsBuild(w, e)) + BuildCuts(Apply(w, e), steps)
  {
    assert ([e] + steps)[1..] == steps;
  }

  // ------------------------------------------- one task is the sequential code

  /** The steps of one `recv` with nobody in between. */
  function RecvSteps(i: nat, lastAck: u32, newAck: u32): seq<Step> {
    [RecvLoad(i, newAck)] + ([RecvStore(i)]
    + if Diff32(newAck, lastAck) > MAX_UNACKED_LEN then [AnswerLoad(i)] + ([BuildStore(i)] + []) else [])
  }

  function SendSteps(i: nat): seq<Step> {
    [SendLoad(i)] + ([BuildStore(i)] + [])
  }

  /** Undisturbed, the steps of a send do what `Sent` says of the two counters. */
  lemma UndisturbedSend(t: Tcb, len: nat, tasks: seq<Task>, i: nat)
    requires i < |tasks| && tasks[i].Resting?
    ensures Run(Window(t.ackNo, t.lastAck, tasks), SendSteps(i)) == Some(Window(Sent(t, len).ackNo, Sent(t, len).lastAck, tasks))
  {
    var w := Window(t.ackNo, t.lastAck, tasks);
    var w1 := Apply(w, SendLoad(i));
    RunStep(w, SendLoad(i), [BuildStore(i)] + []);
    RunStep(w1, BuildStore(i), []);
    assert Apply(w1, BuildStore(i)).tasks == tasks;
  }

  /** Undisturbed, the steps of a receive do what `Receive` says. */
  lemma UndisturbedRecv(a: AddrTuple, t: Tcb, p: Segment, tasks: seq<Task>, i: nat)
    requires i < |tasks| && tasks[i].Resting? && !HasRst(p.flags)
    ensures var u := Receive(a, t, p).tcb;
      Run(Window(t.ackNo, t.lastAck, tasks), RecvSteps(i, t.lastAck, Wrap32(p.seqNo + |p.payload|)))
      == Some(Window(u.ackNo, u.lastAck, tasks))
  {
    var w := Window(t.ackNo, t.lastAck, tasks);
    var newAck := Wrap32(p.seqNo + |p.payload|);
    var w1 := Apply(w, RecvLoad(i, newAck));
    var w2 := Apply(w1, RecvStore(i));
    RunStep(w, RecvLoad(i, newAck), RecvSteps(i, t.lastAck, newAck)[1..]);
    RunStep(w1, RecvStore(i), RecvSteps(i, t.lastAck, newAck)[2..]);
    if Diff32(newAck, t.lastAck) > MAX_UNACKED_LEN {
      var w3 := Apply(w2, AnswerLoad(i));
      RunStep(w2, AnswerLoad(i), [BuildStore(i)] + []);
      RunStep(w3, BuildStore(i), []);
      assert Apply(w3, BuildStore(i)).tasks == tasks;
    } else {
      assert w2.tasks == tasks;
    }
  }

  // ------------------------------------------------- runs that keep the bound

  /** Whoever is inside a window still sees the counter it loaded; and the bound
      holds unless an acknowledgement is on its way. */
  predicate Settling(w: Window) {
    && (forall i :: 0 <= i < |w.tasks| && w.tasks[i].Loaded? ==> w.tasks[i].last == w.lastAck)
    && (forall i :: 0 <= i < |w.tasks| && w.tasks[i].Building? ==> w.tasks[i].ack == w.ackNo)
    && (Bounded(w) || exists i :: 0 <= i < |w.tasks| && (w.tasks[i].Answering? || w.tasks[i].Building?))
  }

  lemma SettlingKept(w: Window, e: Step)
    requires Settling(w) && Enabled(w, e) && !CutsRecv(w, e) && !CutsBuild(w, e)
    ensures Settling(Apply(w, e))
  {
    var f := Apply(w, e);
    if !Bounded(f) && !e.BuildStore? && !e.RecvStore? {
      var i :| 0 <= i < |w.tasks| && (w.tasks[i].Answering? || w.tasks[i].Building?);
      assert f.tasks[i].Answering? || f.tasks[i].Building?;
    } else if e.RecvStore? && !Bounded(f) {
      assert f.tasks[e.task].Answering?;
    }
  }

  lemma {:induction false} UncutSettles(w: Window, steps: seq<Step>)
    requires Settling(w) && Run(w, steps).Some? && Uncut(w, steps)
    ensures Settling(Run(w, steps).value)
    decreases |steps|
  {
    hide Settling, Enabled, Apply;
    if steps != [] {
      SettlingKept(w, steps[0]);
      UncutSettles(Apply(w, steps[0]), steps[1..]);
    }
  }

  /** With any number of tasks, sending and receiving, the bound holds whenever no
      call is under way, if no store fell into another task's window. */
  lemma UncutKeepsBound(w: Window, steps: seq<Step>)
    requires Quiet(w) && Bounded(w) && Run(w, steps).Some? && Uncut(w, steps)
    ensures Quiet(Run(w, steps).value) ==> Bounded(Run(w, steps).value)
  {
    UncutSettles(w, steps);
  }

  // ------------------------------------------------- runs that break the bound

  lemma {:induction false} RunConcat(w: Window, a: seq<Step>, b: seq<Step>)
    requires Run(w, a).Some?
    ensures Run(w, a + b) == Run(Run(w, a).value, b)
    ensures RecvCuts(w, a + b) == RecvCuts(w, a) + RecvCuts(Run(w, a).value, b)
    ensures BuildCuts(w, a + b) == BuildCuts(w, a) + BuildCuts(Run(w, a).value, b)
    decreases |a|
  {
    hide Enabled, Apply, CutsRecv, CutsBuild;
    if a == [] {
      assert a + b == b;
    } else {
      RunConcat(Apply(w, a[0]), a[1..], b);
      assert (a + b)[1..] == a[1..] + b && (a + b)[0] == a[0];
    }
  }

  /** Task `j` builds its next segment: an idle ACK if it owes one, else a send. */
  function BuildLoad(w: Window, j: nat): Step
    requires j < |w.tasks|
  {
    if w.tasks[j].Answering? then AnswerLoad(j) else SendLoad(j)
  }

  /** Only `j` may be inside a call, and only to answer. */
  predicate AtMostAnswering(w: Window, j: nat) {
    && j < |w.tasks| && (w.tasks[j].Resting? || w.tasks[j].Answering?)
    && (forall k :: 0 <= k < |w.tasks| && k != j ==> w.tasks[k].Resting?)
  }

  /** The build of `j` falls into a receive of `i`, or the store of that receive
      into the build of `j`. */
  function Cutting(w: Window, i: nat, j: nat, inRecv: bool): seq<Step>
    requires j < |w.tasks|
  {
    if inRecv then [RecvLoad(i, w.lastAck)] + ([BuildLoad(w, j)] + ([BuildStore(j)] + ([RecvStore(i)] + [])))
    else [BuildLoad(w, j)] + ([RecvLoad(i, w.lastAck)] + ([RecvStore(i)] + ([BuildStore(j)] + [])))
  }

  /** Either way the two counters end up exchanged: a receive that repeats the
      last acknowledged byte stores it as `ack`, the build what `ack` was before. */
  lemma CuttingExchanges(w: Window, i: nat, j: nat, inRecv: bool)
    requires i < |w.tasks| && i != j && AtMostAnswering(w, j) && Diff32(w.lastAck, w.lastAck) == 0
    ensures var steps := Cutting(w, i, j, inRecv);
      && Run(w, steps) == Some(Window(w.lastAck, w.ackNo, w.tasks[j := Resting]))
      && RecvCuts(w, steps) == Count(inRecv) && BuildCuts(w, steps) == Count(!inRecv)
  {
    hide Diff32;
    if inRecv {
      CuttingRecv(w, i, j);
    } else {
      CuttingBuild(w, i, j);
    }
  }

  lemma CuttingRecv(w: Window, i: nat, j: nat)
    requires i < |w.tasks| && i != j && AtMostAnswering(w, j) && Diff32(w.lastAck, w.lastAck) == 0
    ensures var steps := Cutting(w, i, j, true);
      && Run(w, steps) == Some(Window(w.lastAck, w.ackNo, w.tasks[j := Resting]))
      && RecvCuts(w, steps) == 1 && BuildCuts(w, steps) == 0
  {
    hide Diff32;
    var w1 := Apply(w, RecvLoad(i, w.lastAck));
    var w2 := Apply(w1, BuildLoad(w, j));
    var w3 := Apply(w2, BuildStore(j));
    var w4 := Apply(w3, RecvStore(i));
    assert w4 == Window(w.lastAck, w.ackNo, w.tasks[j := Resting]);
    assert w2.tasks[i].Loaded?;
    assert CutsRecv(w2, BuildStore(j)) && !CutsBuild(w3, RecvStore(i));
    hide Enabled, Apply, CutsRecv, CutsBuild;
    RunStep(w3, RecvStore(i), []);
    RunStep(w2, BuildStore(j), [RecvStore(i)] + []);
    RunStep(w1, BuildLoad(w, j), [BuildStore(j)] + ([RecvStore(i)] + []));
    RunStep(w, RecvLoad(i, w.lastAck), [BuildLoad(w, j)] + ([BuildStore(j)] + ([RecvStore(i)] + [])));
  }

  lemma CuttingBuild(w: Window, i: nat, j: nat)
    requires i < |w.tasks| && i != j && AtMostAnswering(w, j) && Diff32(w.lastAck, w.lastAck) == 0
    ensures var steps := Cutting(w, i, j, false);
      && Run(w, steps) == Some(Window(w.lastAck, w.ackNo, w.tasks[j := Resting]))
      && RecvCuts(w, steps) == 0 && BuildCuts(w, steps) == 1
  {
    hide Diff32;
    var w1 := Apply(w, BuildLoad(w, j));
    var w2 := Apply(w1, RecvLoad(i, w.lastAck));
    var w3 := Apply(w2, RecvStore(i));
    var w4 := Apply(w3, BuildStore(j));
    assert w4 == Window(w.lastAck, w.ackNo, w.tasks[j := Resting]);
    assert w2.tasks[j].Building?;
    assert CutsBuild(w2, RecvStore(i)) && !CutsRecv(w3, BuildStore(j));
    hide Enabled, Apply, CutsRecv, CutsBuild;
    RunStep(w3, BuildStore(j), []);
    RunStep(w2, RecvStore(i), [BuildStore(j)] + []);
    RunStep(w1, RecvLoad(i, w.lastAck), [RecvStore(i)] + ([BuildStore(j)] + []));
    RunStep(w, BuildLoad(w, j), [RecvLoad(i, w.lastAck)] + ([RecvStore(i)] + ([BuildStore(j)] + [])));
  }

  /** One whole receive up to its store. */
  function Receiving(i: nat, newAck: u32): seq<Step> {
    [RecvLoad(i, newAck)] + ([RecvStore(i)] + [])
  }

  lemma ReceivingStores(w: Window, i: nat, newAck: u32)
    requires Quiet(w) && i < |w.tasks|
    ensures var steps := Receiving(i, newAck);
      && Run(w, steps) == Some(Window(newAck, w.lastAck,
           w.tasks[i := if Diff32(newAck, w.lastAck) > MAX_UNACKED_LEN then Answering else Resting]))
      && Uncut(w, steps)
  {
    var w1 := Apply(w, RecvLoad(i, newAck));
    assert Apply(w1, RecvStore(i)).tasks
        == w.tasks[i := if Diff32(newAck, w.lastAck) > MAX_UNACKED_LEN then Answering else Resting];
    RunStep(w1, RecvStore(i), []);
    RunStep(w, RecvLoad(i, newAck), [RecvStore(i)] + []);
  }

  lemma Ahead(last: u32, n: nat)
    requires 0 < n <= MAX_UNACKED_LEN + 1
    ensures Diff32(Wrap32(last + n), last) == n
    ensures Diff32(last, Wrap32(last + n)) > MAX_UNACKED_LEN
    ensures Diff32(last, last) == 0
  {
  }

  /** Only two tasks take part; `j` sends or receives, `i` receives. */
  predicate TakeParts(steps: seq<Step>, i: nat, j: nat, sends: bool) {
    forall k :: 0 <= k < |steps| ==>
      && (steps[k].task == i || steps[k].task == j)
      && (steps[k].SendLoad? ==> sends && steps[k].task == j)
      && (steps[k].RecvLoad? && sends ==> steps[k].task == i)
  }

  lemma PartsOf(v: Window, i: nat, j: nat, sends: bool, inRecv: bool, newAck: u32)
    requires j < |v.tasks| && (v.tasks[j].Answering? || sends)
    ensures TakeParts(Receiving(if sends then i else j, newAck) + Cutting(v, i, j, inRecv), i, j, sends)
  {
  }

  /** Neither kind of window can be left open: from every quiet state, for every
      receiving task `i` and every other task `j`, whether `j` sends or receives,
      one cut of either kind breaks the bound for good. */
  lemma {:induction false} OneCutBreaks(w: Window, i: nat, j: nat, sends: bool, inRecv: bool) returns (steps: seq<Step>)
    requires Quiet(w) && i < |w.tasks| && j < |w.tasks| && i != j
    ensures Run(w, steps).Some? && Quiet(Run(w, steps).value) && !Bounded(Run(w, steps).value)
    ensures RecvCuts(w, steps) == Count(inRecv) && BuildCuts(w, steps) == Count(!inRecv)
    ensures TakeParts(steps, i, j, sends)
  {
    var n: nat := if sends then 1 else MAX_UNACKED_LEN + 1;
    var newAck := Wrap32(w.lastAck + n);
    var first := if sends then i else j;
    Ahead(w.lastAck, n);
    hide Run, RecvCuts, BuildCuts, Diff32;
    ReceivingStores(w, first, newAck);
    var v := Run(w, Receiving(first, newAck)).value;
    CuttingExchanges(v, i, j, inRecv);
    RunConcat(w, Receiving(first, newAck), Cutting(v, i, j, inRecv));
    PartsOf(v, i, j, sends, inRecv, newAck);
    steps := Receiving(first, newAck) + Cutting(v, i, j, inRecv);
  }

  // ------------------------------------------ which callers keep the bound

  /** What a task does with the socket. */
  datatype Role = Role(sends: bool, receives: bool)

  predicate Permitted(roles: seq<Role>, steps: seq<Step>) {
    forall k :: 0 <= k < |steps| ==>
      && steps[k].task < |roles|
      && (steps[k].SendLoad? ==> roles[steps[k].task].sends)
      && (steps[k].RecvLoad? ==> roles[steps[k].task].receives)
  }

  /** Whatever the tasks do in their roles and however their steps interleave, the
      bound holds whenever no call is under way. */
  ghost predicate Safe(roles: seq<Role>) {
    forall w: Window, steps: seq<Step> ::
      |w.tasks| == |roles| && Quiet(w) && Bounded(w) && Permitted(roles, steps) && Run(w, steps).Some? ==>
        (Quiet(Run(w, steps).value) ==> Bounded(Run(w, steps).value))
  }

  /** A task that receives is the only one that uses the socket. */
  predicate Solitary(roles: seq<Role>) {
    forall i, j :: 0 <= i < |roles| && 0 <= j < |roles| && i != j && roles[i].receives ==>
      !roles[j].sends && !roles[j].receives
  }

  predicate InRole(roles: seq<Role>, w: Window) {
    && |w.tasks| == |roles|
    && (forall i :: 0 <= i < |roles| && (w.tasks[i].Loaded? || w.tasks[i].Answering?) ==> roles[i].receives)
    && (forall i :: 0 <= i < |roles| && w.tasks[i].Building? ==> roles[i].sends || roles[i].receives)
  }

  lemma {:induction false} SolitaryUncut(roles: seq<Role>, w: Window, steps: seq<Step>)
    requires Solitary(roles) && InRole(roles, w) && Permitted(roles, steps)
    ensures Uncut(w, steps)
    decreases |steps|
  {
    if steps != [] && Enabled(w, steps[0]) {
      assert steps[0].SendLoad? ==> roles[steps[0].task].sends;
      assert steps[0].RecvLoad? ==> roles[steps[0].task].receives;
      assert InRole(roles, Apply(w, steps[0]));
      SolitaryUncut(roles, Apply(w, steps[0]), steps[1..]);
    }
  }

  /** The unacknowledged bound survives concurrency exactly when a task that
      receives is the only one that uses the socket. */
  lemma BoundKeptIff(roles: seq<Role>)
    ensures Safe(roles) <==> Solitary(roles)
  {
    if Solitary(roles) {
      forall w: Window, steps: seq<Step> | |w.tasks| == |roles| && Quiet(w) && Bounded(w) && Permitted(roles, steps) && Run(w, steps).Some?
        ensures Quiet(Run(w, steps).value) ==> Bounded(Run(w, steps).value)
      {
        SolitaryUncut(roles, w, steps);
        UncutKeepsBound(w, steps);
      }
    } else {
      var i, j :| 0 <= i < |roles| && 0 <= j < |roles| && i != j && roles[i].receives && (roles[j].sends || roles[j].receives);
      var w := Window(0, 0, seq(|roles|, _ => Resting));
      var steps := OneCutBreaks(w, i, j, roles[j].sends, true);
      assert Permitted(roles, steps);
    }
  }

  /** The forwarder is not among the callers that keep it: its main loop sends on
      a socket whose workers receive. */
  lemma ForwarderBreaksBound(workers: nat)
    requires workers >= 1
    ensures !Safe([Role(true, false)] + seq(workers, _ => Role(false, true)))
  {
    var roles := [Role(true, false)] + seq(workers, _ => Role(false, true));
    assert roles[1].receives && roles[0].sends;
    BoundKeptIff(roles);
  }
}
