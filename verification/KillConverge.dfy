/** The bounded kill loop: internal/actions/kill_converge.go, with the numbers of its summary from
    internal/tui/blocking/runtime.go. Times are nanoseconds. */
module KillConverge {
  import opened Wrappers
  import opened Text
  import opened Dedupe

  const DEFAULT_MAX_DURATION := 4_000_000_000
  const DEFAULT_MAX_ITERATIONS := 12
  const DEFAULT_SLEEP := 120_000_000

  datatype Options = Options(maxDuration: int, maxIterations: int, sleepBetweenIters: int)

  function Normalized(o: Options): (n: Options)
    ensures n.maxDuration > 0 && n.maxIterations > 0 && n.sleepBetweenIters >= 0
    ensures n.maxDuration == o.maxDuration || (o.maxDuration <= 0 && n.maxDuration == 4_000_000_000)
    ensures n.maxIterations == o.maxIterations || (o.maxIterations <= 0 && n.maxIterations == 12)
    ensures n.sleepBetweenIters == if o.sleepBetweenIters < 0 then 120_000_000 else o.sleepBetweenIters
  {
    Options(if o.maxDuration <= 0 then DEFAULT_MAX_DURATION else o.maxDuration,
            if o.maxIterations <= 0 then DEFAULT_MAX_ITERATIONS else o.maxIterations,
            if o.sleepBetweenIters < 0 then DEFAULT_SLEEP else o.sleepBetweenIters)
  }

  datatype SocketTuple = SocketTuple(localIP: string, localPort: int, remoteIP: string, remotePort: int)

  function SocketTupleKey(t: SocketTuple): string {
    PipeKey(t.localIP, t.localPort, t.remoteIP, t.remotePort)
  }

  predicate CleanSocket(t: SocketTuple) {
    CleanAddress(t.localIP) && CleanAddress(t.remoteIP)
  }

  datatype Counted = Counted(active: int, timeWait: int, error: Option<string>)

  /** What the environment answers, by number of the pass; number 0 is before the first pass. An absent
      hook is None. Any behaviour of the sockets, the kernel and the clock is some value of this type. */
  datatype Environment<!T> = Environment(
    countStates: nat -> Counted,
    now: nat -> int,
    broadKill: bool,
    queryExactTuples: Option<nat -> Result<seq<T>, string>>,
    killTuples: Option<nat -> Option<string>>,
    dropConntrack: Option<nat -> Option<string>>,
    sleep: bool)

  datatype Report = Report(
    beforeActiveCount: int, afterActiveCount: int,
    beforeTimeWaitCount: int, afterTimeWaitCount: int,
    beforeCountErr: Option<string>, afterCountErr: Option<string>,
    socketErr: Option<string>, flowErr: Option<string>,
    iterations: nat, timedOut: bool, converged: bool)

  predicate IsPartial(r: Report) {
    !r.converged && r.afterCountErr.None? && r.afterActiveCount > 0
  }

  /** The outside effects of one pass, which come in this order. */
  datatype Pass<T> = Pass(broadKill: bool, killed: Option<seq<T>>, dropConntrack: bool, slept: Option<int>)

  /** dedupeSocketTuples */
  method DedupeTuples<T, K(==)>(tuples: seq<T>, keyOf: T -> K) returns (out: seq<T>)
    ensures out == Fresh({}, tuples, keyOf)
  {
    if |tuples| < 2 {
      FreshKeepsDistinct(tuples, keyOf);
      return tuples;
    }
    out := Collect({}, tuples, keyOf);
  }

  // ---------- What the loop does, pass by pass ----------

  function Queried<T>(env: Environment<T>, pass: nat): seq<T> {
    match env.queryExactTuples
    case None => []
    case Some(query) => match query(pass) { case Err(_) => [] case Ok(tuples) => tuples }
  }

  function TuplesToKill<T, K(==)>(env: Environment<T>, snapshot: seq<T>, keyOf: T -> K, pass: nat): seq<T> {
    Fresh({}, Queried(env, pass) + Fresh({}, snapshot, keyOf), keyOf)
  }

  function PassOf<T>(env: Environment<T>, tuples: seq<T>, pause: Option<int>): Pass<T> {
    Pass(env.broadKill, if |tuples| > 0 && env.killTuples.Some? then Some(tuples) else None, env.dropConntrack.Some?,
         pause)
  }

  function Pause<T>(env: Environment<T>, o: Options): Option<int> {
    if o.sleepBetweenIters > 0 && env.sleep then Some(o.sleepBetweenIters) else None
  }

  /** The effects of a run: every pass but the last ends with a pause. */
  ghost predicate RunEffects<T>(env: Environment<T>, o: Options, aim: nat -> seq<T>, passes: nat, log: seq<Pass<T>>) {
    && |log| == passes
    && forall i :: 0 <= i < passes ==> log[i] == PassOf(env, aim(i + 1), if i + 1 < passes then Pause(env, o) else None)
  }

  function Aim<T, K(==)>(env: Environment<T>, snapshot: seq<T>, keyOf: T -> K): nat -> seq<T> {
    (pass: nat) => TuplesToKill(env, snapshot, keyOf, pass)
  }

  predicate IsPass(pass: nat) { true }

  /** `aim` gives the tuples of every pass. */
  ghost predicate AimsAt<T, K>(env: Environment<T>, snapshot: seq<T>, keyOf: T -> K, aim: nat -> seq<T>) {
    forall pass: nat {:trigger IsPass(pass)} :: IsPass(pass) ==> aim(pass) == TuplesToKill(env, snapshot, keyOf, pass)
  }

  /** The latest count that did not fail; failing that, the count before the first pass. */
  function LastCount<T>(env: Environment<T>, passes: nat): Counted {
    if passes == 0 || env.countStates(passes).error.None? then env.countStates(passes)
    else LastCount(env, passes - 1)
  }

  function SocketErrAfter<T>(env: Environment<T>, aim: nat -> seq<T>, passes: nat): Option<string> {
    if passes == 0 then None
    else if |aim(passes)| > 0 && env.killTuples.Some? then env.killTuples.value(passes)
    else if env.queryExactTuples.Some? && env.queryExactTuples.value(passes).Err?
      then Some(env.queryExactTuples.value(passes).error)
    else SocketErrAfter(env, aim, passes - 1)
  }

  function FlowErrAfter<T>(env: Environment<T>, passes: nat): Option<string> {
    if passes == 0 || env.dropConntrack.None? then None else env.dropConntrack.value(passes)
  }

  predicate CountedNone<T>(env: Environment<T>, pass: nat) {
    env.countStates(pass).error.None? && env.countStates(pass).active == 0
  }

  predicate TimeIsUp<T>(env: Environment<T>, o: Options, pass: nat) {
    env.now(pass) - env.now(0) >= o.maxDuration
  }

  ghost predicate FilledAfter<T>(env: Environment<T>, aim: nat -> seq<T>, passes: nat, r: Report) {
    && r.beforeActiveCount == env.countStates(0).active
    && r.beforeTimeWaitCount == env.countStates(0).timeWait
    && r.beforeCountErr == env.countStates(0).error
    && r.afterActiveCount == LastCount(env, passes).active
    && r.afterTimeWaitCount == LastCount(env, passes).timeWait
    && r.afterCountErr == env.countStates(passes).error
    && r.socketErr == SocketErrAfter(env, aim, passes)
    && r.flowErr == FlowErrAfter(env, passes)
  }

  /** The report at the end: the first pass that counts nothing, sees the time used up or is the last
      one allowed ends the run. */
  ghost predicate Outcome<T>(env: Environment<T>, o: Options, aim: nat -> seq<T>, r: Report) {
    var n := r.iterations;
    && 1 <= n <= o.maxIterations
    && (forall pass :: 1 <= pass < n ==> !CountedNone(env, pass) && !TimeIsUp(env, o, pass))
    && (r.converged <==> CountedNone(env, n))
    && (r.timedOut <==> !CountedNone(env, n) && TimeIsUp(env, o, n))
    && (r.converged || r.timedOut || n == o.maxIterations)
    && FilledAfter(env, aim, n, r)
  }

  /** The part of a pass that acts on the peer. */
  method KillPass<T, K(==)>(env: Environment<T>, cached: seq<T>, keyOf: T -> K, iter: nat, socketErr: Option<string>,
                            ghost snapshot: seq<T>, ghost aim: nat -> seq<T>)
    returns (newSocketErr: Option<string>, flowErr: Option<string>, effects: Pass<T>)
    requires iter > 0 && cached == Fresh({}, snapshot, keyOf)
    requires AimsAt(env, snapshot, keyOf, aim)
    requires socketErr == SocketErrAfter(env, aim, iter - 1)
    ensures effects == PassOf(env, aim(iter), None)
    ensures newSocketErr == SocketErrAfter(env, aim, iter)
    ensures flowErr == FlowErrAfter(env, iter)
  {
    assert IsPass(iter) && aim(iter) == TuplesToKill(env, snapshot, keyOf, iter);
    newSocketErr := socketErr;
    effects := Pass(env.broadKill, None, false, None);
    var exactTuples: seq<T> := [];
    if env.queryExactTuples.Some? {
      match env.queryExactTuples.value(iter) {
        case Err(e) => newSocketErr := Some(e);
        case Ok(tuples) => exactTuples := tuples;
      }
    }
    assert exactTuples == Queried(env, iter);
    var tuplesToKill := DedupeTuples(exactTuples + cached, keyOf);
    assert tuplesToKill == aim(iter);
    if |tuplesToKill| > 0 && env.killTuples.Some? {
      effects := effects.(killed := Some(tuplesToKill));
      newSocketErr := env.killTuples.value(iter);
    }
    flowErr := None;
    if env.dropConntrack.Some? {
      effects := effects.(dropConntrack := true);
      flowErr := env.dropConntrack.value(iter);
    }
  }

  /** runKillPeerFlows */
  method RunKillPeerFlows<T, K(==)>(snapshot: seq<T>, opts: Options, env: Environment<T>, keyOf: T -> K)
    returns (report: Report, log: seq<Pass<T>>)
    ensures Outcome(env, Normalized(opts), Aim(env, snapshot, keyOf), report)
    ensures RunEffects(env, Normalized(opts), Aim(env, snapshot, keyOf), report.iterations, log)
  {
    var cached := DedupeTuples(snapshot, keyOf);
    report, log := Sweep(Normalized(opts), env, cached, keyOf, snapshot, Aim(env, snapshot, keyOf));
  }

  /** The loop; the report's fields are the locals of the same names until it ends. */
  method Sweep<T, K(==)>(o: Options, env: Environment<T>, cached: seq<T>, keyOf: T -> K,
                         ghost snapshot: seq<T>, ghost aim: nat -> seq<T>)
    returns (report: Report, log: seq<Pass<T>>)
    requires o.maxIterations > 0 && cached == Fresh({}, snapshot, keyOf)
    requires AimsAt(env, snapshot, keyOf, aim)
    ensures Outcome(env, o, aim, report)
    ensures RunEffects(env, o, aim, report.iterations, log)
  {
    var before := env.countStates(0);
    var after, afterCountErr := before, before.error;
    var socketErr, flowErr: Option<string> := None, None;
    var converged, timedOut := false, false;
    var startedAt := env.now(0);
    log := [];
    var iterations, iter := 0, 1;
    while iter <= o.maxIterations
      invariant 1 <= iter <= o.maxIterations + 1 && iterations == iter - 1 && !converged && !timedOut
      invariant after == LastCount(env, iterations) && afterCountErr == env.countStates(iterations).error
      invariant socketErr == SocketErrAfter(env, aim, iterations) && flowErr == FlowErrAfter(env, iterations)
      invariant forall pass :: 1 <= pass <= iterations ==> !CountedNone(env, pass) && !TimeIsUp(env, o, pass)
      invariant |log| == iterations
      invariant forall i :: 0 <= i < iterations ==>
                  log[i] == PassOf(env, aim(i + 1), if i + 1 < o.maxIterations then Pause(env, o) else None)
    {
      iterations := iter;
      var effects;
      socketErr, flowErr, effects := KillPass(env, cached, keyOf, iter, socketErr, snapshot, aim);
      var counted := env.countStates(iter);
      afterCountErr := counted.error;
      if counted.error.None? {
        after := counted;
        if counted.active == 0 {
          converged, log := true, log + [effects];
          break;
        }
      }
      if env.now(iter) - startedAt >= o.maxDuration {
        timedOut, log := true, log + [effects];
        break;
      }
      if iter < o.maxIterations && o.sleepBetweenIters > 0 && env.sleep {
        effects := effects.(slept := Some(o.sleepBetweenIters));
      }
      log := log + [effects];
      iter := iter + 1;
    }
    report := Report(before.active, after.active, before.timeWait, after.timeWait, before.error, afterCountErr,
                     socketErr, flowErr, iterations, timedOut, converged);
  }

  // ---------- What a run guarantees ----------

  /** However the run ends, it ends in exactly one of three ways, provided no count is negative. */
  lemma ExactlyOneOutcome<T>(env: Environment<T>, o: Options, aim: nat -> seq<T>, r: Report)
    requires Outcome(env, o, aim, r)
    requires forall pass: nat :: env.countStates(pass).active >= 0
    ensures r.converged ==> !IsPartial(r) && r.afterCountErr.None?
    ensures IsPartial(r) ==> r.afterCountErr.None?
    ensures r.converged || IsPartial(r) || r.afterCountErr.Some?
    ensures r.converged ==> r.afterActiveCount == 0
  {
    assert env.countStates(r.iterations).active >= 0;
    assert r.afterCountErr.None? ==> LastCount(env, r.iterations) == env.countStates(r.iterations);
  }

  /** A negative active count is the only way to end with none of the three. */
  lemma NoOutcomeExactly<T>(env: Environment<T>, o: Options, aim: nat -> seq<T>, r: Report)
    requires Outcome(env, o, aim, r)
    ensures !r.converged && !IsPartial(r) && r.afterCountErr.None?
       <==> env.countStates(r.iterations).error.None? && env.countStates(r.iterations).active < 0
  {
    assert r.afterCountErr.None? ==> LastCount(env, r.iterations) == env.countStates(r.iterations);
  }

  /** If the counts succeed and every pass strictly lowers a positive count, the run converges within
      as many passes as there were active flows, when neither limit comes first. */
  lemma ConvergesWithinActiveCount<T>(env: Environment<T>, o: Options, aim: nat -> seq<T>, r: Report)
    requires Outcome(env, o, aim, r)
    requires forall pass: nat :: pass >= 1 ==> env.countStates(pass).error.None? && env.countStates(pass).active >= 0
    requires forall pass: nat :: pass >= 1 ==>
               env.countStates(pass).active == 0 || env.countStates(pass).active < env.countStates(pass - 1).active
    requires o.maxIterations >= r.beforeActiveCount
    requires forall pass: nat :: 1 <= pass < r.beforeActiveCount ==> !TimeIsUp(env, o, pass)
    ensures r.converged
    ensures r.iterations <= if r.beforeActiveCount < 1 then 1 else r.beforeActiveCount
  {
    if !CountedNone(env, r.iterations) {
      PositiveCountsFall(env, r.iterations);
      assert false;
    }
    PositiveCountsFall(env, r.iterations - 1);
    assert r.iterations > 1 ==> !CountedNone(env, r.iterations - 1);
  }

  lemma {:induction false} PositiveCountsFall<T>(env: Environment<T>, passes: nat)
    requires forall pass: nat :: 1 <= pass <= passes ==>
               env.countStates(pass).error.None? && env.countStates(pass).active >= 0
    requires forall pass: nat :: 1 <= pass <= passes ==> !CountedNone(env, pass)
    requires forall pass: nat :: 1 <= pass <= passes ==>
               env.countStates(pass).active == 0 || env.countStates(pass).active < env.countStates(pass - 1).active
    ensures env.countStates(passes).active <= env.countStates(0).active - passes
  {
    if passes > 0 {
      PositiveCountsFall(env, passes - 1);
      assert !CountedNone(env, passes);
    }
  }

  /** Each pass aims at the queried and the cached tuples together, every key once. */
  lemma PassKillsTheUnion<T, K>(env: Environment<T>, snapshot: seq<T>, keyOf: T -> K, pass: nat)
    ensures KeysOf(TuplesToKill(env, snapshot, keyOf, pass), keyOf)
         == KeysOf(Queried(env, pass), keyOf) + KeysOf(snapshot, keyOf)
    ensures DistinctKeys(TuplesToKill(env, snapshot, keyOf, pass), keyOf)
    ensures forall t :: t in TuplesToKill(env, snapshot, keyOf, pass) ==> t in Queried(env, pass) || t in snapshot
  {
    var cached := Fresh({}, snapshot, keyOf);
    FreshKeys({}, snapshot, keyOf);
    FreshKeys({}, Queried(env, pass) + cached, keyOf);
    KeysConcat(Queried(env, pass), cached, keyOf);
  }

  /** For addresses without a bar the keys are as good as the tuples: exactly the union is killed. */
  lemma PassKillsExactlyTheUnion(env: Environment<SocketTuple>, snapshot: seq<SocketTuple>, pass: nat, t: SocketTuple)
    requires forall s :: s in Queried(env, pass) || s in snapshot ==> CleanSocket(s)
    requires CleanSocket(t)
    ensures t in TuplesToKill(env, snapshot, SocketTupleKey, pass) <==> t in Queried(env, pass) || t in snapshot
  {
    PassKillsTheUnion(env, snapshot, SocketTupleKey, pass);
    forall s | s in Queried(env, pass) || s in snapshot ensures SocketTupleKey(s) == SocketTupleKey(t) ==> s == t {
      SocketKeyFaithful(s, t);
    }
    if t in Queried(env, pass) {
    } else if t in snapshot {
    }
    KeyHasMember(TuplesToKill(env, snapshot, SocketTupleKey, pass), SocketTupleKey, SocketTupleKey(t));
  }

  /** A tuple is found by the query of the pass, or was in the snapshot. */
  ghost predicate Known<T>(env: Environment<T>, snapshot: seq<T>, pass: nat, t: T) {
    || t in snapshot
    || (env.queryExactTuples.Some? && env.queryExactTuples.value(pass).Ok?
        && t in env.queryExactTuples.value(pass).value)
  }

  /** What every pass of a run does to the peer: it hands over tuples if and only if there are any; these are
      queried or from the snapshot, each key of those once and no other. */
  lemma EveryPassKills<T(!new), K>(env: Environment<T>, o: Options, snapshot: seq<T>, keyOf: T -> K, passes: nat,
                                   log: seq<Pass<T>>, pass: nat)
    requires RunEffects(env, o, Aim(env, snapshot, keyOf), passes, log) && 1 <= pass <= passes
    ensures |log| == passes
    ensures log[pass - 1].killed.Some? <==> env.killTuples.Some? && exists t :: Known(env, snapshot, pass, t)
    ensures log[pass - 1].killed.Some? ==>
              var killed := log[pass - 1].killed.value;
              && DistinctKeys(killed, keyOf)
              && (forall t :: t in killed ==> Known(env, snapshot, pass, t))
              && (forall t :: Known(env, snapshot, pass, t) ==> keyOf(t) in KeysOf(killed, keyOf))
  {
    var tuples := TuplesToKill(env, snapshot, keyOf, pass);
    assert Aim(env, snapshot, keyOf)(pass) == tuples;
    PassKillsTheUnion(env, snapshot, keyOf, pass);
    forall t | Known(env, snapshot, pass, t) ensures keyOf(t) in KeysOf(tuples, keyOf) {
      if t in snapshot {
        var j :| 0 <= j < |snapshot| && snapshot[j] == t;
        assert keyOf(snapshot[j]) in KeysOf(snapshot, keyOf);
      } else {
        var j :| 0 <= j < |Queried(env, pass)| && Queried(env, pass)[j] == t;
        assert keyOf(Queried(env, pass)[j]) in KeysOf(Queried(env, pass), keyOf);
      }
    }
    if tuples != [] {
      assert tuples[0] in tuples;
      assert Known(env, snapshot, pass, tuples[0]);
    }
  }

  /** Where keys are as good as tuples, exactly the known tuples are handed over. */
  lemma EveryPassKillsEach<T(!new), K>(env: Environment<T>, o: Options, snapshot: seq<T>, keyOf: T -> K, passes: nat,
                                       log: seq<Pass<T>>, pass: nat)
    requires RunEffects(env, o, Aim(env, snapshot, keyOf), passes, log) && 1 <= pass <= passes
    requires forall a, b :: Known(env, snapshot, pass, a) && Known(env, snapshot, pass, b) && keyOf(a) == keyOf(b) ==>
               a == b
    ensures |log| == passes
    ensures log[pass - 1].killed.Some? ==>
              forall t :: t in log[pass - 1].killed.value <==> Known(env, snapshot, pass, t)
  {
    EveryPassKills(env, o, snapshot, keyOf, passes, log, pass);
    if log[pass - 1].killed.Some? {
      var killed := log[pass - 1].killed.value;
      forall t | Known(env, snapshot, pass, t) ensures t in killed {
        var k :| 0 <= k < |killed| && keyOf(killed[k]) == keyOf(t);
        assert killed[k] in killed;
      }
    }
  }

  /** So it is for sockets without a bar in their addresses. */
  lemma EveryPassKillsExactly(env: Environment<SocketTuple>, o: Options, snapshot: seq<SocketTuple>, passes: nat,
                              log: seq<Pass<SocketTuple>>, pass: nat)
    requires RunEffects(env, o, Aim(env, snapshot, SocketTupleKey), passes, log) && 1 <= pass <= passes
    requires forall t :: Known(env, snapshot, pass, t) ==> CleanSocket(t)
    ensures |log| == passes
    ensures log[pass - 1].killed.Some? ==>
              forall t :: t in log[pass - 1].killed.value <==> Known(env, snapshot, pass, t)
  {
    forall a, b | Known(env, snapshot, pass, a) && Known(env, snapshot, pass, b)
      ensures SocketTupleKey(a) == SocketTupleKey(b) ==> a == b
    {
      SocketKeyFaithful(a, b);
    }
    EveryPassKillsEach(env, o, snapshot, SocketTupleKey, passes, log, pass);
  }

  /** And besides: every pass kills broadly and drops conntrack entries if it can, and all but the last pause. */
  lemma EveryPassBesides<T, K>(env: Environment<T>, o: Options, snapshot: seq<T>, keyOf: T -> K, passes: nat,
                               log: seq<Pass<T>>, i: nat)
    requires RunEffects(env, o, Aim(env, snapshot, keyOf), passes, log) && i < passes
    ensures |log| == passes
    ensures log[i].broadKill == env.broadKill && log[i].dropConntrack == env.dropConntrack.Some?
    ensures log[i].slept.Some? <==> i < passes - 1 && env.sleep && o.sleepBetweenIters > 0
    ensures log[i].slept.Some? ==> log[i].slept.value == o.sleepBetweenIters
  {
  }

  /** When a run ends: at the first pass behind which nothing is counted, or the time is used up, or which is the
      last allowed; and what it reports of the last pass. */
  lemma RunEnds<T>(env: Environment<T>, o: Options, aim: nat -> seq<T>, r: Report)
    requires Outcome(env, o, aim, r)
    ensures 1 <= r.iterations <= o.maxIterations
    ensures forall pass: nat :: 1 <= pass < r.iterations ==>
              && env.now(pass) - env.now(0) < o.maxDuration
              && !(env.countStates(pass).error.None? && env.countStates(pass).active == 0)
    ensures r.converged <==> env.countStates(r.iterations).error.None? && env.countStates(r.iterations).active == 0
    ensures r.timedOut <==> !r.converged && env.now(r.iterations) - env.now(0) >= o.maxDuration
    ensures r.converged || r.timedOut || r.iterations == o.maxIterations
    ensures r.beforeActiveCount == env.countStates(0).active && r.beforeTimeWaitCount == env.countStates(0).timeWait
    ensures r.beforeCountErr == env.countStates(0).error && r.afterCountErr == env.countStates(r.iterations).error
    ensures r.afterCountErr.None? ==>
              && r.afterActiveCount == env.countStates(r.iterations).active
              && r.afterTimeWaitCount == env.countStates(r.iterations).timeWait
    ensures r.flowErr == if env.dropConntrack.Some? then env.dropConntrack.value(r.iterations) else None
    ensures env.killTuples.Some? && aim(r.iterations) != [] ==> r.socketErr == env.killTuples.value(r.iterations)
  {
    forall pass: nat | 1 <= pass < r.iterations
      ensures env.now(pass) - env.now(0) < o.maxDuration
      ensures !(env.countStates(pass).error.None? && env.countStates(pass).active == 0)
    {
      assert !CountedNone(env, pass) && !TimeIsUp(env, o, pass);
    }
  }

  /** Pass k is the last whose count succeeded; 0 stands for the count before the first pass. */
  ghost predicate LastCounted<T>(env: Environment<T>, passes: nat, k: nat) {
    && k <= passes && (k == 0 || env.countStates(k).error.None?)
    && forall pass: nat :: k < pass <= passes ==> env.countStates(pass).error.Some?
  }

  /** The counts reported are those. */
  lemma {:induction false} LastCountMeans<T>(env: Environment<T>, passes: nat, k: nat)
    requires LastCounted(env, passes, k)
    ensures LastCount(env, passes) == env.countStates(k)
  {
    if k < passes {
      assert env.countStates(passes).error.Some?;
      LastCountMeans(env, passes - 1, k);
    }
  }

  /** The pass hands tuples over, or its query fails. */
  predicate TellsOfSockets<T>(env: Environment<T>, aim: nat -> seq<T>, pass: nat) {
    || (env.killTuples.Some? && aim(pass) != [])
    || (env.queryExactTuples.Some? && env.queryExactTuples.value(pass).Err?)
  }

  /** The socket error reported is what the last such pass came to: the result of handing tuples over, or, where
      there were none, the failure of the query. Without such a pass there is none. */
  lemma {:induction false} SocketErrMeans<T>(env: Environment<T>, aim: nat -> seq<T>, passes: nat, k: nat)
    requires k <= passes && forall pass: nat :: k < pass <= passes ==> !TellsOfSockets(env, aim, pass)
    requires k == 0 || TellsOfSockets(env, aim, k)
    ensures SocketErrAfter(env, aim, passes) ==
            if k == 0 then None
            else if env.killTuples.Some? && aim(k) != [] then env.killTuples.value(k)
            else Some(env.queryExactTuples.value(k).error)
  {
    if k < passes {
      assert !TellsOfSockets(env, aim, passes);
      SocketErrMeans(env, aim, passes - 1, k);
    }
  }

  lemma KeyHasMember<T, K>(tuples: seq<T>, keyOf: T -> K, key: K)
    ensures key in KeysOf(tuples, keyOf) ==> exists t :: t in tuples && keyOf(t) == key
  {
    if key in KeysOf(tuples, keyOf) {
      var i :| 0 <= i < |tuples| && keyOf(tuples[i]) == key;
      assert tuples[i] in tuples;
    }
  }

  lemma SocketKeyFaithful(s: SocketTuple, t: SocketTuple)
    requires CleanSocket(s) && CleanSocket(t)
    ensures SocketTupleKey(s) == SocketTupleKey(t) <==> s == t
  {
    PipeKeyInjective(s.localIP, s.localPort, s.remoteIP, s.remotePort, t.localIP, t.localPort, t.remoteIP,
                     t.remotePort);
  }

  // ---------- The numbers shown afterwards ----------

  datatype KillPart = Unknown | OfTotal(total: int) | Killed(killed: int, total: int, remaining: Option<int>)

  function BuildKillPart(r: Report): KillPart {
    if r.beforeCountErr.None? && r.afterCountErr.None? then
      var before := if r.beforeActiveCount < 0 then 0 else r.beforeActiveCount;
      var floored := if r.afterActiveCount < 0 then 0 else r.afterActiveCount;
      var after := if floored > before then before else floored;
      Killed(before - after, before, if IsPartial(r) then Some(after) else None)
    else if r.beforeCountErr.None? then
      OfTotal(if r.beforeActiveCount < 0 then 0 else r.beforeActiveCount)
    else
      Unknown
  }

  /** The shown numbers add up, and a remaining number is shown exactly for a partial kill; it is the
      true one exactly when the peer did not end with more flows than it started with. */
  lemma KillPartAddsUp(r: Report)
    requires r.beforeCountErr.None? && r.afterCountErr.None?
    requires r.beforeActiveCount >= 0
    ensures var shown := BuildKillPart(r);
            && 0 <= shown.killed <= shown.total == r.beforeActiveCount
            && (shown.remaining.Some? <==> IsPartial(r))
            && (IsPartial(r) ==> shown.killed + shown.remaining.value == shown.total)
            && (IsPartial(r) ==>
                  (shown.remaining.value == r.afterActiveCount <==> r.afterActiveCount <= r.beforeActiveCount))
  {
  }

  /** Without a count before there is nothing to show, and without one after only the total. */
  lemma KillPartKnows(r: Report)
    ensures BuildKillPart(r).Unknown? <==> r.beforeCountErr.Some?
    ensures BuildKillPart(r).Killed? <==> r.beforeCountErr.None? && r.afterCountErr.None?
    ensures r.beforeCountErr.None? && r.beforeActiveCount >= 0 ==> BuildKillPart(r).total == r.beforeActiveCount
    ensures r.beforeCountErr.None? && r.beforeActiveCount < 0 ==> BuildKillPart(r).total == 0
  {
  }
}
