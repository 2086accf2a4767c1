/** Blocking a peer for a while, over every interleaving: the goroutines of
    internal/tui/blocking/runtime.go:13-83, the removals of internal/tui/blocking/ui_blocked_peers.go and the
    cleanup of internal/tui/blocking/manager.go, one step each. */
module BlockLifetime {
  import opened BlockManager

  /** Where a goroutine stands: about to do what the name says. */
  datatype PC =
    | Blocking | Adding | Killing | Summarising | Sleeping(until: int) | Testing | Unblocking | Removing | Returned

  datatype Goroutine<K> = Goroutine(key: K, startedAt: int, duration: int, expiresAt: int, pc: PC)

  /** What the user interface is in the middle of; it does one thing at a time. */
  datatype UI<K> =
    | Idle
    | RemovingEntry(key: K)
    | CleaningUp(pending: seq<K>, unblocked: bool)

  datatype State<K> = State(
    clock: int,
    rules: set<K>,
    entries: map<K, Entry>,
    goroutines: seq<Goroutine<K>>,
    ui: UI<K>,
    failed: set<K>)

  datatype Step<K> =
    | Tick(to: int)
    | Spawn(key: K, duration: int)
    | Block(g: nat, ok: bool)
    | Add(g: nat)
    | Kill(g: nat)
    | Summarise(g: nat, text: string)
    | Wake(g: nat)
    | Test(g: nat)
    | Unblock(g: nat, ok: bool)
    | Remove(g: nat)
    | UIUnblock(key: K, ok: bool)
    | UIRemove
    | CleanupBegin(keys: seq<K>)
    | CleanupUnblock(ok: bool)
    | CleanupRemove

  predicate At<K>(s: State<K>, g: nat, pc: PC) {
    g < |s.goroutines| && s.goroutines[g].pc == pc
  }

  function SetPC<K>(s: State<K>, g: nat, pc: PC): State<K>
    requires g < |s.goroutines|
  {
    s.(goroutines := s.goroutines[g := s.goroutines[g].(pc := pc)])
  }

  predicate Enabled<K(==)>(s: State<K>, step: Step<K>) {
    match step
    case Tick(to) => s.clock <= to
    case Spawn(_, _) => s.ui.Idle?
    case Block(g, _) => At(s, g, Blocking)
    case Add(g) => At(s, g, Adding)
    case Kill(g) => At(s, g, Killing)
    case Summarise(g, _) => At(s, g, Summarising)
    case Wake(g) => g < |s.goroutines| && s.goroutines[g].pc.Sleeping? && s.goroutines[g].pc.until <= s.clock
    case Test(g) => At(s, g, Testing)
    case Unblock(g, _) => At(s, g, Unblocking)
    case Remove(g) => At(s, g, Removing)
    case UIUnblock(_, _) => s.ui.Idle?
    case UIRemove => s.ui.RemovingEntry?
    case CleanupBegin(keys) => s.ui.Idle? && (set k | k in keys) == s.entries.Keys
    case CleanupUnblock(_) => s.ui.CleaningUp? && s.ui.pending != [] && !s.ui.unblocked
    case CleanupRemove => s.ui.CleaningUp? && s.ui.pending != [] && s.ui.unblocked
  }

  function AfterCleanup<K>(pending: seq<K>): UI<K> {
    if pending == [] then Idle else CleaningUp(pending, false)
  }

  function Apply<K(==)>(s: State<K>, step: Step<K>): State<K>
    requires Enabled(s, step)
  {
    match step
    case Tick(to) => s.(clock := to)
    case Spawn(key, duration) =>
      s.(goroutines := s.goroutines + [Goroutine(key, s.clock, duration, s.clock + duration, Blocking)])
    case Block(g, ok) =>
      if ok then SetPC(s, g, Adding).(rules := s.rules + {s.goroutines[g].key}) else SetPC(s, g, Returned)
    case Add(g) =>
      var gr := s.goroutines[g];
      SetPC(s, g, Killing).(entries := Added(s.entries, gr.key, Entry(gr.startedAt, gr.expiresAt, "processing...")))
    case Kill(g) => SetPC(s, g, Summarising)
    case Summarise(g, text) =>
      SetPC(s, g, Sleeping(s.clock + s.goroutines[g].duration)).(
        entries := Resummarised(s.entries, s.goroutines[g].key, text))
    case Wake(g) => SetPC(s, g, Testing)
    case Test(g) => SetPC(s, g, if s.goroutines[g].key in s.entries then Unblocking else Returned)
    case Unblock(g, ok) =>
      if ok then SetPC(s, g, Removing).(rules := s.rules - {s.goroutines[g].key})
      else SetPC(s, g, Returned).(failed := s.failed + {s.goroutines[g].key})
    case Remove(g) => SetPC(s, g, Returned).(entries := Removed(s.entries, s.goroutines[g].key))
    case UIUnblock(key, ok) =>
      if ok then s.(rules := s.rules - {key}, ui := RemovingEntry(key)) else s
    case UIRemove => s.(entries := Removed(s.entries, s.ui.key), ui := Idle)
    case CleanupBegin(keys) => s.(ui := AfterCleanup(keys))
    case CleanupUnblock(ok) =>
      var key := s.ui.pending[0];
      s.(ui := CleaningUp(s.ui.pending, true),
         rules := if ok then s.rules - {key} else s.rules)
    case CleanupRemove =>
      s.(entries := Removed(s.entries, s.ui.pending[0]), ui := AfterCleanup(s.ui.pending[1..]))
  }

  predicate Initial<K>(s: State<K>) {
    s.rules == {} && s.entries == map[] && s.goroutines == [] && s.ui.Idle? && s.failed == {}
  }

  // ---------- What every run keeps ----------

  /** Past AddActiveBlock and not yet returned: it has still to look for its entry, or has found it and is
      about to remove it. */
  predicate Tending(pc: PC) {
    pc.Killing? || pc.Summarising? || pc.Sleeping? || pc.Testing? || pc.Unblocking? || pc.Removing?
  }

  ghost predicate TendedBy<K>(s: State<K>, key: K, g: int) {
    0 <= g < |s.goroutines| && s.goroutines[g].key == key && Tending(s.goroutines[g].pc)
  }

  /** Each entry has a goroutine that tends it, unless a goroutine gave up on its key because its UnblockPeer
      failed; a manual removal or a cleanup that fails excuses nothing. */
  ghost predicate EntriesTended<K(!new)>(s: State<K>) {
    forall key :: key in s.entries && key !in s.failed ==> exists g :: TendedBy(s, key, g)
  }

  /** No goroutine has got as far as testing, let alone unblocking, before the time it recorded. */
  ghost predicate OnTime<K>(s: State<K>) {
    forall g :: 0 <= g < |s.goroutines| ==>
      var gr := s.goroutines[g];
      && (gr.pc.Sleeping? ==> gr.pc.until >= gr.expiresAt)
      && (gr.pc.Testing? || gr.pc.Unblocking? || gr.pc.Removing? ==> s.clock >= gr.expiresAt)
      && gr.startedAt <= s.clock && gr.expiresAt == gr.startedAt + gr.duration
  }

  lemma StepKeepsOnTime<K>(s: State<K>, step: Step<K>)
    requires Enabled(s, step) && OnTime(s)
    ensures OnTime(Apply(s, step))
    ensures step.Unblock? ==> s.clock >= s.goroutines[step.g].expiresAt
  {
  }

  lemma StepKeepsTended<K(!new)>(s: State<K>, step: Step<K>)
    requires Enabled(s, step) && EntriesTended(s)
    ensures EntriesTended(Apply(s, step))
  {
    var t := Apply(s, step);
    forall key | key in t.entries && key !in t.failed ensures exists g :: TendedBy(t, key, g) {
      if step.Add? && key == s.goroutines[step.g].key {
        assert TendedBy(t, key, step.g);
      } else {
        assert key in s.entries && key !in s.failed;
        var g :| TendedBy(s, key, g);
        assert TendedBy(t, key, g);
      }
    }
  }

  // ---------- What a step may change ----------

  /** The step is a successful unblock of this key: by its own timer and in time, by hand, or by the cleanup. */
  predicate TakesRule<K(==)>(s: State<K>, step: Step<K>, key: K)
    requires Enabled(s, step)
  {
    match step
    case Unblock(g, ok) => ok && s.goroutines[g].key == key && s.goroutines[g].expiresAt <= s.clock
    case UIUnblock(k, ok) => ok && k == key
    case CleanupUnblock(ok) => ok && s.ui.pending[0] == key
    case _ => false
  }

  /** The step removes this key from the table of active blocks. */
  predicate TakesEntry<K(==)>(s: State<K>, step: Step<K>, key: K)
    requires Enabled(s, step)
  {
    match step
    case Remove(g) => s.goroutines[g].key == key
    case UIRemove => s.ui.key == key
    case CleanupRemove => s.ui.pending[0] == key
    case _ => false
  }

  predicate GivesRule<K(==)>(s: State<K>, step: Step<K>, key: K)
    requires Enabled(s, step)
  {
    step.Block? && step.ok && s.goroutines[step.g].key == key
  }

  predicate GivesEntry<K(==)>(s: State<K>, step: Step<K>, key: K)
    requires Enabled(s, step)
  {
    step.Add? && s.goroutines[step.g].key == key
  }

  /** A rule or an entry comes and goes only by the steps that are for it, and the recorded times change only
      when the key is blocked again. */
  lemma StepChangesItsKey<K>(s: State<K>, step: Step<K>, key: K)
    requires Enabled(s, step) && OnTime(s)
    ensures key in Apply(s, step).rules <==> GivesRule(s, step, key) || (key in s.rules && !TakesRule(s, step, key))
    ensures key in Apply(s, step).entries
       <==> GivesEntry(s, step, key) || (key in s.entries && !TakesEntry(s, step, key))
    ensures key in Apply(s, step).failed
       <==> key in s.failed || (step.Unblock? && !step.ok && s.goroutines[step.g].key == key)
    ensures key in Apply(s, step).entries && GivesEntry(s, step, key) ==>
              Apply(s, step).entries[key].startedAt == s.goroutines[step.g].startedAt
              && Apply(s, step).entries[key].expiresAt == s.goroutines[step.g].expiresAt
    ensures key in s.entries && key in Apply(s, step).entries && !GivesEntry(s, step, key) ==>
              Apply(s, step).entries[key].startedAt == s.entries[key].startedAt
              && Apply(s, step).entries[key].expiresAt == s.entries[key].expiresAt
  {
  }

  /** Some step of the run takes the key's rule away, each in the state it finds. */
  ghost predicate RuleTaken<K(!new)>(s: State<K>, steps: seq<Step<K>>, key: K)
    requires IsRun(s, steps)
    decreases |steps|
  {
    steps != [] && (TakesRule(s, steps[0], key) || RuleTaken(Apply(s, steps[0]), steps[1..], key))
  }

  /** Over every run a blocked key keeps its rule until its own timer has expired and unblocks it, or it is
      unblocked by hand or by the cleanup. */
  lemma {:induction false} BlockedUntilUnblocked<K(!new)>(s: State<K>, steps: seq<Step<K>>, key: K)
    requires IsRun(s, steps) && OnTime(s) && key in s.rules
    ensures key in After(s, steps).rules || RuleTaken(s, steps, key)
    decreases |steps|
  {
    if steps != [] {
      StepChangesItsKey(s, steps[0], key);
      StepKeepsOnTime(s, steps[0]);
      if key in Apply(s, steps[0]).rules { BlockedUntilUnblocked(Apply(s, steps[0]), steps[1..], key); }
    }
  }

  /** The goroutines keep to their program: only the one that steps moves on, and none forgets what it is for. */
  lemma GoroutinesStep<K>(s: State<K>, step: Step<K>, g: nat)
    requires Enabled(s, step) && g < |s.goroutines|
    ensures |Apply(s, step).goroutines| == |s.goroutines| + if step.Spawn? then 1 else 0
    ensures Apply(s, step).goroutines[g] == s.goroutines[g].(pc := Apply(s, step).goroutines[g].pc)
    ensures var was, now := s.goroutines[g].pc, Apply(s, step).goroutines[g].pc;
            was != now ==>
              match was
              case Blocking => step.Block? && now == if step.ok then Adding else Returned
              case Adding => now == Killing
              case Killing => now == Summarising
              case Summarising => now == Sleeping(s.clock + s.goroutines[g].duration)
              case Sleeping(until) => until <= s.clock && now == Testing
              case Testing => now == if s.goroutines[g].key in s.entries then Unblocking else Returned
              case Unblocking => step.Unblock? && now == if step.ok then Removing else Returned
              case Removing => now == Returned
              case Returned => false
    ensures step.Spawn? ==> Apply(s, step).goroutines[|s.goroutines|]
                            == Goroutine(step.key, s.clock, step.duration, s.clock + step.duration, Blocking)
    ensures s.clock <= Apply(s, step).clock && (!step.Tick? ==> Apply(s, step).clock == s.clock)
  {
  }

  /** The steps of a cleanup behind its start, with what each UnblockPeer comes to. */
  function CleanupSteps<K>(results: seq<bool>): seq<Step<K>> {
    if results == [] then [] else [CleanupUnblock(results[0]), CleanupRemove] + CleanupSteps(results[1..])
  }

  function Unblocked<K>(keys: seq<K>, results: seq<bool>): set<K>
    requires |keys| == |results|
  {
    set i | 0 <= i < |keys| && results[i] :: keys[i]
  }

  lemma UnblockedFirst<K>(keys: seq<K>, results: seq<bool>)
    requires |keys| == |results| > 0
    ensures Unblocked(keys, results) == Unblocked(keys[1..], results[1..]) + if results[0] then {keys[0]} else {}
  {
    assert forall i :: 1 <= i < |keys| ==> keys[i] == keys[1..][i - 1] && results[i] == results[1..][i - 1];
    assert forall i :: 0 <= i < |keys| - 1 ==> keys[1..][i] == keys[i + 1] && results[1..][i] == results[i + 1];
  }

  lemma {:induction false} CleanupGoesOn<K(!new)>(s: State<K>, keys: seq<K>, results: seq<bool>)
    requires s.ui == (if keys == [] then Idle else CleaningUp(keys, false)) && |keys| == |results|
    ensures IsRun(s, CleanupSteps(results))
    ensures After(s, CleanupSteps(results))
         == s.(ui := Idle, rules := s.rules - Unblocked(keys, results), entries := s.entries - set k | k in keys)
    decreases |keys|
  {
    if keys == [] {
      assert s.entries - (set k | k in keys) == s.entries && s.rules - Unblocked(keys, results) == s.rules;
    } else {
      var steps, rest := CleanupSteps<K>(results), CleanupSteps<K>(results[1..]);
      var t := Apply(Apply(s, steps[0]), steps[1]);
      assert steps[1..][0] == steps[1] && steps[1..][1..] == rest;
      CleanupGoesOn(t, keys[1..], results[1..]);
      UnblockedFirst(keys, results);
      assert (set k | k in keys) == {keys[0]} + set k | k in keys[1..];
    }
  }

  /** A cleanup that is not interrupted leaves no entry, and of the entries' rules those it failed to unblock. */
  lemma CleanupClears<K(!new)>(s: State<K>, keys: seq<K>, results: seq<bool>)
    requires Enabled(s, CleanupBegin(keys)) && |keys| == |results|
    ensures var steps := [CleanupBegin(keys)] + CleanupSteps(results);
            && IsRun(s, steps)
            && After(s, steps) == s.(entries := map[], rules := s.rules - Unblocked(keys, results))
  {
    var steps := [CleanupBegin(keys)] + CleanupSteps(results);
    assert steps[1..] == CleanupSteps<K>(results);
    CleanupGoesOn(Apply(s, steps[0]), keys, results);
    assert s.entries - (set k | k in keys) == map[];
  }

  /** Removing a key by hand takes away its rule and then its entry; where UnblockPeer fails, nothing. */
  lemma RemovedByHand<K(!new)>(s: State<K>, key: K)
    requires s.ui.Idle?
    ensures IsRun(s, [UIUnblock(key, true), UIRemove]) && IsRun(s, [UIUnblock(key, false)])
    ensures After(s, [UIUnblock(key, true), UIRemove]) == s.(rules := s.rules - {key}, entries := s.entries - {key})
    ensures After(s, [UIUnblock(key, false)]) == s
  {
    var steps: seq<Step<K>>, failing: seq<Step<K>> := [UIUnblock(key, true), UIRemove], [UIUnblock(key, false)];
    var last := steps[1..];
    assert last == [UIRemove] && last[1..] == [] && failing[1..] == [];
    var t := Apply(s, steps[0]);
    assert IsRun(t, last) && After(t, last) == Apply(t, UIRemove);
    assert IsRun(s, failing) && After(s, failing) == s;
  }

  // ---------- Leak freedom ----------

  ghost predicate AddingFor<K>(s: State<K>, key: K, g: int) {
    0 <= g < |s.goroutines| && s.goroutines[g].key == key && s.goroutines[g].pc == Adding
  }

  /** A rule without an entry exists only between BlockPeer and AddActiveBlock. */
  ghost predicate RulesTracked<K(!new)>(s: State<K>) {
    forall key :: key in s.rules ==> key in s.entries || exists g :: AddingFor(s, key, g)
  }

  /** Each entry has a goroutine that tends it, whatever failed. */
  ghost predicate AllTended<K(!new)>(s: State<K>) {
    forall key :: key in s.entries ==> exists g :: TendedBy(s, key, g)
  }

  /** Every rule and every entry is accounted for, so that none remains when all goroutines have returned. */
  ghost predicate Accounted<K(!new)>(s: State<K>) {
    RulesTracked(s) && AllTended(s)
  }

  /** About to add a rule or an entry. */
  predicate Starting(pc: PC) {
    pc.Blocking? || pc.Adding?
  }

  /** About to add or to take away a rule or an entry. */
  predicate Changing(pc: PC) {
    Starting(pc) || pc.Unblocking? || pc.Removing?
  }

  /** The key can be blocked: it has no entry, and no goroutine is changing its rule or its entry. */
  predicate Free<K(==)>(s: State<K>, key: K) {
    && key !in s.entries
    && forall g :: 0 <= g < |s.goroutines| && s.goroutines[g].key == key ==> !Changing(s.goroutines[g].pc)
  }

  predicate NoneBlocking<K(==)>(s: State<K>, key: K) {
    forall g :: 0 <= g < |s.goroutines| && s.goroutines[g].key == key ==> !s.goroutines[g].pc.Blocking?
  }

  ghost predicate TendedByAnother<K>(s: State<K>, g: nat)
    requires g < |s.goroutines|
  {
    exists h :: h != g && TendedBy(s, s.goroutines[g].key, h)
  }

  /** What a step has to respect for everything to stay accounted for, as DisciplineIsExact proves: a key is
      blocked when it is free; it is removed by hand when no goroutine is about to block it; a timer fails to
      unblock only what has no entry or another timer; the cleanup fails to unblock only what has no rule. */
  ghost predicate Disciplined<K>(s: State<K>, step: Step<K>)
    requires Enabled(s, step)
  {
    match step
    case Spawn(key, _) => Free(s, key)
    case Unblock(g, ok) => ok || s.goroutines[g].key !in s.entries || TendedByAnother(s, g)
    case UIUnblock(key, ok) => ok ==> NoneBlocking(s, key)
    case CleanupUnblock(ok) => ok || s.ui.pending[0] !in s.rules
    case _ => true
  }

  /** A goroutine that starts on a key does so while no other changes it. */
  ghost predicate StartsAlone<K>(s: State<K>) {
    forall i, j :: 0 <= i < |s.goroutines| && 0 <= j < |s.goroutines| && i != j
                   && s.goroutines[i].key == s.goroutines[j].key && Starting(s.goroutines[i].pc) ==>
      !Changing(s.goroutines[j].pc)
  }

  ghost predicate RemovedFirst<K>(s: State<K>) {
    forall g :: 0 <= g < |s.goroutines| && s.goroutines[g].pc.Removing? ==> s.goroutines[g].key !in s.rules
  }

  ghost predicate NewHasNoEntry<K>(s: State<K>) {
    forall g :: 0 <= g < |s.goroutines| && Starting(s.goroutines[g].pc) ==> s.goroutines[g].key !in s.entries
  }

  ghost predicate NoneStarting<K>(s: State<K>, key: K) {
    forall g :: 0 <= g < |s.goroutines| && s.goroutines[g].key == key ==> !Starting(s.goroutines[g].pc)
  }

  ghost predicate UISettled<K(!new)>(s: State<K>) {
    match s.ui
    case Idle => true
    case RemovingEntry(key) => key !in s.rules && NoneBlocking(s, key)
    case CleaningUp(pending, unblocked) =>
      && (forall k :: k in pending ==> NoneStarting(s, k))
      && pending != [] && (unblocked ==> pending[0] !in s.rules)
  }

  ghost predicate NoLeak<K(!new)>(s: State<K>) {
    && Accounted(s) && StartsAlone(s) && RemovedFirst(s) && NewHasNoEntry(s) && UISettled(s)
  }

  lemma EntryHasNoneStarting<K(!new)>(s: State<K>, key: K)
    requires NewHasNoEntry(s) && key in s.entries
    ensures NoneStarting(s, key)
  {
  }

  lemma StepKeepsAllTended<K(!new)>(s: State<K>, step: Step<K>)
    requires Enabled(s, step) && Disciplined(s, step) && NoLeak(s)
    ensures AllTended(Apply(s, step))
  {
    var t := Apply(s, step);
    forall key | key in t.entries ensures exists g :: TendedBy(t, key, g) {
      if step.Add? && key == s.goroutines[step.g].key {
        assert TendedBy(t, key, step.g);
      } else {
        var g :| TendedBy(s, key, g);
        if step.Unblock? && !step.ok && step.g == g {
          var h :| h != g && TendedBy(s, key, h);
          assert TendedBy(t, key, h);
        } else {
          assert TendedBy(t, key, g);
        }
      }
    }
  }

  lemma StepKeepsStartsAlone<K(!new)>(s: State<K>, step: Step<K>)
    requires Enabled(s, step) && Disciplined(s, step) && NoLeak(s)
    ensures StartsAlone(Apply(s, step))
  {
  }

  lemma StepKeepsRemovedFirst<K(!new)>(s: State<K>, step: Step<K>)
    requires Enabled(s, step) && Disciplined(s, step) && NoLeak(s)
    ensures RemovedFirst(Apply(s, step))
  {
  }

  lemma StepKeepsNewHasNoEntry<K(!new)>(s: State<K>, step: Step<K>)
    requires Enabled(s, step) && Disciplined(s, step) && NoLeak(s)
    ensures NewHasNoEntry(Apply(s, step))
  {
  }

  lemma StepKeepsRulesTracked<K(!new)>(s: State<K>, step: Step<K>)
    requires Enabled(s, step) && Disciplined(s, step) && NoLeak(s)
    ensures RulesTracked(Apply(s, step))
  {
    var t := Apply(s, step);
    forall key | key in t.rules ensures key in t.entries || exists g :: AddingFor(t, key, g) {
      if step.Block? && key == s.goroutines[step.g].key {
        assert AddingFor(t, key, step.g);
      } else if key !in s.entries {
        var g :| AddingFor(s, key, g);
        assert (step.Add? && step.g == g) || AddingFor(t, key, g);
      }
    }
  }

  lemma StepKeepsUISettled<K(!new)>(s: State<K>, step: Step<K>)
    requires Enabled(s, step) && Disciplined(s, step) && NoLeak(s)
    ensures UISettled(Apply(s, step))
  {
    var t := Apply(s, step);
    if step.CleanupBegin? {
      forall k | k in step.keys ensures NoneStarting(t, k) {
        assert k in (set k | k in step.keys);
        EntryHasNoneStarting(s, k);
      }
      assert t.ui == AfterCleanup(step.keys);
    } else if s.ui.CleaningUp? {
      assert s.ui.pending[0] in s.ui.pending && NoneStarting(s, s.ui.pending[0]);
      assert forall k :: k in s.ui.pending[1..] ==> k in s.ui.pending;
    }
  }

  lemma StepKeepsNoLeak<K(!new)>(s: State<K>, step: Step<K>)
    requires Enabled(s, step) && Disciplined(s, step) && NoLeak(s)
    ensures NoLeak(Apply(s, step))
  {
    StepKeepsAllTended(s, step);
    StepKeepsStartsAlone(s, step);
    StepKeepsRemovedFirst(s, step);
    StepKeepsNewHasNoEntry(s, step);
    StepKeepsRulesTracked(s, step);
    StepKeepsUISettled(s, step);
  }

  // ---------- Whole runs ----------

  /** A run from s by these steps, each possible where it comes. */
  ghost predicate IsRun<K(!new)>(s: State<K>, steps: seq<Step<K>>)
    decreases |steps|
  {
    steps == [] || (Enabled(s, steps[0]) && IsRun(Apply(s, steps[0]), steps[1..]))
  }

  ghost function After<K(!new)>(s: State<K>, steps: seq<Step<K>>): State<K>
    requires IsRun(s, steps)
    decreases |steps|
  {
    if steps == [] then s else After(Apply(s, steps[0]), steps[1..])
  }

  ghost predicate IsDisciplined<K(!new)>(s: State<K>, steps: seq<Step<K>>)
    requires IsRun(s, steps)
    decreases |steps|
  {
    steps == [] || (Disciplined(s, steps[0]) && IsDisciplined(Apply(s, steps[0]), steps[1..]))
  }

  /** Over every interleaving: entries are tended and nothing is unblocked early. */
  lemma {:induction false} EveryRunTendsAndWaits<K(!new)>(s: State<K>, steps: seq<Step<K>>)
    requires IsRun(s, steps) && EntriesTended(s) && OnTime(s)
    ensures EntriesTended(After(s, steps)) && OnTime(After(s, steps))
    decreases |steps|
  {
    if steps != [] {
      StepKeepsTended(s, steps[0]);
      StepKeepsOnTime(s, steps[0]);
      EveryRunTendsAndWaits(Apply(s, steps[0]), steps[1..]);
    }
  }

  lemma {:induction false} DisciplinedRunsDoNotLeak<K(!new)>(s: State<K>, steps: seq<Step<K>>)
    requires IsRun(s, steps) && IsDisciplined(s, steps) && NoLeak(s)
    ensures NoLeak(After(s, steps))
    decreases |steps|
  {
    if steps != [] {
      StepKeepsNoLeak(s, steps[0]);
      DisciplinedRunsDoNotLeak(Apply(s, steps[0]), steps[1..]);
    }
  }

  /** After any disciplined run from nothing everything is accounted for; so once all goroutines have returned
      no rule and no entry remain. */
  lemma NothingRemains<K(!new)>(s: State<K>, steps: seq<Step<K>>)
    requires Initial(s) && IsRun(s, steps) && IsDisciplined(s, steps)
    ensures Accounted(After(s, steps))
    ensures (forall g :: 0 <= g < |After(s, steps).goroutines| ==> After(s, steps).goroutines[g].pc.Returned?) ==>
              After(s, steps).rules == {} && After(s, steps).entries == map[]
  {
    DisciplinedRunsDoNotLeak(s, steps);
    var t := After(s, steps);
    if forall g :: 0 <= g < |t.goroutines| ==> t.goroutines[g].pc.Returned? {
      assert forall key, g :: !TendedBy(t, key, g) && !AddingFor(t, key, g);
      assert t.entries.Keys == {};
    }
  }

  // ---------- The discipline is exact ----------

  /** What happens of itself: time passes, goroutines go on, the user interface finishes what it began, and the
      firewall does what it is told. */
  predicate Unforced<K>(step: Step<K>) {
    match step
    case Spawn(_, _) => false
    case Block(_, ok) => ok
    case Unblock(_, ok) => ok
    case UIUnblock(_, _) => false
    case CleanupBegin(_) => false
    case CleanupUnblock(ok) => ok
    case _ => true
  }

  predicate AllUnforced<K>(steps: seq<Step<K>>) {
    forall i :: 0 <= i < |steps| ==> Unforced(steps[i])
  }

  /** However things go on by themselves, everything stays accounted for. */
  ghost predicate StaysAccounted<K(!new)>(s: State<K>) {
    forall steps :: IsRun(s, steps) && AllUnforced(steps) ==> Accounted(After(s, steps))
  }

  lemma {:induction false} UnforcedKeepsNoLeak<K(!new)>(s: State<K>, steps: seq<Step<K>>)
    requires NoLeak(s) && IsRun(s, steps) && AllUnforced(steps)
    ensures NoLeak(After(s, steps))
    decreases |steps|
  {
    if steps != [] {
      assert Unforced(steps[0]);
      StepKeepsNoLeak(s, steps[0]);
      UnforcedKeepsNoLeak(Apply(s, steps[0]), steps[1..]);
    }
  }

  lemma Prepend<K(!new)>(s: State<K>, step: Step<K>, steps: seq<Step<K>>)
    requires Enabled(s, step) && IsRun(Apply(s, step), steps)
    ensures IsRun(s, [step] + steps) && After(s, [step] + steps) == After(Apply(s, step), steps)
    ensures Unforced(step) && AllUnforced(steps) ==> AllUnforced([step] + steps)
  {
    assert ([step] + steps)[1..] == steps;
  }

  /** The rule is there without an entry, and no goroutine is about to add one. */
  ghost predicate Leaks<K>(s: State<K>, key: K) {
    key in s.rules && key !in s.entries && forall g :: !AddingFor(s, key, g)
  }

  /** Goroutine g is on its way to take the key's entry away, and n is about to block the key. */
  ghost predicate Chased<K>(s: State<K>, key: K, g: nat, n: nat) {
    && g < |s.goroutines| && n < |s.goroutines| && g != n
    && s.goroutines[g].key == s.goroutines[n].key == key && s.goroutines[n].pc.Blocking?
    && !s.goroutines[g].pc.Returned?
    && (Tending(s.goroutines[g].pc) && !Changing(s.goroutines[g].pc) ==> key in s.entries)
    && forall h :: AddingFor(s, key, h) ==> h == g
  }

  /** The next thing g does by itself. */
  function NextOf<K>(s: State<K>, g: nat): Step<K>
    requires g < |s.goroutines| && !s.goroutines[g].pc.Returned?
  {
    match s.goroutines[g].pc
    case Blocking => Block(g, true)
    case Adding => Add(g)
    case Killing => Kill(g)
    case Summarising => Summarise(g, "")
    case Sleeping(until) => if until <= s.clock then Wake(g) else Tick(until)
    case Testing => Test(g)
    case Unblocking => Unblock(g, true)
    case Removing => Remove(g)
  }

  function StepsToRemoving<K>(s: State<K>, g: nat): nat
    requires g < |s.goroutines|
  {
    match s.goroutines[g].pc
    case Blocking => 8
    case Adding => 7
    case Killing => 6
    case Summarising => 5
    case Sleeping(until) => if until <= s.clock then 3 else 4
    case Testing => 2
    case Unblocking => 1
    case _ => 0
  }

  lemma NextIsPossible<K(!new)>(s: State<K>, g: nat)
    requires g < |s.goroutines| && !s.goroutines[g].pc.Returned? && !s.goroutines[g].pc.Removing?
    requires s.goroutines[g].pc.Testing? ==> s.goroutines[g].key in s.entries
    ensures Enabled(s, NextOf(s, g)) && Unforced(NextOf(s, g))
    ensures g < |Apply(s, NextOf(s, g)).goroutines|
    ensures StepsToRemoving(Apply(s, NextOf(s, g)), g) < StepsToRemoving(s, g)
  {
  }

  lemma ChaseGoesOn<K(!new)>(s: State<K>, key: K, g: nat, n: nat)
    requires Chased(s, key, g, n) && !s.goroutines[g].pc.Removing? && Enabled(s, NextOf(s, g))
    ensures Chased(Apply(s, NextOf(s, g)), key, g, n)
  {
    var t := Apply(s, NextOf(s, g));
    assert forall h :: h != g && AddingFor(t, key, h) ==> AddingFor(s, key, h);
  }

  /** n blocks and adds, and g takes the new entry away. */
  lemma ChaseEnds<K(!new)>(s: State<K>, key: K, g: nat, n: nat)
    requires Chased(s, key, g, n) && s.goroutines[g].pc.Removing?
    ensures var steps: seq<Step<K>> := [Block(n, true), Add(n), Remove(g)];
            IsRun(s, steps) && AllUnforced(steps) && Leaks(After(s, steps), key)
  {
    var blocked := Apply(s, Block(n, true));
    var added := Apply(blocked, Add(n));
    var last: seq<Step<K>> := [Remove(g)];
    assert forall h :: h != n && AddingFor(Apply(added, Remove(g)), key, h) ==> AddingFor(s, key, h);
    Prepend(added, Remove(g), []);
    Prepend(blocked, Add(n), last);
    Prepend(s, Block(n, true), [Add(n)] + last);
  }

  lemma {:induction false} ChaseLeaks<K(!new)>(s: State<K>, key: K, g: nat, n: nat) returns (steps: seq<Step<K>>)
    requires Chased(s, key, g, n)
    ensures IsRun(s, steps) && AllUnforced(steps) && Leaks(After(s, steps), key)
    decreases StepsToRemoving(s, g)
  {
    if s.goroutines[g].pc.Removing? {
      ChaseEnds(s, key, g, n);
      steps := [Block(n, true), Add(n), Remove(g)];
    } else {
      NextIsPossible(s, g);
      ChaseGoesOn(s, key, g, n);
      var others := ChaseLeaks(Apply(s, NextOf(s, g)), key, g, n);
      Prepend(s, NextOf(s, g), others);
      steps := [NextOf(s, g)] + others;
    }
  }

  /** Blocking a key that is not free can leave its rule behind. */
  lemma UnfreeSpawnLeaks<K(!new)>(s: State<K>, key: K, duration: int) returns (steps: seq<Step<K>>)
    requires NoLeak(s) && s.ui.Idle? && !Free(s, key)
    ensures var t := Apply(s, Spawn(key, duration));
            IsRun(t, steps) && AllUnforced(steps) && Leaks(After(t, steps), key)
  {
    var t, n := Apply(s, Spawn(key, duration)), |s.goroutines|;
    var g: nat;
    if key in s.entries {
      g :| TendedBy(s, key, g);
      EntryHasNoneStarting(s, key);
    } else {
      g :| 0 <= g < |s.goroutines| && s.goroutines[g].key == key && Changing(s.goroutines[g].pc);
    }
    assert forall h :: AddingFor(t, key, h) ==> AddingFor(s, key, h);
    steps := ChaseLeaks(t, key, g, n);
  }

  /** Removing a key by hand while a goroutine is about to block it can leave its rule behind. */
  lemma EarlyRemovalLeaks<K(!new)>(s: State<K>, key: K) returns (steps: seq<Step<K>>)
    requires NoLeak(s) && s.ui.Idle? && !NoneBlocking(s, key)
    ensures var t := Apply(s, UIUnblock(key, true));
            IsRun(t, steps) && AllUnforced(steps) && Leaks(After(t, steps), key)
  {
    var t := Apply(s, UIUnblock(key, true));
    var g: nat :| g < |s.goroutines| && s.goroutines[g].key == key && s.goroutines[g].pc.Blocking?;
    var blocked := Apply(t, Block(g, true));
    var added := Apply(blocked, Add(g));
    Prepend(added, UIRemove, []);
    Prepend(blocked, Add(g), [UIRemove] + []);
    Prepend(t, Block(g, true), [Add(g)] + ([UIRemove] + []));
    steps := [Block(g, true)] + ([Add(g)] + ([UIRemove] + []));
  }

  /** A cleanup that cannot unblock a key that has a rule leaves it behind. */
  lemma FailedCleanupLeaks<K(!new)>(s: State<K>) returns (steps: seq<Step<K>>)
    requires NoLeak(s) && Enabled(s, CleanupUnblock(false)) && s.ui.pending[0] in s.rules
    ensures var t := Apply(s, CleanupUnblock(false));
            IsRun(t, steps) && AllUnforced(steps) && Leaks(After(t, steps), s.ui.pending[0])
  {
    var t := Apply(s, CleanupUnblock(false));
    assert s.ui.pending[0] in s.ui.pending && NoneStarting(s, s.ui.pending[0]);
    Prepend(t, CleanupRemove, []);
    steps := [CleanupRemove] + [];
  }

  /** A timer that fails to unblock an entry that it alone tends leaves it untended. */
  lemma FailedTimerLeaks<K(!new)>(s: State<K>, g: nat)
    requires Enabled(s, Unblock(g, false)) && !Disciplined(s, Unblock(g, false))
    ensures !Accounted(Apply(s, Unblock(g, false)))
  {
    var t, key := Apply(s, Unblock(g, false)), s.goroutines[g].key;
    forall h ensures !TendedBy(t, key, h) {
      assert TendedBy(t, key, h) ==> h != g && TendedBy(s, key, h);
    }
  }

  lemma UndisciplinedLeaks<K(!new)>(s: State<K>, step: Step<K>) returns (steps: seq<Step<K>>)
    requires NoLeak(s) && Enabled(s, step) && !Disciplined(s, step)
    ensures IsRun(Apply(s, step), steps) && AllUnforced(steps) && !Accounted(After(Apply(s, step), steps))
  {
    match step
    case Spawn(key, duration) =>
      steps := UnfreeSpawnLeaks(s, key, duration);
    case UIUnblock(key, ok) =>
      steps := EarlyRemovalLeaks(s, key);
    case CleanupUnblock(ok) =>
      steps := FailedCleanupLeaks(s);
    case Unblock(g, ok) =>
      FailedTimerLeaks(s, g);
      steps := [];
  }

  /** From any state that disciplined runs reach, a step is disciplined if and only if everything stays
      accounted for however things go on by themselves. */
  lemma DisciplineIsExact<K(!new)>(s: State<K>, step: Step<K>)
    requires NoLeak(s) && Enabled(s, step)
    ensures Disciplined(s, step) <==> StaysAccounted(Apply(s, step))
  {
    var t := Apply(s, step);
    if Disciplined(s, step) {
      StepKeepsNoLeak(s, step);
      forall steps | IsRun(t, steps) && AllUnforced(steps) ensures Accounted(After(t, steps)) {
        UnforcedKeepsNoLeak(t, steps);
      }
    } else {
      var steps := UndisciplinedLeaks(s, step);
      assert !Accounted(After(t, steps));
    }
  }

  /** Behind each step of the run everything stays accounted for, however things go on from there. */
  ghost predicate StaysAccountedThroughout<K(!new)>(s: State<K>, steps: seq<Step<K>>)
    requires IsRun(s, steps)
    decreases |steps|
  {
    steps == [] || (StaysAccounted(Apply(s, steps[0])) && StaysAccountedThroughout(Apply(s, steps[0]), steps[1..]))
  }

  /** So the disciplined runs are exactly the runs that never put anything at risk. */
  lemma {:induction false} DisciplinedRunsExactly<K(!new)>(s: State<K>, steps: seq<Step<K>>)
    requires NoLeak(s) && IsRun(s, steps)
    ensures IsDisciplined(s, steps) <==> StaysAccountedThroughout(s, steps)
    decreases |steps|
  {
    if steps != [] {
      DisciplineIsExact(s, steps[0]);
      if Disciplined(s, steps[0]) {
        StepKeepsNoLeak(s, steps[0]);
        DisciplinedRunsExactly(Apply(s, steps[0]), steps[1..]);
      }
    }
  }

  // ---------- Runs from nothing ----------

  lemma {:induction false} Extend<K(!new)>(s: State<K>, steps: seq<Step<K>>, step: Step<K>)
    requires IsRun(s, steps) && Enabled(After(s, steps), step)
    ensures IsRun(s, steps + [step]) && After(s, steps + [step]) == Apply(After(s, steps), step)
    decreases |steps|
  {
    var all := steps + [step];
    if steps == [] {
      assert all[0] == step && all[1..] == [];
    } else {
      Extend(Apply(s, steps[0]), steps[1..], step);
      assert all[0] == steps[0] && all[1..] == steps[1..] + [step];
    }
  }

  lemma {:induction false} RunsChain<K(!new)>(s: State<K>, first: seq<Step<K>>, second: seq<Step<K>>)
    requires IsRun(s, first) && IsRun(After(s, first), second)
    ensures IsRun(s, first + second) && After(s, first + second) == After(After(s, first), second)
    decreases |first|
  {
    var all := first + second;
    if first == [] {
      assert all == second;
    } else {
      RunsChain(Apply(s, first[0]), first[1..], second);
      assert all[0] == first[0] && all[1..] == first[1..] + second;
    }
  }

  function Fresh<K>(rules: set<K>): State<K> {
    State(0, rules, map[], [], Idle, {})
  }

  /** The shortest block the form offers, in seconds; fewer minutes mean to kill without blocking. */
  const MINUTE := 60

  /** From adding its entry to testing it, a goroutine with a minute to wait can run straight through. */
  lemma TendThrough(s: State<int>, g: nat) returns (steps: seq<Step<int>>)
    requires At(s, g, Killing) && s.goroutines[g].duration == MINUTE
    ensures IsRun(s, steps)
    ensures After(s, steps) == SetPC(s, g, if s.goroutines[g].key in s.entries then Unblocking else Returned).(
              clock := s.clock + MINUTE, entries := Resummarised(s.entries, s.goroutines[g].key, ""))
  {
    steps := [];
    Extend(s, steps, Kill(g));
    steps := steps + [Kill(g)];
    Extend(s, steps, Summarise(g, ""));
    steps := steps + [Summarise(g, "")];
    Extend(s, steps, Tick(s.clock + MINUTE));
    steps := steps + [Tick(s.clock + MINUTE)];
    Extend(s, steps, Wake(g));
    steps := steps + [Wake(g)];
    Extend(s, steps, Test(g));
    steps := steps + [Test(g)];
  }

  /** Blocking and adding the entry. */
  lemma BlockAndAdd(s: State<int>, g: nat) returns (steps: seq<Step<int>>)
    requires At(s, g, Blocking)
    ensures IsRun(s, steps)
    ensures var gr := s.goroutines[g];
            After(s, steps) == SetPC(s, g, Killing).(
              rules := s.rules + {gr.key},
              entries := Added(s.entries, gr.key, Entry(gr.startedAt, gr.expiresAt, "processing...")))
  {
    steps := [];
    Extend(s, steps, Block(g, true));
    steps := steps + [Block(g, true)];
    Extend(s, steps, Add(g));
    steps := steps + [Add(g)];
  }

  /** One goroutine has just unblocked the key, and another is about to block it for a minute. */
  function Overlapping(): State<int> {
    State(MINUTE, {}, map[7 := Entry(0, MINUTE, "")],
          [Goroutine(7, 0, MINUTE, MINUTE, Removing), Goroutine(7, 0, MINUTE, MINUTE, Blocking)], Idle, {})
  }

  lemma Overlap() returns (steps: seq<Step<int>>)
    ensures IsRun(Fresh<int>({}), steps) && After(Fresh<int>({}), steps) == Overlapping()
  {
    var s := Fresh<int>({});
    steps := [];
    Extend(s, steps, Spawn(7, MINUTE));
    steps := steps + [Spawn(7, MINUTE)];
    Extend(s, steps, Spawn(7, MINUTE));
    steps := steps + [Spawn(7, MINUTE)];
    var blocking := BlockAndAdd(After(s, steps), 0);
    RunsChain(s, steps, blocking);
    steps := steps + blocking;
    var tending := TendThrough(After(s, steps), 0);
    RunsChain(s, steps, tending);
    steps := steps + tending;
    Extend(s, steps, Unblock(0, true));
    steps := steps + [Unblock(0, true)];
  }

  /** Everything is over and the rule is still there. */
  ghost predicate RuleLeftBehind(s: State<int>) {
    && s.rules == {7} && s.entries == map[] && s.ui.Idle? && s.failed == {}
    && forall g :: 0 <= g < |s.goroutines| ==> s.goroutines[g].pc.Returned?
  }

  lemma OverlapEnds() returns (steps: seq<Step<int>>)
    ensures IsRun(Overlapping(), steps) && RuleLeftBehind(After(Overlapping(), steps))
  {
    var s := Overlapping();
    steps := BlockAndAdd(s, 1);
    Extend(s, steps, Remove(0));
    steps := steps + [Remove(0)];
    assert After(s, steps).entries == map[];
    var tending := TendThrough(After(s, steps), 1);
    RunsChain(s, steps, tending);
    steps := steps + tending;
  }

  /** Blocking a key that is not free: a second goroutine blocks between the first one's UnblockPeer and
      RemoveActiveBlock. Both return, and the rule stays for good. */
  lemma OverlapLeavesRule() returns (steps: seq<Step<int>>)
    ensures IsRun(Fresh<int>({}), steps) && RuleLeftBehind(After(Fresh<int>({}), steps))
  {
    steps := Overlap();
    var others := OverlapEnds();
    RunsChain(Fresh<int>({}), steps, others);
    steps := steps + others;
  }

  /** Removing too early: a rule left over from before is picked while a goroutine is about to block the same
      key. The removal takes the new entry, and the rule stays for good. */
  lemma UntrackedRemovalLeavesRule() returns (steps: seq<Step<int>>)
    ensures IsRun(Fresh<int>({7}), steps) && RuleLeftBehind(After(Fresh<int>({7}), steps))
  {
    var s := Fresh<int>({7});
    steps := [];
    Extend(s, steps, Spawn(7, MINUTE));
    steps := steps + [Spawn(7, MINUTE)];
    Extend(s, steps, UIUnblock(7, true));
    steps := steps + [UIUnblock(7, true)];
    var blocking := BlockAndAdd(After(s, steps), 0);
    RunsChain(s, steps, blocking);
    steps := steps + blocking;
    Extend(s, steps, UIRemove);
    steps := steps + [UIRemove];
    assert After(s, steps).entries == map[];
    var tending := TendThrough(After(s, steps), 0);
    RunsChain(s, steps, tending);
    steps := steps + tending;
  }

  /** A cleanup that fails to unblock: it takes the entry all the same, and the rule stays for good. */
  lemma FailedCleanupLeavesRule() returns (steps: seq<Step<int>>)
    ensures IsRun(Fresh<int>({}), steps) && RuleLeftBehind(After(Fresh<int>({}), steps))
  {
    var s := Fresh<int>({});
    steps := [];
    Extend(s, steps, Spawn(7, MINUTE));
    steps := steps + [Spawn(7, MINUTE)];
    var blocking := BlockAndAdd(After(s, steps), 0);
    RunsChain(s, steps, blocking);
    steps := steps + blocking;
    assert (set k | k in [7]) == {7};
    Extend(s, steps, CleanupBegin([7]));
    steps := steps + [CleanupBegin([7])];
    Extend(s, steps, CleanupUnblock(false));
    steps := steps + [CleanupUnblock(false)];
    Extend(s, steps, CleanupRemove);
    steps := steps + [CleanupRemove];
    assert After(s, steps).entries == map[];
    var tending := TendThrough(After(s, steps), 0);
    RunsChain(s, steps, tending);
    steps := steps + tending;
  }

  /** A disciplined run up to some state. */
  ghost predicate Reaches<K(!new)>(s: State<K>, steps: seq<Step<K>>, t: State<K>) {
    IsRun(s, steps) && IsDisciplined(s, steps) && After(s, steps) == t
  }

  lemma {:induction false} GoesOn<K(!new)>(s: State<K>, steps: seq<Step<K>>, t: State<K>, step: Step<K>)
    requires Reaches(s, steps, t) && Enabled(t, step) && Disciplined(t, step)
    ensures Reaches(s, steps + [step], Apply(t, step))
    decreases |steps|
  {
    var all := steps + [step];
    if steps == [] {
      assert all[0] == step && all[1..] == [];
    } else {
      GoesOn(Apply(s, steps[0]), steps[1..], t, step);
      assert all[0] == steps[0] && all[1..] == steps[1..] + [step];
    }
  }

  /** Blocked for a minute. */
  function BlockedOnce(): State<int> {
    State(0, {7}, map[7 := Entry(0, MINUTE, "")], [Goroutine(7, 0, MINUTE, MINUTE, Sleeping(MINUTE))], Idle, {})
  }

  lemma BlockOnce() returns (steps: seq<Step<int>>)
    ensures Reaches(Fresh<int>({}), steps, BlockedOnce())
  {
    var s, t := Fresh<int>({}), Fresh<int>({});
    steps := [];
    GoesOn(s, steps, t, Spawn(7, MINUTE));
    steps, t := steps + [Spawn(7, MINUTE)], Apply(t, Spawn(7, MINUTE));
    GoesOn(s, steps, t, Block(0, true));
    steps, t := steps + [Block(0, true)], Apply(t, Block(0, true));
    GoesOn(s, steps, t, Add(0));
    steps, t := steps + [Add(0)], Apply(t, Add(0));
    GoesOn(s, steps, t, Kill(0));
    steps, t := steps + [Kill(0)], Apply(t, Kill(0));
    GoesOn(s, steps, t, Summarise(0, ""));
    steps, t := steps + [Summarise(0, "")], Apply(t, Summarise(0, ""));
  }

  /** Removed by hand after half of the minute: the timer still sleeps. */
  function RemovedEarly(): State<int> {
    State(30, {}, map[], [Goroutine(7, 0, MINUTE, MINUTE, Sleeping(MINUTE))], Idle, {})
  }

  lemma RemoveEarly() returns (steps: seq<Step<int>>)
    ensures Reaches(Fresh<int>({}), steps, RemovedEarly())
  {
    var s, t := Fresh<int>({}), BlockedOnce();
    steps := BlockOnce();
    GoesOn(s, steps, t, Tick(30));
    steps, t := steps + [Tick(30)], Apply(t, Tick(30));
    GoesOn(s, steps, t, UIUnblock(7, true));
    steps, t := steps + [UIUnblock(7, true)], Apply(t, UIUnblock(7, true));
    GoesOn(s, steps, t, UIRemove);
    steps, t := steps + [UIRemove], Apply(t, UIRemove);
  }

  /** Blocked again. */
  function BlockedAgain(): State<int> {
    State(30, {7}, map[7 := Entry(30, 90, "processing...")],
          [Goroutine(7, 0, MINUTE, MINUTE, Sleeping(MINUTE)), Goroutine(7, 30, MINUTE, 90, Killing)], Idle, {})
  }

  lemma BlockAgain() returns (steps: seq<Step<int>>)
    ensures Reaches(Fresh<int>({}), steps, BlockedAgain())
  {
    var s, t := Fresh<int>({}), RemovedEarly();
    steps := RemoveEarly();
    GoesOn(s, steps, t, Spawn(7, MINUTE));
    steps, t := steps + [Spawn(7, MINUTE)], Apply(t, Spawn(7, MINUTE));
    GoesOn(s, steps, t, Block(1, true));
    steps, t := steps + [Block(1, true)], Apply(t, Block(1, true));
    GoesOn(s, steps, t, Add(1));
    steps, t := steps + [Add(1)], Apply(t, Add(1));
  }

  /** Nothing leaks when such a key is blocked again, but the first timer takes the new rule away before the
      second block has expired. */
  lemma StaleTimerEndsBlockEarly() returns (steps: seq<Step<int>>)
    ensures IsRun(Fresh<int>({}), steps) && IsDisciplined(Fresh<int>({}), steps)
    ensures var t := After(Fresh<int>({}), steps);
            && 7 !in t.rules && 7 in t.entries && t.clock < t.entries[7].expiresAt
            && |t.goroutines| == 2 && t.goroutines[1].key == 7 && t.clock < t.goroutines[1].expiresAt
  {
    var s, t := Fresh<int>({}), BlockedAgain();
    steps := BlockAgain();
    GoesOn(s, steps, t, Tick(MINUTE));
    steps, t := steps + [Tick(MINUTE)], Apply(t, Tick(MINUTE));
    GoesOn(s, steps, t, Wake(0));
    steps, t := steps + [Wake(0)], Apply(t, Wake(0));
    GoesOn(s, steps, t, Test(0));
    steps, t := steps + [Test(0)], Apply(t, Test(0));
    GoesOn(s, steps, t, Unblock(0, true));
    steps, t := steps + [Unblock(0, true)], Apply(t, Unblock(0, true));
  }
}
