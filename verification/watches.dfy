/**
  The cache of the name service client with other clients writing too. Every read that
  misses fills the cache and starts a watch in the background; the watch learns of changes
  from the moment it is registered, and its first event drops the cached answer. Steps of
  all clients and of the watches interleave in any order.
 */
module Watches {
  import opened Numerals
  import opened NameView

  /** What is read: one key, or all keys under a prefix. */
  datatype Target = One(key: string) | All(prefix: string)

  predicate Covers(t: Target, key: string) {
    match t
    case One(k) => k == key
    case All(prefix) => prefix <= key
  }

  function Direct(kv: Kv, t: Target): Kv {
    map k | k in kv && Covers(t, k) :: kv[k]
  }

  /** `filled` is what the read that started the watch got, `first` what was there at registration. */
  datatype Watch = Watch(target: Target, filled: Kv, registered: bool, first: Kv, pending: bool)

  /** A cached answer, and the watch that the same read started. */
  datatype Answer = Answer(value: Kv, watch: nat)

  datatype State = State(kv: Kv, local: map<Target, Answer>, watches: map<nat, Watch>)

  datatype Step =
    | Fill(t: Target, id: nat, kept: bool)       // a read that misses; the cache may drop the answer
    | Register(id: nat)                          // the watch of an earlier read reaches etcd
    | FillAndRegister(t: Target, id: nat, kept: bool)
    | Drop(t: Target)                            // eviction, or invalidation before an own write
    | Write(key: string, value: string)          // by this client or another
    | Delete(key: string)
    | Deliver(id: nat)                           // a watch hands over its first event and ends

  predicate Enabled(s: State, step: Step) {
    match step
    case Fill(t, id, _) => t !in s.local && id !in s.watches
    case Register(id) => id in s.watches && !s.watches[id].registered
    case FillAndRegister(t, id, _) => t !in s.local && id !in s.watches
    case Deliver(id) => id in s.watches && s.watches[id].registered && s.watches[id].pending
    case _ => true
  }

  /** Every registered watch on the key gets an event. */
  function Notified(watches: map<nat, Watch>, key: string): map<nat, Watch> {
    map id | id in watches ::
      if watches[id].registered && Covers(watches[id].target, key) then watches[id].(pending := true) else watches[id]
  }

  function Filled(s: State, t: Target, id: nat, kept: bool, registered: bool): State {
    var v := Direct(s.kv, t);
    s.(local := if kept then s.local[t := Answer(v, id)] else s.local,
       watches := s.watches[id := Watch(t, v, registered, v, false)])
  }

  function Next(s: State, step: Step): State
    requires Enabled(s, step)
  {
    match step
    case Fill(t, id, kept) => Filled(s, t, id, kept, false)
    case Register(id) =>
      s.(watches := s.watches[id := s.watches[id].(registered := true, first := Direct(s.kv, s.watches[id].target))])
    case FillAndRegister(t, id, kept) => Filled(s, t, id, kept, true)
    case Drop(t) => s.(local := s.local - {t})
    case Write(key, value) => s.(kv := s.kv[key := value], watches := Notified(s.watches, key))
    case Delete(key) => if key in s.kv then s.(kv := s.kv - {key}, watches := Notified(s.watches, key)) else s
    case Deliver(id) => s.(local := s.local - {s.watches[id].target}, watches := s.watches - {id})
  }

  ghost predicate EnabledRun(s: State, steps: seq<Step>)
    decreases |steps|
  {
    steps == [] || (Enabled(s, steps[0]) && EnabledRun(Next(s, steps[0]), steps[1..]))
  }

  function Run(s: State, steps: seq<Step>): State
    requires EnabledRun(s, steps)
    decreases |steps|
  {
    if steps == [] then s else Run(Next(s, steps[0]), steps[1..])
  }

  /** A registered watch without an event still sees what it first saw. */
  ghost predicate Watching(kv: Kv, w: Watch) {
    w.registered && !w.pending ==> w.first == Direct(kv, w.target)
  }

  ghost predicate Watched(s: State) {
    && (forall id | id in s.watches :: Watching(s.kv, s.watches[id]))
    && forall t | t in s.local ::
      var a := s.local[t];
      a.watch in s.watches && s.watches[a.watch].target == t && s.watches[a.watch].filled == a.value
  }

  lemma WriteStaysWatched(kv: Kv, kv': Kv, watches: map<nat, Watch>, key: string, id: nat)
    requires id in watches && Watching(kv, watches[id])
    requires forall k | k != key :: SameAt(kv, kv', k)
    ensures Watching(kv', Notified(watches, key)[id])
  {
    var w := watches[id];
    if w.registered && !w.pending && !Covers(w.target, key) {
      forall k | k in kv || k in kv' ensures k in Direct(kv, w.target) <==> k in Direct(kv', w.target) {
        assert k != key ==> SameAt(kv, kv', k);
      }
      forall k | k in Direct(kv, w.target) ensures Direct(kv, w.target)[k] == Direct(kv', w.target)[k] {
        assert SameAt(kv, kv', k);
      }
      assert Direct(kv, w.target) == Direct(kv', w.target);
    }
  }

  lemma StepStaysWatched(s: State, step: Step)
    requires Watched(s) && Enabled(s, step)
    ensures Watched(Next(s, step))
  {
    match step
    case Write(key, value) =>
      hide Direct, Watching, Covers;
      forall id | id in s.watches { WriteStaysWatched(s.kv, s.kv[key := value], s.watches, key, id); }
    case Delete(key) =>
      hide Direct, Watching, Covers;
      if key in s.kv {
        forall id | id in s.watches { WriteStaysWatched(s.kv, s.kv - {key}, s.watches, key, id); }
      }
    case _ =>
  }

  lemma {:induction false} RunStaysWatched(s: State, steps: seq<Step>)
    requires Watched(s) && EnabledRun(s, steps)
    ensures Watched(Run(s, steps))
    decreases |steps|
  {
    hide Watched, Enabled, Next;
    if steps != [] {
      StepStaysWatched(s, steps[0]);
      RunStaysWatched(Next(s, steps[0]), steps[1..]);
    }
  }

  /** All watches are registered and have handed over their events. */
  ghost predicate Settled(s: State) {
    forall id | id in s.watches :: s.watches[id].registered && !s.watches[id].pending
  }

  predicate Empty(s: State) {
    s.local == map[] && s.watches == map[]
  }

  // ---- what a run tells about its cached answers ----

  datatype Query = Filling(t: Target) | Starting(id: nat) | Registering(id: nat)

  /** A step that caches an answer for the target, starts the watch, or registers it. */
  predicate Matches(q: Query, step: Step) {
    match q
    case Filling(t) => (step.Fill? || step.FillAndRegister?) && step.t == t && step.kept
    case Starting(id) => (step.Fill? || step.FillAndRegister?) && step.id == id
    case Registering(id) => (step.Register? || step.FillAndRegister?) && step.id == id
  }

  /** The position of the last step that matches. */
  function Last(steps: seq<Step>, q: Query): (at: Option<nat>)
    ensures at.Some? ==> at.value < |steps| && Matches(q, steps[at.value])
  {
    if steps == [] then None
    else
      var last := |steps| - 1;
      if Matches(q, steps[last]) then Some(last) else Last(steps[..last], q)
  }

  function Stored(kv: Kv, step: Step): Kv {
    match step
    case Write(key, value) => kv[key := value]
    case Delete(key) => kv - {key}
    case _ => kv
  }

  /** What etcd holds after some steps: only writes and deletions count. */
  function KvAfter(kv: Kv, steps: seq<Step>): Kv {
    if steps == [] then kv else Stored(KvAfter(kv, steps[..|steps| - 1]), steps[|steps| - 1])
  }

  /** What a read of the target gives just before step `i`. */
  function SeenAt(kv: Kv, steps: seq<Step>, i: nat, t: Target): Kv
    requires i <= |steps|
  {
    Direct(KvAfter(kv, steps[..i]), t)
  }

  /** A watch holds what was read where it started and where it was registered last. */
  ghost predicate TracedWatch(kv: Kv, steps: seq<Step>, id: nat, w: Watch) {
    var start, reg := Last(steps, Starting(id)), Last(steps, Registering(id));
    && start.Some? && steps[start.value].t == w.target && w.filled == SeenAt(kv, steps, start.value, w.target)
    && (w.registered ==> reg.Some? && start.value <= reg.value && w.first == SeenAt(kv, steps, reg.value, w.target))
  }

  ghost predicate TracedAnswer(steps: seq<Step>, t: Target, a: Answer) {
    Last(steps, Filling(t)).Some? && Last(steps, Starting(a.watch)) == Last(steps, Filling(t))
  }

  ghost predicate Traced(kv: Kv, steps: seq<Step>, s: State) {
    && s.kv == KvAfter(kv, steps)
    && (forall id | id in s.watches :: TracedWatch(kv, steps, id, s.watches[id]))
    && (forall t | t in s.local :: TracedAnswer(steps, t, s.local[t]))
  }

  lemma OneMoreStep(kv: Kv, steps: seq<Step>, step: Step, q: Query, i: nat, t: Target)
    ensures Last(steps + [step], q) == if Matches(q, step) then Some(|steps|) else Last(steps, q)
    ensures i <= |steps| ==> SeenAt(kv, steps + [step], i, t) == SeenAt(kv, steps, i, t)
    ensures KvAfter(kv, steps + [step]) == Stored(KvAfter(kv, steps), step)
  {
    assert (steps + [step])[..|steps|] == steps;
    if i <= |steps| { assert (steps + [step])[..i] == steps[..i]; }
  }

  lemma WatchStaysTraced(kv: Kv, steps: seq<Step>, step: Step, id: nat, w: Watch, w': Watch)
    requires TracedWatch(kv, steps, id, w) && !Matches(Starting(id), step) && !Matches(Registering(id), step)
    requires w' == w.(pending := w'.pending)
    ensures TracedWatch(kv, steps + [step], id, w')
  {
    var start, reg := Last(steps, Starting(id)), Last(steps, Registering(id));
    OneMoreStep(kv, steps, step, Starting(id), start.value, w.target);
    OneMoreStep(kv, steps, step, Registering(id), if reg.Some? then reg.value else 0, w.target);
    hide SeenAt, Last, Matches;
  }

  lemma StartIsTraced(kv: Kv, s: State, steps: seq<Step>, step: Step)
    requires Traced(kv, steps, s) && Enabled(s, step) && (step.Fill? || step.FillAndRegister?)
    ensures TracedWatch(kv, steps + [step], step.id, Next(s, step).watches[step.id])
  {
    OneMoreStep(kv, steps, step, Starting(step.id), |steps|, step.t);
    OneMoreStep(kv, steps, step, Registering(step.id), |steps|, step.t);
    assert steps[..|steps|] == steps;
    hide Last, KvAfter, Direct;
  }

  lemma RegistrationIsTraced(kv: Kv, s: State, steps: seq<Step>, id: nat)
    requires Traced(kv, steps, s) && Enabled(s, Register(id))
    ensures TracedWatch(kv, steps + [Register(id)], id, Next(s, Register(id)).watches[id])
  {
    var w := s.watches[id];
    assert TracedWatch(kv, steps, id, w);
    var start := Last(steps, Starting(id));
    OneMoreStep(kv, steps, Register(id), Starting(id), start.value, w.target);
    OneMoreStep(kv, steps, Register(id), Registering(id), |steps|, w.target);
    assert steps[..|steps|] == steps;
    hide Last, KvAfter, Direct;
  }

  lemma WatchesStayTraced(kv: Kv, s: State, steps: seq<Step>, step: Step, id: nat)
    requires Traced(kv, steps, s) && Enabled(s, step) && id in Next(s, step).watches
    ensures TracedWatch(kv, steps + [step], id, Next(s, step).watches[id])
  {
    if (step.Fill? || step.FillAndRegister?) && step.id == id {
      hide TracedWatch, Next;
      StartIsTraced(kv, s, steps, step);
    } else if step == Register(id) {
      hide TracedWatch, Next;
      RegistrationIsTraced(kv, s, steps, id);
    } else {
      hide TracedWatch, Direct, Covers;
      WatchStaysTraced(kv, steps, step, id, s.watches[id], Next(s, step).watches[id]);
    }
  }

  /** An answer is either new, or kept from before with its watch still there. */
  lemma AnswerIsNewOrKept(s: State, step: Step, t: Target)
    requires Watched(s) && Enabled(s, step) && t in Next(s, step).local
    ensures var a := Next(s, step).local[t];
      if Matches(Filling(t), step) then a.watch == step.id
      else t in s.local && a == s.local[t] && !Matches(Starting(a.watch), step)
  {
    hide Direct, Watching, Notified;
  }

  lemma AnswersStayTraced(kv: Kv, s: State, steps: seq<Step>, step: Step, t: Target)
    requires Watched(s) && Enabled(s, step) && t in Next(s, step).local
    requires t in s.local ==> TracedAnswer(steps, t, s.local[t])
    ensures TracedAnswer(steps + [step], t, Next(s, step).local[t])
  {
    AnswerIsNewOrKept(s, step, t);
    var a := Next(s, step).local[t];
    OneMoreStep(kv, steps, step, Filling(t), 0, t);
    OneMoreStep(kv, steps, step, Starting(a.watch), 0, t);
    hide Last, KvAfter, SeenAt, Watched, Next, Enabled;
  }

  lemma KvStaysTraced(kv: Kv, s: State, steps: seq<Step>, step: Step)
    requires s.kv == KvAfter(kv, steps) && Enabled(s, step)
    ensures Next(s, step).kv == KvAfter(kv, steps + [step])
  {
    OneMoreStep(kv, steps, step, Starting(0), 0, One(""));
    hide KvAfter, Direct, Notified;
    assert step.Delete? && step.key !in s.kv ==> s.kv - {step.key} == s.kv;
  }

  lemma StepStaysTraced(kv: Kv, s: State, steps: seq<Step>, step: Step)
    requires Watched(s) && Traced(kv, steps, s) && Enabled(s, step)
    ensures Traced(kv, steps + [step], Next(s, step))
  {
    hide Next, KvAfter, Enabled, Watched, TracedWatch, TracedAnswer;
    KvStaysTraced(kv, s, steps, step);
    forall id | id in Next(s, step).watches { WatchesStayTraced(kv, s, steps, step, id); }
    forall t | t in Next(s, step).local { AnswersStayTraced(kv, s, steps, step, t); }
  }

  /** A run after some steps that led to `s`. */
  lemma {:induction false} RunStaysTraced(kv: Kv, past: seq<Step>, s: State, steps: seq<Step>)
    requires Watched(s) && Traced(kv, past, s) && EnabledRun(s, steps)
    ensures Watched(Run(s, steps)) && Traced(kv, past + steps, Run(s, steps))
    decreases |steps|
  {
    hide Watched, Traced, Enabled, Next;
    if steps == [] {
      assert past + [] == past;
    } else {
      StepStaysWatched(s, steps[0]);
      StepStaysTraced(kv, s, past, steps[0]);
      RunStaysTraced(kv, past + [steps[0]], Next(s, steps[0]), steps[1..]);
      assert past + [steps[0]] + steps[1..] == past + steps;
    }
  }

  lemma StartedWith(steps: seq<Step>, id: nat)
    ensures var start := Last(steps, Starting(id)); start.Some? ==>
      (steps[start.value].Fill? || steps[start.value].FillAndRegister?) && steps[start.value].id == id
  {
  }

  /** The read that filled the cache last saw the same as a read at the registration of its watch. */
  ghost predicate NothingBetween(kv: Kv, steps: seq<Step>, t: Target) {
    var fill := Last(steps, Filling(t));
    && fill.Some?
    && var reg := Last(steps, Registering(steps[fill.value].id));
       && reg.Some? && fill.value <= reg.value
       && SeenAt(kv, steps, fill.value, t) == SeenAt(kv, steps, reg.value, t)
  }

  lemma SettledAnswer(kv: Kv, steps: seq<Step>, s: State, t: Target)
    requires Watched(s) && Traced(kv, steps, s) && Settled(s) && t in s.local
    ensures s.local[t].value == Direct(s.kv, t) <==> NothingBetween(kv, steps, t)
  {
    var a := s.local[t];
    assert TracedAnswer(steps, t, a) && TracedWatch(kv, steps, a.watch, s.watches[a.watch]);
    assert Watching(s.kv, s.watches[a.watch]);
    StartedWith(steps, a.watch);
    hide Direct, KvAfter, Last, SeenAt, Matches, Watched, Traced, Settled;
  }

  /** Once everything is delivered, a cached answer is right if and only if the read that filled the
      cache last saw the same as a read at the registration of its watch would have seen. */
  lemma SettledExactly(s: State, steps: seq<Step>, t: Target)
    requires Empty(s) && EnabledRun(s, steps)
    requires Settled(Run(s, steps)) && t in Run(s, steps).local
    ensures Run(s, steps).local[t].value == Direct(Run(s, steps).kv, t) <==> NothingBetween(s.kv, steps, t)
  {
    assert Watched(s) && Traced(s.kv, [], s);
    assert [] + steps == steps;
    hide *;
    RunStaysTraced(s.kv, [], s, steps);
    SettledAnswer(s.kv, steps, Run(s, steps), t);
  }

  // ---- events, and answers that stay ----

  /** What the cache keeps is what the two reads of the client give. */
  lemma DirectIsRead(kv: Kv, key: string, prefix: string)
    ensures Direct(kv, One(key)) == if key in kv then map[key := kv[key]] else map[]
    ensures Direct(kv, All(prefix)) == Under(kv, prefix)
  {
  }

  /** A read that the cache keeps is answered from the cache until it is dropped or an event is delivered. */
  lemma AnswersStay(s: State, step: Step, t: Target)
    requires Enabled(s, step)
    ensures Matches(Filling(t), step) ==> t in Next(s, step).local && Next(s, step).local[t].value == Direct(s.kv, t)
    ensures t in s.local && step != Drop(t) && !(step.Deliver? && s.watches[step.id].target == t) ==>
      t in Next(s, step).local && Next(s, step).local[t] == s.local[t]
  {
  }

  /** Step `k` changes what the target reads: it writes a covered key, or deletes one that is there. */
  predicate Changes(kv: Kv, steps: seq<Step>, k: nat, t: Target)
    requires k < |steps|
  {
    match steps[k]
    case Write(key, _) => Covers(t, key)
    case Delete(key) => Covers(t, key) && key in KvAfter(kv, steps[..k])
    case _ => false
  }

  ghost predicate ChangedSince(kv: Kv, steps: seq<Step>, from: nat, t: Target) {
    exists k: nat :: from < k < |steps| && Changes(kv, steps, k, t)
  }

  /** A watch has an event exactly if a covered key changed after its registration. */
  ghost predicate TracedEvent(kv: Kv, steps: seq<Step>, id: nat, w: Watch) {
    var reg := Last(steps, Registering(id));
    if w.registered then reg.Some? && (w.pending <==> ChangedSince(kv, steps, reg.value, w.target)) else !w.pending
  }

  ghost predicate TracedEvents(kv: Kv, steps: seq<Step>, s: State) {
    s.kv == KvAfter(kv, steps) && forall id | id in s.watches :: TracedEvent(kv, steps, id, s.watches[id])
  }

  lemma ChangedOneMore(kv: Kv, steps: seq<Step>, step: Step, from: nat, t: Target)
    requires from < |steps|
    ensures ChangedSince(kv, steps + [step], from, t)
      <==> ChangedSince(kv, steps, from, t) || Changes(kv, steps + [step], |steps|, t)
  {
    hide KvAfter, Covers;
    forall k: nat | k < |steps| ensures Changes(kv, steps + [step], k, t) == Changes(kv, steps, k, t) {
      assert (steps + [step])[..k] == steps[..k];
    }
    if k: nat :| from < k < |steps| && Changes(kv, steps, k, t) { assert Changes(kv, steps + [step], k, t); }
  }

  lemma EventStaysTraced(kv: Kv, s: State, steps: seq<Step>, step: Step, id: nat)
    requires TracedEvents(kv, steps, s) && Enabled(s, step) && id in Next(s, step).watches
    ensures TracedEvent(kv, steps + [step], id, Next(s, step).watches[id])
  {
    OneMoreStep(kv, steps, step, Registering(id), 0, One(""));
    var w' := Next(s, step).watches[id];
    if Matches(Registering(id), step) || Matches(Starting(id), step) {
      hide KvAfter, Direct, Covers, Changes;
    } else {
      var w := s.watches[id];
      assert TracedEvent(kv, steps, id, w);
      assert (steps + [step])[..|steps|] == steps;
      hide Direct, KvAfter, Last, Covers;
      if w.registered { ChangedOneMore(kv, steps, step, Last(steps, Registering(id)).value, w.target); }
      hide ChangedSince;
    }
  }

  lemma {:induction false} RunStaysEvented(kv: Kv, past: seq<Step>, s: State, steps: seq<Step>)
    requires TracedEvents(kv, past, s) && EnabledRun(s, steps)
    ensures TracedEvents(kv, past + steps, Run(s, steps))
    decreases |steps|
  {
    if steps == [] {
      assert past + [] == past;
    } else {
      var step := steps[0];
      KvStaysTraced(kv, s, past, step);
      hide Next, KvAfter, Enabled, TracedEvent;
      forall id | id in Next(s, step).watches { EventStaysTraced(kv, s, past, step, id); }
      RunStaysEvented(kv, past + [step], Next(s, step), steps[1..]);
      assert past + [step] + steps[1..] == past + steps;
    }
  }

  /** Over every run, a watch has an undelivered event if and only if it is registered and a key that it
      covers has changed since: no change is lost, and no answer is dropped without a reason. */
  lemma EventsExactly(s: State, steps: seq<Step>, id: nat)
    requires Empty(s) && EnabledRun(s, steps) && id in Run(s, steps).watches
    ensures var w, reg := Run(s, steps).watches[id], Last(steps, Registering(id));
      w.pending <==> w.registered && reg.Some? && ChangedSince(s.kv, steps, reg.value, w.target)
  {
    assert TracedEvents(s.kv, [], s);
    RunStaysEvented(s.kv, [], s, steps);
    assert [] + steps == steps;
    assert TracedEvent(s.kv, steps, id, Run(s, steps).watches[id]);
    hide Run, EnabledRun, Last, ChangedSince, KvAfter;
  }

  // ---- reading and registering as one step ----

  predicate Atomic(steps: seq<Step>) {
    forall step | step in steps :: !step.Fill?
  }

  ghost predicate Unraced(s: State) {
    forall id | id in s.watches :: s.watches[id].registered && s.watches[id].filled == s.watches[id].first
  }

  lemma {:induction false} AtomicStaysUnraced(s: State, steps: seq<Step>)
    requires Unraced(s) && EnabledRun(s, steps) && Atomic(steps)
    ensures Unraced(Run(s, steps))
    decreases |steps|
  {
    if steps != [] {
      assert !steps[0].Fill? by { assert steps[0] in steps; }
      assert Unraced(Next(s, steps[0])) by { hide Direct, Covers; }
      hide Unraced, Next, Enabled;
      AtomicStaysUnraced(Next(s, steps[0]), steps[1..]);
    }
  }

  /** Then every cached answer that is wrong has an undelivered event that will drop it, in every
      interleaving; with all events delivered, cached and direct reads agree. */
  lemma CacheAgreesUpToPending(s: State, steps: seq<Step>, t: Target)
    requires Empty(s) && EnabledRun(s, steps) && Atomic(steps) && t in Run(s, steps).local
    ensures var s' := Run(s, steps);
      s'.local[t].value == Direct(s'.kv, t)
      || exists id | id in s'.watches ::
          s'.watches[id].target == t && Enabled(s', Deliver(id)) && t !in Next(s', Deliver(id)).local
  {
    hide Run, EnabledRun, Direct;
    RunStaysWatched(s, steps);
    AtomicStaysUnraced(s, steps);
    var s' := Run(s, steps);
    var id := s'.local[t].watch;
    assert Watching(s'.kv, s'.watches[id]);
    if s'.watches[id].pending { assert Enabled(s', Deliver(id)); }
  }

  /** As the code has it, with the registration left to the background, a write that falls between
      leaves a wrong answer in the cache that no event will drop. */
  lemma RaceLeavesStaleAnswer(key: string)
    ensures var s := State(map[key := "old"], map[], map[]);
      var steps := [Fill(One(key), 0, true), Write(key, "new"), Register(0)];
      && EnabledRun(s, steps) && Settled(Run(s, steps))
      && One(key) in Run(s, steps).local
      && Run(s, steps).local[One(key)].value == map[key := "old"]
      && Direct(Run(s, steps).kv, One(key)) == map[key := "new"]
  {
    var s := State(map[key := "old"], map[], map[]);
    var f, x, r := Fill(One(key), 0, true), Write(key, "new"), Register(0);
    var steps := [f, x, r];
    assert steps[1..] == [x, r] && [x, r][1..] == [r] && [r][1..] == [];
    assert Direct(s.kv, One(key)) == map[key := "old"];
    var s1 := Next(s, f);
    var s2 := Next(s1, x);
    var s3 := Next(s2, r);
    assert Run(s2, [r]) == s3 by { assert Run(s3, []) == s3; }
    assert EnabledRun(s1, [x, r]) && Run(s1, [x, r]) == s3;
    assert EnabledRun(s, steps) && Run(s, steps) == s3;
  }
}
