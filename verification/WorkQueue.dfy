/** The worker threads that turn modules into object files, step by step under any scheduling. */
module WorkQueue {
  import opened Wrappers

  /** A job's bundle, by the name of its file. */
  type Bundle = string

  datatype Job = Job(bundle: Bundle, idx: int, numbers: seq<nat>)

  datatype Object = Object(bundle: Bundle, numbers: seq<nat>)

  /** Where a worker is. Looking, Taken and Found hold the work lock; the last three before the end the number lock. */
  datatype Worker =
    | Ready
    | Looking
    | Taken(bundle: Option<Bundle>)
    | Found(bundle: Option<Bundle>, idx: int)
    | Busy(job: Job)
    | Numbering(job: Job)
    | Numbered(job: Job, num: nat)
    | Naming(job: Job, num: nat)
    | Finished

  /**
   * `need` is how many temporary names one job asks for. `issued` and `writes` record the numbers handed out and how
   * often each output slot was written.
   */
  datatype System = System(
    work: seq<Bundle>, need: nat, widex: int, workLock: Option<nat>, counter: nat, numberLock: Option<nat>,
    outputs: seq<Option<Object>>, workers: seq<Worker>, issued: seq<nat>, writes: seq<nat>)

  function Start(work: seq<Bundle>, need: nat, threads: nat): System {
    System(work, need, 0, None, 0, None, seq(|work|, i => None), seq(threads, i => Ready), [], seq(|work|, i => 0))
  }

  function Goes(s: System, t: nat, w: Worker): System
    requires t < |s.workers|
  {
    s.(workers := s.workers[t := w])
  }

  /** The next step of worker `t`, or None if it has finished or must wait for a lock. */
  function Step(s: System, t: nat): Option<System>
    requires t < |s.workers|
  {
    match s.workers[t]
    case Ready =>
      if s.workLock.None? then Some(Goes(s, t, Looking).(workLock := Some(t))) else None
    case Looking =>
      if 0 <= s.widex < |s.work| then Some(Goes(s, t, Taken(Some(s.work[s.widex]))).(widex := s.widex + 1))
      else Some(Goes(s, t, Taken(None)))
    case Taken(b) => Some(Goes(s, t, Found(b, s.widex - 1)))
    case Found(b, idx) =>
      var unlocked := s.(workLock := None);
      Some(Goes(unlocked, t, if b.Some? then Busy(Job(b.value, idx, [])) else Finished))
    case Busy(job) =>
      if |job.numbers| < s.need then
        if s.numberLock.None? then Some(Goes(s, t, Numbering(job)).(numberLock := Some(t))) else None
      else if 0 <= job.idx < |s.outputs| == |s.writes| then
        Some(Goes(s, t, Ready).(outputs := s.outputs[job.idx := Some(Object(job.bundle, job.numbers))],
                                writes := s.writes[job.idx := s.writes[job.idx] + 1]))
      else None
    case Numbering(job) => Some(Goes(s, t, Numbered(job, s.counter)))
    case Numbered(job, num) => Some(Goes(s, t, Naming(job, num)).(counter := num + 1))
    case Naming(job, num) =>
      Some(Goes(s, t, Busy(job.(numbers := job.numbers + [num]))).(numberLock := None, issued := s.issued + [num]))
    case Finished => None
  }

  // ---------------------------------------------------------------- what every step keeps

  predicate InWork(w: Worker) { w.Looking? || w.Taken? || w.Found? }

  predicate InNumber(w: Worker) { w.Numbering? || w.Numbered? || w.Naming? }

  predicate HasJob(w: Worker) { w.Busy? || InNumber(w) }

  /** The claim of a worker on a slot, with the bundle it has for it. */
  function Claim(s: System, w: Worker): Option<(int, Bundle)> {
    match w
    case Taken(b) => if b.Some? then Some((s.widex - 1, b.value)) else None
    case Found(b, idx) => if b.Some? then Some((idx, b.value)) else None
    case Ready | Looking | Finished => None
    case _ => Some((w.job.idx, w.job.bundle))
  }

  ghost predicate Claims(s: System, w: Worker, i: int) {
    Claim(s, w).Some? && Claim(s, w).value.0 == i
  }

  /** The locks are held by exactly the workers inside. */
  ghost predicate Locked(s: System) {
    (s.workLock.Some? ==> s.workLock.value < |s.workers|) &&
    (s.numberLock.Some? ==> s.numberLock.value < |s.workers|) &&
    forall t :: 0 <= t < |s.workers| ==>
      (InWork(s.workers[t]) <==> s.workLock == Some(t)) && (InNumber(s.workers[t]) <==> s.numberLock == Some(t))
  }

  /** What a worker knows is right. */
  ghost predicate WorkerOk(s: System, w: Worker)
    requires |s.work| == |s.outputs| && s.widex <= |s.work|
  {
    (Claim(s, w).Some? ==> ClaimOk(s, Claim(s, w).value.0, Claim(s, w).value.1)) &&
    (HasJob(w) ==> |w.job.numbers| + (if InNumber(w) then 1 else 0) <= s.need) &&
    (w.Finished? || (w.Taken? && w.bundle.None?) || (w.Found? && w.bundle.None?) ==> s.widex == |s.work|) &&
    (w.Numbered? ==> w.num == s.counter) && (w.Naming? ==> w.num == |s.issued|)
  }

  ghost predicate ClaimOk(s: System, i: int, b: Bundle)
    requires |s.work| == |s.outputs| && s.widex <= |s.work|
  {
    0 <= i < s.widex && b == s.work[i] && s.outputs[i].None?
  }

  ghost predicate WorkersOk(s: System)
    requires |s.work| == |s.outputs| && s.widex <= |s.work|
  {
    forall t :: 0 <= t < |s.workers| ==> WorkerOk(s, s.workers[t])
  }

  /** No job belongs to two workers. */
  ghost predicate Exclusive(s: System) {
    forall t, u, i {:trigger Claims(s, s.workers[t], i), Claims(s, s.workers[u], i)} ::
      0 <= t < |s.workers| && 0 <= u < |s.workers| && t != u && Claims(s, s.workers[t], i) ==>
        !Claims(s, s.workers[u], i)
  }

  ghost predicate Claimed(s: System, i: int) {
    exists t :: 0 <= t < |s.workers| && Claims(s, s.workers[t], i)
  }

  ghost predicate SlotOk(s: System, i: int)
    requires 0 <= i < |s.work| == |s.outputs| == |s.writes|
  {
    match s.outputs[i]
    case None => s.writes[i] == 0 && (i < s.widex ==> Claimed(s, i))
    case Some(made) => s.writes[i] == 1 && i < s.widex && made.bundle == s.work[i] && |made.numbers| == s.need
  }

  /** A slot is written once, with its own bundle's object; an unwritten one is unclaimed or somebody's job. */
  ghost predicate SlotsOk(s: System) {
    |s.work| == |s.outputs| == |s.writes| && 0 <= s.widex <= |s.work| &&
    forall i :: 0 <= i < |s.work| ==> SlotOk(s, i)
  }

  /** The numbers handed out so far are 0, 1, 2, … without gap or repetition. */
  ghost predicate NumbersOk(s: System) {
    (forall k :: 0 <= k < |s.issued| ==> s.issued[k] == k) &&
    s.counter == |s.issued| +
      if s.numberLock.Some? && s.numberLock.value < |s.workers| && s.workers[s.numberLock.value].Naming? then 1 else 0
  }

  ghost predicate Inv(s: System) {
    SlotsOk(s) && Locked(s) && WorkersOk(s) && Exclusive(s) && NumbersOk(s)
  }

  lemma StartInv(work: seq<Bundle>, need: nat, threads: nat)
    ensures Inv(Start(work, need, threads))
  {
  }

  /** One step leaves the other workers and their claims alone. */
  lemma StepOther(s: System, t: nat, u: nat)
    requires t < |s.workers| && u < |s.workers| && u != t && Locked(s) && Step(s, t).Some?
    ensures |Step(s, t).value.workers| == |s.workers| && Step(s, t).value.workers[u] == s.workers[u]
    ensures Claim(Step(s, t).value, s.workers[u]) == Claim(s, s.workers[u])
  {
  }

  /** A worker takes the next job when it looks, drops it when it writes the output, and keeps it in between. */
  lemma StepOwn(s: System, t: nat)
    requires t < |s.workers| && SlotsOk(s) && Step(s, t).Some?
    ensures var n, w := Step(s, t).value, s.workers[t];
            n.work == s.work && |n.workers| == |s.workers| && |n.outputs| == |s.outputs| &&
            s.widex <= n.widex <= |s.work| &&
            if w.Looking? && s.widex < |s.work| then
              n.widex == s.widex + 1 && Claim(n, n.workers[t]) == Some((s.widex, s.work[s.widex])) &&
              n.outputs == s.outputs
            else
              n.widex == s.widex && (Claim(n, n.workers[t]) == Claim(s, w) || Claim(n, n.workers[t]).None?)
    ensures var n, w := Step(s, t).value, s.workers[t];
            if w.Busy? && |w.job.numbers| >= s.need then
              n.outputs == s.outputs[w.job.idx := Some(Object(w.job.bundle, w.job.numbers))] &&
              n.writes == s.writes[w.job.idx := s.writes[w.job.idx] + 1] && Claim(n, n.workers[t]).None?
            else
              n.outputs == s.outputs && n.writes == s.writes &&
              (Claim(s, w).Some? ==> Claim(n, n.workers[t]) == Claim(s, w))
  {
  }

  lemma StepLocked(s: System, t: nat)
    requires t < |s.workers| && Locked(s) && Step(s, t).Some?
    ensures Locked(Step(s, t).value)
  {
  }

  lemma StepWorker(s: System, t: nat, u: nat)
    requires t < |s.workers| && u < |s.workers| && Inv(s) && Step(s, t).Some?
    ensures var n := Step(s, t).value;
            |n.workers| == |s.workers| && |n.work| == |n.outputs| && n.widex <= |n.work| && WorkerOk(n, n.workers[u])
  {
    var n, w := Step(s, t).value, s.workers[t];
    assert WorkerOk(s, w) && WorkerOk(s, s.workers[u]);
    StepOwn(s, t);
    assert s.widex < |s.work| ==> SlotOk(s, s.widex);
    if u != t {
      StepOther(s, t, u);
      if w.Busy? && Claim(s, s.workers[u]).Some? {
        assert Claims(s, w, w.job.idx);
        var i := Claim(s, s.workers[u]).value.0;
        assert Claims(s, s.workers[u], i) && i != w.job.idx;
      }
    }
  }

  lemma StepExclusive(s: System, t: nat)
    requires t < |s.workers| && Inv(s) && Step(s, t).Some?
    ensures Exclusive(Step(s, t).value)
  {
    var n := Step(s, t).value;
    StepOwn(s, t);
    forall u, v, i | 0 <= u < |n.workers| && 0 <= v < |n.workers| && u != v && Claims(n, n.workers[u], i)
      ensures !Claims(n, n.workers[v], i)
    {
      assert WorkerOk(s, s.workers[u]) && WorkerOk(s, s.workers[v]);
      if u != t {
        StepOther(s, t, u);
        assert Claims(s, s.workers[u], i);
      }
      if v != t {
        StepOther(s, t, v);
      }
      assert Claims(s, s.workers[u], i) ==> !Claims(s, s.workers[v], i);
    }
  }

  lemma StepNumbers(s: System, t: nat)
    requires t < |s.workers| && Inv(s) && Step(s, t).Some?
    ensures NumbersOk(Step(s, t).value)
  {
    assert WorkerOk(s, s.workers[t]);
    StepLocked(s, t);
    var n := Step(s, t).value;
    if n.numberLock.Some? && n.numberLock.value < |n.workers| && n.numberLock.value != t {
      StepOther(s, t, n.numberLock.value);
    }
  }

  lemma StepSlot(s: System, t: nat, i: int)
    requires t < |s.workers| && Inv(s) && Step(s, t).Some? && 0 <= i < |s.work|
    ensures var n := Step(s, t).value;
            |n.work| == |s.work| == |n.outputs| == |n.writes| && SlotOk(n, i)
  {
    var n, w := Step(s, t).value, s.workers[t];
    assert WorkerOk(s, w);
    StepOwn(s, t);
    assert SlotOk(s, i);
    if n.outputs[i].None? && i < n.widex {
      if i < s.widex {
        var u :| 0 <= u < |s.workers| && Claims(s, s.workers[u], i);
        if u != t {
          StepOther(s, t, u);
        }
        assert Claims(n, n.workers[u], i);
      } else {
        assert Claims(n, n.workers[t], i);
      }
    }
  }

  lemma StepInv(s: System, t: nat)
    requires t < |s.workers| && Inv(s) && Step(s, t).Some?
    ensures Inv(Step(s, t).value)
  {
    var n := Step(s, t).value;
    StepOwn(s, t);
    StepLocked(s, t);
    StepExclusive(s, t);
    StepNumbers(s, t);
    assert |n.writes| == |n.work|;
    forall i | 0 <= i < |n.work| ensures SlotOk(n, i) { StepSlot(s, t, i); }
    forall u | 0 <= u < |n.workers| ensures WorkerOk(n, n.workers[u]) { StepWorker(s, t, u); }
  }

  // ---------------------------------------------------------------- every run ends, and how

  /** How many steps a worker still has to make, if there is no other job for it. */
  function Rank(w: Worker, need: nat): int {
    match w
    case Finished => 0
    case Found(b, _) => if b.Some? then 6 + 4 * need else 1
    case Taken(b) => if b.Some? then 7 + 4 * need else 2
    case Looking => 3
    case Ready => 4
    case Busy(job) => 5 + 4 * (need - |job.numbers|)
    case Naming(job, _) => 2 + 4 * (need - |job.numbers|)
    case Numbered(job, _) => 3 + 4 * (need - |job.numbers|)
    case Numbering(job) => 4 + 4 * (need - |job.numbers|)
  }

  function Ranks(workers: seq<Worker>, need: nat): int {
    if workers == [] then 0 else Rank(workers[0], need) + Ranks(workers[1..], need)
  }

  function Remaining(s: System): int {
    (4 * s.need + 5) * (|s.work| - s.widex) + Ranks(s.workers, s.need)
  }

  lemma {:induction false} RanksUpdate(workers: seq<Worker>, t: nat, w: Worker, need: nat)
    requires t < |workers|
    ensures Ranks(workers[t := w], need) == Ranks(workers, need) - Rank(workers[t], need) + Rank(w, need)
  {
    var next := workers[t := w];
    if t == 0 {
      assert next[1..] == workers[1..];
    } else {
      assert next[1..] == workers[1..][t - 1 := w];
      RanksUpdate(workers[1..], t - 1, w, need);
    }
  }

  predicate RankOk(w: Worker, need: nat) {
    w.Finished? || Rank(w, need) > 0
  }

  lemma {:induction false} RanksPositive(workers: seq<Worker>, need: nat)
    requires forall t :: 0 <= t < |workers| ==> RankOk(workers[t], need)
    ensures Ranks(workers, need) >= 0
    ensures Ranks(workers, need) == 0 ==> forall t :: 0 <= t < |workers| ==> workers[t].Finished?
  {
    if workers != [] {
      assert RankOk(workers[0], need);
      RanksPositive(workers[1..], need);
    }
  }

  /** Every step, of whichever worker, uses up exactly one of the steps that remain. */
  lemma StepRemaining(s: System, t: nat)
    requires t < |s.workers| && Inv(s) && Step(s, t).Some?
    ensures Remaining(Step(s, t).value) == Remaining(s) - 1
  {
    var n := Step(s, t).value;
    StepOwn(s, t);
    RanksUpdate(s.workers, t, n.workers[t], s.need);
    assert WorkerOk(s, s.workers[t]);
    assert n.workers == s.workers[t := n.workers[t]] && n.need == s.need;
    var jobs, left := 4 * s.need + 5, |s.work| - s.widex;
    assert jobs * (left - 1) == jobs * left - jobs;
  }

  lemma RemainingPositive(s: System)
    requires Inv(s)
    ensures Remaining(s) >= 0
  {
    forall t | 0 <= t < |s.workers| ensures RankOk(s.workers[t], s.need) { assert WorkerOk(s, s.workers[t]); }
    RanksPositive(s.workers, s.need);
    assert (4 * s.need + 5) * (|s.work| - s.widex) >= 0;
  }

  predicate AllFinished(s: System) {
    forall t :: 0 <= t < |s.workers| ==> s.workers[t].Finished?
  }

  predicate CanStep(s: System, t: nat) {
    t < |s.workers| && Step(s, t).Some?
  }

  /** Nobody waits for good: as long as some worker has not finished, some worker can step. */
  lemma NoDeadlock(s: System) returns (t: nat)
    requires Inv(s) && !AllFinished(s)
    ensures CanStep(s, t)
  {
    t :| t < |s.workers| && !s.workers[t].Finished?;
    assert WorkerOk(s, s.workers[t]);
    if Step(s, t).None? {
      t := if s.workers[t].Ready? then s.workLock.value else s.numberLock.value;
      assert InWork(s.workers[t]) || InNumber(s.workers[t]);
    }
  }

  /** Runs one scheduled step after the other; None if one of them is not possible. */
  function Run(s: System, schedule: seq<nat>): Option<System>
    decreases |schedule|
  {
    if schedule == [] then Some(s)
    else if CanStep(s, schedule[0]) then Run(Step(s, schedule[0]).value, schedule[1..])
    else None
  }

  lemma {:induction false} RunInv(s: System, schedule: seq<nat>)
    requires Inv(s) && Run(s, schedule).Some?
    ensures var n := Run(s, schedule).value;
            Inv(n) && Remaining(n) == Remaining(s) - |schedule| && n.work == s.work && n.need == s.need &&
            |n.workers| == |s.workers|
    decreases |schedule|
  {
    if schedule != [] {
      StepInv(s, schedule[0]);
      StepRemaining(s, schedule[0]);
      StepOwn(s, schedule[0]);
      RunInv(Step(s, schedule[0]).value, schedule[1..]);
    }
  }

  // ---------------------------------------------------------------- the numbers in use

  /** Where a number is kept: with a finished object, or with a job in hand. */
  datatype Place = InOutput(i: nat, k: nat) | InJob(t: nat, k: nat)

  function NumberAt(s: System, p: Place): Option<nat> {
    match p
    case InOutput(i, k) =>
      if i < |s.outputs| && s.outputs[i].Some? && k < |s.outputs[i].value.numbers|
      then Some(s.outputs[i].value.numbers[k])
      else None
    case InJob(t, k) =>
      if t < |s.workers| && HasJob(s.workers[t]) && k < |s.workers[t].job.numbers|
      then Some(s.workers[t].job.numbers[k])
      else None
  }

  /** No number is in two places, and those still to come are in none. */
  ghost predicate NumbersDistinct(s: System) {
    (forall p :: NumberAt(s, p).Some? ==> NumberAt(s, p).value < |s.issued|) &&
    forall p, q :: NumberAt(s, p).Some? && p != q ==> NumberAt(s, p) != NumberAt(s, q)
  }

  /** Where the number at `p` was before worker `t` stepped. */
  function Origin(s: System, t: nat, p: Place): Place
    requires t < |s.workers|
  {
    var w := s.workers[t];
    if w.Busy? && |w.job.numbers| >= s.need && p.InOutput? && p.i == w.job.idx then InJob(t, p.k) else p
  }

  lemma StepNumberAt(s: System, t: nat, p: Place)
    requires t < |s.workers| && Inv(s) && Step(s, t).Some?
    ensures var n, w := Step(s, t).value, s.workers[t];
            if w.Naming? && p == InJob(t, |w.job.numbers|) then NumberAt(n, p) == Some(|s.issued|)
            else NumberAt(n, p).None? || NumberAt(n, p) == NumberAt(s, Origin(s, t, p))
    ensures var n, w := Step(s, t).value, s.workers[t];
            w.Busy? && |w.job.numbers| >= s.need ==> NumberAt(n, InJob(t, p.k)).None?
    ensures |Step(s, t).value.issued| == |s.issued| + if s.workers[t].Naming? then 1 else 0
  {
    assert WorkerOk(s, s.workers[t]);
    StepOwn(s, t);
    if p.InJob? && p.t < |s.workers| && p.t != t {
      StepOther(s, t, p.t);
    }
  }

  lemma StepDistinct(s: System, t: nat)
    requires t < |s.workers| && Inv(s) && Step(s, t).Some? && NumbersDistinct(s)
    ensures NumbersDistinct(Step(s, t).value)
  {
    var n := Step(s, t).value;
    forall p | NumberAt(n, p).Some? ensures NumberAt(n, p).value < |n.issued| {
      StepNumberAt(s, t, p);
    }
    forall p, q | NumberAt(n, p).Some? && p != q ensures NumberAt(n, p) != NumberAt(n, q) {
      StepNumberAt(s, t, p);
      StepNumberAt(s, t, q);
    }
  }

  lemma {:induction false} RunDistinct(s: System, schedule: seq<nat>)
    requires Inv(s) && NumbersDistinct(s) && Run(s, schedule).Some?
    ensures NumbersDistinct(Run(s, schedule).value)
    decreases |schedule|
  {
    if schedule != [] {
      StepInv(s, schedule[0]);
      StepDistinct(s, schedule[0]);
      RunDistinct(Step(s, schedule[0]).value, schedule[1..]);
    }
  }

  // ---------------------------------------------------------------- the theorem

  lemma {:induction false} RanksReady(threads: nat, need: nat)
    ensures Ranks(seq(threads, i => Ready), need) == 4 * threads
  {
    if threads > 0 {
      assert seq(threads, i => Ready)[1..] == seq(threads - 1, i => Ready);
      RanksReady(threads - 1, need);
    }
  }

  /** The job at `i` was done once, for its own bundle. */
  ghost predicate DoneOnce(s: System, i: nat)
    requires i < |s.work| == |s.outputs| == |s.writes|
  {
    s.writes[i] == 1 && s.outputs[i].Some? && s.outputs[i].value.bundle == s.work[i] &&
    |s.outputs[i].value.numbers| == s.need
  }

  /**
   * Under every schedule a run has the same bounded length; it is over exactly when every worker has finished, and
   * then each job was done once, for its own bundle, under names that nothing else got.
   */
  lemma EveryRun(work: seq<Bundle>, need: nat, threads: nat, schedule: seq<nat>)
    requires threads > 0 || work == []
    requires Run(Start(work, need, threads), schedule).Some?
    ensures var n, length := Run(Start(work, need, threads), schedule).value, (4 * need + 5) * |work| + 4 * threads;
            n.work == work && |n.outputs| == |n.writes| == |work| && |schedule| <= length &&
            (|schedule| == length <==> AllFinished(n)) && (AllFinished(n) <==> !exists t :: CanStep(n, t)) &&
            (AllFinished(n) ==> forall i :: 0 <= i < |work| ==> DoneOnce(n, i)) &&
            NumbersDistinct(n) && forall k :: 0 <= k < |n.issued| ==> n.issued[k] == k
  {
    var s := Start(work, need, threads);
    var n := Run(s, schedule).value;
    StartInv(work, need, threads);
    RanksReady(threads, need);
    RunInv(s, schedule);
    RunDistinct(s, schedule);
    RemainingPositive(n);
    AtTheEnd(n);
  }

  lemma AtTheEnd(n: System)
    requires Inv(n) && (|n.workers| > 0 || n.work == [])
    ensures Remaining(n) == 0 <==> AllFinished(n)
    ensures AllFinished(n) <==> !exists t :: CanStep(n, t)
    ensures AllFinished(n) ==> forall i :: 0 <= i < |n.work| ==> DoneOnce(n, i)
  {
    NothingRemains(n);
    if AllFinished(n) {
      forall i | 0 <= i < |n.work| ensures DoneOnce(n, i) { AllDone(n, i); }
    } else {
      var t := NoDeadlock(n);
    }
  }

  lemma NothingRemains(n: System)
    requires Inv(n) && (|n.workers| > 0 || n.work == [])
    ensures Remaining(n) == 0 <==> AllFinished(n)
  {
    forall t | 0 <= t < |n.workers| ensures RankOk(n.workers[t], n.need) { assert WorkerOk(n, n.workers[t]); }
    RanksPositive(n.workers, n.need);
    assert (4 * n.need + 5) * (|n.work| - n.widex) >= |n.work| - n.widex;
    if AllFinished(n) {
      if |n.workers| > 0 {
        assert WorkerOk(n, n.workers[0]);
      }
      RanksFinished(n.workers, n.need);
    }
  }

  lemma AllDone(n: System, i: nat)
    requires Inv(n) && AllFinished(n) && i < |n.work| && |n.workers| > 0
    ensures DoneOnce(n, i)
  {
    assert WorkerOk(n, n.workers[0]);
    assert SlotOk(n, i);
    assert !Claimed(n, i);
  }

  lemma {:induction false} RanksFinished(workers: seq<Worker>, need: nat)
    requires forall t :: 0 <= t < |workers| ==> workers[t].Finished?
    ensures Ranks(workers, need) == 0
  {
    if workers != [] {
      RanksFinished(workers[1..], need);
    }
  }
}
