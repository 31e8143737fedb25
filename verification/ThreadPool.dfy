/**
  The thread pool as a labelled transition system (thread-pool.cpp, thread.cpp,
  semaphore.cpp). A step is one critical section or one private action of one
  thread; steps of different threads interleave arbitrarily. The main thread
  constructs the pool, later destroys it; clients may add jobs at any time.
 */
module ThreadPool {

  datatype Job = Work(id: int) | Exit

  /**
    Where a worker is. `Looping` is about to enter the critical section of
    threadGetNextJob_; `Sleeping` is inside the condition wait; `Notified` has
    been chosen by notify_one and will re-enter the critical section.
   */
  datatype Worker =
    | Unborn
    | Starting
    | Looping
    | Sleeping
    | Notified
    | Running(id: int)
    | Leaving
    | Gone

  /** Semaphore wait of the main thread: about to test the counter, or asleep on its condition. */
  datatype Wait = Testing | Blocked

  /** Where the main thread is. */
  datatype Main =
    | Creating(next: nat)
    | AwaitStart(thread: nat, wait: Wait)
    | Serving
    | Stopping(sent: nat)
    | AwaitExit(thread: nat, wait: Wait)
    | Done

  datatype State = State(
    queue: seq<Job>,
    workers: seq<Worker>,
    counts: seq<nat>,
    main: Main,
    pushed: seq<Job>,
    taken: seq<Job>,
    finished: multiset<int>)

  /** notify_one moves one sleeper, if there is one, to Notified. */
  datatype Wake = Nobody | Wakes(w: nat)

  datatype Step =
    | Spawn
    | Started(w: nat)
    | MainTest
    | MainSpurious
    | Add(id: int, wake: Wake)
    | Take(w: nat)
    | Sleep(w: nat)
    | Spurious(w: nat)
    | Finish(w: nat)
    | Leave(w: nat)
    | Destroy
    | SendExit(wake: Wake)

  function Init(n: nat): State {
    State([], seq(n, _ => Unborn), seq(n, _ => 0), if n == 0 then Serving else Creating(0), [], [], multiset{})
  }

  predicate WakeOk(s: State, wake: Wake) {
    match wake
    case Nobody => forall w :: 0 <= w < |s.workers| ==> s.workers[w] != Sleeping
    case Wakes(w) => w < |s.workers| && s.workers[w] == Sleeping
  }

  predicate Shape(s: State) {
    && |s.workers| == |s.counts|
    && (s.main.Creating? ==> s.main.next < |s.workers|)
    && (s.main.AwaitStart? ==> s.main.thread < |s.workers|)
    && (s.main.Stopping? ==> s.main.sent < |s.workers|)
    && (s.main.AwaitExit? ==> s.main.thread < |s.workers|)
  }

  predicate Enabled(s: State, step: Step)
    requires Shape(s)
  {
    match step
    case Spawn => s.main.Creating?
    case Started(w) => w < |s.workers| && s.workers[w] == Starting
    case MainTest =>
      (s.main.AwaitStart? || s.main.AwaitExit?) && s.main.wait == Testing
    case MainSpurious =>
      (s.main.AwaitStart? || s.main.AwaitExit?) && s.main.wait == Blocked
    case Add(_, wake) => !s.main.Done? && WakeOk(s, wake)
    case Take(w) =>
      w < |s.workers| && (s.workers[w] == Looping || s.workers[w] == Notified) && s.queue != []
    case Sleep(w) =>
      w < |s.workers| && (s.workers[w] == Looping || s.workers[w] == Notified) && s.queue == []
    case Spurious(w) => w < |s.workers| && s.workers[w] == Sleeping
    case Finish(w) => w < |s.workers| && s.workers[w].Running?
    case Leave(w) => w < |s.workers| && s.workers[w] == Leaving
    case Destroy => s.main == Serving
    case SendExit(wake) => s.main.Stopping? && WakeOk(s, wake)
  }

  function SetWorker(s: State, w: nat, x: Worker): State
    requires w < |s.workers|
  {
    s.(workers := s.workers[w := x])
  }

  /** push_back and notify_one under the pool's mutex */
  function Push(s: State, job: Job, wake: Wake): State
    requires WakeOk(s, wake)
  {
    var t := s.(queue := s.queue + [job], pushed := s.pushed + [job]);
    match wake
    case Nobody => t
    case Wakes(w) => SetWorker(t, w, Notified)
  }

  /** Semaphore::notify by worker `w`: the counter rises and a blocked waiter wakes. */
  function Signal(s: State, w: nat): State
    requires Shape(s) && w < |s.counts|
  {
    var t := s.(counts := s.counts[w := s.counts[w] + 1]);
    match s.main
    case AwaitStart(k, Blocked) => if k == w then t.(main := AwaitStart(k, Testing)) else t
    case AwaitExit(k, Blocked) => if k == w then t.(main := AwaitExit(k, Testing)) else t
    case _ => t
  }

  /** One turn of the loop in Semaphore::wait. */
  function Test(s: State): State
    requires Shape(s) && Enabled(s, MainTest)
  {
    var k, n := s.main.thread, |s.workers|;
    if s.counts[k] == 0 then s.(main := s.main.(wait := Blocked)) else
      var t := s.(counts := s.counts[k := s.counts[k] - 1]);
      if s.main.AwaitStart? then t.(main := if k + 1 < n then Creating(k + 1) else Serving)
      else t.(main := if k + 1 < n then AwaitExit(k + 1, Testing) else Done)
  }

  function Do(s: State, step: Step): State
    requires Shape(s) && Enabled(s, step)
  {
    match step
    case Spawn => SetWorker(s, s.main.next, Starting).(main := AwaitStart(s.main.next, Testing))
    case Started(w) => Signal(SetWorker(s, w, Looping), w)
    case MainTest => Test(s)
    case MainSpurious => s.(main := s.main.(wait := Testing))
    case Add(id, wake) => Push(s, Work(id), wake)
    case Take(w) =>
      var job := s.queue[0];
      SetWorker(s, w, if job.Exit? then Leaving else Running(job.id)).(
        queue := s.queue[1..], taken := s.taken + [job])
    case Sleep(w) => SetWorker(s, w, Sleeping)
    case Spurious(w) => SetWorker(s, w, Looping)
    case Finish(w) => SetWorker(s, w, Looping).(finished := s.finished + multiset{s.workers[w].id})
    case Leave(w) => Signal(SetWorker(s, w, Gone), w)
    case Destroy => s.(main := if |s.workers| == 0 then Done else Stopping(0))
    case SendExit(wake) =>
      Push(s, Exit, wake).(main := if s.main.sent + 1 < |s.workers| then Stopping(s.main.sent + 1)
                                   else AwaitExit(0, Testing))
  }

  // ---------- counting ----------

  function Count(ws: seq<Worker>, f: Worker -> nat): nat {
    if ws == [] then 0 else f(ws[0]) + Count(ws[1..], f)
  }

  lemma {:induction false} CountUpdate(ws: seq<Worker>, w: nat, x: Worker, f: Worker -> nat)
    requires w < |ws|
    ensures Count(ws[w := x], f) == Count(ws, f) - f(ws[w]) + f(x)
    decreases |ws|
  {
    if w == 0 {
      assert ws[w := x][1..] == ws[1..];
    } else {
      CountUpdate(ws[1..], w - 1, x, f);
      assert ws[w := x][1..] == ws[1..][w - 1 := x];
    }
  }

  lemma {:induction false} CountZero(ws: seq<Worker>, f: Worker -> nat)
    requires forall w :: 0 <= w < |ws| ==> f(ws[w]) == 0
    ensures Count(ws, f) == 0
    decreases |ws|
  {
    if ws != [] {
      CountZero(ws[1..], f);
    }
  }

  /** If every worker counts at most one and the total is the number of workers, each counts one. */
  lemma {:induction false} CountAll(ws: seq<Worker>, f: Worker -> nat)
    requires forall w :: 0 <= w < |ws| ==> f(ws[w]) <= 1
    ensures Count(ws, f) <= |ws|
    ensures Count(ws, f) == |ws| ==> forall w :: 0 <= w < |ws| ==> f(ws[w]) == 1
    decreases |ws|
  {
    if ws != [] {
      CountAll(ws[1..], f);
      if Count(ws, f) == |ws| {
        forall w | 0 <= w < |ws| ensures f(ws[w]) == 1 {
          if w > 0 {
            assert ws[w] == ws[1..][w - 1];
          }
        }
      }
    }
  }

  function NotifiedOne(w: Worker): nat { if w == Notified then 1 else 0 }
  function ExitTaken(w: Worker): nat { if w == Leaving || w == Gone then 1 else 0 }

  function Exits(jobs: seq<Job>): nat {
    if jobs == [] then 0 else Exits(jobs[..|jobs| - 1]) + (if jobs[|jobs| - 1].Exit? then 1 else 0)
  }

  lemma ExitsSnoc(jobs: seq<Job>, job: Job)
    ensures Exits(jobs + [job]) == Exits(jobs) + if job.Exit? then 1 else 0
  {
    var all := jobs + [job];
    assert all[..|all| - 1] == jobs;
  }

  function Ids(jobs: seq<Job>): multiset<int> {
    if jobs == [] then multiset{}
    else Ids(jobs[..|jobs| - 1]) + (if jobs[|jobs| - 1].Exit? then multiset{} else multiset{jobs[|jobs| - 1].id})
  }

  lemma IdsSnoc(jobs: seq<Job>, job: Job)
    ensures Ids(jobs + [job]) == Ids(jobs) + if job.Exit? then multiset{} else multiset{job.id}
  {
    var all := jobs + [job];
    assert all[..|all| - 1] == jobs;
  }

  /** The jobs being run right now. */
  function InHand(ws: seq<Worker>): multiset<int> {
    if ws == [] then multiset{}
    else Held(ws[0]) + InHand(ws[1..])
  }

  function Held(x: Worker): multiset<int> {
    if x.Running? then multiset{x.id} else multiset{}
  }

  lemma {:induction false} InHandUpdate(ws: seq<Worker>, w: nat, x: Worker)
    requires w < |ws|
    ensures InHand(ws[w := x]) + Held(ws[w]) == InHand(ws) + Held(x)
    decreases |ws|
  {
    hide Held;
    if w == 0 {
      var rest := InHand(ws[1..]);
      assert ws[w := x][1..] == ws[1..];
      assert (Held(x) + rest) + Held(ws[0]) == (Held(ws[0]) + rest) + Held(x);
    } else {
      InHandUpdate(ws[1..], w - 1, x);
      assert ws[w := x][1..] == ws[1..][w - 1 := x];
      Regroup(Held(ws[0]), InHand(ws[1..][w - 1 := x]), Held(ws[w]), InHand(ws[1..]), Held(x));
    }
  }

  lemma Regroup(a: multiset<int>, b: multiset<int>, c: multiset<int>, d: multiset<int>, e: multiset<int>)
    requires b + c == d + e
    ensures (a + b) + c == (a + d) + e
  {
    assert (a + b) + c == a + (b + c);
    assert (a + d) + e == a + (d + e);
  }

  lemma {:induction false} InHandNone(ws: seq<Worker>)
    requires forall w :: 0 <= w < |ws| ==> !ws[w].Running?
    ensures InHand(ws) == multiset{}
    decreases |ws|
  {
    if ws != [] {
      InHandNone(ws[1..]);
    }
  }

  // ---------- the invariant ----------

  /** Whoever sleeps while work waits is covered by a notified worker. */
  predicate NoLostWakeup(s: State) {
    (exists w :: 0 <= w < |s.workers| && s.workers[w] == Sleeping)
    ==> |s.queue| <= Count(s.workers, NotifiedOne)
  }

  /** Exit jobs the main thread has pushed so far. */
  function Sent(s: State): nat {
    match s.main
    case Stopping(sent) => sent
    case AwaitExit(_, _) => |s.workers|
    case Done => |s.workers|
    case _ => 0
  }

  predicate Books(s: State) {
    && s.taken + s.queue == s.pushed
    && Exits(s.pushed) == Sent(s)
    && Exits(s.taken) == Count(s.workers, ExitTaken)
    && Ids(s.taken) == s.finished + InHand(s.workers)
  }

  /** Signals worker `w` has given: one when it starts, one when it leaves. */
  function Given(x: Worker): nat {
    if x == Unborn || x == Starting then 0 else if x == Gone then 2 else 1
  }

  /** Signals of worker `w` the main thread has consumed. */
  function Consumed(s: State, w: nat): nat {
    match s.main
    case Creating(next) => if w < next then 1 else 0
    case AwaitStart(k, _) => if w < k then 1 else 0
    case AwaitExit(k, _) => if w < k then 2 else 1
    case Done => 2
    case _ => 1
  }

  predicate Signals(s: State)
    requires Shape(s)
  {
    && (forall w :: 0 <= w < |s.workers| ==> s.counts[w] + Consumed(s, w) == Given(s.workers[w]))
    && (forall w :: 0 <= w < |s.workers| ==>
          (s.workers[w] == Unborn <==>
             (s.main.Creating? && w >= s.main.next) || (s.main.AwaitStart? && w > s.main.thread)))
    && ((s.main.AwaitStart? || s.main.AwaitExit?) && s.main.wait == Blocked ==> s.counts[s.main.thread] == 0)
  }

  predicate Inv(s: State) {
    Shape(s) && NoLostWakeup(s) && Books(s) && Signals(s)
  }

  lemma InitInv(n: nat)
    ensures Inv(Init(n))
  {
    var s := Init(n);
    CountZero(s.workers, ExitTaken);
    InHandNone(s.workers);
  }

  // ---------- every step keeps the invariant ----------

  lemma KeepsShape(s: State, step: Step)
    requires Shape(s) && Enabled(s, step)
    ensures Shape(Do(s, step))
  {
  }

  /** Pushing a job: either somebody is woken for it or nobody sleeps. */
  lemma PushNoLost(s: State, job: Job, wake: Wake)
    requires NoLostWakeup(s) && WakeOk(s, wake)
    ensures NoLostWakeup(Push(s, job, wake))
  {
    hide Count;
    match wake
    case Nobody =>
    case Wakes(w) => CountUpdate(s.workers, w, Notified, NotifiedOne);
  }

  lemma SetNoLost(s: State, w: nat, x: Worker)
    requires NoLostWakeup(s) && w < |s.workers|
    requires x != Sleeping && x != Notified && s.workers[w] != Notified
    ensures NoLostWakeup(SetWorker(s, w, x))
  {
    hide Count;
    CountUpdate(s.workers, w, x, NotifiedOne);
  }

  lemma TakeNoLost(s: State, w: nat)
    requires Shape(s) && NoLostWakeup(s) && Enabled(s, Take(w))
    ensures NoLostWakeup(Do(s, Take(w)))
  {
    hide Count;
    CountUpdate(s.workers, w, Do(s, Take(w)).workers[w], NotifiedOne);
  }

  lemma SleepNoLost(s: State, w: nat)
    requires Shape(s) && Enabled(s, Sleep(w))
    ensures NoLostWakeup(Do(s, Sleep(w)))
  {
    hide Count;
  }

  lemma SameNoLost(s: State, t: State)
    requires NoLostWakeup(s) && s.queue == t.queue && s.workers == t.workers
    ensures NoLostWakeup(t)
  {
  }

  lemma KeepsNoLost(s: State, step: Step)
    requires Inv(s) && Enabled(s, step)
    ensures NoLostWakeup(Do(s, step))
  {
    hide NoLostWakeup;
    hide Count;
    hide Books;
    match step
    case Spawn =>
      SetNoLost(s, s.main.next, Starting);
      SameNoLost(SetWorker(s, s.main.next, Starting), Do(s, step));
    case Started(w) =>
      SetNoLost(s, w, Looping);
      SameNoLost(SetWorker(s, w, Looping), Do(s, step));
    case MainTest => SameNoLost(s, Do(s, step));
    case MainSpurious => SameNoLost(s, Do(s, step));
    case Add(id, wake) => PushNoLost(s, Work(id), wake);
    case Take(w) => TakeNoLost(s, w);
    case Sleep(w) => SleepNoLost(s, w);
    case Spurious(w) => SetNoLost(s, w, Looping);
    case Finish(w) =>
      SetNoLost(s, w, Looping);
      SameNoLost(SetWorker(s, w, Looping), Do(s, step));
    case Leave(w) =>
      SetNoLost(s, w, Gone);
      SameNoLost(SetWorker(s, w, Gone), Do(s, step));
    case Destroy => SameNoLost(s, Do(s, step));
    case SendExit(wake) =>
      PushNoLost(s, Exit, wake);
      SameNoLost(Push(s, Exit, wake), Do(s, step));
  }

  /** The part of `Books` that does not mention the main thread. */
  predicate Ledger(s: State) {
    && s.taken + s.queue == s.pushed
    && Exits(s.taken) == Count(s.workers, ExitTaken)
    && Ids(s.taken) == s.finished + InHand(s.workers)
  }

  lemma SameLedger(s: State, t: State)
    requires Ledger(s) && s.queue == t.queue && s.workers == t.workers && s.pushed == t.pushed
    requires s.taken == t.taken && s.finished == t.finished
    ensures Ledger(t)
  {
  }

  lemma SetLedger(s: State, w: nat, x: Worker)
    requires Ledger(s) && w < |s.workers|
    requires !x.Running? && !s.workers[w].Running? && ExitTaken(x) == ExitTaken(s.workers[w])
    ensures Ledger(SetWorker(s, w, x))
  {
    hide Count;
    hide InHand;
    hide Exits;
    hide Ids;
    CountUpdate(s.workers, w, x, ExitTaken);
    InHandUpdate(s.workers, w, x);
    MultisetCancel(InHand(s.workers[w := x]), InHand(s.workers), Held(x));
  }

  lemma MultisetCancel(a: multiset<int>, b: multiset<int>, c: multiset<int>)
    requires a + c == b + c
    ensures a == b
  {
    assert a == (a + c) - c && b == (b + c) - c;
  }

  lemma PushLedger(s: State, job: Job, wake: Wake)
    requires Ledger(s) && WakeOk(s, wake)
    ensures Ledger(Push(s, job, wake)) && Push(s, job, wake).pushed == s.pushed + [job]
  {
    hide Count;
    hide InHand;
    hide Exits;
    hide Ids;
    var t := s.(queue := s.queue + [job], pushed := s.pushed + [job]);
    assert s.taken + (s.queue + [job]) == (s.taken + s.queue) + [job];
    match wake
    case Nobody =>
    case Wakes(w) => SetLedger(t, w, Notified);
  }

  lemma TakeLedger(s: State, w: nat)
    requires Shape(s) && Ledger(s) && Enabled(s, Take(w))
    ensures Ledger(Do(s, Take(w)))
  {
    hide Count;
    hide InHand;
    hide Exits;
    hide Ids;
    var job, t := s.queue[0], Do(s, Take(w));
    var x := t.workers[w];
    assert s.queue == [job] + s.queue[1..];
    assert t.taken + t.queue == s.taken + s.queue;
    ExitsSnoc(s.taken, job);
    IdsSnoc(s.taken, job);
    CountUpdate(s.workers, w, x, ExitTaken);
    InHandUpdate(s.workers, w, x);
    assert InHand(t.workers) + multiset{} == InHand(t.workers);
    assert s.finished + (InHand(s.workers) + Held(x)) == (s.finished + InHand(s.workers)) + Held(x);
  }

  lemma FinishLedger(s: State, w: nat)
    requires Shape(s) && Ledger(s) && Enabled(s, Finish(w))
    ensures Ledger(Do(s, Finish(w)))
  {
    hide Count;
    hide InHand;
    hide Exits;
    hide Ids;
    var t, id := Do(s, Finish(w)), s.workers[w].id;
    CountUpdate(s.workers, w, Looping, ExitTaken);
    InHandUpdate(s.workers, w, Looping);
    assert InHand(s.workers) + multiset{} == InHand(s.workers);
    assert t.finished + InHand(t.workers) == s.finished + (InHand(t.workers) + multiset{id});
  }

  lemma NextUnborn(s: State)
    requires Shape(s) && Signals(s) && s.main.Creating?
    ensures s.workers[s.main.next] == Unborn
  {
  }

  lemma SignalFrame(s: State, w: nat)
    requires Shape(s) && w < |s.counts| && Ledger(s)
    ensures Ledger(Signal(s, w))
  {
    hide Ledger;
    SameLedger(s, Signal(s, w));
  }

  lemma TestFrame(s: State)
    requires Shape(s) && Enabled(s, MainTest) && Ledger(s)
    ensures Ledger(Test(s))
  {
    hide Ledger;
    SameLedger(s, Test(s));
  }

  lemma KeepsLedger(s: State, step: Step)
    requires Shape(s) && Signals(s) && Ledger(s) && Enabled(s, step)
    ensures Ledger(Do(s, step))
  {
    hide Ledger;
    hide Signals;
    hide Signal;
    hide Test;
    hide Push;
    hide WakeOk;
    var t := Do(s, step);
    match step
    case Spawn =>
      NextUnborn(s);
      SetLedger(s, s.main.next, Starting);
      SameLedger(SetWorker(s, s.main.next, Starting), t);
    case Started(w) =>
      SetLedger(s, w, Looping);
      SignalFrame(SetWorker(s, w, Looping), w);
    case MainTest => TestFrame(s);
    case MainSpurious => SameLedger(s, t);
    case Add(id, wake) => PushLedger(s, Work(id), wake);
    case Take(w) => TakeLedger(s, w);
    case Sleep(w) => SetLedger(s, w, Sleeping);
    case Spurious(w) => SetLedger(s, w, Looping);
    case Finish(w) => FinishLedger(s, w);
    case Leave(w) =>
      SetLedger(s, w, Gone);
      SignalFrame(SetWorker(s, w, Gone), w);
    case Destroy => SameLedger(s, t);
    case SendExit(wake) =>
      PushLedger(s, Exit, wake);
      SameLedger(Push(s, Exit, wake), t);
  }

  lemma KeepsBooks(s: State, step: Step)
    requires Inv(s) && Enabled(s, step)
    ensures Books(Do(s, step))
  {
    hide Count;
    hide InHand;
    hide Exits;
    hide Ids;
    hide NoLostWakeup;
    hide Signals;
    hide Ledger;
    LedgerIs(s);
    LedgerIs(Do(s, step));
    KeepsLedger(s, step);
    match step
    case Add(id, _) => ExitsSnoc(s.pushed, Work(id));
    case SendExit(_) => ExitsSnoc(s.pushed, Exit);
    case _ =>
  }

  lemma LedgerIs(s: State)
    ensures Books(s) <==> Ledger(s) && Exits(s.pushed) == Sent(s)
  {
  }

  /** Steps of a worker that give no signal. */
  lemma SetSignals(s: State, w: nat, x: Worker)
    requires Shape(s) && Signals(s) && w < |s.workers|
    requires Given(x) == Given(s.workers[w]) && (x == Unborn <==> s.workers[w] == Unborn)
    ensures Signals(SetWorker(s, w, x))
  {
  }

  lemma SameSignals(s: State, t: State)
    requires Shape(s) && Signals(s) && s.workers == t.workers && s.counts == t.counts && s.main == t.main
    ensures Signals(t)
  {
  }

  /** A worker gives one more signal. */
  lemma SignalSignals(s: State, w: nat, x: Worker)
    requires Shape(s) && Signals(s) && w < |s.workers|
    requires Given(x) == Given(s.workers[w]) + 1 && x != Unborn && s.workers[w] != Unborn
    ensures Signals(Signal(SetWorker(s, w, x), w))
  {
    var t := Signal(SetWorker(s, w, x), w);
    assert forall v :: 0 <= v < |s.workers| ==> Consumed(t, v) == Consumed(s, v);
  }

  lemma TestSignals(s: State)
    requires Shape(s) && Signals(s) && Enabled(s, MainTest)
    ensures Signals(Test(s))
  {
  }

  lemma PushSignals(s: State, job: Job, wake: Wake)
    requires Shape(s) && Signals(s) && WakeOk(s, wake)
    ensures Signals(Push(s, job, wake))
  {
    hide Signals;
    var t := s.(queue := s.queue + [job], pushed := s.pushed + [job]);
    SameSignals(s, t);
    match wake
    case Nobody =>
    case Wakes(w) => SetSignals(t, w, Notified);
  }

  lemma MainSignals(s: State, main: Main)
    requires Shape(s) && Signals(s) && Shape(s.(main := main))
    requires
      || (s.main == Serving && main.Stopping?)
      || (s.main == Serving && main.Done? && |s.workers| == 0)
      || (s.main.Stopping? && (main.Stopping? || main == AwaitExit(0, Testing)))
      || (s.main.AwaitStart? && main == AwaitStart(s.main.thread, Testing))
      || (s.main.AwaitExit? && main == AwaitExit(s.main.thread, Testing))
    ensures Signals(s.(main := main))
  {
  }

  lemma SpawnSignals(s: State)
    requires Shape(s) && Signals(s) && s.main.Creating?
    ensures Signals(Do(s, Spawn))
  {
  }

  lemma KeepsSignals(s: State, step: Step)
    requires Shape(s) && Signals(s) && Enabled(s, step)
    ensures Shape(Do(s, step)) && Signals(Do(s, step))
  {
    hide Signals;
    KeepsShape(s, step);
    var t := Do(s, step);
    match step
    case Spawn => SpawnSignals(s);
    case Started(w) => SignalSignals(s, w, Looping);
    case MainTest => TestSignals(s);
    case MainSpurious => MainSignals(s, t.main);
    case Add(id, wake) => PushSignals(s, Work(id), wake);
    case Take(w) =>
      SetSignals(s, w, t.workers[w]);
      SameSignals(SetWorker(s, w, t.workers[w]), t);
    case Sleep(w) => SetSignals(s, w, Sleeping);
    case Spurious(w) => SetSignals(s, w, Looping);
    case Finish(w) =>
      SetSignals(s, w, Looping);
      SameSignals(SetWorker(s, w, Looping), t);
    case Leave(w) => SignalSignals(s, w, Gone);
    case Destroy => MainSignals(s, t.main);
    case SendExit(wake) =>
      PushSignals(s, Exit, wake);
      MainSignals(Push(s, Exit, wake), t.main);
  }

  lemma KeepsInv(s: State, step: Step)
    requires Inv(s) && Enabled(s, step)
    ensures Inv(Do(s, step))
  {
    hide NoLostWakeup;
    hide Books;
    hide Signals;
    hide Do;
    KeepsNoLost(s, step);
    KeepsBooks(s, step);
    KeepsSignals(s, step);
  }

  // ---------- runs ----------

  predicate ValidRun(s: State, steps: seq<Step>)
    decreases |steps|
  {
    steps == [] || (Shape(s) && Enabled(s, steps[0]) && ValidRun(Do(s, steps[0]), steps[1..]))
  }

  function Run(s: State, steps: seq<Step>): State
    requires ValidRun(s, steps)
    decreases |steps|
  {
    if steps == [] then s else Run(Do(s, steps[0]), steps[1..])
  }

  lemma {:induction false} RunKeepsInv(s: State, steps: seq<Step>)
    requires Inv(s) && ValidRun(s, steps)
    ensures Inv(Run(s, steps))
    decreases |steps|
  {
    hide Inv;
    hide Do;
    hide Enabled;
    hide Shape;
    if steps != [] {
      InvShape(s);
      KeepsInv(s, steps[0]);
      RunKeepsInv(Do(s, steps[0]), steps[1..]);
    }
  }

  lemma InvShape(s: State)
    requires Inv(s)
    ensures Shape(s)
  {
  }

  lemma Reachable(n: nat, steps: seq<Step>)
    requires ValidRun(Init(n), steps)
    ensures Inv(Run(Init(n), steps))
  {
    hide Inv;
    hide Init;
    InitInv(n);
    RunKeepsInv(Init(n), steps);
  }

  /** No lost wake-up: in every reachable state, a worker may sleep while jobs wait only if others are on their way. */
  lemma NoWorkerSleepsThroughWork(n: nat, steps: seq<Step>)
    requires ValidRun(Init(n), steps)
    ensures var s := Run(Init(n), steps);
            (exists w :: 0 <= w < |s.workers| && s.workers[w] == Sleeping) && s.queue != [] ==>
            |s.queue| <= Count(s.workers, NotifiedOne)
            && exists w :: 0 <= w < |s.workers| && s.workers[w] == Notified
  {
    hide Init;
    hide Run;
    hide ValidRun;
    hide Books;
    hide Signals;
    Reachable(n, steps);
    var s := Run(Init(n), steps);
    if forall w :: 0 <= w < |s.workers| ==> s.workers[w] != Notified {
      CountZero(s.workers, NotifiedOne);
    }
  }

  /** Jobs are taken once each, in the order in which they were pushed. */
  lemma TakenInOrder(n: nat, steps: seq<Step>)
    requires ValidRun(Init(n), steps)
    ensures var s := Run(Init(n), steps);
            |s.taken| <= |s.pushed| && s.taken == s.pushed[..|s.taken|] && s.queue == s.pushed[|s.taken|..]
            && Ids(s.taken) == s.finished + InHand(s.workers)
  {
    hide Init;
    hide Run;
    hide ValidRun;
    hide Ids;
    hide InHand;
    hide Exits;
    hide Count;
    Reachable(n, steps);
  }

  lemma {:induction false} ExitsPrefix(jobs: seq<Job>, k: nat, i: nat)
    requires k <= i < |jobs| && jobs[i].Exit?
    ensures Exits(jobs[..k]) < Exits(jobs)
    decreases |jobs|
  {
    var last := |jobs| - 1;
    if i == last {
      if k == last {
        assert jobs[..k] == jobs[..last];
      } else {
        ExitsMonotone(jobs[..last], k);
        assert jobs[..last][..k] == jobs[..k];
      }
    } else {
      ExitsPrefix(jobs[..last], k, i);
      assert jobs[..last][..k] == jobs[..k];
    }
  }

  lemma {:induction false} ExitsMonotone(jobs: seq<Job>, k: nat)
    requires k <= |jobs|
    ensures Exits(jobs[..k]) <= Exits(jobs)
    decreases |jobs|
  {
    if k == |jobs| {
      assert jobs[..k] == jobs;
    } else {
      ExitsMonotone(jobs[..|jobs| - 1], k);
      assert jobs[..|jobs| - 1][..k] == jobs[..k];
    }
  }

  lemma DoneGone(s: State)
    requires Inv(s) && s.main == Done
    ensures forall w :: 0 <= w < |s.workers| ==> s.workers[w] == Gone
    ensures Exits(s.taken) == Exits(s.pushed)
  {
    hide NoLostWakeup;
    hide Exits;
    hide Ids;
    forall w | 0 <= w < |s.workers| ensures s.workers[w] == Gone {
      assert s.counts[w] + Consumed(s, w) == Given(s.workers[w]);
    }
    CountGone(s.workers);
  }

  lemma {:induction false} CountGone(ws: seq<Worker>)
    requires forall w :: 0 <= w < |ws| ==> ws[w] == Gone
    ensures Count(ws, ExitTaken) == |ws|
    decreases |ws|
  {
    if ws != [] {
      CountGone(ws[1..]);
    }
  }

  /** The destructor's semaphore wait succeeds only on the exit signal of that very worker. */
  lemma ExitSignal(n: nat, steps: seq<Step>)
    requires ValidRun(Init(n), steps) && Run(Init(n), steps).main.AwaitExit?
    ensures var s := Run(Init(n), steps);
            var k := s.main.thread;
            k < |s.workers| == |s.counts| && (s.counts[k] > 0 <==> s.workers[k] == Gone)
  {
    hide Init;
    hide Run;
    hide ValidRun;
    hide NoLostWakeup;
    hide Books;
    Reachable(n, steps);
    var s := Run(Init(n), steps);
    assert s.counts[s.main.thread] + Consumed(s, s.main.thread) == Given(s.workers[s.main.thread]);
    assert s.workers[s.main.thread] != Unborn;
  }

  /**
    Shutdown drains the queue: when the destructor has returned, every worker is
    gone, every job pushed before some exit job has been taken, and every job
    taken has been finished.
   */
  lemma ShutdownDrains(n: nat, steps: seq<Step>)
    requires ValidRun(Init(n), steps) && Run(Init(n), steps).main == Done
    ensures var s := Run(Init(n), steps);
            && (forall w :: 0 <= w < |s.workers| ==> s.workers[w] == Gone)
            && Exits(s.taken) == |s.workers|
            && (forall i, k :: 0 <= i <= k < |s.pushed| && s.pushed[k].Exit? ==>
                  i < |s.taken| && s.taken[i] == s.pushed[i])
            && s.finished == Ids(s.taken)
  {
    hide Init;
    hide Run;
    hide ValidRun;
    hide Ids;
    hide InHand;
    hide Exits;
    hide Count;
    hide NoLostWakeup;
    hide Signals;
    Reachable(n, steps);
    var s := Run(Init(n), steps);
    DoneGone(s);
    InHandNone(s.workers);
    assert s.taken == s.pushed[..|s.taken|];
    forall i, k | 0 <= i <= k < |s.pushed| && s.pushed[k].Exit?
      ensures i < |s.taken| && s.taken[i] == s.pushed[i]
    {
      if |s.taken| <= k {
        ExitsPrefix(s.pushed, |s.taken|, k);
      }
    }
  }

  // ---------- shutdown cannot get stuck and cannot run forever ----------

  /** Steps other than client calls and spurious wake-ups. */
  predicate Productive(step: Step) {
    !step.Add? && !step.Spurious? && !step.MainSpurious?
  }

  predicate Idle(x: Worker) {
    x == Sleeping || x == Gone || x == Unborn
  }

  lemma BusyMoves(s: State, w: nat) returns (step: Step)
    requires Shape(s) && w < |s.workers| && !Idle(s.workers[w])
    ensures Enabled(s, step) && Productive(step)
  {
    step := match s.workers[w]
      case Starting => Started(w)
      case Running(_) => Finish(w)
      case Leaving => Leave(w)
      case _ => if s.queue == [] then Sleep(w) else Take(w);
  }

  /** While the destructor waits for a worker, not all workers are idle. */
  lemma SomeoneBusy(s: State)
    requires Inv(s) && s.main.AwaitExit? && s.main.wait == Blocked
    ensures exists w :: 0 <= w < |s.workers| && !Idle(s.workers[w])
  {
    hide Exits;
    hide Ids;
    hide Count;
    hide InHand;
    if forall w :: 0 <= w < |s.workers| ==> Idle(s.workers[w]) {
      var k := s.main.thread;
      assert s.counts[k] + Consumed(s, k) == Given(s.workers[k]);
      assert s.workers[k] == Sleeping;
      CountZero(s.workers, NotifiedOne);
      assert s.taken + [] == s.taken;
      CountAll(s.workers, ExitTaken);
      assert false;
    }
  }

  /** No deadlock: unless the pool is idle or gone, some productive step is enabled. */
  lemma NoDeadlock(s: State) returns (step: Step)
    requires Inv(s) && s.main != Serving && s.main != Done
    ensures Enabled(s, step) && Productive(step)
  {
    hide NoLostWakeup;
    hide Books;
    match s.main
    case Creating(_) => step := Spawn;
    case Stopping(_) =>
      if w: nat :| w < |s.workers| && s.workers[w] == Sleeping {
        step := SendExit(Wakes(w));
      } else {
        step := SendExit(Nobody);
      }
    case AwaitStart(k, wait) =>
      if wait == Testing {
        step := MainTest;
      } else {
        assert s.counts[k] + Consumed(s, k) == Given(s.workers[k]);
        step := Started(k);
      }
    case AwaitExit(k, wait) =>
      if wait == Testing {
        step := MainTest;
      } else {
        SomeoneBusy(s);
        var w :| 0 <= w < |s.workers| && !Idle(s.workers[w]);
        step := BusyMoves(s, w);
      }
  }

  function Rank(x: Worker): nat {
    match x
    case Unborn => 7
    case Starting => 6
    case Running(_) => 4
    case Looping => 3
    case Notified => 3
    case Sleeping => 2
    case Leaving => 2
    case Gone => 0
  }

  function WaitRank(wait: Wait): nat { if wait == Testing then 1 else 0 }

  function MainRank(main: Main, n: nat): int {
    match main
    case Creating(k) => 8 * n + 3 + 3 * (n - k)
    case AwaitStart(k, wait) => 8 * n + 4 + 3 * (n - k - 1) + WaitRank(wait)
    case Serving => 8 * n + 3
    case Stopping(sent) => 2 * n + 2 + 6 * (n - sent)
    case AwaitExit(k, wait) => 2 * (n - k) + WaitRank(wait)
    case Done => 0
  }

  /** How much is left to do. */
  function Left(s: State): int {
    4 * |s.queue| + Count(s.workers, Rank) + MainRank(s.main, |s.workers|)
  }

  lemma LeftNonnegative(s: State)
    requires Shape(s)
    ensures Left(s) >= 0
  {
    hide Count;
  }

  lemma PushLeft(s: State, job: Job, wake: Wake)
    requires WakeOk(s, wake)
    ensures Left(Push(s, job, wake)) <= Left(s) + 5
    ensures Push(s, job, wake).main == s.main && |Push(s, job, wake).workers| == |s.workers|
  {
    hide Count;
    match wake
    case Nobody =>
    case Wakes(w) => CountUpdate(s.workers, w, Notified, Rank);
  }

  lemma SignalLeft(s: State, w: nat)
    requires Shape(s) && w < |s.counts|
    ensures Left(Signal(s, w)) <= Left(s) + 1
  {
    hide Count;
  }

  lemma SetLeft(s: State, w: nat, x: Worker)
    requires w < |s.workers|
    ensures Left(SetWorker(s, w, x)) == Left(s) - Rank(s.workers[w]) + Rank(x)
  {
    hide Count;
    hide Rank;
    hide MainRank;
    CountUpdate(s.workers, w, x, Rank);
  }

  lemma TestLeft(s: State)
    requires Shape(s) && Enabled(s, MainTest)
    ensures Left(Test(s)) < Left(s)
  {
    hide Count;
  }

  lemma MainLeft(s: State, main: Main)
    ensures Left(s.(main := main)) == Left(s) - MainRank(s.main, |s.workers|) + MainRank(main, |s.workers|)
  {
    hide Count;
    hide MainRank;
  }

  lemma TakeLeft(s: State, w: nat)
    requires Shape(s) && Enabled(s, Take(w))
    ensures Left(Do(s, Take(w))) < Left(s)
  {
    hide Count;
    hide MainRank;
    var job := s.queue[0];
    var x := if job.Exit? then Leaving else Running(job.id);
    CountUpdate(s.workers, w, x, Rank);
  }

  /** Every productive step leaves less to do; the others add a bounded amount. */
  lemma StepLeft(s: State, step: Step)
    requires Shape(s) && Signals(s) && Enabled(s, step)
    ensures Left(Do(s, step)) <= Left(s) + if Productive(step) then -1 else 5
  {
    hide Left;
    hide Signals;
    hide Signal;
    hide Push;
    hide Test;
    hide WakeOk;
    var t := Do(s, step);
    match step
    case Spawn =>
      NextUnborn(s);
      SetLeft(s, s.main.next, Starting);
      MainLeft(SetWorker(s, s.main.next, Starting), t.main);
    case Started(w) =>
      SetLeft(s, w, Looping);
      SignalLeft(SetWorker(s, w, Looping), w);
    case MainTest => TestLeft(s);
    case MainSpurious => MainLeft(s, t.main);
    case Add(id, wake) => PushLeft(s, Work(id), wake);
    case Take(w) => TakeLeft(s, w);
    case Sleep(w) => SetLeft(s, w, Sleeping);
    case Spurious(w) => SetLeft(s, w, Looping);
    case Finish(w) => FinishLeft(s, w);
    case Leave(w) =>
      SetLeft(s, w, Gone);
      SignalLeft(SetWorker(s, w, Gone), w);
    case Destroy => MainLeft(s, t.main);
    case SendExit(wake) =>
      PushLeft(s, Exit, wake);
      MainLeft(Push(s, Exit, wake), t.main);
  }

  lemma FinishLeft(s: State, w: nat)
    requires Shape(s) && Enabled(s, Finish(w))
    ensures Left(Do(s, Finish(w))) < Left(s)
  {
    hide Count;
    hide MainRank;
    CountUpdate(s.workers, w, Looping, Rank);
  }

  function ProductiveSteps(steps: seq<Step>): nat {
    if steps == [] then 0 else (if Productive(steps[0]) then 1 else 0) + ProductiveSteps(steps[1..])
  }

  /**
    Every run makes only as many productive steps as it has work to do, plus at
    most five for each job added and each spurious wake-up. Together with
    NoDeadlock: once clients stop adding jobs, the destructor returns.
   */
  lemma {:induction false} RunsAreBounded(s: State, steps: seq<Step>)
    requires Inv(s) && ValidRun(s, steps)
    ensures Left(Run(s, steps)) >= 0
    ensures ProductiveSteps(steps) + Left(Run(s, steps)) <= Left(s) + 5 * (|steps| - ProductiveSteps(steps))
    decreases |steps|
  {
    hide Do;
    hide Left;
    hide Enabled;
    hide NoLostWakeup;
    hide Books;
    hide Signals;
    if steps == [] {
      LeftNonnegative(s);
    } else {
      KeepsInv(s, steps[0]);
      StepLeft(s, steps[0]);
      RunsAreBounded(Do(s, steps[0]), steps[1..]);
    }
  }
}
