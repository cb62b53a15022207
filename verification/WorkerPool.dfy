/**
 * The worker pool that asks stores for quotes: workers share one index and fill one result
 * array, in any interleaving and with any calls failing.
 */
module WorkerPool {
  datatype Worker = Ready | Calling(index: nat) | Stopped | Rejected

  /** `result` is sparse: its keys are the indices assigned so far. `claims` lists indices in the order taken. */
  datatype Pool<R> = Pool(next: nat, result: map<nat, R>, workers: seq<Worker>, claims: seq<nat>)

  /** `Array.from({ length })` clamps a negative length to zero. */
  function WorkerCount(max: int, n: nat): nat {
    if max < 0 then 0 else if max < n then max else n
  }

  function Start<R>(max: int, n: nat): Pool<R> {
    Pool(0, map[], seq(WorkerCount(max, n), w => Ready), [])
  }

  datatype Event = Turn(w: nat) | Returns(w: nat) | Throws(w: nat)

  predicate Enabled<R>(p: Pool<R>, e: Event) {
    e.w < |p.workers| && match e
    case Turn(w) => p.workers[w].Ready?
    case _ => p.workers[e.w].Calling?
  }

  /** One synchronous stretch of one worker; `answers[i]` is what the call on value i resolves to. */
  function Next<R>(answers: seq<R>, p: Pool<R>, e: Event): Pool<R>
    requires Enabled(p, e) && forall w :: 0 <= w < |p.workers| && p.workers[w].Calling? ==> p.workers[w].index < |answers|
  {
    match e
    case Turn(w) =>
      if p.next < |answers| then Pool(p.next + 1, p.result, p.workers[w := Calling(p.next)], p.claims + [p.next])
      else p.(workers := p.workers[w := Stopped])
    case Returns(w) =>
      var index := p.workers[w].index;
      p.(result := p.result[index := answers[index]], workers := p.workers[w := Ready])
    case Throws(w) => p.(workers := p.workers[w := Rejected])
  }

  ghost predicate InRange<R>(n: nat, p: Pool<R>) {
    forall w :: 0 <= w < |p.workers| && p.workers[w].Calling? ==> p.workers[w].index < n
  }

  ghost predicate IsRun<R>(max: int, answers: seq<R>, pools: seq<Pool<R>>, events: seq<Event>) {
    && |pools| == |events| + 1 && pools[0] == Start(max, |answers|)
    && forall k :: 0 <= k < |events| ==>
         InRange(|answers|, pools[k]) && Enabled(pools[k], events[k]) && pools[k + 1] == Next(answers, pools[k], events[k])
  }

  /** The index is with a worker right now. */
  ghost predicate Held<R>(p: Pool<R>, i: nat) {
    exists w :: 0 <= w < |p.workers| && p.workers[w] == Calling(i)
  }

  ghost predicate AnyRejected<R>(p: Pool<R>) {
    exists w :: 0 <= w < |p.workers| && p.workers[w].Rejected?
  }

  /** `Promise.all(workers)` resolves. */
  ghost predicate Resolved<R>(p: Pool<R>) {
    forall w :: 0 <= w < |p.workers| ==> p.workers[w].Stopped?
  }

  ghost predicate Inv<R>(max: int, answers: seq<R>, p: Pool<R>) {
    && |p.workers| == WorkerCount(max, |answers|) && InRange(|answers|, p)
    && p.next == |p.claims| <= |answers| && (forall k :: 0 <= k < |p.claims| ==> p.claims[k] == k)
    && (forall w :: 0 <= w < |p.workers| && p.workers[w].Calling? ==> p.workers[w].index < p.next && p.workers[w].index !in p.result)
    && (forall v, w :: 0 <= v < w < |p.workers| && p.workers[v].Calling? && p.workers[w].Calling? ==>
          p.workers[v].index != p.workers[w].index)
    && (forall i :: i in p.result ==> i < p.next && p.result[i] == answers[i])
    && (AnyRejected(p) || forall i: nat :: i < p.next ==> i in p.result || Held(p, i))
    && (forall w :: 0 <= w < |p.workers| && p.workers[w].Stopped? ==> p.next == |answers|)
  }

  lemma TurnKeeps<R>(max: int, answers: seq<R>, p: Pool<R>, w: nat)
    requires Inv(max, answers, p) && Enabled(p, Turn(w))
    ensures Inv(max, answers, Next(answers, p, Turn(w)))
  {
    var q := Next(answers, p, Turn(w));
    Unheld(p, q, w);
    assert p.next < |answers| ==> q.workers[w] == Calling(p.next);
  }

  /** Changing one worker leaves what the others hold, and whether another was rejected. */
  lemma Unheld<R>(p: Pool<R>, q: Pool<R>, w: nat)
    requires w < |p.workers| == |q.workers| && q.workers == p.workers[w := q.workers[w]] && !p.workers[w].Rejected?
    ensures forall i: nat :: Held(p, i) && p.workers[w] != Calling(i) ==> Held(q, i)
    ensures AnyRejected(p) ==> AnyRejected(q)
    ensures AnyRejected(q) ==> AnyRejected(p) || q.workers[w].Rejected?
  {
    forall i: nat | Held(p, i) && p.workers[w] != Calling(i) ensures Held(q, i) {
      var v :| 0 <= v < |p.workers| && p.workers[v] == Calling(i);
      assert q.workers[v] == Calling(i);
    }
    if AnyRejected(p) {
      var v :| 0 <= v < |p.workers| && p.workers[v].Rejected?;
      assert q.workers[v].Rejected?;
    }
    if AnyRejected(q) {
      var v :| 0 <= v < |q.workers| && q.workers[v].Rejected?;
      assert v != w ==> p.workers[v].Rejected?;
    }
  }

  lemma AnswerKeeps<R>(max: int, answers: seq<R>, p: Pool<R>, e: Event)
    requires Inv(max, answers, p) && Enabled(p, e) && !e.Turn?
    ensures Inv(max, answers, Next(answers, p, e))
  {
    var q := Next(answers, p, e);
    Unheld(p, q, e.w);
    assert e.Throws? ==> q.workers[e.w].Rejected?;
  }

  lemma {:induction false} RunKeepsInv<R>(max: int, answers: seq<R>, pools: seq<Pool<R>>, events: seq<Event>, k: nat)
    requires IsRun(max, answers, pools, events) && k <= |events|
    ensures Inv(max, answers, pools[k])
  {
    if k > 0 {
      RunKeepsInv(max, answers, pools, events, k - 1);
      var p, e := pools[k - 1], events[k - 1];
      if e.Turn? {
        TurnKeeps(max, answers, p, e.w);
      } else {
        AnswerKeeps(max, answers, p, e);
      }
    }
  }

  /** The workers with a call under way. */
  function Busy(workers: seq<Worker>): set<nat> {
    set w: nat | w < |workers| && workers[w].Calling?
  }

  lemma {:induction false} BusyAtMostAll(workers: seq<Worker>)
    ensures |Busy(workers)| <= |workers|
  {
    if workers == [] {
      assert Busy(workers) == {};
    } else {
      var n := |workers| - 1;
      BusyAtMostAll(workers[..n]);
      assert Busy(workers) == Busy(workers[..n]) + if workers[n].Calling? then {n} else {};
    }
  }

  /**
   * In every interleaving each index is claimed once and in order, by one worker; there are `max` workers, but no more than
   * values and none for a negative `max`, and so many calls at most run at the same time, whether or not calls fail.
   */
  lemma EachIndexClaimedOnce<R>(max: int, answers: seq<R>, pools: seq<Pool<R>>, events: seq<Event>, k: nat)
    requires IsRun(max, answers, pools, events) && k <= |events|
    ensures |pools[k].claims| <= |answers| && forall i :: 0 <= i < |pools[k].claims| ==> pools[k].claims[i] == i
    ensures forall v, w :: 0 <= v < w < |pools[k].workers| && pools[k].workers[v].Calling? && pools[k].workers[w].Calling? ==>
              pools[k].workers[v].index != pools[k].workers[w].index
    ensures max < 0 ==> pools[k].workers == []
    ensures 0 <= max <= |answers| ==> |pools[k].workers| == max
    ensures max >= |answers| ==> |pools[k].workers| == |answers|
    ensures |set w: nat | w < |pools[k].workers| && pools[k].workers[w].Calling?| <= |pools[k].workers|
  {
    RunKeepsInv(max, answers, pools, events, k);
    BusyAtMostAll(pools[k].workers);
  }

  /** The array the pool returns: the answers in input order, with nothing missing. */
  ghost predicate IsMapped<R>(answers: seq<R>, result: map<nat, R>) {
    forall i: nat :: (i in result <==> i < |answers|) && (i < |answers| ==> result[i] == answers[i])
  }

  /** When the pool resolves, the result is the mapped input exactly if a worker was started or there was no input. */
  lemma ResolvedPoolsMap<R>(max: int, answers: seq<R>, pools: seq<Pool<R>>, events: seq<Event>)
    requires IsRun(max, answers, pools, events) && Resolved(pools[|events|])
    ensures IsMapped(answers, pools[|events|].result) <==> max >= 1 || answers == []
    ensures max < 1 ==> pools[|events|].result == map[]
  {
    RunKeepsInv(max, answers, pools, events, |events|);
    var p := pools[|events|];
    assert !AnyRejected(p) && forall i: nat :: !Held(p, i);
    if max >= 1 && answers != [] {
      assert p.workers[0].Stopped?;
    } else if answers != [] {
      NoWorkersNoSteps(max, answers, pools, events);
      assert 0 !in p.result;
    }
  }

  lemma NoWorkersNoSteps<R>(max: int, answers: seq<R>, pools: seq<Pool<R>>, events: seq<Event>)
    requires IsRun(max, answers, pools, events) && max < 1
    ensures events == [] && pools[0].result == map[]
  {
    if events != [] {
      assert false;
    }
  }

  // ----- Every run ends -----

  function Left(workers: seq<Worker>): nat {
    if workers == [] then 0
    else Left(workers[..|workers| - 1]) + match workers[|workers| - 1] case Ready => 1 case Calling(_) => 2 case _ => 0
  }

  lemma {:induction false} LeftReplaced(workers: seq<Worker>, w: nat, x: Worker)
    requires w < |workers|
    ensures Left(workers[w := x]) == Left(workers) - Left([workers[w]]) + Left([x])
  {
    var n := |workers| - 1;
    LeftOne(x);
    LeftOne(workers[w]);
    if w < n {
      assert workers[w := x][..n] == workers[..n][w := x];
      LeftReplaced(workers[..n], w, x);
    } else {
      assert workers[w := x][..n] == workers[..n];
    }
  }

  lemma {:induction false} LeftAtStart(n: nat)
    ensures Left(seq(n, w => Ready)) == n
  {
    if n > 0 {
      assert seq(n, w => Ready)[..n - 1] == seq(n - 1, w => Ready);
      LeftAtStart(n - 1);
    }
  }

  lemma StepUsesUp<R>(max: int, answers: seq<R>, p: Pool<R>, e: Event)
    requires Inv(max, answers, p) && Enabled(p, e)
    ensures var q := Next(answers, p, e);
            2 * (|answers| - q.next) + Left(q.workers) < 2 * (|answers| - p.next) + Left(p.workers)
  {
    var q := Next(answers, p, e);
    LeftReplaced(p.workers, e.w, q.workers[e.w]);
    LeftOne(p.workers[e.w]);
    LeftOne(q.workers[e.w]);
  }

  /** A run takes at most two steps per value and one per worker. */
  lemma {:induction false} RunsAreBounded<R>(max: int, answers: seq<R>, pools: seq<Pool<R>>, events: seq<Event>, k: nat)
    requires IsRun(max, answers, pools, events) && k <= |events|
    ensures pools[k].next <= |answers|
    ensures k + 2 * (|answers| - pools[k].next) + Left(pools[k].workers) <= 2 * |answers| + WorkerCount(max, |answers|)
  {
    RunKeepsInv(max, answers, pools, events, k);
    if k == 0 {
      LeftAtStart(WorkerCount(max, |answers|));
      assert pools[0].workers == seq(WorkerCount(max, |answers|), w => Ready);
    } else {
      RunsAreBounded(max, answers, pools, events, k - 1);
      RunKeepsInv(max, answers, pools, events, k - 1);
      StepUsesUp(max, answers, pools[k - 1], events[k - 1]);
    }
  }

  lemma LeftOne(x: Worker)
    ensures Left([x]) == match x case Ready => 1 case Calling(_) => 2 case _ => 0
  {
    assert [x][..0] == [];
  }

  /** A run can go on exactly while some worker has neither left its loop nor been rejected. */
  lemma StuckMeansOver<R>(p: Pool<R>)
    ensures (forall e :: !Enabled(p, e)) <==> forall w :: 0 <= w < |p.workers| ==> p.workers[w].Stopped? || p.workers[w].Rejected?
  {
    if w :| 0 <= w < |p.workers| && !p.workers[w].Stopped? && !p.workers[w].Rejected? {
      assert Enabled(p, if p.workers[w].Ready? then Turn(w) else Returns(w));
    }
  }

  // ----- The closure's variables -----

  class SharedPool<R> {
    const answers: seq<R>
    var next: nat
    var result: map<nat, R>
    ghost var claims: seq<nat>
    var workers: seq<Worker>

    ghost function Now(): Pool<R>
      reads this
    {
      Pool(next, result, workers, claims)
    }

    constructor (max: int, answers: seq<R>)
      ensures this.answers == answers && Now() == Start(max, |answers|)
    {
      this.answers := answers;
      next, result, claims, workers := 0, map[], [], seq(WorkerCount(max, |answers|), w => Ready);
    }

    /** The loop head: claim the next index, or leave the loop. */
    method TakeTurn(w: nat)
      requires Enabled(Now(), Turn(w)) && InRange(|answers|, Now())
      modifies this
      ensures Now() == Next(answers, old(Now()), Turn(w))
    {
      if next < |answers| {
        var index := next;
        next := next + 1;
        claims := claims + [index];
        workers := workers[w := Calling(index)];
      } else {
        workers := workers[w := Stopped];
      }
    }

    /** `result[index] = await fn(values[index])` once the call resolves. */
    method Store(w: nat)
      requires Enabled(Now(), Returns(w)) && InRange(|answers|, Now())
      modifies this
      ensures Now() == Next(answers, old(Now()), Returns(w))
    {
      var index := workers[w].index;
      result := result[index := answers[index]];
      workers := workers[w := Ready];
    }
  }
}
