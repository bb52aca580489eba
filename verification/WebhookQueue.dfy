/** The bounded queue of backend/internal/service/webhook_service.go: request handlers dispatch
    without blocking, one worker takes. Each channel operation is one atomic step. */
module WebhookQueue {
  import opened Basics

  datatype Job = Job(url: string, payload: string)

  const CAPACITY: nat := 1000

  // waiting is the channel; the other fields are the history of the run.
  datatype Queue = Queue(waiting: seq<Job>, taken: seq<Job>, dispatched: seq<Job>, dropped: nat)

  datatype Event = Dispatch(job: Job) | Take

  function Next(q: Queue, e: Event): Queue {
    match e
    case Dispatch(job) =>
      if job.url == "" then q
      else if |q.waiting| < CAPACITY then q.(waiting := q.waiting + [job], dispatched := q.dispatched + [job])
      else q.(dispatched := q.dispatched + [job], dropped := q.dropped + 1)
    case Take =>
      if q.waiting == [] then q else q.(waiting := q.waiting[1..], taken := q.taken + [q.waiting[0]])
  }

  class WebhookService {
    var queue: seq<Job>
    ghost var history: Queue

    ghost predicate Valid()
      reads this
    {
      history.waiting == queue
    }

    constructor ()
      ensures Valid() && history == Queue([], [], [], 0)
    {
      queue := [];
      history := Queue([], [], [], 0);
    }

    method Dispatch(job: Job)
      requires Valid()
      modifies this
      ensures Valid() && history == Next(old(history), Event.Dispatch(job))
    {
      history := Next(history, Event.Dispatch(job));
      if job.url == "" {
        return;
      }
      if |queue| < CAPACITY {
        queue := queue + [job];
      }
    }

    /** One turn of the worker; None while it has to wait. */
    method Take() returns (job: Option<Job>)
      requires Valid()
      modifies this
      ensures Valid() && history == Next(old(history), Event.Take)
      ensures job == if old(queue) == [] then None else Some(old(queue)[0])
    {
      history := Next(history, Event.Take);
      if queue == [] {
        return None;
      }
      job := Some(queue[0]);
      queue := queue[1..];
    }
  }

  function Run(es: seq<Event>): Queue {
    if es == [] then Queue([], [], [], 0) else Next(Run(es[..|es| - 1]), es[|es| - 1])
  }

  /** The jobs that the handlers of a run dispatch: all with an address, in order. */
  function Jobs(es: seq<Event>): seq<Job> {
    if es == [] then []
    else
      var front, last := es[..|es| - 1], es[|es| - 1];
      match last
      case Dispatch(job) => if job.url != "" then Jobs(front) + [job] else Jobs(front)
      case Take => Jobs(front)
  }

  lemma {:induction false} DispatchedAreJobs(es: seq<Event>)
    ensures Run(es).dispatched == Jobs(es)
  {
    if es != [] {
      DispatchedAreJobs(es[..|es| - 1]);
    }
  }

  /** at embeds part into whole, in order. */
  ghost predicate Embeds(at: seq<nat>, part: seq<Job>, whole: seq<Job>) {
    && |at| == |part|
    && (forall i :: 0 <= i < |at| ==> at[i] < |whole| && whole[at[i]] == part[i])
    && (forall i, j :: 0 <= i < j < |at| ==> at[i] < at[j])
  }

  lemma {:induction false} HistoryKept(es: seq<Event>) returns (at: seq<nat>)
    ensures var q := Run(es);
            && |q.waiting| <= CAPACITY
            && |q.dispatched| == |q.taken| + |q.waiting| + q.dropped
            && Embeds(at, q.taken + q.waiting, q.dispatched)
  {
    if es == [] {
      return [];
    }
    var q, e := Run(es[..|es| - 1]), es[|es| - 1];
    at := HistoryKept(es[..|es| - 1]);
    if e.Dispatch? && e.job.url != "" && |q.waiting| < CAPACITY {
      assert q.taken + (q.waiting + [e.job]) == q.taken + q.waiting + [e.job];
      at := at + [|q.dispatched|];
    } else if e.Take? && q.waiting != [] {
      assert q.taken + [q.waiting[0]] + q.waiting[1..] == q.taken + q.waiting;
    }
  }

  /** Over every interleaving: what the worker took and what waits is, in order, a selection of
      what was dispatched; nothing is duplicated or lost except what is counted as dropped. */
  lemma OrderKept(es: seq<Event>) returns (at: seq<nat>)
    ensures var q := Run(es);
            && |q.waiting| <= 1000
            && |Jobs(es)| == |q.taken| + |q.waiting| + q.dropped
            && Embeds(at, q.taken + q.waiting, Jobs(es))
  {
    DispatchedAreJobs(es);
    at := HistoryKept(es);
  }

  /** Some dispatch of the run met a full queue. */
  ghost predicate MetFull(es: seq<Event>) {
    exists i :: 0 <= i < |es| && es[i].Dispatch? && es[i].job.url != "" && |Run(es[..i]).waiting| == CAPACITY
  }

  /** The jobs that met a full queue. */
  function Refused(es: seq<Event>): nat {
    if es == [] then 0
    else
      var front, last := es[..|es| - 1], es[|es| - 1];
      Refused(front) + if last.Dispatch? && last.job.url != "" && |Run(front).waiting| >= 1000 then 1 else 0
  }

  /** Exactly the jobs that meet a full queue are dropped, and the worker's i-th turn with a job
      takes the oldest. */
  lemma {:induction false} DroppedAreRefused(es: seq<Event>)
    ensures Run(es).dropped == Refused(es)
    ensures Run(es + [Event.Take]).taken
         == Run(es).taken + (if Run(es).waiting == [] then [] else [Run(es).waiting[0]])
  {
    assert (es + [Event.Take])[..|es|] == es;
    if es != [] {
      DroppedAreRefused(es[..|es| - 1]);
    }
  }

  /** Nothing is lost exactly when no dispatch ever meets a full queue. */
  lemma {:induction false} LosslessExactly(es: seq<Event>)
    ensures Run(es).taken + Run(es).waiting == Jobs(es) <==> !MetFull(es)
  {
    var q := Run(es);
    var at := OrderKept(es);
    DispatchedAreJobs(es);
    DroppedExactly(es);
    if q.dropped == 0 {
      forall i | 0 <= i < |at| ensures at[i] == i {
        DenseIndices(at, |q.dispatched|, i);
      }
      assert q.taken + q.waiting == q.dispatched;
    } else {
      assert |q.taken + q.waiting| < |q.dispatched|;
    }
  }

  lemma {:induction false} DenseIndices(at: seq<nat>, n: nat, i: nat)
    requires |at| == n && i < n
    requires forall j :: 0 <= j < n ==> at[j] < n
    requires forall j, k :: 0 <= j < k < n ==> at[j] < at[k]
    ensures at[i] == i
  {
    AtLeast(at, i);
    AtMost(at, n, i);
  }

  lemma {:induction false} AtLeast(at: seq<nat>, i: nat)
    requires i < |at| && forall j, k :: 0 <= j < k < |at| ==> at[j] < at[k]
    ensures at[i] >= i
  {
    if i > 0 {
      AtLeast(at, i - 1);
    }
  }

  lemma {:induction false} AtMost(at: seq<nat>, n: nat, i: nat)
    requires i < |at| == n && at[n - 1] < n && forall j, k :: 0 <= j < k < |at| ==> at[j] < at[k]
    ensures at[i] <= i
    decreases n - i
  {
    if i < n - 1 {
      AtMost(at, n, i + 1);
    }
  }

  lemma {:induction false} DroppedExactly(es: seq<Event>)
    ensures Run(es).dropped == 0 <==> !MetFull(es)
  {
    if es != [] {
      var front, e := es[..|es| - 1], es[|es| - 1];
      DroppedExactly(front);
      var _ := OrderKept(front);
      assert forall i :: 0 <= i < |front| ==> front[..i] == es[..i];
    }
  }
}
