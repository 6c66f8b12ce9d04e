/**
 Resolve jobs as seen by their polls.  A query has an answer and an arrival time; a future
 is driven by a schedule, the sequence of times at which the executor polls it.
 */
module ResolveJobs {
  import opened Commons

  type Ip = nat

  datatype ResolveError = EmptyDomain | QueryFailed(code: nat)

  type Answer = Result<seq<Ip>, ResolveError>

  predicate NonEmpty(a: Answer) {
    a.Ok? && a.value != []
  }

  datatype Poll = Pending | Ready(answer: Answer)

  /** `taken` marks a query whose answer was handed out; such a query must not be polled again. */
  datatype Job =
    | Never
    | ErrorOnce(error: Option<ResolveError>)
    | Query(answer: Answer, arrival: nat, taken: bool)
  {
    predicate Pollable() {
      Query? ==> !taken
    }

    predicate ReadyBy(now: nat) {
      match this
      case Never => false
      case ErrorOnce(_) => true
      case Query(_, arrival, _) => arrival <= now
    }

    /** What the job answers once it is ready. */
    function Result(): Answer {
      match this
      case Never => Ok([])
      case ErrorOnce(Some(e)) => Err(e)
      case ErrorOnce(None) => Ok([])
      case Query(answer, _, _) => answer
    }

    function AfterReady(): Job {
      match this
      case Never => Never
      case ErrorOnce(_) => ErrorOnce(None)
      case Query(answer, arrival, _) => Query(answer, arrival, true)
    }

    function PollQuery(now: nat): (r: (Poll, Job))
      requires Pollable()
      ensures r.0.Ready? <==> ReadyBy(now)
      ensures r.0.Pending? ==> r.1 == this
      ensures r.0.Ready? ==> r.0.answer == Result() && (Query? ==> !r.1.Pollable())
      ensures Never? ==> r.0.Pending?
    {
      if ReadyBy(now) then (Ready(Result()), AfterReady()) else (Pending, this)
    }
  }

  ghost predicate FreshQuery(j: Job) {
    j.Query? && !j.taken
  }

  /** The first poll at or after `from` that finds the job ready, or the length of the schedule. */
  function FirstReady(j: Job, polls: seq<nat>, from: nat): (k: nat)
    requires from <= |polls|
    ensures from <= k <= |polls|
    ensures k < |polls| ==> j.ReadyBy(polls[k])
    ensures forall i :: from <= i < k ==> !j.ReadyBy(polls[i])
    decreases |polls| - from
  {
    if from == |polls| || j.ReadyBy(polls[from]) then from else FirstReady(j, polls, from + 1)
  }

  /** The first poll at or after `from` at which `deadline` has passed. */
  function FirstAfter(deadline: nat, polls: seq<nat>, from: nat): (k: nat)
    requires from <= |polls|
    ensures from <= k <= |polls|
    ensures k < |polls| ==> deadline <= polls[k]
    ensures forall i :: from <= i < k ==> polls[i] < deadline
    decreases |polls| - from
  {
    if from == |polls| || deadline <= polls[from] then from else FirstAfter(deadline, polls, from + 1)
  }

  /** Polls that found nothing can be skipped. */
  lemma SkipPending(j: Job, polls: seq<nat>, k: nat)
    requires k <= |polls| && forall i :: 0 <= i < k ==> !j.ReadyBy(polls[i])
    ensures FirstReady(j, polls, 0) == FirstReady(j, polls, k)
  {
  }

  // ----- Two racing queries -----

  datatype Choice = Undecided | Decided(second: bool, at: nat)

  /**
   Which query answers the first stage, and at which poll: the reference for the race.
   The first query is preferred on a tie; a non-empty second answer is held back until the
   first query answers or the resolution delay is over.
   */
  function Race(q1: Job, q2: Job, polls: seq<nat>, delay: nat): Choice {
    var i1 := FirstReady(q1, polls, 0);
    var i2 := FirstReady(q2, polls, 0);
    var end := |polls|;
    if i1 <= i2 then
      if i1 == end then Undecided
      else if q1.Result().Ok? then Decided(false, i1)
      else if i2 == end then Undecided else Decided(true, i2)
    else if !NonEmpty(q2.Result()) then
      if i1 == end then Undecided else Decided(false, i1)
    else
      var expired := FirstAfter(polls[i2] + delay, polls, i2);
      if i1 <= expired then
        if i1 == end then Undecided else Decided(q1.Result().Err?, i1)
      else Decided(true, expired)
  }

  /** The race when the first query is ready at poll `k` and nothing was before. */
  lemma RaceFirst(q1: Job, q2: Job, polls: seq<nat>, delay: nat, k: nat)
    requires k < |polls| && forall i :: 0 <= i < k ==> !q1.ReadyBy(polls[i]) && !q2.ReadyBy(polls[i])
    requires q1.ReadyBy(polls[k])
    ensures Race(q1, q2, polls, delay)
            == if q1.Result().Ok? then Decided(false, k) else DecidedAt(true, FirstReady(q2, polls, k), polls)
  {
    SkipPending(q1, polls, k);
    SkipPending(q2, polls, k);
  }

  /** The race when only the second query is ready at poll `k` and nothing was before. */
  lemma RaceSecond(q1: Job, q2: Job, polls: seq<nat>, delay: nat, k: nat)
    requires k < |polls| && forall i :: 0 <= i < k ==> !q1.ReadyBy(polls[i]) && !q2.ReadyBy(polls[i])
    requires !q1.ReadyBy(polls[k]) && q2.ReadyBy(polls[k])
    ensures var i1, expired := FirstReady(q1, polls, k), FirstAfter(polls[k] + delay, polls, k);
            Race(q1, q2, polls, delay) ==
            if NonEmpty(q2.Result()) && i1 > expired then Decided(true, expired)
            else DecidedAt(NonEmpty(q2.Result()) && q1.Result().Err?, i1, polls)
  {
    SkipPending(q1, polls, k);
    SkipPending(q2, polls, k);
  }

  function DecidedAt(second: bool, at: nat, polls: seq<nat>): Choice {
    if at < |polls| then Decided(second, at) else Undecided
  }

  ghost predicate Increasing(polls: seq<nat>) {
    forall i, j :: 0 <= i <= j < |polls| ==> polls[i] <= polls[j]
  }

  /** The second answer goes first only if the first query failed or missed the resolution delay. */
  lemma SecondOnlyWhenFirstFails(q1: Job, q2: Job, polls: seq<nat>, delay: nat)
    requires Increasing(polls)
    requires Race(q1, q2, polls, delay).Decided? && Race(q1, q2, polls, delay).second
    ensures
      var at := Race(q1, q2, polls, delay).at;
      var seen := FirstReady(q2, polls, 0);
      || (q1.Result().Err? && q1.ReadyBy(polls[at]))
      || (q2.Result().Ok? && q2.Result().value != [] && seen <= at && polls[seen] + delay <= polls[at] && !q1.ReadyBy(polls[at]))
  {
  }

  /** A first answer that is a success and in time for the delay always goes first. */
  lemma FirstInTimeGoesFirst(q1: Job, q2: Job, polls: seq<nat>, delay: nat)
    requires Increasing(polls) && FreshQuery(q1) && q1.answer.Ok?
    requires Race(q1, q2, polls, delay).Decided?
    requires FirstReady(q2, polls, 0) < |polls| ==> q1.arrival <= polls[FirstReady(q2, polls, 0)] + delay
    ensures !Race(q1, q2, polls, delay).second
  {
  }

  /** A schedule that outlasts both queries decides the race. */
  lemma RaceEnds(q1: Job, q2: Job, polls: seq<nat>, delay: nat)
    requires FreshQuery(q1) && FreshQuery(q2)
    requires polls != [] && q1.arrival <= polls[|polls| - 1] && q2.arrival <= polls[|polls| - 1]
    ensures Race(q1, q2, polls, delay).Decided?
  {
    assert FirstReady(q1, polls, 0) < |polls|;
    assert FirstReady(q2, polls, 0) < |polls|;
  }

  /**
   The first stage can answer at poll `k`: the first query has succeeded, or both have
   answered, or the second has had addresses for as long as the delay.
   */
  ghost predicate Decides(q1: Job, q2: Job, polls: seq<nat>, delay: nat, k: nat)
    requires k < |polls|
  {
    || (q1.ReadyBy(polls[k]) && (q1.Result().Ok? || q2.ReadyBy(polls[k])))
    || (q2.Result().Ok? && q2.Result().value != []
        && exists i :: 0 <= i <= k && q2.ReadyBy(polls[i]) && polls[i] + delay <= polls[k])
  }

  /** It answers at the first such poll, and at no poll only if there is none. */
  lemma RaceIsPrompt(q1: Job, q2: Job, polls: seq<nat>, delay: nat)
    requires FreshQuery(q1) && FreshQuery(q2) && Increasing(polls)
    ensures Race(q1, q2, polls, delay).Decided? <==> exists k :: 0 <= k < |polls| && Decides(q1, q2, polls, delay, k)
    ensures match Race(q1, q2, polls, delay)
            case Undecided => true
            case Decided(_, at) =>
              at < |polls| && Decides(q1, q2, polls, delay, at) && forall k :: 0 <= k < at ==> !Decides(q1, q2, polls, delay, k)
  {
    var race := Race(q1, q2, polls, delay);
    forall k | 0 <= k < |polls| ensures Decides(q1, q2, polls, delay, k) <==> race.Decided? && race.at <= k {
      DecidesBy(q1, q2, polls, delay, k);
    }
    if race.Decided? {
      assert Decides(q1, q2, polls, delay, race.at);
    }
  }

  lemma DecidesBy(q1: Job, q2: Job, polls: seq<nat>, delay: nat, k: nat)
    requires FreshQuery(q1) && FreshQuery(q2) && Increasing(polls) && k < |polls|
    ensures Decides(q1, q2, polls, delay, k) <==> Race(q1, q2, polls, delay).Decided? && Race(q1, q2, polls, delay).at <= k
  {
    var i1, i2 := FirstReady(q1, polls, 0), FirstReady(q2, polls, 0);
    assert q1.ReadyBy(polls[k]) <==> i1 <= k;
    assert q2.ReadyBy(polls[k]) <==> i2 <= k;
  }

  datatype QueryStrategy = Ipv4Only | Ipv4First | Ipv6Only | Ipv6First

  /** The choice of up to `count` addresses; any function that keeps the empty list empty. */
  type Picker = (seq<Ip>, nat) -> seq<Ip>

  /** What is handed out of an answer: a choice of its addresses, or its failure. */
  ghost function Picked(pick: Picker, a: Answer, count: nat): Answer {
    match a
    case Ok(addrs) => Ok(pick(addrs, count))
    case Err(e) => Err(e)
  }

  class HappyEyeballsResolveJob {
    const pick: Picker
    var r1: Option<seq<Ip>>
    var r2: Option<seq<Ip>>
    var h1: Job
    var h2: Job
    var h1Done: bool
    var h2Done: bool
    var r2Block: bool

    /** A job whose second query does not exist. */
    constructor Single(q1: Job, pick: Picker)
      requires FreshQuery(q1) && forall n :: pick([], n) == []
      ensures this.pick == pick && IsSingle(q1)
    {
      this.pick := pick;
      r1, r2, h1, h2 := None, None, q1, Never;
      h1Done, h2Done, r2Block := false, true, false;
    }

    /** A job that races two queries. */
    constructor Dual(q1: Job, q2: Job, pick: Picker)
      requires FreshQuery(q1) && FreshQuery(q2) && forall n :: pick([], n) == []
      ensures this.pick == pick && IsDual(q1, q2)
    {
      this.pick := pick;
      r1, r2, h1, h2 := None, None, q1, q2;
      h1Done, h2Done, r2Block := false, false, false;
    }

    /** A job answered from configured addresses: the preferred family goes first unless it is empty. */
    constructor Redirected(s: QueryStrategy, ip4: seq<Ip>, ip6: seq<Ip>, pick: Picker)
      requires forall n :: pick([], n) == []
      ensures this.pick == pick
      ensures s == Ipv4Only ==> IsRedirected(ip4, [])
      ensures s == Ipv6Only ==> IsRedirected(ip6, [])
      ensures s == Ipv4First ==> if ip4 == [] then IsRedirected(ip6, []) else IsRedirected(ip4, ip6)
      ensures s == Ipv6First ==> if ip6 == [] then IsRedirected(ip4, []) else IsRedirected(ip6, ip4)
    {
      this.pick := pick;
      h1, h2 := Never, Never;
      h1Done, h2Done, r2Block := true, true, false;
      match s
      case Ipv4Only =>
        r1, r2 := Some(ip4), Some([]);
      case Ipv4First =>
        if ip4 == [] {
          r1, r2 := Some(ip6), Some(ip4);
        } else {
          r1, r2 := Some(ip4), Some(ip6);
        }
      case Ipv6Only =>
        r1, r2 := Some(ip6), Some([]);
      case Ipv6First =>
        if ip6 == [] {
          r1, r2 := Some(ip4), Some(ip6);
        } else {
          r1, r2 := Some(ip6), Some(ip4);
        }
    }

    ghost predicate PickOk() {
      forall n :: pick([], n) == []
    }

    ghost predicate IsSingle(q1: Job)
      reads this
    {
      && PickOk() && FreshQuery(q1) && h1 == q1 && h2 == Never
      && r1 == None && r2 == None && !h1Done && h2Done && !r2Block
    }

    ghost predicate IsDual(q1: Job, q2: Job)
      reads this
    {
      && PickOk() && FreshQuery(q1) && FreshQuery(q2) && h1 == q1 && h2 == q2
      && r1 == None && r2 == None && !h1Done && !h2Done && !r2Block
    }

    ghost predicate IsRedirected(a1: seq<Ip>, a2: seq<Ip>)
      reads this
    {
      && PickOk() && h1 == Never && h2 == Never
      && r1 == Some(a1) && r2 == Some(a2) && h1Done && h2Done && !r2Block
    }

    /** The state between the two stages: at most one source of answers is left. */
    ghost predicate Between()
      reads this
    {
      && PickOk() && !r2Block && r1 == None && h1.Pollable() && h2.Pollable()
      && (r2.Some? ==> h1Done && h2Done)
      && (h1Done || h2Done) && (!h1Done ==> !h1.Never?) && (!h2Done ==> !h2.Never?)
    }

    /** What the second stage has left to deliver. */
    ghost function Remaining(): Answer
      reads this
    {
      if r2.Some? then Ok(r2.value)
      else if !h2Done then h2.Result()
      else if !h1Done then h1.Result()
      else Ok([])
    }

    ghost predicate RemainingBy(now: nat)
      reads this
    {
      r2.Some? || if !h2Done then h2.ReadyBy(now) else h1Done || h1.ReadyBy(now)
    }

    /** What remains is there once query `q` has arrived, and not before `q` was found ready by these or later polls. */
    ghost predicate RemainsAs(q: Job, polls: seq<nat>)
      reads this
    {
      forall now: nat ::
        && (q.ReadyBy(now) ==> RemainingBy(now))
        && (RemainingBy(now) ==> q.ReadyBy(now) || FirstReady(q, polls, 0) < |polls|)
    }

    /** Between the stages there is always something that answers in time: the second stage does not hang. */
    lemma BetweenAnswers() returns (t: nat)
      requires Between()
      ensures forall now: nat :: t <= now ==> RemainingBy(now)
    {
      t := if !h2Done && h2.Query? then h2.arrival else if !h1Done && h1.Query? then h1.arrival else 0;
    }

    /** Awaits the first query from poll `from` on. */
    method PollH1End(polls: seq<nat>, from: nat, count: nat) returns (p: Poll, k: nat)
      requires from <= |polls| && h1.Pollable()
      modifies this`h1, this`h1Done
      ensures k == FirstReady(old(h1), polls, from)
      ensures p.Pending? <==> k == |polls|
      ensures p.Pending? ==> h1 == old(h1) && h1Done == old(h1Done)
      ensures p.Ready? ==> p.answer == Picked(pick, old(h1).Result(), count) && h1 == Never && h1Done
    {
      k := from;
      while k < |polls|
        invariant from <= k <= |polls| && h1 == old(h1) && h1Done == old(h1Done)
        invariant forall i :: from <= i < k ==> !h1.ReadyBy(polls[i])
      {
        var (r, job) := h1.PollQuery(polls[k]);
        h1 := job;
        if r.Ready? {
          h1Done, h1 := true, Never;
          match r.answer {
            case Ok(addrs) => return Ready(Ok(pick(addrs, count))), k;
            case Err(e) => return Ready(Err(e)), k;
          }
        }
        k := k + 1;
      }
      p := Pending;
    }

    /** Awaits the second query from poll `from` on. */
    method PollH2End(polls: seq<nat>, from: nat, count: nat) returns (p: Poll, k: nat)
      requires from <= |polls| && h2.Pollable()
      modifies this`h2, this`h2Done
      ensures k == FirstReady(old(h2), polls, from)
      ensures p.Pending? <==> k == |polls|
      ensures p.Pending? ==> h2 == old(h2) && h2Done == old(h2Done)
      ensures p.Ready? ==> p.answer == Picked(pick, old(h2).Result(), count) && h2 == Never && h2Done
    {
      k := from;
      while k < |polls|
        invariant from <= k <= |polls| && h2 == old(h2) && h2Done == old(h2Done)
        invariant forall i :: from <= i < k ==> !h2.ReadyBy(polls[i])
      {
        var (r, job) := h2.PollQuery(polls[k]);
        h2 := job;
        if r.Ready? {
          h2Done, h2 := true, Never;
          match r.answer {
            case Ok(addrs) => return Ready(Ok(pick(addrs, count))), k;
            case Err(e) => return Ready(Err(e)), k;
          }
        }
        k := k + 1;
      }
      p := Pending;
    }

    /** A second answer is at hand: gives the first query until the delay is over. */
    method AwaitWithDelay(polls: seq<nat>, from: nat, delay: nat, r2': seq<Ip>, count: nat)
      returns (p: Poll, k: nat, ghost second: bool)
      requires from < |polls| && FreshQuery(h1) && !h1Done && r2' != []
      requires PickOk() && r1 == None && r2 == None && !r2Block && h2 == Never && h2Done
      modifies this`h1, this`h1Done, this`r2
      ensures
        var i1 := FirstReady(old(h1), polls, from);
        var expired := FirstAfter(polls[from] + delay, polls, from);
        && k == (if i1 <= expired then i1 else expired)
        && (p.Pending? <==> k == |polls|)
        && (p.Ready? ==> second == (i1 > expired || old(h1).answer.Err?))
      ensures p.Ready? ==> Between()
      ensures p.Ready? && !second ==> p.answer == Picked(pick, old(h1).answer, count) && Remaining() == Ok(r2')
      ensures p.Ready? && second ==> p.answer == Picked(pick, Ok(r2'), count) && Remaining() == old(h1).answer
      ensures p.Ready? && !second ==> forall now: nat :: RemainingBy(now)
      ensures p.Ready? && second ==> RemainsAs(old(h1), polls)
    {
      k := from;
      second := false;
      while k < |polls|
        invariant from <= k <= |polls| && h1 == old(h1) && !h1Done && r2 == None
        invariant forall i :: from <= i < k ==> !h1.ReadyBy(polls[i]) && polls[i] < polls[from] + delay
      {
        var (r, job) := h1.PollQuery(polls[k]);
        h1 := job;
        match r
        case Ready(Ok(a1)) =>
          r2 := Some(r2');
          h1Done, h1 := true, Never;
          return Ready(Ok(pick(a1, count))), k, false;
        case Ready(Err(e)) =>
          h1 := ErrorOnce(Some(e));
          return Ready(Ok(pick(r2', count))), k, true;
        case Pending =>
          if polls[from] + delay <= polls[k] {
            return Ready(Ok(pick(r2', count))), k, true;
          }
        k := k + 1;
      }
      p := Pending;
    }

    /** The first query was ready at poll `from`: its success goes first, after its failure the second query is awaited. */
    method TakeFirst(a: Answer, polls: seq<nat>, from: nat, count: nat, ghost q1: Job, ghost q2: Job)
      returns (p: Poll, k: nat, ghost second: bool)
      requires from < |polls| && FreshQuery(q1) && FreshQuery(q2) && a == q1.answer && q1.ReadyBy(polls[from])
      requires PickOk() && h2 == q2 && r1 == None && r2 == None && !h1Done && !h2Done && !r2Block
      modifies this
      ensures second == a.Err? && k == (if second then FirstReady(q2, polls, from) else from)
      ensures p.Ready? <==> k < |polls|
      ensures p.Ready? ==> Between()
      ensures p.Ready? && !second ==>
                p.answer == Picked(pick, q1.answer, count) && Remaining() == q2.answer && RemainsAs(q2, polls)
      ensures p.Ready? && second ==>
                p.answer == Picked(pick, q2.answer, count) && Remaining() == q1.answer && RemainsAs(q1, polls)
    {
      match a
      case Ok(a1) =>
        h1Done, h1 := true, Never;
        return Ready(Ok(pick(a1, count))), from, false;
      case Err(e) =>
        h1 := ErrorOnce(Some(e));
        second := true;
        p, k := PollH2End(polls, from, count);
    }

    /** The second query was ready at poll `from` and the first was not. */
    method TakeSecond(b: Answer, polls: seq<nat>, from: nat, delay: nat, count: nat, ghost q1: Job, ghost q2: Job)
      returns (p: Poll, k: nat, ghost second: bool)
      requires from < |polls| && FreshQuery(q1) && FreshQuery(q2) && b == q2.answer && q2.ReadyBy(polls[from])
      requires PickOk() && h1 == q1 && r1 == None && r2 == None && !h1Done && !h2Done && !r2Block
      modifies this
      ensures
        var i1, expired := FirstReady(q1, polls, from), FirstAfter(polls[from] + delay, polls, from);
        && k == (if NonEmpty(b) && i1 > expired then expired else i1)
        && (p.Ready? <==> k < |polls|)
        && (p.Ready? ==> second == (NonEmpty(b) && (i1 > expired || q1.answer.Err?)))
      ensures p.Ready? ==> Between()
      ensures p.Ready? && !second ==>
                p.answer == Picked(pick, q1.answer, count) && Remaining() == q2.answer && RemainsAs(q2, polls)
      ensures p.Ready? && second ==>
                p.answer == Picked(pick, q2.answer, count) && Remaining() == q1.answer && RemainsAs(q1, polls)
    {
      second := false;
      match b
      case Ok(a2) =>
        h2Done, h2 := true, Never;
        if a2 == [] {
          r2 := Some(a2);
          p, k := PollH1End(polls, from, count);
        } else {
          p, k, second := AwaitWithDelay(polls, from, delay, a2, count);
        }
      case Err(e) =>
        h2 := ErrorOnce(Some(e));
        p, k := PollH1End(polls, from, count);
    }

    /** Races both queries: each poll asks the first query, then the second. */
    method SelectFirst(polls: seq<nat>, delay: nat, count: nat) returns (p: Poll, k: nat, ghost second: bool)
      requires IsDual(h1, h2)
      modifies this
      ensures
        match Race(old(h1), old(h2), polls, delay)
        case Undecided => p.Pending?
        case Decided(s, at) => p.Ready? && k == at && second == s
      ensures p.Ready? ==> Between()
      ensures p.Ready? && !second ==>
                p.answer == Picked(pick, old(h1).answer, count) && Remaining() == old(h2).answer && RemainsAs(old(h2), polls)
      ensures p.Ready? && second ==>
                p.answer == Picked(pick, old(h2).answer, count) && Remaining() == old(h1).answer && RemainsAs(old(h1), polls)
    {
      ghost var q1, q2 := h1, h2;
      k := 0;
      second := false;
      while k < |polls|
        invariant 0 <= k <= |polls| && IsDual(q1, q2)
        invariant forall i :: 0 <= i < k ==> !q1.ReadyBy(polls[i]) && !q2.ReadyBy(polls[i])
      {
        var (a, job1) := h1.PollQuery(polls[k]);
        h1 := job1;
        if a.Ready? {
          RaceFirst(q1, q2, polls, delay, k);
          p, k, second := TakeFirst(a.answer, polls, k, count, q1, q2);
          return;
        }
        var (b, job2) := h2.PollQuery(polls[k]);
        h2 := job2;
        if b.Ready? {
          RaceSecond(q1, q2, polls, delay, k);
          p, k, second := TakeSecond(b.answer, polls, k, delay, count, q1, q2);
          return;
        }
        k := k + 1;
      }
      p := Pending;
    }

    /** The first stage. */
    method GetR1OrFirst(polls: seq<nat>, delay: nat, count: nat) returns (p: Poll, ghost second: bool)
      requires polls != []
      requires IsSingle(h1) || IsDual(h1, h2) || (r1.Some? && r2.Some? && IsRedirected(r1.value, r2.value))
      modifies this
      ensures p.Ready? ==> Between()
      ensures old(r1).Some? ==>
                && p == Ready(Ok(pick(old(r1).value, count))) && !second && Remaining() == Ok(old(r2).value)
                && forall now: nat :: RemainingBy(now)
      ensures old(IsSingle(h1)) ==>
                && (p.Ready? <==> FirstReady(old(h1), polls, 0) < |polls|) && !second
                && (p.Ready? ==> p.answer == Picked(pick, old(h1).answer, count) && Remaining() == Ok([]))
                && (p.Ready? ==> forall now: nat :: RemainingBy(now))
      ensures old(IsDual(h1, h2)) ==>
                && (p.Ready? <==> Race(old(h1), old(h2), polls, delay).Decided?)
                && (p.Ready? ==> second == Race(old(h1), old(h2), polls, delay).second)
      ensures old(IsDual(h1, h2)) && p.Ready? && !second ==>
                p.answer == Picked(pick, old(h1).answer, count) && Remaining() == old(h2).answer && RemainsAs(old(h2), polls)
      ensures old(IsDual(h1, h2)) && p.Ready? && second ==>
                p.answer == Picked(pick, old(h2).answer, count) && Remaining() == old(h1).answer && RemainsAs(old(h1), polls)
      ensures p.Ready? && old(r1).None? ==>
                match (if second then old(h2) else old(h1)).answer
                case Ok(addrs) => p.answer == Ok(pick(addrs, count))
                case Err(e) => p.answer == Err(e)
    {
      second := false;
      if r1.Some? {
        var a1 := r1.value;
        r1 := None;
        assert h1Done;
        return Ready(Ok(pick(a1, count))), false;
      }
      var k;
      if h2Done {
        p, k := PollH1End(polls, 0, count);
        return;
      }
      p, k, second := SelectFirst(polls, delay, count);
    }

    /** The second stage; once it has answered it stays pending for good. */
    method GetR2OrNever(polls: seq<nat>, count: nat) returns (p: Poll)
      requires polls != [] && (r2Block || Between())
      modifies this
      ensures old(r2Block) ==> p.Pending?
      ensures !old(r2Block) ==> (p.Ready? <==> exists i :: 0 <= i < |polls| && old(RemainingBy(polls[i])))
      ensures p.Ready? ==> r2Block
      ensures p.Ready? ==>
                match old(Remaining())
                case Ok(addrs) => p.answer == Ok(pick(addrs, count))
                case Err(e) => p.answer == Err(e)
      ensures p.Pending? ==>
                && r1 == old(r1) && r2 == old(r2) && h1 == old(h1) && h2 == old(h2)
                && h1Done == old(h1Done) && h2Done == old(h2Done) && r2Block == old(r2Block)
    {
      if r2Block {
        return Pending;
      }
      if r2.Some? {
        var a2 := r2.value;
        r2, r2Block := None, true;
        assert old(RemainingBy(polls[0]));
        return Ready(Ok(pick(a2, count)));
      }
      if h1Done && h2Done {
        r2Block := true;
        assert old(RemainingBy(polls[0]));
        return Ready(Ok([]));
      }
      for k := 0 to |polls|
        invariant r1 == old(r1) && r2 == old(r2) && h1 == old(h1) && h2 == old(h2)
        invariant h1Done == old(h1Done) && h2Done == old(h2Done) && !r2Block
        invariant forall i :: 0 <= i < k ==> !old(RemainingBy(polls[i]))
      {
        var r;
        if !h2Done {
          var (a, job) := h2.PollQuery(polls[k]);
          r, h2 := a, job;
        } else {
          var (a, job) := h1.PollQuery(polls[k]);
          r, h1 := a, job;
        }
        if r.Ready? {
          r2Block := true;
          assert old(RemainingBy(polls[k]));
          match r.answer {
            case Ok(addrs) => return Ready(Ok(pick(addrs, count)));
            case Err(e) => return Ready(Err(e));
          }
        }
      }
      p := Pending;
    }
  }

  /** A query request is refused or yields a query. */
  datatype Started = Started(query: Job) | Refused(error: ResolveError)

  /** Starts the queries the strategy asks for; the preferred family is asked first. */
  method NewDyn(s: QueryStrategy, domain: string, v4: Started, v6: Started, pick: Picker)
    returns (job: HappyEyeballsResolveJob?, error: Option<ResolveError>)
    requires forall n :: pick([], n) == []
    requires (v4.Started? ==> FreshQuery(v4.query)) && (v6.Started? ==> FreshQuery(v6.query))
    ensures (job == null) == error.Some? && (job != null ==> fresh(job) && job.pick == pick)
    ensures domain == "" ==> error == Some(EmptyDomain)
    ensures domain != "" && s == Ipv4Only ==> if v4.Refused? then error == Some(v4.error) else job != null && job.IsSingle(v4.query)
    ensures domain != "" && s == Ipv6Only ==> if v6.Refused? then error == Some(v6.error) else job != null && job.IsSingle(v6.query)
    ensures domain != "" && s == Ipv4First ==>
              if v4.Refused? then error == Some(v4.error)
              else if v6.Refused? then error == Some(v6.error)
              else job != null && job.IsDual(v4.query, v6.query)
    ensures domain != "" && s == Ipv6First ==>
              if v6.Refused? then error == Some(v6.error)
              else if v4.Refused? then error == Some(v4.error)
              else job != null && job.IsDual(v6.query, v4.query)
  {
    if domain == "" {
      return null, Some(EmptyDomain);
    }
    var (h1, h2) := if s == Ipv4Only || s == Ipv4First then (v4, v6) else (v6, v4);
    if h1.Refused? {
      return null, Some(h1.error);
    }
    if s == Ipv4Only || s == Ipv6Only {
      job := new HappyEyeballsResolveJob.Single(h1.query, pick);
      return job, None;
    }
    if h2.Refused? {
      return null, Some(h2.error);
    }
    job := new HappyEyeballsResolveJob.Dual(h1.query, h2.query, pick);
    error := None;
  }

  /**
   One completed first stage and one completed second stage over two racing queries hand
   out both answers, each exactly once, in the order the race decides.  A further call of the
   second stage never answers.
   */
  method ResolveBoth(q1: Job, q2: Job, pick: Picker, polls1: seq<nat>, polls2: seq<nat>, delay: nat, count: nat)
    returns (p1: Poll, p2: Poll, p3: Poll)
    requires FreshQuery(q1) && FreshQuery(q2) && polls1 != [] && polls2 != []
    requires forall n :: pick([], n) == []
    ensures p1.Ready? <==> Race(q1, q2, polls1, delay).Decided?
    ensures p1.Ready? ==>
              match (if Race(q1, q2, polls1, delay).second then q2 else q1).answer
              case Ok(addrs) => p1.answer == Ok(pick(addrs, count))
              case Err(e) => p1.answer == Err(e)
    ensures p1.Ready? && p2.Ready? ==>
              match (if Race(q1, q2, polls1, delay).second then q1 else q2).answer
              case Ok(addrs) => p2.answer == Ok(pick(addrs, count))
              case Err(e) => p2.answer == Err(e)
    ensures p1.Ready? && p2.Ready? ==>
              multiset{p1.answer, p2.answer} == multiset{Picked(pick, q1.answer, count), Picked(pick, q2.answer, count)}
    ensures p1.Ready? && Increasing(polls1 + polls2) ==>
              (p2.Ready? <==> (if Race(q1, q2, polls1, delay).second then q1 else q2).arrival <= polls2[|polls2| - 1])
    ensures p1.Ready? && q1.arrival <= polls2[|polls2| - 1] && q2.arrival <= polls2[|polls2| - 1] ==> p2.Ready?
    ensures p2.Ready? ==> p3.Pending?
  {
    var job := new HappyEyeballsResolveJob.Dual(q1, q2, pick);
    ghost var second;
    p1, second := job.GetR1OrFirst(polls1, delay, count);
    p2, p3 := Pending, Pending;
    if p1.Ready? {
      ghost var left := if second then q1 else q2;
      SeenFromThen(left, polls1, polls2);
      p2 := job.GetR2OrNever(polls2, count);
      if p2.Ready? {
        p3 := job.GetR2OrNever(polls2, count);
      }
    }
  }

  /** With time going on, a query found ready by earlier polls is ready at the last of the later ones. */
  lemma SeenFromThen(q: Job, polls1: seq<nat>, polls2: seq<nat>)
    requires FreshQuery(q) && polls2 != []
    ensures Increasing(polls1 + polls2) ==>
              && (FirstReady(q, polls1, 0) < |polls1| ==> q.arrival <= polls2[|polls2| - 1])
              && (forall i :: 0 <= i < |polls2| && q.arrival <= polls2[i] ==> q.arrival <= polls2[|polls2| - 1])
  {
    var all := polls1 + polls2;
    var k := FirstReady(q, polls1, 0);
    assert all[|all| - 1] == polls2[|polls2| - 1];
    if Increasing(all) && k < |polls1| {
      assert all[k] == polls1[k];
    }
    forall i | Increasing(all) && 0 <= i < |polls2| ensures polls2[i] <= polls2[|polls2| - 1] {
      assert all[|polls1| + i] == polls2[i];
    }
  }

  // ----- The first answer that has addresses -----

  datatype Inner = OnlyOne(job: Job) | First(job1: Job, job2: Job) {
    ghost predicate Valid() {
      match this
      case OnlyOne(job) => FreshQuery(job)
      case First(job1, job2) => FreshQuery(job1) && FreshQuery(job2)
    }

    function Jobs(): nat {
      if OnlyOne? then 1 else 2
    }
  }

  class ArriveFirstResolveJob {
    var inner: Option<Inner>

    constructor (inner: Inner)
      requires inner.Valid()
      ensures this.inner == Some(inner) && Valid()
    {
      this.inner := Some(inner);
    }

    ghost predicate Valid()
      reads this
    {
      inner.Some? ==> inner.value.Valid()
    }

    function Jobs(): nat
      reads this
    {
      if inner.None? then 0 else inner.value.Jobs()
    }

    /** One poll; falls back to the other job when one has no addresses. */
    method PollAllAddrs(now: nat) returns (p: Poll)
      requires Valid()
      modifies this
      ensures Valid()
      ensures old(inner).None? ==> p == Ready(Ok([]))
      ensures old(inner).None? || p.Ready? ==> inner == None
      ensures old(inner).Some? && old(inner).value.OnlyOne? ==>
                var j := old(inner).value.job;
                if j.ReadyBy(now) then p == Ready(j.answer) else p.Pending? && inner == old(inner)
      ensures old(inner).Some? && old(inner).value.First? ==>
                var (j1, j2) := (old(inner).value.job1, old(inner).value.job2);
                if j1.ReadyBy(now) && NonEmpty(j1.answer) then p == Ready(j1.answer)
                else if j1.ReadyBy(now) then
                  (if j2.ReadyBy(now) then p == Ready(j2.answer) else p.Pending? && inner == Some(OnlyOne(j2)))
                else if !j2.ReadyBy(now) then p.Pending? && inner == old(inner)
                else if NonEmpty(j2.answer) then p == Ready(j2.answer)
                else p.Pending? && inner == Some(OnlyOne(j1))
      decreases Jobs()
    {
      if inner.None? {
        return Ready(Ok([]));
      }
      var taken := inner.value;
      inner := None;
      match taken
      case OnlyOne(job) =>
        var (r, job') := job.PollQuery(now);
        if r.Pending? {
          inner := Some(OnlyOne(job'));
        }
        p := r;
      case First(job1, job2) =>
        var (a, job1') := job1.PollQuery(now);
        if a.Ready? {
          if NonEmpty(a.answer) {
            p := a;
          } else {
            inner := Some(OnlyOne(job2));
            p := PollAllAddrs(now);
          }
        } else {
          var (b, job2') := job2.PollQuery(now);
          if b.Ready? && NonEmpty(b.answer) {
            p := b;
          } else if b.Ready? {
            inner := Some(OnlyOne(job1'));
            p := Pending;
          } else {
            inner := Some(First(job1', job2'));
            p := Pending;
          }
        }
    }

    /** Polls the only job along a schedule until it answers. */
    method DriveOne(polls: seq<nat>) returns (p: Poll)
      requires inner.Some? && inner.value.OnlyOne? && Valid()
      modifies this
      ensures Valid()
      ensures p == ArrivedOne(old(inner).value.job, polls)
    {
      for k := 0 to |polls|
        invariant Valid() && inner == old(inner) && k <= FirstReady(inner.value.job, polls, 0)
      {
        p := PollAllAddrs(polls[k]);
        if p.Ready? {
          return;
        }
      }
      p := Pending;
    }

    /** Polls along a schedule until the job answers. */
    method Drive(polls: seq<nat>) returns (p: Poll)
      requires inner.Some? && Valid()
      modifies this
      ensures Valid()
      ensures p == match old(inner).value
                   case OnlyOne(job) => ArrivedOne(job, polls)
                   case First(job1, job2) => Arrived(job1, job2, polls)
    {
      if inner.value.OnlyOne? {
        p := DriveOne(polls);
        return;
      }
      var (q1, q2) := (inner.value.job1, inner.value.job2);
      ghost var left := {1, 2};
      for k := 0 to |polls|
        invariant Valid() && (left == {1, 2} || left == {1} || left == {2})
        invariant left == {1, 2} ==> inner == Some(First(q1, q2))
        invariant left == {1} ==> inner == Some(OnlyOne(q1)) && FirstReady(q2, polls, 0) < k && !NonEmpty(q2.answer)
        invariant left == {2} ==> inner == Some(OnlyOne(q2)) && FirstReady(q1, polls, 0) < k && !NonEmpty(q1.answer)
        invariant 1 in left ==> k <= FirstReady(q1, polls, 0)
        invariant 2 in left ==> k <= FirstReady(q2, polls, 0)
      {
        p := PollAllAddrs(polls[k]);
        if p.Ready? {
          return;
        }
        if left == {1, 2} && q1.ReadyBy(polls[k]) {
          left := {2};
        } else if left == {1, 2} && q2.ReadyBy(polls[k]) {
          left := {1};
        }
      }
      p := Pending;
    }
  }

  /** The answer of a single query along a schedule. */
  function ArrivedOne(q: Job, polls: seq<nat>): Poll {
    if FirstReady(q, polls, 0) < |polls| then Ready(q.Result()) else Pending
  }

  /** The answer of the job along a schedule, from when each query is first found ready. */
  function Arrived(q1: Job, q2: Job, polls: seq<nat>): Poll {
    var i1 := FirstReady(q1, polls, 0);
    var i2 := FirstReady(q2, polls, 0);
    var (i, j, a, b) := if i1 <= i2 then (i1, i2, q1.Result(), q2.Result()) else (i2, i1, q2.Result(), q1.Result());
    if i < |polls| && NonEmpty(a) then Ready(a)
    else if j < |polls| then Ready(b)
    else Pending
  }

  /** Once both queries have answered, the job has addresses exactly if one of them has. */
  lemma ArrivedHasAddresses(q1: Job, q2: Job, polls: seq<nat>)
    requires FreshQuery(q1) && FreshQuery(q2) && polls != []
    requires q1.arrival <= polls[|polls| - 1] && q2.arrival <= polls[|polls| - 1]
    ensures Arrived(q1, q2, polls).Ready?
    ensures var a := Arrived(q1, q2, polls).answer;
            (a.Ok? && a.value != []) <==> ((q1.answer.Ok? && q1.answer.value != []) || (q2.answer.Ok? && q2.answer.value != []))
    ensures Arrived(q1, q2, polls).answer == q1.answer || Arrived(q1, q2, polls).answer == q2.answer
  {
    assert FirstReady(q1, polls, 0) < |polls|;
    assert FirstReady(q2, polls, 0) < |polls|;
  }
}
