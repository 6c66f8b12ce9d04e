/**
 Block round-robin dispatch of keyless requests.  A shared counter is advanced by every
 dispatch; its high bits choose the worker, so that a worker gets a block of consecutive
 requests before the next worker has its turn.
 */
module Dispatching {
  import opened Commons

  /** The counter is a machine word and wraps around. */
  const WORD: nat := 0x1_0000_0000_0000_0000

  function Choice(cur: nat, block: nat, n: nat): nat
    requires block > 0 && n > 0
  {
    (cur / block) % n
  }

  /** How often `w` is in the list. */
  function Count(picks: seq<nat>, w: nat): nat {
    if picks == [] then 0 else Count(picks[..|picks| - 1], w) + if picks[|picks| - 1] == w then 1 else 0
  }

  lemma {:induction false} CountConcat(a: seq<nat>, b: seq<nat>, w: nat)
    ensures Count(a + b, w) == Count(a, w) + Count(b, w)
  {
    if b == [] {
      assert a + b == a;
    } else {
      assert (a + b)[..|a + b| - 1] == a + b[..|b| - 1];
      CountConcat(a, b[..|b| - 1], w);
    }
  }

  function Clamp(x: int, top: nat): nat {
    if x < 0 then 0 else if x > top then top else x
  }

  /** Closed form: how often worker `w` is chosen by the counter values below `x`. */
  function Share(x: nat, w: nat, block: nat, n: nat): nat
    requires block > 0 && n > 0
  {
    ShareOf(x, w * block, block, Turn(block, n))
  }

  /** How many of the values below `x` fall into a block that begins at `start` in every turn. */
  function ShareOf(x: nat, start: nat, block: nat, turn: nat): nat
    requires turn > 0
  {
    (x / turn) * block + Clamp(x % turn - start, block)
  }

  /** The length of one full turn over all workers. */
  function Turn(block: nat, n: nat): (r: nat)
    requires block > 0 && n > 0
    ensures r > 0
  {
    MulPositive(n, block);
    n * block
  }

  // ----- Products, one at a time -----

  lemma MulPositive(a: nat, b: nat)
    requires a > 0 && b > 0
    ensures a * b > 0
  {
  }

  lemma MulNext(a: int, d: int)
    ensures (a + 1) * d == a * d + d
  {
  }

  lemma MulSum(a: int, b: int, d: int)
    ensures (a + b) * d == a * d + b * d
  {
  }

  lemma MulAssociates(a: int, b: int, d: int)
    ensures a * b * d == a * (b * d)
  {
  }

  lemma {:induction false} MulGrows(a: nat, b: nat, d: nat)
    requires a < b
    ensures a * d + d <= b * d
    decreases b
  {
    MulNext(b - 1, d);
    if a < b - 1 {
      MulGrows(a, b - 1, d);
    }
  }

  lemma DivMod(x: nat, d: nat)
    requires d > 0
    ensures x == (x / d) * d + x % d && x % d < d
  {
  }

  /** Quotient and remainder are unique. */
  lemma Unique(d: nat, p: nat, s: nat, q: nat, r: nat)
    requires r < d && s < d && p * d + s == q * d + r
    ensures p == q && s == r
  {
    if p < q {
      MulGrows(p, q, d);
    } else if q < p {
      MulGrows(q, p, d);
    }
  }

  lemma DivModIs(x: nat, d: nat, q: nat, r: nat)
    requires r < d && x == q * d + r
    ensures x / d == q && x % d == r
  {
    DivMod(x, d);
    Unique(d, x / d, x % d, q, r);
  }

  lemma Compose(b: nat, o: nat, q: nat, k: nat, block: nat, n: nat)
    requires b == q * n + k && k < n && o < block
    ensures b * block + o == q * (n * block) + (k * block + o) && k * block + o < n * block
  {
    MulSum(q * n, k, block);
    MulAssociates(q, n, block);
    MulGrows(k, n, block);
  }

  /** Decomposes a counter value into full turns, full blocks of this turn, and the rest. */
  lemma Decompose(x: nat, block: nat, n: nat) returns (q: nat, k: nat, o: nat)
    requires block > 0 && n > 0
    ensures k == Choice(x, block, n) && k < n && o < block
    ensures k * block + o < Turn(block, n) && x == q * Turn(block, n) + (k * block + o)
    ensures x / Turn(block, n) == q && x % Turn(block, n) == k * block + o
  {
    var b := x / block;
    q, k, o := b / n, b % n, x % block;
    DivMod(x, block);
    DivMod(b, n);
    Compose(b, o, q, k, block, n);
    DivModIs(x, Turn(block, n), q, k * block + o);
  }

  lemma ClampStep(k: nat, o: nat, w: nat, block: nat)
    requires o < block
    ensures Clamp(k * block + o + 1 - w * block, block)
            == Clamp(k * block + o - w * block, block) + if k == w then 1 else 0
  {
    if w < k {
      MulGrows(w, k, block);
    } else if k < w {
      MulGrows(k, w, block);
    }
  }

  /** The share, given the quotient and the remainder. */
  lemma ShareIs(x: nat, start: nat, block: nat, turn: nat, q: nat, r: nat)
    requires r < turn && x == q * turn + r
    ensures ShareOf(x, start, block, turn) == q * block + Clamp(r - start, block)
  {
    DivModIs(x, turn, q, r);
  }

  lemma ShareTurns(x: nat, start: nat, block: nat, turn: nat)
    requires turn > 0
    ensures ShareOf(x + turn, start, block, turn) == ShareOf(x, start, block, turn) + block
  {
    var q, r := x / turn, x % turn;
    DivMod(x, turn);
    MulNext(q, turn);
    MulNext(q, block);
    ShareIs(x + turn, start, block, turn, q + 1, r);
  }

  /** The next value, at `r` in its turn, adds what it adds to the clamped remainder. */
  lemma ShareNext(x: nat, q: nat, r: nat, start: nat, block: nat, turn: nat)
    requires r < turn && start + block <= turn && x == q * turn + r
    ensures ShareOf(x + 1, start, block, turn) - ShareOf(x, start, block, turn)
            == Clamp(r + 1 - start, block) - Clamp(r - start, block)
  {
    ShareIs(x, start, block, turn, q, r);
    if r + 1 < turn {
      ShareIs(x + 1, start, block, turn, q, r + 1);
    } else {
      MulNext(q, turn);
      MulNext(q, block);
      ShareIs(x + 1, start, block, turn, q + 1, 0);
    }
  }

  /** One more counter value adds one to the share of the worker it chooses. */
  lemma ShareStep(x: nat, w: nat, block: nat, n: nat)
    requires block > 0 && w < n
    ensures Share(x + 1, w, block, n) == Share(x, w, block, n) + if Choice(x, block, n) == w then 1 else 0
  {
    var q, k, o := Decompose(x, block, n);
    MulGrows(w, n, block);
    ClampStep(k, o, w, block);
    ShareNext(x, q, k * block + o, w * block, block, Turn(block, n));
  }

  lemma ShareZero(w: nat, block: nat, n: nat)
    requires block > 0 && n > 0
    ensures Share(0, w, block, n) == 0
  {
    ShareIs(0, w * block, block, Turn(block, n), 0, 0);
  }

  lemma ClampGap(r: nat, v: nat, w: nat, block: nat)
    requires v <= w
    ensures 0 <= Clamp(r - v * block, block) - Clamp(r - w * block, block) <= block
  {
    if v < w {
      MulGrows(v, w, block);
    }
  }

  /** Shares of two workers drift apart by at most one block, always in the same direction. */
  lemma ShareGap(x: nat, v: nat, w: nat, block: nat, n: nat)
    requires block > 0 && v <= w < n
    ensures 0 <= Share(x, v, block, n) - Share(x, w, block, n) <= block
    ensures x % Turn(block, n) == 0 ==> Share(x, v, block, n) == Share(x, w, block, n)
  {
    ClampGap(x % Turn(block, n), v, w, block);
  }

  /** A full turn gives every worker one block. */
  lemma ShareTurn(x: nat, w: nat, block: nat, n: nat)
    requires block > 0 && w < n
    ensures Share(x + Turn(block, n), w, block, n) == Share(x, w, block, n) + block
  {
    ShareTurns(x, w * block, block, Turn(block, n));
  }

  /** `picks[i..j]` was chosen by consecutive counter values, the value at `i` being `i - base`. */
  ghost predicate ChosenFrom(picks: seq<nat>, base: nat, i: nat, j: nat, block: nat, n: nat)
    requires block > 0 && n > 0
  {
    base <= i <= j <= |picks| && forall t :: i <= t < j ==> picks[t] == Choice(t - base, block, n)
  }

  lemma {:induction false} WindowCount(picks: seq<nat>, base: nat, i: nat, j: nat, w: nat, block: nat, n: nat)
    requires block > 0 && w < n && ChosenFrom(picks, base, i, j, block, n)
    ensures Count(picks[i..j], w) == Share(j - base, w, block, n) - Share(i - base, w, block, n)
    decreases j - i
  {
    if i < j {
      assert picks[i..j][..j - i - 1] == picks[i..j - 1];
      WindowCount(picks, base, i, j - 1, w, block, n);
      ShareStep(j - 1 - base, w, block, n);
    }
  }

  /** Within one lap of the counter two workers never differ by more than one block. */
  lemma FairWindow(picks: seq<nat>, base: nat, i: nat, j: nat, v: nat, w: nat, block: nat, n: nat)
    requires block > 0 && v < n && w < n && ChosenFrom(picks, base, i, j, block, n)
    ensures Count(picks[i..j], v) <= Count(picks[i..j], w) + block
  {
    WindowCount(picks, base, i, j, v, block, n);
    WindowCount(picks, base, i, j, w, block, n);
    if v <= w {
      ShareGap(i - base, v, w, block, n);
      ShareGap(j - base, v, w, block, n);
    } else {
      ShareGap(i - base, w, v, block, n);
      ShareGap(j - base, w, v, block, n);
    }
  }

  /** A window of one full turn chooses every worker exactly one block's worth of times. */
  lemma ExactTurn(picks: seq<nat>, base: nat, i: nat, w: nat, block: nat, n: nat)
    requires block > 0 && w < n && ChosenFrom(picks, base, i, i + Turn(block, n), block, n)
    ensures Count(picks[i..i + Turn(block, n)], w) == block
  {
    WindowCount(picks, base, i, i + Turn(block, n), w, block, n);
    ShareTurn(i - base, w, block, n);
  }

  /** `picks[i..j]` goes over the wrap at `m`, after which the counter starts from 0 again. */
  ghost predicate OverWrap(picks: seq<nat>, base: nat, i: nat, j: nat, block: nat, n: nat)
    requires block > 0 && n > 0
  {
    ChosenFrom(picks, base, i, base + WORD, block, n) && ChosenFrom(picks, base + WORD, base + WORD, j, block, n)
  }

  lemma WrapCount(picks: seq<nat>, base: nat, i: nat, j: nat, w: nat, block: nat, n: nat)
    requires block > 0 && w < n && OverWrap(picks, base, i, j, block, n)
    ensures Count(picks[i..j], w)
            == Share(WORD, w, block, n) - Share(i - base, w, block, n) + Share(j - base - WORD, w, block, n)
  {
    var m := base + WORD;
    assert picks[i..j] == picks[i..m] + picks[m..j];
    CountConcat(picks[i..m], picks[m..j], w);
    WindowCount(picks, base, i, m, w, block, n);
    WindowCount(picks, m, m, j, w, block, n);
    ShareZero(w, block, n);
  }

  /**
   Across one wrap the gap is at most two blocks, and at most one block when the turn divides
   the range of the counter.
   */
  lemma FairAcrossWrap(picks: seq<nat>, base: nat, i: nat, j: nat, v: nat, w: nat, block: nat, n: nat)
    requires block > 0 && v < n && w < n && OverWrap(picks, base, i, j, block, n)
    ensures Count(picks[i..j], v) <= Count(picks[i..j], w) + 2 * block
    ensures WORD % Turn(block, n) == 0 ==> Count(picks[i..j], v) <= Count(picks[i..j], w) + block
  {
    WrapCount(picks, base, i, j, v, block, n);
    WrapCount(picks, base, i, j, w, block, n);
    var lo, hi := if v <= w then v else w, if v <= w then w else v;
    ShareGap(WORD, lo, hi, block, n);
    ShareGap(i - base, lo, hi, block, n);
    ShareGap(j - base - WORD, lo, hi, block, n);
  }

  /** The counter's range is a number of full turns and a number of blocks. */
  lemma Remainder(block: nat, n: nat) returns (q: nat, k: nat, full: nat)
    requires block > 0 && n > 0 && WORD % block == 0 && WORD % Turn(block, n) != 0
    ensures 0 < k < n && full == q * Turn(block, n) && WORD == full + k * block && full < WORD
  {
    var o;
    q, k, o := Decompose(WORD, block, n);
    full := q * Turn(block, n);
    DivMod(WORD, block);
    MulSum(q * n, k, block);
    MulAssociates(q, n, block);
    Unique(block, WORD / block, 0, q * n + k, o);
    MulGrows(0, k, block);
  }

  /** From `full` over the wrap to the end of a block, the first worker has two blocks and the last one none. */
  ghost predicate Lopsided(full: nat, block: nat, n: nat)
    requires block > 0 && n > 0
  {
    && full < WORD && n > 1
    && Share(WORD, 0, block, n) - Share(full, 0, block, n) + Share(block, 0, block, n) == 2 * block
    && Share(WORD, n - 1, block, n) - Share(full, n - 1, block, n) + Share(block, n - 1, block, n) == 0
  }

  /** When the turn does not divide the range, there is such a window from the last full turn of a lap. */
  lemma LastTurn(block: nat, n: nat) returns (full: nat)
    requires block > 0 && n > 0 && WORD % block == 0 && WORD % Turn(block, n) != 0
    ensures Lopsided(full, block, n)
  {
    var q, k;
    q, k, full := Remainder(block, n);
    EndShares(block, n, q, k, full);
  }

  lemma UnfairAcrossWrap(picks: seq<nat>, base: nat, block: nat, n: nat, full: nat)
    requires block > 0 && n > 0 && Lopsided(full, block, n)
    requires OverWrap(picks, base, base + full, base + WORD + block, block, n)
    ensures Count(picks[base + full..base + WORD + block], 0) == 2 * block
    ensures Count(picks[base + full..base + WORD + block], n - 1) == 0
  {
    WrapCount(picks, base, base + full, base + WORD + block, 0, block, n);
    WrapCount(picks, base, base + full, base + WORD + block, n - 1, block, n);
  }

  lemma EndShares(block: nat, n: nat, q: nat, k: nat, full: nat)
    requires block > 0 && 0 < k < n && full == q * Turn(block, n)
    ensures Share(full + k * block, 0, block, n) - Share(full, 0, block, n) + Share(block, 0, block, n) == 2 * block
    ensures Share(full + k * block, n - 1, block, n) - Share(full, n - 1, block, n) + Share(block, n - 1, block, n) == 0
  {
    var turn, last := Turn(block, n), (n - 1) * block;
    MulGrows(0, k, block);
    MulGrows(k, n, block);
    MulGrows(1, n, block);
    MulNext(n - 1, block);
    TailShares(q, k * block, 0, block, turn, full);
    TailShares(q, k * block, last, block, turn, full);
  }

  lemma TailShares(q: nat, r: nat, start: nat, block: nat, turn: nat, full: nat)
    requires full == q * turn && r < turn && block < turn
    ensures ShareOf(full + r, start, block, turn) == q * block + Clamp(r - start, block)
    ensures ShareOf(full, start, block, turn) == q * block + Clamp(0 - start, block)
    ensures ShareOf(block, start, block, turn) == Clamp(block - start, block)
  {
    ShareIs(full + r, start, block, turn, q, r);
    ShareIs(full, start, block, turn, q, 0);
    ShareIs(block, start, block, turn, 0, block);
  }

  /** Every window over a wrap is fair to within one block. */
  ghost predicate WrapsFairly(block: nat, n: nat)
    requires block > 0 && n > 0
  {
    forall picks: seq<nat>, base: nat, i: nat, j: nat, v: nat, w: nat ::
      OverWrap(picks, base, i, j, block, n) && v < n && w < n ==> Count(picks[i..j], v) <= Count(picks[i..j], w) + block
  }

  /** A run over the first wrap. */
  ghost function FirstWrap(block: nat, n: nat): (picks: seq<nat>)
    requires block > 0 && n > 0
    ensures |picks| == WORD + block
    ensures ChosenFrom(picks, 0, 0, WORD, block, n) && ChosenFrom(picks, WORD, WORD, WORD + block, block, n)
  {
    seq(WORD, t requires 0 <= t => Choice(t, block, n)) + seq(block, t requires 0 <= t => Choice(t, block, n))
  }

  /** The one-block bound survives the wrap exactly if a full turn divides the range of the counter. */
  lemma WrapsFairlyIff(block: nat, n: nat)
    requires block > 0 && n > 0 && WORD % block == 0
    ensures WrapsFairly(block, n) <==> WORD % Turn(block, n) == 0
  {
    if WORD % Turn(block, n) == 0 {
      forall picks: seq<nat>, base: nat, i: nat, j: nat, v: nat, w: nat
        | OverWrap(picks, base, i, j, block, n) && v < n && w < n
        ensures Count(picks[i..j], v) <= Count(picks[i..j], w) + block
      {
        FairAcrossWrap(picks, base, i, j, v, w, block, n);
      }
    } else {
      var full := LastTurn(block, n);
      var picks := FirstWrap(block, n);
      assert OverWrap(picks, 0, full, WORD + block, block, n);
      UnfairAcrossWrap(picks, 0, block, n, full);
      assert Count(picks[full..WORD + block], 0) > Count(picks[full..WORD + block], n - 1) + block;
    }
  }

  lemma {:induction false} Pow2Sum(a: nat, b: nat)
    ensures Pow2(a + b) == Pow2(a) * Pow2(b)
  {
    if a > 0 {
      Pow2Sum(a - 1, b);
      assert Pow2(a + b) == 2 * Pow2(a - 1 + b);
      MulAssociates(2, Pow2(a - 1), Pow2(b));
    }
  }

  lemma Pow2Twice(n: nat, m: nat, v: nat)
    requires Pow2(n) == v && m == n + n
    ensures Pow2(m) == v * v
  {
    Pow2Sum(n, n);
  }

  lemma WordIsPow2(n: nat)
    requires n == 64
    ensures WORD == Pow2(n)
  {
    Pow2Twice(1, n / 32, 2);
    Pow2Twice(n / 32, n / 16, 4);
    Pow2Twice(n / 16, n / 8, 16);
    Pow2Twice(n / 8, n / 4, 256);
    Pow2Twice(n / 4, n / 2, 0x1_0000);
    Pow2Twice(n / 2, n, 0x1_0000_0000);
  }

  /** The block size: the shift is a byte, and shifting a word looks at its low six bits only. */
  function Block(shift: nat): (block: nat)
    ensures block > 0
  {
    Pow2(shift % 64)
  }

  /** A block is a power of two below the range of the counter, so it divides the range. */
  lemma BlockDivides(shift: nat)
    ensures Block(shift) == Pow2(shift % 64) && WORD % Pow2(shift % 64) == 0
  {
    var s := shift % 64;
    WordIsPow2(64 - s + s);
    Pow2Sum(64 - s, s);
    DivModIs(WORD, Pow2(s), Pow2(64 - s), 0);
  }

  /** A bounded channel to one worker; sending to a full or closed one hands the request back. */
  datatype Channel<T> = Channel(queue: seq<T>, capacity: nat, closed: bool)

  datatype Outcome<T> = Sent | Refused(request: T)

  class Dispatcher<T> {
    var counter: nat
    var counterShift: nat
    var workers: seq<Channel<T>>
    /** The worker chosen by each dispatch so far. */
    ghost var picks: seq<nat>

    ghost predicate Valid()
      reads this
    {
      && counterShift < 256 && counter == |picks| % WORD
      && (picks != [] ==> workers != [])
      && forall t :: 0 <= t < |picks| ==> picks[t] == Choice(t % WORD, Block(counterShift), |workers|)
    }

    constructor (shift: nat)
      requires shift < 256
      ensures Valid() && workers == [] && counterShift == shift && picks == []
    {
      counter, counterShift, workers, picks := 0, shift, [], [];
    }

    /** Workers register while the program is set up, before the first request. */
    method Register(worker: Channel<T>, shift: nat)
      requires Valid() && picks == [] && shift < 256
      modifies this`counterShift, this`workers
      ensures Valid() && workers == old(workers) + [worker] && counterShift == shift
    {
      counterShift := shift;
      workers := workers + [worker];
    }

    method Dispatch(request: T) returns (outcome: Outcome<T>)
      requires Valid() && workers != []
      modifies this`counter, this`workers, this`picks
      ensures Valid() && |workers| == |old(workers)|
      ensures exists id: nat ::
                && id < |old(workers)| && picks == old(picks) + [id]
                && var before := old(workers)[id];
                   var room := |before.queue| < before.capacity && !before.closed;
                   && outcome == (if room then Sent else Refused(request))
                   && workers == if room then old(workers)[id := before.(queue := before.queue + [request])] else old(workers)
    {
      var cur := counter;
      counter := (counter + 1) % WORD;
      var id := (cur / Block(counterShift)) % |workers|;
      picks := picks + [id];
      LapStep(|old(picks)|);
      var worker := workers[id];
      if |worker.queue| < worker.capacity && !worker.closed {
        workers := workers[id := worker.(queue := worker.queue + [request])];
        outcome := Sent;
      } else {
        outcome := Refused(request);
      }
    }

    /** Each dispatch follows the one before in blocks of `2^shift`. */
    lemma NextChoice(t: nat)
      requires Valid() && t < |picks|
      ensures FollowsOn(picks, t, Pow2(counterShift % 64), |workers|)
    {
      BlockDivides(counterShift);
      NextPick(picks, t, Block(counterShift), |workers|);
    }

    /** In one lap of the counter, every run of dispatches is fair to within one block. */
    lemma RunIsFair(lap: nat, i: nat, j: nat, v: nat, w: nat)
      requires Valid() && v < |workers| && w < |workers|
      requires lap * WORD <= i <= j <= (lap + 1) * WORD && j <= |picks|
      ensures Count(picks[i..j], v) <= Count(picks[i..j], w) + Pow2(counterShift % 64)
      ensures j - i == |workers| * Pow2(counterShift % 64) ==> Count(picks[i..j], w) == Pow2(counterShift % 64)
    {
      var base := lap * WORD;
      SameLap(lap, i, j, picks, Block(counterShift), |workers|);
      FairWindow(picks, base, i, j, v, w, Block(counterShift), |workers|);
      if j - i == Turn(Block(counterShift), |workers|) {
        ExactTurn(picks, base, i, w, Block(counterShift), |workers|);
      }
    }

    /** A run over at most one wrap is fair to within two blocks; exact laps keep it to one. */
    lemma WrappedRunIsFair(lap: nat, i: nat, j: nat, v: nat, w: nat)
      requires Valid() && v < |workers| && w < |workers|
      requires lap * WORD <= i <= (lap + 1) * WORD <= j <= (lap + 2) * WORD && j <= |picks|
      ensures Count(picks[i..j], v) <= Count(picks[i..j], w) + 2 * Pow2(counterShift % 64)
      ensures WORD % Turn(Pow2(counterShift % 64), |workers|) == 0 ==>
                Count(picks[i..j], v) <= Count(picks[i..j], w) + Pow2(counterShift % 64)
    {
      var base, m := lap * WORD, (lap + 1) * WORD;
      SameLap(lap, i, m, picks, Block(counterShift), |workers|);
      SameLap(lap + 1, m, j, picks, Block(counterShift), |workers|);
      FairAcrossWrap(picks, base, i, j, v, w, Block(counterShift), |workers|);
    }

    /** For other numbers of workers each wrap has a window that favours the first worker by two blocks. */
    lemma WrappedRunIsUnfair(lap: nat) returns (i: nat)
      requires Valid() && workers != [] && (lap + 1) * WORD + Pow2(counterShift % 64) <= |picks|
      requires WORD % Turn(Pow2(counterShift % 64), |workers|) != 0
      ensures lap * WORD <= i < (lap + 1) * WORD
      ensures var window := picks[i..(lap + 1) * WORD + Pow2(counterShift % 64)];
              && Count(window, 0) == 2 * Pow2(counterShift % 64)
              && |workers| > 1 && Count(window, |workers| - 1) == 0
    {
      var block, n, base := Block(counterShift), |workers|, lap * WORD;
      BlockDivides(counterShift);
      var full := LastTurn(block, n);
      i := base + full;
      WrapHere(lap, i, block, n);
      UnfairAcrossWrap(picks, base, block, n, full);
    }

    lemma WrapHere(lap: nat, i: nat, block: nat, n: nat)
      requires Valid() && block == Block(counterShift) && n == |workers| > 0
      requires lap * WORD <= i <= (lap + 1) * WORD && (lap + 1) * WORD + block <= |picks|
      ensures OverWrap(picks, lap * WORD, i, lap * WORD + WORD + block, block, n)
    {
      BlockFits(counterShift);
      SameLap(lap, i, (lap + 1) * WORD, picks, block, n);
      SameLap(lap + 1, (lap + 1) * WORD, (lap + 1) * WORD + block, picks, block, n);
    }
  }

  lemma BlockFits(shift: nat)
    ensures Block(shift) <= WORD
  {
    var s := shift % 64;
    WordIsPow2(64 - s + s);
    Pow2Sum(64 - s, s);
    MulGrows(0, Pow2(64 - s), Pow2(s));
  }

  /**
   The first dispatch, and the first after each wrap of the counter, goes to the first worker.
   Otherwise a dispatch stays with the worker of the one before, except that the first of a
   block goes to the next worker.
   */
  ghost predicate FollowsOn(picks: seq<nat>, t: nat, block: nat, n: nat)
    requires t < |picks| && block > 0 && n > 0
  {
    if t == 0 || t % WORD == 0 then picks[t] == 0
    else picks[t] == if t % block != 0 then picks[t - 1] else (picks[t - 1] + 1) % n
  }

  lemma NextPick(picks: seq<nat>, t: nat, block: nat, n: nat)
    requires t < |picks| && block > 0 && n > 0 && WORD % block == 0
    requires forall i :: 0 <= i < |picks| ==> picks[i] == Choice(i % WORD, block, n)
    ensures FollowsOn(picks, t, block, n)
  {
    if t > 0 {
      assert picks[t - 1] == Choice((t - 1) % WORD, block, n);
    }
    ChoiceAfter(t, block, n);
  }

  /** One counter value later the choice moves on exactly at the end of a block. */
  lemma ChoiceStep(x: nat, block: nat, n: nat)
    requires block > 0 && n > 0
    ensures Choice(x + 1, block, n)
            == if (x + 1) % block != 0 then Choice(x, block, n) else (Choice(x, block, n) + 1) % n
  {
    var b, o := x / block, x % block;
    DivMod(x, block);
    if o + 1 < block {
      DivModIs(x + 1, block, b, o + 1);
    } else {
      MulNext(b, block);
      DivModIs(x + 1, block, b + 1, 0);
      NextModulo(b, n);
    }
  }

  lemma ChoiceAfter(t: nat, block: nat, n: nat)
    requires block > 0 && n > 0 && WORD % block == 0
    ensures Choice(t % WORD, block, n) ==
            if t == 0 || t % WORD == 0 then 0
            else if t % block != 0 then Choice((t - 1) % WORD, block, n)
            else (Choice((t - 1) % WORD, block, n) + 1) % n
  {
    var x := t % WORD;
    if x == 0 {
      DivModIs(0, block, 0, 0);
      DivModIs(0, n, 0, 0);
    } else {
      LapPrevious(t);
      SameRemainder(t, block);
      ChoiceStep(x - 1, block, n);
    }
  }

  lemma NextModulo(b: nat, n: nat)
    requires n > 0
    ensures (b + 1) % n == (b % n + 1) % n
  {
    var q, r := b / n, b % n;
    DivMod(b, n);
    MulNext(q, n);
    if r + 1 < n {
      DivModIs(b + 1, n, q, r + 1);
      DivModIs(r + 1, n, 0, r + 1);
    } else {
      DivModIs(b + 1, n, q + 1, 0);
      DivModIs(r + 1, n, 1, 0);
    }
  }

  lemma LapPrevious(t: nat)
    requires t % WORD != 0
    ensures (t - 1) % WORD == t % WORD - 1
  {
  }

  /** A divisor of the range of the counter sees the counter as it sees the number of dispatches. */
  lemma SameRemainder(t: nat, block: nat)
    requires block > 0 && WORD % block == 0
    ensures t % block == (t % WORD) % block
  {
    var q, x, m := t / WORD, t % WORD, WORD / block;
    DivMod(t, WORD);
    DivMod(WORD, block);
    DivMod(x, block);
    MulAssociates(q, m, block);
    MulSum(q * m, x / block, block);
    DivModIs(t, block, q * m + x / block, x % block);
  }

  lemma LapStep(t: nat)
    ensures (t % WORD + 1) % WORD == (t + 1) % WORD
  {
  }

  lemma SameLap(lap: nat, i: nat, j: nat, picks: seq<nat>, block: nat, n: nat)
    requires block > 0 && n > 0 && lap * WORD <= i <= j <= (lap + 1) * WORD && j <= |picks|
    requires forall t :: 0 <= t < |picks| ==> picks[t] == Choice(t % WORD, block, n)
    ensures ChosenFrom(picks, lap * WORD, i, j, block, n)
  {
    forall t | i <= t < j ensures picks[t] == Choice(t - lap * WORD, block, n) {
      DivModIs(t, WORD, lap, t - lap * WORD);
    }
  }
}
