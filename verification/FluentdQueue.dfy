/** The fluentd log thread: a bounded retry queue carried across connections. */
module FluentdQueue {
  import opened Commons

  type Record = string

  /** What became of one attempt to write a record. */
  datatype Write = Written | Failed | TimedOut

  /** What the loop over an open connection sees. */
  datatype Event =
    | Received(data: Record, write: Write)
    | ChannelClosed
    | PeerClosed
    | Flushed
    | FlushFailed

  /** One turn of the outer loop; the flush results say how the n-th queued record fares. */
  datatype Session =
    | Connected(flush: nat -> Write, events: seq<Event>)
    | NotConnected(received: seq<Record>, closed: bool)

  /** How a turn ended; `Running` when the script stops before the turn does. */
  datatype End = Quit | Retry | Running

  // ----- Subsequences -----

  /** `sub` is what is left of `all` when some of its records are left out. */
  ghost predicate Subsequence(sub: seq<Record>, all: seq<Record>)
    decreases |all|
  {
    if all == [] then sub == []
    else
      || (sub != [] && sub[|sub| - 1] == all[|all| - 1] && Subsequence(sub[..|sub| - 1], all[..|all| - 1]))
      || Subsequence(sub, all[..|all| - 1])
  }

  /** `sub` is `all` at the strictly increasing positions `idx`. */
  ghost predicate Embeds(sub: seq<Record>, all: seq<Record>, idx: seq<nat>) {
    && |idx| == |sub|
    && (forall i :: 0 <= i < |idx| ==> idx[i] < |all| && all[idx[i]] == sub[i])
    && (forall i, j :: 0 <= i < j < |idx| ==> idx[i] < idx[j])
  }

  lemma {:induction false} SubsequenceEmbeds(sub: seq<Record>, all: seq<Record>) returns (idx: seq<nat>)
    requires Subsequence(sub, all)
    ensures Embeds(sub, all, idx)
    decreases |all|
  {
    if all == [] {
      idx := [];
    } else {
      var n := |all| - 1;
      if sub != [] && sub[|sub| - 1] == all[n] && Subsequence(sub[..|sub| - 1], all[..n]) {
        idx := SubsequenceEmbeds(sub[..|sub| - 1], all[..n]);
        idx := idx + [n];
      } else {
        idx := SubsequenceEmbeds(sub, all[..n]);
      }
    }
  }

  lemma {:induction false} EmbedsSubsequence(sub: seq<Record>, all: seq<Record>, idx: seq<nat>)
    requires Embeds(sub, all, idx)
    ensures Subsequence(sub, all)
    decreases |all|
  {
    if all != [] {
      var n, k := |all| - 1, |sub| - 1;
      if sub != [] && idx[k] == n {
        EmbedsSubsequence(sub[..k], all[..n], idx[..k]);
      } else {
        assert forall i :: 0 <= i < |idx| ==> idx[i] <= idx[k];
        EmbedsSubsequence(sub, all[..n], idx);
      }
    }
  }

  /** Leaving out records is the same as picking records at increasing positions. */
  lemma SubsequenceIff(sub: seq<Record>, all: seq<Record>)
    ensures Subsequence(sub, all) <==> exists idx :: Embeds(sub, all, idx)
  {
    if Subsequence(sub, all) {
      var idx := SubsequenceEmbeds(sub, all);
    }
    if idx: seq<nat> :| Embeds(sub, all, idx) {
      EmbedsSubsequence(sub, all, idx);
    }
  }

  /**
   Order and conservation: what was written, then what is queued, is a subsequence of what
   was received, and it leaves out as many records as were counted as lost.
   */
  ghost predicate Accounted(written: seq<Record>, queue: seq<Record>, lost: nat, received: seq<Record>) {
    Subsequence(written + queue, received) && |received| == |written| + |queue| + lost
  }

  lemma AccountReceive(w: seq<Record>, q: seq<Record>, l: nat, r: seq<Record>, x: Record)
    requires Accounted(w, q, l, r)
    ensures Accounted(w, q + [x], l, r + [x])
  {
    var longer := w + (q + [x]);
    assert longer[..|longer| - 1] == w + q && (r + [x])[..|r|] == r;
  }

  lemma AccountWrite(w: seq<Record>, x: Record, q: seq<Record>, l: nat, r: seq<Record>)
    requires Accounted(w, [x] + q, l, r)
    ensures Accounted(w + [x], q, l, r)
  {
    assert w + ([x] + q) == w + [x] + q;
  }

  /** Leaving out one element keeps a subsequence. */
  lemma {:induction false} SubsequenceDrop(front: seq<Record>, x: Record, back: seq<Record>, all: seq<Record>)
    requires Subsequence(front + ([x] + back), all)
    ensures Subsequence(front + back, all)
    decreases |all|
  {
    var sub, n := front + ([x] + back), |all| - 1;
    var k := |sub| - 1;
    if Subsequence(sub, all[..n]) {
      SubsequenceDrop(front, x, back, all[..n]);
    } else if back == [] {
      assert sub[..k] == front + back;
    } else {
      var b := |back| - 1;
      assert sub[..k] == front + ([x] + back[..b]) && (front + back)[..k - 1] == front + back[..b];
      SubsequenceDrop(front, x, back[..b], all[..n]);
    }
  }

  lemma AccountLose(w: seq<Record>, x: Record, q: seq<Record>, l: nat, r: seq<Record>)
    requires Accounted(w, [x] + q, l, r)
    ensures Accounted(w, q, l + 1, r)
  {
    SubsequenceDrop(w, x, q, r);
  }

  lemma Associates(a: seq<Record>, b: seq<Record>, c: seq<Record>)
    ensures a + b + c == a + (b + c)
  {
  }

  function LastN(s: seq<Record>, n: nat): seq<Record> {
    if |s| <= n then s else s[|s| - n..]
  }

  lemma LastNStep(s: seq<Record>, x: Record, n: nat)
    ensures LastN(LastN(s, n) + [x], n) == LastN(s + [x], n)
  {
  }

  /** The records among the first `n` events. */
  function Recvs(events: seq<Event>, n: nat): seq<Record>
    requires n <= |events|
  {
    if n == 0 then []
    else Recvs(events, n - 1) + RecvOf(events[n - 1])
  }

  /** The records among the first `n` events that were written. */
  function LiveWritten(events: seq<Event>, n: nat): seq<Record>
    requires n <= |events|
  {
    if n == 0 then []
    else LiveWritten(events, n - 1) + WrittenOf(events[n - 1])
  }

  function RecvOf(event: Event): seq<Record> {
    if event.Received? then [event.data] else []
  }

  function WrittenOf(event: Event): seq<Record> {
    if event.Received? && event.write == Written then [event.data] else []
  }

  /** How an event ends the service of a connection, if it does. */
  function EndOf(event: Event): End {
    match event
    case Received(_, write) => if write == Failed then Retry else Running
    case ChannelClosed => Quit
    case PeerClosed => Retry
    case Flushed => Running
    case FlushFailed => Retry
  }

  /** What such an event leaves to be written again. */
  function LeftBy(event: Event): seq<Record> {
    if event.Received? && event.write == Failed then [event.data] else []
  }

  /** How many events are seen: up to the first that ends the service, or all. */
  function ServeEnd(events: seq<Event>, k: nat): (n: nat)
    requires k <= |events|
    ensures k <= n <= |events|
    ensures forall i :: k <= i < n - 1 ==> EndOf(events[i]) == Running
    decreases |events| - k
  {
    if k == |events| then k else if EndOf(events[k]) != Running then k + 1 else ServeEnd(events, k + 1)
  }

  /** Where flushing `q` stops: at the first failed write, or at the end. */
  function FlushEnd(q: seq<Record>, flush: nat -> Write, k: nat): (n: nat)
    requires k <= |q|
    ensures k <= n <= |q| && (n < |q| ==> flush(n) == Failed)
    ensures forall i :: k <= i < n ==> flush(i) != Failed
    decreases |q| - k
  {
    if k == |q| || flush(k) == Failed then k else FlushEnd(q, flush, k + 1)
  }

  /** The records among the first `n` of `q` that were written. */
  function Delivered(q: seq<Record>, flush: nat -> Write, n: nat): seq<Record>
    requires n <= |q|
  {
    if n == 0 then []
    else Delivered(q, flush, n - 1) + (if flush(n - 1) == Written then [q[n - 1]] else [])
  }

  lemma {:induction false} DeliveredNone(q: seq<Record>, flush: nat -> Write, n: nat)
    requires n <= |q|
    ensures Delivered(q, flush, n) == [] <==> forall i :: 0 <= i < n ==> flush(i) != Written
  {
    if n > 0 {
      DeliveredNone(q, flush, n - 1);
    }
  }

  // ----- The books of the thread -----

  /** What was received and written, what is queued, and the published counters. */
  datatype Books = Books(received: seq<Record>, written: seq<Record>, queue: seq<Record>, dropped: nat, passed: nat)

  /** Order, conservation and capacity. */
  ghost predicate Sound(b: Books, len: nat) {
    Accounted(b.written, b.queue, b.dropped, b.received) && |b.queue| <= len && b.passed <= |b.written|
  }

  /** The published counters account for every received record. */
  ghost predicate Balanced(b: Books) {
    |b.received| == b.passed + |b.queue| + b.dropped
  }

  lemma BalancedIff(b: Books, len: nat)
    requires Sound(b, len)
    ensures Balanced(b) <==> b.passed == |b.written|
  {
  }

  /** `x` arrives and is queued; the oldest record goes when the queue is over its length. */
  function Pushed(b: Books, x: Record, len: nat): Books {
    var queue := b.queue + [x];
    if |queue| > len then b.(received := b.received + [x], queue := queue[1..], dropped := b.dropped + 1)
    else b.(received := b.received + [x], queue := queue)
  }

  /** The oldest queued record is written, lost to a timeout, or stays. */
  function HeadWritten(b: Books, write: Write): Books
    requires b.queue != []
  {
    match write
    case Written => b.(written := b.written + [b.queue[0]], queue := b.queue[1..])
    case Failed => b
    case TimedOut => b.(queue := b.queue[1..], dropped := b.dropped + 1)
  }

  function Served(b: Books, event: Event, len: nat): Books {
    match event
    case Received(x, Written) =>
      b.(received := b.received + [x], written := b.written + [x], passed := b.passed + 1)
    case Received(x, TimedOut) => b.(received := b.received + [x], dropped := b.dropped + 1)
    case Received(x, Failed) => Pushed(b, x, len)
    case _ => b
  }

  function Waited(b: Books, records: seq<Record>, n: nat, len: nat): Books
    requires n <= |records|
  {
    if n == 0 then b else Pushed(Waited(b, records, n - 1, len), records[n - 1], len)
  }

  /** The books after the first `n` queued records were dealt with, none of which failed. */
  function FlushedTo(b: Books, flush: nat -> Write, n: nat): (r: Books)
    requires n <= |b.queue| && forall i :: 0 <= i < n ==> flush(i) != Failed
    ensures r.queue == b.queue[n..]
  {
    if n == 0 then b else HeadWritten(FlushedTo(b, flush, n - 1), flush(n - 1))
  }

  function ServedAll(b: Books, events: seq<Event>, n: nat, len: nat): Books
    requires n <= |events|
  {
    if n == 0 then b else Served(ServedAll(b, events, n - 1, len), events[n - 1], len)
  }

  function AfterSession(b: Books, s: Session, len: nat): Books {
    match s
    case NotConnected(records, _) => Waited(b, records, |records|, len)
    case Connected(flush, events) =>
      var k := FlushEnd(b.queue, flush, 0);
      var flushed := FlushedTo(b, flush, k);
      if k < |b.queue| then flushed else ServedAll(flushed, events, ServeEnd(events, 0), len)
  }

  function EndAfter(b: Books, s: Session): End {
    match s
    case NotConnected(_, closed) => if closed then Quit else Retry
    case Connected(flush, events) =>
      var n := ServeEnd(events, 0);
      if FlushEnd(b.queue, flush, 0) < |b.queue| then Retry else if n == 0 then Running else EndOf(events[n - 1])
  }

  // ----- When a session ends -----

  /** A closed channel, a close by the peer, a failed flush or a failed write. */
  ghost predicate Stops(event: Event) {
    || event.ChannelClosed? || event.PeerClosed? || event.FlushFailed?
    || (event.Received? && event.write == Failed)
  }

  /** The i-th event is the first that stops the service. */
  ghost predicate FirstStop(events: seq<Event>, i: nat) {
    i < |events| && Stops(events[i]) && forall j :: 0 <= j < i ==> !Stops(events[j])
  }

  ghost predicate NoStop(events: seq<Event>, k: nat) {
    forall j :: k <= j < |events| ==> !Stops(events[j])
  }

  ghost predicate ClosedFirst(events: seq<Event>) {
    exists i: nat :: FirstStop(events, i) && events[i].ChannelClosed?
  }

  ghost predicate LostFirst(events: seq<Event>) {
    exists i: nat :: FirstStop(events, i) && !events[i].ChannelClosed?
  }

  ghost predicate FlushesAll(q: seq<Record>, flush: nat -> Write) {
    forall k :: 0 <= k < |q| ==> flush(k) != Failed
  }

  /** The channel is found closed: while waiting, or with the queue flushed and the connection in order. */
  ghost predicate FindsClosed(q: seq<Record>, s: Session) {
    match s
    case NotConnected(_, closed) => closed
    case Connected(flush, events) => FlushesAll(q, flush) && ClosedFirst(events)
  }

  /** There is no connection, or it is lost to a failed write, a failed flush or a close by the peer. */
  ghost predicate IsLost(q: seq<Record>, s: Session) {
    match s
    case NotConnected(_, closed) => !closed
    case Connected(flush, events) => !FlushesAll(q, flush) || LostFirst(events)
  }

  lemma FirstStopIs(events: seq<Event>, i: nat)
    requires FirstStop(events, i)
    ensures ServeEnd(events, 0) == i + 1 && EndOf(events[i]) == if events[i].ChannelClosed? then Quit else Retry
    ensures ClosedFirst(events) <==> events[i].ChannelClosed?
    ensures LostFirst(events) <==> !events[i].ChannelClosed?
  {
    ServeEndFrom(events, 0, i);
    assert forall j: nat :: FirstStop(events, j) ==> j == i;
  }

  lemma {:induction false} ServeEndFrom(events: seq<Event>, k: nat, i: nat)
    requires FirstStop(events, i) && k <= i
    ensures ServeEnd(events, k) == i + 1
    decreases i - k
  {
    if k < i {
      assert !Stops(events[k]);
      ServeEndFrom(events, k + 1, i);
    }
  }

  lemma {:induction false} ServeEndAll(events: seq<Event>, k: nat)
    requires k <= |events| && NoStop(events, k)
    ensures ServeEnd(events, k) == |events|
    decreases |events| - k
  {
    if k < |events| {
      assert !Stops(events[k]);
      ServeEndAll(events, k + 1);
    }
  }

  lemma {:induction false} FindStop(events: seq<Event>, k: nat) returns (i: nat)
    requires k <= |events| && forall j :: 0 <= j < k ==> !Stops(events[j])
    ensures FirstStop(events, i) || NoStop(events, 0)
    decreases |events| - k
  {
    if k == |events| || Stops(events[k]) {
      i := k;
    } else {
      i := FindStop(events, k + 1);
    }
  }

  /** The service ends as its first stopping event says. */
  lemma ServiceEnds(events: seq<Event>)
    ensures var n := ServeEnd(events, 0);
            var end := if n == 0 then Running else EndOf(events[n - 1]);
            && (end == Quit <==> ClosedFirst(events)) && (end == Retry <==> LostFirst(events))
  {
    var i := FindStop(events, 0);
    if FirstStop(events, i) {
      FirstStopIs(events, i);
    } else {
      ServeEndAll(events, 0);
      assert |events| > 0 ==> !Stops(events[|events| - 1]);
    }
  }

  /** The thread quits when it finds the channel closed, and goes on to the next session when one is lost. */
  lemma SessionEnds(b: Books, s: Session)
    ensures EndAfter(b, s) == Quit <==> FindsClosed(b.queue, s)
    ensures EndAfter(b, s) == Retry <==> IsLost(b.queue, s)
  {
    if s.Connected? {
      ServiceEnds(s.events);
    }
  }

  // ----- Every step keeps the books sound -----

  lemma PushedSound(b: Books, x: Record, len: nat)
    requires Sound(b, len)
    ensures Sound(Pushed(b, x, len), len)
  {
    AccountReceive(b.written, b.queue, b.dropped, b.received, x);
    var queue := b.queue + [x];
    if |queue| > len {
      assert queue == [queue[0]] + queue[1..];
      AccountLose(b.written, queue[0], queue[1..], b.dropped, b.received + [x]);
    }
  }

  lemma HeadSound(b: Books, write: Write, len: nat)
    requires Sound(b, len) && b.queue != []
    ensures Sound(HeadWritten(b, write), len)
  {
    var x, rest := b.queue[0], b.queue[1..];
    assert b.queue == [x] + rest;
    match write
    case Written => AccountWrite(b.written, x, rest, b.dropped, b.received);
    case Failed =>
    case TimedOut => AccountLose(b.written, x, rest, b.dropped, b.received);
  }

  lemma ServedSound(b: Books, event: Event, len: nat)
    requires Sound(b, len) && b.queue == []
    ensures Sound(Served(b, event, len), len)
  {
    match event
    case Received(x, write) =>
      AccountReceive(b.written, [], b.dropped, b.received, x);
      assert [] + [x] == [x] == [x] + [];
      match write {
        case Written => AccountWrite(b.written, x, [], b.dropped, b.received + [x]);
        case TimedOut => AccountLose(b.written, x, [], b.dropped, b.received + [x]);
        case Failed => PushedSound(b, x, len);
      }
    case _ =>
  }

  lemma {:induction false} WaitedSound(b: Books, records: seq<Record>, n: nat, len: nat)
    requires Sound(b, len) && n <= |records|
    ensures Sound(Waited(b, records, n, len), len)
  {
    if n > 0 {
      WaitedSound(b, records, n - 1, len);
      PushedSound(Waited(b, records, n - 1, len), records[n - 1], len);
    }
  }

  lemma {:induction false} FlushedSound(b: Books, flush: nat -> Write, n: nat, len: nat)
    requires Sound(b, len) && n <= |b.queue| && forall i :: 0 <= i < n ==> flush(i) != Failed
    ensures Sound(FlushedTo(b, flush, n), len)
  {
    if n > 0 {
      FlushedSound(b, flush, n - 1, len);
      HeadSound(FlushedTo(b, flush, n - 1), flush(n - 1), len);
    }
  }

  lemma {:induction false} NothingLeft(b: Books, events: seq<Event>, n: nat, len: nat)
    requires b.queue == [] && n <= |events| && forall i :: 0 <= i < n ==> EndOf(events[i]) == Running
    ensures ServedAll(b, events, n, len).queue == []
  {
    if n > 0 {
      NothingLeft(b, events, n - 1, len);
    }
  }

  lemma {:induction false} ServedAllSound(b: Books, events: seq<Event>, n: nat, len: nat)
    requires Sound(b, len) && b.queue == [] && n <= |events|
    requires forall i :: 0 <= i < n - 1 ==> EndOf(events[i]) == Running
    ensures Sound(ServedAll(b, events, n, len), len)
  {
    if n > 0 {
      NothingLeft(b, events, n - 1, len);
      ServedAllSound(b, events, n - 1, len);
      ServedSound(ServedAll(b, events, n - 1, len), events[n - 1], len);
    }
  }

  // ----- What each phase does -----

  /** Waiting for a connection keeps the newest records and writes none. */
  lemma {:induction false} WaitedIs(b: Books, records: seq<Record>, n: nat, len: nat)
    requires |b.queue| <= len && n <= |records|
    ensures var r := Waited(b, records, n, len);
            && r.written == b.written && r.passed == b.passed && r.received == b.received + records[..n]
            && r.queue == LastN(b.queue + records[..n], len)
  {
    if n == 0 {
      assert b.received + records[..0] == b.received && b.queue + records[..0] == b.queue;
    } else {
      WaitedIs(b, records, n - 1, len);
      var x := records[n - 1];
      assert records[..n] == records[..n - 1] + [x];
      Associates(b.queue, records[..n - 1], [x]);
      Associates(b.received, records[..n - 1], [x]);
      LastNStep(b.queue + records[..n - 1], x, len);
    }
  }

  /** Flushing writes the queue in order, but for what timed out, and counts nothing as passed. */
  lemma {:induction false} FlushedIs(b: Books, flush: nat -> Write, n: nat)
    requires n <= |b.queue| && forall i :: 0 <= i < n ==> flush(i) != Failed
    ensures var r := FlushedTo(b, flush, n);
            && r.received == b.received && r.passed == b.passed && r.queue == b.queue[n..]
            && r.written == b.written + Delivered(b.queue, flush, n)
  {
    if n > 0 {
      FlushedIs(b, flush, n - 1);
      assert FlushedTo(b, flush, n - 1).queue[0] == b.queue[n - 1];
      Associates(b.written, Delivered(b.queue, flush, n - 1), [b.queue[n - 1]]);
    }
  }

  lemma ServedOne(b: Books, event: Event, len: nat)
    requires b.queue == []
    ensures var r := Served(b, event, len);
            && r.received == b.received + RecvOf(event) && r.written == b.written + WrittenOf(event)
            && r.passed == b.passed + |WrittenOf(event)| && r.queue == LastN(LeftBy(event), len)
  {
    if event.Received? && event.write == Failed {
      assert b.queue + [event.data] == [event.data];
    }
  }

  /** Serving the channel writes and counts what arrives; only a failed write leaves a record. */
  lemma {:induction false} ServedIs(b: Books, events: seq<Event>, n: nat, len: nat)
    requires b.queue == [] && n <= |events| && forall i :: 0 <= i < n - 1 ==> EndOf(events[i]) == Running
    ensures var r := ServedAll(b, events, n, len);
            && r.received == b.received + Recvs(events, n) && r.written == b.written + LiveWritten(events, n)
            && r.passed == b.passed + |LiveWritten(events, n)|
            && r.queue == if n == 0 then [] else LastN(LeftBy(events[n - 1]), len)
  {
    if n > 0 {
      ServedIs(b, events, n - 1, len);
      ServedOne(ServedAll(b, events, n - 1, len), events[n - 1], len);
      Associates(b.received, Recvs(events, n - 1), RecvOf(events[n - 1]));
      Associates(b.written, LiveWritten(events, n - 1), WrittenOf(events[n - 1]));
    }
  }

  /** A turn without a connection leaves the newest of what was queued and what arrives. */
  lemma WaitingLeaves(b: Books, records: seq<Record>, closed: bool, len: nat)
    requires |b.queue| <= len
    ensures var r, all := AfterSession(b, NotConnected(records, closed), len), b.queue + records;
            r.received == b.received + records && r.queue == if |all| <= len then all else all[|all| - len..]
  {
    WaitedIs(b, records, |records|, len);
    assert records[..|records|] == records;
  }

  /** A write that fails while the queue is flushed leaves the queue from there on. */
  lemma FlushLeaves(b: Books, flush: nat -> Write, events: seq<Event>, len: nat, n: nat)
    requires n < |b.queue| && flush(n) == Failed && forall k :: 0 <= k < n ==> flush(k) != Failed
    ensures var r := AfterSession(b, Connected(flush, events), len); r.received == b.received && r.queue == b.queue[n..]
  {
    FlushedIs(b, flush, n);
    assert FlushEnd(b.queue, flush, 0) == n;
  }

  /**
   With the queue flushed a connection takes the records up to the first stopping event, and
   leaves only a record whose write failed.
   */
  lemma StopLeaves(b: Books, flush: nat -> Write, events: seq<Event>, len: nat, n: nat)
    requires FlushesAll(b.queue, flush) && FirstStop(events, n)
    ensures var r := AfterSession(b, Connected(flush, events), len);
            && r.received == b.received + Recvs(events, n + 1)
            && r.queue == if events[n].Received? && len > 0 then [events[n].data] else []
  {
    var k := FlushEnd(b.queue, flush, 0);
    FlushedIs(b, flush, k);
    FirstStopIs(events, n);
    ServedIs(FlushedTo(b, flush, k), events, n + 1, len);
  }

  lemma RunningLeaves(b: Books, flush: nat -> Write, events: seq<Event>, len: nat)
    requires FlushesAll(b.queue, flush) && NoStop(events, 0)
    ensures var r := AfterSession(b, Connected(flush, events), len);
            r.received == b.received + Recvs(events, |events|) && r.queue == []
  {
    var k := FlushEnd(b.queue, flush, 0);
    FlushedIs(b, flush, k);
    ServeEndAll(events, 0);
    ServedIs(FlushedTo(b, flush, k), events, |events|, len);
    assert |events| > 0 ==> !Stops(events[|events| - 1]);
  }

  /** Some record of the queue is written before the first failed write. */
  ghost predicate WritesQueue(q: seq<Record>, s: Session) {
    s.Connected? && exists k :: 0 <= k < FlushEnd(q, s.flush, 0) && s.flush(k) == Written
  }

  /** Received and written records are only added to, and passed ones are among the written. */
  ghost predicate Grows(b: Books, r: Books) {
    b.received <= r.received && b.written <= r.written && |r.written| - r.passed >= |b.written| - b.passed
  }

  lemma GrowsOn(a: Books, b: Books, c: Books)
    requires Grows(a, b) && Grows(b, c)
    ensures Grows(a, c)
  {
  }

  lemma SessionSound(b: Books, s: Session, len: nat)
    requires Sound(b, len)
    ensures Sound(AfterSession(b, s, len), len)
  {
    match s
    case NotConnected(records, _) => WaitedSound(b, records, |records|, len);
    case Connected(flush, events) =>
      var k := FlushEnd(b.queue, flush, 0);
      FlushedSound(b, flush, k, len);
      if k == |b.queue| {
        ServedAllSound(FlushedTo(b, flush, k), events, ServeEnd(events, 0), len);
      }
  }

  /**
   One turn of the outer loop only adds to what was received and written, and what it writes
   uncounted is what it writes out of the queue.
   */
  lemma SessionIs(b: Books, s: Session, len: nat)
    requires |b.queue| <= len
    ensures var r := AfterSession(b, s, len);
            Grows(b, r) && (|r.written| - r.passed == |b.written| - b.passed <==> !WritesQueue(b.queue, s))
  {
    match s
    case NotConnected(records, _) => WaitedIs(b, records, |records|, len);
    case Connected(flush, events) =>
      var k := FlushEnd(b.queue, flush, 0);
      FlushedIs(b, flush, k);
      DeliveredNone(b.queue, flush, k);
      if k == |b.queue| {
        ServedIs(FlushedTo(b, flush, k), events, ServeEnd(events, 0), len);
      }
  }

  /** A balanced thread stays balanced over a session exactly if the session writes nothing out of the queue. */
  lemma SessionBalance(b: Books, s: Session, len: nat)
    requires Sound(b, len) && Balanced(b)
    ensures Balanced(AfterSession(b, s, len)) <==> !WritesQueue(b.queue, s)
  {
    SessionSound(b, s, len);
    SessionIs(b, s, len);
    BalancedIff(b, len);
    BalancedIff(AfterSession(b, s, len), len);
  }

  // ----- Whole runs -----

  /** The books the i-th session meets, if the thread gets that far. */
  function BooksAt(b: Books, sessions: seq<Session>, i: nat, len: nat): Option<Books>
    requires i <= |sessions|
  {
    if i == 0 then Some(b)
    else
      var before := BooksAt(b, sessions, i - 1, len);
      if before.None? || EndAfter(before.value, sessions[i - 1]) != Retry then None
      else Some(AfterSession(before.value, sessions[i - 1], len))
  }

  /** The i-th session is reached and writes a record out of the queue it meets. */
  ghost predicate WritesAt(b: Books, sessions: seq<Session>, i: nat, len: nat)
    requires i < |sessions|
  {
    BooksAt(b, sessions, i, len).Some? && WritesQueue(BooksAt(b, sessions, i, len).value.queue, sessions[i])
  }

  ghost predicate QueueNeverWritten(b: Books, sessions: seq<Session>, n: nat, len: nat)
    requires n <= |sessions|
  {
    forall i :: 0 <= i < n ==> !WritesAt(b, sessions, i, len)
  }

  /** The thread has run `n` sessions, the last of which ended so and left these books. */
  ghost predicate Stands(b: Books, sessions: seq<Session>, n: nat, len: nat, end: End, r: Books) {
    && n <= |sessions|
    && if end == Retry then BooksAt(b, sessions, n, len) == Some(r)
       else
         && n > 0 && BooksAt(b, sessions, n - 1, len).Some?
         && var met := BooksAt(b, sessions, n - 1, len).value;
            end == EndAfter(met, sessions[n - 1]) && r == AfterSession(met, sessions[n - 1], len)
  }

  lemma StandsStep(b: Books, sessions: seq<Session>, n: nat, len: nat, r: Books)
    requires n < |sessions| && Stands(b, sessions, n, len, Retry, r)
    ensures Stands(b, sessions, n + 1, len, EndAfter(r, sessions[n]), AfterSession(r, sessions[n], len))
  {
  }

  /** Every session that is reached meets sound books. */
  lemma {:induction false} BooksAtSound(b: Books, sessions: seq<Session>, i: nat, len: nat)
    requires Sound(b, len) && i <= |sessions| && BooksAt(b, sessions, i, len).Some?
    ensures Sound(BooksAt(b, sessions, i, len).value, len)
  {
    if i > 0 {
      BooksAtSound(b, sessions, i - 1, len);
      SessionSound(BooksAt(b, sessions, i - 1, len).value, sessions[i - 1], len);
    }
  }

  /** The uncounted part of what is written stays the same as long as no queue was written. */
  lemma {:induction false} BooksAtIs(b: Books, sessions: seq<Session>, i: nat, len: nat)
    requires Sound(b, len) && i <= |sessions| && BooksAt(b, sessions, i, len).Some?
    ensures var r := BooksAt(b, sessions, i, len).value;
            Grows(b, r) && (|r.written| - r.passed == |b.written| - b.passed <==> QueueNeverWritten(b, sessions, i, len))
  {
    if i > 0 {
      BooksAtSound(b, sessions, i - 1, len);
      BooksAtIs(b, sessions, i - 1, len);
      var before := BooksAt(b, sessions, i - 1, len).value;
      SessionIs(before, sessions[i - 1], len);
      NeverWrittenStep(b, sessions, i - 1, len);
      GrowsOn(b, before, AfterSession(before, sessions[i - 1], len));
    }
  }

  lemma NeverWrittenStep(b: Books, sessions: seq<Session>, i: nat, len: nat)
    requires i < |sessions|
    ensures QueueNeverWritten(b, sessions, i + 1, len) <==> QueueNeverWritten(b, sessions, i, len) && !WritesAt(b, sessions, i, len)
  {
  }

  lemma {:induction false} NotReached(b: Books, sessions: seq<Session>, i: nat, j: nat, len: nat)
    requires i <= j <= |sessions| && BooksAt(b, sessions, i, len).None?
    ensures BooksAt(b, sessions, j, len).None?
  {
    if i < j {
      NotReached(b, sessions, i, j - 1, len);
    }
  }

  /**
   In every run the books stay sound: order, conservation and capacity.  A run that starts
   balanced ends balanced exactly if no session it reaches writes a record out of the queue
   it meets, since such records are not counted as passed.
   */
  lemma RunIs(b: Books, sessions: seq<Session>, n: nat, len: nat, end: End, r: Books)
    requires Sound(b, len) && Stands(b, sessions, n, len, end, r) && (end == Retry ==> n == |sessions|)
    ensures Sound(r, len) && Grows(b, r)
    ensures Balanced(b) ==> (Balanced(r) <==> QueueNeverWritten(b, sessions, |sessions|, len))
  {
    if end == Retry {
      BooksAtSound(b, sessions, n, len);
      BooksAtIs(b, sessions, n, len);
    } else {
      BooksAtSound(b, sessions, n - 1, len);
      BooksAtIs(b, sessions, n - 1, len);
      var before := BooksAt(b, sessions, n - 1, len).value;
      SessionSound(before, sessions[n - 1], len);
      SessionIs(before, sessions[n - 1], len);
      GrowsOn(b, before, r);
      NeverWrittenStep(b, sessions, n - 1, len);
      forall i | n <= i < |sessions| ensures !WritesAt(b, sessions, i, len) {
        NotReached(b, sessions, n, i, len);
      }
    }
    BalancedIff(b, len);
    BalancedIff(r, len);
  }

  /**
   The thread ran `reached` sessions, which met the books `met` one after another.  All but
   the last were lost; the thread quit if the last one found the channel closed, and is to go
   on with the next session if the last one was lost too.
   */
  ghost predicate Ran(b: Books, sessions: seq<Session>, len: nat, end: End, reached: nat, met: seq<Books>, r: Books) {
    && |met| == reached && Met(b, sessions, len, met)
    && r == (if reached == 0 then b else AfterSession(met[reached - 1], sessions[reached - 1], len))
    && (forall i :: 0 <= i < reached - 1 ==> IsLost(met[i].queue, sessions[i]))
    && (end == Quit <==> reached > 0 && FindsClosed(met[reached - 1].queue, sessions[reached - 1]))
    && (end == Retry <==> reached == 0 || IsLost(met[reached - 1].queue, sessions[reached - 1]))
  }

  /** The books each session meets, from `b` on: those the session before it leaves. */
  ghost predicate Met(b: Books, sessions: seq<Session>, len: nat, met: seq<Books>) {
    && |met| <= |sessions|
    && forall i :: 0 <= i < |met| ==> met[i] == if i == 0 then b else AfterSession(met[i - 1], sessions[i - 1], len)
  }

  lemma RanStep(b: Books, sessions: seq<Session>, len: nat, reached: nat, met: seq<Books>, r: Books)
    requires reached < |sessions| && Ran(b, sessions, len, Retry, reached, met, r)
    ensures Ran(b, sessions, len, EndAfter(r, sessions[reached]), reached + 1, met + [r], AfterSession(r, sessions[reached], len))
  {
    SessionEnds(r, sessions[reached]);
  }

  lemma RanOn(b: Books, sessions: seq<Session>, len: nat, end: End, reached: nat, met: seq<Books>, r: Books)
    requires Ran(b, sessions, len, end, reached, met, r) && (end == Retry ==> reached == |sessions|)
    ensures forall i :: 0 <= i < reached && IsLost(met[i].queue, sessions[i]) ==> i + 1 < reached || reached == |sessions|
  {
  }

  class IoThread {
    const retryQueueLen: nat
    var retryQueue: seq<Record>
    var dropped: nat
    var passed: nat
    ghost var received: seq<Record>
    ghost var written: seq<Record>

    constructor (retryQueueLen: nat)
      ensures this.retryQueueLen == retryQueueLen && State() == Books([], [], [], 0, 0)
    {
      this.retryQueueLen := retryQueueLen;
      retryQueue, dropped, passed := [], 0, 0;
      received, written := [], [];
    }

    ghost function State(): Books
      reads this
    {
      Books(received, written, retryQueue, dropped, passed)
    }

    /** Queues `data`, which just arrived, and gives up the oldest record when the queue is over its length. */
    method PushToRetry(data: Record) returns (evicted: Option<Record>)
      modifies this
      ensures State() == Pushed(old(State()), data, retryQueueLen)
      ensures evicted == if |old(retryQueue)| >= retryQueueLen then Some((old(retryQueue) + [data])[0]) else None
    {
      received := received + [data];
      retryQueue := retryQueue + [data];
      if |retryQueue| > retryQueueLen {
        dropped := dropped + 1;
        var oldest := retryQueue[0];
        retryQueue := retryQueue[1..];
        return Some(oldest);
      }
      evicted := None;
    }

    /** Receives until the channel closes or the connect delay is over. */
    method RunWithoutConnection(records: seq<Record>, closed: bool) returns (end: End)
      modifies this
      ensures State() == Waited(old(State()), records, |records|, retryQueueLen)
      ensures end == if closed then Quit else Retry
    {
      for i := 0 to |records|
        invariant State() == Waited(old(State()), records, i, retryQueueLen)
      {
        var _ := PushToRetry(records[i]);
      }
      end := if closed then Quit else Retry;
    }

    /** Drains the retry queue into a new connection; stops at the first failed write. */
    method FlushQueue(flush: nat -> Write) returns (ok: bool)
      modifies this
      ensures ok <==> FlushEnd(old(retryQueue), flush, 0) == |old(retryQueue)|
      ensures State() == FlushedTo(old(State()), flush, FlushEnd(old(retryQueue), flush, 0))
    {
      var n := 0;
      ghost var q := retryQueue;
      while retryQueue != []
        invariant n <= |q| && FlushEnd(q, flush, 0) == FlushEnd(q, flush, n)
        invariant State() == FlushedTo(old(State()), flush, n)
        decreases |retryQueue|
      {
        ok := FlushHead(flush(n));
        if !ok {
          return;
        }
        n := n + 1;
      }
      ok := true;
    }

    /** Writes the oldest queued record; it is put back in front when that fails. */
    method FlushHead(write: Write) returns (ok: bool)
      requires retryQueue != []
      modifies this
      ensures (ok <==> write != Failed) && State() == HeadWritten(old(State()), write)
    {
      var data := retryQueue[0];
      retryQueue := retryQueue[1..];
      match write {
        case Written =>
          written := written + [data];
        case Failed =>
          retryQueue := [data] + retryQueue;
          return false;
        case TimedOut =>
          dropped := dropped + 1;
      }
      ok := true;
    }

    /** Serves the channel over an open connection until something ends it. */
    method ServeChannel(events: seq<Event>) returns (end: End)
      modifies this
      ensures var n := ServeEnd(events, 0);
              && end == (if n == 0 then Running else EndOf(events[n - 1]))
              && State() == ServedAll(old(State()), events, n, retryQueueLen)
      ensures (end == Quit <==> ClosedFirst(events)) && (end == Retry <==> LostFirst(events))
    {
      ServiceEnds(events);
      var n := 0;
      while n < |events|
        invariant n <= |events| && ServeEnd(events, 0) == ServeEnd(events, n)
        invariant n > 0 ==> EndOf(events[n - 1]) == Running
        invariant State() == ServedAll(old(State()), events, n, retryQueueLen)
      {
        var event := events[n];
        n := n + 1;
        match event {
          case Received(data, write) =>
            match write {
              case Written =>
                received, written := received + [data], written + [data];
                passed := passed + 1;
              case Failed =>
                var _ := PushToRetry(data);
                return Retry;
              case TimedOut =>
                received := received + [data];
                dropped := dropped + 1;
            }
          case ChannelClosed => return Quit;
          case PeerClosed => return Retry;
          case Flushed =>
          case FlushFailed => return Retry;
        }
      }
      end := Running;
    }

    /** Serves one connection: the queue first, then the channel. */
    method RunWithConnection(flush: nat -> Write, events: seq<Event>) returns (end: End)
      modifies this
      ensures State() == AfterSession(old(State()), Connected(flush, events), retryQueueLen)
      ensures end == EndAfter(old(State()), Connected(flush, events))
      ensures end == Quit <==> FlushesAll(old(retryQueue), flush) && ClosedFirst(events)
      ensures end == Retry <==> !FlushesAll(old(retryQueue), flush) || LostFirst(events)
    {
      SessionEnds(State(), Connected(flush, events));
      var ok := FlushQueue(flush);
      if !ok {
        return Retry;
      }
      end := ServeChannel(events);
    }

    /** The turns of the outer loop: every script of connects, losses and receives. */
    method RunSessions(sessions: seq<Session>) returns (end: End, reached: nat, ghost met: seq<Books>)
      modifies this
      ensures Stands(old(State()), sessions, reached, retryQueueLen, end, State())
      ensures Ran(old(State()), sessions, retryQueueLen, end, reached, met, State())
      ensures end == Retry ==> reached == |sessions|
    {
      end, reached, met := Retry, 0, [];
      while reached < |sessions| && end == Retry
        invariant Stands(old(State()), sessions, reached, retryQueueLen, end, State())
        invariant Ran(old(State()), sessions, retryQueueLen, end, reached, met, State())
        decreases |sessions| - reached
      {
        StandsStep(old(State()), sessions, reached, retryQueueLen, State());
        RanStep(old(State()), sessions, retryQueueLen, reached, met, State());
        met := met + [State()];
        match sessions[reached] {
          case Connected(flush, events) =>
            end := RunWithConnection(flush, events);
          case NotConnected(records, closed) =>
            end := RunWithoutConnection(records, closed);
        }
        reached := reached + 1;
      }
    }
  }

  /** The whole life of a new thread. */
  method RunToEnd(retryQueueLen: nat, sessions: seq<Session>) 
    returns (t: IoThread, end: End, reached: nat, ghost met: seq<Books>)
    ensures fresh(t) && t.retryQueueLen == retryQueueLen
    ensures var b := t.State();
            && Subsequence(b.written + b.queue, b.received) && |b.queue| <= retryQueueLen
            && |b.received| == |b.written| + |b.queue| + b.dropped
            && Stands(Books([], [], [], 0, 0), sessions, reached, retryQueueLen, end, b)
            && (Balanced(b) <==> QueueNeverWritten(Books([], [], [], 0, 0), sessions, |sessions|, retryQueueLen))
    ensures |met| == reached <= |sessions| && Met(Books([], [], [], 0, 0), sessions, retryQueueLen, met)
    ensures end == Quit <==> reached > 0 && FindsClosed(met[reached - 1].queue, sessions[reached - 1])
    ensures forall i :: 0 <= i < reached && IsLost(met[i].queue, sessions[i]) ==> i + 1 < reached || reached == |sessions|
    ensures forall i :: 0 <= i < reached - 1 ==> IsLost(met[i].queue, sessions[i])
  {
    t := new IoThread(retryQueueLen);
    ghost var b := t.State();
    end, reached, met := t.RunSessions(sessions);
    RunIs(b, sessions, reached, retryQueueLen, end, t.State());
    RanOn(b, sessions, retryQueueLen, end, reached, met, t.State());
  }

  /** A record that waits for a connection is delivered, yet no counter shows it. */
  lemma DeliveredButNotCounted(b: Books, sessions: seq<Session>)
    requires b == Books([], [], [], 0, 0)
    requires sessions == [NotConnected(["a"], false), Connected(k => Written, [])]
    ensures Stands(b, sessions, 2, 1, Running, Books(["a"], ["a"], [], 0, 0)) && !Balanced(Books(["a"], ["a"], [], 0, 0))
  {
    var one := Books(["a"], [], ["a"], 0, 0);
    assert Waited(b, ["a"], 1, 1) == one by {
      assert Waited(b, ["a"], 0, 1) == b;
    }
    assert BooksAt(b, sessions, 0, 1) == Some(b);
    assert BooksAt(b, sessions, 1, 1) == Some(one);
    var flush := sessions[1].flush;
    assert flush(0) == Written;
    assert FlushEnd(["a"], flush, 0) == FlushEnd(["a"], flush, 1) == 1;
    assert FlushedTo(one, flush, 0) == one;
    assert FlushedTo(one, flush, 1) == Books(["a"], ["a"], [], 0, 0);
  }
}
