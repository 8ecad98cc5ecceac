/** The latency relay (tools/netdelay.py): a reader and a writer task around a queue.

    The two tasks are the steps of a state machine; any interleaving of them, with any
    passage of time in between, is a run.  A task that dies of an error takes no further
    step, so the runs include those that lose either side at any point. */
module Relay {

  datatype Config = Config(delay: real, jitter: real)

  function AbsR(v: real): real { if v < 0.0 then -v else v }

  function MaxR(a: real, b: real): real { if a < b then b else a }

  /** One chunk as the reader sees it: when it arrived, the jitter drawn for it, its bytes. */
  datatype Chunk = Chunk(at: real, draw: real, data: seq<int>)

  /** How long a chunk is held: only a jittered delay is clamped at zero. */
  function Held(c: Config, draw: real): real
  {
    if c.jitter == 0.0 then c.delay else MaxR(c.delay + draw, 0.0)
  }

  // --- Due times ---------------------------------------------------------------------

  /** The due time of the last chunk: the largest arrival plus hold so far. */
  function Due(c: Config, chunks: seq<Chunk>): real
  {
    if chunks == [] then 0.0
    else
      var last := chunks[|chunks| - 1];
      MaxR(last.at + Held(c, last.draw), Due(c, chunks[..|chunks| - 1]))
  }

  /** Arrivals in the order of a clock that starts at zero, with draws from the range. */
  predicate Arrivals(c: Config, chunks: seq<Chunk>)
  {
    && (forall i :: 0 <= i < |chunks| ==>
        chunks[i].at >= 0.0 && AbsR(chunks[i].draw) <= AbsR(c.jitter) && chunks[i].data != [])
    && (forall i, j :: 0 <= i < j < |chunks| ==> chunks[i].at <= chunks[j].at)
  }

  /** Due times never decrease, and no chunk is due before it has been held long enough. */
  lemma {:induction false} DueOrdered(c: Config, chunks: seq<Chunk>, i: nat, j: nat)
    requires i <= j <= |chunks|
    ensures Due(c, chunks[..i]) <= Due(c, chunks[..j])
    ensures i < j ==> Due(c, chunks[..j]) >= chunks[i].at + Held(c, chunks[i].draw)
    decreases j
  {
    if i < j {
      DueOrdered(c, chunks, i, j - 1);
      assert chunks[..j][..j - 1] == chunks[..j - 1];
    }
  }

  /** The due time is met by some chunk: it is a running maximum. */
  lemma {:induction false} DueAttained(c: Config, chunks: seq<Chunk>) returns (k: int)
    ensures -1 <= k < |chunks|
    ensures Due(c, chunks) == if k < 0 then 0.0 else chunks[k].at + Held(c, chunks[k].draw)
  {
    if chunks == [] {
      k := -1;
    } else {
      k := DueAttained(c, chunks[..|chunks| - 1]);
      var last := chunks[|chunks| - 1];
      if Due(c, chunks[..|chunks| - 1]) <= last.at + Held(c, last.draw) { k := |chunks| - 1; }
    }
  }

  /** Without jitter the relay is a pure delay; a negative one only reaches back to the
      clock's zero. */
  lemma NoJitterNoQueueing(c: Config, chunks: seq<Chunk>)
    requires c.jitter == 0.0 && Arrivals(c, chunks) && chunks != []
    ensures Due(c, chunks) == MaxR(chunks[|chunks| - 1].at + c.delay, 0.0)
  {
    var k := DueAttained(c, chunks);
    DueOrdered(c, chunks, 0, |chunks|);
    DueOrdered(c, chunks, |chunks| - 1, |chunks|);
    assert chunks[..|chunks|] == chunks;
  }

  /** A chunk that overtakes nothing is due its delay after it arrived, moved by exactly the jitter
      drawn for it, and never before it arrived. */
  lemma DueMovesWithDraw(c: Config, chunks: seq<Chunk>)
    requires chunks != [] && c.jitter != 0.0
    ensures var last, before := chunks[|chunks| - 1], Due(c, chunks[..|chunks| - 1]);
            && (c.delay + last.draw >= 0.0 && before <= last.at + c.delay + last.draw ==>
                  Due(c, chunks) == last.at + c.delay + last.draw)
            && (c.delay + last.draw < 0.0 && before <= last.at ==> Due(c, chunks) == last.at)
            && (before > last.at + c.delay + last.draw && before > last.at ==> Due(c, chunks) == before)
  {
  }

  /** The longest and the shortest a chunk can be held by itself. */
  function MostHeld(c: Config): real { MaxR(c.delay + AbsR(c.jitter), 0.0) }

  function LeastHeld(c: Config): real
  {
    if c.jitter == 0.0 then c.delay else MaxR(c.delay - AbsR(c.jitter), 0.0)
  }

  /** No chunk is due earlier than the least, or later than the greatest hold after it
      arrived, however the chunks before it were delayed. */
  lemma HoldBounded(c: Config, chunks: seq<Chunk>)
    requires Arrivals(c, chunks) && chunks != []
    ensures var at := chunks[|chunks| - 1].at; at + LeastHeld(c) <= Due(c, chunks) <= at + MostHeld(c)
  {
    var k := DueAttained(c, chunks);
    DueOrdered(c, chunks, |chunks| - 1, |chunks|);
    assert chunks[..|chunks|] == chunks;
    assert AbsR(chunks[|chunks| - 1].draw) <= AbsR(c.jitter);
    if k >= 0 { assert AbsR(chunks[k].draw) <= AbsR(c.jitter); }
  }

  /** The reader's loop over the chunks of a connection. */
  method ReadSide(c: Config, chunks: seq<Chunk>) returns (queue: seq<(real, seq<int>)>)
    ensures |queue| == |chunks|
    ensures forall i :: 0 <= i < |chunks| ==> queue[i] == (Due(c, chunks[..i + 1]), chunks[i].data)
  {
    queue := [];
    var nextOk := 0.0;
    for i := 0 to |chunks|
      invariant |queue| == i && nextOk == Due(c, chunks[..i])
      invariant forall j :: 0 <= j < i ==> queue[j] == (Due(c, chunks[..j + 1]), chunks[j].data)
    {
      var d := c.delay;
      if c.jitter != 0.0 {
        d := d + chunks[i].draw;
        if d < 0.0 { d := 0.0; }
      }
      assert chunks[..i + 1][..i] == chunks[..i];
      var due := MaxR(chunks[i].at + d, nextOk);
      nextOk := due;
      queue := queue + [(due, chunks[i].data)];
    }
  }

  // --- The two tasks ---------------------------------------------------------------------

  datatype Item = Item(due: real, data: seq<int>) | Eof

  datatype Reader = Reading | ReadDone

  datatype Writer = Idle | Holding(item: Item) | Draining | WriteDone

  /** A delivery: when it happened, when it was due, and what was written. */
  datatype Delivery = Delivery(at: real, due: real, data: seq<int>)

  datatype State = State(clock: real, reader: Reader, writer: Writer, queue: seq<Item>, nextOk: real,
                         arrived: seq<Chunk>, delivered: seq<Delivery>)

  const INIT := State(0.0, Reading, Idle, [], 0.0, [], [])

  ghost predicate Passes(s: State, s': State) { s'.clock >= s.clock && s' == s.(clock := s'.clock) }

  /** `reader.read` returned data; it is stamped and queued. */
  ghost predicate Reads(c: Config, s: State, s': State)
  {
    exists data: seq<int>, draw: real :: ReadsChunk(c, s, s', data, draw)
  }

  ghost predicate ReadsChunk(c: Config, s: State, s': State, data: seq<int>, draw: real)
  {
    && s.reader == Reading && data != [] && AbsR(draw) <= AbsR(c.jitter)
    && var d := if c.jitter == 0.0 then c.delay else if c.delay + draw < 0.0 then 0.0 else c.delay + draw;
       var due := MaxR(s.clock + d, s.nextOk);
       s' == s.(nextOk := due, queue := s.queue + [Item(due, data)],
                arrived := s.arrived + [Chunk(s.clock, draw, data)])
  }

  /** End of stream, or an error in the reader: either way the queue is told. */
  ghost predicate ReadEnds(s: State, s': State)
  {
    && s.reader == Reading
    && s' == s.(reader := ReadDone, queue := s.queue + [Eof])
  }

  ghost predicate Gets(s: State, s': State)
  {
    && s.writer == Idle && s.queue != []
    && s' == s.(queue := s.queue[1..], writer := if s.queue[0] == Eof then WriteDone else Holding(s.queue[0]))
  }

  /** The sleep is over. */
  ghost predicate Writes(s: State, s': State)
  {
    && s.writer.Holding? && s.writer.item.Item? && s.clock >= s.writer.item.due
    && s' == s.(writer := Draining,
                delivered := s.delivered + [Delivery(s.clock, s.writer.item.due, s.writer.item.data)])
  }

  ghost predicate Drains(s: State, s': State) { s.writer == Draining && s' == s.(writer := Idle) }

  ghost predicate Next(c: Config, s: State, s': State)
  {
    Passes(s, s') || Reads(c, s, s') || ReadEnds(s, s') || Gets(s, s') || Writes(s, s') || Drains(s, s')
  }

  ghost predicate IsRun(c: Config, run: seq<State>)
  {
    run != [] && run[0] == INIT && forall i :: 0 <= i < |run| - 1 ==> Next(c, run[i], run[i + 1])
  }

  // --- The invariant ------------------------------------------------------------------------

  /** What the reader has queued in all, chunk by chunk. */
  function Stamped(c: Config, chunks: seq<Chunk>): (items: seq<Item>)
    ensures |items| == |chunks| && forall i :: 0 <= i < |items| ==> items[i].Item?
  {
    if chunks == [] then []
    else Stamped(c, chunks[..|chunks| - 1]) + [Item(Due(c, chunks), chunks[|chunks| - 1].data)]
  }

  function Sent(deliveries: seq<Delivery>): (items: seq<Item>)
    ensures |items| == |deliveries| && forall i :: 0 <= i < |items| ==>
            items[i] == Item(deliveries[i].due, deliveries[i].data)
  {
    seq(|deliveries|, i requires 0 <= i < |deliveries| => Item(deliveries[i].due, deliveries[i].data))
  }

  function InHand(w: Writer): seq<Item> { if w.Holding? then [w.item] else [] }

  function Tail(r: Reader, w: Writer): seq<Item> { if r == ReadDone && w != WriteDone then [Eof] else [] }

  ghost predicate Inv(c: Config, s: State)
  {
    && Arrivals(c, s.arrived)
    && s.clock >= 0.0 && (forall i :: 0 <= i < |s.arrived| ==> s.arrived[i].at <= s.clock)
    && s.nextOk == Due(c, s.arrived)
    && Stamped(c, s.arrived) + Tail(s.reader, s.writer) == Sent(s.delivered) + InHand(s.writer) + s.queue
    && (s.writer == WriteDone ==> s.reader == ReadDone && s.queue == [])
    && (s.writer.Holding? ==> s.writer.item.Item?)
    && (forall i :: 0 <= i < |s.delivered| ==> s.delivered[i].due <= s.delivered[i].at <= s.clock)
    && (forall i, j :: 0 <= i < j < |s.delivered| ==> s.delivered[i].at <= s.delivered[j].at)
  }

  lemma StampedNext(c: Config, chunks: seq<Chunk>, x: Chunk)
    ensures Stamped(c, chunks + [x]) == Stamped(c, chunks) + [Item(Due(c, chunks + [x]), x.data)]
    ensures Due(c, chunks + [x]) == MaxR(x.at + Held(c, x.draw), Due(c, chunks))
  {
    assert (chunks + [x])[..|chunks|] == chunks;
  }

  lemma ReadsKeeps(c: Config, s: State, s': State, data: seq<int>, draw: real)
    requires Inv(c, s) && ReadsChunk(c, s, s', data, draw)
    ensures Inv(c, s')
  {
    var x := Chunk(s.clock, draw, data);
    StampedNext(c, s.arrived, x);
    var base := Sent(s.delivered) + InHand(s.writer);
    assert s.writer != WriteDone;
    assert base + s.queue + [Item(s'.nextOk, data)] == base + s'.queue;
  }

  lemma EndKeeps(c: Config, s: State, s': State)
    requires Inv(c, s) && ReadEnds(s, s')
    ensures Inv(c, s')
  {
    var base := Sent(s.delivered) + InHand(s.writer);
    assert base + s.queue + [Eof] == base + s'.queue;
  }

  lemma GetsKeeps(c: Config, s: State, s': State)
    requires Inv(c, s) && Gets(s, s')
    ensures Inv(c, s')
  {
    var all := Sent(s.delivered) + s.queue;
    var n := |s.delivered|;
    assert Stamped(c, s.arrived) + Tail(s.reader, s.writer) == all;
    assert s.queue == [s.queue[0]] + s.queue[1..];
    assert all[n] == s.queue[0];
    if s.queue[0] == Eof {
      // only the end marker is not a stamped chunk, and it is the last element
      assert n == |s.arrived| && |all| == n + 1;
      assert Stamped(c, s.arrived) == all[..n] == Sent(s.delivered);
    } else {
      assert Sent(s.delivered) + [s.queue[0]] + s'.queue == all;
    }
  }

  lemma WritesKeeps(c: Config, s: State, s': State)
    requires Inv(c, s) && Writes(s, s')
    ensures Inv(c, s')
  {
    assert Sent(s'.delivered) == Sent(s.delivered) + [s.writer.item];
  }

  lemma NextKeeps(c: Config, s: State, s': State)
    requires Inv(c, s) && Next(c, s, s')
    ensures Inv(c, s')
  {
    if Reads(c, s, s') {
      var data: seq<int>, draw: real :| ReadsChunk(c, s, s', data, draw);
      ReadsKeeps(c, s, s', data, draw);
    } else if ReadEnds(s, s') {
      EndKeeps(c, s, s');
    } else if Gets(s, s') {
      GetsKeeps(c, s, s');
    } else if Writes(s, s') {
      WritesKeeps(c, s, s');
    }
  }

  lemma {:induction false} RunKeeps(c: Config, run: seq<State>, i: nat)
    requires IsRun(c, run) && i < |run|
    ensures Inv(c, run[i])
  {
    if i > 0 {
      RunKeeps(c, run, i - 1);
      assert Next(c, run[i - 1], run[i - 1 + 1]);
      NextKeeps(c, run[i - 1], run[i]);
    }
  }

  // --- What both ends see ---------------------------------------------------------------------

  function Received(chunks: seq<Chunk>): seq<int>
  {
    if chunks == [] then [] else Received(chunks[..|chunks| - 1]) + chunks[|chunks| - 1].data
  }

  function Written(deliveries: seq<Delivery>): seq<int>
  {
    if deliveries == [] then [] else Written(deliveries[..|deliveries| - 1]) + deliveries[|deliveries| - 1].data
  }

  lemma {:induction false} StampedAt(c: Config, chunks: seq<Chunk>, i: nat)
    requires i < |chunks|
    ensures Stamped(c, chunks)[i] == Item(Due(c, chunks[..i + 1]), chunks[i].data)
  {
    if i < |chunks| - 1 {
      var front := chunks[..|chunks| - 1];
      assert chunks[..i + 1] == front[..i + 1];
      StampedAt(c, front, i);
    } else {
      assert chunks[..i + 1] == chunks;
    }
  }

  /** The parts of two equal concatenations, when only the last element is special. */
  lemma PrefixOfBoth<T>(a: seq<T>, end: seq<T>, b: seq<T>, rest: seq<T>)
    requires a + end == b + rest && |end| <= 1
    requires |b| <= |a| || b[|b| - 1] != end[0]
    ensures b <= a && (rest == [] && end == [] ==> b == a)
  {
    var all := a + end;
    assert all == b + rest;
    assert b != [] ==> all[|b| - 1] == b[|b| - 1];
    assert end != [] ==> all[|a|] == end[0];
    assert b == all[..|b|] && a == all[..|a|];
  }

  lemma DeliveredPrefix(c: Config, s: State)
    requires Inv(c, s)
    ensures Sent(s.delivered) <= Stamped(c, s.arrived)
    ensures s.writer == WriteDone ==> Sent(s.delivered) == Stamped(c, s.arrived)
  {
    var sent, rest := Sent(s.delivered), InHand(s.writer) + s.queue;
    assert sent + InHand(s.writer) + s.queue == sent + rest;
    PrefixOfBoth(Stamped(c, s.arrived), Tail(s.reader, s.writer), sent, rest);
  }

  /** In every state of every run, the deliveries made are the first chunks that arrived,
      unchanged and in order, each no earlier than its due time. */
  lemma DeliveredInOrder(c: Config, run: seq<State>, n: nat)
    requires IsRun(c, run) && n < |run|
    ensures var s := run[n];
            |s.delivered| <= |s.arrived| &&
            forall i :: 0 <= i < |s.delivered| ==>
              && s.delivered[i].data == s.arrived[i].data
              && s.delivered[i].due == Due(c, s.arrived[..i + 1]) <= s.delivered[i].at
  {
    RunKeeps(c, run, n);
    DeliveriesMatch(c, run[n]);
  }

  lemma DeliveriesMatch(c: Config, s: State)
    requires Inv(c, s)
    ensures |s.delivered| <= |s.arrived| &&
            forall i :: 0 <= i < |s.delivered| ==>
              && s.delivered[i].data == s.arrived[i].data
              && s.delivered[i].due == Due(c, s.arrived[..i + 1]) <= s.delivered[i].at
  {
    DeliveredPrefix(c, s);
    forall i | 0 <= i < |s.delivered|
      ensures s.delivered[i].data == s.arrived[i].data && s.delivered[i].due == Due(c, s.arrived[..i + 1])
    {
      StampedAt(c, s.arrived, i);
      assert Sent(s.delivered)[i] == Stamped(c, s.arrived)[i];
    }
  }

  lemma {:induction false} WrittenIsPrefix(chunks: seq<Chunk>, deliveries: seq<Delivery>)
    requires |deliveries| <= |chunks| && forall i :: 0 <= i < |deliveries| ==> deliveries[i].data == chunks[i].data
    ensures Written(deliveries) <= Received(chunks)
    ensures |deliveries| == |chunks| ==> Written(deliveries) == Received(chunks)
    decreases |chunks|
  {
    if |deliveries| < |chunks| {
      WrittenIsPrefix(chunks[..|chunks| - 1], deliveries);
    } else if deliveries != [] {
      WrittenIsPrefix(chunks[..|chunks| - 1], deliveries[..|deliveries| - 1]);
    }
  }

  /** Safety over whole runs: the bytes written are a prefix of the bytes read, and once
      the writer has finished they are all of them. */
  lemma BytesPreserved(c: Config, run: seq<State>, n: nat)
    requires IsRun(c, run) && n < |run|
    ensures Written(run[n].delivered) <= Received(run[n].arrived)
    ensures run[n].writer == WriteDone ==> Written(run[n].delivered) == Received(run[n].arrived)
  {
    RunKeeps(c, run, n);
    DeliveriesMatch(c, run[n]);
    DeliveredPrefix(c, run[n]);
    WrittenIsPrefix(run[n].arrived, run[n].delivered);
  }

  /** The delay is a delay and not a stall: a chunk's due time depends only on what had
      arrived by then, so the writer may lag but later due times do not move with it. */
  lemma DueUnaffectedByWriter(c: Config, run: seq<State>, run': seq<State>, n: nat, n': nat, i: nat)
    requires IsRun(c, run) && IsRun(c, run') && n < |run| && n' < |run'|
    requires i < |run[n].delivered| && i < |run'[n'].delivered|
    requires i < |run[n].arrived| && i < |run'[n'].arrived| && run[n].arrived[..i + 1] == run'[n'].arrived[..i + 1]
    ensures run[n].delivered[i].due == run'[n'].delivered[i].due
  {
    DeliveredInOrder(c, run, n);
    DeliveredInOrder(c, run', n');
  }

  /** After the end of the stream an idle writer always has something to fetch: no wake-up
      is lost, so it cannot wait for ever before it has seen the end marker. */
  lemma NoLostWakeup(c: Config, run: seq<State>, n: nat)
    requires IsRun(c, run) && n < |run|
    requires run[n].reader == ReadDone && run[n].writer == Idle
    ensures run[n].queue != []
  {
    RunKeeps(c, run, n);
    var s := run[n];
    var all := Stamped(c, s.arrived) + Tail(s.reader, s.writer);
    DeliveredPrefix(c, s);
    assert |all| == |s.arrived| + 1 == |s.delivered| + |s.queue|;
  }
}
