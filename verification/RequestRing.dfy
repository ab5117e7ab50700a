/** The request ring of clients and server (issd_Compute_client.c, reqQueue.c): atomic steps in any order. */
module RequestRing {
  import opened Common

  type Packet = int
  type Pid = nat

  /** Where a producer is in sendReqPacket; each constructor names what it does next. */
  datatype Producer =
    | WaitEmpty(p: Packet)
    | WaitMutex(p: Packet)
    | Write(p: Packet)
    | Advance
    | PostMutex
    | PostFull
    | Done

  /** Where a consumer is in getNextReqPacket. */
  datatype Consumer =
    | WaitFull
    | WaitMutex
    | Read
    | Advance(p: Packet)
    | PostMutex(p: Packet)
    | PostEmpty(p: Packet)
    | Got(p: Packet)

  datatype Ring = Ring(
    buffer: seq<Packet>,              // shared_buffer
    full: nat, empty: nat,            // counting semaphores
    prodFree: bool, consFree: bool,   // mutex_producer, mutex_consumer
    wr: nat, rd: nat,                 // *pWrIdx, *pRdIdx
    prods: map<Pid, Producer>, conses: map<Pid, Consumer>,
    // history: packets written to slots, and read from them, and who did so
    sent: seq<Packet>, received: seq<Packet>, writers: seq<Pid>, readers: seq<Pid>)

  // ----- steps -----

  /** A producer comes with a packet, or a consumer comes for one. */
  datatype Step = Send(pid: Pid, packet: Packet) | Receive(pid: Pid) | ProducerStep(pid: Pid) | ConsumerStep(pid: Pid)

  predicate ProducerCan(r: Ring, pid: Pid) {
    && pid in r.prods
    && match r.prods[pid]
       case WaitEmpty(_) => r.empty > 0
       case WaitMutex(_) => r.prodFree
       case Write(_) => r.wr < |r.buffer|
       case Done => false
       case _ => true
  }

  predicate ConsumerCan(r: Ring, pid: Pid) {
    && pid in r.conses
    && match r.conses[pid]
       case WaitFull => r.full > 0
       case WaitMutex => r.consFree
       case Read => r.rd < |r.buffer|
       case Got(_) => false
       case _ => true
  }

  predicate Enabled(r: Ring, s: Step) {
    match s
    case Send(pid, _) => pid !in r.prods || r.prods[pid].Done?
    case Receive(pid) => pid !in r.conses || r.conses[pid].Got?
    case ProducerStep(pid) => ProducerCan(r, pid)
    case ConsumerStep(pid) => ConsumerCan(r, pid)
  }

  function ProducerNext(r: Ring, pid: Pid): Ring
    requires ProducerCan(r, pid) && 0 < |r.buffer|
  {
    match r.prods[pid]
    case WaitEmpty(p) => r.(empty := r.empty - 1, prods := r.prods[pid := Producer.WaitMutex(p)])
    case WaitMutex(p) => r.(prodFree := false, prods := r.prods[pid := Write(p)])
    case Write(p) => r.(buffer := r.buffer[r.wr := p], sent := r.sent + [p], writers := r.writers + [pid],
      prods := r.prods[pid := Producer.Advance])
    case Advance => r.(wr := (r.wr + 1) % |r.buffer|, prods := r.prods[pid := Producer.PostMutex])
    case PostMutex => r.(prodFree := true, prods := r.prods[pid := PostFull])
    case PostFull => r.(full := r.full + 1, prods := r.prods[pid := Done])
    case Done => r
  }

  function ConsumerNext(r: Ring, pid: Pid): Ring
    requires ConsumerCan(r, pid) && 0 < |r.buffer|
  {
    match r.conses[pid]
    case WaitFull => r.(full := r.full - 1, conses := r.conses[pid := Consumer.WaitMutex])
    case WaitMutex => r.(consFree := false, conses := r.conses[pid := Read])
    case Read => var p := r.buffer[r.rd];
      r.(received := r.received + [p], readers := r.readers + [pid], conses := r.conses[pid := Consumer.Advance(p)])
    case Advance(p) => r.(rd := (r.rd + 1) % |r.buffer|, conses := r.conses[pid := Consumer.PostMutex(p)])
    case PostMutex(p) => r.(consFree := true, conses := r.conses[pid := PostEmpty(p)])
    case PostEmpty(p) => r.(empty := r.empty + 1, conses := r.conses[pid := Got(p)])
    case Got(_) => r
  }

  function Next(r: Ring, s: Step): Ring
    requires Enabled(r, s) && 0 < |r.buffer|
  {
    match s
    case Send(pid, p) => r.(prods := r.prods[pid := WaitEmpty(p)])
    case Receive(pid) => r.(conses := r.conses[pid := WaitFull])
    case ProducerStep(pid) => ProducerNext(r, pid)
    case ConsumerStep(pid) => ConsumerNext(r, pid)
  }

  /** createRQueue. */
  predicate Created(r: Ring) {
    && 0 < |r.buffer| && r.full == 0 && r.empty == |r.buffer| && r.prodFree && r.consFree
    && r.wr == 0 && r.rd == 0 && r.prods == map[] && r.conses == map[]
    && r.sent == [] && r.received == [] && r.writers == [] && r.readers == []
  }

  ghost predicate Reachable(r: Ring, steps: seq<Step>, r': Ring)
    decreases |steps|
  {
    if steps == [] then r' == r
    else 0 < |r.buffer| && Enabled(r, steps[0]) && Reachable(Next(r, steps[0]), steps[1..], r')
  }

  // ----- the invariant -----

  /**
   A process may hold a slot that it has not used yet (Taking), or one that it has used but not
   said so (Giving); it may be inside its critical section, there about to advance the index.
   */
  datatype Place = Taking | Giving | Inside | Lagging

  predicate ProducerAt(c: Producer, k: Place) {
    match k
    case Taking => c.WaitMutex? || c.Write?
    case Giving => c.Advance? || c.PostMutex? || c.PostFull?
    case Inside => c.Write? || c.Advance? || c.PostMutex?
    case Lagging => c.Advance?
  }

  predicate ConsumerAt(c: Consumer, k: Place) {
    match k
    case Taking => c.WaitMutex? || c.Read?
    case Giving => c.Advance? || c.PostMutex? || c.PostEmpty?
    case Inside => c.Read? || c.Advance? || c.PostMutex?
    case Lagging => c.Advance?
  }

  ghost function Producers(r: Ring, k: Place): set<Pid> { set p | p in r.prods && ProducerAt(r.prods[p], k) }

  ghost function Consumers(r: Ring, k: Place): set<Pid> { set p | p in r.conses && ConsumerAt(r.conses[p], k) }

  function Bit(b: bool): int { if b then 1 else 0 }

  /** Packets written and not read yet. */
  function Unread(r: Ring): int {
    |r.sent| - |r.received|
  }

  /** Slots are conserved: full, empty, or in the hands of a process. */
  ghost predicate Conserved(r: Ring) {
    && r.full + |Producers(r, Giving)| + |Consumers(r, Taking)| == Unread(r)
    && r.empty + |Producers(r, Taking)| + |Consumers(r, Giving)| + Unread(r) == |r.buffer|
  }

  /** A mutex is free, or one process is inside. */
  ghost predicate Exclusive(r: Ring) {
    && Bit(r.prodFree) + |Producers(r, Inside)| == 1
    && Bit(r.consFree) + |Consumers(r, Inside)| == 1
  }

  /** The indices follow the history, a step behind while a process is about to advance them. */
  ghost predicate Indexed(r: Ring) {
    && 0 < |r.buffer|
    && r.wr == (|r.sent| - |Producers(r, Lagging)|) % |r.buffer|
    && r.rd == (|r.received| - |Consumers(r, Lagging)|) % |r.buffer|
  }

  /** What has been read is what was sent, in order, and every packet not read is in its slot. */
  ghost predicate Fifo(r: Ring) {
    && 0 < |r.buffer|
    && r.received <= r.sent
    && forall k :: |r.received| <= k < |r.sent| ==> r.buffer[k % |r.buffer|] == r.sent[k]
  }

  ghost predicate Inv(r: Ring) {
    Conserved(r) && Exclusive(r) && Indexed(r) && Fifo(r)
  }

  // ----- counting the processes at a place -----

  lemma SizeWithout(s: set<Pid>, p: Pid)
    ensures |s| == |s - {p}| + Bit(p in s)
  {
    if p in s { assert s == (s - {p}) + {p}; } else { assert s == s - {p}; }
  }

  lemma ProducerCounted(r: Ring, r': Ring, pid: Pid, c: Producer, k: Place)
    requires r'.prods == r.prods[pid := c]
    ensures |Producers(r', k)| == |Producers(r, k)| - Bit(pid in r.prods &&
            ProducerAt(r.prods[pid], k)) + Bit(ProducerAt(c, k))
  {
    hide ProducerAt;
    var at, at' := Producers(r, k), Producers(r', k);
    assert at' - {pid} == at - {pid};
    assert pid in at' <==> ProducerAt(c, k);
    SizeWithout(at, pid);
    SizeWithout(at', pid);
  }

  lemma ProducerMoved(r: Ring, r': Ring, pid: Pid, c: Producer)
    requires r'.prods == r.prods[pid := c]
    ensures forall k :: |Producers(r', k)| == |Producers(r, k)| - Bit(pid in r.prods &&
            ProducerAt(r.prods[pid], k)) + Bit(ProducerAt(c, k))
  {
    forall k ensures |Producers(r', k)| == |Producers(r, k)| - Bit(pid in r.prods &&
      ProducerAt(r.prods[pid], k)) + Bit(ProducerAt(c, k)) {
      ProducerCounted(r, r', pid, c, k);
    }
  }

  lemma ConsumerCounted(r: Ring, r': Ring, pid: Pid, c: Consumer, k: Place)
    requires r'.conses == r.conses[pid := c]
    ensures |Consumers(r', k)| == |Consumers(r, k)| - Bit(pid in r.conses &&
            ConsumerAt(r.conses[pid], k)) + Bit(ConsumerAt(c, k))
  {
    hide ConsumerAt;
    var at, at' := Consumers(r, k), Consumers(r', k);
    assert at' - {pid} == at - {pid};
    assert pid in at' <==> ConsumerAt(c, k);
    SizeWithout(at, pid);
    SizeWithout(at', pid);
  }

  lemma ConsumerMoved(r: Ring, r': Ring, pid: Pid, c: Consumer)
    requires r'.conses == r.conses[pid := c]
    ensures forall k :: |Consumers(r', k)| == |Consumers(r, k)| - Bit(pid in r.conses &&
            ConsumerAt(r.conses[pid], k)) + Bit(ConsumerAt(c, k))
  {
    forall k ensures |Consumers(r', k)| == |Consumers(r, k)| - Bit(pid in r.conses &&
      ConsumerAt(r.conses[pid], k)) + Bit(ConsumerAt(c, k)) {
      ConsumerCounted(r, r', pid, c, k);
    }
  }

  /** A writer that is not about to advance is the only one inside, so the write index is exact. */
  lemma WriterAlone(r: Ring, pid: Pid)
    requires Exclusive(r) && pid in r.prods && ProducerAt(r.prods[pid], Inside)
    ensures |Producers(r, Lagging)| == Bit(r.prods[pid].Advance?)
  {
    SubsetSize(Producers(r, Lagging) + {pid}, Producers(r, Inside));
    if r.prods[pid].Advance? { assert Producers(r, Lagging) + {pid} == Producers(r, Lagging);
      SubsetSize({pid}, Producers(r, Lagging)); }
  }

  lemma ReaderAlone(r: Ring, pid: Pid)
    requires Exclusive(r) && pid in r.conses && ConsumerAt(r.conses[pid], Inside)
    ensures |Consumers(r, Lagging)| == Bit(r.conses[pid].Advance?)
  {
    SubsetSize(Consumers(r, Lagging) + {pid}, Consumers(r, Inside));
    if r.conses[pid].Advance? { assert Consumers(r, Lagging) + {pid} == Consumers(r, Lagging);
      SubsetSize({pid}, Consumers(r, Lagging)); }
  }

  // ----- slots -----

  /** Fewer than n apart, two numbers have different slots. */
  lemma SlotsDiffer(k: nat, w: nat, n: nat)
    requires 0 < n && k < w < k + n
    ensures k % n != w % n
  {
    assert w == w / n * n + w % n && k == k / n * n + k % n;
    MulOrder(k / n, w / n, n);
    MulOrder(w / n, k / n, n);
  }

  // ----- every step keeps the invariant -----

  /** Producers leave the consumers' places alone, and the other way round. */
  lemma Apart(r: Ring, r': Ring)
    ensures r'.conses == r.conses ==> forall k :: Consumers(r', k) == Consumers(r, k)
    ensures r'.prods == r.prods ==> forall k :: Producers(r', k) == Producers(r, k)
  {
  }

  /** A producer that writes finds its slot free: no packet is overwritten before it is read. */
  lemma WriteKeeps(r: Ring, pid: Pid)
    requires Inv(r) && pid in r.prods && r.prods[pid].Write?
    ensures ProducerCan(r, pid) && r.wr == |r.sent| % |r.buffer| && Unread(r) < |r.buffer|
    ensures Inv(ProducerNext(r, pid))
  {
    var n := |r.buffer|;
    WriterAlone(r, pid);
    SubsetSize({pid}, Producers(r, Taking));
    var r' := ProducerNext(r, pid);
    hide Producers, Consumers;
    Apart(r, r');
    ProducerMoved(r, r', pid, Producer.Advance);
    forall k | |r'.received| <= k < |r'.sent| ensures r'.buffer[k % n] == r'.sent[k] {
      if k < |r.sent| { SlotsDiffer(k, |r.sent|, n); }
    }
    assert (|r'.sent| - 1) % n == r'.wr;
  }

  lemma ProducerKeeps(r: Ring, pid: Pid)
    requires Inv(r) && ProducerCan(r, pid)
    ensures Inv(ProducerNext(r, pid))
  {
    if r.prods[pid].Write? {
      WriteKeeps(r, pid);
    } else {
      if r.prods[pid].Advance? {
        WriterAlone(r, pid);
        ModNext(|r.sent| - 1, |r.buffer|);
      }
      hide Producers, Consumers;
      var r' := ProducerNext(r, pid);
      Apart(r, r');
      ProducerMoved(r, r', pid, r'.prods[pid]);
    }
  }

  /** A consumer that reads finds the oldest unread packet in its slot. */
  lemma ReadKeeps(r: Ring, pid: Pid)
    requires Inv(r) && pid in r.conses && r.conses[pid].Read?
    ensures ConsumerCan(r, pid) && 0 < Unread(r) && r.buffer[r.rd] == r.sent[|r.received|]
    ensures Inv(ConsumerNext(r, pid))
  {
    ReaderAlone(r, pid);
    SubsetSize({pid}, Consumers(r, Taking));
    hide Producers, Consumers;
    var r' := ConsumerNext(r, pid);
    Apart(r, r');
    ConsumerMoved(r, r', pid, r'.conses[pid]);
    assert r.sent[..|r.received|] + [r.sent[|r.received|]] == r.sent[..|r.received| + 1];
  }

  lemma ConsumerKeeps(r: Ring, pid: Pid)
    requires Inv(r) && ConsumerCan(r, pid)
    ensures Inv(ConsumerNext(r, pid))
  {
    if r.conses[pid].Read? {
      ReadKeeps(r, pid);
    } else {
      if r.conses[pid].Advance? {
        ReaderAlone(r, pid);
        ModNext(|r.received| - 1, |r.buffer|);
      }
      hide Producers, Consumers;
      var r' := ConsumerNext(r, pid);
      Apart(r, r');
      ConsumerMoved(r, r', pid, r'.conses[pid]);
    }
  }

  lemma StepKeeps(r: Ring, s: Step)
    requires Inv(r) && Enabled(r, s)
    ensures Inv(Next(r, s))
  {
    match s
    case Send(pid, p) =>
      hide Producers, Consumers;
      Apart(r, Next(r, s));
      ProducerMoved(r, Next(r, s), pid, WaitEmpty(p));
    case Receive(pid) =>
      hide Producers, Consumers;
      Apart(r, Next(r, s));
      ConsumerMoved(r, Next(r, s), pid, WaitFull);
    case ProducerStep(pid) => ProducerKeeps(r, pid);
    case ConsumerStep(pid) => ConsumerKeeps(r, pid);
  }

  // ----- over whole runs -----

  lemma CreatedOk(r: Ring)
    requires Created(r)
    ensures Inv(r)
  {
    assert forall k :: Producers(r, k) == {} && Consumers(r, k) == {};
  }

  lemma {:induction false} RunKeeps(r: Ring, steps: seq<Step>, r': Ring)
    requires Inv(r) && Reachable(r, steps, r')
    ensures Inv(r') && |r'.buffer| == |r.buffer|
    decreases |steps|
  {
    if steps != [] {
      StepKeeps(r, steps[0]);
      RunKeeps(Next(r, steps[0]), steps[1..], r');
    }
  }

  /**
   In every interleaving packets come out in the order in which they were written, at most as
   many as there are slots wait, each in its slot, and slots are neither lost nor made.
   */
  lemma InOrder(r: Ring, steps: seq<Step>, r': Ring)
    requires Created(r) && Reachable(r, steps, r')
    ensures r'.received <= r'.sent
    ensures 0 <= Unread(r') <= |r'.buffer| == |r.buffer|
    ensures forall k :: |r'.received| <= k < |r'.sent| ==> r'.buffer[k % |r'.buffer|] == r'.sent[k]
    ensures r'.full + r'.empty + |Producers(r', Taking)| + |Producers(r', Giving)| + |Consumers(r', Taking)| +
            |Consumers(r', Giving)| == |r.buffer|
  {
    CreatedOk(r);
    RunKeeps(r, steps, r');
  }

  // ----- whose packets they are -----

  /** Those of the packets ps that are process pid's, in order. */
  function Of(ps: seq<Packet>, pids: seq<Pid>, pid: Pid): seq<Packet>
    requires |ps| == |pids|
  {
    if ps == [] then []
    else
      var n := |ps| - 1;
      Of(ps[..n], pids[..n], pid) + (if pids[n] == pid then [ps[n]] else [])
  }

  lemma OfMore(ps: seq<Packet>, pids: seq<Pid>, p: Packet, q: Pid, pid: Pid)
    requires |ps| == |pids|
    ensures Of(ps + [p], pids + [q], pid) == Of(ps, pids, pid) + (if q == pid then [p] else [])
  {
    assert (ps + [p])[..|ps|] == ps && (pids + [q])[..|ps|] == pids;
  }

  /** The packets that producer pid has come with, in order. */
  function Brought(steps: seq<Step>, pid: Pid): seq<Packet> {
    if steps == [] then []
    else
      var n := |steps| - 1;
      Brought(steps[..n], pid) + (if steps[n].Send? && steps[n].pid == pid then [steps[n].packet] else [])
  }

  /** How often consumer pid has come for a packet. */
  function Visits(steps: seq<Step>, pid: Pid): nat {
    if steps == [] then 0
    else
      var n := |steps| - 1;
      Visits(steps[..n], pid) + (if steps[n] == Receive(pid) then 1 else 0)
  }

  lemma OneMore(steps: seq<Step>, s: Step, pid: Pid)
    ensures Brought(steps + [s], pid) ==
              Brought(steps, pid) + (if s.Send? && s.pid == pid then [s.packet] else [])
    ensures Visits(steps + [s], pid) == Visits(steps, pid) + (if s == Receive(pid) then 1 else 0)
  {
    assert (steps + [s])[..|steps|] == steps;
  }

  /** The packet that a producer still has to write. */
  function InHand(r: Ring, pid: Pid): seq<Packet> {
    if pid !in r.prods then []
    else
      match r.prods[pid]
      case WaitEmpty(p) => [p]
      case WaitMutex(p) => [p]
      case Write(p) => [p]
      case _ => []
  }

  /** The packet that a consumer comes away with, once it has read it. */
  function Held(r: Ring, pid: Pid): Option<Packet> {
    if pid !in r.conses then None
    else
      match r.conses[pid]
      case Advance(p) => Some(p)
      case PostMutex(p) => Some(p)
      case PostEmpty(p) => Some(p)
      case Got(p) => Some(p)
      case _ => None
  }

  /** What producer pid has come with has been written by it, in order, but for the packet in its hands. */
  ghost predicate OwnSent(r: Ring, steps: seq<Step>, pid: Pid) {
    |r.writers| == |r.sent| && Brought(steps, pid) == Of(r.sent, r.writers, pid) + InHand(r, pid)
  }

  /** Each time consumer pid has come it has read one packet, and it holds the one that it has read last. */
  ghost predicate OwnRead(r: Ring, steps: seq<Step>, pid: Pid) {
    && |r.readers| == |r.received|
    && var mine := Of(r.received, r.readers, pid);
    && Visits(steps, pid) == |mine| + (if pid in r.conses && Held(r, pid).None? then 1 else 0)
    && (Held(r, pid).Some? ==> mine != [] && mine[|mine| - 1] == Held(r, pid).value)
  }

  /** Each side of the ring leaves the other side's processes and history alone. */
  lemma SidesApart(r: Ring, pid: Pid)
    requires 0 < |r.buffer|
    ensures ProducerCan(r, pid) ==>
              var q := ProducerNext(r, pid);
              q.conses == r.conses && q.received == r.received && q.readers == r.readers
    ensures ConsumerCan(r, pid) ==>
              var q := ConsumerNext(r, pid); q.prods == r.prods && q.sent == r.sent && q.writers == r.writers
  {
  }

  lemma OwnSentKept(r: Ring, steps: seq<Step>, s: Step, pid: Pid)
    requires OwnSent(r, steps, pid) && Enabled(r, s) && 0 < |r.buffer|
    ensures OwnSent(Next(r, s), steps + [s], pid)
  {
    OneMore(steps, s, pid);
    hide Brought, Of, ProducerNext, ConsumerNext, ProducerCan, ConsumerCan;
    match s
    case Send(q, p) =>
    case Receive(q) =>
    case ProducerStep(q) => OwnWritten(r, steps, q, pid);
    case ConsumerStep(q) => SidesApart(r, q);
  }

  lemma OwnWritten(r: Ring, steps: seq<Step>, q: Pid, pid: Pid)
    requires OwnSent(r, steps, pid) && ProducerCan(r, q) && 0 < |r.buffer|
    requires Brought(steps + [ProducerStep(q)], pid) == Brought(steps, pid)
    ensures OwnSent(ProducerNext(r, q), steps + [ProducerStep(q)], pid)
  {
    hide Brought, Of;
    if r.prods[q].Write? { OfMore(r.sent, r.writers, r.prods[q].p, q, pid); }
  }

  lemma OwnReadKept(r: Ring, steps: seq<Step>, s: Step, pid: Pid)
    requires OwnRead(r, steps, pid) && Enabled(r, s) && 0 < |r.buffer|
    ensures OwnRead(Next(r, s), steps + [s], pid)
  {
    OneMore(steps, s, pid);
    hide Visits, Of, ProducerNext, ConsumerNext, ProducerCan, ConsumerCan;
    match s
    case Send(q, p) =>
    case Receive(q) =>
    case ProducerStep(q) => SidesApart(r, q);
    case ConsumerStep(q) => OwnTaken(r, steps, q, pid);
  }

  lemma OwnTaken(r: Ring, steps: seq<Step>, q: Pid, pid: Pid)
    requires OwnRead(r, steps, pid) && ConsumerCan(r, q) && 0 < |r.buffer|
    requires Visits(steps + [ConsumerStep(q)], pid) == Visits(steps, pid)
    ensures OwnRead(ConsumerNext(r, q), steps + [ConsumerStep(q)], pid)
  {
    hide Visits, Of;
    if r.conses[q].Read? { OfMore(r.received, r.readers, r.buffer[r.rd], q, pid); }
  }

  lemma {:induction false} RunOwn(r: Ring, past: seq<Step>, steps: seq<Step>, r': Ring, pid: Pid)
    requires OwnSent(r, past, pid) && OwnRead(r, past, pid) && Reachable(r, steps, r')
    ensures OwnSent(r', past + steps, pid) && OwnRead(r', past + steps, pid)
    decreases |steps|
  {
    if steps == [] {
      assert past + steps == past;
    } else {
      OwnSentKept(r, past, steps[0], pid);
      OwnReadKept(r, past, steps[0], pid);
      RunOwn(Next(r, steps[0]), past + [steps[0]], steps[1..], r', pid);
      assert past + steps == past + [steps[0]] + steps[1..];
    }
  }

  /**
   In every interleaving, what a producer comes with is what it writes, in order, and what a consumer comes
   away with is what it has taken off the queue itself, one packet each time.
   */
  lemma OwnPackets(r: Ring, steps: seq<Step>, r': Ring, pid: Pid)
    requires Created(r) && Reachable(r, steps, r')
    ensures |r'.writers| == |r'.sent| && |r'.readers| == |r'.received|
    ensures Brought(steps, pid) == Of(r'.sent, r'.writers, pid) + InHand(r', pid)
    ensures var mine := Of(r'.received, r'.readers, pid);
            && Visits(steps, pid) == |mine| + (if pid in r'.conses && Held(r', pid).None? then 1 else 0)
            && (Held(r', pid).Some? ==> mine != [] && mine[|mine| - 1] == Held(r', pid).value)
  {
    RunOwn(r, [], steps, r', pid);
    assert [] + steps == steps;
  }

  /** The consumer that has just read holds the packet at its own place in the order of sent. */
  lemma ReadsItsOwn(r: Ring, steps: seq<Step>, r': Ring, pid: Pid)
    requires Created(r) && Reachable(r, steps, r') && ConsumerCan(r', pid) && r'.conses[pid].Read?
    ensures |r'.received| < |r'.sent|
    ensures Held(ConsumerNext(r', pid), pid) == Some(r'.sent[|r'.received|])
  {
    CreatedOk(r);
    RunKeeps(r, steps, r');
    ReadKeeps(r', pid);
  }

  // ----- every list of packets can be handed over -----

  /** Nobody is on the way, and every packet written has been read. */
  predicate Quiet(r: Ring) {
    && 0 < |r.buffer| && r.full == 0 && r.empty == |r.buffer| && r.prodFree && r.consFree
    && r.wr == r.rd < |r.buffer|
    && (forall p :: p in r.prods ==> r.prods[p].Done?) && forall p :: p in r.conses ==> r.conses[p].Got?
  }

  lemma {:induction false} Joined(r: Ring, a: seq<Step>, m: Ring, b: seq<Step>, r': Ring)
    requires Reachable(r, a, m) && Reachable(m, b, r')
    ensures Reachable(r, a + b, r')
    decreases |a|
  {
    if a == [] {
      assert a + b == b;
    } else {
      Joined(Next(r, a[0]), a[1..], m, b, r');
      assert (a + b)[1..] == a[1..] + b;
    }
  }

  lemma Stepped(r: Ring, steps: seq<Step>, m: Ring, s: Step) returns (r': Ring)
    requires Reachable(r, steps, m) && 0 < |m.buffer| && Enabled(m, s)
    ensures r' == Next(m, s) && Reachable(r, steps + [s], r')
  {
    r' := Next(m, s);
    assert [s][1..] == [];
    Joined(r, steps, m, [s], r');
  }

  /** A producer comes, and goes all its way. */
  lemma Brings(r: Ring, pid: Pid, p: Packet) returns (steps: seq<Step>, m: Ring)
    requires Quiet(r)
    ensures Reachable(r, steps, m)
    ensures m == r.(buffer := r.buffer[r.wr := p], empty := r.empty - 1, full := 1, wr := (r.wr + 1) % |r.buffer|,
                 prods := m.prods, sent := r.sent + [p], writers := r.writers + [pid])
    ensures forall q :: q in m.prods ==> m.prods[q].Done?
  {
    hide Reachable;
    var s := ProducerStep(pid);
    Still(r);
    m := Stepped(r, [], r, Send(pid, p));
    steps := [] + [Send(pid, p)];
    m := Stepped(r, steps, m, s);
    m := Stepped(r, steps + [s], m, s);
    m := Stepped(r, steps + [s] + [s], m, s);
    m := Stepped(r, steps + [s] + [s] + [s], m, s);
    m := Stepped(r, steps + [s] + [s] + [s] + [s], m, s);
    m := Stepped(r, steps + [s] + [s] + [s] + [s] + [s], m, s);
    steps := steps + [s] + [s] + [s] + [s] + [s] + [s];
  }

  lemma Still(r: Ring)
    ensures Reachable(r, [], r)
  {
  }

  /** A consumer comes when one packet is there, and takes it away. */
  lemma Fetches(r: Ring, pid: Pid) returns (steps: seq<Step>, m: Ring)
    requires 0 < |r.buffer| && r.full == 1 && r.consFree && r.rd < |r.buffer|
    requires forall q :: q in r.conses ==> r.conses[q].Got?
    ensures Reachable(r, steps, m)
    ensures m == r.(full := 0, empty := r.empty + 1, rd := (r.rd + 1) % |r.buffer|, conses := m.conses,
                 received := r.received + [r.buffer[r.rd]], readers := r.readers + [pid])
    ensures Held(m, pid) == Some(r.buffer[r.rd]) && forall q :: q in m.conses ==> m.conses[q].Got?
  {
    hide Reachable;
    var s := ConsumerStep(pid);
    Still(r);
    m := Stepped(r, [], r, Receive(pid));
    steps := [] + [Receive(pid)];
    m := Stepped(r, steps, m, s);
    m := Stepped(r, steps + [s], m, s);
    m := Stepped(r, steps + [s] + [s], m, s);
    m := Stepped(r, steps + [s] + [s] + [s], m, s);
    m := Stepped(r, steps + [s] + [s] + [s] + [s], m, s);
    m := Stepped(r, steps + [s] + [s] + [s] + [s] + [s], m, s);
    steps := steps + [s] + [s] + [s] + [s] + [s] + [s];
  }

  /**
   Whoever brings the packets ps and whoever fetches them, one after the other, there is a run in which all of
   them come over, each to its consumer.
   */
  lemma {:induction false} HandedOver(r: Ring, ps: seq<Packet>, from: seq<Pid>, to: seq<Pid>)
    returns (steps: seq<Step>, r': Ring)
    requires Created(r) && |ps| == |from| == |to|
    ensures Reachable(r, steps, r') && Quiet(r')
    ensures r'.sent == r'.received == ps && r'.writers == from && r'.readers == to
  {
    if ps == [] {
      Still(r);
      steps, r' := [], r;
    } else {
      var n := |ps| - 1;
      var a, m := HandedOver(r, ps[..n], from[..n], to[..n]);
      var b, x := Brings(m, from[n], ps[n]);
      var c, y := Fetches(x, to[n]);
      Joined(r, a, m, b, x);
      Joined(r, a + b, x, c, y);
      steps, r' := a + b + c, y;
      assert ps[..n] + [ps[n]] == ps && from[..n] + [from[n]] == from && to[..n] + [to[n]] == to;
    }
  }

  /** In every interleaving at most one producer and at most one consumer are in their critical sections. */
  lemma MutualExclusion(r: Ring, steps: seq<Step>, r': Ring, p: Pid, q: Pid)
    requires Created(r) && Reachable(r, steps, r')
    ensures p in Producers(r', Inside) && q in Producers(r', Inside) ==> p == q
    ensures p in Consumers(r', Inside) && q in Consumers(r', Inside) ==> p == q
  {
    CreatedOk(r);
    RunKeeps(r, steps, r');
    if p in Producers(r', Inside) && q in Producers(r', Inside) { SubsetSize({p, q}, Producers(r', Inside)); }
    if p in Consumers(r', Inside) && q in Consumers(r', Inside) { SubsetSize({p, q}, Consumers(r', Inside)); }
  }

  /**
   No run gets stuck: while some producer and some consumer are on their way, a process can take
   its next step.
   */
  lemma NeverStuck(r: Ring, steps: seq<Step>, r': Ring, p: Pid, q: Pid)
    requires Created(r) && Reachable(r, steps, r')
    requires p in r'.prods && !r'.prods[p].Done? && q in r'.conses && !r'.conses[q].Got?
    ensures exists x :: ProducerCan(r', x) || ConsumerCan(r', x)
  {
    CreatedOk(r);
    RunKeeps(r, steps, r');
    CanMove(r', p, q);
  }

  lemma CanMove(r: Ring, p: Pid, q: Pid)
    requires Inv(r) && p in r.prods && !r.prods[p].Done? && q in r.conses && !r.conses[q].Got?
    ensures exists x :: ProducerCan(r, x) || ConsumerCan(r, x)
  {
    var holding, taking := Producers(r, Taking) + Producers(r, Giving), Consumers(r, Taking) + Consumers(r, Giving);
    if holding != {} {
      var x :| x in holding;
      var y := ProducerMoves(r, x);
      assert ProducerCan(r, y);
    } else if taking != {} {
      var x :| x in taking;
      var y := ConsumerMoves(r, x);
      assert ConsumerCan(r, y);
    } else {
      SubsetSize(Producers(r, Taking), holding);
      SubsetSize(Producers(r, Giving), holding);
      SubsetSize(Consumers(r, Taking), taking);
      SubsetSize(Consumers(r, Giving), taking);
      assert p !in holding && q !in taking;
      assert ProducerCan(r, p) || ConsumerCan(r, q);
    }
  }

  /** A producer that holds a slot can go on, or the one that is inside can. */
  lemma ProducerMoves(r: Ring, x: Pid) returns (y: Pid)
    requires Inv(r) && x in Producers(r, Taking) + Producers(r, Giving)
    ensures ProducerCan(r, y)
  {
    y := x;
    if r.prods[x].WaitMutex? && !r.prodFree {
      assert Producers(r, Inside) != {};
      y :| y in Producers(r, Inside);
    }
    if r.prods[y].Write? { WriteKeeps(r, y); }
  }

  lemma ConsumerMoves(r: Ring, x: Pid) returns (y: Pid)
    requires Inv(r) && x in Consumers(r, Taking) + Consumers(r, Giving)
    ensures ConsumerCan(r, y)
  {
    y := x;
    if r.conses[x].WaitMutex? && !r.consFree {
      assert Consumers(r, Inside) != {};
      y :| y in Consumers(r, Inside);
    }
    if r.conses[y].Read? { ReadKeeps(r, y); }
  }
}
