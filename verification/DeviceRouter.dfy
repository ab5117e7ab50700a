/**
 How the server spreads requests over its worker threads (PCModule2/server/reqPRoutine.c and
 dispatchReqPacket of reqQueue.c): a table maps each device to a worker, and a timer lets
 devices that have been idle go.
 */
module DeviceRouter {
  import opened Common

  datatype Request = Request(devname: string, id: int)

  /** devEntry of dev2thd. */
  datatype Entry = Entry(devname: string, used: bool, flag: bool)

  /** The device behind a name like /dev/sdb1: without /dev/ and without a last digit. */
  function RealDev(devname: string): string
    requires 5 < |devname|
  {
    var dev := devname[5..];
    if '0' <= dev[|dev| - 1] <= '9' then dev[..|dev| - 1] else dev
  }

  predicate Digit(c: char) { '0' <= c <= '9' }

  /** The name of a whole disk, like sdb. */
  predicate DiskName(d: string) { d != "" && !Digit(d[|d| - 1]) }

  /** Behind its first five characters a device name has the name of disk d, and at most one digit more. */
  ghost predicate OfDisk(devname: string, d: string) {
    5 <= |devname| && (devname[5..] == d || exists c :: Digit(c) && devname[5..] == d + [c])
  }

  /** Disk d and its partitions are device d, and no other name is. */
  lemma RealDevIs(devname: string, d: string)
    requires DiskName(d)
    ensures 5 < |devname| && RealDev(devname) == d <==> OfDisk(devname, d)
  {
    if 5 < |devname| {
      var dev, n := devname[5..], |devname| - 6;
      assert dev == dev[..n] + [dev[n]];
      if dev == d { assert dev[n] == d[|d| - 1]; }
      if c :| Digit(c) && dev == d + [c] { assert dev[..n] == d && dev[n] == c; }
    }
  }

  /** So it is with names as they are written. */
  lemma Partition(d: string, c: char)
    requires DiskName(d) && Digit(c)
    ensures RealDev("/dev/" + d) == d == RealDev("/dev/" + d + [c])
    ensures OfDisk("/dev/" + d, d) && OfDisk("/dev/" + d + [c], d)
  {
    assert ("/dev/" + d)[5..] == d && ("/dev/" + d + [c])[5..] == d + [c];
    RealDevIs("/dev/" + d, d);
    RealDevIs("/dev/" + d + [c], d);
  }

  // ----- what the table means -----

  /** The entry of device dev: the least used one with its name. */
  function Slot(es: seq<Entry>, dev: string): (r: Option<nat>)
    ensures r.Some? ==> r.value < |es| && es[r.value].used && es[r.value].devname == dev
    ensures r.Some? ==> forall i :: 0 <= i < r.value ==> !(es[i].used && es[i].devname == dev)
    ensures r.None? ==> forall i :: 0 <= i < |es| ==> !(es[i].used && es[i].devname == dev)
  {
    if es == [] then None
    else
      var r := Slot(es[..|es| - 1], dev);
      if r.Some? then r
      else if es[|es| - 1].used && es[|es| - 1].devname == dev then Some(|es| - 1) else None
  }

  function FirstUnused(es: seq<Entry>): (r: Option<nat>)
    ensures r.Some? ==> r.value < |es| && !es[r.value].used && forall i :: 0 <= i < r.value ==> es[i].used
    ensures r.None? ==> forall i :: 0 <= i < |es| ==> es[i].used
  {
    if es == [] then None
    else
      var r := FirstUnused(es[..|es| - 1]);
      if r.Some? then r else if !es[|es| - 1].used then Some(|es| - 1) else None
  }

  /** What a refresh does to an entry: one that has not been asked for since the last refresh goes. */
  function Refreshed(e: Entry): Entry {
    Entry(e.devname, e.used && e.flag, false)
  }

  function Refresh(es: seq<Entry>): (r: seq<Entry>)
    ensures |r| == |es| && forall i :: 0 <= i < |es| ==> r[i] == Refreshed(es[i])
  {
    if es == [] then [] else Refresh(es[..|es| - 1]) + [Refreshed(es[|es| - 1])]
  }

  /** No device has two entries. */
  ghost predicate Unique(es: seq<Entry>) {
    forall i, j :: 0 <= i < j < |es| && es[i].used && es[j].used ==> es[i].devname != es[j].devname
  }

  /** The table after a request for dev, and its slot; None if the table is full of other devices. */
  function Routed(es: seq<Entry>, expired: bool, dev: string): (seq<Entry>, Option<nat>) {
    var fs := if expired then Refresh(es) else es;
    var i := Slot(fs, dev);
    if i.Some? then (fs[i.value := Entry(dev, true, true)], i)
    else
      var u := FirstUnused(fs);
      if u.Some? then (fs[u.value := Entry(dev, true, true)], u) else (fs, None)
  }

  // ----- the workers -----

  /**
   What the server is at one time.  history is what the workers have been given, taken what they have taken
   from their queues; a work item that is in a queue is counted in history only.
   */
  datatype State = State(
    es: seq<Entry>, expired: bool, queues: seq<seq<Request>>, history: seq<seq<Request>>, taken: seq<seq<Request>>)

  /** The timer goes off, a request is dispatched, memory for it being there or not, or worker w looks for work. */
  datatype Event = Alarm | Dispatch(r: Request, memory: bool) | Take(w: nat)

  /**
   A dispatch ends with the request in a queue, with a negative feedback, or with -1 used as the index of a
   worker.
   */
  datatype Sent = Queued | Refused | BadIndex

  function Outcome(slot: Option<nat>, memory: bool): Sent {
    if !memory then Refused else if slot.Some? then Queued else BadIndex
  }

  predicate Named(e: Event) {
    e.Dispatch? ==> 5 < |e.r.devname|
  }

  function Init(n: nat): State {
    State(NoEntries(2 * n), false, Empties(n), Empties(n), Empties(n))
  }

  /** What an event makes of the state; a worker whose queue is empty goes on waiting. */
  function After(n: nat, s: State, e: Event): State
    requires 0 < n && Named(e)
  {
    match e
    case Alarm => s.(expired := true)
    case Dispatch(r, memory) =>
      var (es, slot) := Routed(s.es, s.expired, RealDev(r.devname));
      if Outcome(slot, memory) == Queued then
        s.(es := es, expired := false, queues := Given(s.queues, slot.value % n, r),
          history := Given(s.history, slot.value % n, r))
      else s.(es := es, expired := false)
    case Take(w) =>
      if w < |s.queues| && s.queues[w] != [] then
        s.(queues := s.queues[w := s.queues[w][1..]], taken := Given(s.taken, w, s.queues[w][0]))
      else s
  }

  function AfterAll(n: nat, s: State, es: seq<Event>): State
    requires 0 < n && forall i :: 0 <= i < |es| ==> Named(es[i])
  {
    if es == [] then s else After(n, AfterAll(n, s, es[..|es| - 1]), es[|es| - 1])
  }

  /** What a worker has taken and what is in its queue is what it has been given, in that order. */
  ghost predicate InStep(n: nat, s: State) {
    && |s.es| == 2 * n && |s.queues| == |s.history| == |s.taken| == n && Unique(s.es)
    && forall w {:trigger s.history[w]} :: 0 <= w < n ==> s.taken[w] + s.queues[w] == s.history[w]
  }

  lemma AfterInStep(n: nat, s: State, e: Event)
    requires 0 < n && Named(e) && InStep(n, s)
    ensures InStep(n, After(n, s, e))
  {
    hide Routed, Unique, Outcome;
    if e.Dispatch? { RoutedUnique(s.es, s.expired, RealDev(e.r.devname)); }
    var t := After(n, s, e);
    forall w | 0 <= w < n ensures t.taken[w] + t.queues[w] == t.history[w] {
      assert s.taken[w] + s.queues[w] == s.history[w];
    }
  }

  class Server {
    const n: nat                  // num_process_routine
    const dev2thd: array<Entry>
    var timerExpired: bool
    var queues: seq<seq<Request>> // reqQueue of each worker
    ghost var history: seq<seq<Request>>
    ghost var taken: seq<seq<Request>>

    ghost function Now(): State
      reads this, dev2thd
    {
      State(dev2thd[..], timerExpired, queues, history, taken)
    }

    ghost predicate Valid()
      reads this, dev2thd
    {
      0 < n && InStep(n, Now())
    }

    /** createProcessRoutines and init_dev2Routine. */
    constructor (n: nat)
      requires 0 < n
      ensures Valid() && this.n == n && fresh(dev2thd) && Now() == Init(n)
    {
      this.n := n;
      dev2thd := new Entry[2 * n](_ => Entry("", false, false));
      timerExpired := false;
      queues, history, taken := Empties(n), Empties(n), Empties(n);
      new;
      assert dev2thd[..] == NoEntries(2 * n);
    }

    /** The refresh loop of getProcessRoutineIdx. */
    method RefreshTable()
      modifies dev2thd, `timerExpired
      ensures dev2thd[..] == Refresh(old(dev2thd[..])) && !timerExpired
    {
      ghost var es := dev2thd[..];
      for i := 0 to dev2thd.Length
        invariant forall j :: 0 <= j < i ==> dev2thd[j] == Refreshed(es[j])
        invariant dev2thd[i..] == es[i..]
      {
        assert dev2thd[i] == dev2thd[i..][0] == es[i];
        if dev2thd[i].used && !dev2thd[i].flag {
          dev2thd[i] := dev2thd[i].(used := false);
        }
        dev2thd[i] := dev2thd[i].(flag := false);
      }
      timerExpired := false;
    }

    /** getProcessRoutineIdx: the worker for a device, or -1 when the table is full of other devices. */
    method GetProcessRoutineIdx(devname: string) returns (idx: int, ghost slot: Option<nat>)
      requires 5 < |devname| && 0 < n && dev2thd.Length == 2 * n
      modifies dev2thd, `timerExpired
      ensures (dev2thd[..], slot) == Routed(old(dev2thd[..]), old(timerExpired), RealDev(devname))
      ensures idx == if slot.Some? then slot.value % n else -1
      ensures !timerExpired
    {
      var realDev := RealDev(devname);
      if timerExpired { RefreshTable(); }
      ghost var fs := dev2thd[..];
      var firstUnused: int := -1;
      for i := 0 to 2 * n
        invariant dev2thd[..] == fs
        invariant -1 <= firstUnused < i && (firstUnused == -1 ==> forall j :: 0 <= j < i ==> fs[j].used)
        invariant firstUnused >= 0 ==> !fs[firstUnused].used && forall j :: 0 <= j < firstUnused ==> fs[j].used
        invariant forall j :: 0 <= j < i ==> !(fs[j].used && fs[j].devname == realDev)
      {
        assert dev2thd[i] == fs[i];
        if !dev2thd[i].used && firstUnused == -1 {
          firstUnused := i;
        } else if dev2thd[i].used && dev2thd[i].devname == realDev {
          dev2thd[i] := dev2thd[i].(flag := true);
          return i % n, Some(i);
        }
      }
      if firstUnused == -1 { return -1, None; }
      dev2thd[firstUnused] := Entry(realDev, true, true);
      return firstUnused % n, Some(firstUnused);
    }

    /**
     addReqWork2Routine: a copy of the request goes to the end of the worker's queue, if there is memory for
     it; if not, the worker is not looked at.
     */
    method AddReqWork2Routine(r: Request, idx: int, memory: bool) returns (ret: int)
      requires Valid() && (memory ==> 0 <= idx < n)
      modifies `queues, `history
      ensures ret == if memory then 0 else -1
      ensures Now() == if memory then
              old(Now()).(queues := Given(old(queues), idx, r), history := Given(old(history), idx, r)) else old(Now())
    {
      if !memory { return -1; }
      queues := queues[idx := queues[idx] + [r]];
      history := history[idx := history[idx] + [r]];
      return 0;
    }

    /** One round of thread_routine: worker w takes the oldest request of its queue. */
    method TakeWork(w: nat) returns (r: Request)
      requires Valid() && w < n && queues[w] != []
      modifies `queues, `taken
      ensures Valid() && Now() == After(n, old(Now()), Take(w))
      ensures r == old(queues)[w][0] && old(history)[w] == old(taken)[w] + [r] + queues[w]
    {
      AfterInStep(n, Now(), Take(w));
      assert queues[w] == [queues[w][0]] + queues[w][1..];
      r := queues[w][0];
      queues, taken := queues[w := queues[w][1..]], Given(taken, w, r);
    }

    /**
     dispatchReqPacket.  The worker index is used without a check: the dispatch goes through
     exactly when there is memory, and the table knows the device or has an entry to spare.
     */
    method DispatchReqPacket(r: Request, memory: bool) returns (sent: Sent)
      requires Valid() && 5 < |r.devname|
      modifies dev2thd, `timerExpired, `queues, `history
      ensures Valid() && Now() == After(n, old(Now()), Dispatch(r, memory))
      ensures sent == Outcome(Routed(old(dev2thd[..]), old(timerExpired), RealDev(r.devname)).1, memory)
    {
      hide Routed;
      AfterInStep(n, Now(), Dispatch(r, memory));
      RoutedUnique(dev2thd[..], timerExpired, RealDev(r.devname));
      ghost var slot;
      var idx, ret;
      idx, slot := GetProcessRoutineIdx(r.devname);
      if memory && idx < 0 { return BadIndex; }
      ret := AddReqWork2Routine(r, idx, memory);
      sent := if ret != 0 then Refused else Queued;
    }

    /** alarm_handler. */
    method AlarmHandler()
      requires Valid()
      modifies `timerExpired
      ensures Valid() && Now() == After(n, old(Now()), Alarm)
    {
      AfterInStep(n, Now(), Alarm);
      timerExpired := true;
    }

    /** A run of the server. */
    method Run(es: seq<Event>)
      requires Valid() && forall i :: 0 <= i < |es| ==> Named(es[i])
      modifies this, dev2thd
      ensures Valid() && Now() == AfterAll(n, old(Now()), es)
    {
      hide After, InStep;
      for i := 0 to |es|
        invariant Valid() && Now() == AfterAll(n, old(Now()), es[..i])
      {
        assert es[..i + 1][..i] == es[..i];
        match es[i]
        case Alarm => AlarmHandler();
        case Dispatch(r, memory) => var _ := DispatchReqPacket(r, memory);
        case Take(w) => TakeIfAny(w);
      }
      assert es[..|es|] == es;
    }

    method TakeIfAny(w: nat)
      requires Valid()
      modifies `queues, `taken
      ensures Valid() && Now() == After(n, old(Now()), Take(w))
    {
      if w < n && queues[w] != [] { var _ := TakeWork(w); }
    }
  }

  function Empties(n: nat): (r: seq<seq<Request>>)
    ensures |r| == n && forall i :: 0 <= i < n ==> r[i] == []
  {
    if n == 0 then [] else Empties(n - 1) + [[]]
  }

  function Given(queues: seq<seq<Request>>, w: nat, r: Request): seq<seq<Request>> {
    if w < |queues| then queues[w := queues[w] + [r]] else queues
  }

  function NoEntries(n: nat): (r: seq<Entry>)
    ensures |r| == n && forall i :: 0 <= i < n ==> r[i] == Entry("", false, false)
  {
    if n == 0 then [] else NoEntries(n - 1) + [Entry("", false, false)]
  }

  lemma RoutedUnique(es: seq<Entry>, expired: bool, dev: string)
    requires Unique(es)
    ensures Unique(Routed(es, expired, dev).0) && |Routed(es, expired, dev).0| == |es|
  {
  }

  // ----- what a run says, event by event -----

  /** The devices asked for. */
  function Devices(es: seq<Event>): set<string> {
    if es == [] then {}
    else
      var e := es[|es| - 1];
      Devices(es[..|es| - 1]) + DeviceOf(e)
  }

  /** The timer has gone off since the last dispatch: the next one makes a refresh. */
  predicate Due(es: seq<Event>) {
    es != [] && match es[|es| - 1]
                case Alarm => true
                case Dispatch(_, _) => false
                case Take(_) => Due(es[..|es| - 1])
  }

  predicate AsksFor(e: Event, dev: string) {
    e.Dispatch? && 5 < |e.r.devname| && RealDev(e.r.devname) == dev
  }

  function DeviceOf(e: Event): set<string> {
    if e.Dispatch? && 5 < |e.r.devname| then {RealDev(e.r.devname)} else {}
  }

  /** The devices asked for since the last refresh, by the dispatch that made it or later. */
  function Lately(es: seq<Event>): set<string> {
    if es == [] then {}
    else
      var front, e := es[..|es| - 1], es[|es| - 1];
      (if e.Dispatch? && Due(front) then {} else Lately(front)) + DeviceOf(e)
  }

  /** And those asked for between that refresh and the one before it. */
  function Before(es: seq<Event>): set<string> {
    if es == [] then {}
    else
      var front, e := es[..|es| - 1], es[|es| - 1];
      if e.Dispatch? && Due(front) then Lately(front) else Before(front)
  }

  /** Devices for which entries can be in use. */
  function Window(es: seq<Event>): set<string> { Lately(es) + Before(es) }

  /** When device dev is asked for first, there have been at most 2n devices since the last refresh but one. */
  predicate HasRoom(n: nat, es: seq<Event>, dev: string) {
    es == [] ||
    var front, e := es[..|es| - 1], es[|es| - 1];
    HasRoom(n, front, dev) && (AsksFor(e, dev) && dev !in Devices(front) ==> |Window(es)| <= 2 * n)
  }

  /** So it is in any run with at most 2n devices. */
  lemma {:induction false} FewDevices(n: nat, es: seq<Event>, dev: string)
    requires |Devices(es)| <= 2 * n
    ensures HasRoom(n, es, dev) && Lately(es) <= Devices(es) && Before(es) <= Devices(es)
  {
    if es != [] {
      var front := es[..|es| - 1];
      SubsetSize(Devices(front), Devices(es));
      FewDevices(n, front, dev);
      SubsetSize(Window(es), Devices(es));
    }
  }

  /** Device dev has been asked for since the last refresh, by the dispatch that made it or later. */
  predicate AskedSince(es: seq<Event>, dev: string) {
    es != [] &&
    var front, e := es[..|es| - 1], es[|es| - 1];
    AsksFor(e, dev) || (AskedSince(front, dev) && !(e.Dispatch? && Due(front)))
  }

  /** Once asked for, device dev is asked for between any two refreshes. */
  predicate Busy(es: seq<Event>, dev: string) {
    es == [] ||
    var front, e := es[..|es| - 1], es[|es| - 1];
    Busy(front, dev) && (e.Dispatch? && Due(front) && dev in Devices(front) ==> AskedSince(front, dev))
  }

  /** The requests for device dev that there was memory for, in the order in which they were dispatched. */
  function Asked(es: seq<Event>, dev: string): seq<Request> {
    if es == [] then []
    else
      var e := es[|es| - 1];
      Asked(es[..|es| - 1], dev) + (if AsksFor(e, dev) && e.memory then [e.r] else [])
  }

  /** The requests of h that are for device dev. */
  function For(h: seq<Request>, dev: string): seq<Request> {
    if h == [] then []
    else
      var r := h[|h| - 1];
      For(h[..|h| - 1], dev) + (if 5 < |r.devname| && RealDev(r.devname) == dev then [r] else [])
  }

  lemma ForMore(h: seq<Request>, r: Request, dev: string)
    ensures For(h + [r], dev) == For(h, dev) + (if 5 < |r.devname| && RealDev(r.devname) == dev then [r] else [])
  {
    assert (h + [r])[..|h|] == h;
  }

  lemma {:induction false} ForBoth(h: seq<Request>, k: seq<Request>, dev: string)
    ensures For(h + k, dev) == For(h, dev) + For(k, dev)
  {
    if k == [] {
      assert h + k == h;
    } else {
      var f, r := k[..|k| - 1], k[|k| - 1];
      assert h + k == (h + f) + [r] && k == f + [r];
      ForMore(h + f, r, dev);
      ForMore(f, r, dev);
      ForBoth(h, f, dev);
    }
  }

  // ----- a run never finds the table full -----

  /** An entry in use is for a device asked for since the last refresh but one, or the last one if it is marked. */
  predicate UsedBy(e: Entry, lately: set<string>, before: set<string>) {
    e.used ==> e.devname in (if e.flag then lately else lately + before)
  }

  /** So are all, and the timer's flag is as the run says. */
  ghost predicate Tracks(n: nat, s: State, es: seq<Event>) {
    && InStep(n, s) && s.expired == Due(es)
    && forall i {:trigger s.es[i]} :: 0 <= i < |s.es| ==> UsedBy(s.es[i], Lately(es), Before(es))
  }

  lemma {:induction false} RunTracks(n: nat, es: seq<Event>)
    requires 0 < n && forall i :: 0 <= i < |es| ==> Named(es[i])
    ensures Tracks(n, AfterAll(n, Init(n), es), es)
  {
    if es != [] {
      var front, e := es[..|es| - 1], es[|es| - 1];
      RunTracks(n, front);
      var s := AfterAll(n, Init(n), front);
      AfterInStep(n, s, e);
      if e.Dispatch? { UsedAfter(s.es, s.expired, RealDev(e.r.devname), Lately(front), Before(front)); }
    }
  }

  lemma UsedAfter(es: seq<Entry>, expired: bool, dev: string, lately: set<string>, before: set<string>)
    requires forall i {:trigger es[i]} :: 0 <= i < |es| ==> UsedBy(es[i], lately, before)
    ensures var fs := Routed(es, expired, dev).0;
            && |fs| == |es|
            && forall i {:trigger fs[i]} :: 0 <= i < |fs| ==>
              UsedBy(fs[i], (if expired then {} else lately) + {dev}, if expired then lately else before)
  {
    var fs := if expired then Refresh(es) else es;
    forall i | 0 <= i < |fs|
      ensures UsedBy(fs[i], (if expired then {} else lately) + {dev}, if expired then lately else before) {
      assert UsedBy(es[i], lately, before);
    }
  }

  /** The devices that the first n entries are in use for: as many as there are entries, if all are in use. */
  ghost function Users(es: seq<Entry>): set<string> {
    set i | 0 <= i < |es| && es[i].used :: es[i].devname
  }

  lemma {:induction false} UsersCount(es: seq<Entry>)
    requires Unique(es) && forall i :: 0 <= i < |es| ==> es[i].used
    ensures |Users(es)| == |es|
  {
    if es != [] {
      var front, d := es[..|es| - 1], es[|es| - 1].devname;
      UsersCount(front);
      assert Users(es) == Users(front) + {d} by {
        forall x | x in Users(es) ensures x in Users(front) + {d} {
          var i :| 0 <= i < |es| && es[i].used && es[i].devname == x;
          if i < |front| { assert front[i] == es[i]; }
        }
        forall x | x in Users(front) ensures x in Users(es) {
          var i :| 0 <= i < |front| && front[i].used && front[i].devname == x;
          assert es[i] == front[i];
        }
        assert es[|es| - 1].devname in Users(es);
      }
      assert d !in Users(front);
    }
  }

  /** Entries that are all in use for devices of ds other than d are fewer than the devices with d. */
  lemma UsersFew(es: seq<Entry>, ds: set<string>, d: string)
    requires Unique(es) && forall i :: 0 <= i < |es| ==> es[i].used && es[i].devname in ds && es[i].devname != d
    ensures |es| < |ds + {d}|
  {
    UsersCount(es);
    hide Unique;
    assert d !in Users(es);
    assert Users(es) + {d} <= ds + {d};
    SubsetSize(Users(es) + {d}, ds + {d});
  }

  /** With at most 2n devices since the last refresh but one, a dispatch finds a worker. */
  lemma NeverFull(n: nat, es: seq<Event>, r: Request, memory: bool)
    requires 0 < n && (forall i :: 0 <= i < |es| ==> Named(es[i])) && 5 < |r.devname|
    requires |Window(es + [Dispatch(r, memory)])| <= 2 * n
    ensures var s := AfterAll(n, Init(n), es); Routed(s.es, s.expired, RealDev(r.devname)).1.Some?
  {
    var s, d := AfterAll(n, Init(n), es), RealDev(r.devname);
    var fs := if s.expired then Refresh(s.es) else s.es;
    RunTracks(n, es);
    assert (es + [Dispatch(r, memory)])[..|es|] == es;
    hide Slot, FirstUnused, AfterAll, Due;
    var ds := if s.expired then Lately(es) else Lately(es) + Before(es);
    assert Window(es + [Dispatch(r, memory)]) == ds + {d};
    if Slot(fs, d).None? && FirstUnused(fs).None? {
      forall i | 0 <= i < |fs| ensures fs[i].used && fs[i].devname in ds && fs[i].devname != d {
        assert UsedBy(s.es[i], Lately(es), Before(es));
      }
      UsersFew(fs, ds, d);
    }
  }

  // ----- and a run with one device more does -----

  /** Requests for different devices. */
  predicate Different(rs: seq<Request>) {
    && (forall i :: 0 <= i < |rs| ==> 5 < |rs[i].devname|)
    && forall i, j :: 0 <= i < j < |rs| ==> RealDev(rs[i].devname) != RealDev(rs[j].devname)
  }

  /** All of them are dispatched, and there is memory. */
  function Dispatches(rs: seq<Request>): (r: seq<Event>)
    ensures |r| == |rs| && forall i :: 0 <= i < |rs| ==> r[i] == Dispatch(rs[i], true)
  {
    if rs == [] then [] else Dispatches(rs[..|rs| - 1]) + [Dispatch(rs[|rs| - 1], true)]
  }

  /** The first entries are in use for the devices of rs, and the others are not. */
  predicate FilledBy(es: seq<Entry>, rs: seq<Request>) {
    && |rs| <= |es|
    && (forall i {:trigger es[i]} :: 0 <= i < |rs| ==>
          es[i].used && 5 < |rs[i].devname| && es[i].devname == RealDev(rs[i].devname))
    && forall i {:trigger es[i]} :: |rs| <= i < |es| ==> !es[i].used
  }

  /** The next request fills the next entry. */
  lemma FillOne(es: seq<Entry>, rs: seq<Request>, k: nat)
    requires Different(rs) && k < |rs| && k < |es| && FilledBy(es, rs[..k])
    ensures var (fs, slot) := Routed(es, false, RealDev(rs[k].devname));
            slot == Some(k) && |fs| == |es| && FilledBy(fs, rs[..k + 1])
  {
    hide Slot, FirstUnused, RealDev;
    var d := RealDev(rs[k].devname);
    forall i | 0 <= i < |es| ensures !(es[i].used && es[i].devname == d) {
      if i < k { assert rs[..k][i] == rs[i]; }
    }
    assert !es[k].used && FirstUnused(es).Some?;
  }

  lemma {:induction false} Filled(n: nat, rs: seq<Request>, k: nat)
    requires 0 < n && Different(rs) && k <= 2 * n && k <= |rs|
    ensures var s := AfterAll(n, Init(n), Dispatches(rs[..k]));
            !s.expired && |s.es| == 2 * n && FilledBy(s.es, rs[..k])
  {
    if k > 0 {
      hide FilledBy, Routed;
      Filled(n, rs, k - 1);
      assert rs[..k][..k - 1] == rs[..k - 1];
      var es := Dispatches(rs[..k]);
      assert es[..|es| - 1] == Dispatches(rs[..k - 1]);
      var s := AfterAll(n, Init(n), Dispatches(rs[..k - 1]));
      FillOne(s.es, rs, k - 1);
    } else {
      assert rs[..0] == [];
    }
  }

  /** Requests for 2n + 1 different devices, the timer not going off: the last one comes to a bad index. */
  lemma Overfull(n: nat, rs: seq<Request>)
    requires 0 < n && Different(rs) && |rs| == 2 * n + 1
    ensures var s := AfterAll(n, Init(n), Dispatches(rs[..2 * n]));
            Outcome(Routed(s.es, s.expired, RealDev(rs[2 * n].devname)).1, true) == BadIndex
  {
    hide Slot, FirstUnused, RealDev, AfterAll, Dispatches;
    Filled(n, rs, 2 * n);
    var s, d := AfterAll(n, Init(n), Dispatches(rs[..2 * n])), RealDev(rs[2 * n].devname);
    forall i | 0 <= i < 2 * n ensures s.es[i].used && s.es[i].devname != d { assert rs[..2 * n][i] == rs[i]; }
  }

  /** A server that is sent them. */
  method Overfill(n: nat, rs: seq<Request>) returns (sent: Sent)
    requires 0 < n && Different(rs) && |rs| == 2 * n + 1
    ensures sent == BadIndex
  {
    var server := new Server(n);
    server.Run(Dispatches(rs[..2 * n]));
    Overfull(n, rs);
    sent := server.DispatchReqPacket(rs[2 * n], true);
  }

  // ----- one worker, in order -----

  lemma SlotIs(es: seq<Entry>, dev: string, i: nat)
    requires Unique(es) && i < |es| && es[i].used && es[i].devname == dev
    ensures Slot(es, dev) == Some(i)
  {
  }

  /** One dispatch while device dev has entry i and is not let go. */
  lemma EntryStays(es: seq<Entry>, expired: bool, other: string, dev: string, i: nat)
    requires Unique(es) && Slot(es, dev) == Some(i) && (expired ==> es[i].flag)
    ensures var (fs, j) := Routed(es, expired, other);
            && Unique(fs) && |fs| == |es| && Slot(fs, dev) == Some(i) && (other == dev <==> j == Some(i))
            && fs[i].flag == (other == dev || (es[i].flag && !expired))
  {
    hide Slot, FirstUnused, Refresh;
    RoutedUnique(es, expired, other);
    SlotIs(if expired then Refresh(es) else es, dev, i);
    SlotIs(Routed(es, expired, other).0, dev, i);
  }

  /** All requests for dev are with worker w, in the order in which they were dispatched. */
  ghost predicate With(n: nat, s: State, es: seq<Event>, dev: string, w: nat) {
    forall v {:trigger s.history[v]} :: 0 <= v < n && v < |s.history| ==>
      For(s.history[v], dev) == if v == w then Asked(es, dev) else []
  }

  /**
   Device dev has entry i, marked as asked for or not as the run says, and all its requests are with the
   entry's worker.
   */
  ghost predicate Served(n: nat, s: State, es: seq<Event>, dev: string, i: nat)
    requires 0 < n
  {
    Slot(s.es, dev) == Some(i) && s.es[i].flag == AskedSince(es, dev) && With(n, s, es, dev, i % n)
  }

  lemma WithMore(n: nat, s: State, es: seq<Event>, e: Event, dev: string, w: nat)
    requires 0 < n && Named(e) && |s.history| == n && w < n && With(n, s, es, dev, w)
    requires e.Dispatch? ==> var j := Routed(s.es, s.expired, RealDev(e.r.devname)).1; AsksFor(e, dev) ==>
             j.Some? && j.value % n == w
    ensures With(n, After(n, s, e), es + [e], dev, w)
  {
    hide Routed, For, Asked;
    var t := After(n, s, e);
    AskedMore(es, e, dev);
    forall v | 0 <= v < n ensures For(t.history[v], dev) == if v == w then Asked(es + [e], dev) else [] {
      assert For(s.history[v], dev) == if v == w then Asked(es, dev) else [];
      if e.Dispatch? { ForMore(s.history[v], e.r, dev); }
    }
  }

  /** One event more keeps a device served that has been asked for. */
  lemma ServedMore(n: nat, s: State, es: seq<Event>, e: Event, dev: string, i: nat)
    requires 0 < n && Named(e) && Tracks(n, s, es) && Served(n, s, es, dev, i) &&
             (e.Dispatch? && Due(es) ==> AskedSince(es, dev))
    ensures Served(n, After(n, s, e), es + [e], dev, i)
  {
    hide Routed, Slot, Unique, For, Asked, With, Due;
    assert (es + [e])[..|es|] == es;
    if e.Dispatch? { EntryStays(s.es, s.expired, RealDev(e.r.devname), dev, i); }
    WithMore(n, s, es, e, dev, i % n);
  }

  lemma AskedMore(es: seq<Event>, e: Event, dev: string)
    ensures Asked(es + [e], dev) == Asked(es, dev) + (if AsksFor(e, dev) && e.memory then [e.r] else [])
  {
    assert (es + [e])[..|es|] == es;
  }

  lemma FirstAsked(n: nat, s: State, es: seq<Event>, e: Event, dev: string) returns (i: nat)
    requires 0 < n && Named(e) && Tracks(n, s, es) && AsksFor(e, dev) && dev !in Devices(es)
    requires (forall v {:trigger s.history[v]} :: 0 <= v < n ==> For(s.history[v], dev) == []) && Asked(es, dev) == []
    requires Routed(s.es, s.expired, dev).1.Some?
    ensures Served(n, After(n, s, e), es + [e], dev, i)
  {
    hide For, Asked, Routed, Refresh, Slot, Unique, Due;
    var (fs, j) := Routed(s.es, s.expired, dev);
    i := j.value;
    SurvivesOnce(s.es, s.expired, dev);
    RoutedUnique(s.es, s.expired, dev);
    assert (es + [e])[..|es|] == es;
    WithMore(n, s, es, e, dev, i % n);
  }

  /**
   The tables at the end of a run from the start of the server: a device that has been asked for has an
   entry, and one that has not has none and no requests.
   */
  lemma {:induction false} EntryOf(n: nat, es: seq<Event>, dev: string) returns (i: nat)
    requires 0 < n && (forall k :: 0 <= k < |es| ==> Named(es[k])) && HasRoom(n, es, dev) && Busy(es, dev)
    ensures var s := AfterAll(n, Init(n), es);
            && InStep(n, s)
            && if dev in Devices(es) then Served(n, s, es, dev, i) else With(n, s, es, dev, n) && Asked(es, dev) == []
  {
    RunTracks(n, es);
    i := 0;
    if es == [] { return; }
    var front, e := es[..|es| - 1], es[|es| - 1];
    var s := AfterAll(n, Init(n), front);
    assert es == front + [e];
    i := EntryOf(n, front, dev);
    RunTracks(n, front);
    hide Served, After, With, Asked;
    if dev in Devices(front) {
      ServedMore(n, s, front, e, dev, i);
    } else if AsksFor(e, dev) {
      NeverFull(n, front, e.r, e.memory);
      i := FirstAsked(n, s, front, e, dev);
    } else {
      NoneMore(n, s, front, e, dev);
    }
  }

  lemma NoneMore(n: nat, s: State, es: seq<Event>, e: Event, dev: string)
    requires 0 < n && Named(e) && |s.history| == n && With(n, s, es, dev, n) && Asked(es, dev) == [] && !AsksFor(e, dev)
    ensures With(n, After(n, s, e), es + [e], dev, n) && Asked(es + [e], dev) == []
  {
    hide Routed, For, Asked;
    var t := After(n, s, e);
    AskedMore(es, e, dev);
    forall v | 0 <= v < n ensures For(t.history[v], dev) == [] {
      assert For(s.history[v], dev) == [];
      if e.Dispatch? { ForMore(s.history[v], e.r, dev); }
    }
  }

  /**
   In any run of the server from its start in which device dev finds room when it is asked for first, and is
   asked for between any two refreshes from then on, all requests for dev are with one worker: those it has
   taken, and behind them those in its queue, are the requests in the order in which they were dispatched.
   No other worker has any.
   */
  lemma OneWorkerInOrder(n: nat, es: seq<Event>, dev: string) returns (w: nat)
    requires 0 < n && (forall k :: 0 <= k < |es| ==> Named(es[k])) && HasRoom(n, es, dev) && Busy(es, dev)
    requires dev in Devices(es)
    ensures var s := AfterAll(n, Init(n), es);
            && |s.queues| == |s.taken| == n && w < n
            && For(s.taken[w], dev) + For(s.queues[w], dev) == Asked(es, dev)
            && forall v :: 0 <= v < n && v != w ==> For(s.taken[v], dev) == [] == For(s.queues[v], dev)
  {
    hide For, Asked, After, Unique;
    var i := EntryOf(n, es, dev);
    var s := AfterAll(n, Init(n), es);
    w := i % n;
    forall v | 0 <= v < n
      ensures For(s.taken[v], dev) + For(s.queues[v], dev) == if v == w then Asked(es, dev) else [] {
      assert s.taken[v] + s.queues[v] == s.history[v];
      ForBoth(s.taken[v], s.queues[v], dev);
    }
  }

  // ----- a disk and its partitions -----

  /** The requests of h for disk d or a partition of it. */
  ghost function ForDisk(h: seq<Request>, d: string): seq<Request> {
    if h == [] then []
    else
      var r := h[|h| - 1];
      ForDisk(h[..|h| - 1], d) + (if OfDisk(r.devname, d) then [r] else [])
  }

  /** Those that have been dispatched, and there was memory for them. */
  ghost function SentTo(es: seq<Event>, d: string): seq<Request> {
    if es == [] then []
    else
      var e := es[|es| - 1];
      SentTo(es[..|es| - 1], d) + (if e.Dispatch? && e.memory && OfDisk(e.r.devname, d) then [e.r] else [])
  }

  lemma {:induction false} ForDiskIs(h: seq<Request>, d: string)
    requires DiskName(d)
    ensures For(h, d) == ForDisk(h, d)
  {
    hide OfDisk, RealDev, DiskName;
    if h != [] {
      ForDiskIs(h[..|h| - 1], d);
      RealDevIs(h[|h| - 1].devname, d);
    }
  }

  lemma {:induction false} SentToIs(es: seq<Event>, d: string)
    requires DiskName(d)
    ensures Asked(es, d) == SentTo(es, d)
    ensures d in Devices(es) <==> exists i :: 0 <= i < |es| && es[i].Dispatch? && OfDisk(es[i].r.devname, d)
  {
    hide OfDisk, RealDev, DiskName;
    if es != [] {
      var n := |es| - 1;
      SentToIs(es[..n], d);
      if es[n].Dispatch? { RealDevIs(es[n].r.devname, d); }
      forall i | 0 <= i < n ensures es[..n][i] == es[i] {}
      if i :| 0 <= i < |es| && es[i].Dispatch? && OfDisk(es[i].r.devname, d) { assert i < n ==> es[..n][i] == es[i]; }
    }
  }

  /**
   All requests for a disk and for its partitions, whichever they are, are with one worker in the order in
   which they were dispatched, if the disk found room when it was asked for first, and has been in use since.
   */
  lemma DiskInOrder(n: nat, es: seq<Event>, d: string) returns (w: nat)
    requires 0 < n && (forall k :: 0 <= k < |es| ==> Named(es[k])) && HasRoom(n, es, d) && Busy(es, d)
    requires DiskName(d) && exists i :: 0 <= i < |es| && es[i].Dispatch? && OfDisk(es[i].r.devname, d)
    ensures var s := AfterAll(n, Init(n), es);
            && |s.queues| == |s.taken| == n && w < n
            && ForDisk(s.taken[w], d) + ForDisk(s.queues[w], d) == SentTo(es, d)
            && forall v :: 0 <= v < n && v != w ==> ForDisk(s.taken[v], d) == [] == ForDisk(s.queues[v], d)
  {
    hide OfDisk, AfterAll, HasRoom, Busy;
    SentToIs(es, d);
    w := OneWorkerInOrder(n, es, d);
    var s := AfterAll(n, Init(n), es);
    forall v | 0 <= v < n
      ensures ForDisk(s.taken[v], d) == For(s.taken[v], d) && ForDisk(s.queues[v], d) == For(s.queues[v], d) {
      ForDiskIs(s.taken[v], d);
      ForDiskIs(s.queues[v], d);
    }
  }

  /** Asked for twice in a row, by any of its names, a disk gets the same worker. */
  method AskTwice(server: Server, d: string, x: string, y: string) returns (i: int, j: int)
    requires server.Valid() && DiskName(d) && OfDisk(x, d) && OfDisk(y, d)
    modifies server.dev2thd, server`timerExpired
    ensures i == j < server.n
  {
    RealDevIs(x, d);
    RealDevIs(y, d);
    RoutedUnique(server.dev2thd[..], server.timerExpired, d);
    ghost var slot, slot';
    i, slot := server.GetProcessRoutineIdx(x);
    if slot.Some? { SlotIs(server.dev2thd[..], d, slot.value); }
    j, slot' := server.GetProcessRoutineIdx(y);
  }

  /** A device asked for just now survives the next refresh. */
  lemma SurvivesOnce(es: seq<Entry>, expired: bool, dev: string)
    requires Unique(es) && Routed(es, expired, dev).1.Some?
    ensures var (fs, i) := Routed(es, expired, dev);
            Slot(fs, dev) == i && fs[i.value].flag && Slot(Refresh(fs), dev) == i
  {
    var (fs, i) := Routed(es, expired, dev);
    hide Slot, FirstUnused, Refresh;
    RoutedUnique(es, expired, dev);
    SlotIs(fs, dev, i.value);
    SlotIs(Refresh(fs), dev, i.value);
  }

  /** A dispatch goes through exactly when the device has an entry or some entry is not in use. */
  lemma RoutedWhen(es: seq<Entry>, expired: bool, dev: string)
    ensures var fs := if expired then Refresh(es) else es;
            Routed(es, expired, dev).1.Some? <==>
              exists i :: 0 <= i < |fs| && (!fs[i].used || fs[i].devname == dev)
  {
  }
}
