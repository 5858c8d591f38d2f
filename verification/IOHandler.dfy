/** The three sets of descriptors that threads wait for, and the law that every future is
    waited for in exactly one place or bound exactly once. */
module IOHandler {
  import opened Wrappers
  import opened QueueModel
  import opened IOSet

  /** The futures 0..n-1, each once. */
  function FirstFutures(n: nat): multiset<nat> {
    if n == 0 then multiset{} else FirstFutures(n - 1) + multiset{n - 1}
  }

  lemma {:induction false} EachOnce(n: nat, f: nat)
    ensures FirstFutures(n)[f] == if f < n then 1 else 0
  {
    if n > 0 {
      EachOnce(n - 1, f);
    }
  }

  /** Every future made so far waits in one of the sets or has been bound. */
  ghost predicate Conserved(r: seq<Entry>, w: seq<Entry>, c: seq<Entry>, count: nat, bound: multiset<nat>) {
    WaitedFor(r) + WaitedFor(w) + WaitedFor(c) + bound == FirstFutures(count)
  }

  lemma AddKeeps(a: multiset<nat>, s: seq<Entry>, s': seq<Entry>, fd: nat, future: nat, count: nat, count': nat, bound: multiset<nat>)
    requires Added(s, s', fd, future, count, count') && a + WaitedFor(s) + bound == FirstFutures(count)
    ensures a + WaitedFor(s') + bound == FirstFutures(count')
  {
    if s' != s {
      WaitedForMore(s, Entry(fd, future));
    }
  }

  /** No future is bound twice, and none that is still waited for is bound. */
  lemma BoundAtMostOnce(r: seq<Entry>, w: seq<Entry>, c: seq<Entry>, count: nat, bound: multiset<nat>, f: nat)
    requires Conserved(r, w, c, count, bound)
    ensures bound[f] <= 1
    ensures f in WaitedFor(r) + WaitedFor(w) + WaitedFor(c) ==> f !in bound
    ensures f in bound ==> f < count
  {
    EachOnce(count, f);
    var waiting := WaitedFor(r) + WaitedFor(w) + WaitedFor(c);
    assert (waiting + bound)[f] == waiting[f] + bound[f];
  }

  /** Some entry is for fd. */
  ghost predicate Mentions(s: seq<Entry>, fd: nat) {
    exists i :: 0 <= i < |s| && s[i].fd == fd
  }

  lemma ClosedSet(s: seq<Entry>, fd: nat)
    ensures !Mentions(NotReady(s, {fd}), fd)
  {
    var r := NotReady(s, {fd});
    forall i | 0 <= i < |r| ensures r[i].fd != fd {
      var k := NotReadyFrom(s, {fd}, i);
    }
  }

  /** What select says: it is interrupted by a signal, or these descriptors are ready now. */
  datatype Answer = Interrupted | Answered(readable: set<nat>, writable: set<nat>)

  function Reads(a: Answer): set<nat> {
    if a.Answered? then a.readable else {}
  }

  function Writes(a: Answer): set<nat> {
    if a.Answered? then a.writable else {}
  }

  lemma AskedFor(r: seq<Entry>, w: seq<Entry>, c: seq<Entry>, rs: set<nat>, ws: set<nat>, a: Answer)
    requires a.Answered? && (forall fd {:trigger fd in rs} :: fd in rs <==> Mentions(r, fd))
    requires forall fd {:trigger fd in ws} :: fd in ws <==> Mentions(w, fd) || Mentions(c, fd)
    ensures NotReady(r, rs * a.readable) == NotReady(r, a.readable) && ReadyFutures(r, rs * a.readable) == ReadyFutures(r, a.readable)
    ensures NotReady(w, ws * a.writable) == NotReady(w, a.writable) && ReadyFutures(w, ws * a.writable) == ReadyFutures(w, a.writable)
    ensures NotReady(c, ws * a.writable) == NotReady(c, a.writable) && ReadyFutures(c, ws * a.writable) == ReadyFutures(c, a.writable)
  {
    ReadyAmong(r, rs * a.readable, a.readable);
    ReadyAmong(w, ws * a.writable, a.writable);
    ReadyAmong(c, ws * a.writable, a.writable);
  }

  /** Nothing is ready. */
  lemma {:induction false} AllWait(s: seq<Entry>)
    ensures NotReady(s, {}) == s && ReadyFutures(s, {}) == multiset{}
    decreases |s|
  {
    if s != [] {
      AllWait(s[..|s| - 1]);
    }
  }

  lemma NothingFound(r: seq<Entry>, w: seq<Entry>, c: seq<Entry>, rs: set<nat>, ws: set<nat>, a: Answer)
    requires a.Answered? && (forall fd {:trigger fd in rs} :: fd in rs <==> Mentions(r, fd))
    requires forall fd {:trigger fd in ws} :: fd in ws <==> Mentions(w, fd) || Mentions(c, fd)
    requires |rs * a.readable| + |ws * a.writable| == 0
    ensures NotReady(r, a.readable) == r && ReadyFutures(r, a.readable) == multiset{}
    ensures NotReady(w, a.writable) == w && ReadyFutures(w, a.writable) == multiset{}
    ensures NotReady(c, a.writable) == c && ReadyFutures(c, a.writable) == multiset{}
  {
    AskedFor(r, w, c, rs, ws, a);
    AllWait(r);
    AllWait(w);
    AllWait(c);
  }

  lemma BoundNone(b: multiset<nat>)
    ensures b + multiset{} + multiset{} + multiset{} == b
  {
  }

  lemma NobodyAsked(r: seq<Entry>, w: seq<Entry>, c: seq<Entry>, a: Answer)
    requires a.Interrupted? || r == w == c == []
    ensures NotReady(r, Reads(a)) == r && ReadyFutures(r, Reads(a)) == multiset{}
    ensures NotReady(w, Writes(a)) == w && ReadyFutures(w, Writes(a)) == multiset{}
    ensures NotReady(c, Writes(a)) == c && ReadyFutures(c, Writes(a)) == multiset{}
  {
    AllWait(r);
    AllWait(w);
    AllWait(c);
  }

  datatype Which = Readable | Writable | Connected

  class Handler {
    const readable: Set
    const writable: Set
    const connected: Set
    const futures: Futures

    ghost predicate Apart()
      reads this, readable, writable, connected, readable.q, writable.q, connected.q
    {
      && readable.q != writable.q && readable.q != connected.q && writable.q != connected.q
      && readable.q.slots != writable.q.slots && readable.q.slots != connected.q.slots && writable.q.slots != connected.q.slots
    }

    ghost predicate Valid()
      reads this, readable, writable, connected, readable.q, writable.q, connected.q,
            readable.q.slots, writable.q.slots, connected.q.slots, futures
    {
      && Apart() && readable.Valid() && writable.Valid() && connected.Valid()
      && Conserved(readable.Entries(), writable.Entries(), connected.Entries(), futures.count, futures.bound)
    }

    constructor ()
      ensures Valid() && futures.count == 0
      ensures readable.Entries() == writable.Entries() == connected.Entries() == []
    {
      readable := new Set();
      writable := new Set();
      connected := new Set();
      futures := new Futures();
    }

    /** The future for fd to become readable, writable or connected; none if select finds
        that it is readable or writable already. */
    method Wait(which: Which, fd: nat, ready: bool) returns (future: Option<nat>)
      requires Valid()
      modifies readable.q, readable.q.slots, writable.q, writable.q.slots, connected.q, connected.q.slots, futures`count
      ensures Valid()
      ensures future.None? <==> ready && !which.Connected?
      ensures future.None? ==> EntriesOf(which) == old(EntriesOf(which)) && futures.count == old(futures.count)
      ensures future.Some? ==> Mentions(EntriesOf(which), fd)
                               && Added(old(EntriesOf(which)), EntriesOf(which), fd, future.value, old(futures.count), futures.count)
      ensures forall other {:trigger EntriesOf(other)} :: other != which ==> EntriesOf(other) == old(EntriesOf(other))
    {
      hide Items, Added, WaitedFor, FirstFutures, DistinctFDs, Mentions;
      if ready && !which.Connected? {
        return None;
      }
      ghost var r, w, c, count := readable.Entries(), writable.Entries(), connected.Entries(), futures.count;
      var f;
      match which {
        case Readable => f := readable.Add(fd, futures);
        case Writable => f := writable.Add(fd, futures);
        case Connected => f := connected.Add(fd, futures);
      }
      AddConserves(which, r, w, c, readable.Entries(), writable.Entries(), connected.Entries(), fd, f, count, futures.count, futures.bound);
      future := Some(f);
    }

    ghost function EntriesOf(which: Which): seq<Entry>
      reads this, readable, writable, connected, readable.q, writable.q, connected.q,
            readable.q.slots, writable.q.slots, connected.q.slots
      requires readable.q.Valid() && writable.q.Valid() && connected.q.Valid()
    {
      match which
      case Readable => readable.Entries()
      case Writable => writable.Entries()
      case Connected => connected.Entries()
    }

    /** The descriptors that are waited for. */
    method Ask() returns (readFDs: set<nat>, writeFDs: set<nat>, maxFD: int)
      requires Valid()
      ensures forall fd {:trigger fd in readFDs} :: fd in readFDs <==> Mentions(readable.Entries(), fd)
      ensures forall fd {:trigger fd in writeFDs} :: fd in writeFDs <==> Mentions(writable.Entries(), fd) || Mentions(connected.Entries(), fd)
      ensures maxFD < 0 <==> readable.Entries() == writable.Entries() == connected.Entries() == []
    {
      hide Items, WaitedFor, FirstFutures, DistinctFDs;
      var maxRead, maxWrite;
      readFDs, maxRead := readable.EnterIntoFDSet({}, -1);
      writeFDs, maxWrite := writable.EnterIntoFDSet({}, -1);
      writeFDs, maxWrite := connected.EnterIntoFDSet(writeFDs, maxWrite);
      maxFD := if maxRead > maxWrite then maxRead else maxWrite;
      assert readable.Entries() != [] ==> readable.Entries()[0].fd <= maxRead;
      assert writable.Entries() != [] ==> writable.Entries()[0].fd <= maxWrite;
      assert connected.Entries() != [] ==> connected.Entries()[0].fd <= maxWrite;
    }

    /** Binds the futures of the descriptors that were found ready. */
    method Bind(readFDs: set<nat>, writeFDs: set<nat>)
      requires Valid()
      modifies readable.q, readable.q.slots, writable.q, writable.q.slots, connected.q, connected.q.slots, futures`bound
      ensures Valid()
      ensures readable.Entries() == NotReady(old(readable.Entries()), readFDs)
      ensures writable.Entries() == NotReady(old(writable.Entries()), writeFDs)
      ensures connected.Entries() == NotReady(old(connected.Entries()), writeFDs)
      ensures futures.bound == old(futures.bound) + ReadyFutures(old(readable.Entries()), readFDs)
                               + ReadyFutures(old(writable.Entries()), writeFDs) + ReadyFutures(old(connected.Entries()), writeFDs)
    {
      hide Items, WaitedFor, FirstFutures, DistinctFDs, NotReady, ReadyFutures;
      ghost var r, w, c, b := readable.Entries(), writable.Entries(), connected.Entries(), futures.bound;
      readable.Schedule(readFDs, futures);
      writable.Schedule(writeFDs, futures);
      connected.Schedule(writeFDs, futures);
      AllScheduled(r, w, c, futures.count, b, readFDs, writeFDs, writeFDs);
    }

    /** Asks select for the descriptors that are waited for and binds the futures of those it
        finds ready. Nothing happens if there are none to ask for, if it is interrupted, or if
        it finds none ready. */
    method Select(answer: Answer)
      requires Valid()
      modifies readable.q, readable.q.slots, writable.q, writable.q.slots, connected.q, connected.q.slots, futures`bound
      ensures Valid()
      ensures readable.Entries() == NotReady(old(readable.Entries()), Reads(answer))
      ensures writable.Entries() == NotReady(old(writable.Entries()), Writes(answer))
      ensures connected.Entries() == NotReady(old(connected.Entries()), Writes(answer))
      ensures futures.bound == old(futures.bound) + ReadyFutures(old(readable.Entries()), Reads(answer))
                               + ReadyFutures(old(writable.Entries()), Writes(answer)) + ReadyFutures(old(connected.Entries()), Writes(answer))
    {
      hide Items, WaitedFor, FirstFutures, DistinctFDs, NotReady, ReadyFutures, Mentions, Conserved;
      ghost var r, w, c, b := readable.Entries(), writable.Entries(), connected.Entries(), futures.bound;
      var readFDs, writeFDs, maxFD := Ask();
      ghost var rs, ws := readFDs, writeFDs;
      if maxFD < 0 || answer.Interrupted? {
        NobodyAsked(r, w, c, answer);
        BoundNone(b);
        return;
      }
      // select leaves in the sets what is ready
      readFDs := readFDs * answer.readable;
      writeFDs := writeFDs * answer.writable;
      AskedFor(r, w, c, rs, ws, answer);
      if |readFDs| + |writeFDs| > 0 {
        Bind(readFDs, writeFDs);
      } else {
        NothingFound(r, w, c, rs, ws, answer);
        BoundNone(b);
      }
    }

    /** Forgets a descriptor that is closed, binding the futures that wait for it. */
    method Close(fd: nat)
      requires Valid()
      modifies readable.q, readable.q.slots, writable.q, writable.q.slots, connected.q, connected.q.slots, futures`bound
      ensures Valid()
      ensures !Mentions(readable.Entries(), fd) && !Mentions(writable.Entries(), fd) && !Mentions(connected.Entries(), fd)
      ensures readable.Entries() == NotReady(old(readable.Entries()), {fd})
      ensures writable.Entries() == NotReady(old(writable.Entries()), {fd})
      ensures connected.Entries() == NotReady(old(connected.Entries()), {fd})
    {
      hide Items, WaitedFor, FirstFutures, DistinctFDs, NotReady, ReadyFutures, Mentions;
      ghost var r, w, c, b := readable.Entries(), writable.Entries(), connected.Entries(), futures.bound;
      readable.Remove(fd, futures);
      writable.Remove(fd, futures);
      connected.Remove(fd, futures);
      AllScheduled(r, w, c, futures.count, b, {fd}, {fd}, {fd});
      ClosedSet(r, fd);
      ClosedSet(w, fd);
      ClosedSet(c, fd);
    }

    /** Gives back unused space. */
    method Purge()
      requires Valid()
      modifies readable.q, readable.q.slots, writable.q, writable.q.slots, connected.q, connected.q.slots
      ensures Valid() && readable.Entries() == old(readable.Entries())
      ensures writable.Entries() == old(writable.Entries()) && connected.Entries() == old(connected.Entries())
    {
      hide Items, WaitedFor, FirstFutures, DistinctFDs;
      readable.q.Blank();
      writable.q.Blank();
      connected.q.Blank();
    }
  }

  lemma AddConserves(which: Which, r: seq<Entry>, w: seq<Entry>, c: seq<Entry>, r': seq<Entry>, w': seq<Entry>, c': seq<Entry>,
                     fd: nat, future: nat, count: nat, count': nat, bound: multiset<nat>)
    requires Conserved(r, w, c, count, bound)
    requires which.Readable? ==> Added(r, r', fd, future, count, count') && w' == w && c' == c
    requires which.Writable? ==> Added(w, w', fd, future, count, count') && r' == r && c' == c
    requires which.Connected? ==> Added(c, c', fd, future, count, count') && r' == r && w' == w
    ensures Conserved(r', w', c', count', bound)
    ensures Mentions(match which case Readable => r' case Writable => w' case Connected => c', fd)
  {
    hide Added, WaitedFor, FirstFutures, Mentions;
    match which {
      case Readable =>
        AddKeeps(WaitedFor(w) + WaitedFor(c), r, r', fd, future, count, count', bound);
        AddMentions(r, r', fd, future, count, count');
      case Writable =>
        AddKeeps(WaitedFor(r) + WaitedFor(c), w, w', fd, future, count, count', bound);
        AddMentions(w, w', fd, future, count, count');
      case Connected =>
        AddKeeps(WaitedFor(r) + WaitedFor(w), c, c', fd, future, count, count', bound);
        AddMentions(c, c', fd, future, count, count');
    }
  }

  lemma AddMentions(s: seq<Entry>, s': seq<Entry>, fd: nat, future: nat, count: nat, count': nat)
    requires Added(s, s', fd, future, count, count')
    ensures Mentions(s', fd)
  {
    assert Entry(fd, future) in s';
    var i :| 0 <= i < |s'| && s'[i] == Entry(fd, future);
  }

  lemma AllScheduled(r: seq<Entry>, w: seq<Entry>, c: seq<Entry>, count: nat, bound: multiset<nat>, rs: set<nat>, ws: set<nat>, cs: set<nat>)
    requires Conserved(r, w, c, count, bound)
    ensures Conserved(NotReady(r, rs), NotReady(w, ws), NotReady(c, cs), count,
                      bound + ReadyFutures(r, rs) + ReadyFutures(w, ws) + ReadyFutures(c, cs))
  {
    hide NotReady, ReadyFutures, WaitedFor, FirstFutures;
    FuturesSplit(r, rs);
    FuturesSplit(w, ws);
    FuturesSplit(c, cs);
  }
}
