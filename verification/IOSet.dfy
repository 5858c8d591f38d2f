/** The sets of file descriptors that wait for input or output, kept in queues. */
module IOSet {
  import opened QueueModel

  /** A descriptor and the future that its waiting threads wait for. */
  datatype Entry = Entry(fd: nat, future: nat)

  /** The futures made so far and those that were bound, each as often as it was. */
  class Futures {
    var count: nat
    var bound: multiset<nat>

    constructor ()
      ensures count == 0 && bound == multiset{}
    {
      count := 0;
      bound := multiset{};
    }

    method New() returns (future: nat)
      modifies this`count
      ensures future == old(count) && count == old(count) + 1
    {
      future := count;
      count := count + 1;
    }

    /** Wakes the waiting threads and binds the future. */
    method Bind(future: nat)
      modifies this`bound
      ensures bound == old(bound) + multiset{future}
    {
      bound := bound + multiset{future};
    }
  }

  /** Pairwise distinct descriptors. */
  ghost predicate DistinctFDs(s: seq<Entry>) {
    forall i, j :: 0 <= i < j < |s| ==> s[i].fd != s[j].fd
  }

  /** The entries that are not ready, in order. */
  function NotReady(s: seq<Entry>, ready: set<nat>): seq<Entry> {
    if s == [] then []
    else
      var n := |s| - 1;
      NotReady(s[..n], ready) + if s[n].fd in ready then [] else [s[n]]
  }

  /** The futures of the entries that are ready. */
  function ReadyFutures(s: seq<Entry>, ready: set<nat>): multiset<nat> {
    if s == [] then multiset{}
    else
      var n := |s| - 1;
      ReadyFutures(s[..n], ready) + if s[n].fd in ready then multiset{s[n].future} else multiset{}
  }

  /** Only the descriptors that are waited for matter. */
  lemma {:induction false} ReadyAmong(s: seq<Entry>, ready: set<nat>, ready': set<nat>)
    requires forall i {:trigger s[i]} :: 0 <= i < |s| ==> (s[i].fd in ready <==> s[i].fd in ready')
    ensures NotReady(s, ready) == NotReady(s, ready') && ReadyFutures(s, ready) == ReadyFutures(s, ready')
    decreases |s|
  {
    if s != [] {
      ReadyAmong(s[..|s| - 1], ready, ready');
    }
  }

  /** Every entry that is kept was there and is not ready. */
  lemma {:induction false} NotReadyFrom(s: seq<Entry>, ready: set<nat>, i: nat) returns (k: nat)
    requires i < |NotReady(s, ready)|
    ensures k < |s| && s[k] == NotReady(s, ready)[i] && s[k].fd !in ready
    decreases |s|
  {
    var n := |s| - 1;
    if i < |NotReady(s[..n], ready)| {
      k := NotReadyFrom(s[..n], ready, i);
    } else {
      k := n;
    }
  }

  /** Two entries that are kept were there in the same order. */
  lemma {:induction false} NotReadySub(s: seq<Entry>, ready: set<nat>, i: nat, j: nat) returns (k: nat, l: nat)
    requires i < j < |NotReady(s, ready)|
    ensures k < l < |s| && s[k] == NotReady(s, ready)[i] && s[l] == NotReady(s, ready)[j]
    decreases |s|
  {
    var n := |s| - 1;
    if j < |NotReady(s[..n], ready)| {
      k, l := NotReadySub(s[..n], ready, i, j);
    } else {
      l := n;
      k := NotReadyFrom(s[..n], ready, i);
    }
  }

  /** What is left keeps its invariants. */
  lemma NotReadyKeeps(s: seq<Entry>, ready: set<nat>)
    requires DistinctFDs(s)
    ensures DistinctFDs(NotReady(s, ready))
  {
    var r := NotReady(s, ready);
    forall i, j | 0 <= i < j < |r| ensures r[i].fd != r[j].fd {
      var k, l := NotReadySub(s, ready, i, j);
    }
  }

  /** The futures that entries wait for. */
  function WaitedFor(s: seq<Entry>): multiset<nat> {
    if s == [] then multiset{} else WaitedFor(s[..|s| - 1]) + multiset{s[|s| - 1].future}
  }

  lemma WaitedForMore(s: seq<Entry>, e: Entry)
    ensures WaitedFor(s + [e]) == WaitedFor(s) + multiset{e.future}
  {
    assert (s + [e])[..|s|] == s;
  }

  /** Every future stays with its entry or is one of those that are bound. */
  lemma {:induction false} FuturesSplit(s: seq<Entry>, ready: set<nat>)
    ensures WaitedFor(s) == WaitedFor(NotReady(s, ready)) + ReadyFutures(s, ready)
    decreases |s|
  {
    hide NotReady, ReadyFutures, WaitedFor;
    if s == [] {
      NoEntries(ready);
    } else {
      var n := |s| - 1;
      var t := s[..n];
      FuturesSplit(t, ready);
      assert s[..n + 1] == s && t + [s[n]] == s;
      ScanStep(s, ready, n);
      WaitedForMore(t, s[n]);
      if s[n].fd !in ready {
        WaitedForMore(NotReady(t, ready), s[n]);
      } else {
        assert NotReady(t, ready) + [] == NotReady(t, ready);
      }
    }
  }

  lemma NoEntries(ready: set<nat>)
    ensures NotReady([], ready) == [] && ReadyFutures([], ready) == multiset{} && WaitedFor([]) == multiset{}
  {
  }

  lemma {:induction false} NoneReady(s: seq<Entry>, ready: set<nat>)
    requires forall i {:trigger s[i]} :: 0 <= i < |s| ==> s[i].fd !in ready
    ensures NotReady(s, ready) == s && ReadyFutures(s, ready) == multiset{}
    decreases |s|
  {
    if s != [] {
      NoneReady(s[..|s| - 1], ready);
    }
  }

  /** Of distinct descriptors at most one is fd. */
  lemma {:induction false} OneReady(s: seq<Entry>, fd: nat, i: nat)
    requires DistinctFDs(s) && i < |s| && s[i].fd == fd
    ensures NotReady(s, {fd}) == Without(s, i) && ReadyFutures(s, {fd}) == multiset{s[i].future}
    decreases |s|
  {
    hide Without;
    var n := |s| - 1;
    if i == n {
      WithoutEnd(s);
      forall j | 0 <= j < n ensures s[..n][j].fd !in {fd} {
        assert s[j].fd != s[n].fd;
      }
      NoneReady(s[..n], {fd});
    } else {
      OneReady(s[..n], fd, i);
      assert s[i].fd != s[n].fd;
      WithoutLast(s, i);
    }
  }

  /** The entry before position i that was looked at is dropped or kept. */
  lemma ScanStep(s: seq<Entry>, ready: set<nat>, k: nat)
    requires k < |s|
    ensures NotReady(s[..k + 1], ready) == NotReady(s[..k], ready) + if s[k].fd in ready then [] else [s[k]]
    ensures ReadyFutures(s[..k + 1], ready) == ReadyFutures(s[..k], ready) + if s[k].fd in ready then multiset{s[k].future} else multiset{}
  {
    assert s[..k + 1][..k] == s[..k];
  }

  class Set {
    const q: Queue<Entry>

    ghost predicate Valid()
      reads this, q, q.slots
    {
      q.Valid() && DistinctFDs(q.Contents())
    }

    ghost function Entries(): seq<Entry>
      reads this, q, q.slots
      requires q.Valid()
    {
      q.Contents()
    }

    constructor ()
      ensures Valid() && Entries() == [] && fresh(q) && fresh(q.slots)
    {
      q := new Queue(8, Entry(0, 0));
    }

    /** The future for fd: the one that is waited for already, or a new one. */
    method Add(fd: nat, futures: Futures) returns (future: nat)
      requires Valid()
      modifies q, q.slots, futures`count
      ensures Valid() && (q.slots == old(q.slots) || fresh(q.slots))
      ensures Added(old(Entries()), Entries(), fd, future, old(futures.count), futures.count)
    {
      hide Items;
      var i := 0;
      var n := q.GetNumberOfElements();
      while i < n
        invariant 0 <= i <= n == |Entries()|
        invariant forall j :: 0 <= j < i ==> Entries()[j].fd != fd
        modifies {}
      {
        var entry := q.GetNthElement(i);
        if entry.fd == fd {
          assert Entries()[i] == Entry(fd, entry.future);
          return entry.future;
        }
        i := i + 1;
      }
      future := futures.New();
      q.Enqueue(Entry(fd, future));
    }

    /** Binds the future of fd and removes it. */
    method Remove(fd: nat, futures: Futures)
      requires Valid()
      modifies q`readIndex, q`writeIndex, q.slots, futures`bound
      ensures Valid() && Entries() == NotReady(old(Entries()), {fd})
      ensures futures.bound == old(futures.bound) + ReadyFutures(old(Entries()), {fd})
    {
      hide Items, Without, NotReady, ReadyFutures;
      ghost var s := Entries();
      NotReadyKeeps(s, {fd});
      var n := q.GetNumberOfElements();
      var i := 0;
      while i < n
        invariant 0 <= i <= n == |s|
        invariant forall j {:trigger s[j]} :: 0 <= j < i ==> s[j].fd != fd
        modifies {}
      {
        var entry := q.GetNthElement(i);
        if entry.fd == fd {
          break;
        }
        i := i + 1;
      }
      if i < n {
        OneReady(s, fd, i);
        var entry := q.GetNthElement(i);
        futures.Bind(entry.future);
        q.RemoveNthElement(i);
      } else {
        NoneReady(s, {fd});
      }
    }

    /** Adds the descriptors to fdSet. */
    method EnterIntoFDSet(fdSet0: set<nat>, maxFD0: int) returns (fdSet: set<nat>, maxFD: int)
      requires Valid()
      ensures forall fd :: fd in fdSet <==> fd in fdSet0 || exists i :: 0 <= i < |Entries()| && Entries()[i].fd == fd
      ensures maxFD >= maxFD0 && (forall i {:trigger Entries()[i]} :: 0 <= i < |Entries()| ==> Entries()[i].fd <= maxFD)
      ensures maxFD == maxFD0 || exists i :: 0 <= i < |Entries()| && Entries()[i].fd == maxFD
    {
      hide Items;
      fdSet, maxFD := fdSet0, maxFD0;
      var i := q.GetNumberOfElements();
      while i > 0
        invariant 0 <= i <= |Entries()|
        invariant forall fd :: fd in fdSet <==> fd in fdSet0 || exists j :: i <= j < |Entries()| && Entries()[j].fd == fd
        invariant maxFD >= maxFD0 && (forall j {:trigger Entries()[j]} :: i <= j < |Entries()| ==> Entries()[j].fd <= maxFD)
        invariant maxFD == maxFD0 || exists j :: i <= j < |Entries()| && Entries()[j].fd == maxFD
      {
        i := i - 1;
        var entry := q.GetNthElement(i);
        assert Entries()[i].fd == entry.fd;
        if entry.fd > maxFD {
          maxFD := entry.fd;
        }
        fdSet := fdSet + {entry.fd};
      }
    }

    /** Binds the future of the i-th entry and removes it, if its descriptor is ready. */
    method ScanEntry(i: nat, ready: set<nat>, futures: Futures, ghost s: seq<Entry>, ghost k: nat, ghost bound: multiset<nat>) returns (removed: bool)
      requires q.Valid() && i < |Entries()| && Scanned(s, ready, k, Entries(), i)
      requires k <= |s| && futures.bound == bound + ReadyFutures(s[..k], ready)
      modifies q`readIndex, q`writeIndex, q.slots, futures`bound
      ensures q.Valid() && |Entries()| == old(|Entries()|) - (if removed then 1 else 0)
      ensures k < |s| && Scanned(s, ready, k + 1, Entries(), if removed then i else i + 1)
      ensures futures.bound == bound + ReadyFutures(s[..k + 1], ready)
    {
      hide Items, NotReady, ReadyFutures, Without, Scanned;
      ScannedNext(s, ready, k, Entries(), i);
      var entry := q.GetNthElement(i);
      removed := entry.fd in ready;
      if removed {
        futures.Bind(entry.future);
        q.RemoveNthElement(i);
      }
    }

    /** Binds the futures of all ready descriptors and keeps the other entries in order,
        although it removes entries from the queue it scans. */
    method Schedule(ready: set<nat>, futures: Futures)
      requires Valid()
      modifies q`readIndex, q`writeIndex, q.slots, futures`bound
      ensures Valid() && Entries() == NotReady(old(Entries()), ready)
      ensures futures.bound == old(futures.bound) + ReadyFutures(old(Entries()), ready)
    {
      hide Items, DistinctFDs, NotReady, ReadyFutures, Without, Scanned;
      ghost var s := Entries();
      NotReadyKeeps(s, ready);
      ghost var k := 0;
      var n := q.GetNumberOfElements();
      var i := 0;
      ScanStart(s, ready);
      while i < n
        invariant q.Valid() && n == |Entries()| && i <= n + 1 && Scanned(s, ready, k, Entries(), if i > n then n else i)
        invariant k <= |s| && futures.bound == old(futures.bound) + ReadyFutures(s[..k], ready)
        decreases |s| - k
      {
        // the label again
        while true
          invariant q.Valid() && Scanned(s, ready, k, Entries(), i) && n == |Entries()| && i < n
          invariant k <= |s| && futures.bound == old(futures.bound) + ReadyFutures(s[..k], ready)
          decreases |s| - k
        {
          var removed := ScanEntry(i, ready, futures, s, k, old(futures.bound));
          k := k + 1;
          if removed {
            n := n - 1;
            if !(i < n) {
              i := i + 1;
              break;
            }
          } else {
            i := i + 1;
            break;
          }
        }
      }
      ScannedAll(s, ready, k, Entries());
    }
  }

  /** What Add does to the entries. */
  ghost predicate Added(s: seq<Entry>, s': seq<Entry>, fd: nat, future: nat, count: nat, count': nat) {
    || (s' == s && count' == count && Entry(fd, future) in s)
    || (&& (forall i {:trigger s[i]} :: 0 <= i < |s| ==> s[i].fd != fd)
        && future == count && count' == count + 1 && s' == s + [Entry(fd, future)])
  }

  /** The first k entries were looked at; what is left of them is before i. */
  ghost predicate Scanned(s: seq<Entry>, ready: set<nat>, k: nat, t: seq<Entry>, i: nat) {
    k <= |s| && i <= |t| && t[..i] == NotReady(s[..k], ready) && t[i..] == s[k..]
  }

  lemma ScanStart(s: seq<Entry>, ready: set<nat>)
    ensures Scanned(s, ready, 0, s, 0) && ReadyFutures(s[..0], ready) == multiset{}
  {
  }

  lemma ScannedAll(s: seq<Entry>, ready: set<nat>, k: nat, t: seq<Entry>)
    requires Scanned(s, ready, k, t, |t|)
    ensures t == NotReady(s, ready) && s[..k] == s
  {
    assert t[..|t|] == t && t[|t|..] == [];
    assert s[..k] == s;
  }

  lemma ScannedNext(s: seq<Entry>, ready: set<nat>, k: nat, t: seq<Entry>, i: nat)
    requires Scanned(s, ready, k, t, i) && i < |t|
    ensures k < |s| && t[i] == s[k]
    ensures if t[i].fd in ready then Scanned(s, ready, k + 1, Without(t, i), i) else Scanned(s, ready, k + 1, t, i + 1)
    ensures ReadyFutures(s[..k + 1], ready) == ReadyFutures(s[..k], ready) + if s[k].fd in ready then multiset{s[k].future} else multiset{}
  {
    hide NotReady, ReadyFutures;
    ScanStep(s, ready, k);
    assert t[i..][0] == s[k..][0];
    assert t[i + 1..] == t[i..][1..] && s[k + 1..] == s[k..][1..];
    WithoutParts(t, i);
    assert t[..i + 1] == t[..i] + [t[i]];
  }

  lemma WithoutEnd(s: seq<Entry>)
    requires s != []
    ensures Without(s, |s| - 1) == s[..|s| - 1]
  {
  }

  lemma WithoutLast(s: seq<Entry>, i: nat)
    requires i < |s| - 1
    ensures Without(s[..|s| - 1], i) + [s[|s| - 1]] == Without(s, i)
  {
  }

  lemma WithoutParts(t: seq<Entry>, i: nat)
    requires i < |t|
    ensures Without(t, i)[..i] == t[..i] && Without(t, i)[i..] == t[i + 1..]
  {
  }
}
