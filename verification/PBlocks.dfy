/** Blocks of the node partition. A block counts its incoming edges per edge
    label; a negative counter says that the block is on the agenda with that
    label. */
module PBlocks {

  /** A cell of the incoming array: never written, or a signed counter. */
  datatype Cell = Invalid | Counter(i: int)

  function Sub(inc: seq<Cell>, edge: nat): Cell {
    if edge < |inc| then inc[edge] else Invalid
  }

  /** Update of the dynamic array behind a block: the length doubles, or grows to
      the index when doubling is not enough. Three range cells and the agenda
      count precede the counters. */
  function Update(inc: seq<Cell>, edge: nat, c: Cell): (r: seq<Cell>)
    ensures |inc| <= |r| && edge < |r|
    ensures edge < |inc| ==> |r| == |inc|
    ensures Sub(r, edge) == c
    ensures forall e: nat :: e != edge ==> Sub(r, e) == Sub(inc, e)
  {
    if edge < |inc| then inc[edge := c]
    else
      var length := |inc| + 4;
      var newLength := if 2 * length <= edge + 4 then edge + 5 else 2 * length;
      (inc + seq(newLength - length, _ => Invalid))[edge := c]
  }

  predicate Negative(c: Cell) {
    c.Counter? && c.i < 0
  }

  /** The number of negative counters. */
  function Negatives(inc: seq<Cell>): nat {
    if inc == [] then 0
    else Negatives(inc[..|inc| - 1]) + if Negative(inc[|inc| - 1]) then 1 else 0
  }

  lemma {:induction false} NegativesUpdate(inc: seq<Cell>, e: nat, c: Cell)
    requires e < |inc|
    ensures Negatives(inc[e := c]) ==
            Negatives(inc) - (if Negative(inc[e]) then 1 else 0) + (if Negative(c) then 1 else 0)
  {
    var last := |inc| - 1;
    if e == last {
      assert inc[e := c][..last] == inc[..last];
    } else {
      NegativesUpdate(inc[..last], e, c);
      assert inc[e := c][..last] == inc[..last][e := c];
    }
  }

  lemma {:induction false} NegativesGrow(inc: seq<Cell>, more: nat)
    ensures Negatives(inc + seq(more, _ => Invalid)) == Negatives(inc)
  {
    var r := inc + seq(more, _ => Invalid);
    if more == 0 {
      assert r == inc;
    } else {
      NegativesGrow(inc, more - 1);
      assert r[..|r| - 1] == inc + seq(more - 1, _ => Invalid);
    }
  }

  lemma NegativesUpdateAny(inc: seq<Cell>, e: nat, c: Cell)
    ensures Negatives(Update(inc, e, c)) ==
            Negatives(inc) - (if Negative(Sub(inc, e)) then 1 else 0) + (if Negative(c) then 1 else 0)
  {
    if e < |inc| {
      NegativesUpdate(inc, e, c);
    } else {
      var length := |inc| + 4;
      var newLength := if 2 * length <= e + 4 then e + 5 else 2 * length;
      NegativesGrow(inc, newLength - length);
      NegativesUpdate(inc + seq(newLength - length, _ => Invalid), e, c);
    }
  }

  /** No counter is negative exactly when the count is zero. */
  lemma {:induction false} NoNegatives(inc: seq<Cell>)
    ensures Negatives(inc) == 0 <==> forall e :: 0 <= e < |inc| ==> !Negative(inc[e])
  {
    if inc != [] {
      NoNegatives(inc[..|inc| - 1]);
      assert forall e :: 0 <= e < |inc| - 1 ==> inc[e] == inc[..|inc| - 1][e];
    }
  }

  /** A block: the range start..end of the node array, the split index (nodes to
      its right are marked for splitting), the number of labels it is on the
      agenda with, and the counters. */
  datatype PBlock = PBlock(start: int, end: int, split: int, agenda: int, inc: seq<Cell>)
  {
    ghost predicate CountOK() {
      agenda == Negatives(inc)
    }

    predicate Singleton() {
      end - start == 0
    }

    function GetIncoming(edge: nat): nat {
      match Sub(inc, edge)
      case Invalid => 0
      case Counter(i) => if i < 0 then -i else i
    }

    predicate IsOnAgenda() {
      agenda != 0
    }

    predicate Marked(edge: nat) {
      Negative(Sub(inc, edge))
    }

    function SizeOfIncoming(): nat {
      |inc|
    }

    function SetEnd(e: int): PBlock {
      this.(end := e)
    }

    function SetSplitIndex(i: int): PBlock {
      this.(split := i)
    }

    function IncrementIncoming(edge: nat): PBlock {
      match Sub(inc, edge)
      case Invalid => this.(inc := Update(inc, edge, Counter(1)))
      case Counter(i) => this.(inc := Update(inc, edge, Counter(if i < 0 then i - 1 else i + 1)))
    }

    function PutOnAgenda(edge: nat): PBlock {
      var cell := Sub(inc, edge);
      if !Marked(edge) && cell.Counter? && cell.i != 0 then
        this.(inc := Update(inc, edge, Counter(-cell.i)), agenda := agenda + 1)
      else this
    }

    function RemoveFromAgenda(edge: nat): PBlock {
      var cell := Sub(inc, edge);
      if Marked(edge) && cell.i != 0 then
        this.(inc := Update(inc, edge, Counter(-cell.i)), agenda := agenda - 1)
      else this
    }

    function DecrementIncoming(edge: nat): PBlock {
      match Sub(inc, edge)
      case Invalid => this
      case Counter(i) =>
        var p := if i == -1 then RemoveFromAgenda(edge) else this;
        var i' := if i == -1 then 1 else i;
        p.(inc := Update(p.inc, edge, Counter(if i' < 0 then i' + 1 else i' - 1)))
    }
  }

  function NewBlock(start: int, end: int): PBlock {
    PBlock(start, end, end, 0, [Invalid])
  }

  // ---------- what the counter operations do ----------

  ghost predicate SameRange(p: PBlock, q: PBlock) {
    p.start == q.start && p.end == q.end && p.split == q.split
  }

  lemma Increment(p: PBlock, edge: nat)
    requires p.CountOK()
    ensures var q := p.IncrementIncoming(edge);
            && SameRange(p, q) && q.CountOK()
            && (forall e: nat :: q.GetIncoming(e) == p.GetIncoming(e) + if e == edge then 1 else 0)
            && (forall e: nat :: q.Marked(e) == p.Marked(e))
  {
    match Sub(p.inc, edge)
    case Invalid => NegativesUpdateAny(p.inc, edge, Counter(1));
    case Counter(i) => NegativesUpdateAny(p.inc, edge, Counter(if i < 0 then i - 1 else i + 1));
  }

  lemma Mark(p: PBlock, edge: nat)
    requires p.CountOK()
    ensures var q := p.PutOnAgenda(edge);
            && SameRange(p, q) && q.CountOK() && |q.inc| == |p.inc|
            && (forall e: nat :: q.GetIncoming(e) == p.GetIncoming(e))
            && (forall e: nat :: q.Marked(e) == (p.Marked(e) || (e == edge && p.GetIncoming(e) > 0)))
            && q.agenda >= p.agenda
  {
    var cell := Sub(p.inc, edge);
    if cell.Counter? {
      NegativesUpdateAny(p.inc, edge, Counter(-cell.i));
    }
  }

  lemma Unmark(p: PBlock, edge: nat)
    requires p.CountOK()
    ensures var q := p.RemoveFromAgenda(edge);
            && SameRange(p, q) && q.CountOK() && |q.inc| == |p.inc|
            && (forall e: nat :: q.GetIncoming(e) == p.GetIncoming(e))
            && (forall e: nat :: q.Marked(e) == (p.Marked(e) && e != edge))
            && q.agenda == p.agenda - if p.Marked(edge) then 1 else 0
  {
    var cell := Sub(p.inc, edge);
    if cell.Counter? {
      NegativesUpdateAny(p.inc, edge, Counter(-cell.i));
    }
  }

  /** Removing an edge keeps the mark of its label unless it was the last such edge. */
  lemma Decrement(p: PBlock, edge: nat)
    requires p.CountOK() && p.GetIncoming(edge) > 0
    ensures var q := p.DecrementIncoming(edge);
            && SameRange(p, q) && q.CountOK() && |q.inc| == |p.inc|
            && (forall e: nat :: q.GetIncoming(e) == p.GetIncoming(e) - if e == edge then 1 else 0)
            && (forall e: nat :: q.Marked(e) == (p.Marked(e) && q.GetIncoming(e) > 0))
  {
    var i := Sub(p.inc, edge).i;
    Unmark(p, edge);
    var r := if i == -1 then p.RemoveFromAgenda(edge) else p;
    var i' := if i == -1 then 1 else i;
    NegativesUpdateAny(r.inc, edge, Counter(if i' < 0 then i' + 1 else i' - 1));
  }

  lemma AgendaIffMarked(p: PBlock)
    requires p.CountOK()
    ensures p.IsOnAgenda() <==> exists e: nat :: e < |p.inc| && p.Marked(e)
  {
    NoNegatives(p.inc);
    if p.IsOnAgenda() {
      var e: int :| 0 <= e < |p.inc| && Negative(p.inc[e]);
      assert p.Marked(e);
    }
  }
}
