/** The loops that keep the incoming-edge counters and agenda marks of blocks. */
module Counters {
  import opened PBlocks
  import opened DataGraph
  import opened Refinement

  /** Adds the incoming edges of one node to a block. */
  method AddIncoming(ps: seq<Pred>, p: PBlock) returns (q: PBlock)
    requires p.CountOK()
    ensures SameRange(p, q) && q.CountOK()
    ensures forall e: nat :: q.GetIncoming(e) == p.GetIncoming(e) + EdgeCount(ps, e)
    ensures forall e: nat :: q.Marked(e) == p.Marked(e)
  {
    q := p;
    var i := |ps|;
    while i != 0
      invariant 0 <= i <= |ps|
      invariant SameRange(p, q) && q.CountOK()
      invariant forall e: nat :: q.GetIncoming(e) == p.GetIncoming(e) + EdgeCount(ps[i..], e)
      invariant forall e: nat :: q.Marked(e) == p.Marked(e)
    {
      i := i - 1;
      assert ps[i..][1..] == ps[i + 1..];
      Increment(q, ps[i].edge);
      q := q.IncrementIncoming(ps[i].edge);
    }
    assert ps[0..] == ps;
  }

  /** Moves the incoming edges of one node from block p to block q. A mark of p goes
      only with the last edge of its label. */
  method MoveIncoming(ps: seq<Pred>, p: PBlock, q: PBlock) returns (p': PBlock, q': PBlock)
    requires p.CountOK() && q.CountOK()
    requires forall e: nat :: EdgeCount(ps, e) <= p.GetIncoming(e)
    ensures SameRange(p, p') && p'.CountOK() && |p'.inc| == |p.inc|
    ensures SameRange(q, q') && q'.CountOK()
    ensures forall e: nat :: p'.GetIncoming(e) == p.GetIncoming(e) - EdgeCount(ps, e)
    ensures forall e: nat :: q'.GetIncoming(e) == q.GetIncoming(e) + EdgeCount(ps, e)
    ensures forall e: nat :: p'.Marked(e) == (p.Marked(e) && p'.GetIncoming(e) > 0)
    ensures forall e: nat :: q'.Marked(e) == q.Marked(e)
  {
    p', q' := p, q;
    var i := |ps|;
    while i != 0
      invariant 0 <= i <= |ps|
      invariant SameRange(p, p') && p'.CountOK() && |p'.inc| == |p.inc|
      invariant SameRange(q, q') && q'.CountOK()
      invariant forall e: nat :: p'.GetIncoming(e) == p.GetIncoming(e) - EdgeCount(ps[i..], e)
      invariant forall e: nat :: q'.GetIncoming(e) == q.GetIncoming(e) + EdgeCount(ps[i..], e)
      invariant forall e: nat :: p'.Marked(e) == (p.Marked(e) && p'.GetIncoming(e) > 0)
      invariant forall e: nat :: q'.Marked(e) == q.Marked(e)
    {
      i := i - 1;
      assert ps[i..][1..] == ps[i + 1..];
      EdgeCountSuffix(ps, i, ps[i].edge);
      Decrement(p', ps[i].edge);
      Increment(q', ps[i].edge);
      p' := p'.DecrementIncoming(ps[i].edge);
      q' := q'.IncrementIncoming(ps[i].edge);
    }
    assert ps[0..] == ps;
  }

  lemma {:induction false} EdgeCountSuffix(ps: seq<Pred>, i: nat, e: nat)
    requires i <= |ps|
    ensures EdgeCount(ps[i..], e) <= EdgeCount(ps, e)
  {
    if i == 0 {
      assert ps[0..] == ps;
    } else {
      EdgeCountSuffix(ps[1..], i - 1, e);
      assert ps[i..] == ps[1..][i - 1..];
    }
  }

  /** Which of the two halves is put on the agenda with edge e if the old block was not. */
  predicate OldHalfSmaller(p: PBlock, q: PBlock, e: nat) {
    0 < p.GetIncoming(e) < q.GetIncoming(e)
  }

  ghost predicate MarksUpTo(p: PBlock, q: PBlock, p': PBlock, q': PBlock, i: int) {
    && (forall e: nat :: e < i ==> p'.Marked(e) == (p.Marked(e) || OldHalfSmaller(p, q, e)))
    && (forall e: nat :: e < i ==> q'.Marked(e) == (q.GetIncoming(e) > 0 && (p.Marked(e) || !OldHalfSmaller(p, q, e))))
    && (forall e: nat :: e >= i ==> p'.Marked(e) == p.Marked(e) && !q'.Marked(e))
  }

  /** Puts the halves p and q of a split block on the agenda, edge by edge: the new
      half where the block was on it, the half with fewer incoming edges
      elsewhere. */
  method MarkHalves(p: PBlock, q: PBlock, b: nat, nb: nat, agenda: seq<nat>)
    returns (p': PBlock, q': PBlock, agenda': seq<nat>)
    requires p.CountOK() && q.CountOK()
    requires forall e: nat :: !q.Marked(e)
    requires forall e: nat :: q.GetIncoming(e) > 0 ==> e < |p.inc|
    ensures SameRange(p, p') && p'.CountOK() && |p'.inc| == |p.inc|
    ensures SameRange(q, q') && q'.CountOK()
    ensures forall e: nat :: p'.GetIncoming(e) == p.GetIncoming(e) && q'.GetIncoming(e) == q.GetIncoming(e)
    ensures forall e: nat :: p'.Marked(e) == (p.Marked(e) || OldHalfSmaller(p, q, e))
    ensures forall e: nat :: q'.Marked(e) == (q.GetIncoming(e) > 0 && (p.Marked(e) || !OldHalfSmaller(p, q, e)))
    ensures agenda <= agenda' && forall c :: c in agenda' ==> c in agenda || c == b || c == nb
    ensures q'.IsOnAgenda() ==> nb in agenda'
    ensures p'.IsOnAgenda() ==> p.IsOnAgenda() || b in agenda'
  {
    p', q', agenda' := p, q, agenda;
    NoNegatives(q.inc);
    assert !q.IsOnAgenda() by {
      AgendaIffMarked(q);
    }
    var max := p.SizeOfIncoming();
    var i := 0;
    while i <= max
      invariant 0 <= i <= max + 1
      invariant SameRange(p, p') && p'.CountOK() && |p'.inc| == |p.inc|
      invariant SameRange(q, q') && q'.CountOK()
      invariant forall e: nat :: p'.GetIncoming(e) == p.GetIncoming(e) && q'.GetIncoming(e) == q.GetIncoming(e)
      invariant MarksUpTo(p, q, p', q', i)
      invariant agenda <= agenda' && forall c :: c in agenda' ==> c in agenda || c == b || c == nb
      invariant q'.IsOnAgenda() ==> nb in agenda'
      invariant p'.IsOnAgenda() ==> p.IsOnAgenda() || b in agenda'
    {
      var pbInc, nbInc := p'.GetIncoming(i), q'.GetIncoming(i);
      Mark(p', i);
      Mark(q', i);
      if p'.Marked(i) {
        if nbInc > 0 {
          if !q'.IsOnAgenda() {
            agenda' := agenda' + [nb];
          }
          q' := q'.PutOnAgenda(i);
        }
      } else if pbInc < nbInc && pbInc != 0 {
        if !p'.IsOnAgenda() {
          agenda' := agenda' + [b];
        }
        p' := p'.PutOnAgenda(i);
      } else if nbInc != 0 {
        if !q'.IsOnAgenda() {
          agenda' := agenda' + [nb];
        }
        q' := q'.PutOnAgenda(i);
      }
      i := i + 1;
    }
  }

  /** Puts a block on the agenda with every incoming edge. */
  method PutCompleteOnAgenda(p: PBlock, b: nat, agenda: seq<nat>) returns (p': PBlock, agenda': seq<nat>)
    requires p.CountOK()
    ensures SameRange(p, p') && p'.CountOK() && |p'.inc| == |p.inc|
    ensures forall e: nat :: p'.GetIncoming(e) == p.GetIncoming(e)
    ensures forall e: nat :: p.GetIncoming(e) > 0 ==> p'.Marked(e)
    ensures agenda' == agenda || agenda' == agenda + [b]
    ensures p'.IsOnAgenda() ==> p.IsOnAgenda() || b in agenda'
  {
    p' := p;
    var flag := false;
    var i := p.SizeOfIncoming();
    while i != 0
      invariant 0 <= i <= |p.inc|
      invariant SameRange(p, p') && p'.CountOK() && |p'.inc| == |p.inc|
      invariant forall e: nat :: p'.GetIncoming(e) == p.GetIncoming(e)
      invariant forall e: nat :: e >= i && p.GetIncoming(e) > 0 ==> p'.Marked(e)
      invariant !flag ==> p' == p
    {
      i := i - 1;
      Mark(p', i);
      if p'.GetIncoming(i) != 0 {
        flag := true;
        p' := p'.PutOnAgenda(i);
      }
    }
    agenda' := agenda;
    if flag {
      agenda' := agenda' + [b];
    }
  }
}
