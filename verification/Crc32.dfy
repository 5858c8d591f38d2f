/** CRC-32 (section 8 of RFC 1952): the shift register, its linearity over
    exclusive-or, and its agreement with polynomial division. A register is 32 bits,
    the least significant bit, which holds the highest power, first. The divisor is
    x^32 + p. */
module Crc32 {
  import opened Bits

  type Word = w: seq<bool> | |w| == 32 witness Zeros(32)

  function Zeros(n: nat): (r: seq<bool>)
    ensures |r| == n && forall i {:trigger r[i]} :: 0 <= i < n ==> !r[i]
  {
    seq(n, _ => false)
  }

  function Xor(a: seq<bool>, b: seq<bool>): (r: seq<bool>)
    requires |a| == |b|
    ensures |r| == |a|
  {
    seq(|a|, i requires 0 <= i < |a| => a[i] != b[i])
  }

  lemma XorComm(a: seq<bool>, b: seq<bool>)
    requires |a| == |b|
    ensures Xor(a, b) == Xor(b, a)
  {
  }

  lemma XorAssoc(a: seq<bool>, b: seq<bool>, c: seq<bool>)
    requires |a| == |b| == |c|
    ensures Xor(Xor(a, b), c) == Xor(a, Xor(b, c))
  {
  }

  lemma XorTwice(a: seq<bool>, b: seq<bool>)
    requires |a| == |b|
    ensures Xor(Xor(a, b), b) == a
  {
  }

  lemma XorZeros(a: seq<bool>)
    ensures Xor(a, Zeros(|a|)) == a && Xor(Zeros(|a|), a) == a
  {
  }

  /** c >> 1 */
  function Shr1(c: Word): Word {
    c[1..] + [false]
  }

  /** Multiplies by x modulo the polynomial. */
  function Step(p: Word, c: Word): Word {
    if c[0] then Xor(p, Shr1(c)) else Shr1(c)
  }

  function Steps(p: Word, c: Word, n: nat): Word
    decreases n
  {
    if n == 0 then c else Steps(p, Step(p, c), n - 1)
  }

  lemma StepLinear(p: Word, a: Word, b: Word)
    ensures Step(p, Xor(a, b)) == Xor(Step(p, a), Step(p, b))
  {
    var l, r := Step(p, Xor(a, b)), Xor(Step(p, a), Step(p, b));
    forall i | 0 <= i < 32 ensures l[i] == r[i] {
    }
  }

  lemma {:induction false} StepsLinear(p: Word, a: Word, b: Word, n: nat)
    ensures Steps(p, Xor(a, b), n) == Xor(Steps(p, a, n), Steps(p, b, n))
    decreases n
  {
    hide Step, Xor;
    if n > 0 {
      StepLinear(p, a, b);
      StepsLinear(p, Step(p, a), Step(p, b), n - 1);
    }
  }

  lemma {:induction false} StepsAdd(p: Word, c: Word, m: nat, n: nat)
    ensures Steps(p, Steps(p, c, m), n) == Steps(p, c, m + n)
    decreases m
  {
    hide Step;
    if m > 0 {
      StepsAdd(p, Step(p, c), m - 1, n);
    }
  }

  // ---------- bytes ----------

  /** The low n bits of x, the lowest first. */
  function BitsOf(x: nat, n: nat): (r: seq<bool>)
    ensures |r| == n
    decreases n
  {
    if n == 0 then [] else [x % 2 == 1] + BitsOf(x / 2, n - 1)
  }

  function Val(s: seq<bool>): nat {
    if s == [] then 0 else (if s[0] then 1 else 0) + 2 * Val(s[1..])
  }

  lemma {:induction false} BitsOfVal(s: seq<bool>)
    ensures BitsOf(Val(s), |s|) == s
    decreases |s|
  {
    if s != [] {
      BitsOfVal(s[1..]);
      assert Val(s) / 2 == Val(s[1..]);
    }
  }

  lemma {:induction false} ValBound(s: seq<bool>)
    ensures Val(s) < Pow2(|s|)
    decreases |s|
  {
    if s != [] {
      ValBound(s[1..]);
    }
  }

  lemma ByteVal(s: seq<bool>)
    requires |s| == 8
    ensures Val(s) < 256 && BitsOf(Val(s), 8) == s
  {
    ValBound(s);
    BitsOfVal(s);
    assert Pow2(8) == 256;
  }

  /** A byte as a word. */
  function Extend(s: seq<bool>): (r: Word)
    requires |s| <= 32
  {
    s + Zeros(32 - |s|)
  }

  function ByteWord(b: Byte): Word {
    Extend(BitsOf(b, 8))
  }

  /** The register after the bytes of s, starting from c. */
  function Feed(p: Word, c: Word, s: seq<Byte>): Word
    decreases |s|
  {
    if s == [] then c else Feed(p, Steps(p, Xor(c, ByteWord(s[0])), 8), s[1..])
  }

  function Ones(): Word {
    seq(32, _ => true)
  }

  /** ~c */
  function Not(c: Word): Word {
    seq(32, i requires 0 <= i < 32 => !c[i])
  }

  lemma NotIsXor(c: Word)
    ensures Not(c) == Xor(c, Ones())
  {
  }

  /** The checksum of s, continuing from the checksum crc. */
  function Crc(p: Word, crc: Word, s: seq<Byte>): Word {
    Not(Feed(p, Not(crc), s))
  }

  lemma {:induction false} FeedAppend(p: Word, c: Word, s: seq<Byte>, t: seq<Byte>)
    ensures Feed(p, c, s + t) == Feed(p, Feed(p, c, s), t)
    decreases |s|
  {
    hide Steps, Xor, ByteWord;
    if s == [] {
      assert s + t == t;
    } else {
      assert (s + t)[1..] == s[1..] + t;
      FeedAppend(p, Steps(p, Xor(c, ByteWord(s[0])), 8), s[1..], t);
    }
  }

  /** A change of the register is carried along by as many steps as there are bits. */
  lemma {:induction false} FeedAffine(p: Word, a: Word, b: Word, s: seq<Byte>)
    ensures Feed(p, Xor(a, b), s) == Xor(Feed(p, a, s), Steps(p, b, 8 * |s|))
    decreases |s|
  {
    hide Steps, Xor, ByteWord;
    if s == [] {
      NoSteps(p, b);
    } else {
      var x := ByteWord(s[0]);
      XorAssoc(a, b, x);
      XorComm(b, x);
      XorAssoc(a, x, b);
      StepsLinear(p, Xor(a, x), b, 8);
      FeedAffine(p, Steps(p, Xor(a, x), 8), Steps(p, b, 8), s[1..]);
      StepsAdd(p, b, 8, 8 * |s[1..]|);
      assert 8 + 8 * |s[1..]| == 8 * |s|;
    }
  }

  lemma NoSteps(p: Word, c: Word)
    ensures Steps(p, c, 0) == c
  {
  }

  /** Checksums can be computed piece by piece. */
  lemma CrcAppend(p: Word, crc: Word, s: seq<Byte>, t: seq<Byte>)
    ensures Crc(p, Crc(p, crc, s), t) == Crc(p, crc, s + t)
  {
    hide Feed, Xor, Ones, Not;
    var c := Feed(p, Not(crc), s);
    FeedAppend(p, Not(crc), s, t);
    NotIsXor(c);
    NotIsXor(Not(c));
    XorTwice(c, Ones());
  }

  /** What combining two checksums has to compute. */
  lemma CrcCombined(p: Word, x: seq<Byte>, y: seq<Byte>)
    ensures Crc(p, Zeros(32), x + y) == Xor(Steps(p, Crc(p, Zeros(32), x), 8 * |y|), Crc(p, Zeros(32), y))
  {
    hide Feed, Steps, Xor, Ones, Zeros, Not;
    var c := Crc(p, Zeros(32), x);
    CrcAppend(p, Zeros(32), x, y);
    NotIsXor(Zeros(32));
    XorZeros(Ones());
    NotIsXor(c);
    XorComm(c, Ones());
    FeedAffine(p, Ones(), c, y);
    var f, g := Feed(p, Ones(), y), Steps(p, c, 8 * |y|);
    NotIsXor(f);
    NotIsXor(Xor(f, g));
    XorComm(f, g);
    XorAssoc(g, f, Ones());
  }

  // ---------- polynomial division ----------

  /** Adds r to the first bits of m. */
  function AddTo(m: seq<bool>, r: seq<bool>): (s: seq<bool>)
    requires |r| <= |m|
    ensures |s| == |m|
  {
    Xor(m[..|r|], r) + m[|r|..]
  }

  /** The remainder of long division by x^32 + p: whenever the leading bit is set,
      the divisor is subtracted. */
  function Remainder(m: seq<bool>, p: Word): (r: seq<bool>)
    requires |m| >= 32
    ensures |r| == 32
    decreases |m|
  {
    if |m| == 32 then m
    else if m[0] then Remainder(AddTo(m[1..], p), p)
    else Remainder(m[1..], p)
  }

  /** The bits of a message in the order they are sent, the low bit of a byte first. */
  function BytesToBits(s: seq<Byte>): seq<bool> {
    if s == [] then [] else BitsOf(s[0], 8) + BytesToBits(s[1..])
  }

  /** One message bit b comes in. */
  function Shifted(p: Word, r: Word, b: bool): Word {
    if r[0] != b then Xor(p, Shr1(r)) else Shr1(r)
  }

  function ShiftedAll(p: Word, r: Word, m: seq<bool>): Word
    decreases |m|
  {
    if m == [] then r else ShiftedAll(p, Shifted(p, r, m[0]), m[1..])
  }

  lemma RegisterStep(r: Word, m: seq<bool>, p: Word)
    requires m != []
    ensures var t := AddTo(m + Zeros(32), r);
            && t[0] == (m[0] != r[0])
            && (if t[0] then AddTo(t[1..], p) else t[1..]) == AddTo(m[1..] + Zeros(32), Shifted(p, r, m[0]))
  {
    hide AddTo, Shifted, Zeros;
    var mz, r' := m + Zeros(32), Shifted(p, r, m[0]);
    var t := AddTo(mz, r);
    AddToAt(mz, r, 0);
    var u := if t[0] then AddTo(t[1..], p) else t[1..];
    var mz' := m[1..] + Zeros(32);
    var v := AddTo(mz', r');
    forall i | 0 <= i < |u| ensures u[i] == v[i] {
      AddToAt(mz, r, i + 1);
      AddToAt(t[1..], p, i);
      AddToAt(mz', r', i);
      if i < 32 {
        ShiftedAt(p, r, m[0], i);
      }
    }
  }

  lemma AddToAt(m: seq<bool>, r: seq<bool>, i: nat)
    requires |r| <= |m| && i < |m|
    ensures AddTo(m, r)[i] == if i < |r| then m[i] != r[i] else m[i]
  {
  }

  lemma ShiftedAt(p: Word, r: Word, b: bool, i: nat)
    requires i < 32
    ensures Shifted(p, r, b)[i] == ((r[0] != b && p[i]) != (i < 31 && r[i + 1]))
  {
  }

  /** The shift register computes the remainder. */
  lemma {:induction false} RegisterIsRemainder(r: Word, m: seq<bool>, p: Word)
    ensures Remainder(AddTo(m + Zeros(32), r), p) == ShiftedAll(p, r, m)
    decreases |m|
  {
    hide AddTo, Shifted;
    if m == [] {
      AddToZeros(m, r);
    } else {
      RegisterStep(r, m, p);
      RegisterIsRemainder(Shifted(p, r, m[0]), m[1..], p);
    }
  }

  lemma AddToZeros(m: seq<bool>, r: Word)
    requires m == []
    ensures AddTo(m + Zeros(32), r) == r
  {
  }

  /** Adding the bits of a byte all at once or one by one is the same. */
  lemma StepShifted(p: Word, c: Word, x: seq<bool>)
    requires 1 <= |x| <= 32
    ensures Step(p, Xor(c, Extend(x))) == Xor(Shifted(p, c, x[0]), Extend(x[1..]))
  {
    var l, r := Step(p, Xor(c, Extend(x))), Xor(Shifted(p, c, x[0]), Extend(x[1..]));
    forall i | 0 <= i < 32 ensures l[i] == r[i] {
    }
  }

  lemma {:induction false} StepsShifted(p: Word, c: Word, x: seq<bool>)
    requires |x| <= 32
    ensures Steps(p, Xor(c, Extend(x)), |x|) == ShiftedAll(p, c, x)
    decreases |x|
  {
    hide Step, Shifted, Xor;
    if x == [] {
      assert Extend(x) == Zeros(32);
      XorZeros(c);
    } else {
      StepShifted(p, c, x);
      StepsShifted(p, Shifted(p, c, x[0]), x[1..]);
    }
  }

  lemma {:induction false} ShiftedAppend(p: Word, r: Word, m: seq<bool>, n: seq<bool>)
    ensures ShiftedAll(p, r, m + n) == ShiftedAll(p, ShiftedAll(p, r, m), n)
    decreases |m|
  {
    hide Shifted;
    if m == [] {
      assert m + n == n;
    } else {
      assert (m + n)[1..] == m[1..] + n;
      ShiftedAppend(p, Shifted(p, r, m[0]), m[1..], n);
    }
  }

  lemma {:induction false} FeedBits(p: Word, c: Word, s: seq<Byte>)
    ensures Feed(p, c, s) == ShiftedAll(p, c, BytesToBits(s))
    decreases |s|
  {
    hide BitsOf, Steps, Xor;
    if s != [] {
      StepsShifted(p, c, BitsOf(s[0], 8));
      ShiftedAppend(p, c, BitsOf(s[0], 8), BytesToBits(s[1..]));
      FeedBits(p, Steps(p, Xor(c, ByteWord(s[0])), 8), s[1..]);
    }
  }

  /** The checksum is, bit by bit, the negation of the remainder of the message followed by 32
      zeros, divided by the polynomial, when the first 32 bits of it are negated; or, where the
      checksum crc is continued, when the bits of crc are added to them as well. */
  lemma CrcIsRemainder(p: Word, crc: Word, s: seq<Byte>, m: seq<bool>)
    requires var b := BytesToBits(s);
             |m| == |b| + 32 && forall i {:trigger m[i]} :: 0 <= i < |m| ==> m[i] == ((i < |b| && b[i]) != (i < 32 && !crc[i]))
    ensures forall i {:trigger Crc(p, crc, s)[i]} :: 0 <= i < 32 ==> Crc(p, crc, s)[i] == !Remainder(m, p)[i]
  {
    hide Feed, Remainder, AddTo, ShiftedAll;
    var b := BytesToBits(s);
    FeedBits(p, Not(crc), s);
    RegisterIsRemainder(Not(crc), b, p);
    var t := AddTo(b + Zeros(32), Not(crc));
    forall i | 0 <= i < |m| ensures m[i] == t[i] {
      AddToAt(b + Zeros(32), Not(crc), i);
    }
    assert m == t;
  }

  /** From the start: the message with its first 32 bits negated. */
  lemma CrcOfMessage(p: Word, s: seq<Byte>, m: seq<bool>)
    requires var b := BytesToBits(s);
             |m| == |b| + 32 && forall i {:trigger m[i]} :: 0 <= i < |m| ==> m[i] == ((i < |b| && b[i]) != (i < 32))
    ensures forall i {:trigger Crc(p, Zeros(32), s)[i]} :: 0 <= i < 32 ==> Crc(p, Zeros(32), s)[i] == !Remainder(m, p)[i]
  {
    hide Crc, Remainder, BytesToBits;
    CrcIsRemainder(p, Zeros(32), s, m);
  }
}
