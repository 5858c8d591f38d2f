/** The checksum by tables, one byte or one 32-bit word at a time. */
module CrcTables {
  import opened Bits
  import opened Crc32

  /** The powers of x in the polynomial, without x^32. */
  const TERMS: seq<nat> := [0, 1, 2, 4, 5, 7, 8, 10, 11, 12, 16, 22, 23, 26]

  ghost predicate TermsOK(s: seq<nat>) {
    forall i {:trigger s[i]} :: 0 <= i < |s| ==> s[i] < 32
  }

  /** The pattern holds x^k in bit 31 - k. */
  ghost predicate PatternOf(poly: Word, terms: seq<nat>) {
    forall k {:trigger poly[31 - k]} :: 0 <= k < 32 ==> (poly[31 - k] <==> k in terms)
  }

  /** Makes the exclusive-or pattern from the terms of the polynomial. */
  method MakePoly(terms: seq<nat>) returns (poly: Word)
    requires TermsOK(terms)
    ensures PatternOf(poly, terms)
  {
    poly := Zeros(32);
    for n := 0 to |terms|
      invariant PatternOf(poly, terms[..n])
    {
      assert terms[..n + 1] == terms[..n] + [terms[n]];
      poly := poly[31 - terms[n] := true];
    }
    assert terms[..|terms|] == terms;
  }

  // ---------- the tables ----------

  /** Table k holds the register after a byte and k zero bytes. */
  ghost predicate TableOK(p: Word, table: seq<Word>, k: nat) {
    |table| == 256 && forall n {:trigger table[n]} :: 0 <= n < 256 ==> table[n] == Steps(p, ByteWord(n), 8 * (k + 1))
  }

  ghost predicate TablesOK(p: Word, tables: seq<seq<Word>>) {
    |tables| == 4 && forall k {:trigger tables[k]} :: 0 <= k < 4 ==> TableOK(p, tables[k], k)
  }

  /** c >> 8 */
  function Shr8(c: Word): Word {
    c[8..] + Zeros(8)
  }

  /** Zero bits that come out change nothing. */
  lemma {:induction false} StepsZeros(p: Word, y: seq<bool>, k: nat)
    requires |y| + k <= 32
    ensures Steps(p, Zeros(k) + y + Zeros(32 - k - |y|), k) == y + Zeros(32 - |y|)
    decreases k
  {
    var c := Zeros(k) + y + Zeros(32 - k - |y|);
    if k > 0 {
      assert Shr1(c) == Zeros(k - 1) + y + Zeros(32 - (k - 1) - |y|);
      StepsZeros(p, y, k - 1);
    } else {
      assert c == y + Zeros(32 - |y|);
    }
  }

  /** One byte by the first table. */
  lemma TableByte(p: Word, table: seq<Word>, x: Word)
    requires TableOK(p, table, 0)
    ensures |table| == 256 && Xor(Entry(table, x[..8]), Shr8(x)) == Steps(p, x, 8)
  {
    hide Steps, Xor, TableOK;
    var lo, hi := Extend(x[..8]), Zeros(8) + x[8..];
    ByteVal(x[..8]);
    SplitByte(x);
    StepsLinear(p, lo, hi, 8);
    assert hi == Zeros(8) + x[8..] + Zeros(32 - 8 - |x[8..]|);
    StepsZeros(p, x[8..], 8);
    TableEntry(p, table, 0, Val(x[..8]));
  }

  lemma SplitByte(x: Word)
    ensures x == Xor(Extend(x[..8]), Zeros(8) + x[8..])
  {
  }

  lemma TableEntry(p: Word, table: seq<Word>, k: nat, n: nat)
    requires TableOK(p, table, k) && n < 256
    ensures |table| == 256 && table[n] == Steps(p, ByteWord(n), 8 * (k + 1))
  {
  }

  /** The entry for the byte y. */
  function Entry(table: seq<Word>, y: seq<bool>): Word
    requires |table| == 256 && |y| == 8
  {
    ByteVal(y);
    table[Val(y)]
  }

  /** Generates the tables for the polynomial p. */
  method MakeCrcTable(p: Word) returns (tables: seq<seq<Word>>)
    ensures TablesOK(p, tables)
  {
    hide Steps, Xor, TableOK, ByteWord;
    var first: seq<Word> := [];
    for n := 0 to 256
      invariant |first| == n && forall i {:trigger first[i]} :: 0 <= i < n ==> first[i] == Steps(p, ByteWord(i), 8)
    {
      var c := ByteWord(n);
      NoSteps(p, c);
      for k := 0 to 8
        invariant c == Steps(p, ByteWord(n), k)
      {
        StepLast(p, ByteWord(n), k);
        c := if c[0] then Xor(p, Shr1(c)) else Shr1(c);
      }
      first := first + [c];
    }
    FirstTable(p, first);
    tables := [first];
    var t: seq<seq<Word>> := [[], [], []];
    for n := 0 to 256
      invariant |t| == 3
      invariant forall k {:trigger t[k]} :: 0 <= k < 3 ==> Filled(p, t[k], k + 1, n)
    {
      var c := first[n];
      for k := 1 to 4
        invariant c == Steps(p, ByteWord(n), 8 * k) && |t| == 3
        invariant forall i {:trigger t[i]} :: 0 <= i < 3 ==> Filled(p, t[i], i + 1, if i < k - 1 then n + 1 else n)
      {
        TableByte(p, first, c);
        StepsAdd(p, ByteWord(n), 8 * k, 8);
        c := Xor(Entry(first, c[..8]), Shr8(c));
        FilledStep(p, t[k - 1], k, n, c);
        t := t[k - 1 := t[k - 1] + [c]];
      }
    }
    tables := [first] + t;
    forall k | 0 <= k < 4 ensures TableOK(p, tables[k], k) {
      if k > 0 {
        FilledAll(p, t[k - 1], k);
      }
    }
  }

  /** The tables for the polynomial of CRC-32. */
  method Crc32Tables() returns (p: Word, tables: seq<seq<Word>>)
    ensures Val(p) == 0xedb88320 && PatternOf(p, TERMS) && TablesOK(p, tables)
  {
    p := MakePoly(TERMS);
    PatternValue(p);
    tables := MakeCrcTable(p);
  }

  // ---------- the numbers ----------

  lemma ShlByte(x: nat)
    ensures Shl(x, 8) == 256 * x
  {
    assert Shl(x, 4) == 16 * x;
    ShlShl(x, 4, 4);
    assert Shl(16 * x, 4) == 16 * (16 * x);
  }

  lemma {:induction false} ValAppend(a: seq<bool>, b: seq<bool>)
    ensures Val(a + b) == Val(a) + Shl(Val(b), |a|)
    decreases |a|
  {
    if a == [] {
      assert a + b == b;
    } else {
      ValAppend(a[1..], b);
      assert (a + b)[1..] == a[1..] + b;
    }
  }

  /** The value of a word from those of its bytes. */
  lemma ValOfBytes(c: Word)
    ensures Val(c) == Val(c[..8]) + 256 * (Val(c[8..16]) + 256 * (Val(c[16..24]) + 256 * Val(c[24..])))
  {
    hide Val, Shl;
    assert c == c[..8] + c[8..] && c[8..] == c[8..16] + c[16..] && c[16..] == c[16..24] + c[24..];
    ValAppend(c[..8], c[8..]);
    ShlByte(Val(c[8..]));
    ValAppend(c[8..16], c[16..]);
    ShlByte(Val(c[16..]));
    ValAppend(c[16..24], c[24..]);
    ShlByte(Val(c[24..]));
  }

  function One(b: bool): nat {
    if b then 1 else 0
  }

  lemma ValStep(c: seq<bool>, i: nat)
    requires i < |c|
    ensures Val(c[i..]) == One(c[i]) + 2 * Val(c[i + 1..])
  {
    assert c[i..][1..] == c[i + 1..];
  }

  lemma ValOfFour(c: seq<bool>, i: nat)
    requires i + 4 <= |c|
    ensures Val(c[i..]) == One(c[i]) + 2 * One(c[i + 1]) + 4 * One(c[i + 2]) + 8 * One(c[i + 3]) + 16 * Val(c[i + 4..])
  {
    hide Val, One;
    ValStep(c, i);
    ValStep(c, i + 1);
    ValStep(c, i + 2);
    ValStep(c, i + 3);
  }

  lemma ValNone(c: seq<bool>)
    requires c == []
    ensures Val(c) == 0
  {
  }

  /** The value of a byte, bit by bit. */
  lemma ValOfByte(c: seq<bool>)
    requires |c| == 8
    ensures Val(c) == One(c[0]) + 2 * One(c[1]) + 4 * One(c[2]) + 8 * One(c[3]) + 16 * One(c[4]) + 32 * One(c[5]) + 64 * One(c[6]) + 128 * One(c[7])
  {
    hide Val, One;
    ValNone(c[8..]);
    assert c[0..] == c;
    ValOfFour(c, 0);
    ValOfFour(c, 4);
  }

  lemma TermsAre(k: nat)
    ensures k in TERMS <==> k in {0, 1, 2, 4, 5, 7, 8, 10, 11, 12, 16, 22, 23, 26}
  {
  }

  lemma PatternAt(p: Word, terms: seq<nat>, k: nat)
    requires PatternOf(p, terms) && k < 32
    ensures p[31 - k] <==> k in terms
  {
  }

  /** Whether bit i of the pattern is set. */
  lemma PatternBit(p: Word, i: nat)
    requires PatternOf(p, TERMS) && i < 32
    ensures p[i] <==> 31 - i in {0, 1, 2, 4, 5, 7, 8, 10, 11, 12, 16, 22, 23, 26}
  {
    hide PatternOf;
    PatternAt(p, TERMS, 31 - i);
    TermsAre(31 - i);
  }

  lemma PatternByte(p: Word, k: nat, c: seq<bool>)
    requires PatternOf(p, TERMS) && (k == 0 || k == 8 || k == 16 || k == 24) && c == p[k..k + 8]
    ensures Val(c) == if k == 0 then 0x20 else if k == 8 then 0x83 else if k == 16 then 0xb8 else 0xed
  {
    hide Val, PatternOf;
    ValOfByte(c);
    PatternBit(p, k);
    PatternBit(p, k + 1);
    PatternBit(p, k + 2);
    PatternBit(p, k + 3);
    PatternBit(p, k + 4);
    PatternBit(p, k + 5);
    PatternBit(p, k + 6);
    PatternBit(p, k + 7);
  }

  /** The pattern of the terms is the number that the source gives for it. */
  lemma PatternValue(p: Word)
    requires PatternOf(p, TERMS)
    ensures Val(p) == 0xedb88320
  {
    hide Val, PatternOf;
    ValOfBytes(p);
    PatternByte(p, 0, p[..8]);
    PatternByte(p, 8, p[8..16]);
    PatternByte(p, 16, p[16..24]);
    PatternByte(p, 24, p[24..]);
  }

  lemma WordSize()
    ensures Pow2(32) == 0x100000000
  {
    hide Shl, Pow2;
    Pow2Shl(0, 8);
    ShlByte(1);
    Pow2Shl(8, 8);
    ShlByte(256);
    Pow2Shl(16, 8);
    ShlByte(65536);
    Pow2Shl(24, 8);
    ShlByte(16777216);
  }

  /** All bits set. */
  function Trues(n: nat): (r: seq<bool>)
    ensures |r| == n && forall i {:trigger r[i]} :: 0 <= i < n ==> r[i]
  {
    seq(n, _ => true)
  }

  /** A register of ones is emptied by as many ones. */
  lemma {:induction false} OnesCancel(p: Word, k: nat)
    requires k <= 32
    ensures ShiftedAll(p, Trues(k) + Zeros(32 - k), Trues(k)) == Zeros(32)
    decreases k
  {
    var c := Trues(k) + Zeros(32 - k);
    if k == 0 {
      assert c == Zeros(32);
    } else {
      assert Shr1(c) == Trues(k - 1) + Zeros(32 - (k - 1));
      assert Trues(k)[1..] == Trues(k - 1);
      OnesCancel(p, k - 1);
    }
  }

  /** Zeros leave an empty register empty. */
  lemma {:induction false} ZerosStay(p: Word, n: nat)
    ensures ShiftedAll(p, Zeros(32), Zeros(n)) == Zeros(32)
    decreases n
  {
    if n > 0 {
      assert Shr1(Zeros(32)) == Zeros(32);
      assert Zeros(n)[1..] == Zeros(n - 1);
      ZerosStay(p, n - 1);
    }
  }

  lemma CheckBits()
    ensures BytesToBits([255, 255, 255, 255, 128]) == Trues(32) + (Zeros(7) + [true])
  {
    hide BytesToBits, BitsOf, Trues, Zeros;
    BitsOfOnes();
    BitsOfTop();
    var t := BytesToBits([128]);
    assert [128] == [128] + [];
    OneByte(128, []);
    NoBytes();
    OnesBefore([128], 0, t);
    assert [255] + [128] == [255, 128];
    OnesBefore([255, 128], 8, t);
    assert [255] + [255, 128] == [255, 255, 128];
    OnesBefore([255, 255, 128], 16, t);
    assert [255] + [255, 255, 128] == [255, 255, 255, 128];
    OnesBefore([255, 255, 255, 128], 24, t);
    assert [255] + [255, 255, 255, 128] == [255, 255, 255, 255, 128];
  }

  lemma OnesBefore(s: seq<Byte>, n: nat, t: seq<bool>)
    requires BytesToBits(s) == Trues(n) + t
    ensures BytesToBits([255] + s) == Trues(n + 8) + t
  {
    hide BitsOf;
    BitsOfOnes();
    OneByte(255, s);
  }

  lemma BitsOfOnes()
    ensures BitsOf(255, 8) == Trues(8) && Trues(0) == []
  {
  }

  lemma BitsOfTop()
    ensures BitsOf(128, 8) == Zeros(7) + [true]
  {
  }

  lemma OneByte(b: Byte, s: seq<Byte>)
    ensures BytesToBits([b] + s) == BitsOf(b, 8) + BytesToBits(s)
  {
    assert ([b] + s)[1..] == s;
  }

  lemma NoBytes()
    ensures BytesToBits([]) == []
  {
  }

  /** The register after four bytes of ones and the byte 128 is the pattern itself. */
  lemma CheckRegister(p: Word)
    ensures Crc(p, Zeros(32), [255, 255, 255, 255, 128]) == Not(p)
  {
    hide BytesToBits, ShiftedAll, Feed, Not;
    FeedBits(p, Not(Zeros(32)), [255, 255, 255, 255, 128]);
    CheckBits();
    assert Not(Zeros(32)) == Trues(32) + Zeros(0) by {
      NotZeros();
    }
    ShiftedAppend(p, Not(Zeros(32)), Trues(32), Zeros(7) + [true]);
    OnesCancel(p, 32);
    ShiftedAppend(p, Zeros(32), Zeros(7), [true]);
    ZerosStay(p, 7);
    LastOne(p);
  }

  lemma NotZeros()
    ensures Not(Zeros(32)) == Trues(32) + Zeros(0)
  {
  }

  lemma LastOne(p: Word)
    ensures ShiftedAll(p, Zeros(32), [true]) == p
  {
    assert [true][1..] == [];
    assert Xor(p, Shr1(Zeros(32))) == p;
  }

  lemma {:induction false} NotValue(c: seq<bool>, d: seq<bool>)
    requires |c| == |d| && forall i {:trigger d[i]} :: 0 <= i < |c| ==> d[i] == !c[i]
    ensures Val(c) + Val(d) + 1 == Pow2(|c|)
    decreases |c|
  {
    if c != [] {
      NotValue(c[1..], d[1..]);
    }
  }

  ghost predicate Filled(p: Word, table: seq<Word>, k: nat, n: nat) {
    |table| == n <= 256 && forall i {:trigger table[i]} :: 0 <= i < n ==> table[i] == Steps(p, ByteWord(i), 8 * (k + 1))
  }

  lemma FilledStep(p: Word, table: seq<Word>, k: nat, n: nat, c: Word)
    requires Filled(p, table, k, n) && n < 256 && c == Steps(p, ByteWord(n), 8 * k + 8)
    ensures Filled(p, table + [c], k, n + 1)
  {
    hide Steps, ByteWord;
  }

  lemma FilledAll(p: Word, table: seq<Word>, k: nat)
    requires Filled(p, table, k, 256)
    ensures TableOK(p, table, k)
  {
    hide Steps, ByteWord;
  }

  lemma FirstTable(p: Word, table: seq<Word>)
    requires |table| == 256 && forall i {:trigger table[i]} :: 0 <= i < 256 ==> table[i] == Steps(p, ByteWord(i), 8)
    ensures TableOK(p, table, 0)
  {
    hide Steps, ByteWord;
  }

  lemma StepLast(p: Word, c: Word, k: nat)
    ensures Steps(p, c, k + 1) == Step(p, Steps(p, c, k)) && Steps(p, c, 0) == c
  {
    StepsAdd(p, c, k, 1);
    assert Steps(p, Steps(p, c, k), 1) == Steps(p, Step(p, Steps(p, c, k)), 0);
  }

  // ---------- byte by byte ----------

  /** DO1: one byte by the first table. */
  function Do1(tables: seq<seq<Word>>, c: Word, b: Byte): Word
    requires |tables| == 4 && |tables[0]| == 256
  {
    Xor(Entry(tables[0], Xor(c, ByteWord(b))[..8]), Shr8(c))
  }

  lemma Do1Feeds(p: Word, tables: seq<seq<Word>>, c: Word, b: Byte)
    requires TablesOK(p, tables)
    ensures |tables[0]| == 256 && Do1(tables, c, b) == Steps(p, Xor(c, ByteWord(b)), 8)
  {
    hide Steps, Xor, Shr8, Entry;
    var x := Xor(c, ByteWord(b));
    assert TableOK(p, tables[0], 0);
    TableByte(p, tables[0], x);
    SameHigh(c, b);
  }

  lemma SameHigh(c: Word, b: Byte)
    ensures Shr8(Xor(c, ByteWord(b))) == Shr8(c)
  {
    hide BitsOf;
  }

  lemma FeedStep(p: Word, tables: seq<seq<Word>>, c: Word, s: seq<Byte>, i: nat)
    requires TablesOK(p, tables) && i < |s|
    ensures |tables[0]| == 256 && Feed(p, Do1(tables, Feed(p, c, s[..i]), s[i]), []) == Feed(p, c, s[..i + 1])
  {
    hide Steps, Do1;
    Do1Feeds(p, tables, Feed(p, c, s[..i]), s[i]);
    assert s[..i + 1] == s[..i] + [s[i]];
    FeedAppend(p, c, s[..i], [s[i]]);
    assert [s[i]][1..] == [];
  }

  lemma TablesSize(p: Word, tables: seq<seq<Word>>)
    requires TablesOK(p, tables)
    ensures forall k {:trigger tables[k]} :: 0 <= k < 4 ==> |tables[k]| == 256
  {
    forall k | 0 <= k < 4 ensures |tables[k]| == 256 {
      assert TableOK(p, tables[k], k);
    }
  }

  /** The loop over single bytes, eight at a time while there are as many. */
  method Crc32Bytes(p: Word, tables: seq<seq<Word>>, crc: Word, buf: Buffer) returns (r: Word)
    requires TablesOK(p, tables)
    ensures r == if buf.Null? then Zeros(32) else Crc(p, crc, buf.data)
  {
    hide Steps, Xor, Do1, TablesOK, Feed;
    if buf.Null? {
      return Zeros(32);
    }
    TablesSize(p, tables);
    TablesLength(p, tables);
    var s := buf.data;
    NotIsXor(crc);
    var start := Xor(crc, Ones());
    var c := start;
    var i := 0;
    FeedNone(p, start);
    assert s[..0] == [];
    while |s| - i >= 8
      invariant 0 <= i <= |s| && c == Feed(p, start, s[..i])
      decreases |s| - i
    {
      ghost var i0 := i;
      var k := 0;
      while k < 8
        invariant 0 <= k <= 8 && i0 + k == i && i + 8 - k <= |s| && c == Feed(p, start, s[..i])
        decreases 8 - k
      {
        FeedStep(p, tables, start, s, i);
        c := Do1(tables, c, s[i]);
        FeedNone(p, c);
        i := i + 1;
        k := k + 1;
      }
    }
    while i < |s|
      invariant 0 <= i <= |s| && c == Feed(p, start, s[..i])
    {
      FeedStep(p, tables, start, s, i);
      c := Do1(tables, c, s[i]);
      FeedNone(p, c);
      i := i + 1;
    }
    assert s[..|s|] == s;
    NotIsXor(c);
    r := Xor(c, Ones());
  }

  lemma TablesLength(p: Word, tables: seq<seq<Word>>)
    requires TablesOK(p, tables)
    ensures |tables| == 4
  {
  }

  lemma FeedNone(p: Word, c: Word)
    ensures Feed(p, c, []) == c
  {
  }

  // ---------- word by word ----------

  /** The four bytes at i as a little-endian word. */
  function WordAt(s: seq<Byte>, i: nat): Word
    requires i + 4 <= |s|
  {
    BitsOf(s[i], 8) + BitsOf(s[i + 1], 8) + BitsOf(s[i + 2], 8) + BitsOf(s[i + 3], 8)
  }

  /** DOLIT4: one word by the four tables. */
  function DoLit4(tables: seq<seq<Word>>, c: Word, w: Word): Word
    requires |tables| == 4 && forall k {:trigger tables[k]} :: 0 <= k < 4 ==> |tables[k]| == 256
  {
    var x := Xor(c, w);
    Xor(Xor(Xor(Entry(tables[3], x[..8]), Entry(tables[2], x[8..16])), Entry(tables[1], x[16..24])), Entry(tables[0], x[24..]))
  }

  /** Byte y at bit k of a word. */
  function Place(y: seq<bool>, k: nat): (r: Word)
    requires |y| == 8 && k <= 24
  {
    Zeros(k) + y + Zeros(24 - k)
  }

  lemma FourParts(x: Word)
    ensures x == Xor(Xor(Xor(Place(x[..8], 0), Place(x[8..16], 8)), Place(x[16..24], 16)), Place(x[24..], 24))
  {
  }

  /** A byte k bits up needs k steps less. */
  lemma PlaceSteps(p: Word, y: seq<bool>, k: nat)
    requires |y| == 8 && k <= 24
    ensures Steps(p, Place(y, k), 32) == Steps(p, Extend(y), 32 - k)
  {
    hide Steps;
    assert 32 - k - |y| == 24 - k;
    StepsZeros(p, y, k);
    StepsAdd(p, Place(y, k), k, 32 - k);
  }

  lemma PlacedByTable(p: Word, tables: seq<seq<Word>>, y: seq<bool>, k: nat)
    requires TablesOK(p, tables) && |y| == 8 && k < 4
    ensures |tables[k]| == 256 && Entry(tables[k], y) == Steps(p, Place(y, 8 * (3 - k)), 32)
  {
    hide Steps, TableOK;
    assert TableOK(p, tables[k], k);
    ByteVal(y);
    TableEntry(p, tables[k], k, Val(y));
    PlaceSteps(p, y, 8 * (3 - k));
    assert 32 - 8 * (3 - k) == 8 * (k + 1);
  }

  lemma StepsOfFour(p: Word, a: Word, b: Word, c: Word, d: Word, n: nat)
    ensures Steps(p, Xor(Xor(Xor(a, b), c), d), n) == Xor(Xor(Xor(Steps(p, a, n), Steps(p, b, n)), Steps(p, c, n)), Steps(p, d, n))
  {
    hide Steps, Xor;
    StepsLinear(p, Xor(Xor(a, b), c), d, n);
    StepsLinear(p, Xor(a, b), c, n);
    StepsLinear(p, a, b, n);
  }

  /** A word by four tables is 32 steps. */
  lemma DoLit4Steps(p: Word, tables: seq<seq<Word>>, c: Word, w: Word)
    requires TablesOK(p, tables)
    ensures (forall k {:trigger tables[k]} :: 0 <= k < 4 ==> |tables[k]| == 256) && DoLit4(tables, c, w) == Steps(p, Xor(c, w), 32)
  {
    hide Steps, Xor, TablesOK, Place, Entry;
    TablesLength(p, tables);
    TablesSize(p, tables);
    var x := Xor(c, w);
    FourParts(x);
    StepsOfFour(p, Place(x[..8], 0), Place(x[8..16], 8), Place(x[16..24], 16), Place(x[24..], 24), 32);
    PlacedByTable(p, tables, x[..8], 3);
    PlacedByTable(p, tables, x[8..16], 2);
    PlacedByTable(p, tables, x[16..24], 1);
    PlacedByTable(p, tables, x[24..], 0);
  }

  /** Eight steps for the low byte of x, and the rest of x. */
  lemma FeedByteOf(p: Word, c: Word, b: Byte, y: seq<bool>, n: nat)
    requires |y| <= 24 && n >= 8
    ensures Steps(p, Xor(c, Extend(BitsOf(b, 8) + y)), n) == Steps(p, Xor(Steps(p, Xor(c, ByteWord(b)), 8), Extend(y)), n - 8)
  {
    hide Steps, Xor, BitsOf;
    var lo, hi := ByteWord(b), Zeros(8) + y + Zeros(32 - 8 - |y|);
    ByteThenRest(b, y);
    XorAssoc(c, lo, hi);
    StepsLinear(p, Xor(c, lo), hi, 8);
    StepsZeros(p, y, 8);
    StepsAdd(p, Xor(c, Extend(BitsOf(b, 8) + y)), 8, n - 8);
  }

  lemma ByteThenRest(b: Byte, y: seq<bool>)
    requires |y| <= 24
    ensures Extend(BitsOf(b, 8) + y) == Xor(ByteWord(b), Zeros(8) + y + Zeros(32 - 8 - |y|))
  {
    hide BitsOf;
  }

  /** 32 steps on a word are the same as its four bytes one after the other. */
  lemma WordFeeds(p: Word, c: Word, s: seq<Byte>, i: nat)
    requires i + 4 <= |s|
    ensures Steps(p, Xor(c, WordAt(s, i)), 32) == Feed(p, c, s[i..i + 4])
  {
    hide Steps, Xor, BitsOf;
    var a, b, d, e := BitsOf(s[i], 8), BitsOf(s[i + 1], 8), BitsOf(s[i + 2], 8), BitsOf(s[i + 3], 8);
    assert WordAt(s, i) == Extend(a + (b + d + e));
    FeedByteOf(p, c, s[i], b + d + e, 32);
    var c1 := Steps(p, Xor(c, ByteWord(s[i])), 8);
    assert b + d + e == b + (d + e);
    FeedByteOf(p, c1, s[i + 1], d + e, 24);
    var c2 := Steps(p, Xor(c1, ByteWord(s[i + 1])), 8);
    FeedByteOf(p, c2, s[i + 2], e, 16);
    var c3 := Steps(p, Xor(c2, ByteWord(s[i + 2])), 8);
    FeedFour(p, c, s[i..i + 4]);
  }

  lemma FeedByte(p: Word, c: Word, s: seq<Byte>)
    requires s != []
    ensures Feed(p, c, s) == Feed(p, Steps(p, Xor(c, ByteWord(s[0])), 8), s[1..])
  {
  }

  lemma FeedFour(p: Word, c: Word, s: seq<Byte>)
    requires |s| == 4
    ensures Feed(p, c, s) == Steps(p, Xor(Steps(p, Xor(Steps(p, Xor(Steps(p, Xor(c, ByteWord(s[0])), 8), ByteWord(s[1])), 8), ByteWord(s[2])), 8), ByteWord(s[3])), 8)
  {
    hide Steps, Xor, ByteWord, Feed;
    FeedByte(p, c, s);
    var c1 := Steps(p, Xor(c, ByteWord(s[0])), 8);
    FeedByte(p, c1, s[1..]);
    var c2 := Steps(p, Xor(c1, ByteWord(s[1])), 8);
    assert s[1..][1..] == s[2..];
    FeedByte(p, c2, s[2..]);
    var c3 := Steps(p, Xor(c2, ByteWord(s[2])), 8);
    assert s[2..][1..] == s[3..];
    FeedByte(p, c3, s[3..]);
    assert s[3..][1..] == [];
    FeedNone(p, Steps(p, Xor(c3, ByteWord(s[3])), 8));
  }

  lemma WordStep(p: Word, tables: seq<seq<Word>>, c: Word, s: seq<Byte>, i: nat)
    requires TablesOK(p, tables) && i + 4 <= |s|
    ensures (forall k {:trigger tables[k]} :: 0 <= k < 4 ==> |tables[k]| == 256)
    ensures DoLit4(tables, Feed(p, c, s[..i]), WordAt(s, i)) == Feed(p, c, s[..i + 4])
  {
    hide Steps, Xor, DoLit4, Feed, WordAt, TablesOK;
    TablesLength(p, tables);
    var f := Feed(p, c, s[..i]);
    DoLit4Steps(p, tables, f, WordAt(s, i));
    WordFeeds(p, f, s, i);
    FeedAppend(p, c, s[..i], s[i..i + 4]);
    assert s[..i + 4] == s[..i] + s[i..i + 4];
  }

  /** A checksum as a number: that of the bytes ff ff ff ff 80. */
  method CheckValue() returns (p: Word, r: Word)
    ensures PatternOf(p, TERMS) && r == Crc(p, Zeros(32), [255, 255, 255, 255, 128])
    ensures Val(r) == 0x12477cdf
  {
    hide TablesOK, PatternOf, Crc, Val;
    var tables;
    p, tables := Crc32Tables();
    r := Crc32Bytes(p, tables, Zeros(32), Bytes([255, 255, 255, 255, 128]));
    CheckRegister(p);
    NotValue(p, r);
    WordSize();
  }

  /** Bytes up to a multiple of four from the address addr, then words, then bytes. */
  method Crc32Little(p: Word, tables: seq<seq<Word>>, crc: Word, s: seq<Byte>, addr: nat) returns (r: Word)
    requires TablesOK(p, tables)
    ensures r == Crc(p, crc, s)
  {
    hide Steps, Xor, Do1, DoLit4, TablesOK, Feed, WordAt;
    TablesSize(p, tables);
    TablesLength(p, tables);
    var start := Not(crc);
    var c := start;
    var i := 0;
    FeedNone(p, start);
    assert s[..0] == [];
    while i < |s| && (addr + i) % 4 != 0
      invariant 0 <= i <= |s| && c == Feed(p, start, s[..i])
    {
      FeedStep(p, tables, start, s, i);
      c := Do1(tables, c, s[i]);
      FeedNone(p, c);
      i := i + 1;
    }
    while |s| - i >= 32
      invariant 0 <= i <= |s| && c == Feed(p, start, s[..i])
      decreases |s| - i
    {
      ghost var i0 := i;
      var k := 0;
      while k < 8
        invariant 0 <= k <= 8 && i0 + 4 * k == i && i + 4 * (8 - k) <= |s| && c == Feed(p, start, s[..i])
        decreases 8 - k
      {
        WordStep(p, tables, start, s, i);
        c := DoLit4(tables, c, WordAt(s, i));
        i := i + 4;
        k := k + 1;
      }
    }
    while |s| - i >= 4
      invariant 0 <= i <= |s| && c == Feed(p, start, s[..i])
    {
      WordStep(p, tables, start, s, i);
      c := DoLit4(tables, c, WordAt(s, i));
      i := i + 4;
    }
    while i < |s|
      invariant 0 <= i <= |s| && c == Feed(p, start, s[..i])
    {
      FeedStep(p, tables, start, s, i);
      c := Do1(tables, c, s[i]);
      FeedNone(p, c);
      i := i + 1;
    }
    assert s[..|s|] == s;
    r := Not(c);
  }
}
