/** Combining the checksums of two pieces: the operator for zero bits as a matrix
    over GF(2), applied by repeated squaring. */
module CrcCombine {
  import opened Bits
  import opened Crc32

  /** The word with only bit i set. */
  function Basis(i: nat): (r: Word)
    requires i < 32
  {
    Zeros(i) + [true] + Zeros(31 - i)
  }

  /** The columns of the operator for k zero bits. */
  ghost predicate Columns(p: Word, mat: seq<Word>, k: nat) {
    |mat| == 32 && forall i {:trigger mat[i]} :: 0 <= i < 32 ==> mat[i] == Steps(p, Basis(i), k)
  }

  /** The columns from i on that vec selects, added up. */
  ghost function TimesFrom(mat: seq<Word>, vec: Word, i: nat): Word
    requires |mat| == 32 && i <= 32
    decreases 32 - i
  {
    if i == 32 then Zeros(32)
    else if vec[i] then Xor(mat[i], TimesFrom(mat, vec, i + 1))
    else TimesFrom(mat, vec, i + 1)
  }

  lemma {:induction false} NoneSelected(mat: seq<Word>, vec: Word, i: nat)
    requires |mat| == 32 && i <= 32 && forall j {:trigger vec[j]} :: i <= j < 32 ==> !vec[j]
    ensures TimesFrom(mat, vec, i) == Zeros(32)
    decreases 32 - i
  {
    if i < 32 {
      NoneSelected(mat, vec, i + 1);
    }
  }

  /** Multiplies the matrix by a vector, lowest bit first, until no bits are left. */
  method MatrixTimes(mat: seq<Word>, vec0: Word) returns (sum: Word)
    requires |mat| == 32
    ensures sum == TimesFrom(mat, vec0, 0)
  {
    hide Xor, TimesFrom;
    sum := Zeros(32);
    var vec := vec0;
    var i := 0;
    XorZeros(TimesFrom(mat, vec0, 0));
    while vec != Zeros(32)
      invariant 0 <= i <= 32 && vec == vec0[i..] + Zeros(i)
      invariant Xor(sum, TimesFrom(mat, vec0, i)) == TimesFrom(mat, vec0, 0)
      decreases 32 - i
    {
      TimesStep(mat, vec0, i);
      if vec[0] {
        XorAssoc(sum, mat[i], TimesFrom(mat, vec0, i + 1));
        sum := Xor(sum, mat[i]);
      }
      vec := Shr1(vec);
      i := i + 1;
    }
    forall j | i <= j < 32 ensures !vec0[j] {
      assert vec[j - i] == vec0[j];
    }
    NoneSelected(mat, vec0, i);
    XorZeros(sum);
  }

  lemma TimesStep(mat: seq<Word>, vec: Word, i: nat)
    requires |mat| == 32 && i < 32
    ensures TimesFrom(mat, vec, i) == if vec[i] then Xor(mat[i], TimesFrom(mat, vec, i + 1)) else TimesFrom(mat, vec, i + 1)
  {
  }

  lemma {:induction false} StepsOfZeros(p: Word, k: nat)
    ensures Steps(p, Zeros(32), k) == Zeros(32)
  {
    if k > 0 {
      assert Shr1(Zeros(32)) == Zeros(32);
      StepsOfZeros(p, k - 1);
    }
  }

  lemma {:induction false} TimesIsStepsFrom(p: Word, mat: seq<Word>, k: nat, vec: Word, i: nat)
    requires Columns(p, mat, k) && i <= 32
    ensures TimesFrom(mat, vec, i) == Steps(p, Zeros(i) + vec[i..], k)
    decreases 32 - i
  {
    hide Steps, Xor;
    if i == 32 {
      assert Zeros(32) + vec[32..] == Zeros(32);
      StepsOfZeros(p, k);
    } else {
      TimesIsStepsFrom(p, mat, k, vec, i + 1);
      SplitBit(vec, i);
      if vec[i] {
        StepsLinear(p, Basis(i), Zeros(i + 1) + vec[i + 1..], k);
      }
    }
  }

  lemma SplitBit(vec: Word, i: nat)
    requires i < 32
    ensures Zeros(i) + vec[i..]
         == if vec[i] then Xor(Basis(i), Zeros(i + 1) + vec[i + 1..]) else Zeros(i + 1) + vec[i + 1..]
  {
  }

  /** The operator's matrix applies its zero bits. */
  lemma TimesIsSteps(p: Word, mat: seq<Word>, k: nat, vec: Word)
    requires Columns(p, mat, k)
    ensures TimesFrom(mat, vec, 0) == Steps(p, vec, k)
  {
    hide Steps, TimesFrom;
    TimesIsStepsFrom(p, mat, k, vec, 0);
    assert Zeros(0) + vec[0..] == vec;
  }

  /** Squaring doubles the number of zero bits. */
  method MatrixSquare(p: Word, mat: seq<Word>, ghost k: nat) returns (square: seq<Word>)
    requires Columns(p, mat, k)
    ensures Columns(p, square, 2 * k)
  {
    hide Steps, TimesFrom, Basis;
    square := [];
    for n := 0 to 32
      invariant |square| == n && forall i {:trigger square[i]} :: 0 <= i < n ==> square[i] == Steps(p, Basis(i), 2 * k)
    {
      var col := MatrixTimes(mat, mat[n]);
      TimesIsSteps(p, mat, k, mat[n]);
      StepsAdd(p, Basis(n), k, k);
      square := square + [col];
    }
  }

  /** The operator for one zero bit. */
  method OneZeroBit(p: Word) returns (odd: seq<Word>)
    ensures Columns(p, odd, 1)
  {
    hide Xor;
    odd := [p];
    OneStep(p, Basis(0));
    assert Shr1(Basis(0)) == Zeros(32);
    XorZeros(p);
    var row := Basis(0);
    for n := 1 to 32
      invariant |odd| == n && row == Basis(n - 1)
      invariant forall i {:trigger odd[i]} :: 0 <= i < n ==> odd[i] == Steps(p, Basis(i), 1)
    {
      OneStep(p, Basis(n));
      assert Shr1(Basis(n)) == Basis(n - 1);
      odd := odd + [row];
      // row <<= 1
      row := [false] + row[..31];
    }
  }

  lemma OneStep(p: Word, c: Word)
    ensures Steps(p, c, 1) == Step(p, c)
  {
    assert Steps(p, Step(p, c), 0) == Step(p, c);
  }

  /** One binary digit of the remaining length: either its zeros are applied, or it is 0. */
  lemma DigitStep(p: Word, c: Word, q: nat, len: nat)
    ensures Steps(p, if len % 2 == 1 then Steps(p, c, q) else c, 2 * q * (len / 2)) == Steps(p, c, q * len)
  {
    hide Steps;
    if len % 2 == 1 {
      StepsAdd(p, c, q, 2 * q * (len / 2));
      assert q + 2 * q * (len / 2) == q * (1 + 2 * (len / 2));
    } else {
      assert 2 * q * (len / 2) == q * (2 * (len / 2));
    }
  }

  /** Applies len2 zero bytes to crc1 and adds crc2. */
  method Combine(p: Word, crc1: Word, crc2: Word, len2: nat) returns (r: Word)
    ensures len2 == 0 ==> r == crc1
    ensures len2 > 0 ==> r == Xor(Steps(p, crc1, 8 * len2), crc2)
  {
    hide Steps, Xor, Columns;
    if len2 == 0 {
      return crc1;
    }
    var odd := OneZeroBit(p);
    var even := MatrixSquare(p, odd, 1);
    odd := MatrixSquare(p, even, 2);
    var c, len := crc1, len2;
    ghost var q: nat := 4;
    while true
      invariant len > 0 && Columns(p, odd, q)
      invariant Steps(p, c, 2 * q * len) == Steps(p, crc1, 8 * len2)
      decreases len
    {
      even := MatrixSquare(p, odd, q);
      DigitStep(p, c, 2 * q, len);
      if len % 2 == 1 {
        c := ApplyZeros(p, even, c, 2 * q);
      }
      len := len / 2;
      if len == 0 {
        NoDigits(p, c, 2 * (2 * q));
        break;
      }
      odd := MatrixSquare(p, even, 2 * q);
      DigitStep(p, c, 4 * q, len);
      if len % 2 == 1 {
        c := ApplyZeros(p, odd, c, 4 * q);
      }
      len := len / 2;
      q := 4 * q;
      if len == 0 {
        NoDigits(p, c, 2 * q);
        break;
      }
    }
    r := Xor(c, crc2);
  }

  method ApplyZeros(p: Word, mat: seq<Word>, c: Word, ghost k: nat) returns (r: Word)
    requires Columns(p, mat, k)
    ensures r == Steps(p, c, k)
  {
    hide Steps, TimesFrom;
    r := MatrixTimes(mat, c);
    TimesIsSteps(p, mat, k, c);
  }

  lemma NoDigits(p: Word, c: Word, q: nat)
    ensures Steps(p, c, q * 0) == c
  {
  }

  /** Combining the checksums of two pieces gives the checksum of both. */
  method CombinePieces(p: Word, x: seq<Byte>, y: seq<Byte>) returns (r: Word)
    ensures r == Crc(p, Zeros(32), x + y)
  {
    hide Crc, Steps, Xor;
    r := Combine(p, Crc(p, Zeros(32), x), Crc(p, Zeros(32), y), |y|);
    if y == [] {
      assert x + y == x;
    } else {
      CrcCombined(p, x, y);
    }
  }
}
