/**
 What the checksum is: one step multiplies the register's polynomial over the field of 32 elements
 by its variable, adds the value and divides by the generator of BIP 173 (section "Bech32").
 */
module Bech32Field {
  import opened Records
  import opened Bech32
  import IdentityText
  import Cbor

  // ----- The field -----

  /** Multiplication by the field's generator, of minimal polynomial x^5 + x^3 + 1. */
  function Double(b: Bits): (d: Bits)
    requires |b| == 5
    ensures |d| == 5
  {
    [b[1], b[2] != b[0], b[3], b[4], b[0]]
  }

  /** The product in the field: the doublings of `w` selected by the bits of `t`, lowest first. */
  function Product(t: Bits, w: Bits): (p: Bits)
    requires |t| == 5 && |w| == 5
    ensures |p| == 5
  {
    var (d1, d2) := (Double(w), Double(Double(w)));
    var (d3, d4) := (Double(d2), Double(Double(d2)));
    seq(5, j requires 0 <= j < 5 =>
      ((t[4] && w[j]) != (t[3] && d1[j])) != (((t[2] && d2[j]) != (t[1] && d3[j])) != (t[0] && d4[j])))
  }

  /** The coefficients of the generator polynomial below x^6, the highest first. */
  const GENERATOR: seq<Word> := [29, 22, 20, 21, 29, 18]

  // ----- The five constants -----

  lemma SplitFive(n: nat, size: nat)
    ensures BitsOf(n, size + 5) == BitsOf(n / 0x20, size) + LowFive(n)
  {
    var (a, b) := (BitsOf(n / 2, size + 4), BitsOf(n / 4, size + 3));
    var (c, d) := (BitsOf(n / 8, size + 2), BitsOf(n / 16, size + 1));
    assert n / 2 / 2 == n / 4 && n / 4 / 2 == n / 8 && n / 8 / 2 == n / 16 && n / 16 / 2 == n / 32;
    assert BitsOf(n, size + 5) == a + [n % 2 == 1];
    assert a == b + [n / 2 % 2 == 1];
    assert b == c + [n / 4 % 2 == 1];
    assert c == d + [n / 8 % 2 == 1];
    assert d == BitsOf(n / 32, size) + [n / 16 % 2 == 1];
  }

  lemma SixParts(a: Bits, b: Bits, c: Bits, d: Bits, e: Bits, f: Bits)
    requires |a| == 5 && |b| == 5 && |c| == 5 && |d| == 5 && |e| == 5 && |f| == 5
    ensures var s := a + b + c + d + e + f;
            && s[0..5] == a && s[5..10] == b && s[10..15] == c && s[15..20] == d && s[20..25] == e && s[25..30] == f
  {
  }

  lemma SixAt(a: Bits, b: Bits, c: Bits, d: Bits, e: Bits, f: Bits, k: nat)
    requires |a| == 5 && |b| == 5 && |c| == 5 && |d| == 5 && |e| == 5 && |f| == 5 && k < 6
    ensures |a + b + c + d + e + f| == 30
    ensures (a + b + c + d + e + f)[5 * k..5 * k + 5]
         == if k == 0 then a else if k == 1 then b else if k == 2 then c else if k == 3 then d
            else if k == 4 then e else f
  {
    SixParts(a, b, c, d, e, f);
  }

  /** The constants of the program, word by word. */
  const WORDS: seq<seq<Word>> :=
    [[29, 22, 20, 21, 29, 18], [19, 5, 1, 3, 19, 13], [15, 10, 2, 6, 15, 26], [30, 20, 4, 12, 30, 29],
     [21, 1, 8, 24, 21, 19]]

  predicate IsNumber(n: nat, w: seq<Word>) {
    |w| == 6
    && n == 32 * (32 * (32 * (32 * (32 * (w[0] as int) + w[1] as int) + w[2] as int) + w[3] as int) + w[4] as int)
            + w[5] as int
  }

  lemma ConstantWords(i: nat)
    requires i < 5
    ensures IsNumber(GENERATORS[i], WORDS[i])
  {
    assert IsNumber(0x3b6a57b2, [29, 22, 20, 21, 29, 18]) && IsNumber(0x26508e6d, [19, 5, 1, 3, 19, 13]);
    assert IsNumber(0x1ea119fa, [15, 10, 2, 6, 15, 26]) && IsNumber(0x3d4233dd, [30, 20, 4, 12, 30, 29]);
    assert IsNumber(0x2a1462b3, [21, 1, 8, 24, 21, 19]);
  }

  lemma LowFiveOfWord(n: nat, high: nat, w: Word)
    requires n == 32 * high + w
    ensures LowFive(n) == LowFive(w) && n / 0x20 == high
  {
    assert n / 16 == 2 * high + w / 16 && n / 8 == 4 * high + w / 8 && n / 4 == 8 * high + w / 4;
    assert n / 2 == 16 * high + w / 2;
    Even(high, w / 16);
    Even(2 * high, w / 8);
    Even(4 * high, w / 4);
    Even(8 * high, w / 2);
    Even(16 * high, w);
  }

  lemma Even(a: nat, b: nat)
    ensures (2 * a + b) % 2 == b % 2
  {
  }

  /** The digits of a number given by its six words. */
  lemma NumberBits(n: nat, w: seq<Word>)
    requires IsNumber(n, w)
    ensures BitsOf(n, 30)
         == LowFive(w[0]) + LowFive(w[1]) + LowFive(w[2]) + LowFive(w[3]) + LowFive(w[4]) + LowFive(w[5])
  {
    hide LowFive;
    var n1: nat := 32 * (w[0] as int) + w[1] as int;
    var n2: nat := 32 * n1 + w[2] as int;
    var n3: nat := 32 * n2 + w[3] as int;
    var n4: nat := 32 * n3 + w[4] as int;
    LowFiveOfWord(n, n4, w[5]);
    LowFiveOfWord(n4, n3, w[4]);
    LowFiveOfWord(n3, n2, w[3]);
    LowFiveOfWord(n2, n1, w[2]);
    LowFiveOfWord(n1, w[0], w[1]);
    SplitFive(n, 25);
    SplitFive(n4, 20);
    SplitFive(n3, 15);
    SplitFive(n2, 10);
    SplitFive(n1, 5);
    FiveBits(w[0]);
  }

  lemma ConstantAt(i: nat, k: nat)
    requires i < 5 && k < 6
    ensures |BitsOf(GENERATORS[i], 30)| == 30 && BitsOf(GENERATORS[i], 30)[5 * k..5 * k + 5] == LowFive(WORDS[i][k])
  {
    hide LowFive, IsNumber;
    var w := WORDS[i];
    ConstantWords(i);
    NumberBits(GENERATORS[i], w);
    hide BitsOf;
    SixAt(LowFive(w[0]), LowFive(w[1]), LowFive(w[2]), LowFive(w[3]), LowFive(w[4]), LowFive(w[5]), k);
  }

  /** Doubling as arithmetic on the word's number. */
  function Doubled(w: Word): Word {
    if w < 16 then 2 * w else if w / 4 % 2 == 0 then 2 * w - 23 else 2 * w - 39
  }

  /** A word by its digits, which are zero or one. */
  lemma FiveOf(a: int, b: int, c: int, d: int, e: int)
    requires 0 <= a <= 1 && 0 <= b <= 1 && 0 <= c <= 1 && 0 <= d <= 1 && 0 <= e <= 1
    ensures LowFive(16 * a + 8 * b + 4 * c + 2 * d + e) == [a == 1, b == 1, c == 1, d == 1, e == 1]
  {
    hide LowFive;
    var n3 := 2 * a + b;
    var n2 := 2 * n3 + c;
    var n1 := 2 * n2 + d;
    var n := 2 * n1 + e;
    LastDigit(n1, e);
    LastDigit(n2, d);
    LastDigit(n3, c);
    LastDigit(a, b);
    LowFiveHalves(n, n1, n2, n3, a);
  }

  lemma LowFiveHalves(n: nat, n1: nat, n2: nat, n3: nat, n4: nat)
    requires n / 2 == n1 && n1 / 2 == n2 && n2 / 2 == n3 && n3 / 2 == n4
    ensures LowFive(n) == [n4 % 2 == 1, n3 % 2 == 1, n2 % 2 == 1, n1 % 2 == 1, n % 2 == 1]
  {
    assert n / 4 == n2 && n / 8 == n3 && n / 16 == n4;
  }

  lemma LastDigit(x: nat, y: int)
    requires 0 <= y <= 1
    ensures (2 * x + y) / 2 == x && ((2 * x + y) % 2 == 1 <==> y == 1)
  {
  }

  lemma DoubledBits(w: Word)
    ensures Double(LowFive(w)) == LowFive(Doubled(w))
  {
    hide LowFive;
    var n: int := w;
    var (a, b, c, d, e) := (n / 16, n / 8 % 2, n / 4 % 2, n / 2 % 2, n % 2);
    assert n == 16 * a + 8 * b + 4 * c + 2 * d + e;
    FiveOf(a, b, c, d, e);
    var f := if a == 1 then 1 - c else c;
    FiveOf(b, f, d, e, a);
    assert Doubled(w) == 16 * b + 8 * f + 4 * d + 2 * e + a;
  }

  predicate RowDoubled(a: seq<Word>, d: seq<Word>) {
    && |a| == 6 && |d| == 6 && d[0] == Doubled(a[0]) && d[1] == Doubled(a[1]) && d[2] == Doubled(a[2])
    && d[3] == Doubled(a[3]) && d[4] == Doubled(a[4]) && d[5] == Doubled(a[5])
  }

  /** Each further constant is the one before it, doubled in every word. */
  lemma ConstantsDouble(i: nat, k: nat)
    requires i < 4 && k < 6
    ensures LowFive(WORDS[i + 1][k]) == Double(LowFive(WORDS[i][k]))
  {
    assert RowDoubled([29, 22, 20, 21, 29, 18], [19, 5, 1, 3, 19, 13]);
    assert RowDoubled([19, 5, 1, 3, 19, 13], [15, 10, 2, 6, 15, 26]);
    assert RowDoubled([15, 10, 2, 6, 15, 26], [30, 20, 4, 12, 30, 29]);
    assert RowDoubled([30, 20, 4, 12, 30, 29], [21, 1, 8, 24, 21, 19]);
    assert RowDoubled(WORDS[i], WORDS[i + 1]);
    DoubledBits(WORDS[i][k]);
  }

  lemma ConstantBit(i: nat, k: nat, j: nat)
    requires i < 5 && k < 6 && j < 5
    ensures Generators()[i][5 * k + j] == LowFive(WORDS[i][k])[j]
  {
    hide LowFive;
    ConstantAt(i, k);
    assert BitsOf(GENERATORS[i], 30)[5 * k..5 * k + 5][j] == BitsOf(GENERATORS[i], 30)[5 * k + j];
  }

  lemma ProductBit(t: Bits, w: Bits, d1: Bits, d2: Bits, d3: Bits, d4: Bits, j: nat)
    requires |t| == 5 && |w| == 5 && |d1| == 5 && |d2| == 5 && |d3| == 5 && j < 5
    requires d1 == Double(w) && d2 == Double(d1) && d3 == Double(d2) && d4 == Double(d3)
    ensures Product(t, w)[j]
         == (((t[4] && w[j]) != (t[3] && d1[j])) != (((t[2] && d2[j]) != (t[1] && d3[j])) != (t[0] && d4[j])))
  {
    hide Double;
  }

  lemma SelectedIsProduct(top: Bits, k: nat, j: nat)
    requires |top| == 5 && k < 6 && j < 5
    ensures Selected(top, Generators(), 5 * k + j) == Product(top, LowFive(GENERATOR[k]))[j]
  {
    hide LowFive, Double, Generators, Product;
    var w := WORDS;
    ConstantBit(0, k, j);
    ConstantBit(1, k, j);
    ConstantBit(2, k, j);
    ConstantBit(3, k, j);
    ConstantBit(4, k, j);
    ConstantsDouble(0, k);
    ConstantsDouble(1, k);
    ConstantsDouble(2, k);
    ConstantsDouble(3, k);
    FirstIsGenerator(k);
    ProductBit(top, LowFive(w[0][k]), LowFive(w[1][k]), LowFive(w[2][k]), LowFive(w[3][k]), LowFive(w[4][k]), j);
  }

  lemma FirstIsGenerator(k: nat)
    requires k < 6
    ensures WORDS[0][k] == GENERATOR[k]
  {
  }

  /** Word `k` of a register. */
  function At(c: Register, k: nat): (b: Bits)
    requires k < 6
    ensures |b| == 5
  {
    c[5 * k..5 * k + 5]
  }

  /**
   Main result: a step moves every word up by one place, takes the value in at the end, and subtracts
   from every place the product of the word that falls out with the generator's coefficient.
   */
  lemma StepDivides(c: Register, v: Bits, k: nat)
    requires |v| == 5 && k < 6
    ensures At(Step(c, v), k) == Xor(if k < 5 then At(c, k + 1) else v, Product(At(c, 0), LowFive(GENERATOR[k])))
  {
    hide Step, Product, LowFive, Selected;
    forall j | 0 <= j < 5
      ensures At(Step(c, v), k)[j]
           == ((if k < 5 then At(c, k + 1)[j] else v[j]) != Product(At(c, 0), LowFive(GENERATOR[k]))[j])
    {
      StepBit(c, v, 5 * k + j);
      SelectedIsProduct(c[..5], k, j);
    }
  }

  // ----- The shortest text of the standard -----

  /** One step on words that are known. */
  predicate Moves(a: seq<Word>, v: Word, r: seq<Word>)
    requires |a| == 6 && |r| == 6
  {
    forall k :: 0 <= k < 6 ==>
      LowFive(r[k]) == Xor(LowFive(if k < 5 then a[k + 1] else v), Product(LowFive(a[0]), LowFive(GENERATOR[k])))
  }

  lemma {:induction false} WordAt(w: seq<Word>, k: nat)
    requires k < |w|
    ensures WordsToBits(w)[5 * k..5 * k + 5] == LowFive(w[k])
  {
    hide LowFive;
    FiveBits(w[k]);
    if k > 0 {
      WordAt(w[1..], k - 1);
      var s := WordsToBits(w);
      assert s[5..] == WordsToBits(w[1..]);
      assert s[5 * k..5 * k + 5] == s[5..][5 * (k - 1)..5 * (k - 1) + 5];
    }
  }

  lemma SameWords(a: Register, b: Register)
    requires forall k :: 0 <= k < 6 ==> At(a, k) == At(b, k)
    ensures a == b
  {
    forall i | 0 <= i < 30
      ensures a[i] == b[i]
    {
      assert At(a, i / 5)[i % 5] == a[i] && At(b, i / 5)[i % 5] == b[i];
    }
  }

  lemma StepMoves(a: seq<Word>, v: Word, r: seq<Word>)
    requires |a| == 6 && |r| == 6 && Moves(a, v, r)
    ensures Step(WordsToBits(a), WordBits(v)) == WordsToBits(r)
  {
    hide Step, Product, LowFive;
    var (c, d) := (WordsToBits(a), WordsToBits(r));
    FiveBits(v);
    forall k | 0 <= k < 6
      ensures At(Step(c, WordBits(v)), k) == At(d, k)
    {
      StepDivides(c, WordBits(v), k);
      WordAt(a, k);
      WordAt(a, 0);
      WordAt(r, k);
      if k < 5 { WordAt(a, k + 1); }
    }
    SameWords(Step(c, WordBits(v)), d);
  }

  /** The value of a word of known digits, each of the six places. */
  lemma FoldMoves(a: seq<Word>, v: Word, r: seq<Word>, rest: seq<Word>)
    requires |a| == 6 && |r| == 6 && Moves(a, v, r)
    ensures Fold(WordsToBits(a), [v] + rest) == Fold(WordsToBits(r), rest)
  {
    hide Moves;
    StepMoves(a, v, r);
    assert ([v] + rest)[0] == v && ([v] + rest)[1..] == rest;
  }

  lemma OneAt(k: nat)
    requires k < 6
    ensures At(ONE, k) == LowFive(if k < 5 then 0 else 1)
    ensures k < 5 ==> At(ONE, k) == Falses(5)
  {
    assert LowFive(0) == Falses(5) && LowFive(1) == Falses(4) + [true];
    hide LowFive;
    if k < 5 {
      assert ONE[..25] == Falses(25);
      assert At(ONE, k) == ONE[..25][5 * k..5 * k + 5];
    } else {
      assert ONE[25..30] == Falses(4) + [true];
    }
  }

  lemma OneIsWords()
    ensures ONE == WordsToBits([0, 0, 0, 0, 0, 1])
  {
    var w := [0, 0, 0, 0, 0, 1];
    hide WordsToBits, LowFive;
    forall k | 0 <= k < 6
      ensures At(ONE, k) == At(WordsToBits(w), k)
    {
      WordAt(w, k);
      OneAt(k);
    }
    SameWords(ONE, WordsToBits(w));
  }

  /** A step on numbers: `p` are the products of the outgoing word with the generator. */
  predicate Sums(a: seq<Word>, v: Word, p: seq<Word>, r: seq<Word>)
    requires |a| == 6 && |r| == 6 && |p| == 6
  {
    forall k :: 0 <= k < 6 ==> LowFive(r[k]) == Xor(LowFive(if k < 5 then a[k + 1] else v), LowFive(p[k]))
  }

  predicate Products(t: Word, p: seq<Word>)
    requires |p| == 6
  {
    forall k :: 0 <= k < 6 ==> LowFive(p[k]) == Product(LowFive(t), LowFive(GENERATOR[k]))
  }

  lemma MovesBySums(a: seq<Word>, v: Word, p: seq<Word>, r: seq<Word>)
    requires |a| == 6 && |r| == 6 && |p| == 6 && Products(a[0], p) && Sums(a, v, p, r)
    ensures Moves(a, v, r)
  {
    hide LowFive, Product;
  }

  lemma ProductByZero(w: Bits)
    requires |w| == 5
    ensures Product(LowFive(0), w) == LowFive(0)
  {
    hide Double;
    assert LowFive(0) == [false, false, false, false, false];
  }

  lemma ProductByOne(w: Bits)
    requires |w| == 5
    ensures Product(LowFive(1), w) == w
  {
    hide Double;
    assert LowFive(1) == [false, false, false, false, true];
  }

  lemma NothingFallsOut()
    ensures Products(0, [0, 0, 0, 0, 0, 0])
  {
    hide LowFive, Product;
    forall k | 0 <= k < 6
      ensures LowFive(0) == Product(LowFive(0), LowFive(GENERATOR[k]))
    {
      ProductByZero(LowFive(GENERATOR[k]));
    }
  }

  lemma OneFallsOut()
    ensures Products(1, [29, 22, 20, 21, 29, 18])
  {
    hide LowFive, Product;
    forall k | 0 <= k < 6
      ensures LowFive(GENERATOR[k]) == Product(LowFive(1), LowFive(GENERATOR[k]))
    {
      ProductByOne(LowFive(GENERATOR[k]));
    }
  }

  predicate XorIs(r: Word, a: Word, b: Word) {
    LowFive(r) == Xor(LowFive(a), LowFive(b))
  }

  lemma ZeroSums(a: seq<Word>, v: Word)
    requires |a| == 6
    ensures Sums(a, v, [0, 0, 0, 0, 0, 0], a[1..] + [v])
  {
    assert LowFive(0) == Falses(5);
    hide LowFive;
    forall k | 0 <= k < 6
      ensures LowFive((a[1..] + [v])[k]) == Xor(LowFive(if k < 5 then a[k + 1] else v), LowFive(0))
    {
      XorBack(LowFive((a[1..] + [v])[k]), LowFive(0));
    }
  }

  /** Products with 18 and 30, whose digits select the first and last or all doublings. */
  lemma ProductBy18(k: nat)
    requires k < 6
    ensures Product(LowFive(18), LowFive(GENERATOR[k])) == Xor(LowFive(WORDS[1][k]), LowFive(WORDS[4][k]))
  {
    assert LowFive(18) == [true, false, false, true, false];
    hide LowFive, Product, Double;
    GeneratorDoublings(k);
    forall j | 0 <= j < 5
      ensures Product(LowFive(18), LowFive(GENERATOR[k]))[j] == (LowFive(WORDS[1][k])[j] != LowFive(WORDS[4][k])[j])
    {
      ProductBit(LowFive(18), LowFive(GENERATOR[k]), LowFive(WORDS[1][k]), LowFive(WORDS[2][k]),
                 LowFive(WORDS[3][k]), LowFive(WORDS[4][k]), j);
    }
  }

  lemma ProductBy30(k: nat)
    requires k < 6
    ensures Product(LowFive(30), LowFive(GENERATOR[k]))
         == Xor(Xor(LowFive(WORDS[1][k]), LowFive(WORDS[2][k])), Xor(LowFive(WORDS[3][k]), LowFive(WORDS[4][k])))
  {
    assert LowFive(30) == [true, true, true, true, false];
    hide LowFive, Product, Double;
    GeneratorDoublings(k);
    var (d1, d2, d3, d4) := (LowFive(WORDS[1][k]), LowFive(WORDS[2][k]), LowFive(WORDS[3][k]), LowFive(WORDS[4][k]));
    forall j | 0 <= j < 5
      ensures Product(LowFive(30), LowFive(GENERATOR[k]))[j] == ((d1[j] != d2[j]) != (d3[j] != d4[j]))
    {
      ProductBit(LowFive(30), LowFive(GENERATOR[k]), d1, d2, d3, d4, j);
    }
  }

  lemma GeneratorDoublings(k: nat)
    requires k < 6
    ensures LowFive(WORDS[1][k]) == Double(LowFive(GENERATOR[k]))
    ensures LowFive(WORDS[2][k]) == Double(LowFive(WORDS[1][k]))
    ensures LowFive(WORDS[3][k]) == Double(LowFive(WORDS[2][k]))
    ensures LowFive(WORDS[4][k]) == Double(LowFive(WORDS[3][k]))
  {
    hide LowFive, Double;
    ConstantsDouble(0, k);
    ConstantsDouble(1, k);
    ConstantsDouble(2, k);
    ConstantsDouble(3, k);
    FirstIsGenerator(k);
  }

  lemma Sums18()
    ensures XorIs(6, 19, 21) && XorIs(4, 5, 1) && XorIs(9, 1, 8) && XorIs(27, 3, 24) && XorIs(30, 13, 19)
  {
  }

  lemma EighteenFallsOut()
    ensures Products(18, [6, 4, 9, 27, 6, 30])
  {
    hide LowFive, Product, Double, XorIs;
    var p := [6, 4, 9, 27, 6, 30];
    Sums18();
    forall k | 0 <= k < 6
      ensures LowFive(p[k]) == Product(LowFive(18), LowFive(GENERATOR[k]))
    {
      ProductBy18(k);
      assert XorIs(p[k], WORDS[1][k], WORDS[4][k]) by {
        if k == 0 || k == 4 { assert p[k] == 6; } else if k == 1 { assert p[k] == 4; }
        else if k == 2 { assert p[k] == 9; } else if k == 3 { assert p[k] == 27; } else { assert p[k] == 30; }
      }
      XorIsMeans(p[k], WORDS[1][k], WORDS[4][k]);
    }
  }

  lemma XorIsMeans(r: Word, a: Word, b: Word)
    requires XorIs(r, a, b)
    ensures LowFive(r) == Xor(LowFive(a), LowFive(b))
  {
  }

  /** The sum of four words, by way of the sums of two. */
  predicate XorIsFour(r: Word, a: Word, b: Word, c: Word, d: Word, x: Word, y: Word) {
    XorIs(x, a, b) && XorIs(y, c, d) && XorIs(r, x, y)
  }

  lemma Sums30First()
    ensures XorIsFour(23, 19, 15, 30, 21, 28, 11)
  {
  }

  lemma Sums30Second()
    ensures XorIsFour(26, 5, 10, 20, 1, 15, 21)
  {
  }

  lemma Sums30Next()
    ensures XorIsFour(15, 1, 2, 4, 8, 3, 12) && XorIsFour(17, 3, 6, 12, 24, 5, 20)
  {
  }

  lemma Sums30Last()
    ensures XorIsFour(25, 13, 26, 29, 19, 23, 14)
  {
  }

  lemma ThirtyAt(k: nat, p: Word, x: Word, y: Word)
    requires k < 6 && XorIsFour(p, WORDS[1][k], WORDS[2][k], WORDS[3][k], WORDS[4][k], x, y)
    ensures LowFive(p) == Product(LowFive(30), LowFive(GENERATOR[k]))
  {
    hide LowFive, Product;
    ProductBy30(k);
    XorIsMeans(x, WORDS[1][k], WORDS[2][k]);
    XorIsMeans(y, WORDS[3][k], WORDS[4][k]);
    XorIsMeans(p, x, y);
  }

  lemma ThirtyFallsOut()
    ensures Products(30, [23, 26, 15, 17, 23, 25])
  {
    hide LowFive, Product, Double, XorIsFour, XorIs;
    Sums30First();
    Sums30Second();
    Sums30Next();
    Sums30Last();
    ThirtyAt(0, 23, 28, 11);
    ThirtyAt(1, 26, 15, 21);
    ThirtyAt(2, 15, 3, 12);
    ThirtyAt(3, 17, 5, 20);
    ThirtyAt(4, 23, 28, 11);
    ThirtyAt(5, 25, 23, 14);
  }

  lemma ShiftOnly(a: seq<Word>, v: Word, rest: seq<Word>)
    requires |a| == 6 && a[0] == 0
    ensures Fold(WordsToBits(a), [v] + rest) == Fold(WordsToBits(a[1..] + [v]), rest)
  {
    hide Moves, Products, Sums, Fold;
    NothingFallsOut();
    ZeroSums(a, v);
    MovesBySums(a, v, [0, 0, 0, 0, 0, 0], a[1..] + [v]);
    FoldMoves(a, v, a[1..] + [v], rest);
  }

  lemma Reduction(a: seq<Word>, v: Word, p: seq<Word>, r: seq<Word>, rest: seq<Word>)
    requires |a| == 6 && |p| == 6 && |r| == 6 && Products(a[0], p)
    requires XorIs(r[0], a[1], p[0]) && XorIs(r[1], a[2], p[1]) && XorIs(r[2], a[3], p[2])
    requires XorIs(r[3], a[4], p[3]) && XorIs(r[4], a[5], p[4]) && XorIs(r[5], v, p[5])
    ensures Fold(WordsToBits(a), [v] + rest) == Fold(WordsToBits(r), rest)
  {
    hide Fold, Products, LowFive;
    assert Sums(a, v, p, r);
    MovesBySums(a, v, p, r);
    FoldMoves(a, v, r, rest);
  }

  /** The register after the expanded prefix "a", no data and six zeros. */
  lemma ShortestRegister()
    ensures Fold(ONE, [3, 0, 1, 0, 0, 0, 0, 0, 0]) == WordsToBits([10, 28, 25, 31, 20, 30])
  {
    hide Fold, WordsToBits, Products;
    OneIsWords();
    ShortestShifts();
    ShortestReductions();
  }

  lemma ShortestShifts()
    ensures Fold(WordsToBits([0, 0, 0, 0, 0, 1]), [3, 0, 1, 0, 0, 0, 0, 0, 0])
         == Fold(WordsToBits([1, 3, 0, 1, 0, 0]), [0, 0, 0, 0])
  {
    hide Fold, WordsToBits;
    ShiftOnly([0, 0, 0, 0, 0, 1], 3, [0, 1, 0, 0, 0, 0, 0, 0]);
    ShiftOnly([0, 0, 0, 0, 1, 3], 0, [1, 0, 0, 0, 0, 0, 0]);
    ShiftOnly([0, 0, 0, 1, 3, 0], 1, [0, 0, 0, 0, 0, 0]);
    ShiftOnly([0, 0, 1, 3, 0, 1], 0, [0, 0, 0, 0, 0]);
    ShiftOnly([0, 1, 3, 0, 1, 0], 0, [0, 0, 0, 0]);
    assert [3] + [0, 1, 0, 0, 0, 0, 0, 0] == [3, 0, 1, 0, 0, 0, 0, 0, 0];
    assert [0, 0, 0, 0, 0, 1][1..] + [3] == [0, 0, 0, 0, 1, 3];
    assert [0] + [1, 0, 0, 0, 0, 0, 0] == [0, 1, 0, 0, 0, 0, 0, 0];
    assert [0, 0, 0, 0, 1, 3][1..] + [0] == [0, 0, 0, 1, 3, 0];
    assert [1] + [0, 0, 0, 0, 0, 0] == [1, 0, 0, 0, 0, 0, 0];
    assert [0, 0, 0, 1, 3, 0][1..] + [1] == [0, 0, 1, 3, 0, 1];
    assert [0] + [0, 0, 0, 0, 0] == [0, 0, 0, 0, 0, 0];
    assert [0, 0, 1, 3, 0, 1][1..] + [0] == [0, 1, 3, 0, 1, 0];
    assert [0] + [0, 0, 0, 0] == [0, 0, 0, 0, 0];
    assert [0, 1, 3, 0, 1, 0][1..] + [0] == [1, 3, 0, 1, 0, 0];
  }

  lemma ShortestReductions()
    ensures Fold(WordsToBits([1, 3, 0, 1, 0, 0]), [0, 0, 0, 0]) == WordsToBits([10, 28, 25, 31, 20, 30])
  {
    hide WordsToBits, Products;
    OneFallsOut();
    ThirtyFallsOut();
    EighteenFallsOut();
    Arithmetic1();
    Arithmetic2();
    Arithmetic3();
    Arithmetic4();
    hide XorIs;
    Reduction([1, 3, 0, 1, 0, 0], 0, [29, 22, 20, 21, 29, 18], [30, 22, 21, 21, 29, 18], [0, 0, 0]);
    Reduction([30, 22, 21, 21, 29, 18], 0, [23, 26, 15, 17, 23, 25], [1, 15, 26, 12, 5, 25], [0, 0]);
    Reduction([1, 15, 26, 12, 5, 25], 0, [29, 22, 20, 21, 29, 18], [18, 12, 24, 16, 4, 18], [0]);
    Reduction([18, 12, 24, 16, 4, 18], 0, [6, 4, 9, 27, 6, 30], [10, 28, 25, 31, 20, 30], []);
    assert [0] + [0, 0, 0] == [0, 0, 0, 0] && [0] + [0, 0] == [0, 0, 0] && [0] + [0] == [0, 0] && [0] + [] == [0];
  }

  lemma Arithmetic1()
    ensures XorIs(30, 3, 29) && XorIs(22, 0, 22) && XorIs(21, 1, 20) && XorIs(21, 0, 21) && XorIs(29, 0, 29)
    ensures XorIs(18, 0, 18)
  {
  }

  lemma Arithmetic2()
    ensures XorIs(1, 22, 23) && XorIs(15, 21, 26) && XorIs(26, 21, 15) && XorIs(12, 29, 17) && XorIs(5, 18, 23)
    ensures XorIs(25, 0, 25)
  {
  }

  lemma Arithmetic3()
    ensures XorIs(18, 15, 29) && XorIs(12, 26, 22) && XorIs(24, 12, 20) && XorIs(16, 5, 21) && XorIs(4, 25, 29)
  {
  }

  lemma Arithmetic4()
    ensures XorIs(10, 12, 6) && XorIs(28, 24, 4) && XorIs(25, 16, 9) && XorIs(31, 4, 27) && XorIs(20, 18, 6)
    ensures XorIs(30, 0, 30)
  {
  }

  /** The shortest valid text the standard lists, "a12uel5l", is the encoding of no data under "a". */
  lemma ShortestText()
    ensures IdentityText.Encode([0x61], []) == [0x61, 0x31, 0x32, 0x75, 0x65, 0x6C, 0x35, 0x6C]
  {
    hide Fold, WordsToBits, IdentityText.Char;
    ShortestRegister();
    ShortestChecksum();
    ShortestChars();
    var words: seq<Word> := [10, 28, 25, 31, 20, 31];
    assert IdentityText.Expand([0x61]) == [3, 0, 1];
    assert Regroup([]) == [] && [3, 0, 1] + [] == [3, 0, 1] && [] + words == words;
  }

  lemma ShortestChars()
    ensures IdentityText.Chars([10, 28, 25, 31, 20, 31]) == [0x32, 0x75, 0x65, 0x6C, 0x35, 0x6C]
  {
  }

  lemma ShortestChecksum()
    requires Fold(ONE, [3, 0, 1, 0, 0, 0, 0, 0, 0]) == WordsToBits([10, 28, 25, 31, 20, 30])
    ensures Checksum([3, 0, 1]) == [10, 28, 25, 31, 20, 31]
  {
    hide Fold, WordsToBits, XorIs;
    var (a, b) := ([10, 28, 25, 31, 20, 30], [10, 28, 25, 31, 20, 31]);
    assert [3, 0, 1] + Zeros(6) == [3, 0, 1, 0, 0, 0, 0, 0, 0];
    ThirtyOne();
    LastWordFlips(a, b);
    WordsOfBits(b);
  }

  lemma ThirtyOne()
    ensures XorIs(31, 30, 1)
  {
  }

  lemma LastWordFlips(a: seq<Word>, b: seq<Word>)
    requires |a| == 6 && |b| == 6 && a[..5] == b[..5] && XorIs(b[5], a[5], 1)
    ensures Xor(WordsToBits(a), ONE) == WordsToBits(b)
  {
    hide WordsToBits, LowFive, XorIs;
    XorIsMeans(b[5], a[5], 1);
    forall k | 0 <= k < 6
      ensures At(Xor(WordsToBits(a), ONE), k) == At(WordsToBits(b), k)
    {
      WordAt(a, k);
      WordAt(b, k);
      OneAt(k);
      XorAt(WordsToBits(a), ONE, k);
      if k < 5 {
        assert a[k] == a[..5][k] && b[k] == b[..5][k];
        XorBack(At(WordsToBits(a), k), Falses(5));
      }
    }
    SameWords(Xor(WordsToBits(a), ONE), WordsToBits(b));
  }

  lemma XorAt(c: Register, d: Register, k: nat)
    requires k < 6
    ensures At(Xor(c, d), k) == Xor(At(c, k), At(d, k))
  {
  }

  // ----- Regrouping keeps the number -----

  function Base32(w: seq<Word>): nat {
    if w == [] then 0 else 32 * Base32(w[..|w| - 1]) + w[|w| - 1] as int
  }

  lemma NumberOfSnoc(s: Bits, last: bool)
    ensures NumberOf(s + [last]) == 2 * NumberOf(s) + (if last then 1 else 0)
  {
    assert (s + [last])[..|s|] == s;
  }

  lemma Twice(n: nat, p: nat)
    ensures n * (2 * p) == 2 * (n * p)
  {
  }

  lemma {:induction false} NumberOfConcat(s: Bits, t: Bits)
    ensures NumberOf(s + t) == NumberOf(s) * Power(|t|) + NumberOf(t)
    decreases |t|
  {
    if t == [] {
      assert s + t == s;
      assert NumberOf([]) == 0;
    } else {
      var (u, last) := (t[..|t| - 1], t[|t| - 1]);
      assert t == u + [last] && s + t == s + u + [last];
      hide NumberOf;
      NumberOfConcat(s, u);
      NumberOfSnoc(s + u, last);
      NumberOfSnoc(u, last);
      Twice(NumberOf(s), Power(|u|));
    }
  }

  lemma {:induction false} WordsNumber(w: seq<Word>)
    ensures NumberOf(WordsToBits(w)) == Base32(w)
    decreases |w|
  {
    if w != [] {
      var (u, last) := (w[..|w| - 1], w[|w| - 1]);
      WordsNumber(u);
      assert w == u + [last];
      WordsToBitsAppend(u, last);
      Powers();
      NumberOfBits(last, 5);
      hide NumberOf, WordsToBits, Power, BitsOf;
      NumberOfConcat(WordsToBits(u), WordBits(last));
    }
  }

  lemma {:induction false} BytesNumber(b: Bytes)
    ensures NumberOf(BytesToBits(b)) == Cbor.Number(b)
    decreases |b|
  {
    if b != [] {
      var (u, last) := (b[..|b| - 1], b[|b| - 1]);
      BytesNumber(u);
      assert b == u + [last];
      IdentityText.BytesToBitsAppend(u, last);
      Powers();
      NumberOfBits(last, 8);
      hide NumberOf, BytesToBits, Power, BitsOf;
      NumberOfConcat(BytesToBits(u), ByteBits(last));
    }
  }

  lemma {:induction false} ZeroBits(n: nat)
    ensures NumberOf(Falses(n)) == 0
  {
    if n > 0 {
      ZeroBits(n - 1);
      assert Falses(n)[..n - 1] == Falses(n - 1);
    }
  }

  /** The words are the big-endian number of the bytes in base 32, filled up with zero bits. */
  lemma RegroupKeepsNumber(payload: Bytes)
    ensures 8 * |payload| <= 5 * |Regroup(payload)| < 8 * |payload| + 5
    ensures Base32(Regroup(payload)) == Cbor.Number(payload) * Power(5 * |Regroup(payload)| - 8 * |payload|)
  {
    var bits := BytesToBits(payload);
    var pad := 5 * |Regroup(payload)| - |bits|;
    BitsOfWords(bits);
    WordsNumber(Regroup(payload));
    BytesNumber(payload);
    NumberOfConcat(bits, Falses(pad));
    ZeroBits(pad);
  }

  // ----- The characters -----

  /** The alphabet of the standard, and the prefix of the plugin's identities. */
  lemma CharactersAre(w: Word, i: nat)
    requires i < 17
    ensures IdentityText.Char(w) == "qpzry9x8gf2tvdw0s3jn54khce6mua7l"[w] as int
    ensures |IdentityText.HRP| == 17 && IdentityText.HRP[i] == "age-plugin-phone-"[i] as int
  {
  }
}
