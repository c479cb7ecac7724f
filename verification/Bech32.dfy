/**
 Bech32 (BIP 173, section "Bech32"): regrouping of bits, the checksum computed by the
 independent encoder, and the text form read back by a decoder.
 */
module Bech32 {
  import opened Records

  /** Five bits. */
  type Word = w: int | 0 <= w < 32

  // ----- Regrouping -----

  type Bits = seq<bool>

  function Falses(n: nat): Bits {
    seq(n, _ => false)
  }

  function Power(n: nat): nat {
    if n == 0 then 1 else 2 * Power(n - 1)
  }

  /** The low `size` binary digits, the highest first. */
  function BitsOf(n: nat, size: nat): (s: Bits)
    ensures |s| == size
  {
    if size == 0 then [] else BitsOf(n / 2, size - 1) + [n % 2 == 1]
  }

  function NumberOf(s: Bits): (n: nat)
    ensures n < Power(|s|)
  {
    if s == [] then 0 else 2 * NumberOf(s[..|s| - 1]) + (if s[|s| - 1] then 1 else 0)
  }

  lemma {:induction false} NumberOfBits(n: nat, size: nat)
    requires n < Power(size)
    ensures NumberOf(BitsOf(n, size)) == n
  {
    if size > 0 {
      NumberOfBits(n / 2, size - 1);
      assert BitsOf(n, size)[..size - 1] == BitsOf(n / 2, size - 1);
    }
  }

  lemma {:induction false} BitsOfNumber(s: Bits)
    ensures BitsOf(NumberOf(s), |s|) == s
    decreases |s|
  {
    if s != [] {
      BitsOfNumber(s[..|s| - 1]);
      assert s == s[..|s| - 1] + [s[|s| - 1]];
    }
  }

  lemma Powers()
    ensures Power(5) == 32 && Power(8) == 256
  {
    assert Power(3) == 8;
    assert Power(6) == 64;
  }

  function ByteBits(b: Byte): (s: Bits)
    ensures |s| == 8
  {
    BitsOf(b, 8)
  }

  function ByteOf(s: Bits): Byte
    requires |s| == 8
  {
    Powers();
    NumberOf(s)
  }

  function WordBits(w: Word): (s: Bits)
    ensures |s| == 5
  {
    BitsOf(w, 5)
  }

  function WordOf(s: Bits): Word
    requires |s| == 5
  {
    Powers();
    NumberOf(s)
  }

  function BytesToBits(b: Bytes): (s: Bits)
    ensures |s| == 8 * |b|
  {
    if b == [] then [] else ByteBits(b[0]) + BytesToBits(b[1..])
  }

  function WordsToBits(w: seq<Word>): (s: Bits)
    ensures |s| == 5 * |w|
  {
    if w == [] then [] else WordBits(w[0]) + WordsToBits(w[1..])
  }

  /** Groups of five; a last short group is filled up with zeros. */
  function ToWords(s: Bits): (w: seq<Word>)
    ensures 5 * |w| >= |s| > 5 * |w| - 5
    decreases |s|
  {
    if s == [] then []
    else if |s| < 5 then [WordOf(s + Falses(5 - |s|))]
    else [WordOf(s[..5])] + ToWords(s[5..])
  }

  /** Whole bytes, and the bits left over. */
  function ToBytes(s: Bits): (r: (Bytes, Bits))
    ensures |s| == 8 * |r.0| + |r.1| && |r.1| < 8
    decreases |s|
  {
    if |s| < 8 then ([], s)
    else
      var r := ToBytes(s[8..]);
      ([ByteOf(s[..8])] + r.0, r.1)
  }

  function Regroup(payload: Bytes): seq<Word> {
    ToWords(BytesToBits(payload))
  }

  /** The inverse regrouping: fewer than five bits may be left over, and only zeros. */
  function Ungroup(words: seq<Word>): Option<Bytes> {
    var r := ToBytes(WordsToBits(words));
    if |r.1| < 5 && r.1 == Falses(|r.1|) then Some(r.0) else None
  }

  lemma WordOfBits(w: Word)
    ensures WordOf(WordBits(w)) == w
  {
    Powers();
    NumberOfBits(w, 5);
  }

  lemma ByteOfBits(b: Byte)
    ensures ByteOf(ByteBits(b)) == b
  {
    Powers();
    NumberOfBits(b, 8);
  }

  lemma {:induction false} BitsOfWords(s: Bits)
    ensures WordsToBits(ToWords(s)) == s + Falses(5 * |ToWords(s)| - |s|)
    decreases |s|
  {
    if |s| >= 5 {
      BitsOfWords(s[5..]);
      BitsOfNumber(s[..5]);
      assert ToWords(s)[1..] == ToWords(s[5..]);
      assert s == s[..5] + s[5..];
    } else if s != [] {
      BitsOfNumber(s + Falses(5 - |s|));
      assert ToWords(s)[1..] == [];
    }
  }

  lemma {:induction false} WordsOfBits(w: seq<Word>)
    ensures ToWords(WordsToBits(w)) == w
    decreases |w|
  {
    if w != [] {
      var s := WordsToBits(w);
      WordOfBits(w[0]);
      WordsOfBits(w[1..]);
      assert s[..5] == WordBits(w[0]) && s[5..] == WordsToBits(w[1..]);
    }
  }

  lemma ToBytesStep(b: Byte, s: Bits)
    ensures ToBytes(ByteBits(b) + s) == ([b] + ToBytes(s).0, ToBytes(s).1)
  {
    ByteOfBits(b);
    assert (ByteBits(b) + s)[..8] == ByteBits(b) && (ByteBits(b) + s)[8..] == s;
  }

  lemma {:induction false} BytesOfBits(b: Bytes, left: Bits)
    requires |left| < 8
    ensures ToBytes(BytesToBits(b) + left) == (b, left)
    decreases |b|
  {
    if b == [] {
      assert BytesToBits(b) + left == left;
    } else {
      BytesOfBits(b[1..], left);
      ToBytesStep(b[0], BytesToBits(b[1..]) + left);
      assert BytesToBits(b) + left == ByteBits(b[0]) + (BytesToBits(b[1..]) + left);
      assert [b[0]] + b[1..] == b;
    }
  }

  lemma {:induction false} BitsOfBytes(s: Bits)
    ensures s == BytesToBits(ToBytes(s).0) + ToBytes(s).1
    decreases |s|
  {
    if |s| >= 8 {
      BitsOfNumber(s[..8]);
      BitsOfBytes(s[8..]);
      assert s == s[..8] + s[8..];
      assert ToBytes(s).0[1..] == ToBytes(s[8..]).0;
    }
  }

  /** Padding with zeros that do not start another group changes nothing in the words. */
  lemma {:induction false} WordsIgnorePadding(s: Bits, left: Bits)
    requires |left| < 5 && (|s| + |left|) % 5 == 0 && left == Falses(|left|)
    ensures ToWords(s + left) == ToWords(s)
    decreases |s|
  {
    if |s| >= 5 {
      WordsIgnorePadding(s[5..], left);
      assert (s + left)[..5] == s[..5] && (s + left)[5..] == s[5..] + left;
    } else if s != [] {
      assert |s + left| == 5 && (s + left)[..5] == s + Falses(5 - |s|);
      assert (s + left)[5..] == [];
    } else {
      assert s + left == [];
    }
  }

  lemma UngroupUndoesRegroup(payload: Bytes)
    ensures Ungroup(Regroup(payload)) == Some(payload)
  {
    var s := BytesToBits(payload);
    var left := Falses(5 * |Regroup(payload)| - |s|);
    BitsOfWords(s);
    BytesOfBits(payload, left);
  }

  lemma UngroupedIsRegrouped(words: seq<Word>)
    requires Ungroup(words).Some?
    ensures words == Regroup(Ungroup(words).value)
  {
    var s := WordsToBits(words);
    var (payload, left) := (ToBytes(s).0, ToBytes(s).1);
    BitsOfBytes(s);
    WordsIgnorePadding(BytesToBits(payload), left);
    WordsOfBits(words);
  }

  /** Words are readable exactly if they are the padded words of the bytes read. */
  lemma UngroupIff(words: seq<Word>, payload: Bytes)
    ensures Ungroup(words) == Some(payload) <==> words == Regroup(payload)
  {
    UngroupUndoesRegroup(payload);
    if Ungroup(words).Some? { UngroupedIsRegrouped(words); }
  }

  // ----- Checksum -----

  /** The thirty bits of the checksum register, the highest first. */
  type Register = s: Bits | |s| == 30
    witness Falses(30)

  const ONE: Register := Falses(29) + [true]

  const GENERATORS: seq<nat> := [0x3b6a57b2, 0x26508e6d, 0x1ea119fa, 0x3d4233dd, 0x2a1462b3]

  function Xor(a: Bits, b: Bits): (c: Bits)
    requires |a| == |b|
    ensures |c| == |a|
  {
    seq(|a|, i requires 0 <= i < |a| => a[i] != b[i])
  }

  /** The generators of five bits of overflow, as registers. */
  function Generators(): (g: seq<Register>)
    ensures |g| == 5
  {
    seq(5, k requires 0 <= k < 5 => BitsOf(GENERATORS[k], 30))
  }

  /** The generators selected by the first `count` of the bits that fall out, the lowest bit first. */
  function Reduce(c: Register, top: Bits, g: seq<Register>, count: nat): Register
    requires |top| == 5 && |g| == 5 && count <= 5
  {
    if count == 0 then c
    else
      var rest := Reduce(c, top, g, count - 1);
      if top[5 - count] then Xor(rest, g[count - 1]) else rest
  }

  /** Shift a value in. */
  function Shift(c: Register, v: Bits): Register
    requires |v| == 5
  {
    Xor(c[5..] + Falses(5), Falses(25) + v)
  }

  /** Shift a value in and reduce what falls out. */
  function Step(c: Register, v: Bits): Register
    requires |v| == 5
  {
    Reduce(Shift(c, v), c[..5], Generators(), 5)
  }

  function Fold(c: Register, values: seq<Word>): Register
    decreases |values|
  {
    if values == [] then c else Fold(Step(c, WordBits(values[0])), values[1..])
  }

  function Zeros(n: nat): seq<Word> {
    seq(n, _ => 0)
  }

  /** One bit of the reduction, as a sum over the selected generators. */
  function Selected(top: Bits, g: seq<Register>, i: nat): bool
    requires |top| == 5 && |g| == 5 && i < 30
  {
    ((top[4] && g[0][i]) != (top[3] && g[1][i]))
    != (((top[2] && g[2][i]) != (top[1] && g[3][i])) != (top[0] && g[4][i]))
  }

  lemma ReduceBit(c: Register, top: Bits, g: seq<Register>, count: nat, i: nat)
    requires |top| == 5 && |g| == 5 && 0 < count <= 5 && i < 30
    ensures Reduce(c, top, g, count)[i] == (Reduce(c, top, g, count - 1)[i] != (top[5 - count] && g[count - 1][i]))
  {
  }

  lemma ReducedBit(c: Register, top: Bits, g: seq<Register>, i: nat)
    requires |top| == 5 && |g| == 5 && i < 30
    ensures Reduce(c, top, g, 5)[i] == (c[i] != Selected(top, g, i))
  {
    ReduceBit(c, top, g, 1, i);
    ReduceBit(c, top, g, 2, i);
    ReduceBit(c, top, g, 3, i);
    ReduceBit(c, top, g, 4, i);
    ReduceBit(c, top, g, 5, i);
  }

  lemma StepBit(c: Register, v: Bits, i: nat)
    requires |v| == 5 && i < 30
    ensures Step(c, v)[i] == ((if i < 25 then c[i + 5] else v[i - 25]) != Selected(c[..5], Generators(), i))
  {
    ReducedBit(Shift(c, v), c[..5], Generators(), i);
  }

  lemma SelectedLinear(a: Bits, b: Bits, g: seq<Register>, i: nat)
    requires |a| == 5 && |b| == 5 && |g| == 5 && i < 30
    ensures Selected(Xor(a, b), g, i) == (Selected(a, g, i) != Selected(b, g, i))
  {
  }

  lemma StepLinearAt(a: Register, b: Register, u: Bits, v: Bits, i: nat)
    requires |u| == 5 && |v| == 5 && i < 30
    ensures Step(Xor(a, b), Xor(u, v))[i] == (Step(a, u)[i] != Step(b, v)[i])
  {
    hide Step, Selected, Generators;
    StepBit(Xor(a, b), Xor(u, v), i);
    StepBit(a, u, i);
    StepBit(b, v, i);
    SelectedLinear(a[..5], b[..5], Generators(), i);
    assert Xor(a, b)[..5] == Xor(a[..5], b[..5]);
  }

  /** The step is linear over exclusive or, in state and value at once. */
  lemma StepLinear(a: Register, b: Register, u: Bits, v: Bits)
    requires |u| == 5 && |v| == 5
    ensures Step(Xor(a, b), Xor(u, v)) == Xor(Step(a, u), Step(b, v))
  {
    forall i | 0 <= i < 30
      ensures Step(Xor(a, b), Xor(u, v))[i] == (Step(a, u)[i] != Step(b, v)[i])
    {
      StepLinearAt(a, b, u, v, i);
    }
  }

  lemma ZeroWord()
    ensures WordBits(0) == Falses(5)
  {
    assert BitsOf(0, 3) == Falses(3);
  }

  lemma {:induction false} FoldAppend(c: Register, a: seq<Word>, b: seq<Word>)
    ensures Fold(c, a + b) == Fold(Fold(c, a), b)
    decreases |a|
  {
    if a == [] {
      assert a + b == b;
    } else {
      assert (a + b)[1..] == a[1..] + b;
      FoldAppend(Step(c, WordBits(a[0])), a[1..], b);
    }
  }

  /** Starting states add up over the same values: one of them may be folded with zeros instead. */
  lemma {:induction false} FoldLinear(a: Register, b: Register, values: seq<Word>)
    ensures Fold(Xor(a, b), values) == Xor(Fold(a, Zeros(|values|)), Fold(b, values))
    decreases |values|
  {
    if values != [] {
      var v := WordBits(values[0]);
      ZeroWord();
      StepLinear(a, b, Falses(5), v);
      assert Xor(Falses(5), v) == v;
      FoldLinear(Step(a, Falses(5)), Step(b, v), values[1..]);
      assert Zeros(|values|)[1..] == Zeros(|values| - 1) && Zeros(|values|)[0] == 0;
    }
  }

  /** The register after six zeros, xored with one, as six words. */
  function Checksum(values: seq<Word>): (w: seq<Word>)
    ensures |w| == 6
  {
    ToWords(Xor(Fold(ONE, values + Zeros(6)), ONE))
  }

  lemma StepWithoutReduction(c: Register, v: Bits)
    requires |v| == 5 && c[..5] == Falses(5)
    ensures Step(c, v) == c[5..] + v
  {
    forall i | 0 <= i < 30
      ensures Step(c, v)[i] == (c[5..] + v)[i]
    {
      StepBit(c, v, i);
    }
  }

  /** Up to six words pack into an empty register without any reduction. */
  lemma {:induction false} FoldFromZero(words: seq<Word>)
    requires |words| <= 6
    ensures Fold(Falses(30), words) == Falses(30 - 5 * |words|) + WordsToBits(words)
    decreases |words|
  {
    if words == [] {
      assert Falses(30) + [] == Falses(30);
    } else {
      var k := |words| - 1;
      var c := Falses(30 - 5 * k) + WordsToBits(words[..k]);
      FoldFromZero(words[..k]);
      assert words == words[..k] + [words[k]];
      FoldAppend(Falses(30), words[..k], [words[k]]);
      assert [words[k]][1..] == [];
      assert c[..5] == Falses(5) && c[5..] == Falses(25 - 5 * k) + WordsToBits(words[..k]);
      StepWithoutReduction(c, WordBits(words[k]));
      WordsToBitsAppend(words[..k], words[k]);
    }
  }

  lemma {:induction false} WordsToBitsAppend(words: seq<Word>, w: Word)
    ensures WordsToBits(words + [w]) == WordsToBits(words) + WordBits(w)
    decreases |words|
  {
    if words == [] {
      assert [w][1..] == [];
    } else {
      assert (words + [w])[1..] == words[1..] + [w];
      WordsToBitsAppend(words[1..], w);
    }
  }

  lemma XorBack(a: Bits, b: Bits)
    requires |a| == |b|
    ensures Xor(a, Xor(a, b)) == b && Xor(Xor(a, b), b) == a && Xor(a, Falses(|a|)) == a
  {
  }

  /** Main result: with its checksum, every sequence of values verifies. */
  lemma ChecksumVerifies(values: seq<Word>)
    ensures Fold(ONE, values + Checksum(values)) == ONE
  {
    var (s, c) := (Fold(ONE, values), Fold(ONE, values + Zeros(6)));
    var words := Checksum(values);
    FoldAppend(ONE, values, Zeros(6));
    FoldAppend(ONE, values, words);
    XorBack(s, s);
    FoldLinear(s, Falses(30), words);
    FoldFromZero(words);
    BitsOfWords(Xor(c, ONE));
    assert Falses(0) + WordsToBits(words) == Xor(c, ONE);
    XorBack(c, ONE);
  }

  // ----- Detection of a wrong word -----

  /** The last five bits of every generator. */
  lemma LowBits(g: seq<Register>)
    requires |g| == 5 && forall k :: 0 <= k < 5 ==> EndsLike(g[k], GENERATORS[k])
    ensures g[0][25..] == [true, false, false, true, false]
    ensures g[1][25..] == [false, true, true, false, true]
    ensures g[2][25..] == [true, true, false, true, false]
    ensures g[3][25..] == [true, true, true, false, true]
    ensures g[4][25..] == [true, false, false, true, true]
  {
    assert EndsLike(g[0], 0x3b6a57b2) && EndsLike(g[1], 0x26508e6d) && EndsLike(g[2], 0x1ea119fa);
    assert EndsLike(g[3], 0x3d4233dd) && EndsLike(g[4], 0x2a1462b3);
  }

  function LowFive(n: nat): (b: Bits)
    ensures |b| == 5
  {
    [n / 16 % 2 == 1, n / 8 % 2 == 1, n / 4 % 2 == 1, n / 2 % 2 == 1, n % 2 == 1]
  }

  lemma FiveBits(n: nat)
    ensures BitsOf(n, 5) == LowFive(n)
  {
    assert n / 2 / 2 == n / 4 && n / 4 / 2 == n / 8 && n / 8 / 2 == n / 16;
    assert BitsOf(n / 8, 2) == [n / 16 % 2 == 1, n / 8 % 2 == 1];
    assert BitsOf(n / 2, 4) == BitsOf(n / 8, 2) + [n / 4 % 2 == 1, n / 2 % 2 == 1];
  }

  predicate EndsLike(b: Register, n: nat) {
    b[25..] == LowFive(n)
  }

  lemma GeneratorsEnd()
    ensures forall k :: 0 <= k < 5 ==> EndsLike(Generators()[k], GENERATORS[k])
  {
    forall k | 0 <= k < 5
      ensures EndsLike(Generators()[k], GENERATORS[k])
    {
      LastBits(GENERATORS[k], 30, 5);
      FiveBits(GENERATORS[k]);
    }
  }

  lemma {:induction false} LastBits(n: nat, size: nat, k: nat)
    requires k <= size
    ensures BitsOf(n, size)[size - k..] == BitsOf(n, k)
    decreases k
  {
    if k > 0 {
      LastBits(n / 2, size - 1, k - 1);
      assert BitsOf(n, size)[size - k..] == BitsOf(n / 2, size - 1)[size - k..] + [n % 2 == 1];
    }
  }

  /** The reduction loses nothing: only the empty register is stepped to the empty register. */
  lemma StepKernel(c: Register)
    requires Step(c, Falses(5)) == Falses(30)
    ensures c == Falses(30)
  {
    var (top, g) := (c[..5], Generators());
    forall i: nat | i < 30
      ensures (if i < 25 then c[i + 5] else false) == Selected(top, g, i)
    {
      StepBit(c, Falses(5), i);
    }
    Independent(top, g);
    forall i | 0 <= i < 30
      ensures !c[i]
    {
      if i >= 5 { assert Selected(top, g, i - 5) == c[i - 5 + 5]; } else { assert c[i] == top[i]; }
    }
  }

  /** No nonempty selection of the generators cancels in the last five bits. */
  lemma Independent(top: Bits, g: seq<Register>)
    requires |top| == 5 && g == Generators()
    requires forall i :: 25 <= i < 30 ==> !Selected(top, g, i)
    ensures top == Falses(5)
  {
    GeneratorsEnd();
    LowBits(g);
    LowBitsIndependent(top, g);
  }

  lemma LowBitsIndependent(top: Bits, g: seq<Register>)
    requires |top| == 5 && |g| == 5
    requires g[0][25..] == [true, false, false, true, false] && g[1][25..] == [false, true, true, false, true]
    requires g[2][25..] == [true, true, false, true, false] && g[3][25..] == [true, true, true, false, true]
    requires g[4][25..] == [true, false, false, true, true]
    requires forall i :: 25 <= i < 30 ==> !Selected(top, g, i)
    ensures top == Falses(5)
  {
    forall k, j | 0 <= k < 5 && 0 <= j < 5
      ensures g[k][25 + j] == g[k][25..][j]
    {
    }
    assert !Selected(top, g, 25) && !Selected(top, g, 26) && !Selected(top, g, 27);
    assert !Selected(top, g, 28) && !Selected(top, g, 29);
  }

  lemma {:induction false} ZerosKeepNonzero(c: Register, n: nat)
    requires c != Falses(30)
    ensures Fold(c, Zeros(n)) != Falses(30)
    decreases n
  {
    if n > 0 {
      ZeroWord();
      if Step(c, Falses(5)) == Falses(30) { StepKernel(c); }
      ZerosKeepNonzero(Step(c, Falses(5)), n - 1);
      assert Zeros(n)[1..] == Zeros(n - 1) && Zeros(n)[0] == 0;
    }
  }

  lemma StepsDiffer(c: Register, u: Word, v: Word)
    requires u != v
    ensures Step(c, WordBits(u)) != Step(c, WordBits(v))
  {
    var (a, b) := (WordBits(u), WordBits(v));
    WordOfBits(u);
    WordOfBits(v);
    assert a != b;
    var i :| 0 <= i < 5 && a[i] != b[i];
    StepBit(c, a, 25 + i);
    StepBit(c, b, 25 + i);
  }

  lemma FoldAround(c: Register, before: seq<Word>, w: Word, after: seq<Word>)
    ensures Fold(c, before + [w] + after) == Fold(Step(Fold(c, before), WordBits(w)), after)
  {
    FoldAppend(c, before + [w], after);
    FoldAppend(c, before, [w]);
    assert [w][1..] == [];
  }

  /** Any single wrong word, at any length, changes the register. */
  lemma SingleErrorDetected(values: seq<Word>, i: nat, w: Word)
    requires i < |values| && w != values[i]
    ensures Fold(ONE, values[i := w]) != Fold(ONE, values)
  {
    var (before, after) := (values[..i], values[i + 1..]);
    var c := Fold(ONE, before);
    assert values == before + [values[i]] + after && values[i := w] == before + [w] + after;
    FoldAround(ONE, before, values[i], after);
    FoldAround(ONE, before, w, after);
    StepsDiffer(c, values[i], w);
    AfterDifference(Step(c, WordBits(values[i])), Step(c, WordBits(w)), after);
  }

  lemma AfterDifference(x: Register, y: Register, after: seq<Word>)
    requires x != y
    ensures Fold(x, after) != Fold(y, after)
  {
    var d := Xor(x, y);
    if d == Falses(30) {
      assert forall i :: 0 <= i < 30 ==> x[i] == y[i] by {
        assert forall i :: 0 <= i < 30 ==> d[i] == (x[i] != y[i]) && !d[i];
      }
      assert false;
    }
    XorBack(x, y);
    FoldLinear(d, y, after);
    ZerosKeepNonzero(d, |after|);
    var (p, q) := (Fold(d, Zeros(|after|)), Fold(y, after));
    var i :| 0 <= i < 30 && p[i] != Falses(30)[i];
    assert Xor(p, q)[i] != q[i];
  }
}
