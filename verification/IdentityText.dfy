/**
 The Bech32 text form, the encoder as its loops run, and the identity file, from its text down:
 a stub is recovered from exactly the texts whose one effective line was written for it.
 */
module IdentityText {
  import opened Records
  import opened Bech32
  import Cbor
  import Codec

  type Text = Bytes

  const SEPARATOR: Byte := 0x31

  /** The alphabet qpzry9x8gf2tvdw0s3jn54khce6mua7l. */
  function Char(w: Word): Byte {
    if w < 4 then (if w == 0 then 0x71 else if w == 1 then 0x70 else if w == 2 then 0x7A else 0x72)
    else if w < 8 then (if w == 4 then 0x79 else if w == 5 then 0x39 else if w == 6 then 0x78 else 0x38)
    else if w < 12 then (if w == 8 then 0x67 else if w == 9 then 0x66 else if w == 10 then 0x32 else 0x74)
    else if w < 16 then (if w == 12 then 0x76 else if w == 13 then 0x64 else if w == 14 then 0x77 else 0x30)
    else if w < 20 then (if w == 16 then 0x73 else if w == 17 then 0x33 else if w == 18 then 0x6A else 0x6E)
    else if w < 24 then (if w == 20 then 0x35 else if w == 21 then 0x34 else if w == 22 then 0x6B else 0x68)
    else if w < 28 then (if w == 24 then 0x63 else if w == 25 then 0x65 else if w == 26 then 0x36 else 0x6D)
    else (if w == 28 then 0x75 else if w == 29 then 0x61 else if w == 30 then 0x37 else 0x6C)
  }

  /** The decoder's reverse table. */
  function WordOfChar(c: Byte): Option<Word> {
    if c <= 0x39 then
      if c == 0x30 then Some(15) else if c == 0x32 then Some(10) else if c == 0x33 then Some(17)
      else if c == 0x34 then Some(21) else if c == 0x35 then Some(20) else if c == 0x36 then Some(26)
      else if c == 0x37 then Some(30) else if c == 0x38 then Some(7) else if c == 0x39 then Some(5)
      else None
    else if c <= 0x6D then
      if c == 0x61 then Some(29) else if c == 0x63 then Some(24) else if c == 0x64 then Some(13)
      else if c == 0x65 then Some(25) else if c == 0x66 then Some(9) else if c == 0x67 then Some(8)
      else if c == 0x68 then Some(23) else if c == 0x6A then Some(18) else if c == 0x6B then Some(22)
      else if c == 0x6C then Some(31) else if c == 0x6D then Some(27)
      else None
    else
      if c == 0x6E then Some(19) else if c == 0x70 then Some(1) else if c == 0x71 then Some(0)
      else if c == 0x72 then Some(3) else if c == 0x73 then Some(16) else if c == 0x74 then Some(11)
      else if c == 0x75 then Some(28) else if c == 0x76 then Some(12) else if c == 0x77 then Some(14)
      else if c == 0x78 then Some(6) else if c == 0x79 then Some(4) else if c == 0x7A then Some(2)
      else None
  }

  /** Characters 33 to 126, of the length the decoder allows; lower case as `to_ascii_lowercase` leaves it. */
  predicate Prefix(hrp: Text) {
    1 <= |hrp| <= 83 && forall i :: 0 <= i < |hrp| ==> 33 <= hrp[i] <= 126 && !(65 <= hrp[i] <= 90)
  }

  function HighParts(hrp: Text): seq<Word>
    requires forall i :: 0 <= i < |hrp| ==> hrp[i] < 128
  {
    seq(|hrp|, i requires 0 <= i < |hrp| => hrp[i] / 32)
  }

  function LowParts(hrp: Text): seq<Word> {
    seq(|hrp|, i requires 0 <= i < |hrp| => hrp[i] % 32)
  }

  function Expand(hrp: Text): seq<Word>
    requires forall i :: 0 <= i < |hrp| ==> hrp[i] < 128
  {
    HighParts(hrp) + [0] + LowParts(hrp)
  }

  function Chars(words: seq<Word>): Text {
    seq(|words|, i requires 0 <= i < |words| => Char(words[i]))
  }

  function Encode(hrp: Text, payload: Bytes): Text
    requires forall i :: 0 <= i < |hrp| ==> hrp[i] < 128
  {
    var words := Regroup(payload);
    hrp + [SEPARATOR] + Chars(words + Checksum(Expand(hrp) + words))
  }

  // ----- The decoder -----

  function ParseWords(data: Text): Option<seq<Word>>
    decreases |data|
  {
    if data == [] then Some([])
    else
      var first := WordOfChar(data[0]);
      var others := ParseWords(data[1..]);
      if first == None || others == None then None else Some([first.value] + others.value)
  }

  /** Position after the last separator, 0 when there is none. */
  function AfterSeparator(text: Text): (k: nat)
    ensures k <= |text|
    decreases |text|
  {
    if text == [] then 0
    else if text[|text| - 1] == SEPARATOR then |text|
    else AfterSeparator(text[..|text| - 1])
  }

  /** The data words without the checksum, if it is right for this prefix. */
  function Verified(hrp: Text, data: Text): Option<seq<Word>> {
    if !Prefix(hrp) || |data| < 6 then None
    else
      var words := ParseWords(data);
      if words == None || |words.value| < 6 || Fold(ONE, Expand(hrp) + words.value) != ONE then None
      else Some(words.value[..|words.value| - 6])
  }

  function Decode(text: Text): Option<(Text, seq<Word>)> {
    var k := AfterSeparator(text);
    if k == 0 then None
    else
      var words := Verified(text[..k - 1], text[k..]);
      if words == None then None else Some((text[..k - 1], words.value))
  }

  /** The two tables are inverse; neither the separator nor a capital is in the alphabet. */
  lemma TablesInverse(w: Word)
    ensures WordOfChar(Char(w)) == Some(w)
    ensures Char(w) != SEPARATOR && !(65 <= Char(w) <= 90)
  {
  }

  lemma {:induction false} ParseUndoesChars(words: seq<Word>)
    ensures ParseWords(Chars(words)) == Some(words)
    decreases |words|
  {
    if words != [] {
      TablesInverse(words[0]);
      ParseUndoesChars(words[1..]);
      assert Chars(words)[1..] == Chars(words[1..]);
      assert [words[0]] + words[1..] == words;
    }
  }

  lemma {:induction false} SeparatorIsLast(before: Text, data: Text)
    requires forall i :: 0 <= i < |data| ==> data[i] != SEPARATOR
    ensures AfterSeparator(before + [SEPARATOR] + data) == |before| + 1
    decreases |data|
  {
    var text := before + [SEPARATOR] + data;
    if data == [] {
      assert text == before + [SEPARATOR];
    } else {
      assert text[..|text| - 1] == before + [SEPARATOR] + data[..|data| - 1];
      SeparatorIsLast(before, data[..|data| - 1]);
    }
  }

  lemma CharsHaveNoSeparator(words: seq<Word>)
    ensures forall i :: 0 <= i < |words| ==> Chars(words)[i] != SEPARATOR
  {
    forall i | 0 <= i < |words|
      ensures Chars(words)[i] != SEPARATOR
    {
      TablesInverse(words[i]);
    }
  }

  lemma VerifiedData(hrp: Text, all: seq<Word>)
    requires Prefix(hrp) && |all| >= 6 && Fold(ONE, Expand(hrp) + all) == ONE
    ensures Verified(hrp, Chars(all)) == Some(all[..|all| - 6])
  {
    ParseUndoesChars(all);
  }

  lemma DecodeVerified(hrp: Text, all: seq<Word>)
    requires Verified(hrp, Chars(all)).Some?
    ensures Decode(hrp + [SEPARATOR] + Chars(all)) == Some((hrp, Verified(hrp, Chars(all)).value))
  {
    var text := hrp + [SEPARATOR] + Chars(all);
    CharsHaveNoSeparator(all);
    SeparatorIsLast(hrp, Chars(all));
    assert text[..|hrp|] == hrp && text[|hrp| + 1..] == Chars(all);
  }

  /** Every encoded text is accepted and gives back prefix and payload. */
  lemma DecodeUndoesEncode(hrp: Text, payload: Bytes)
    requires Prefix(hrp)
    ensures Decode(Encode(hrp, payload)) == Some((hrp, Regroup(payload)))
    ensures Ungroup(Regroup(payload)) == Some(payload)
  {
    hide Fold, Regroup, Checksum, Decode, Verified, Ungroup;
    var words := Regroup(payload);
    var values := Expand(hrp) + words;
    ChecksumVerifies(values);
    assert Expand(hrp) + (words + Checksum(values)) == values + Checksum(values);
    VerifiedData(hrp, words + Checksum(values));
    DecodeVerified(hrp, words + Checksum(values));
    assert (words + Checksum(values))[..|words|] == words;
    UngroupUndoesRegroup(payload);
  }

  // ----- The encoder as it runs -----

  lemma {:induction false} BytesToBitsAppend(b: Bytes, last: Byte)
    ensures BytesToBits(b + [last]) == BytesToBits(b) + ByteBits(last)
    decreases |b|
  {
    if b == [] {
      assert [last][1..] == [];
    } else {
      assert (b + [last])[1..] == b[1..] + [last];
      BytesToBitsAppend(b[1..], last);
    }
  }

  method BitsLoop(payload: Bytes) returns (bits: Bits)
    ensures bits == BytesToBits(payload)
  {
    bits := [];
    for i := 0 to |payload|
      invariant bits == BytesToBits(payload[..i])
    {
      assert payload[..i + 1] == payload[..i] + [payload[i]];
      BytesToBitsAppend(payload[..i], payload[i]);
      bits := bits + ByteBits(payload[i]);
    }
    assert payload[..|payload|] == payload;
  }

  lemma ToWordsStep(done: seq<Word>, bits: Bits, at: nat)
    requires at + 5 <= |bits|
    ensures done + ToWords(bits[at..]) == (done + [WordOf(bits[at..at + 5])]) + ToWords(bits[at + 5..])
  {
    assert bits[at..][..5] == bits[at..at + 5] && bits[at..][5..] == bits[at + 5..];
    assert ToWords(bits[at..]) == [WordOf(bits[at..at + 5])] + ToWords(bits[at + 5..]);
  }

  method GroupLoop(bits: Bits) returns (words: seq<Word>)
    requires |bits| % 5 == 0
    ensures words == ToWords(bits)
  {
    words := [];
    assert bits[0..] == bits;
    for i := 0 to |bits| / 5
      invariant words + ToWords(bits[5 * i..]) == ToWords(bits)
    {
      ToWordsStep(words, bits, 5 * i);
      words := words + [WordOf(bits[5 * i..5 * i + 5])];
    }
  }

  lemma {:induction false} FoldSnoc(c: Register, values: seq<Word>, k: nat)
    requires k < |values|
    ensures Fold(c, values[..k + 1]) == Step(Fold(c, values[..k]), WordBits(values[k]))
  {
    assert values[..k + 1] == values[..k] + [values[k]];
    FoldAppend(c, values[..k], [values[k]]);
    assert [values[k]][1..] == [];
  }

  /** The checksum register after all the values, one generator test at a time. */
  method Polymod(values: seq<Word>) returns (checksum: Register)
    ensures checksum == Fold(ONE, values)
  {
    checksum := ONE;
    for k := 0 to |values|
      invariant checksum == Fold(ONE, values[..k])
    {
      FoldSnoc(ONE, values, k);
      var top := checksum[..5];
      checksum := Shift(checksum, WordBits(values[k]));
      ghost var shifted := checksum;
      for index := 0 to 5
        invariant checksum == Reduce(shifted, top, Generators(), index)
      {
        if top[4 - index] { checksum := Xor(checksum, Generators()[index]); }
      }
    }
    assert values[..|values|] == values;
  }

  lemma PaddedLength(n: nat)
    ensures (n + (5 - n % 5) % 5) % 5 == 0
  {
  }

  method EncodeLoop(hrp: Text, payload: Bytes) returns (text: Text)
    requires forall i :: 0 <= i < |hrp| ==> hrp[i] < 128
    ensures text == Encode(hrp, payload)
  {
    hide ToWords, Fold, BytesToBits, Expand, Chars;
    var bits := BitsLoop(payload);
    PaddedLength(|bits|);
    var padding := Falses((5 - |bits| % 5) % 5);
    WordsIgnorePadding(bits, padding);
    var words := GroupLoop(bits + padding);
    var checksum := Polymod(Expand(hrp) + words + Zeros(6));
    var check := GroupLoop(Xor(checksum, ONE));
    words := words + check;
    return hrp + [SEPARATOR] + Chars(words);
  }

  // ----- Identity files -----

  /** age-plugin-phone- */
  const HRP: Text :=
    [0x61, 0x67, 0x65, 0x2D, 0x70, 0x6C, 0x75, 0x67, 0x69, 0x6E, 0x2D, 0x70, 0x68, 0x6F, 0x6E, 0x65, 0x2D]

  function Upper(c: Byte): Byte {
    if 97 <= c <= 122 then c - 32 else c
  }

  function Lower(c: Byte): Byte {
    if 65 <= c <= 90 then c + 32 else c
  }

  function ToUpper(t: Text): Text {
    seq(|t|, i requires 0 <= i < |t| => Upper(t[i]))
  }

  function ToLower(t: Text): Text {
    seq(|t|, i requires 0 <= i < |t| => Lower(t[i]))
  }

  function PluginIdentity(s: PublicIdentityStub): Text {
    ToUpper(Encode(HRP, Codec.EncodeStub(s)))
  }

  /** The one identity line, or why there is no identity. */
  function DecodeIdentity(c: Codec.Crypto, identity: Text): Result<PublicIdentityStub, Cbor.CodecError> {
    var decoded := Decode(ToLower(identity));
    if decoded == None || decoded.value.0 != HRP then Err(Cbor.Malformed)
    else
      var bytes := Ungroup(decoded.value.1);
      if bytes == None then Err(Cbor.Malformed)
      else
        var stub :- Codec.DecodeStub(c, bytes.value);
        if PluginIdentity(stub) != identity then Err(Cbor.Malformed) else Ok(stub)
  }

  lemma LowerUndoesUpper(hrp: Text, payload: Bytes)
    requires Prefix(hrp)
    ensures ToLower(ToUpper(Encode(hrp, payload))) == Encode(hrp, payload)
  {
    var text := Encode(hrp, payload);
    var words := Regroup(payload) + Checksum(Expand(hrp) + Regroup(payload));
    forall i | 0 <= i < |text|
      ensures !(65 <= text[i] <= 90)
    {
      if i > |hrp| {
        assert text[i] == Chars(words)[i - |hrp| - 1];
        TablesInverse(words[i - |hrp| - 1]);
      }
    }
  }

  lemma IdentityDecodes(payload: Bytes)
    ensures Decode(ToLower(ToUpper(Encode(HRP, payload)))) == Some((HRP, Regroup(payload)))
    ensures Ungroup(Regroup(payload)) == Some(payload)
  {
    LowerUndoesUpper(HRP, payload);
    DecodeUndoesEncode(HRP, payload);
  }

  lemma IdentityRoundTrip(c: Codec.Crypto, s: PublicIdentityStub)
    requires Codec.ValidStub(c, s) && |Codec.EncodeStub(s)| < Cbor.U64
    ensures DecodeIdentity(c, PluginIdentity(s)) == Ok(s)
  {
    IdentityDecodes(Codec.EncodeStub(s));
    Codec.StubRoundTrip(c, s);
  }

  lemma IdentityAccepted(c: Codec.Crypto, identity: Text)
    requires DecodeIdentity(c, identity).Ok?
    ensures var s := DecodeIdentity(c, identity).value; Codec.ValidStub(c, s) && identity == PluginIdentity(s)
  {
    var bytes := Ungroup(Decode(ToLower(identity)).value.1).value;
    Codec.StubAccepted(c, bytes);
  }

  // ----- Lines of a text file -----

  /** The characters `trim` removes: Unicode White_Space. */
  predicate White(c: char) {
    var n := c as int;
    9 <= n <= 13 || n in {32, 0x85, 0xA0, 0x1680, 0x2028, 0x2029, 0x202F, 0x205F, 0x3000} || 0x2000 <= n <= 0x200A
  }

  function TrimStart(t: string): string {
    if t != "" && White(t[0]) then TrimStart(t[1..]) else t
  }

  function TrimEnd(t: string): string {
    if t != "" && White(t[|t| - 1]) then TrimEnd(t[..|t| - 1]) else t
  }

  function Trim(t: string): string {
    TrimEnd(TrimStart(t))
  }

  /** Position of the first line feed, or the length. */
  function LineEnd(t: string): (k: nat)
    ensures k <= |t|
    ensures k < |t| ==> t[k] == '\n'
    ensures forall i :: 0 <= i < k ==> t[i] != '\n'
  {
    if t == "" || t[0] == '\n' then 0 else 1 + LineEnd(t[1..])
  }

  /** A carriage return just before the line feed belongs to the line break. */
  function WithoutReturn(line: string): string {
    if line != "" && line[|line| - 1] == '\r' then line[..|line| - 1] else line
  }

  /** `lines`: no last line when the text ends with a line feed. */
  function Lines(t: string): seq<string>
    decreases |t|
  {
    var k := LineEnd(t);
    if t == "" then []
    else if k == |t| then [t]
    else [WithoutReturn(t[..k])] + Lines(t[k + 1..])
  }

  /** The trimmed lines that are neither empty nor comments. */
  function Effective(lines: seq<string>): seq<string> {
    if lines == [] then []
    else
      var line := Trim(lines[0]);
      (if line == "" || line[0] == '#' then [] else [line]) + Effective(lines[1..])
  }

  predicate Ascii(t: string) {
    forall i :: 0 <= i < |t| ==> t[i] < 128 as char
  }

  function AsciiBytes(t: string): Text
    requires Ascii(t)
  {
    seq(|t|, i requires 0 <= i < |t| => t[i] as int)
  }

  function AsciiText(b: Text): string
    requires forall i :: 0 <= i < |b| ==> b[i] < 128
  {
    seq(|b|, i requires 0 <= i < |b| => b[i] as char)
  }

  /** `decode_identity_stub_text`; no character outside ASCII is part of a Bech32 text. */
  function DecodeText(c: Codec.Crypto, text: string): Result<PublicIdentityStub, Cbor.CodecError> {
    var identities := Effective(Lines(text));
    if |identities| != 1 || !Ascii(identities[0]) then Err(Cbor.Malformed)
    else DecodeIdentity(c, AsciiBytes(identities[0]))
  }

  lemma EncodedIsPrintable(payload: Bytes)
    ensures var text := Encode(HRP, payload);
            && |text| > 18 && text[..17] == HRP && text[17] == SEPARATOR
            && forall i :: 0 <= i < |text| ==> 32 < text[i] < 127
  {
    hide Regroup, Checksum;
    var words := Regroup(payload) + Checksum(Expand(HRP) + Regroup(payload));
    var text := Encode(HRP, payload);
    forall i | 0 <= i < |text|
      ensures 32 < text[i] < 127
    {
      if i > |HRP| { assert text[i] == Char(words[i - |HRP| - 1]); }
    }
    assert text[..17] == HRP;
  }

  /** An identity is printable, in capitals, and begins with the plugin's prefix. */
  lemma IdentityIsAscii(s: PublicIdentityStub)
    ensures forall i :: 0 <= i < |PluginIdentity(s)| ==> 32 < PluginIdentity(s)[i] < 128
    ensures forall i :: 0 <= i < |PluginIdentity(s)| ==> !(97 <= PluginIdentity(s)[i] <= 122)
    ensures |PluginIdentity(s)| > 18 && PluginIdentity(s)[0] == 0x41
    ensures PluginIdentity(s)[..18] == ToUpper(HRP) + [SEPARATOR]
  {
    hide Encode;
    var text := Encode(HRP, Codec.EncodeStub(s));
    EncodedIsPrintable(Codec.EncodeStub(s));
    assert text[0] == text[..17][0];
    forall i | 0 <= i < 18
      ensures PluginIdentity(s)[i] == (ToUpper(HRP) + [SEPARATOR])[i]
    {
      if i < 17 { assert text[i] == text[..17][i]; }
    }
    assert PluginIdentity(s)[..18] == ToUpper(HRP) + [SEPARATOR];
  }

  function IdentityLine(s: PublicIdentityStub): string {
    IdentityIsAscii(s);
    AsciiText(PluginIdentity(s))
  }

  lemma AsciiUndoes(t: string, b: Text)
    requires forall i :: 0 <= i < |b| ==> b[i] < 128
    ensures Ascii(AsciiText(b)) && AsciiBytes(AsciiText(b)) == b
    ensures Ascii(t) && AsciiBytes(t) == b ==> t == AsciiText(b)
  {
    if Ascii(t) && AsciiBytes(t) == b {
      forall i | 0 <= i < |t|
        ensures t[i] == AsciiText(b)[i]
      {
        assert AsciiBytes(t)[i] == t[i] as int;
      }
    }
  }

  /** Main result: a text gives a stub exactly if its one effective line is that valid stub's identity. */
  lemma IdentityTextIff(c: Codec.Crypto, text: string, s: PublicIdentityStub)
    requires |Codec.EncodeStub(s)| < Cbor.U64
    ensures DecodeText(c, text) == Ok(s) <==> Codec.ValidStub(c, s) && Effective(Lines(text)) == [IdentityLine(s)]
  {
    var identities := Effective(Lines(text));
    IdentityIsAscii(s);
    if DecodeText(c, text) == Ok(s) {
      IdentityAccepted(c, AsciiBytes(identities[0]));
      AsciiUndoes(identities[0], PluginIdentity(s));
    } else if Codec.ValidStub(c, s) && identities == [IdentityLine(s)] {
      AsciiUndoes(identities[0], PluginIdentity(s));
      IdentityRoundTrip(c, s);
    }
  }

  // ----- Texts and their lines -----

  predicate OneLine(line: string) {
    forall i :: 0 <= i < |line| ==> line[i] != '\n'
  }

  /** Every line followed by a line feed; a line may itself end with a carriage return. */
  function Joined(lines: seq<string>): string {
    if lines == [] then "" else lines[0] + "\n" + Joined(lines[1..])
  }

  function WithoutReturns(lines: seq<string>): seq<string> {
    seq(|lines|, i requires 0 <= i < |lines| => WithoutReturn(lines[i]))
  }

  lemma FirstLine(line: string, rest: string)
    requires OneLine(line)
    ensures Lines(line + "\n" + rest) == [WithoutReturn(line)] + Lines(rest)
  {
    var text := line + "\n" + rest;
    assert text[|line|] == '\n' && text[..|line|] == line && text[|line| + 1..] == rest;
    assert forall i :: 0 <= i < |line| ==> text[i] == line[i];
    assert LineEnd(text) == |line|;
  }

  /** The lines of a text made of lines are those lines without their carriage returns. */
  lemma {:induction false} LinesUndoJoined(lines: seq<string>)
    requires forall i :: 0 <= i < |lines| ==> OneLine(lines[i])
    ensures Lines(Joined(lines)) == WithoutReturns(lines)
    decreases |lines|
  {
    if lines != [] {
      assert forall i :: 0 <= i < |lines| - 1 ==> lines[1..][i] == lines[i + 1];
      LinesUndoJoined(lines[1..]);
      FirstLine(lines[0], Joined(lines[1..]));
      hide Lines, WithoutReturn;
      assert WithoutReturns(lines) == [WithoutReturn(lines[0])] + WithoutReturns(lines[1..]);
    }
  }

  /** A last line may lack its line feed; then it keeps a carriage return. */
  lemma {:induction false} UnterminatedLine(lines: seq<string>, last: string)
    requires (forall i :: 0 <= i < |lines| ==> OneLine(lines[i])) && OneLine(last) && last != ""
    ensures Lines(Joined(lines) + last) == WithoutReturns(lines) + [last]
    decreases |lines|
  {
    if lines == [] {
      assert Joined(lines) + last == last;
      LoneLine(last);
      assert WithoutReturns(lines) + [last] == [last];
    } else {
      var (line, others) := (lines[0], Joined(lines[1..]));
      assert forall i :: 0 <= i < |lines| - 1 ==> lines[1..][i] == lines[i + 1];
      UnterminatedLine(lines[1..], last);
      hide Lines, WithoutReturn;
      Regrouped(line, "\n", others, last);
      FirstLine(line, others + last);
      FirstWithoutReturn(lines);
      Regrouped([], [WithoutReturn(line)], WithoutReturns(lines[1..]), [last]);
      assert [] + [WithoutReturn(line)] == [WithoutReturn(line)];
    }
  }

  lemma LoneLine(last: string)
    requires OneLine(last) && last != ""
    ensures Lines(last) == [last]
  {
    assert LineEnd(last) == |last|;
  }

  lemma Regrouped<T>(a: seq<T>, b: seq<T>, c: seq<T>, d: seq<T>)
    ensures a + b + c + d == a + b + (c + d)
  {
  }

  lemma FirstWithoutReturn(lines: seq<string>)
    requires lines != []
    ensures WithoutReturns(lines) == [WithoutReturn(lines[0])] + WithoutReturns(lines[1..])
  {
    hide WithoutReturn;
  }

  /** The characters that count as blanks. */
  lemma WhiteAre(c: char)
    ensures White(c) <==>
            || c in "\t\n\U{000B}\U{000C}\r \U{0085}\U{00A0}\U{1680}\U{2028}\U{2029}\U{202F}\U{205F}\U{3000}"
            || c in "\U{2000}\U{2001}\U{2002}\U{2003}\U{2004}\U{2005}\U{2006}\U{2007}\U{2008}\U{2009}\U{200A}"
  {
  }

  predicate Blank(t: string) {
    forall i :: 0 <= i < |t| ==> White(t[i])
  }

  lemma {:induction false} TrimStartOf(before: string, core: string)
    requires Blank(before) && core != "" && !White(core[0])
    ensures TrimStart(before + core) == core
    decreases |before|
  {
    if before == "" {
      assert before + core == core;
    } else {
      assert (before + core)[1..] == before[1..] + core;
      TrimStartOf(before[1..], core);
    }
  }

  lemma {:induction false} TrimEndOf(core: string, after: string)
    requires Blank(after) && core != "" && !White(core[|core| - 1])
    ensures TrimEnd(core + after) == core
    decreases |after|
  {
    if after == "" {
      assert core + after == core;
    } else {
      var t := core + after;
      assert t[..|t| - 1] == core + after[..|after| - 1];
      TrimEndOf(core, after[..|after| - 1]);
    }
  }

  /** Trimming takes away blanks around a text that neither starts nor ends with one. */
  lemma TrimOf(before: string, core: string, after: string)
    requires Blank(before) && Blank(after)
    requires core != "" && !White(core[0]) && !White(core[|core| - 1])
    ensures Trim(before + core + after) == core
  {
    TrimStartOf(before, core + after);
    assert before + core + after == before + (core + after);
    TrimEndOf(core, after);
  }

  lemma {:induction false} TrimStartKeeps(t: string)
    requires t != "" && !White(t[0])
    ensures TrimEnd(t) != "" && TrimEnd(t)[0] == t[0]
    decreases |t|
  {
    if White(t[|t| - 1]) { TrimStartKeeps(t[..|t| - 1]); }
  }

  lemma CommentIsSkipped(line: string, lines: seq<string>)
    requires line != "" && line[0] == '#'
    ensures Effective([line] + lines) == Effective(lines)
  {
    TrimStartKeeps(line);
    assert ([line] + lines)[1..] == lines;
  }

  /** Line by line: blank lines and comments are left out, every other line is kept trimmed. */
  lemma EffectiveLine(line: string, lines: seq<string>)
    ensures Effective([line] + lines)
         == (if Trim(line) == "" || Trim(line)[0] == '#' then [] else [Trim(line)]) + Effective(lines)
  {
    assert ([line] + lines)[1..] == lines;
  }

  lemma IdentityIsEffective(s: PublicIdentityStub, before: string, after: string)
    requires Blank(before) && Blank(after)
    ensures Effective([before + IdentityLine(s) + after]) == [IdentityLine(s)]
  {
    IdentityIsAscii(s);
    var line := IdentityLine(s);
    assert line[0] == 'A' && forall i :: 0 <= i < |line| ==> !White(line[i]);
    TrimOf(before, line, after);
    var lines := [before + line + after];
    assert lines[1..] == [];
  }

  lemma JoinedThree(a: string, b: string, c: string)
    ensures Joined([a, b, c]) == a + "\n" + b + "\n" + c + "\n"
  {
    var lines := [a, b, c];
    assert lines[1..] == [b, c] && [b, c][1..] == [c] && [c][1..] == [];
    assert Joined([c]) == c + "\n";
    assert Joined([b, c]) == b + "\n" + (c + "\n");
  }

  /** Two comments and an identity, whatever line ends and blanks are around it. */
  lemma CommentedIdentity(s: PublicIdentityStub, first: string, second: string, before: string, after: string)
    requires Blank(before) && Blank(after) && first != "" && second != "" && first[0] == '#' && second[0] == '#'
    requires OneLine(first) && OneLine(second) && OneLine(before) && OneLine(after)
    ensures Effective(Lines(Joined([first, second, before + IdentityLine(s) + after]))) == [IdentityLine(s)]
  {
    hide IdentityLine, Trim, Joined, Lines, Effective, WithoutReturn, White;
    IdentityEnds(s);
    var core := before + IdentityLine(s);
    LinesUndoJoined([first, second, core + after]);
    ReturnAtEnd(core, after);
    WithoutReturnKept(first);
    WithoutReturnKept(second);
    WithoutReturnKept(after);
    IdentityIsEffective(s, before, WithoutReturn(after));
    assert WithoutReturns([first, second, core + after])
        == [WithoutReturn(first), WithoutReturn(second), core + WithoutReturn(after)];
    CommentsAreSkipped(WithoutReturn(first), WithoutReturn(second), core + WithoutReturn(after));
  }

  /** The identity is one line and keeps its ends when its line is trimmed. */
  lemma IdentityEnds(s: PublicIdentityStub)
    ensures IdentityLine(s) != "" && OneLine(IdentityLine(s)) && IdentityLine(s)[|IdentityLine(s)| - 1] != '\r'
  {
    IdentityIsAscii(s);
  }

  lemma CommentsAreSkipped(first: string, second: string, last: string)
    requires first != "" && second != "" && first[0] == '#' && second[0] == '#'
    ensures Effective([first, second, last]) == Effective([last])
  {
    hide Effective;
    CommentIsSkipped(second, [last]);
    CommentIsSkipped(first, [second, last]);
    assert [second] + [last] == [second, last] && [first] + [second, last] == [first, second, last];
  }

  lemma WithoutReturnKept(line: string)
    ensures line != "" && line[0] == '#' ==> WithoutReturn(line) != "" && WithoutReturn(line)[0] == '#'
    ensures Blank(line) ==> Blank(WithoutReturn(line))
  {
  }

  lemma ReturnAtEnd(text: string, after: string)
    requires text != "" && text[|text| - 1] != '\r'
    ensures WithoutReturn(text + after) == text + WithoutReturn(after)
  {
    if after != "" { assert (text + after)[..|text + after| - 1] == text + after[..|after| - 1]; }
  }

  const LABEL := "# recipient: "

  const REMARK := "# public age-plugin-phone identity stub"

  /** `identity_file_for`, given the recipient's text. */
  function IdentityFile(s: PublicIdentityStub, recipient: string): string {
    LABEL + recipient + "\n" + REMARK + "\n" + IdentityLine(s) + "\n"
  }

  /** Whatever recipient the comment names, the written file is read back as its stub. */
  lemma IdentityFileRoundTrip(c: Codec.Crypto, s: PublicIdentityStub, recipient: string)
    requires Codec.ValidStub(c, s) && |Codec.EncodeStub(s)| < Cbor.U64 && OneLine(recipient)
    ensures DecodeText(c, IdentityFile(s, recipient)) == Ok(s)
  {
    hide IdentityLine, Joined, Lines, Effective;
    JoinedThree(LABEL + recipient, REMARK, IdentityLine(s));
    assert "" + IdentityLine(s) + "" == IdentityLine(s);
    CommentedIdentity(s, LABEL + recipient, REMARK, "", "");
    IdentityTextIff(c, IdentityFile(s, recipient), s);
  }
}
