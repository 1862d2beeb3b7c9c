/** Base58check decoding of extended public keys (scripts/verify-attestation.py) and its inverse. */
module Base58 {
  import opened ByteStrings
  import opened Outcomes
  import opened Radix

  const BASE58_ALPHABET: string :=
    "123456789" + "ABCDEFGH" + "JKLMN" + "PQRSTUVWXYZ" + "abcdefghijk" + "mnopqrstuvwxyz"
  const PAYLOAD_BYTES: nat := 78

  datatype DecodeError = Empty | OutsideAlphabet | WrongLength | ChecksumMismatch

  // ---------------------------------------------------------------- alphabet

  /** The alphabet in closed form: the digits and letters without 0, O, I and l. */
  function Symbol(d: nat): (c: char)
    requires d < 58
  {
    if d < 9 then ('1' as int + d) as char
    else if d < 17 then ('A' as int + (d - 9)) as char
    else if d < 22 then ('J' as int + (d - 17)) as char
    else if d < 33 then ('P' as int + (d - 22)) as char
    else if d < 44 then ('a' as int + (d - 33)) as char
    else ('m' as int + (d - 44)) as char
  }

  lemma AlphabetIsSymbols(d: nat)
    requires d < 58
    ensures |BASE58_ALPHABET| == 58 && BASE58_ALPHABET[d] == Symbol(d)
  {}

  lemma SymbolsDiffer(a: nat, b: nat)
    requires a < 58 && b < 58 && Symbol(a) == Symbol(b)
    ensures a == b
  {}

  /** `str.find` on the alphabet. */
  function Find(c: char, at: nat): (r: Option<nat>)
    requires at <= 58
    ensures r.Some? ==> at <= r.value < 58 && Symbol(r.value) == c
    ensures r.None? ==> forall d :: at <= d < 58 ==> Symbol(d) != c
    decreases 58 - at
  {
    if at == 58 then None else if Symbol(at) == c then Some(at) else Find(c, at + 1)
  }

  predicate InAlphabet(text: string)
  {
    forall i :: 0 <= i < |text| ==> Find(text[i], 0).Some?
  }

  function DigitsOfText(text: string): (digits: Digits)
    requires InAlphabet(text)
    ensures InBase(58, digits) && |digits| == |text|
  {
    seq(|text|, i requires 0 <= i < |text| => Find(text[i], 0).value)
  }

  function TextOf(digits: Digits): (text: string)
    requires InBase(58, digits)
    ensures |text| == |digits|
  {
    seq(|digits|, i requires 0 <= i < |digits| => Symbol(digits[i]))
  }

  lemma TextInverts(digits: Digits)
    requires InBase(58, digits)
    ensures InAlphabet(TextOf(digits)) && DigitsOfText(TextOf(digits)) == digits
  {
    var text := TextOf(digits);
    forall i | 0 <= i < |digits| ensures Find(text[i], 0) == Some(digits[i]) {
      var found := Find(text[i], 0);
      if found.Some? { SymbolsDiffer(found.value, digits[i]); }
    }
  }

  lemma DigitsInvert(text: string)
    requires InAlphabet(text)
    ensures TextOf(DigitsOfText(text)) == text
  {}

  // ------------------------------------------------------- text and byte strings

  function AsDigits(b: Bytes): (digits: Digits)
    ensures InBase(256, digits) && |digits| == |b|
  {
    seq(|b|, i requires 0 <= i < |b| => b[i])
  }

  function AsBytes(digits: Digits): (b: Bytes)
    requires InBase(256, digits)
    ensures |b| == |digits|
  {
    seq(|digits|, i requires 0 <= i < |digits| => digits[i])
  }

  /** The bytes a base58 text stands for: leading '1's are zero bytes. */
  function Decoded(text: string): (b: Bytes)
    requires InAlphabet(text)
  {
    AsBytes(Convert(58, 256, DigitsOfText(text)))
  }

  function Encoded(b: Bytes): (text: string)
  {
    TextOf(Convert(256, 58, AsDigits(b)))
  }

  lemma DecodedInvertsEncoded(b: Bytes)
    ensures InAlphabet(Encoded(b)) && Decoded(Encoded(b)) == b
  {
    hide Convert, DigitsOfText, TextOf, InAlphabet;
    var digits := Convert(256, 58, AsDigits(b));
    TextInverts(digits);
    ConversionInverts(256, 58, AsDigits(b));
    assert AsBytes(AsDigits(b)) == b;
  }

  lemma EncodedInvertsDecoded(text: string)
    requires InAlphabet(text)
    ensures Encoded(Decoded(text)) == text
  {
    hide Convert, DigitsOfText, TextOf, InAlphabet;
    var digits := DigitsOfText(text);
    var bytes := Convert(58, 256, digits);
    assert AsDigits(AsBytes(bytes)) == bytes;
    ConversionInverts(58, 256, digits);
    DigitsInvert(text);
  }

  // ----------------------------------------------------- the decoder's own steps

  function BitLength(n: nat): (k: nat)
  {
    if n == 0 then 0 else 1 + BitLength(n / 2)
  }

  lemma BitsPerByte(n: nat)
    requires n > 0
    ensures (BitLength(n) + 7) / 8 == 1 + (BitLength(n / 256) + 7) / 8
  {
    EightHalvings(n);
  }

  /** Eight halvings remove at most eight bits, exactly eight unless the number ends. */
  lemma EightHalvings(n: nat)
    requires n > 0
    ensures n >= 256 ==> BitLength(n) == 8 + BitLength(n / 256)
    ensures n < 256 ==> 1 <= BitLength(n) <= 8
  {
    FourHalvings(n);
    FourHalvings(n / 16);
    assert n / 16 / 16 == n / 256;
  }

  lemma FourHalvings(n: nat)
    ensures n >= 16 ==> BitLength(n) == 4 + BitLength(n / 16)
    ensures n < 16 ==> BitLength(n) <= 4
    ensures n > 0 ==> BitLength(n) >= 1
  {
    assert n / 2 / 2 == n / 4 && n / 4 / 2 / 2 == n / 16;
    TwoHalvings(n);
    TwoHalvings(n / 4);
  }

  lemma TwoHalvings(n: nat)
    ensures n >= 4 ==> BitLength(n) == 2 + BitLength(n / 4)
    ensures n < 4 ==> BitLength(n) <= 2
    ensures n > 0 ==> BitLength(n) >= 1
  {
    assert n / 2 / 2 == n / 4;
    assert n == 2 || n == 3 ==> BitLength(n / 2) == 1 + BitLength(0);
  }

  /** The byte count Python derives from the bit length is the number of base-256 digits. */
  lemma {:induction false} ToBytesIsDigits(n: nat)
    ensures Be(n, (BitLength(n) + 7) / 8) == AsBytes(DigitsOf(256, n))
    decreases n
  {
    if n > 0 {
      QuotientIsSmaller(256, n);
      ToBytesIsDigits(n / 256);
      BitsPerByte(n);
      assert DigitsOf(256, n) == DigitsOf(256, n / 256) + [n % 256];
    }
  }

  function LeadingOnes(text: string): (k: nat)
    ensures k <= |text|
  {
    if text == [] || text[0] != '1' then 0 else 1 + LeadingOnes(text[1..])
  }

  lemma {:induction false} OnesAreZeros(text: string)
    requires InAlphabet(text)
    ensures LeadingOnes(text) == LeadingZeros(DigitsOfText(text))
  {
    if text != [] {
      assert DigitsOfText(text)[0] == Find(text[0], 0).value;
      SymbolIsOne(text[0]);
      if text[0] == '1' {
        assert forall i :: 0 <= i < |text[1..]| ==> text[1..][i] == text[i + 1];
        OnesAreZeros(text[1..]);
        assert DigitsOfText(text)[1..] == DigitsOfText(text[1..]);
      }
    }
  }

  lemma SymbolIsOne(c: char)
    requires Find(c, 0).Some?
    ensures c == '1' <==> Find(c, 0).value == 0
  {
    assert Symbol(0) == '1';
    if c == '1' { SymbolsDiffer(Find(c, 0).value, 0); }
  }

  function Checksum(sha: Sha256, payload: Bytes): (b: Bytes)
    ensures |b| == 4
  {
    sha(sha(payload))[..4]
  }

  /** `base58check_decode`, with its accumulating loop. */
  method Base58CheckDecode(sha: Sha256, text: string) returns (r: Result<Bytes, DecodeError>)
    ensures r == DecodeResult(sha, text)
  {
    hide Value, DigitsOf, BitLength, Be, LeadingOnes, Symbol;
    if text == [] { return Err(Empty); }
    var number := 0;
    ghost var digits: Digits := [];
    assert Value(58, []) == 0 by { ValueOfNothing(58); }
    for i := 0 to |text|
      invariant |digits| == i && forall j :: 0 <= j < i ==> Find(text[j], 0) == Some(digits[j])
      invariant number == Value(58, digits)
    {
      var index := Find(text[i], 0);
      if index.None? { return Err(OutsideAlphabet); }
      ValueGrows(58, digits, index.value);
      number := number * 58 + index.value;
      digits := digits + [index.value];
    }
    assert digits == DigitsOfText(text);
    var body := Be(number, (BitLength(number) + 7) / 8);
    ToBytesIsDigits(number);
    OnesAreZeros(text);
    var decoded := AsBytes(Zeros(LeadingOnes(text))) + body;
    assert decoded == Decoded(text);
    if |decoded| != PAYLOAD_BYTES + 4 { return Err(WrongLength); }
    var payload, checksum := decoded[..PAYLOAD_BYTES], decoded[PAYLOAD_BYTES..];
    if sha(sha(payload))[..4] != checksum { return Err(ChecksumMismatch); }
    r := Ok(payload);
  }

  function DecodeResult(sha: Sha256, text: string): (r: Result<Bytes, DecodeError>)
  {
    if text == [] then Err(Empty)
    else if !InAlphabet(text) then Err(OutsideAlphabet)
    else
      var decoded := Decoded(text);
      if |decoded| != PAYLOAD_BYTES + 4 then Err(WrongLength)
      else if Checksum(sha, decoded[..PAYLOAD_BYTES]) != decoded[PAYLOAD_BYTES..] then Err(ChecksumMismatch)
      else Ok(decoded[..PAYLOAD_BYTES])
  }

  // ----------------------------------------------------------- the test encoder

  function EncodedKey(sha: Sha256, payload: Bytes): (text: string)
  {
    Encoded(payload + Checksum(sha, payload))
  }

  /** The repeated-division encoder of the tests. */
  method Base58CheckEncode(sha: Sha256, payload: Bytes) returns (text: string)
    ensures text == EncodedKey(sha, payload)
  {
    hide Value, DigitsOf, Symbol, LeadingZeros;
    var decoded := payload + sha(sha(payload))[..4];
    var start := Value(256, AsDigits(decoded));
    var number := start;
    text := [];
    ghost var digits: Digits := [];
    assert DigitsOf(58, start) == DigitsOf(58, start) + [];
    while number > 0
      invariant InBase(58, digits) && text == TextOf(digits)
      invariant DigitsOf(58, start) == DigitsOf(58, number) + digits
    {
      DigitsStep(58, number);
      digits := [number % 58] + digits;
      text := [Symbol(number % 58)] + text;
      QuotientIsSmaller(58, number);
      number := number / 58;
    }
    assert DigitsOf(58, 0) == [] by { NoDigits(58); }
    var i := 0;
    while i < |decoded| && decoded[i] == 0
      invariant 0 <= i <= |decoded|
      invariant forall j :: 0 <= j < i ==> decoded[j] == 0
      invariant text == TextOf(Zeros(i) + DigitsOf(58, start))
    {
      assert Zeros(i + 1) + DigitsOf(58, start) == [0] + (Zeros(i) + DigitsOf(58, start));
      SymbolOfZero();
      text := ['1'] + text;
      i := i + 1;
    }
    LeadingZerosAre(AsDigits(decoded), i);
  }

  lemma SymbolOfZero()
    ensures Symbol(0) == '1'
  {}

  lemma LeadingZerosAre(digits: Digits, k: nat)
    requires k <= |digits| && (forall i :: 0 <= i < k ==> digits[i] == 0) && (k < |digits| ==> digits[k] != 0)
    ensures LeadingZeros(digits) == k
  {
    assert digits == Zeros(k) + digits[k..];
    LeadingZerosOf(k, digits[k..]);
  }

  /** Each accepted key has exactly one text: the decoder accepts precisely the encoder's outputs. */
  lemma OneTextPerKey(sha: Sha256, text: string, payload: Bytes)
    ensures DecodeResult(sha, text) == Ok(payload) <==> |payload| == PAYLOAD_BYTES && text == EncodedKey(sha, payload)
  {
    hide Decoded, Encoded, InAlphabet, Checksum;
    if |payload| == PAYLOAD_BYTES && text == EncodedKey(sha, payload) {
      var b := payload + Checksum(sha, payload);
      DecodedInvertsEncoded(b);
      assert b[..PAYLOAD_BYTES] == payload && b[PAYLOAD_BYTES..] == Checksum(sha, payload);
      if text == [] { EmptyDecodesEmpty(); }
    }
    if DecodeResult(sha, text) == Ok(payload) {
      EncodedInvertsDecoded(text);
      var b := Decoded(text);
      assert b == b[..PAYLOAD_BYTES] + b[PAYLOAD_BYTES..];
    }
  }

  /** A key is accepted exactly from a text of its 78 bytes and the first four bytes of their double SHA-256. */
  lemma AcceptedKeysCarryTheirChecksum(sha: Sha256, text: string, payload: Bytes)
    ensures DecodeResult(sha, text) == Ok(payload) <==>
      && text != "" && (forall i :: 0 <= i < |text| ==> text[i] in BASE58_ALPHABET)
      && |payload| == 78 && InAlphabet(text) && Decoded(text) == payload + sha(sha(payload))[..4]
  {
    hide Decoded, Symbol, Find;
    if InAlphabet(text) {
      forall i | 0 <= i < |text| ensures text[i] in BASE58_ALPHABET {
        SymbolsAreInAlphabet(text[i]);
      }
      var b := Decoded(text);
      if |b| == 82 {
        assert b == b[..78] + b[78..];
      }
      assert |payload| == 78 ==> (payload + sha(sha(payload))[..4])[..78] == payload;
    }
  }

  lemma SymbolsAreInAlphabet(c: char)
    requires Find(c, 0).Some?
    ensures c in BASE58_ALPHABET
  {
    hide Symbol;
    AlphabetIsSymbols(Find(c, 0).value);
  }

  lemma EmptyDecodesEmpty()
    ensures InAlphabet("") && Decoded("") == []
  {
    assert DigitsOfText("") == [];
    assert Value(58, []) == 0 && LeadingZeros([]) == 0;
  }
}
