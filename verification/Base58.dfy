/** Base58 and Base58Check: internal/bitcoin/base58.go. Double SHA-256 is a parameter. */
module Base58 {
  import opened Common
  import opened Radix
  import opened Text

  datatype Base58Error = BadCharacter | TooShort | BadChecksum

  type digit = x: int | 0 <= x < 58

  // The alphabet: digits 1-9, then upper case without I and O, then lower case without l.
  function DigitChar(d: digit): char {
    if d < 9 then (49 + d) as char
    else if d < 17 then (65 + d - 9) as char
    else if d < 22 then (74 + d - 17) as char
    else if d < 33 then (80 + d - 22) as char
    else if d < 44 then (97 + d - 33) as char
    else (109 + d - 44) as char
  }

  function Alphabet(): (s: string)
    ensures |s| == 58 && forall d :: 0 <= d < 58 ==> s[d] == DigitChar(d)
  {
    seq(58, i requires 0 <= i < 58 => DigitChar(i))
  }

  function DigitChars(ds: seq<int>): (s: string)
    requires IsDigits(ds, 58)
    ensures |s| == |ds| && forall i :: 0 <= i < |ds| ==> s[i] == DigitChar(ds[i])
  {
    seq(|ds|, i requires 0 <= i < |ds| => DigitChar(ds[i]))
  }

  predicate Spellable(s: string) {
    forall i :: 0 <= i < |s| ==> s[i] in Alphabet()
  }

  function CharDigits(s: string): (ds: seq<int>)
    requires Spellable(s)
    ensures |ds| == |s| && forall i :: 0 <= i < |s| ==> ds[i] == IndexOf(Alphabet(), s[i])
    ensures IsDigits(ds, 58)
  {
    seq(|s|, i requires 0 <= i < |s| => IndexOf(Alphabet(), s[i]))
  }

  function Encode(data: seq<byte>): string {
    ValueRange(data, 256);
    DigitsValue(Value(data, 256), 58);
    Repeat('1', LeadingZeros(data)) + DigitChars(Digits(Value(data, 256), 58))
  }

  function Decode(s: string): Result<seq<byte>, Base58Error> {
    if !Spellable(s) then Err(BadCharacter)
    else
      var ds := CharDigits(s);
      ValueRange(ds, 58);
      DigitsValue(Value(ds, 58), 256);
      Ok(Repeat(0, LeadingZeros(ds)) + Digits(Value(ds, 58), 256))
  }

  type hash = seq<byte> -> seq<byte>

  ghost predicate IsChecksumHash(h: hash) {
    forall x :: |h(x)| >= 4
  }

  function CheckEncode(h: hash, payload: seq<byte>): string
    requires IsChecksumHash(h)
  {
    Encode(payload + h(payload)[..4])
  }

  function CheckDecode(h: hash, s: string): Result<seq<byte>, Base58Error>
    requires IsChecksumHash(h)
  {
    var decoded := Decode(s);
    if decoded.Err? then Err(decoded.error)
    else if |decoded.value| < 4 then Err(TooShort)
    else
      var n := |decoded.value| - 4;
      var payload, checksum := decoded.value[..n], decoded.value[n..];
      if h(payload)[..4] != checksum then Err(BadChecksum) else Ok(payload)
  }

  // ---- the alphabet ----

  // Six runs of consecutive characters, without 0, I, O and l.
  lemma AlphabetSpelled()
    ensures Alphabet() == "123456789" + "ABCDEFGH" + "JKLMN" + "PQRSTUVWXYZ" + "abcdefghijk" + "mnopqrstuvwxyz"
  {
    var s := Alphabet();
    assert s[0..9] == "123456789";
    assert s[9..17] == "ABCDEFGH";
    assert s[17..22] == "JKLMN";
    assert s[22..33] == "PQRSTUVWXYZ";
    assert s[33..44] == "abcdefghijk";
    assert s[44..58] == "mnopqrstuvwxyz";
    assert s == s[0..9] + s[9..17] + s[17..22] + s[22..33] + s[33..44] + s[44..58];
  }

  lemma DigitCharInjective(d: digit, e: digit)
    requires DigitChar(d) == DigitChar(e)
    ensures d == e
  {
  }

  lemma AlphabetIndex(d: digit)
    ensures DigitChar(d) in Alphabet() && IndexOf(Alphabet(), DigitChar(d)) == d
  {
    assert Alphabet()[d] == DigitChar(d);
    DigitCharInjective(IndexOf(Alphabet(), DigitChar(d)), d);
  }

  lemma CharDigitsOfDigitChars(ds: seq<int>)
    requires IsDigits(ds, 58)
    ensures Spellable(DigitChars(ds)) && CharDigits(DigitChars(ds)) == ds
  {
    forall i | 0 <= i < |ds|
      ensures DigitChars(ds)[i] in Alphabet() && IndexOf(Alphabet(), DigitChars(ds)[i]) == ds[i]
    {
      AlphabetIndex(ds[i]);
    }
  }

  lemma DigitCharsOfCharDigits(s: string)
    requires Spellable(s)
    ensures DigitChars(CharDigits(s)) == s
  {
  }

  // ---- both directions ----

  lemma Spelled(k: nat, ds: seq<int>)
    requires IsDigits(ds, 58)
    ensures IsDigits(Repeat(0, k) + ds, 58)
    ensures DigitChars(Repeat(0, k) + ds) == Repeat('1', k) + DigitChars(ds)
  {
  }

  // Leading ones become leading zero bytes, and the rest is the value in base 256.
  lemma Reread(k: nat, n: nat)
    ensures IsDigits(Digits(n, 256), 256) && IsDigits(Digits(n, 58), 58)
    ensures Decode(Repeat('1', k) + DigitChars(Digits(n, 58))) == Ok(Repeat(0, k) + Digits(n, 256))
  {
    hide DigitChars, Digits, Value, LeadingZeros, CharDigits, Spellable;
    DigitsValue(n, 256);
    DigitsValue(n, 58);
    if n == 0 {
      NoDigits();
    }
    Spelled(k, Digits(n, 58));
    CharDigitsOfDigitChars(Repeat(0, k) + Digits(n, 58));
    LeadingZerosOf(k, Digits(n, 58));
    ValueConcat(Repeat(0, k), Digits(n, 58), 58);
    ValueZeros(k, 58);
  }

  lemma DecodeEncode(data: seq<byte>)
    ensures Decode(Encode(data)) == Ok(data)
  {
    hide DigitChars, Digits, Value, LeadingZeros, Decode;
    ValueRange(data, 256);
    Reread(LeadingZeros(data), Value(data, 256));
    DigitsOfValue(data, 256);
  }

  lemma NoDigits()
    ensures Digits(0, 58) == [] && Digits(0, 256) == []
  {
  }

  // Leading zero bytes become leading ones, and the rest is the value in base 58.
  lemma Respell(k: nat, n: nat)
    ensures IsDigits(Digits(n, 256), 256) && IsDigits(Digits(n, 58), 58)
    ensures Encode(Repeat(0, k) + Digits(n, 256)) == Repeat('1', k) + DigitChars(Digits(n, 58))
  {
    hide DigitChars, Digits, Value, LeadingZeros;
    DigitsValue(n, 256);
    DigitsValue(n, 58);
    if n == 0 {
      NoDigits();
    }
    LeadingZerosOf(k, Digits(n, 256));
    ValueConcat(Repeat(0, k), Digits(n, 256), 256);
    ValueZeros(k, 256);
  }

  lemma EncodeDecode(s: string)
    requires Decode(s).Ok?
    ensures Encode(Decode(s).value) == s
  {
    hide DigitChars, Digits, Value, LeadingZeros, Encode;
    var ds := CharDigits(s);
    var k := LeadingZeros(ds);
    ValueRange(ds, 58);
    Respell(k, Value(ds, 58));
    DigitsOfValue(ds, 58);
    Spelled(k, Digits(Value(ds, 58), 58));
    DigitCharsOfCharDigits(s);
  }

  lemma CheckDecodeEncode(h: hash, payload: seq<byte>)
    requires IsChecksumHash(h)
    ensures CheckDecode(h, CheckEncode(h, payload)) == Ok(payload)
  {
    hide Encode, Decode;
    var full := payload + h(payload)[..4];
    DecodeEncode(full);
    assert full[..|payload|] == payload && full[|payload|..] == h(payload)[..4];
  }

  // A string is accepted exactly if it decodes to a payload followed by the first four bytes of the
  // payload's hash.
  lemma CheckAccepts(h: hash, s: string, payload: seq<byte>)
    requires IsChecksumHash(h)
    ensures CheckDecode(h, s) == Ok(payload) <==> Decode(s) == Ok(payload + [h(payload)[0], h(payload)[1], h(payload)[2], h(payload)[3]])
  {
    hide Decode;
    var check := [h(payload)[0], h(payload)[1], h(payload)[2], h(payload)[3]];
    assert h(payload)[..4] == check;
    assert (payload + check)[..|payload|] == payload && (payload + check)[|payload|..] == check;
    if CheckDecode(h, s) == Ok(payload) {
      var d := Decode(s).value;
      assert d == d[..|d| - 4] + d[|d| - 4..];
    }
  }

  lemma CheckEncodeDecode(h: hash, s: string)
    requires IsChecksumHash(h) && CheckDecode(h, s).Ok?
    ensures CheckEncode(h, CheckDecode(h, s).value) == s
  {
    hide Encode, Decode;
    var d := Decode(s).value;
    EncodeDecode(s);
    assert d == d[..|d| - 4] + d[|d| - 4..];
  }

  // ---- the loops of the source ----

  function Reversed<T>(s: seq<T>): (r: seq<T>)
    ensures |r| == |s| && forall i :: 0 <= i < |s| ==> r[i] == s[|s| - 1 - i]
  {
    seq(|s|, i requires 0 <= i < |s| => s[|s| - 1 - i])
  }

  // The final loop of base58Encode: swaps from both ends inwards.
  method Reverse(a: array<char>)
    modifies a
    ensures a[..] == Reversed(old(a[..]))
  {
    var i, j := 0, a.Length - 1;
    while i < j
      invariant 0 <= i <= j + 1 && j == a.Length - 1 - i
      invariant forall k :: i <= k <= j ==> a[k] == old(a[k])
      invariant forall k :: 0 <= k < i ==> a[k] == old(a[a.Length - 1 - k])
      invariant forall k :: j < k < a.Length ==> a[k] == old(a[a.Length - 1 - k])
    {
      a[i], a[j] := a[j], a[i];
      i, j := i + 1, j - 1;
    }
  }

  method CountLeading<T(==)>(s: seq<T>, x: T) returns (n: nat)
    ensures n <= |s| && (n < |s| ==> s[n] != x) && forall i :: 0 <= i < n ==> s[i] == x
  {
    n := 0;
    while n < |s| && s[n] == x
      invariant n <= |s| && forall i :: 0 <= i < n ==> s[i] == x
    {
      n := n + 1;
    }
  }

  // The division loop of base58Encode: least significant digit first.
  method SpellDigits(value: nat) returns (result: seq<char>)
    ensures IsDigits(Digits(value, 58), 58) && Reversed(result) == DigitChars(Digits(value, 58))
  {
    hide DigitChar;
    var n := value;
    DigitsValue(n, 58);
    result := [];
    assert DigitChars(Digits(n, 58)) == DigitChars(Digits(n, 58)) + Reversed(result);
    while n > 0
      invariant n >= 0 && IsDigits(Digits(n, 58), 58)
      invariant DigitChars(Digits(value, 58)) == DigitChars(Digits(n, 58)) + Reversed(result)
    {
      DigitsValue(n / 58, 58);
      SpellStep(n, result);
      result := result + [DigitChar(n % 58)];
      n := n / 58;
    }
  }

  lemma SpellStep(n: nat, result: seq<char>)
    requires n > 0 && IsDigits(Digits(n, 58), 58) && IsDigits(Digits(n / 58, 58), 58)
    ensures DigitChars(Digits(n, 58)) + Reversed(result)
            == DigitChars(Digits(n / 58, 58)) + Reversed(result + [DigitChar(n % 58)])
  {
    hide DigitChar;
    assert Digits(n, 58) == Digits(n / 58, 58) + [n % 58];
    assert DigitChars(Digits(n, 58)) == DigitChars(Digits(n / 58, 58)) + [DigitChar(n % 58)];
    assert Reversed(result + [DigitChar(n % 58)]) == [DigitChar(n % 58)] + Reversed(result);
  }

  method EncodeBytes(data: seq<byte>) returns (s: string)
    ensures s == Encode(data)
  {
    hide Digits, DigitChars, Value, LeadingZeros;
    var zeros := CountLeading(data, 0);
    LeadingZerosUnique(data, zeros);
    ValueRange(data, 256);
    var body := SpellDigits(Value(data, 256));
    var result := body;
    FirstChar();
    for i := 0 to zeros
      invariant result == body + Repeat('1', i)
    {
      result := result + [DigitChar(0)];
    }
    var a := new char[|result|](i requires 0 <= i < |result| => result[i]);
    assert a[..] == result;
    Reverse(a);
    s := a[..];
    ReversedOnes(body, zeros);
  }

  lemma ReversedOnes(body: seq<char>, k: nat)
    ensures Reversed(body + Repeat('1', k)) == Repeat('1', k) + Reversed(body)
  {
  }

  lemma FirstChar()
    ensures DigitChar(0) == '1'
  {
  }

  lemma LeadingZerosUnique(data: seq<int>, n: nat)
    requires n <= |data| && (n < |data| ==> data[n] != 0) && forall i :: 0 <= i < n ==> data[i] == 0
    ensures n == LeadingZeros(data)
  {
  }

  method DecodeString(s: string) returns (r: Result<seq<byte>, Base58Error>)
    ensures r == Decode(s)
  {
    hide Digits, LeadingZeros, Value, Alphabet;
    var result := 0;
    EmptyValue();
    for k := 0 to |s|
      invariant Spellable(s[..k]) && result == Value(CharDigits(s[..k]), 58)
    {
      var idx := IndexOf(Alphabet(), s[k]);
      if idx < 0 {
        return Err(BadCharacter);
      }
      assert s[..k + 1] == s[..k] + [s[k]];
      var ds := CharDigits(s[..k]);
      assert CharDigits(s[..k + 1]) == ds + [idx];
      ValueSnoc(ds, idx, 58);
      result := result * 58 + idx;
    }
    assert s[..|s|] == s;
    var zeros := CountLeading(s, '1');
    OnesAreZeros(s);
    LeadingZerosUnique(CharDigits(s), zeros);
    ValueRange(CharDigits(s), 58);
    DigitsValue(result, 256);
    r := Ok(Repeat(0, zeros) + Digits(result, 256));
  }

  lemma EmptyValue()
    ensures Value([], 58) == 0
  {
  }

  lemma OnesAreZeros(s: string)
    requires Spellable(s)
    ensures forall i :: 0 <= i < |s| ==> (s[i] == '1' <==> CharDigits(s)[i] == 0)
  {
    FirstChar();
    AlphabetIndex(0);
  }
}
