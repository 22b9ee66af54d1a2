/**
  Bech32 strings, SegWit addresses and P2WPKH scripts: internal/bitcoin/bech32.go and
  ScriptFromAddress of internal/bitcoin/tx.go. HASH160 is a parameter.
 */
module Bech32 {
  import opened Common
  import opened Radix
  import opened Text
  import opened Bech32Checksum
  import opened BitRegroup

  // The alphabet qpzry9x8gf2tvdw0s3jn54khce6mua7l.
  function SymbolChar(v: symbol): char {
    if v == 0 then 'q' else if v == 1 then 'p' else if v == 2 then 'z' else if v == 3 then 'r'
    else if v == 4 then 'y' else if v == 5 then '9' else if v == 6 then 'x' else if v == 7 then '8'
    else if v == 8 then 'g' else if v == 9 then 'f' else if v == 10 then '2' else if v == 11 then 't'
    else if v == 12 then 'v' else if v == 13 then 'd' else if v == 14 then 'w' else if v == 15 then '0'
    else if v == 16 then 's' else if v == 17 then '3' else if v == 18 then 'j' else if v == 19 then 'n'
    else if v == 20 then '5' else if v == 21 then '4' else if v == 22 then 'k' else if v == 23 then 'h'
    else if v == 24 then 'c' else if v == 25 then 'e' else if v == 26 then '6' else if v == 27 then 'm'
    else if v == 28 then 'u' else if v == 29 then 'a' else if v == 30 then '7' else 'l'
  }

  const CHARSET: string := seq(32, i requires 0 <= i < 32 => SymbolChar(i))

  datatype AddressError =
    | MixedCase
    | BadSeparator
    | BadCharacter
    | BadChecksum
    | HrpMismatch
    | EmptyData
    | BadVersion
    | BadRegroup(cause: RegroupError)
    | BadLength
    | BadV0Length
    | BadPubKey
    | NotP2WPKH

  function HrpExpand(hrp: string): seq<symbol>
    requires Ascii(hrp)
  {
    var lower := Lower(hrp);
    seq(|lower|, i requires 0 <= i < |lower| => lower[i] as int / 32)
    + [0]
    + seq(|lower|, i requires 0 <= i < |lower| => lower[i] as int % 32)
  }

  function Chars(data: seq<symbol>): (s: string)
    ensures |s| == |data|
  {
    CharsetFacts();
    seq(|data|, i requires 0 <= i < |data| => CHARSET[data[i]])
  }

  function Symbols(s: string): (r: Option<seq<symbol>>)
    ensures r.Some? ==> |r.value| == |s|
  {
    CharsetFacts();
    if forall i :: 0 <= i < |s| ==> s[i] in CHARSET
    then Some(seq(|s|, i requires 0 <= i < |s| => IndexOf(CHARSET, s[i])))
    else None
  }

  function Encode(hrp: string, data: seq<symbol>): string
    requires Ascii(hrp)
  {
    Lower(hrp) + "1" + Chars(data + Checksum(HrpExpand(hrp) + data))
  }

  function Decode(s: string): Result<(string, seq<symbol>), AddressError>
    requires Ascii(s)
  {
    var lower := Lower(s);
    if s != lower && s != Upper(s) then Err(MixedCase) else
    var sep := LastIndexOf(lower, '1');
    if sep < 1 || sep + 7 > |lower| then Err(BadSeparator) else
    var hrp := lower[..sep];
    var data := Symbols(lower[sep + 1..]);
    if data.None? then Err(BadCharacter) else
    if Polymod(HrpExpand(hrp) + data.value) != 1 then Err(BadChecksum)
    else Ok((hrp, data.value[..|data.value| - 6]))
  }

  function Regroup8to5(program: seq<byte>): (r: Result<seq<symbol>, AddressError>) {
    assert Pow(2, 5) == 32;
    var five := Convert(program, 8, 5, true);
    if five.Err? then Err(BadRegroup(five.error)) else Ok(five.value)
  }

  function Regroup5to8(data: seq<symbol>): (r: Result<seq<byte>, AddressError>) {
    assert Pow(2, 8) == 256;
    var bytes := Convert(data, 5, 8, false);
    if bytes.Err? then Err(BadRegroup(bytes.error)) else Ok(bytes.value)
  }

  function SegwitEncode(hrp: string, version: int, program: seq<byte>): Result<string, AddressError>
    requires Ascii(hrp)
  {
    if version < 0 || version > 16 then Err(BadVersion)
    else if |program| < 2 || |program| > 40 then Err(BadLength)
    else
      var five := Regroup8to5(program);
      if five.Err? then Err(five.error) else Ok(Encode(hrp, [version] + five.value))
  }

  function SegwitDecode(hrp: string, addr: string): Result<(int, seq<byte>), AddressError>
    requires Ascii(addr)
  {
    var decoded := Decode(addr);
    if decoded.Err? then Err(decoded.error)
    else if decoded.value.0 != Lower(hrp) then Err(HrpMismatch)
    else
      var data := decoded.value.1;
      if |data| < 1 then Err(EmptyData)
      else if data[0] > 16 then Err(BadVersion)
      else
        var program := Regroup5to8(data[1..]);
        if program.Err? then Err(program.error)
        else if |program.value| < 2 || |program.value| > 40 then Err(BadLength)
        else if data[0] == 0 && |program.value| != 20 && |program.value| != 32 then Err(BadV0Length)
        else Ok((data[0], program.value))
  }

  // ---- the loops of the source ----

  method ExpandHrp(hrp: string) returns (ret: seq<symbol>)
    requires Ascii(hrp)
    ensures ret == HrpExpand(hrp)
  {
    var lower := Lower(hrp);
    LowerAscii(hrp);
    var n := |lower|;
    ret := Zeros(2 * n + 1);
    hide Lower;
    for i := 0 to n
      invariant |ret| == 2 * n + 1 && ret[n] == 0
      invariant forall k :: 0 <= k < i ==> ret[k] == lower[k] as int / 32
      invariant forall k :: n < k <= n + i ==> ret[k] == lower[k - n - 1] as int % 32
    {
      ret := ret[i := lower[i] as int / 32];
      ret := ret[i + n + 1 := lower[i] as int % 32];
    }
    assert ret == HrpExpand(hrp);
  }

  method WriteChars(prefix: string, payload: seq<symbol>) returns (s: string)
    ensures s == prefix + Chars(payload)
  {
    s := prefix;
    CharsetFacts();
    for i := 0 to |payload|
      invariant |s| == |prefix| + i && s[..|prefix|] == prefix
      invariant forall k :: 0 <= k < i ==> s[|prefix| + k] == CHARSET[payload[k]]
    {
      s := s + [CHARSET[payload[i]]];
    }
    assert s[|prefix|..] == Chars(payload);
  }

  method ReadSymbols(tail: string) returns (r: Option<seq<symbol>>)
    ensures r == Symbols(tail)
  {
    var data: seq<symbol> := [];
    CharsetFacts();
    for i := 0 to |tail|
      invariant |data| == i
      invariant forall k :: 0 <= k < i ==> tail[k] in CHARSET && data[k] == IndexOf(CHARSET, tail[k])
    {
      var idx := IndexOf(CHARSET, tail[i]);
      if idx < 0 {
        return None;
      }
      data := data + [idx];
    }
    assert Symbols(tail).value == data;
    return Some(data);
  }

  method EncodeString(hrp: string, data: seq<symbol>) returns (s: string)
    requires Ascii(hrp)
    ensures s == Encode(hrp, data)
  {
    hide HrpExpand, Checksum, Chars;
    var expanded := ExpandHrp(hrp);
    var checksum := ComputeChecksum(expanded + data);
    s := WriteChars(Lower(hrp) + "1", data + checksum);
  }

  method DecodeString(s: string) returns (r: Result<(string, seq<symbol>), AddressError>)
    requires Ascii(s)
    ensures r == Decode(s)
  {
    hide HrpExpand, Polymod, Symbols;
    var lower := Lower(s);
    LowerAscii(s);
    if s != lower && s != Upper(s) {
      return Err(MixedCase);
    }
    var sep := LastIndexOf(lower, '1');
    if sep < 1 || sep + 7 > |lower| {
      return Err(BadSeparator);
    }
    var hrp := lower[..sep];
    var data := ReadSymbols(lower[sep + 1..]);
    if data.None? {
      return Err(BadCharacter);
    }
    var expanded := ExpandHrp(hrp);
    var mod := ComputePolymod(expanded + data.value);
    if mod != 1 {
      return Err(BadChecksum);
    }
    return Ok((hrp, data.value[..|data.value| - 6]));
  }

  // ---- the alphabet ----

  lemma CharsetFacts()
    ensures |CHARSET| == 32 && forall v :: 0 <= v < 32 ==> CHARSET[v] == SymbolChar(v)
  {
  }

  lemma SymbolCharPlain(v: symbol)
    ensures SymbolChar(v) != '1' && SymbolChar(v) as int < 128
    ensures SymbolChar(v) < 'A' || 'Z' < SymbolChar(v)
  {
  }

  // The position of each character, spelled out.
  ghost function Rank(c: char): int {
    if c == 'q' then 0 else if c == 'p' then 1 else if c == 'z' then 2 else if c == 'r' then 3
    else if c == 'y' then 4 else if c == '9' then 5 else if c == 'x' then 6 else if c == '8' then 7
    else if c == 'g' then 8 else if c == 'f' then 9 else if c == '2' then 10 else if c == 't' then 11
    else if c == 'v' then 12 else if c == 'd' then 13 else if c == 'w' then 14 else if c == '0' then 15
    else if c == 's' then 16 else if c == '3' then 17 else if c == 'j' then 18 else if c == 'n' then 19
    else if c == '5' then 20 else if c == '4' then 21 else if c == 'k' then 22 else if c == 'h' then 23
    else if c == 'c' then 24 else if c == 'e' then 25 else if c == '6' then 26 else if c == 'm' then 27
    else if c == 'u' then 28 else if c == 'a' then 29 else if c == '7' then 30 else if c == 'l' then 31
    else -1
  }

  lemma SymbolCharRank(v: symbol)
    ensures Rank(SymbolChar(v)) == v
  {
  }

  lemma SymbolsOfChars(data: seq<symbol>)
    ensures Symbols(Chars(data)) == Some(data)
  {
    CharsetFacts();
    forall i | 0 <= i < |data|
      ensures Chars(data)[i] in CHARSET && IndexOf(CHARSET, Chars(data)[i]) == data[i]
    {
      CharsetIndex(data[i]);
    }
    assert Symbols(Chars(data)).value == data;
  }

  lemma CharsetIndex(v: symbol)
    ensures |CHARSET| == 32 && IndexOf(CHARSET, CHARSET[v]) == v
  {
    hide Rank, SymbolChar;
    CharsetFacts();
    SymbolCharRank(v);
    SymbolCharRank(IndexOf(CHARSET, CHARSET[v]));
  }

  lemma CharsOfSymbols(s: string)
    requires Symbols(s).Some?
    ensures Chars(Symbols(s).value) == s
  {
    CharsetFacts();
  }

  lemma CharsPlain(data: seq<symbol>)
    ensures Lower(Chars(data)) == Chars(data) && '1' !in Chars(data) && Ascii(Chars(data))
  {
    CharsetFacts();
    forall i | 0 <= i < |data|
      ensures Chars(data)[i] != '1' && Chars(data)[i] as int < 128 && LowerChar(Chars(data)[i]) == Chars(data)[i]
    {
      SymbolCharPlain(data[i]);
    }
  }

  lemma HrpExpandLower(hrp: string)
    requires Ascii(hrp)
    ensures Ascii(Lower(hrp)) && HrpExpand(Lower(hrp)) == HrpExpand(hrp)
  {
    LowerIdempotent(hrp);
  }

  // ---- strings ----

  // What Decode makes of a lower-case string with a given prefix and data part.
  lemma DecodeParts(hrp: string, all: seq<symbol>)
    requires Ascii(hrp) && |all| >= 6
    ensures var s := Lower(hrp) + "1" + Chars(all);
            && Ascii(s)
            && Decode(s) == if |hrp| < 1 then Err(BadSeparator)
                            else if Polymod(HrpExpand(hrp) + all) != 1 then Err(BadChecksum)
                            else Ok((Lower(hrp), all[..|all| - 6]))
  {
    hide Polymod, HrpExpand, Symbols, Chars, Lower, Upper, LastIndexOf;
    var s := Lower(hrp) + "1" + Chars(all);
    CharsPlain(all);
    LowerAscii(hrp);
    LowerIdempotent(hrp);
    LowerConcat(Lower(hrp) + "1", Chars(all));
    LowerConcat(Lower(hrp), "1");
    assert Lower("1") == "1";
    assert Lower(s) == s;
    LastIndexUnique(Lower(hrp), '1', Chars(all));
    assert s[..|hrp|] == Lower(hrp) && s[|hrp| + 1..] == Chars(all);
    SymbolsOfChars(all);
    HrpExpandLower(hrp);
  }

  lemma EncodeDecode(hrp: string, data: seq<symbol>)
    requires Ascii(hrp)
    ensures Ascii(Encode(hrp, data))
    ensures Decode(Encode(hrp, data)) == if |hrp| < 1 then Err(BadSeparator) else Ok((Lower(hrp), data))
  {
    hide Polymod, HrpExpand, Chars, Decode, Checksum;
    var pre := HrpExpand(hrp) + data;
    var cs := Checksum(pre);
    ChecksumSix(pre);
    ChecksumUnique(pre, cs);
    assert HrpExpand(hrp) + (data + cs) == pre + cs;
    DecodeParts(hrp, data + cs);
    assert (data + cs)[..|data|] == data;
  }

  lemma ChecksumSix(pre: seq<symbol>)
    ensures |Checksum(pre)| == 6
  {
  }

  // Every accepted string is the encoding of what it decodes to, up to case.
  lemma DecodeEncode(s: string)
    requires Ascii(s) && Decode(s).Ok?
    ensures var (hrp, data) := Decode(s).value;
            Ascii(hrp) && Lower(hrp) == hrp && |hrp| >= 1 && Encode(hrp, data) == Lower(s)
  {
    hide Polymod, HrpExpand, Chars, Symbols, Checksum, Lower, Upper, LastIndexOf;
    var lower := Lower(s);
    LowerAscii(s);
    LowerIdempotent(s);
    var sep := LastIndexOf(lower, '1');
    var hrp, tail := lower[..sep], lower[sep + 1..];
    var all := Symbols(tail).value;
    CharsOfSymbols(tail);
    LowerConcat(hrp, lower[sep..]);
    assert lower == hrp + lower[sep..];
    assert Lower(hrp) == hrp;
    var data, cs := all[..|all| - 6], all[|all| - 6..];
    assert HrpExpand(hrp) + all == HrpExpand(hrp) + data + cs;
    ChecksumUnique(HrpExpand(hrp) + data, cs);
    assert data + cs == all;
    assert lower == hrp + "1" + tail;
  }

  lemma CharAt(data: seq<symbol>, i: nat)
    requires i < |data|
    ensures Chars(data)[i] == SymbolChar(data[i])
  {
    CharsetFacts();
  }

  lemma KnownSymbols()
    ensures SymbolChar(10) == '2' && SymbolChar(28) == 'u' && SymbolChar(25) == 'e'
    ensures SymbolChar(31) == 'l' && SymbolChar(20) == '5'
  {
  }

  lemma KnownChars()
    ensures Chars([10, 28, 25, 31, 20, 31]) == "2uel5l"
  {
    hide SymbolChar, Chars;
    var all: seq<symbol> := [10, 28, 25, 31, 20, 31];
    KnownSymbols();
    CharAt(all, 0);
    CharAt(all, 1);
    CharAt(all, 2);
    CharAt(all, 3);
    CharAt(all, 4);
    CharAt(all, 5);
    var s := Chars(all);
    assert s == [s[0], s[1], s[2], s[3], s[4], s[5]];
  }

  lemma KnownPrefix()
    ensures Ascii("a") && HrpExpand("a") == [3, 0, 1] && Lower("a") == "a"
  {
  }

  // BIP 173's first test vector is accepted, with an empty data part.
  lemma KnownString()
    ensures Ascii("a12uel5l") && Decode("a12uel5l") == Ok(("a", []))
  {
    hide Decode, Polymod, HrpExpand, Chars, Lower;
    var all: seq<symbol> := [10, 28, 25, 31, 20, 31];
    KnownChecksum();
    KnownPrefix();
    KnownChars();
    DecodeParts("a", all);
    assert "a" + "1" + "2uel5l" == "a12uel5l";
    assert [3, 0, 1] + all == [3, 0, 1, 10, 28, 25, 31, 20, 31];
    assert all[..0] == [];
  }

  // Under one prefix, at most one of two data parts that differ only inside a window of six
  // symbols is accepted.
  lemma AcceptedBurst(hrp: string, pre: seq<symbol>, xs: seq<symbol>, ys: seq<symbol>, post: seq<symbol>)
    requires Ascii(hrp) && |xs| == |ys| <= 6 && |pre + xs + post| >= 6
    ensures Ascii(Lower(hrp) + "1" + Chars(pre + xs + post)) && Ascii(Lower(hrp) + "1" + Chars(pre + ys + post))
    ensures Decode(Lower(hrp) + "1" + Chars(pre + xs + post)).Ok? && Decode(Lower(hrp) + "1" + Chars(pre + ys + post)).Ok?
            ==> xs == ys
  {
    hide Polymod, HrpExpand, Chars, Decode;
    DecodeParts(hrp, pre + xs + post);
    DecodeParts(hrp, pre + ys + post);
    var p := HrpExpand(hrp) + pre;
    assert HrpExpand(hrp) + (pre + xs + post) == p + xs + post;
    assert HrpExpand(hrp) + (pre + ys + post) == p + ys + post;
    if xs != ys {
      BurstDetected(p, xs, ys, post);
    }
  }

  // ---- SegWit addresses ----

  predicate DecodableProgram(version: int, program: seq<byte>) {
    version == 0 ==> |program| == 20 || |program| == 32
  }

  lemma RegroupProgram(program: seq<byte>)
    ensures Regroup8to5(program).Ok? && Regroup5to8(Regroup8to5(program).value) == Ok(program)
  {
    assert Pow(2, 8) == 256 && Pow(2, 5) == 32;
    RegroupRoundTrip(program, 8, 5);
  }

  lemma RegroupData(data: seq<symbol>)
    requires Regroup5to8(data).Ok?
    ensures Regroup8to5(Regroup5to8(data).value) == Ok(data)
  {
    RegroupCanonical(data, 8, 5);
  }

  // Encoding then decoding gives back version and program exactly when the prefix is not empty
  // and a version-0 program has one of the two lengths the decoder insists on.
  lemma SegwitRoundTrip(hrp: string, version: int, program: seq<byte>)
    requires Ascii(hrp) && 0 <= version <= 16 && 2 <= |program| <= 40
    ensures var a := SegwitEncode(hrp, version, program);
            && a.Ok? && Ascii(a.value)
            && (SegwitDecode(hrp, a.value) == Ok((version, program)) <==> |hrp| >= 1 && DecodableProgram(version, program))
  {
    hide Regroup8to5, Regroup5to8, Encode, Decode;
    RegroupProgram(program);
    var data := [version] + Regroup8to5(program).value;
    EncodeDecode(hrp, data);
    assert data[1..] == Regroup8to5(program).value;
  }

  // Decoding is canonical: re-encoding what an accepted address decodes to gives its lower-case form.
  lemma SegwitCanonical(hrp: string, addr: string)
    requires Ascii(hrp) && Ascii(addr) && SegwitDecode(hrp, addr).Ok?
    ensures var (version, program) := SegwitDecode(hrp, addr).value;
            SegwitEncode(hrp, version, program) == Ok(Lower(addr))
  {
    hide Regroup8to5, Regroup5to8, Encode, Decode;
    DecodeEncode(addr);
    var data := Decode(addr).value.1;
    RegroupData(data[1..]);
    assert data == [data[0]] + data[1..];
    EncodeLower(hrp, data);
  }

  lemma EncodeLower(hrp: string, data: seq<symbol>)
    requires Ascii(hrp)
    ensures Ascii(Lower(hrp)) && Encode(Lower(hrp), data) == Encode(hrp, data)
  {
    hide Polymod, HrpExpand, Chars, Checksum;
    LowerIdempotent(hrp);
    HrpExpandLower(hrp);
  }

  // The encoder's own checks.
  lemma SegwitEncodes(hrp: string, version: int, program: seq<byte>)
    requires Ascii(hrp)
    ensures SegwitEncode(hrp, version, program).Ok? <==> 0 <= version <= 16 && 2 <= |program| <= 40
    ensures SegwitEncode(hrp, version, program) == Err(BadVersion) <==> !(0 <= version <= 16)
  {
    RegroupProgram(program);
    hide Encode, Regroup8to5;
  }

  // An address is accepted exactly if it is not in mixed case and is, in lower case, the encoding of
  // its version and program under a prefix that is not empty.
  lemma SegwitAcceptsIff(hrp: string, addr: string, version: int, program: seq<byte>)
    requires Ascii(hrp) && Ascii(addr)
    ensures SegwitDecode(hrp, addr) == Ok((version, program)) <==>
              && (addr == Lower(addr) || addr == Upper(addr))
              && |hrp| >= 1 && DecodableProgram(version, program)
              && SegwitEncode(hrp, version, program) == Ok(Lower(addr))
  {
    hide Decode, SegwitDecode, SegwitEncode, DecodableProgram;
    if SegwitDecode(hrp, addr) == Ok((version, program)) {
      SegwitCanonical(hrp, addr);
      DecodedProgram(hrp, addr);
    }
    if (addr == Lower(addr) || addr == Upper(addr)) && |hrp| >= 1 && DecodableProgram(version, program)
       && SegwitEncode(hrp, version, program) == Ok(Lower(addr)) {
      SegwitEncodes(hrp, version, program);
      SegwitRoundTrip(hrp, version, program);
      FoldedDecode(hrp, addr);
    }
  }

  lemma DecodedProgram(hrp: string, addr: string)
    requires Ascii(hrp) && Ascii(addr) && SegwitDecode(hrp, addr).Ok?
    ensures addr == Lower(addr) || addr == Upper(addr)
    ensures |hrp| >= 1 && DecodableProgram(SegwitDecode(hrp, addr).value.0, SegwitDecode(hrp, addr).value.1)
  {
    hide Decode, Regroup5to8, Encode, Lower, Upper;
    DecodeEncode(addr);
    NotMixed(addr);
    LowerSize(hrp);
  }

  lemma LowerSize(s: string)
    ensures |Lower(s)| == |s|
  {
  }

  lemma NotMixed(addr: string)
    requires Ascii(addr) && Decode(addr).Ok?
    ensures addr == Lower(addr) || addr == Upper(addr)
  {
  }

  // Decoding looks at the lower-case form only.
  lemma FoldedDecode(hrp: string, addr: string)
    requires Ascii(addr) && (addr == Lower(addr) || addr == Upper(addr))
    ensures Ascii(Lower(addr)) && SegwitDecode(hrp, addr) == SegwitDecode(hrp, Lower(addr))
  {
    LowerAscii(addr);
    LowerIdempotent(addr);
    FoldedStringDecode(addr);
    hide Decode, Regroup5to8;
  }

  lemma FoldedStringDecode(s: string)
    requires Ascii(s) && Ascii(Lower(s)) && Lower(Lower(s)) == Lower(s) && (s == Lower(s) || s == Upper(s))
    ensures Decode(s) == Decode(Lower(s))
  {
    hide Polymod, HrpExpand, Symbols, Lower, Upper;
  }

  // Two accepted spellings of one program differ only in case.
  lemma SegwitSpellings(hrp: string, a: string, b: string)
    requires Ascii(hrp) && Ascii(a) && Ascii(b)
    requires SegwitDecode(hrp, a).Ok? && SegwitDecode(hrp, a) == SegwitDecode(hrp, b)
    ensures Lower(a) == Lower(b)
  {
    SegwitCanonical(hrp, a);
    SegwitCanonical(hrp, b);
  }

  // ---- P2WPKH ----

  type hash = seq<byte> -> seq<byte>

  ghost predicate IsHash160(h: hash) {
    forall x :: |h(x)| == 20
  }

  function P2wpkhAddress(h: hash, pubKey: seq<byte>, hrp: string): Result<string, AddressError>
    requires Ascii(hrp)
  {
    if |pubKey| != 33 then Err(BadPubKey) else SegwitEncode(hrp, 0, h(pubKey))
  }

  function P2wpkhScript(h: hash, pubKey: seq<byte>): Result<seq<byte>, AddressError> {
    if |pubKey| != 33 then Err(BadPubKey) else Ok([0x00, 0x14] + h(pubKey))
  }

  function Hash160FromAddress(addr: string, hrp: string): Result<seq<byte>, AddressError>
    requires Ascii(addr)
  {
    var d := SegwitDecode(hrp, addr);
    if d.Err? then Err(d.error)
    else if d.value.0 != 0 || |d.value.1| != 20 then Err(NotP2WPKH)
    else Ok(d.value.1)
  }

  function ScriptFromAddress(addr: string, hrp: string): (r: Result<seq<byte>, AddressError>)
    requires Ascii(addr)
    ensures r.Ok? ==> |r.value| == 22 && r.value[0] == 0x00 && r.value[1] == 0x14
  {
    var h := Hash160FromAddress(addr, hrp);
    if h.Err? then Err(h.error) else Ok([0x00, 0x14] + h.value)
  }

  // Paying to a key's address locks the coin with that key's own script.
  lemma AddressScript(h: hash, pubKey: seq<byte>, hrp: string)
    requires IsHash160(h) && Ascii(hrp) && |hrp| >= 1 && |pubKey| == 33
    ensures var a := P2wpkhAddress(h, pubKey, hrp);
            && a.Ok? && Ascii(a.value)
            && Hash160FromAddress(a.value, hrp) == Ok(h(pubKey))
            && ScriptFromAddress(a.value, hrp) == P2wpkhScript(h, pubKey)
  {
    hide SegwitEncode, SegwitDecode;
    SegwitRoundTrip(hrp, 0, h(pubKey));
  }
}
