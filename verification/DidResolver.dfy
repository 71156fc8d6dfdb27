/** Base58btc strings and did:key identifiers (adl_lite/did_resolver.py). */
module DidResolver {
  import opened Basics
  import opened Base58

  type Bytes = seq<Octet>

  // ----- the alphabet -----

  const ALPHABET: string := "123456789" + "ABCDEFGH" + "JKLMN" + "PQRSTUVWXYZ" + "abcdefghijk" + "mnopqrstuvwxyz"

  function Nth(c: char, i: nat): char
    requires c as int + i < 128
  {
    (c as int + i) as char
  }

  /** The alphabet by ranges: digits without 0, capitals without I and O, small letters without l. */
  function Ranged(d: nat): char
    requires d < 58
  {
    if d < 9 then Nth('1', d) else if d < 17 then Nth('A', d - 9) else if d < 22 then Nth('J', d - 17)
    else if d < 33 then Nth('P', d - 22) else if d < 44 then Nth('a', d - 33) else Nth('m', d - 44)
  }

  lemma AlphabetIsRanged(d: nat)
    requires d < 58
    ensures |ALPHABET| == 58 && ALPHABET[d] == Ranged(d)
  {
  }

  /** The alphabet ascends by code point: with the characters of the class in it, that leaves one order. */
  lemma AlphabetAscends(i: nat, j: nat)
    requires i < j < |ALPHABET|
    ensures ALPHABET[i] < ALPHABET[j]
  {
    AlphabetIsRanged(0);
    AlphabetIsRanged(i);
    AlphabetIsRanged(j);
  }

  /** The regular expression's character class. */
  predicate InClass(c: char) {
    'a' <= c <= 'k' || 'm' <= c <= 'z' || 'A' <= c <= 'H' || 'J' <= c <= 'N' || 'P' <= c <= 'Z' || '1' <= c <= '9'
  }

  function RankOf(c: char): nat
    requires InClass(c)
  {
    if c <= '9' then c as int - '1' as int
    else if c <= 'H' then c as int - 'A' as int + 9
    else if c <= 'N' then c as int - 'J' as int + 17
    else if c <= 'Z' then c as int - 'P' as int + 22
    else if c <= 'k' then c as int - 'a' as int + 33
    else c as int - 'm' as int + 44
  }

  lemma ClassIsRanged(c: char)
    requires InClass(c)
    ensures RankOf(c) < 58 && Ranged(RankOf(c)) == c
  {
  }

  /** The character class is the alphabet. */
  lemma ClassIsAlphabet(c: char)
    ensures InClass(c) <==> c in ALPHABET
  {
    if InClass(c) {
      ClassIsRanged(c);
      AlphabetIsRanged(RankOf(c));
    }
    if c in ALPHABET {
      AlphabetIsRanged(0);
      var d :| 0 <= d < |ALPHABET| && ALPHABET[d] == c;
      AlphabetIsRanged(d);
    }
  }

  function CharOf(d: nat): char
    requires d < 58
  {
    ALPHABET[d]
  }

  /** Python's `alphabet.index(c)`. */
  function IndexOf(c: char): (d: nat)
    requires c in ALPHABET
    ensures d < 58 && ALPHABET[d] == c
  {
    IndexFrom(c, 0)
  }

  function IndexFrom(c: char, i: nat): (d: nat)
    requires i <= 58 && c in ALPHABET[i..]
    ensures i <= d < 58 && ALPHABET[d] == c
    decreases 58 - i
  {
    if ALPHABET[i] == c then i else IndexFrom(c, i + 1)
  }

  lemma IndexOfCharOf(d: nat)
    requires d < 58
    ensures CharOf(d) in ALPHABET && IndexOf(CharOf(d)) == d
  {
    var e := IndexOf(CharOf(d));
    AlphabetIsRanged(d);
    AlphabetIsRanged(e);
  }

  // ----- base58btc -----

  function Chars(ds: seq<nat>): (s: string)
    requires DigitsOf(58, ds)
    ensures |s| == |ds|
  {
    seq(|ds|, i requires 0 <= i < |ds| => CharOf(ds[i]))
  }

  predicate Base58Text(s: string) { forall i :: 0 <= i < |s| ==> s[i] in ALPHABET }

  function Indices(s: string): (ds: seq<nat>)
    requires Base58Text(s)
    ensures |ds| == |s| && DigitsOf(58, ds)
  {
    seq(|s|, i requires 0 <= i < |s| => IndexOf(s[i]))
  }

  lemma IndicesOfChars(ds: seq<nat>)
    requires DigitsOf(58, ds)
    ensures Base58Text(Chars(ds)) && Indices(Chars(ds)) == ds
  {
    forall i | 0 <= i < |ds| ensures Chars(ds)[i] in ALPHABET && IndexOf(Chars(ds)[i]) == ds[i] { IndexOfCharOf(ds[i]); }
  }

  lemma CharsOfIndices(s: string)
    requires Base58Text(s)
    ensures Chars(Indices(s)) == s
  {
  }

  function Encoded(data: Bytes): string { Chars(Rebase(256, 58, data)) }

  /** A character outside the alphabet makes `alphabet.index` raise. */
  datatype DidError = NotBase58 | NotDidKey | BadFormat | WrongPrefix | WrongKeyLength(length: nat)

  function Decoded(s: string): Result<Bytes, DidError> {
    if Base58Text(s) then Ok(Rebase(58, 256, Indices(s))) else Err(NotBase58)
  }

  /** Decoding an encoded byte string gives it back, leading zero bytes included. */
  lemma DecodeOfEncode(data: Bytes)
    ensures Decoded(Encoded(data)) == Ok(data)
  {
    IndicesOfChars(Rebase(256, 58, data));
    RebaseRoundTrip(256, 58, data);
  }

  /** Encoding a decoded string gives it back, for every string over the alphabet. */
  lemma EncodeOfDecode(s: string)
    requires Base58Text(s)
    ensures Decoded(s).Ok? && Encoded(Decoded(s).value) == s
  {
    RebaseRoundTrip(58, 256, Indices(s));
    CharsOfIndices(s);
  }

  /** The text of a byte string is the one over the alphabet that spells the same number with as many leading ones as there are
      leading zero bytes. */
  lemma EncodedIff(data: Bytes, s: string)
    ensures s == Encoded(data) <==>
              Base58Text(s) && Value(58, Indices(s)) == Value(256, data) && LeadingZeros(Indices(s)) == LeadingZeros(data)
  {
    IndicesOfChars(Rebase(256, 58, data));
    if Base58Text(s) {
      RebaseIff(256, 58, data, Indices(s));
      CharsOfIndices(s);
    } else {
      assert Base58Text(Encoded(data));
    }
  }

  /** `int.from_bytes(data, "big")`. */
  method FromBytes(data: Bytes) returns (num: nat)
    ensures num == Value(256, data)
  {
    num := 0;
    for i := 0 to |data|
      invariant num == Value(256, data[..i])
    {
      TakeSnoc(data, i);
      num := num * 256 + data[i];
    }
    assert data[..|data|] == data;
  }

  /** `num.to_bytes(length, "big")`; a number that does not fit raises, so the caller must leave room. */
  method ToBytes(num: nat, length: nat) returns (data: Bytes)
    requires |Digits(256, num)| <= length
    ensures data == Zeros(length - |Digits(256, num)|) + Digits(256, num)
    ensures length == |Digits(256, num)| ==> data == Digits(256, num)
  {
    data := [];
    var rest := num;
    while rest > 0
      invariant Digits(256, num) == Digits(256, rest) + data
      decreases rest
    {
      Smaller(rest, 256);
      data := [rest % 256] + data;
      rest := rest / 256;
    }
    data := seq(length - |data|, i => 0) + data;
  }

  /** A zero number is spelled by zeros only. */
  lemma ZeroMeansAllZeros(base: nat, ds: seq<nat>)
    requires base >= 2 && DigitsOf(base, ds)
    ensures Value(base, ds) == 0 <==> LeadingZeros(ds) == |ds|
  {
    var k := LeadingZeros(ds);
    assert ds == Zeros(k) + ds[k..];
    LeadingZerosAddNothing(base, k, ds[k..]);
    DigitsOfValue(base, ds[k..]);
  }

  lemma CharsConcat(a: seq<nat>, b: seq<nat>)
    requires DigitsOf(58, a) && DigitsOf(58, b)
    ensures Chars(a + b) == Chars(a) + Chars(b)
  {
  }

  lemma CharsCons(d: nat, ds: seq<nat>)
    requires d < 58 && DigitsOf(58, ds)
    ensures DigitsOf(58, [d] + ds) && Chars([d] + ds) == [CharOf(d)] + Chars(ds)
  {
  }

  /** Python's `"1" * k`. */
  function Ones(k: nat): string { seq(k, i => '1') }

  lemma CharsOfZeros(k: nat)
    ensures Chars(Zeros(k)) == Ones(k)
  {
    AlphabetIsRanged(0);
  }

  method EncodeBase58(data: Bytes) returns (result: string)
    ensures result == Encoded(data)
  {
    var num: nat := FromBytes(data);
    ZeroMeansAllZeros(256, data);
    if num == 0 {
      assert Zeros(|data|) + Digits(58, 0) == Zeros(|data|);
      CharsOfZeros(|data|);
      return Ones(|data|);
    }
    result := DigitChars(num);
    var zeros := LeadingZeros(data);
    CharsOfZeros(zeros);
    CharsConcat(Zeros(zeros), Digits(58, num));
    result := Ones(zeros) + result;
  }

  method DigitChars(whole: nat) returns (result: string)
    ensures result == Chars(Digits(58, whole))
  {
    var num: nat := whole;
    result := "";
    ghost var digits: seq<nat> := [];
    while num > 0
      invariant DigitsOf(58, digits) && result == Chars(digits)
      invariant Digits(58, whole) == Digits(58, num) + digits
      decreases num
    {
      Smaller(num, 58);
      CharsCons(num % 58, digits);
      digits := [num % 58] + digits;
      num, result := num / 58, [CharOf(num % 58)] + result;
    }
  }

  method DecodeBase58(s: string) returns (result: Result<Bytes, DidError>)
    ensures result == Decoded(s)
  {
    var zeros := 0;
    while zeros < |s| && s[zeros] == '1'
      invariant 0 <= zeros <= |s|
      invariant forall i :: 0 <= i < zeros ==> s[i] == '1'
    {
      zeros := zeros + 1;
    }
    var number := ReadNumber(s);
    if number.Err? { return Err(number.error); }
    var num := number.value;
    BytesNeeded(num);
    LeadingOnes(s, zeros);
    var bytes := ToBytes(num, (BitLength(num) + 7) / 8);
    result := Ok(Zeros(zeros) + bytes);
  }

  method ReadNumber(s: string) returns (r: Result<nat, DidError>)
    ensures r == if Base58Text(s) then Ok(Value(58, Indices(s))) else Err(NotBase58)
  {
    var num := 0;
    for i := 0 to |s|
      invariant Base58Text(s[..i]) && num == Value(58, Indices(s[..i]))
    {
      if s[i] !in ALPHABET {
        return Err(NotBase58);
      }
      TakeSnoc(s, i);
      IndicesSnoc(s[..i], s[i]);
      num := num * 58 + IndexOf(s[i]);
    }
    assert s[..|s|] == s;
    r := Ok(num);
  }

  lemma IndicesSnoc(s: string, c: char)
    requires Base58Text(s) && c in ALPHABET
    ensures Base58Text(s + [c]) && Indices(s + [c]) == Indices(s) + [IndexOf(c)]
    ensures Value(58, Indices(s + [c])) == Value(58, Indices(s)) * 58 + IndexOf(c)
  {
    var ds := Indices(s) + [IndexOf(c)];
    assert Base58Text(s + [c]);
    assert Indices(s + [c]) == ds;
    assert ds[..|ds| - 1] == Indices(s);
  }

  /** Leading '1' characters are leading zero digits. */
  lemma LeadingOnes(s: string, zeros: nat)
    requires Base58Text(s) && zeros <= |s|
    requires forall i :: 0 <= i < zeros ==> s[i] == '1'
    requires zeros < |s| ==> s[zeros] != '1'
    ensures LeadingZeros(Indices(s)) == zeros
  {
    var ds := Indices(s);
    AlphabetIsRanged(0);
    IndexOfCharOf(0);
    assert forall i :: 0 <= i < |s| ==> (ds[i] == 0 <==> s[i] == '1');
    assert ds == Zeros(zeros) + ds[zeros..];
    LeadingZerosOf(zeros, ds[zeros..]);
  }

  // ----- did:key -----

  const ED25519_MULTICODEC_PREFIX: Bytes := [0xED, 0x01]

  const DID_KEY := "did:key:"

  /** The part of the document that names the key. */
  datatype Document = Document(id: string, methodId: string, key: Bytes)

  /** A key as the Ed25519 library hands it out. */
  type PublicKey = k: Bytes | |k| == 32 witness seq(32, i => 0)

  function DidOf(key: PublicKey): string { DID_KEY + "z" + Encoded(ED25519_MULTICODEC_PREFIX + key) }

  method CreateDidKey(key: PublicKey) returns (did: string)
    ensures did == DidOf(key)
  {
    var text := EncodeBase58(ED25519_MULTICODEC_PREFIX + key);
    did := DID_KEY + "z" + text;
  }

  /** The longest run of class characters at the front: what the greedy `+` of the pattern takes. */
  function Run(s: string): (r: string)
    ensures |r| <= |s| && r == s[..|r|]
    ensures forall i :: 0 <= i < |r| ==> InClass(r[i])
    ensures |r| < |s| ==> !InClass(s[|r|])
  {
    if s == "" || !InClass(s[0]) then "" else [s[0]] + Run(s[1..])
  }

  /** Python's `s.split(":")[-1]`. */
  function AfterLastColon(s: string): string {
    if s == "" then "" else if s[|s| - 1] == ':' then "" else AfterLastColon(s[..|s| - 1]) + [s[|s| - 1]]
  }

  /** The string ends in a colon and `t`. */
  ghost predicate Ends(s: string, t: string) { exists front: string :: s == front + ":" + t }

  lemma EndsSnoc(s: string, t: string, c: char)
    requires Ends(s, t)
    ensures Ends(s + [c], t + [c])
  {
    var front: string :| s == front + ":" + t;
    assert s + [c] == front + ":" + (t + [c]);
  }

  /** What follows the last colon has none; without a colon it is the whole string. */
  lemma {:induction false} LastColonParts(s: string)
    ensures var t := AfterLastColon(s); ':' !in t && (if ':' in s then Ends(s, t) else t == s)
  {
    if s != "" {
      var n := |s| - 1;
      assert s == s[..n] + [s[n]];
      if s[n] == ':' {
        assert s == s[..n] + ":" + "";
      } else {
        LastColonParts(s[..n]);
        if ':' in s[..n] { EndsSnoc(s[..n], AfterLastColon(s[..n]), s[n]); }
      }
    }
  }

  predicate StartsWith(s: string, prefix: string) { |prefix| <= |s| && s[..|prefix|] == prefix }

  method ResolveDidKey(did: string) returns (r: Result<Document, DidError>)
    ensures r == Resolved(did)
  {
    if !StartsWith(did, DID_KEY) { return Err(NotDidKey); }
    if !StartsWith(did, DID_KEY + "z") { return Err(BadFormat); }
    var multibase := Run(did[|DID_KEY| + 1..]);
    if multibase == "" { return Err(BadFormat); }
    var raw := DecodeBase58(multibase);
    if raw.Err? { return Err(raw.error); }
    var bytes := raw.value;
    if |bytes| < 2 || bytes[..2] != ED25519_MULTICODEC_PREFIX { return Err(WrongPrefix); }
    var key := bytes[2..];
    if |key| != 32 { return Err(WrongKeyLength(|key|)); }
    r := Ok(Document(did, did + "#" + AfterLastColon(did), key));
  }

  function Resolved(did: string): Result<Document, DidError> {
    if !StartsWith(did, DID_KEY) then Err(NotDidKey)
    else if !StartsWith(did, DID_KEY + "z") || Run(did[|DID_KEY| + 1..]) == "" then Err(BadFormat)
    else
      match Decoded(Run(did[|DID_KEY| + 1..]))
      case Err(e) => Err(e)
      case Ok(bytes) =>
        if |bytes| < 2 || bytes[..2] != ED25519_MULTICODEC_PREFIX then Err(WrongPrefix)
        else if |bytes| != 34 then Err(WrongKeyLength(|bytes| - 2))
        else Ok(Document(did, did + "#" + AfterLastColon(did), bytes[2..]))
  }

  lemma RunIsBase58(s: string)
    ensures Base58Text(Run(s))
  {
    forall i | 0 <= i < |Run(s)| ensures Run(s)[i] in ALPHABET { ClassIsAlphabet(Run(s)[i]); }
  }

  predicate AllInClass(s: string) { forall i :: 0 <= i < |s| ==> InClass(s[i]) }

  lemma ClassTextIsBase58(s: string)
    ensures AllInClass(s) <==> Base58Text(s)
  {
    forall i | 0 <= i < |s| ensures InClass(s[i]) <==> s[i] in ALPHABET { ClassIsAlphabet(s[i]); }
  }

  lemma {:induction false} RunOfClass(text: string, junk: string)
    requires AllInClass(text) && (junk != "" ==> !InClass(junk[0]))
    ensures Run(text + junk) == text
  {
    if text != "" {
      assert (text + junk)[1..] == text[1..] + junk;
      RunOfClass(text[1..], junk);
      assert text == [text[0]] + text[1..];
    } else {
      assert "" + junk == junk;
    }
  }

  /** A run of alphabet characters followed by something else is taken whole. */
  lemma RunOf(text: string, junk: string)
    requires Base58Text(text) && (junk != "" ==> !InClass(junk[0]))
    ensures Run(text + junk) == text
  {
    ClassTextIsBase58(text);
    RunOfClass(text, junk);
  }

  /** An identifier resolves to a key exactly when it is that key's own identifier, up to trailing text that the
      pattern leaves unread. */
  lemma ResolvesIff(did: string, key: PublicKey)
    ensures (Resolved(did).Ok? && Resolved(did).value.key == key) <==> exists junk :: OwnThenJunk(did, key, junk)
  {
    if Resolved(did).Ok? && Resolved(did).value.key == key {
      var junk := ResolvedIsOwn(did, key);
    }
    if junk :| OwnThenJunk(did, key, junk) {
      ResolvesBack(key, junk);
    }
  }

  predicate OwnThenJunk(did: string, key: PublicKey, junk: string) {
    did == DidOf(key) + junk && (junk != "" ==> !InClass(junk[0]))
  }

  lemma ResolvedIsOwn(did: string, key: PublicKey) returns (junk: string)
    requires Resolved(did).Ok? && Resolved(did).value.key == key
    ensures OwnThenJunk(did, key, junk)
  {
    var rest := did[|DID_KEY| + 1..];
    var text := Run(rest);
    RunIsBase58(rest);
    EncodeOfDecode(text);
    junk := rest[|text|..];
    PrefixSplit(Decoded(text).value, key);
    assert text == Encoded(ED25519_MULTICODEC_PREFIX + key);
    Rejoined(did, DID_KEY + "z", |text|);
  }

  lemma Rejoined(did: string, prefix: string, n: nat)
    requires StartsWith(did, prefix) && n <= |did| - |prefix|
    ensures did == prefix + did[|prefix|..][..n] + did[|prefix|..][n..]
  {
  }

  lemma PrefixSplit(bytes: Bytes, key: Bytes)
    requires |bytes| >= 2 && bytes[..2] == ED25519_MULTICODEC_PREFIX && bytes[2..] == key
    ensures bytes == ED25519_MULTICODEC_PREFIX + key
  {
    assert bytes == bytes[..2] + bytes[2..];
  }

  lemma ResolvesBack(key: PublicKey, junk: string)
    requires junk != "" ==> !InClass(junk[0])
    ensures Resolved(DidOf(key) + junk).Ok? && Resolved(DidOf(key) + junk).value.key == key
    ensures Resolved(DidOf(key) + junk).value.id == DidOf(key) + junk
  {
    var bytes := ED25519_MULTICODEC_PREFIX + key;
    var text := Encoded(bytes);
    DecodeOfEncode(bytes);
    EncodedNonEmpty(bytes);
    RunOf(text, junk);
    Prefixed(DID_KEY, "z", text + junk);
    assert DidOf(key) + junk == DID_KEY + "z" + (text + junk);
    ResolvedWhen(DID_KEY + "z" + (text + junk), text, key);
  }

  lemma ResolvedWhen(did: string, text: string, key: PublicKey)
    requires StartsWith(did, DID_KEY) && StartsWith(did, DID_KEY + "z")
    requires Run(did[|DID_KEY| + 1..]) == text != ""
    requires Decoded(text) == Ok(ED25519_MULTICODEC_PREFIX + key)
    ensures Resolved(did) == Ok(Document(did, did + "#" + AfterLastColon(did), key))
  {
    assert (ED25519_MULTICODEC_PREFIX + key)[2..] == key;
  }

  lemma Prefixed(a: string, b: string, c: string)
    ensures StartsWith(a + b + c, a) && StartsWith(a + b + c, a + b) && (a + b + c)[|a| + |b|..] == c
  {
  }

  lemma EncodedNonEmpty(data: Bytes)
    requires data != []
    ensures Encoded(data) != ""
  {
    if Encoded(data) == "" {
      DecodeOfEncode(data);
      DecodedEmpty();
    }
  }

  lemma DecodedEmpty()
    ensures Decoded("") == Ok([])
  {
    assert Indices("") == [];
    assert Rebase(58, 256, []) == [];
  }

  /** Making an identifier and resolving it gives the key back, for every 32-byte key. */
  lemma ResolveOfCreate(key: PublicKey)
    ensures Resolved(DidOf(key)).Ok? && Resolved(DidOf(key)).value.key == key && Resolved(DidOf(key)).value.id == DidOf(key)
  {
    assert DidOf(key) + "" == DidOf(key);
    ResolvesBack(key, "");
  }

  /** Different keys have different identifiers. */
  lemma DidsAreDistinct(key: PublicKey, other: PublicKey)
    ensures DidOf(key) == DidOf(other) <==> key == other
  {
    ResolveOfCreate(key);
    ResolveOfCreate(other);
  }

  // ----- identifiers letter by letter -----

  /** What every identifier looks like: the multibase sign z behind the method, and behind it the text of the two bytes
      0xED 0x01 and the key. */
  lemma DidShape(key: PublicKey)
    ensures |DidOf(key)| > 9 && DidOf(key)[..9] == "did:key:z"
    ensures Decoded(DidOf(key)[9..]) == Ok([0xED, 0x01] + key)
  {
    var bytes: Bytes := [0xED, 0x01] + key;
    EncodedNonEmpty(bytes);
    DecodeOfEncode(bytes);
    Prefixed(DID_KEY, "z", Encoded(bytes));
    assert DID_KEY + "z" == "did:key:z";
  }

  /** `text` is the longest non-empty run of class characters behind "did:key:z". */
  predicate MultibaseOf(did: string, text: string) {
    && |did| > 9 && did[..9] == "did:key:z" && text != "" && text <= did[9..]
    && AllInClass(text) && (9 + |text| < |did| ==> !InClass(did[9 + |text|]))
  }

  /** Which identifiers are refused before anything is decoded. */
  lemma FormatErrors(did: string)
    ensures Resolved(did) == Err(NotDidKey) <==> !(|did| >= 8 && did[..8] == "did:key:")
    ensures Resolved(did) == Err(BadFormat) <==> |did| >= 8 && did[..8] == "did:key:" && !exists text :: MultibaseOf(did, text)
    ensures Resolved(did) != Err(NotBase58)
  {
    if |did| >= 8 && did[..8] == "did:key:" {
      if |did| >= 9 && did[8] == 'z' {
        assert did[..9] == "did:key:z";
        RunIsBase58(did[9..]);
        if Run(did[9..]) != "" { assert MultibaseOf(did, Run(did[9..])); }
        if text :| MultibaseOf(did, text) { assert did[9] == text[0]; }
      } else {
        assert |did| >= 9 ==> did[..9][8] == did[8];
      }
    }
  }

  lemma MultibaseIsRun(did: string, text: string)
    requires MultibaseOf(did, text)
    ensures Run(did[9..]) == text && Base58Text(text)
  {
    var junk := did[9 + |text|..];
    assert did[9..] == text + junk;
    RunOfClass(text, junk);
    ClassTextIsBase58(text);
  }

  lemma LastPart(did: string)
    requires ':' in did
    ensures ':' !in AfterLastColon(did) && Ends(did, AfterLastColon(did))
  {
    LastColonParts(did);
  }

  lemma HasColon(did: string)
    requires |did| > 9 && did[..9] == "did:key:z"
    ensures ':' in did
  {
    assert did[3] == did[..9][3];
    assert "did:key:z"[3] == ':';
  }

  lemma DidPrefix(did: string)
    requires |did| > 9 && did[..9] == "did:key:z"
    ensures StartsWith(did, DID_KEY) && StartsWith(did, DID_KEY + "z") && |DID_KEY| == 8
  {
    assert did[..8] == did[..9][..8];
  }

  lemma ResolvedAs(did: string, text: string)
    requires MultibaseOf(did, text)
    ensures Decoded(text).Ok?
    ensures var bytes := Decoded(text).value;
      Resolved(did) == if |bytes| < 2 || bytes[..2] != [0xED, 0x01] then Err(WrongPrefix)
                       else if |bytes| != 34 then Err(WrongKeyLength(|bytes| - 2))
                       else Ok(Document(did, did + "#" + AfterLastColon(did), bytes[2..]))
  {
    MultibaseIsRun(did, text);
    DidPrefix(did);
  }

  /** What decides about an identifier of the right format, and what its document says. */
  lemma ResolvedByText(did: string, text: string)
    requires MultibaseOf(did, text)
    ensures Decoded(text).Ok?
    ensures var bytes := Decoded(text).value;
      && (Resolved(did) == Err(WrongPrefix) <==> !Keyed(bytes))
      && (forall n :: Resolved(did) == Err(WrongKeyLength(n)) <==> Keyed(bytes) && n == |bytes| - 2 && n != 32)
      && (Resolved(did).Ok? <==> Keyed(bytes) && |bytes| == 34)
      && (Resolved(did).Ok? ==> Resolved(did).value.id == did && Resolved(did).value.key == bytes[2..]
                                && exists t :: ':' !in t && Ends(did, t) && Resolved(did).value.methodId == did + "#" + t)
  {
    ResolvedAs(did, text);
    HasColon(did);
    LastPart(did);
    var bytes := Decoded(text).value;
    if |bytes| >= 2 { assert bytes[..2] == [bytes[0], bytes[1]]; }
  }

  /** The bytes begin with the code of an Ed25519 key. */
  predicate Keyed(bytes: Bytes) { |bytes| >= 2 && bytes[0] == 0xED && bytes[1] == 0x01 }

}
