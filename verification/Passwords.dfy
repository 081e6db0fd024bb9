/**
 Encoded password hashes (core/password/password.go): the text layer as a parser and a
 printer that are inverse to one another, the bounds on parameters, and a hasher. The key
 derivation is any function that returns keys of the length asked for. A text is a sequence
 of bytes, one character each.
 */
module Passwords {
  import opened Base64
  import opened Decimals
  import opened Splitting

  const MAX_PASSWORD_BYTES := 0x10_0000
  const MAX_ENCODED_BYTES := 512
  const MAX_VERIFY_MEMORY := 64 * 1024
  const MAX_VERIFY_WORK := 256 * 1024

  type U32 = n: int | 0 <= n < 0x1_0000_0000

  type U8 = n: int | 0 <= n < 256

  datatype Params = Params(memory: U32, iterations: U32, parallelism: U8, saltLength: U32, keyLength: U32)

  type Bytes = seq<Byte>

  // ---------------------------------------------------------------------------- bounds

  predicate StrongProfile(memory: int, iterations: int)
  {
    if iterations == 1 then memory >= 46 * 1024
    else if iterations == 2 then memory >= 19 * 1024
    else if iterations == 3 then memory >= 12 * 1024
    else if iterations == 4 then memory >= 9 * 1024
    else memory >= 7 * 1024
  }

  /** validateGenerationParams */
  predicate MayGenerate(p: Params)
  {
    && 1 <= p.parallelism <= 16 && p.memory <= MAX_VERIFY_MEMORY && 1 <= p.iterations <= 10
    && p.memory * p.iterations <= MAX_VERIFY_WORK && StrongProfile(p.memory, p.iterations)
    && 16 <= p.saltLength <= 48 && 16 <= p.keyLength <= 64
  }

  /** validateVerificationParams */
  predicate MayVerify(p: Params)
  {
    && 1 <= p.parallelism <= 16 && 8 * p.parallelism <= p.memory <= MAX_VERIFY_MEMORY && 1 <= p.iterations <= 10
    && p.memory * p.iterations <= MAX_VERIFY_WORK
    && 8 <= p.saltLength <= 48 && 12 <= p.keyLength <= 64
  }

  lemma GenerationImpliesVerification(p: Params)
    requires MayGenerate(p)
    ensures MayVerify(p)
  {
    assert p.memory >= 7 * 1024;
  }

  // ------------------------------------------------------------------------ parameters

  datatype Cost = Cost(memory: U32, iterations: U32, parallelism: U8)

  function PrintParameter(name: char, value: nat): string
  {
    [name, '='] + Digits(value)
  }

  /** Only the numeral that would be printed is accepted: no leading zeros, no sign. */
  function ParseParameter(text: string, name: char, max: nat): (value: Option<nat>)
    ensures value.Some? ==> value.value <= max
  {
    if |text| < 2 || text[0] != name || text[1] != '=' then None
    else if !IsNumeral(text[2..]) || Value(text[2..]) > max || Digits(Value(text[2..])) != text[2..] then None
    else Some(Value(text[2..]))
  }

  lemma ParameterRoundTrip(name: char, value: nat, max: nat)
    requires value <= max
    ensures ParseParameter(PrintParameter(name, value), name, max) == Some(value)
  {
    assert PrintParameter(name, value)[2..] == Digits(value);
    ValueOfDigits(value);
  }

  lemma ParameterCanonical(text: string, name: char, max: nat)
    requires ParseParameter(text, name, max).Some?
    ensures PrintParameter(name, ParseParameter(text, name, max).value) == text
  {
    assert text == [text[0], text[1]] + text[2..];
  }

  /** Accepted are exactly the numerals in range without leading zeros. */
  lemma ParameterAccepts(text: string, name: char, max: nat)
    ensures ParseParameter(text, name, max).Some?
            <==> && |text| >= 3 && text[0] == name && text[1] == '=' && IsNumeral(text[2..])
                 && (|text| == 3 || text[2] != '0') && Value(text[2..]) <= max
  {
    if |text| >= 3 && IsNumeral(text[2..]) {
      DigitsOfValue(text[2..]);
    }
  }

  function PrintCost(c: Cost): string
  {
    Join([PrintParameter('m', c.memory), PrintParameter('t', c.iterations), PrintParameter('p', c.parallelism)], ',')
  }

  function ParseCost(text: string): Option<Cost>
  {
    var parts := Split(text, ',');
    if |parts| != 3 then None
    else
      var memory := ParseParameter(parts[0], 'm', 0xffff_ffff);
      var iterations := ParseParameter(parts[1], 't', 0xffff_ffff);
      var parallelism := ParseParameter(parts[2], 'p', 255);
      if memory.Some? && iterations.Some? && parallelism.Some?
      then Some(Cost(memory.value, iterations.value, parallelism.value)) else None
  }

  lemma CostRoundTrip(c: Cost)
    ensures ParseCost(PrintCost(c)) == Some(c)
  {
    var parts := [PrintParameter('m', c.memory), PrintParameter('t', c.iterations), PrintParameter('p', c.parallelism)];
    SplitJoin(parts, ',');
    ParameterRoundTrip('m', c.memory, 0xffff_ffff);
    ParameterRoundTrip('t', c.iterations, 0xffff_ffff);
    ParameterRoundTrip('p', c.parallelism, 255);
  }

  lemma CostCanonical(text: string)
    requires ParseCost(text).Some?
    ensures PrintCost(ParseCost(text).value) == text
  {
    var parts := Split(text, ',');
    JoinSplit(text, ',');
    ParameterCanonical(parts[0], 'm', 0xffff_ffff);
    ParameterCanonical(parts[1], 't', 0xffff_ffff);
    ParameterCanonical(parts[2], 'p', 255);
    var c := ParseCost(text).value;
    assert parts == [PrintParameter('m', c.memory), PrintParameter('t', c.iterations), PrintParameter('p', c.parallelism)];
  }

  lemma CostText(c: Cost)
    ensures '$' !in PrintCost(c) && |PrintCost(c)| <= 31
  {
    assert Pow10(5) == 100_000 && Pow10(10) == 10_000_000_000 && Pow10(3) == 1000;
    DigitsShort(c.memory, 10);
    DigitsShort(c.iterations, 10);
    DigitsShort(c.parallelism, 3);
    var m, t, p := PrintParameter('m', c.memory), PrintParameter('t', c.iterations), PrintParameter('p', c.parallelism);
    assert PrintCost(c) == m + [','] + (t + [','] + p);
  }

  // ---------------------------------------------------------------------------- hashes

  datatype Parsed = Parsed(params: Params, salt: Bytes, key: Bytes) | Invalid

  function Fields(cost: Cost, salt: Bytes, key: Bytes): seq<string>
  {
    ["", "argon2id", "v=19", PrintCost(cost), Encode(salt), Encode(key)]
  }

  function CostOf(p: Params): Cost
  {
    Cost(p.memory, p.iterations, p.parallelism)
  }

  function Print(p: Params, salt: Bytes, key: Bytes): string
  {
    Join(Fields(CostOf(p), salt, key), '$')
  }

  /** parseHash after the text is split */
  function ParseFields(fields: seq<string>): Parsed
  {
    if |fields| != 6 || fields[0] != "" || fields[1] != "argon2id" || fields[2] != "v=19" then Invalid
    else if ParseCost(fields[3]).None? || |fields[4]| > 88 || |fields[5]| > 88 then Invalid
    else if Decode(fields[4]).None? || Decode(fields[5]).None? then Invalid
    else
      var cost, salt, key := ParseCost(fields[3]).value, Decode(fields[4]).value, Decode(fields[5]).value;
      var params := Params(cost.memory, cost.iterations, cost.parallelism, |salt|, |key|);
      if MayVerify(params) then Parsed(params, salt, key) else Invalid
  }

  function Parse(encoded: string): Parsed
  {
    if encoded == "" || |encoded| > MAX_ENCODED_BYTES then Invalid
    else ParseFields(Split(encoded, '$'))
  }

  predicate Valid(p: Params, salt: Bytes, key: Bytes)
  {
    MayVerify(p) && |salt| == p.saltLength && |key| == p.keyLength
  }

  lemma FieldsRoundTrip(p: Params, salt: Bytes, key: Bytes)
    requires Valid(p, salt, key)
    ensures ParseFields(Fields(CostOf(p), salt, key)) == Parsed(p, salt, key)
  {
    CostRoundTrip(CostOf(p));
    DecodeEncode(salt);
    DecodeEncode(key);
  }

  lemma FieldsText(cost: Cost, salt: Bytes, key: Bytes, i: int)
    requires 0 <= i < 6
    ensures '$' !in Fields(cost, salt, key)[i]
  {
    CostText(cost);
    DecodeEncode(salt);
    DecodeEncode(key);
    assert !IsLetter('$');
  }

  lemma PrintShort(p: Params, salt: Bytes, key: Bytes)
    requires |salt| <= 48 && |key| <= 64
    ensures 0 < |Print(p, salt, key)| <= MAX_ENCODED_BYTES
  {
    CostText(CostOf(p));
    var f := Fields(CostOf(p), salt, key);
    JoinLength(f, '$');
    TotalOfSix(f);
  }

  lemma TotalOfSix(parts: seq<string>)
    requires |parts| == 6
    ensures TotalLength(parts) == |parts[0]| + |parts[1]| + |parts[2]| + |parts[3]| + |parts[4]| + |parts[5]|
  {
    var rest := parts[1..][1..][1..];
    assert TotalLength(parts) == |parts[0]| + TotalLength(parts[1..]);
    assert TotalLength(parts[1..]) == |parts[1]| + TotalLength(parts[1..][1..]);
    assert TotalLength(parts[1..][1..]) == |parts[2]| + TotalLength(rest);
    assert TotalLength(rest) == |rest[0]| + TotalLength(rest[1..]);
    assert TotalLength(rest[1..]) == |rest[1]| + TotalLength(rest[1..][1..]);
    assert TotalLength(rest[1..][1..]) == |rest[2]|;
  }

  /** Parsing a printed hash returns the same parameters, salt and key. */
  lemma ParsePrint(p: Params, salt: Bytes, key: Bytes)
    requires Valid(p, salt, key)
    ensures Parse(Print(p, salt, key)) == Parsed(p, salt, key)
  {
    var fields := Fields(CostOf(p), salt, key);
    forall i | 0 <= i < |fields|
      ensures '$' !in fields[i]
    {
      FieldsText(CostOf(p), salt, key, i);
    }
    SplitJoin(fields, '$');
    PrintShort(p, salt, key);
    FieldsRoundTrip(p, salt, key);
  }

  /** Whatever is accepted is the one text that is printed for it. */
  lemma PrintParse(encoded: string)
    requires Parse(encoded).Parsed?
    ensures var h := Parse(encoded); Valid(h.params, h.salt, h.key) && Print(h.params, h.salt, h.key) == encoded
  {
    JoinSplit(encoded, '$');
    FieldsValid(Split(encoded, '$'));
    FieldsCanonical(Split(encoded, '$'));
  }

  lemma FieldsValid(fields: seq<string>)
    requires ParseFields(fields).Parsed?
    ensures var h := ParseFields(fields); Valid(h.params, h.salt, h.key)
    ensures |fields| == 6 && ParseCost(fields[3]).Some? && Decode(fields[4]).Some? && Decode(fields[5]).Some?
    ensures var h := ParseFields(fields);
            CostOf(h.params) == ParseCost(fields[3]).value && h.salt == Decode(fields[4]).value && h.key == Decode(fields[5]).value
    ensures fields[0] == "" && fields[1] == "argon2id" && fields[2] == "v=19"
  {
  }

  lemma FieldsCanonical(fields: seq<string>)
    requires ParseFields(fields).Parsed?
    ensures var h := ParseFields(fields); fields == Fields(CostOf(h.params), h.salt, h.key)
  {
    FieldsValid(fields);
    CostCanonical(fields[3]);
    EncodeDecode(fields[4]);
    EncodeDecode(fields[5]);
    var h := ParseFields(fields);
    FieldsFrom(fields, CostOf(h.params), h.salt, h.key);
  }

  lemma FieldsFrom(fields: seq<string>, cost: Cost, salt: Bytes, key: Bytes)
    requires |fields| == 6 && fields[0] == "" && fields[1] == "argon2id" && fields[2] == "v=19"
    requires fields[3] == PrintCost(cost) && fields[4] == Encode(salt) && fields[5] == Encode(key)
    ensures fields == Fields(cost, salt, key)
  {
    SameFields(fields, Fields(cost, salt, key));
  }

  lemma SameFields(a: seq<string>, b: seq<string>)
    requires |a| == |b| == 6
    requires a[0] == b[0] && a[1] == b[1] && a[2] == b[2] && a[3] == b[3] && a[4] == b[4] && a[5] == b[5]
    ensures a == b
  {
  }

  // ---------------------------------------------------------------------------- hasher

  /** Password, salt, iterations, memory, parallelism and key length to a key. */
  type Derivation = (Bytes, Bytes, U32, U32, U8, U32) -> Bytes

  ghost predicate Derives(kdf: Derivation)
  {
    forall password, salt, iterations, memory, parallelism, length ::
      |kdf(password, salt, iterations, memory, parallelism, length)| == length
  }

  function KeyOf(kdf: Derivation, p: Params, password: Bytes, salt: Bytes): Bytes
  {
    kdf(password, salt, p.iterations, p.memory, p.parallelism, p.keyLength)
  }

  datatype Result<T> = Ok(value: T) | TooLong | InvalidHash

  function Verdict(kdf: Derivation, password: Bytes, encoded: string): Result<bool>
  {
    if |password| > MAX_PASSWORD_BYTES then TooLong
    else
      match Parse(encoded)
      case Invalid => InvalidHash
      case Parsed(params, salt, key) => Ok(KeyOf(kdf, params, password, salt) == key)
  }

  function Outdated(params: Params, encoded: string): Result<bool>
  {
    match Parse(encoded)
    case Invalid => InvalidHash
    case Parsed(stored, _, _) => Ok(stored != params)
  }

  /** Whoever made it, a hash verifies the password it was made from, and only passwords that derive the same key. */
  lemma VerifiesItsPassword(kdf: Derivation, p: Params, password: Bytes, salt: Bytes, other: Bytes)
    requires Derives(kdf) && MayGenerate(p) && |salt| == p.saltLength
    requires |password| <= MAX_PASSWORD_BYTES && |other| <= MAX_PASSWORD_BYTES
    ensures var encoded := Print(p, salt, KeyOf(kdf, p, password, salt));
            && Verdict(kdf, password, encoded) == Ok(true)
            && (Verdict(kdf, other, encoded) == Ok(true) <==> KeyOf(kdf, p, other, salt) == KeyOf(kdf, p, password, salt))
            && (Verdict(kdf, other, encoded) == Ok(true) || Verdict(kdf, other, encoded) == Ok(false))
  {
    GenerationImpliesVerification(p);
    ParsePrint(p, salt, KeyOf(kdf, p, password, salt));
  }

  /** A hasher asks for a new hash exactly when the old one was made with other parameters. */
  lemma RehashesOthersOnly(kdf: Derivation, p: Params, mine: Params, password: Bytes, salt: Bytes)
    requires Derives(kdf) && MayGenerate(p) && |salt| == p.saltLength
    ensures Outdated(mine, Print(p, salt, KeyOf(kdf, p, password, salt))) == Ok(p != mine)
  {
    GenerationImpliesVerification(p);
    ParsePrint(p, salt, KeyOf(kdf, p, password, salt));
  }

  method Clear(buffer: array<Byte>)
    modifies buffer
    ensures forall i :: 0 <= i < buffer.Length ==> buffer[i] == 0
  {
    for i := 0 to buffer.Length
      invariant forall j :: 0 <= j < i ==> buffer[j] == 0
    {
      buffer[i] := 0;
    }
  }

  /** Arbitrary bytes. */
  method FillRandom(buffer: array<Byte>)
    modifies buffer
  {
    for i := 0 to buffer.Length {
      var b: Byte := *;
      buffer[i] := b;
    }
  }

  method Equal(a: array<Byte>, b: array<Byte>) returns (equal: bool)
    ensures equal <==> a[..] == b[..]
  {
    if a.Length != b.Length {
      return false;
    }
    equal := true;
    for i := 0 to a.Length
      invariant equal <==> a[..i] == b[..i]
    {
      assert a[..i + 1] == a[..i] + [a[i]] && b[..i + 1] == b[..i] + [b[i]];
      equal := equal && a[i] == b[i];
    }
    assert a[..a.Length] == a[..] && b[..b.Length] == b[..];
  }

  method Buffer(bytes: Bytes) returns (buffer: array<Byte>)
    ensures fresh(buffer) && buffer[..] == bytes
  {
    buffer := new Byte[|bytes|](i requires 0 <= i < |bytes| => bytes[i]);
  }

  class Hasher {
    const params: Params
    const kdf: Derivation

    ghost predicate Usable()
    {
      MayGenerate(params) && Derives(kdf)
    }

    constructor (params: Params, kdf: Derivation)
      requires MayGenerate(params) && Derives(kdf)
      ensures Usable() && this.params == params && this.kdf == kdf
    {
      this.params, this.kdf := params, kdf;
    }

    /** A hash with a random salt, which this hasher verifies and does not ask to replace. */
    method Hash(password: Bytes) returns (encoded: Result<string>)
      requires Usable()
      ensures encoded.TooLong? <==> |password| > MAX_PASSWORD_BYTES
      ensures !encoded.InvalidHash?
      ensures encoded.Ok? ==>
                exists salt: Bytes :: |salt| == params.saltLength
                                      && encoded.value == Print(params, salt, KeyOf(kdf, params, password, salt))
      ensures encoded.Ok? ==> Verdict(kdf, password, encoded.value) == Ok(true) && Outdated(params, encoded.value) == Ok(false)
    {
      if |password| > MAX_PASSWORD_BYTES {
        return TooLong;
      }
      var salt := new Byte[params.saltLength];
      FillRandom(salt);
      var key := Buffer(kdf(password, salt[..], params.iterations, params.memory, params.parallelism, params.keyLength));
      var text := Print(params, salt[..], key[..]);
      VerifiesItsPassword(kdf, params, password, salt[..], password);
      RehashesOthersOnly(kdf, params, params, password, salt[..]);
      encoded := Ok(text);
      ghost var used := salt[..];
      assert text == Print(params, used, KeyOf(kdf, params, password, used));
      Clear(key);
      Clear(salt);
    }

    method Verify(password: Bytes, encoded: string) returns (result: Result<bool>)
      ensures result == Verdict(kdf, password, encoded)
    {
      if |password| > MAX_PASSWORD_BYTES {
        return TooLong;
      }
      var parsed := Parse(encoded);
      if parsed.Invalid? {
        return InvalidHash;
      }
      var salt := Buffer(parsed.salt);
      var want := Buffer(parsed.key);
      var got := Buffer(KeyOf(kdf, parsed.params, password, salt[..]));
      var same := Equal(got, want);
      Clear(got);
      Clear(want);
      Clear(salt);
      result := Ok(same);
    }

    method NeedsRehash(encoded: string) returns (result: Result<bool>)
      ensures result == Outdated(params, encoded)
    {
      var parsed := Parse(encoded);
      if parsed.Invalid? {
        return InvalidHash;
      }
      result := Ok(parsed.params != params);
    }
  }
}
