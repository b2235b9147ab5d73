/**
 The printed form of an Argon2id password hash and its parser. The key derivation itself is a parameter: a
 function of the password, the salt and the cost parameters that returns as many bytes as it was asked for.
 Scanning follows Go's fmt.Sscanf: the format's letters must match exactly, blanks may precede a number, and
 whatever follows the last number is ignored.
 */
module PasswordHash {
  import opened Common
  import opened Text
  import opened Base64

  const ARGON_TIME := 3
  const ARGON_MEMORY := 64 * 1024
  const ARGON_THREADS := 2
  const ARGON_KEY_LEN := 32
  const ARGON_VERSION := 19

  const TWO_8 := 0x100
  const TWO_32 := 0x1_0000_0000
  const TWO_63 := 0x8000_0000_0000_0000

  datatype Error = InvalidHash | IncompatibleVersion
  datatype Result<+T> = Ok(value: T) | Err(error: Error)
  datatype Params = Params(memory: int, time: int, threads: int, keyLen: int)
  datatype Decoded = Decoded(params: Params, salt: seq<Byte>, hash: seq<Byte>)

  // ---- Scanning -------------------------------------------------------------------------------------------------

  datatype Scan = Failed | Scanned(number: int, rest: string)

  predicate IsBlank(c: char) {
    c as int in {9, 11, 12, 13, 32}
  }

  function SkipBlanks(s: string): string {
    if s != "" && IsBlank(s[0]) then SkipBlanks(s[1..]) else s
  }

  function AfterLiteral(s: string, literal: string): Option<string> {
    if literal <= s then Some(s[|literal|..]) else None
  }

  /** %d into an unsigned variable that holds numbers below `limit`. */
  function ScanUint(s: string, limit: nat): (r: Scan)
    ensures r.Scanned? ==> 0 <= r.number < limit
  {
    var t := SkipBlanks(s);
    var n := LeadingDigits(t);
    if n == 0 || ValueOf(t[..n]) >= limit then Failed else Scanned(ValueOf(t[..n]), t[n..])
  }

  /** %d into a signed 64-bit variable. */
  function ScanInt(s: string): Scan {
    var t := SkipBlanks(s);
    var signed := t != "" && (t[0] == '+' || t[0] == '-');
    var u := if signed then t[1..] else t;
    var n := LeadingDigits(u);
    var v: int := if signed && t[0] == '-' then 0 - ValueOf(u[..n]) else ValueOf(u[..n]);
    if n == 0 || v < -TWO_63 || v >= TWO_63 then Failed else Scanned(v, u[n..])
  }

  function ScanVersion(s: string): Scan {
    match AfterLiteral(s, "v=")
    case None => Failed
    case Some(t) => ScanInt(t)
  }

  function ScanField(s: string, literal: string, limit: nat): (r: Scan)
    ensures r.Scanned? ==> 0 <= r.number < limit
  {
    match AfterLiteral(s, literal)
    case None => Failed
    case Some(t) => ScanUint(t, limit)
  }

  /** m=%d,t=%d,p=%d into two 32-bit variables and an 8-bit one. */
  function ScanParams(s: string): (r: Option<(int, int, int)>)
    ensures r.Some? ==> 0 <= r.value.0 < TWO_32 && 0 <= r.value.1 < TWO_32 && 0 <= r.value.2 < TWO_8
  {
    var m := ScanField(s, "m=", TWO_32);
    if m.Failed? then None
    else
      var t := ScanField(m.rest, ",t=", TWO_32);
      if t.Failed? then None
      else
        var p := ScanField(t.rest, ",p=", TWO_8);
        if p.Failed? then None else Some((m.number, t.number, p.number))
  }

  lemma ScanUintOfDecimal(n: nat, rest: string, limit: nat)
    requires n < limit && (rest == "" || !IsDigit(rest[0]))
    ensures ScanUint(Decimal(n) + rest, limit) == Scanned(n, rest)
  {
    var s := Decimal(n) + rest;
    assert IsDigit(s[0]) && SkipBlanks(s) == s;
    LeadingDigitsOf(Decimal(n), rest);
    ValueOfDecimal(n);
    assert s[..|Decimal(n)|] == Decimal(n) && s[|Decimal(n)|..] == rest;
  }

  lemma ScanFieldOfDecimal(literal: string, n: nat, rest: string, limit: nat)
    requires n < limit && (rest == "" || !IsDigit(rest[0]))
    ensures ScanField(literal + Decimal(n) + rest, literal, limit) == Scanned(n, rest)
  {
    assert (literal + Decimal(n) + rest)[|literal|..] == Decimal(n) + rest;
    ScanUintOfDecimal(n, rest, limit);
  }

  lemma ScanVersionOfDecimal(n: nat)
    requires n < TWO_63
    ensures ScanVersion("v=" + Decimal(n)) == Scanned(n, "")
  {
    var s := Decimal(n);
    assert ("v=" + s)[2..] == s;
    assert IsDigit(s[0]) && SkipBlanks(s) == s;
    LeadingDigitsOf(s, "");
    assert s + "" == s && s[..|s|] == s;
    ValueOfDecimal(n);
  }

  // ---- Printing and parsing ----------------------------------------------------------------------------------------

  function ParamsText(memory: nat, time: nat, threads: nat): string {
    "m=" + Decimal(memory) + (",t=" + Decimal(time) + (",p=" + Decimal(threads)))
  }

  /** $argon2id$v=19$m=65536,t=3,p=2$<salt>$<hash> */
  function Format(memory: nat, time: nat, threads: nat, salt: seq<Byte>, hash: seq<Byte>): string {
    "" + "$" + ("argon2id" + "$" + ("v=" + Decimal(ARGON_VERSION) + "$" +
      (ParamsText(memory, time, threads) + "$" + (Encode(salt) + "$" + Encode(hash)))))
  }

  function DecodeHash(encoded: string): Result<Decoded> {
    DecodeParts(Split(encoded, '$'))
  }

  function DecodeParts(parts: seq<string>): Result<Decoded> {
    if |parts| != 6 || parts[1] != "argon2id" then Err(InvalidHash)
    else
      var version := ScanVersion(parts[2]);
      if version.Failed? then Err(InvalidHash)
      else if version.number != ARGON_VERSION then Err(IncompatibleVersion)
      else
        var params, salt, hash := ScanParams(parts[3]), Base64.Decode(parts[4]), Base64.Decode(parts[5]);
        if params.None? || salt.None? || hash.None? then Err(InvalidHash)
        else
          var (memory, time, threads) := params.value;
          Ok(Decoded(Params(memory, time, threads, |hash.value| % TWO_32), salt.value, hash.value))
  }

  type Kdf = (string, seq<Byte>, int, int, int, int) -> seq<Byte>

  function HashPassword(password: string, salt: seq<Byte>, kdf: Kdf): string {
    Format(ARGON_MEMORY, ARGON_TIME, ARGON_THREADS, salt,
           kdf(password, salt, ARGON_TIME, ARGON_MEMORY, ARGON_THREADS, ARGON_KEY_LEN))
  }

  function VerifyPassword(password: string, encoded: string, kdf: Kdf): Result<bool> {
    match DecodeHash(encoded)
    case Err(e) => Err(e)
    case Ok(d) => Ok(d.hash == kdf(password, d.salt, d.params.time, d.params.memory, d.params.threads, d.params.keyLen))
  }

  // ---- The round trip -----------------------------------------------------------------------------------------------

  lemma DigitsAreFree(s: string)
    requires AllDigits(s)
    ensures Free(s, '$')
  {
  }

  lemma LettersAreFree(bs: seq<Byte>)
    ensures Free(Encode(bs), '$')
  {
    EncodeIsLetters(bs);
  }

  lemma ScanParamsOfText(memory: nat, time: nat, threads: nat)
    requires memory < TWO_32 && time < TWO_32 && threads < TWO_8
    ensures ScanParams(ParamsText(memory, time, threads)) == Some((memory, time, threads))
  {
    var p := ",p=" + Decimal(threads);
    var t := ",t=" + Decimal(time) + p;
    ScanFieldOfDecimal("m=", memory, t, TWO_32);
    ScanFieldOfDecimal(",t=", time, p, TWO_32);
    assert p == ",p=" + Decimal(threads) + "";
    ScanFieldOfDecimal(",p=", threads, "", TWO_8);
    assert ParamsText(memory, time, threads) == "m=" + Decimal(memory) + t;
  }

  lemma FreeConcat(a: string, b: string)
    requires Free(a, '$') && Free(b, '$')
    ensures Free(a + b, '$')
  {
  }

  lemma ParamsTextFree(memory: nat, time: nat, threads: nat)
    ensures Free(ParamsText(memory, time, threads), '$')
  {
    DigitsAreFree(Decimal(memory));
    DigitsAreFree(Decimal(time));
    DigitsAreFree(Decimal(threads));
    var p := ",p=" + Decimal(threads);
    FreeConcat(",p=", Decimal(threads));
    FreeConcat(",t=", Decimal(time));
    FreeConcat(",t=" + Decimal(time), p);
    FreeConcat("m=", Decimal(memory));
    FreeConcat("m=" + Decimal(memory), ",t=" + Decimal(time) + p);
  }

  lemma SplitPair(a: string, rest: string)
    requires Free(a, '$')
    ensures Split(a + "$" + rest, '$') == [a] + Split(rest, '$')
  {
    SplitFree(a, '$');
    SplitConcat(a, rest, '$');
  }

  lemma SplitFive(a: string, b: string, c: string, d: string, e: string)
    requires Free(a, '$') && Free(b, '$') && Free(c, '$') && Free(d, '$') && Free(e, '$')
    ensures Split("" + "$" + (a + "$" + (b + "$" + (c + "$" + (d + "$" + e)))), '$') == ["", a, b, c, d, e]
  {
    SplitFree(e, '$');
    SplitPair(d, e);
    SplitPair(c, d + "$" + e);
    SplitPair(b, c + "$" + (d + "$" + e));
    SplitPair(a, b + "$" + (c + "$" + (d + "$" + e)));
    SplitPair("", a + "$" + (b + "$" + (c + "$" + (d + "$" + e))));
  }

  /** No part of the printed form contains the separator, so it has exactly its six parts. */
  lemma FormatParts(memory: nat, time: nat, threads: nat, salt: seq<Byte>, hash: seq<Byte>)
    ensures Split(Format(memory, time, threads, salt, hash), '$')
         == ["", "argon2id", "v=" + Decimal(ARGON_VERSION), ParamsText(memory, time, threads),
             Encode(salt), Encode(hash)]
  {
    var v, ps := "v=" + Decimal(ARGON_VERSION), ParamsText(memory, time, threads);
    ParamsTextFree(memory, time, threads);
    DigitsAreFree(Decimal(ARGON_VERSION));
    FreeConcat("v=", Decimal(ARGON_VERSION));
    LettersAreFree(salt);
    LettersAreFree(hash);
    SplitFive("argon2id", v, ps, Encode(salt), Encode(hash));
  }

  lemma DecodeOfParts(version: string, params: string, salt: string, hash: string, m: nat, t: nat, p: nat,
        s: seq<Byte>, h: seq<Byte>)
    requires ScanVersion(version) == Scanned(ARGON_VERSION, "") && ScanParams(params) == Some((m, t, p))
    requires Base64.Decode(salt) == Some(s) && Base64.Decode(hash) == Some(h)
    ensures DecodeParts(["", "argon2id", version, params, salt, hash])
      == Ok(Decoded(Params(m, t, p, |h| % TWO_32), s, h))
  {
  }

  /** Main result: parsing undoes printing, for all parameters that fit their variables and all byte strings. */
  lemma DecodeInvertsFormat(memory: nat, time: nat, threads: nat, salt: seq<Byte>, hash: seq<Byte>)
    requires memory < TWO_32 && time < TWO_32 && threads < TWO_8
    ensures DecodeHash(Format(memory, time, threads, salt, hash))
         == Ok(Decoded(Params(memory, time, threads, |hash| % TWO_32), salt, hash))
  {
    FormatParts(memory, time, threads, salt, hash);
    ScanVersionOfDecimal(ARGON_VERSION);
    ScanParamsOfText(memory, time, threads);
    DecodeOfEncode(salt);
    DecodeOfEncode(hash);
    DecodeOfParts("v=" + Decimal(ARGON_VERSION), ParamsText(memory, time, threads), Encode(salt), Encode(hash),
                  memory, time, threads, salt, hash);
  }

  /** Whatever the parser accepts, printing its result gives a text the parser reads the same way. */
  lemma AcceptedHasNormalForm(encoded: string)
    requires DecodeHash(encoded).Ok?
    ensures var d := DecodeHash(encoded).value;
            && 0 <= d.params.memory < TWO_32 && 0 <= d.params.time < TWO_32 && 0 <= d.params.threads < TWO_8
            && DecodeHash(Format(d.params.memory, d.params.time, d.params.threads, d.salt, d.hash)) == Ok(d)
  {
    var d := DecodeHash(encoded).value;
    DecodeInvertsFormat(d.params.memory, d.params.time, d.params.threads, d.salt, d.hash);
  }

  ghost predicate KeepsLength(kdf: Kdf) {
    forall password, salt, time, memory, threads, keyLen: nat ::
      |kdf(password, salt, time, memory, threads, keyLen)| == keyLen
  }

  /** A stored hash accepts exactly the passwords that derive the same key, and so the one it was made from. */
  lemma VerifyOfHashed(password: string, attempt: string, salt: seq<Byte>, kdf: Kdf)
    requires KeepsLength(kdf)
    ensures VerifyPassword(attempt, HashPassword(password, salt, kdf), kdf)
         == Ok(kdf(password, salt, ARGON_TIME, ARGON_MEMORY, ARGON_THREADS, ARGON_KEY_LEN)
               == kdf(attempt, salt, ARGON_TIME, ARGON_MEMORY, ARGON_THREADS, ARGON_KEY_LEN))
    ensures VerifyPassword(password, HashPassword(password, salt, kdf), kdf) == Ok(true)
  {
    var hash := kdf(password, salt, ARGON_TIME, ARGON_MEMORY, ARGON_THREADS, ARGON_KEY_LEN);
    assert |hash| == ARGON_KEY_LEN;
    DecodeInvertsFormat(ARGON_MEMORY, ARGON_TIME, ARGON_THREADS, salt, hash);
  }

  lemma DecimalStep(n: nat, high: string, c: char)
    requires n >= 10 && Decimal(n / 10) == high && c == DigitChar(n % 10)
    ensures Decimal(n) == high + [c]
  {
  }

  lemma DefaultMemory()
    ensures Decimal(ARGON_MEMORY) == "65536"
  {
    DecimalStep(65, "6", '5');
    DecimalStep(655, "65", '5');
    DecimalStep(6553, "655", '3');
    DecimalStep(65536, "6553", '6');
  }

  lemma DefaultTexts()
    ensures "v=" + Decimal(ARGON_VERSION) == "v=19"
    ensures ParamsText(ARGON_MEMORY, ARGON_TIME, ARGON_THREADS) == "m=65536,t=3,p=2"
  {
    DefaultMemory();
    DecimalStep(19, "1", '9');
  }

  lemma PrefixOfFormat(version: string, params: string, rest: string)
    ensures "$argon2id$" + version + "$" + params + "$" <= "" + "$"
      + ("argon2id" + "$" + (version + "$" + (params + "$" + rest)))
  {
  }

  lemma PrefixLiteral()
    ensures "$argon2id$" + "v=19" + "$" + "m=65536,t=3,p=2" + "$" == "$argon2id$v=19$m=65536,t=3,p=2$"
  {
  }

  /** Every stored hash starts as the format's description says. */
  lemma HashHasDocumentedPrefix(password: string, salt: seq<Byte>, kdf: Kdf)
    ensures "$argon2id$v=19$m=65536,t=3,p=2$" <= HashPassword(password, salt, kdf)
  {
    var hash := kdf(password, salt, ARGON_TIME, ARGON_MEMORY, ARGON_THREADS, ARGON_KEY_LEN);
    DefaultTexts();
    PrefixLiteral();
    PrefixOfFormat("v=19", "m=65536,t=3,p=2", Encode(salt) + "$" + Encode(hash));
  }

  /** The format with another version number is told apart from a text that is no such hash. */
  lemma OtherVersionIsRefused(version: nat, memory: nat, time: nat, threads: nat, salt: seq<Byte>, hash: seq<Byte>)
    requires version < TWO_63 && version != 19
    ensures DecodeHash("" + "$" + ("argon2id" + "$" + ("v=" + Decimal(version) + "$" +
              (ParamsText(memory, time, threads) + "$" + (Encode(salt) + "$" + Encode(hash))))))
         == Err(IncompatibleVersion)
  {
    var v, ps := "v=" + Decimal(version), ParamsText(memory, time, threads);
    ParamsTextFree(memory, time, threads);
    DigitsAreFree(Decimal(version));
    FreeConcat("v=", Decimal(version));
    LettersAreFree(salt);
    LettersAreFree(hash);
    SplitFive("argon2id", v, ps, Encode(salt), Encode(hash));
    ScanVersionOfDecimal(version);
    OtherVersionOfParts(v, ps, Encode(salt), Encode(hash), version);
  }

  lemma OtherVersionOfParts(version: string, params: string, salt: string, hash: string, v: int)
    requires ScanVersion(version) == Scanned(v, "") && v != 19
    ensures DecodeParts(["", "argon2id", version, params, salt, hash]) == Err(IncompatibleVersion)
  {
  }

  /** A stored key is 32 bytes, and so 43 letters. */
  lemma StoredKeyLength(password: string, salt: seq<Byte>, kdf: Kdf)
    requires KeepsLength(kdf)
    ensures var parts := Split(HashPassword(password, salt, kdf), '$');
            |parts| == 6 && |parts[5]| == 43
  {
    var hash := kdf(password, salt, ARGON_TIME, ARGON_MEMORY, ARGON_THREADS, ARGON_KEY_LEN);
    assert |hash| == 32;
    FormatParts(ARGON_MEMORY, ARGON_TIME, ARGON_THREADS, salt, hash);
    EncodedLength(hash);
  }
}
