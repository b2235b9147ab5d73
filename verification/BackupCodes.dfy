/**
 Backup codes: eight codes that each replace one second factor once. Text is ASCII here. A code list is stored
 with its account as JSON text; the list itself stands for that text.
 */
module BackupCodes {
  import opened Common

  const BACKUP_CODE_COUNT := 8
  const BACKUP_CODE_LEN := 10
  const CHARSET := "ABCDEFGHJKMNPQRSTUVWXYZ23456789"

  type Byte = b: int | 0 <= b < 256

  datatype BackupCode = BackupCode(code: string, usedAt: string, isUsed: bool)

  // ---- Comparing codes ---------------------------------------------------------------------------------------------

  function UpperChar(c: char): char {
    if 'a' <= c <= 'z' then (c as int - 32) as char else c
  }

  function Upper(s: string): (r: string)
    ensures |r| == |s|
  {
    seq(|s|, i requires 0 <= i < |s| => UpperChar(s[i]))
  }

  predicate IsSpace(c: char) {
    c as int in {9, 10, 11, 12, 13, 32}
  }

  function TrimSpace(s: string): string {
    if s != "" && IsSpace(s[0]) then TrimSpace(s[1..])
    else if s != "" && IsSpace(s[|s| - 1]) then TrimSpace(s[..|s| - 1])
    else s
  }

  /** Equal up to letter case. */
  predicate EqualFold(a: string, b: string) {
    |a| == |b| && forall i :: 0 <= i < |a| ==> UpperChar(a[i]) == UpperChar(b[i])
  }

  /** What a code is recognised by. */
  function KeyOf(input: string): string {
    Upper(TrimSpace(input))
  }

  lemma EqualFoldIsSameUpper(a: string, b: string)
    ensures EqualFold(a, Upper(b)) <==> Upper(a) == Upper(b)
  {
    if Upper(a) == Upper(b) {
      forall i | 0 <= i < |a| ensures UpperChar(a[i]) == UpperChar(Upper(b)[i]) {
        assert Upper(a)[i] == Upper(b)[i];
      }
    }
  }

  // ---- Issuing ------------------------------------------------------------------------------------------------------

  function LetterAt(random: seq<Byte>, i: nat): char
    requires i < |random|
  {
    CHARSET[random[i] % |CHARSET|]
  }

  /** XXXXX-XXXXX */
  ghost predicate IsCodeOf(code: string, random: seq<Byte>) {
    && |random| == BACKUP_CODE_LEN && |code| == BACKUP_CODE_LEN + 1 && code[5] == '-'
    && (forall i :: 0 <= i < 5 ==> code[i] == LetterAt(random, i))
    && (forall i :: 5 <= i < BACKUP_CODE_LEN ==> code[i + 1] == LetterAt(random, i))
  }

  method GenerateRandomCode(random: seq<Byte>) returns (code: string)
    requires |random| == BACKUP_CODE_LEN
    ensures IsCodeOf(code, random)
  {
    var letters := new char[|random|];
    for i := 0 to |random|
      invariant forall j :: 0 <= j < i ==> letters[j] == LetterAt(random, j)
    {
      letters[i] := CHARSET[random[i] % |CHARSET|];
    }
    code := letters[..5] + "-" + letters[5..];
  }

  ghost predicate FreshCodes(codes: seq<BackupCode>, random: seq<seq<Byte>>) {
    && |codes| == |random| == BACKUP_CODE_COUNT
    && forall i :: 0 <= i < |codes| ==> !codes[i].isUsed && IsCodeOf(codes[i].code, random[i])
  }

  method GenerateBackupCodes(random: seq<seq<Byte>>) returns (codes: seq<BackupCode>)
    requires |random| == BACKUP_CODE_COUNT && forall i :: 0 <= i < |random| ==> |random[i]| == BACKUP_CODE_LEN
    ensures FreshCodes(codes, random)
  {
    codes := [];
    for i := 0 to |random|
      invariant |codes| == i
      invariant forall j :: 0 <= j < i ==> !codes[j].isUsed && IsCodeOf(codes[j].code, random[j])
    {
      var code := GenerateRandomCode(random[i]);
      codes := codes + [BackupCode(code, "", false)];
    }
  }

  // ---- Using one ----------------------------------------------------------------------------------------------------

  predicate Accepts(c: BackupCode, input: string) {
    !c.isUsed && Upper(c.code) == KeyOf(input)
  }

  function Accepting(input: string): BackupCode -> bool {
    (c: BackupCode) => Accepts(c, input)
  }

  function Spent(c: BackupCode, now: string): BackupCode {
    c.(isUsed := true, usedAt := now)
  }

  /** The first unused entry of the code is marked; None when there is none. */
  function Used(codes: seq<BackupCode>, input: string, now: string): Option<seq<BackupCode>> {
    match First(codes, Accepting(input))
    case None => None
    case Some(i) => Some(codes[i := Spent(codes[i], now)])
  }

  /** Marks the list in place; a rejected input leaves it as it was. */
  method UseBackupCode(codes: array<BackupCode>, input: string, now: string) returns (accepted: bool)
    modifies codes
    ensures accepted == Used(old(codes[..]), input, now).Some?
    ensures codes[..] == (if accepted then Used(old(codes[..]), input, now).value else old(codes[..]))
  {
    var wanted := Upper(TrimSpace(input));
    for i := 0 to codes.Length
      invariant codes[..] == old(codes[..])
      invariant forall j :: 0 <= j < i ==> !Accepting(input)(codes[..][j])
    {
      EqualFoldIsSameUpper(codes[i].code, TrimSpace(input));
      if codes[i].isUsed {
        continue;
      }
      if EqualFold(codes[i].code, wanted) {
        FirstSome(codes[..], Accepting(input), i);
        codes[i] := codes[i].(isUsed := true, usedAt := now);
        return true;
      }
    }
    FirstNone(codes[..], Accepting(input));
    return false;
  }

  // ---- What a use changes ------------------------------------------------------------------------------------------

  function Plain(codes: seq<BackupCode>): (r: seq<string>)
    ensures |r| == |codes|
  {
    seq(|codes|, i requires 0 <= i < |codes| => codes[i].code)
  }

  function Unused(): BackupCode -> bool {
    (c: BackupCode) => !c.isUsed
  }

  function WithKey(key: string): BackupCode -> bool {
    (c: BackupCode) => Upper(c.code) == key
  }

  function UnusedWithKey(key: string): BackupCode -> bool {
    (c: BackupCode) => !c.isUsed && Upper(c.code) == key
  }

  /** An accepted use spends exactly one entry, of the code it was given, and keeps what the list consists of. */
  lemma UseSpendsOne(codes: seq<BackupCode>, input: string, now: string, key: string)
    requires Used(codes, input, now).Some?
    ensures var after := Used(codes, input, now).value;
            && Plain(after) == Plain(codes)
            && |Filter(after, Unused())| == |Filter(codes, Unused())| - 1
            && |Filter(after, WithKey(key))| == |Filter(codes, WithKey(key))|
            && |Filter(after, UnusedWithKey(key))| == |Filter(codes, UnusedWithKey(key))| - Bit(key == KeyOf(input))
  {
    var i := First(codes, Accepting(input)).value;
    FilterUpdate(codes, i, Spent(codes[i], now), Unused());
    FilterUpdate(codes, i, Spent(codes[i], now), WithKey(key));
    FilterUpdate(codes, i, Spent(codes[i], now), UnusedWithKey(key));
  }

  /** It is marked with the time of its use, and the first one that could be used. */
  lemma UseMarksFirst(codes: seq<BackupCode>, input: string, now: string, i: nat)
    requires i < |codes| && Accepts(codes[i], input) && forall j :: 0 <= j < i ==> !Accepts(codes[j], input)
    ensures Used(codes, input, now) == Some(codes[i := BackupCode(codes[i].code, now, true)])
  {
    FirstSome(codes, Accepting(input), i);
  }

  lemma {:induction false} FreshCounts(codes: seq<BackupCode>, key: string)
    requires forall i :: 0 <= i < |codes| ==> !codes[i].isUsed
    ensures |Filter(codes, Unused())| == |codes|
    ensures |Filter(codes, UnusedWithKey(key))| == |Filter(codes, WithKey(key))|
  {
    if codes != [] {
      FreshCounts(codes[..|codes| - 1], key);
    }
  }

  /** Of a list, `all` entries were accepted, `some` of them for the code with this key. */
  ghost predicate Conserved(codes: seq<BackupCode>, key: string, all: int, some: int) {
    && |codes| == BACKUP_CODE_COUNT
    && all + |Filter(codes, Unused())| == BACKUP_CODE_COUNT
    && some + |Filter(codes, UnusedWithKey(key))| == |Filter(codes, WithKey(key))|
  }

  lemma IssueConserves(codes: seq<BackupCode>, key: string, random: seq<seq<Byte>>)
    requires FreshCodes(codes, random)
    ensures Conserved(codes, key, 0, 0)
  {
    FreshCounts(codes, key);
  }

  lemma UseConserves(codes: seq<BackupCode>, input: string, now: string, key: string, all: int, some: int)
    requires Conserved(codes, key, all, some) && Used(codes, input, now).Some?
    ensures Conserved(Used(codes, input, now).value, key, all + 1, some + Bit(key == KeyOf(input)))
  {
    UseSpendsOne(codes, input, now, key);
  }

  // ---- Typing a code -----------------------------------------------------------------------------------------------

  function LowerChar(c: char): char {
    if 'A' <= c <= 'Z' then (c as int + 32) as char else c
  }

  function Lower(s: string): (r: string)
    ensures |r| == |s|
  {
    seq(|s|, i requires 0 <= i < |s| => LowerChar(s[i]))
  }

  /** The characters of a code: capitals and digits that cannot be mistaken for one another, and the dash. */
  predicate IsCodeChar(c: char) {
    c == '-' || (('A' <= c <= 'Z' || '2' <= c <= '9') && c !in {'I', 'L', 'O'})
  }

  lemma CharsetIsCodeChars(k: nat)
    requires k < |CHARSET|
    ensures |CHARSET| == 31 && IsCodeChar(CHARSET[k]) && CHARSET[k] != '-'
  {
    assert CHARSET[0] == 'A' && CHARSET[30] == '9';
  }

  lemma CodesAreLegible(code: string, random: seq<Byte>)
    requires IsCodeOf(code, random)
    ensures |code| == 11 && code[5] == '-' && forall i :: 0 <= i < |code| ==> IsCodeChar(code[i])
  {
    forall i | 0 <= i < |code| ensures IsCodeChar(code[i]) {
      if i < 5 {
        CharsetIsCodeChars(random[i] % |CHARSET|);
      } else if i > 5 {
        assert code[(i - 1) + 1] == LetterAt(random, i - 1);
        CharsetIsCodeChars(random[i - 1] % |CHARSET|);
      }
    }
  }

  ghost predicate Blanks(s: string) {
    forall i :: 0 <= i < |s| ==> IsSpace(s[i])
  }

  lemma {:induction false} TrimsBlanks(before: string, s: string, behind: string)
    requires Blanks(before) && Blanks(behind) && s != "" && !IsSpace(s[0]) && !IsSpace(s[|s| - 1])
    ensures TrimSpace(before + s + behind) == s
    decreases |before| + |behind|
  {
    var whole := before + s + behind;
    if before != "" {
      TrimsBlanks(before[1..], s, behind);
      assert whole[0] == before[0] && whole[1..] == before[1..] + s + behind;
    } else if behind != "" {
      var rest := behind[..|behind| - 1];
      TrimsBlanks(before, s, rest);
      assert whole[0] == s[0] && whole[|whole| - 1] == behind[|behind| - 1];
      assert whole[..|whole| - 1] == before + s + rest;
    } else {
      assert whole == s;
    }
  }

  lemma CaseDoesNotMatter(s: string)
    requires forall i :: 0 <= i < |s| ==> IsCodeChar(s[i])
    ensures Upper(Lower(s)) == s && Upper(s) == s
  {
  }

  /** Main result: an unused code is accepted as it was shown, in small letters, and with blanks around it. */
  lemma TypedCodeIsAccepted(c: BackupCode, random: seq<Byte>, before: string, behind: string)
    requires !c.isUsed && IsCodeOf(c.code, random) && Blanks(before) && Blanks(behind)
    ensures Accepts(c, before + c.code + behind) && Accepts(c, before + Lower(c.code) + behind)
  {
    CodesAreLegible(c.code, random);
    CaseDoesNotMatter(c.code);
    TrimsBlanks(before, c.code, behind);
    TrimsBlanks(before, Lower(c.code), behind);
  }

  /** And a text that is accepted is, up to that, the code. */
  lemma AcceptedIsTheCode(c: BackupCode, random: seq<Byte>, input: string)
    requires IsCodeOf(c.code, random) && Accepts(c, input)
    ensures !c.isUsed && Lower(TrimSpace(input)) == Lower(c.code)
  {
    CodesAreLegible(c.code, random);
    CaseDoesNotMatter(c.code);
    var typed := TrimSpace(input);
    assert Upper(typed) == c.code;
    forall i | 0 <= i < |typed| ensures LowerChar(typed[i]) == LowerChar(c.code[i]) {
      assert UpperChar(typed[i]) == Upper(typed)[i];
    }
    assert Lower(typed) == Lower(c.code);
  }
}
