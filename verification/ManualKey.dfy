/** The authenticator secret as it is shown for typing: in groups of four characters. */
module ManualKey {
  import opened Common
  import opened Text
  import BackupCodes

  const GROUP := 4

  function NotSpace(): char -> bool {
    (c: char) => c != ' '
  }

  function TrimPadding(s: string): (r: string)
    ensures r <= s && (r != "" ==> r[|r| - 1] != '=')
  {
    if s != "" && s[|s| - 1] == '=' then TrimPadding(s[..|s| - 1]) else s
  }

  /** The secret in upper case, without spaces and without the padding at its end. */
  function Cleaned(secret: string): string {
    TrimPadding(BackupCodes.Upper(Filter(secret, NotSpace())))
  }

  function Groups(s: string): seq<string> {
    if s == "" then [] else if |s| <= GROUP then [s] else [s[..GROUP]] + Groups(s[GROUP..])
  }

  function Joined(groups: seq<string>): string {
    if groups == [] then "" else Join(groups, ' ')
  }

  /** The groups from position `i` on, which may be past the end. */
  function GroupsFrom(s: string, i: nat): seq<string> {
    if i < |s| then Groups(s[i..]) else []
  }

  lemma NextGroup(s: string, i: nat, end: nat)
    requires i < |s| && end == if i + GROUP > |s| then |s| else i + GROUP
    ensures GroupsFrom(s, i) == [s[i..end]] + GroupsFrom(s, i + GROUP)
  {
    if end < |s| {
      assert s[i..][..GROUP] == s[i..end] && s[i..][GROUP..] == s[end..];
    } else {
      assert s[i..] == s[i..end];
    }
  }

  method FormatManualKey(secret: string) returns (key: string)
    ensures key == Joined(Groups(Cleaned(secret)))
  {
    var s := Cleaned(secret);
    var groups: seq<string> := [];
    var i := 0;
    assert s[0..] == s;
    while i < |s|
      invariant 0 <= i && groups + GroupsFrom(s, i) == Groups(s)
    {
      var end := i + GROUP;
      if end > |s| {
        end := |s|;
      }
      NextGroup(s, i, end);
      groups := groups + [s[i..end]];
      i := i + GROUP;
    }
    assert groups + [] == groups;
    key := Joined(groups);
  }

  // ---- Typing the key gives the secret back ------------------------------------------------------------------------

  lemma JoinedStep(s: string)
    requires |s| > GROUP
    ensures Joined(Groups(s)) == s[..GROUP] + (" " + Joined(Groups(s[GROUP..])))
  {
    JoinCons(s[..GROUP], Groups(s[GROUP..]), ' ');
  }

  /** Every fifth character is a space, no other one is, and none is at the end. */
  ghost predicate Spaced(key: string) {
    && (forall k :: 0 <= k < |key| ==> (key[k] == ' ' <==> k % 5 == 4))
    && (key != "" ==> key[|key| - 1] != ' ')
  }

  lemma OneMoreGroup(group: string, rest: string)
    requires |group| == GROUP && ' ' !in group && Spaced(rest) && rest != ""
    ensures Spaced(group + (" " + rest))
  {
    var key := group + (" " + rest);
    forall k | 0 <= k < |key| ensures key[k] == ' ' <==> k % 5 == 4 {
      if k < 4 {
        assert key[k] == group[k];
      } else if k > 4 {
        assert key[k] == rest[k - 5] && (k - 5) % 5 == k % 5;
      }
    }
  }

  lemma {:induction false} SpacesEveryFifth(s: string)
    requires ' ' !in s
    ensures Spaced(Joined(Groups(s))) && (s != "" ==> Joined(Groups(s)) != "")
  {
    if |s| > GROUP {
      SpacesEveryFifth(s[GROUP..]);
      JoinedStep(s);
      OneMoreGroup(s[..GROUP], Joined(Groups(s[GROUP..])));
    }
  }

  lemma {:induction false} FilterAll(s: string)
    requires ' ' !in s
    ensures Filter(s, NotSpace()) == s
  {
    if s != "" {
      FilterAll(s[..|s| - 1]);
    }
  }

  lemma {:induction false} SpacesAreAllThatIsAdded(s: string)
    requires ' ' !in s
    ensures Filter(Joined(Groups(s)), NotSpace()) == s
  {
    if |s| <= GROUP {
      FilterAll(s);
    } else {
      SpacesAreAllThatIsAdded(s[GROUP..]);
      JoinedStep(s);
      FilterAll(s[..GROUP]);
      FilterConcat(" ", Joined(Groups(s[GROUP..])), NotSpace());
      FilterConcat(s[..GROUP], " " + Joined(Groups(s[GROUP..])), NotSpace());
      assert Filter(" ", NotSpace()) == [];
    }
  }

  lemma CleanedIsClean(secret: string)
    ensures ' ' !in Cleaned(secret)
    ensures BackupCodes.Upper(Cleaned(secret)) == Cleaned(secret) && TrimPadding(Cleaned(secret)) == Cleaned(secret)
  {
    var plain := Filter(secret, NotSpace());
    assert forall k :: 0 <= k < |plain| ==> plain[k] in plain;
    assert forall k :: 0 <= k < |Cleaned(secret)| ==> Cleaned(secret)[k] == BackupCodes.UpperChar(plain[k]);
  }

  /** Main result: whoever types the shown key, spaces and all, enters the secret it was made from. */
  lemma TypedKeyIsTheSecret(secret: string)
    ensures Cleaned(Joined(Groups(Cleaned(secret)))) == Cleaned(secret)
  {
    CleanedIsClean(secret);
    SpacesAreAllThatIsAdded(Cleaned(secret));
  }

  /** Nothing but letter case, spaces and the padding at the end is taken away from a secret. */
  lemma OnlyCosmetics(s: string)
    requires ' ' !in s && (s != "" ==> s[|s| - 1] != '=')
    ensures Cleaned(s) == BackupCodes.Upper(s) && Cleaned(s + "=") == BackupCodes.Upper(s)
  {
    FilterAll(s);
    FilterAll(s + "=");
    UpperPadded(s);
  }

  lemma UpperPadded(s: string)
    requires s != "" ==> s[|s| - 1] != '='
    ensures TrimPadding(BackupCodes.Upper(s)) == BackupCodes.Upper(s)
    ensures TrimPadding(BackupCodes.Upper(s + "=")) == BackupCodes.Upper(s)
  {
    assert BackupCodes.Upper(s + "=")[..|s|] == BackupCodes.Upper(s);
  }
}
