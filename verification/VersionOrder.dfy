/**
 The updater's version comparison. Component numbers are unbounded here; characters other than digits inside a
 component are skipped, as the service skips them.
 */
module VersionOrder {
  import opened Text

  function TrimV(s: string): string {
    if s != "" && s[0] == 'v' then s[1..] else s
  }

  /** Versions that are never offered an update. */
  predicate Unversioned(current: string) {
    TrimV(current) in {"dev", "", "0.0.0"}
  }

  function Parts(version: string): seq<string> {
    Split(TrimV(version), '.')
  }

  /** The component at any position; past the end it is 0. */
  function ComponentAt(parts: seq<string>, i: nat): nat {
    if i < |parts| then ValueOf(parts[i]) else 0
  }

  /** The components first differ at `i`, where `a` has the larger one. */
  ghost predicate ExceedsAt(a: seq<string>, b: seq<string>, i: nat) {
    ComponentAt(a, i) > ComponentAt(b, i) && forall j: nat :: j < i ==> ComponentAt(a, j) == ComponentAt(b, j)
  }

  /** The order of the components as endless vectors. */
  ghost predicate Exceeds(a: seq<string>, b: seq<string>) {
    exists i: nat :: ExceedsAt(a, b, i)
  }

  ghost predicate SameComponents(a: seq<string>, b: seq<string>) {
    forall i: nat :: ComponentAt(a, i) == ComponentAt(b, i)
  }

  ghost predicate Newer(latest: string, current: string) {
    !Unversioned(current) && Exceeds(Parts(latest), Parts(current))
  }

  // ---- The comparison as the service makes it -------------------------------------------------------------------

  method PartToInt(parts: seq<string>, i: nat) returns (n: nat)
    ensures n == ComponentAt(parts, i)
  {
    if i >= |parts| {
      return 0;
    }
    n := 0;
    var part := parts[i];
    for k := 0 to |part|
      invariant n == ValueOf(part[..k])
    {
      var c := part[k];
      assert part[..k + 1][..k] == part[..k];
      if '0' <= c <= '9' {
        n := n * 10 + (c as int - '0' as int);
      }
    }
    assert part[..|part|] == part;
  }

  method IsNewerVersion(latest: string, current: string) returns (newer: bool)
    ensures newer <==> Newer(latest, current)
  {
    var l, c := TrimV(latest), TrimV(current);
    if c == "dev" || c == "" || c == "0.0.0" {
      return false;
    }
    var lParts, cParts := Split(l, '.'), Split(c, '.');
    var maxLen := |lParts|;
    if |cParts| > maxLen {
      maxLen := |cParts|;
    }
    for i := 0 to maxLen
      invariant forall j: nat :: j < i ==> ComponentAt(lParts, j) == ComponentAt(cParts, j)
    {
      var lNum := PartToInt(lParts, i);
      var cNum := PartToInt(cParts, i);
      if lNum > cNum {
        assert ExceedsAt(lParts, cParts, i);
        return true;
      }
      if lNum < cNum {
        return false;
      }
    }
    return false;
  }

  // ---- It is a strict order -----------------------------------------------------------------------------------------

  lemma NewerIsIrreflexive(a: string)
    ensures !Newer(a, a)
  {
  }

  lemma NewerIsAsymmetric(a: string, b: string)
    requires Newer(a, b)
    ensures !Newer(b, a)
  {
    var i: nat :| ExceedsAt(Parts(a), Parts(b), i);
    forall j: nat ensures !ExceedsAt(Parts(b), Parts(a), j) {
      assert j > i ==> ComponentAt(Parts(b), i) != ComponentAt(Parts(a), i);
    }
  }

  lemma NewerIsTransitive(a: string, b: string, c: string)
    requires Newer(a, b) && Newer(b, c)
    ensures Newer(a, c)
  {
    var i: nat :| ExceedsAt(Parts(a), Parts(b), i);
    var j: nat :| ExceedsAt(Parts(b), Parts(c), j);
    assert ExceedsAt(Parts(a), Parts(c), if i < j then i else j);
  }

  /** The first `n` components agree, or one side is ahead. */
  lemma {:induction false} Trichotomy(a: seq<string>, b: seq<string>, n: nat)
    ensures Exceeds(a, b) || Exceeds(b, a) || forall i: nat :: i < n ==> ComponentAt(a, i) == ComponentAt(b, i)
  {
    if n > 0 {
      Trichotomy(a, b, n - 1);
      if forall i: nat :: i < n - 1 ==> ComponentAt(a, i) == ComponentAt(b, i) {
        if ComponentAt(a, n - 1) > ComponentAt(b, n - 1) {
          assert ExceedsAt(a, b, n - 1);
        } else if ComponentAt(a, n - 1) < ComponentAt(b, n - 1) {
          assert ExceedsAt(b, a, n - 1);
        }
      }
    }
  }

  /** Between versioned releases, neither is newer exactly when their components are the same. */
  lemma NewerIsTotal(a: string, b: string)
    requires !Unversioned(a) && !Unversioned(b)
    ensures !Newer(a, b) && !Newer(b, a) <==> SameComponents(Parts(a), Parts(b))
  {
    var x, y := Parts(a), Parts(b);
    Trichotomy(x, y, |x| + |y|);
  }

  // ---- Trailing zeros -----------------------------------------------------------------------------------------------

  lemma PartsOfTrailingZero(version: string)
    ensures Parts(version + ".0") == Parts(version) + ["0"]
    ensures SameComponents(Parts(version + ".0"), Parts(version))
  {
    assert TrimV(version + ".0") == TrimV(version) + ['.'] + "0";
    SplitConcat(TrimV(version), "0", '.');
    SplitFree("0", '.');
    assert "0"[..0] == "";
  }

  lemma SameComponentsCompareSame(a: seq<string>, b: seq<string>, c: seq<string>)
    requires SameComponents(a, b)
    ensures Exceeds(a, c) <==> Exceeds(b, c)
    ensures Exceeds(c, a) <==> Exceeds(c, b)
  {
    forall i: nat
      ensures ExceedsAt(a, c, i) <==> ExceedsAt(b, c, i)
      ensures ExceedsAt(c, a, i) <==> ExceedsAt(c, b, i)
    {
    }
  }

  /** A trailing ".0" on the release never matters. */
  lemma TrailingZeroOfLatest(latest: string, current: string)
    ensures Newer(latest + ".0", current) <==> Newer(latest, current)
  {
    PartsOfTrailingZero(latest);
    SameComponentsCompareSame(Parts(latest + ".0"), Parts(latest), Parts(current));
  }

  /** The installed versions that a trailing ".0" makes special, or stops from being special. */
  predicate Borderline(current: string) {
    TrimV(current) in {"dev", "", "0.0", "0.0.0"}
  }

  lemma BorderlineChanges(current: string)
    ensures Borderline(current) <==> Unversioned(current) != Unversioned(current + ".0")
  {
    var c := TrimV(current);
    assert TrimV(current + ".0") == c + ".0";
    assert |c + ".0"| == |c| + 2 && (c + ".0")[..|c|] == c;
    assert "0.0.0"[..3] == "0.0" && "0.0" + ".0" == "0.0.0" && "dev"[2] == 'v';
    assert (c + ".0")[|c| + 1] == '0';
  }

  lemma NoDigits(part: string)
    requires forall i :: 0 <= i < |part| ==> !IsDigit(part[i]) || part[i] == '0'
    ensures ValueOf(part) == 0
  {
    if part != "" {
      NoDigits(part[..|part| - 1]);
    }
  }

  lemma {:induction false} PartsAreWithin(s: string, k: nat)
    requires k < |Split(s, '.')|
    ensures forall i :: 0 <= i < |Split(s, '.')[k]| ==> Split(s, '.')[k][i] in s
    decreases |s|
  {
    if s != "" {
      var rest := Split(s[1..], '.');
      forall i | 0 <= i < |Split(s, '.')[k]| ensures Split(s, '.')[k][i] in s {
        if s[0] == '.' {
          if k > 0 {
            PartsAreWithin(s[1..], k - 1);
          }
        } else if k > 0 {
          PartsAreWithin(s[1..], k);
        } else {
          PartsAreWithin(s[1..], 0);
        }
      }
    }
  }

  lemma BorderlineIsZero(current: string, i: nat)
    requires Borderline(current)
    ensures ComponentAt(Parts(current), i) == 0
  {
    if i < |Parts(current)| {
      PartsAreWithin(TrimV(current), i);
      NoDigits(Parts(current)[i]);
    }
  }

  /** Against nothing but zeros a release is ahead as soon as one of its components is positive. */
  lemma {:induction false} FirstPositive(a: seq<string>, b: seq<string>, n: nat)
    requires forall i: nat :: ComponentAt(b, i) == 0
    requires exists i: nat :: i < n && ComponentAt(a, i) > 0
    ensures Exceeds(a, b)
  {
    var i: nat :| i < n && ComponentAt(a, i) > 0;
    if exists j: nat :: j < i && ComponentAt(a, j) > 0 {
      FirstPositive(a, b, i);
    } else {
      assert ExceedsAt(a, b, i);
    }
  }

  /**
   On the installed version a trailing ".0" changes the answer exactly where it makes or breaks one of the
   special spellings and the release has a component above zero.
   */
  lemma TrailingZeroOfCurrent(latest: string, current: string)
    ensures (Newer(latest, current + ".0") <==> Newer(latest, current))
            <==> !(Borderline(current) && exists i: nat :: ComponentAt(Parts(latest), i) > 0)
  {
    PartsOfTrailingZero(current);
    SameComponentsCompareSame(Parts(current + ".0"), Parts(current), Parts(latest));
    BorderlineChanges(current);
    if Borderline(current) {
      forall i: nat ensures ComponentAt(Parts(current), i) == 0 {
        BorderlineIsZero(current, i);
      }
      if exists i: nat :: ComponentAt(Parts(latest), i) > 0 {
        var i: nat :| ComponentAt(Parts(latest), i) > 0;
        FirstPositive(Parts(latest), Parts(current), i + 1);
      }
    }
  }

  lemma TrailingZeroCanMatter()
    ensures !Newer("v1.0.0", "0.0.0") && Newer("v1.0.0", "0.0.0.0")
  {
    assert TrimV("v1.0.0") == "1.0.0" && TrimV("0.0.0.0") == "0.0.0.0" && TrimV("0.0.0") == "0.0.0";
    assert "1.0.0" == "1" + ['.'] + "0.0" && "0.0.0.0" == "0" + ['.'] + "0.0.0";
    SplitConcat("1", "0.0", '.');
    SplitConcat("0", "0.0.0", '.');
    SplitFree("1", '.');
    SplitFree("0", '.');
    assert "1"[..0] == "" && "0"[..0] == "";
    assert ExceedsAt(Parts("v1.0.0"), Parts("0.0.0.0"), 0);
  }

  lemma ThreeParts(a: string, b: string, c: string)
    requires Free(a, '.') && Free(b, '.') && Free(c, '.')
    ensures Split(a + ['.'] + (b + ['.'] + c), '.') == [a, b, c]
  {
    SplitFree(a, '.');
    SplitFree(b, '.');
    SplitFree(c, '.');
    SplitConcat(b, c, '.');
    SplitConcat(a, b + ['.'] + c, '.');
  }

  lemma TwoVersions()
    ensures Parts("v1.10.0") == ["1", "10", "0"] && Parts("1.9.9") == ["1", "9", "9"] && !Unversioned("1.9.9")
  {
    assert TrimV("v1.10.0") == "1" + ['.'] + ("10" + ['.'] + "0");
    assert TrimV("1.9.9") == "1" + ['.'] + ("9" + ['.'] + "9");
    ThreeParts("1", "10", "0");
    ThreeParts("1", "9", "9");
  }

  /** Components are compared as numbers, the earlier ones first. */
  lemma NumbersNotText()
    ensures Newer("v1.10.0", "1.9.9") && !Newer("1.9.9", "v1.10.0")
  {
    hide Parts, ValueOf;
    TwoVersions();
    SmallNumbers();
    assert ExceedsAt(Parts("v1.10.0"), Parts("1.9.9"), 1);
    NewerIsAsymmetric("v1.10.0", "1.9.9");
  }

  lemma SmallNumbers()
    ensures ValueOf("1") == 1 && ValueOf("9") == 9 && ValueOf("10") == 10
  {
    assert "1"[..0] == "" && "9"[..0] == "" && "10"[..1] == "1";
  }
}
