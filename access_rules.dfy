/**
 * Access rules of an SMB share: the records Get-SmbShareAccess reports, how they are
 * turned into rules, how rules are validated, and the case-insensitive add/delete delta
 * between the rules a share has and the rules it should have.
 */
module AccessRules {
  import opened Common

  const LevelRW: string := "rw"
  const LevelRO: string := "ro"
  const LevelCustom: string := "custom"
  const TypeUser: string := "user"

  // AccessControlType codes of a Windows share access entry.
  const AclAllow: int := 0
  const AclDeny: int := 1

  // AccessRight codes of a Windows share access entry.
  const RightFull: int := 0
  const RightChange: int := 1
  const RightRead: int := 2
  const RightCustom: int := 3

  /** A rule as the share service passes it around: principal, level and type. */
  datatype AccessRule = AccessRule(accessTo: string, accessLevel: string, accessType: string)

  /** One decoded record of Get-SmbShareAccess. */
  datatype RawAce = RawAce(accountName: string, accessControlType: int, accessRight: int)

  /** What one record turns out to be. */
  datatype AceKind =
    | Allowed(rule: AccessRule)  // an allow entry with a Full, Change or Read right
    | NoRulesYet                 // the deny entry for Everyone that is the only entry
    | ForeignDeny                // any other deny entry
    | CustomRight                // an allow entry with a custom right

  // ---------------------------------------------------------------------------
  // Case folding (account names are case-insensitive on Windows)

  function LowerChar(c: char): char {
    if 'A' <= c <= 'Z' then (c as int + 32) as char else c
  }

  function Lower(s: string): string {
    seq(|s|, i requires 0 <= i < |s| => LowerChar(s[i]))
  }

  lemma LowerIdempotent(s: string)
    ensures Lower(Lower(s)) == Lower(s)
  {
    assert forall i :: 0 <= i < |s| ==> LowerChar(LowerChar(s[i])) == LowerChar(s[i]);
  }

  // ---------------------------------------------------------------------------
  // Turning Get-SmbShareAccess records into rules

  predicate IsSupportedLevel(level: string) {
    level == LevelRO || level == LevelRW
  }

  predicate IsSupportedRule(r: AccessRule) {
    r.accessType == TypeUser && IsSupportedLevel(r.accessLevel)
  }

  predicate IsKnownRight(right: int) {
    RightFull <= right <= RightCustom
  }

  /** The record is an allow entry whose right is Full, Change or Read. */
  predicate Surfaces(ace: RawAce) {
    ace.accessControlType == AclAllow &&
    (ace.accessRight == RightFull || ace.accessRight == RightChange || ace.accessRight == RightRead)
  }

  /** The rule a surfacing record stands for: Read is read-only, Full and Change are read-write. */
  function SurfacedRule(ace: RawAce): AccessRule
    requires Surfaces(ace)
  {
    AccessRule(ace.accountName, if ace.accessRight == RightRead then LevelRO else LevelRW, TypeUser)
  }

  /** The Windows right table; None where a lookup in it raises KeyError. */
  function WinAclLevel(right: int): (level: Option<string>)
    ensures level.Some? <==> IsKnownRight(right)
    ensures right == RightFull || right == RightChange ==> level == Some(LevelRW)
    ensures right == RightRead ==> level == Some(LevelRO)
    ensures level == Some(LevelCustom) <==> right == RightCustom
  {
    if right == RightChange || right == RightFull then Some(LevelRW)
    else if right == RightRead then Some(LevelRO)
    else if right == RightCustom then Some(LevelCustom)
    else None
  }

  /**
   * One record of a list of `total` records. The right is looked up first, so an unknown
   * right raises even on a deny entry; every non-allow code counts as deny.
   */
  function Classify(ace: RawAce, total: nat): (k: Result<AceKind>)
    ensures k.Success? <==> IsKnownRight(ace.accessRight)
    ensures k.Success? && k.value.Allowed? <==> Surfaces(ace)
    ensures Surfaces(ace) ==> k == Success(Allowed(SurfacedRule(ace)))
    ensures k == Success(NoRulesYet) <==>
              IsKnownRight(ace.accessRight) && ace.accessControlType != AclAllow &&
              Lower(ace.accountName) == "everyone" && total == 1
  {
    match WinAclLevel(ace.accessRight)
    case None => Failure(UnknownAccessRight(ace.accessRight))
    case Some(level) =>
      if ace.accessControlType != AclAllow then
        if Lower(ace.accountName) == "everyone" && total == 1 then Success(NoRulesYet)
        else Success(ForeignDeny)
      else if level == LevelCustom then Success(CustomRight)
      else Success(Allowed(AccessRule(ace.accountName, level, TypeUser)))
  }

  /**
   * The rules a list of records stands for, in record order. `total` is the length of the
   * whole list, which decides whether an Everyone deny entry is the placeholder.
   */
  function ParsedRules(aces: seq<RawAce>, total: nat): (r: Result<seq<AccessRule>>)
    ensures r.Success? ==> |r.value| <= |aces|
    ensures r.Success? ==> forall i :: 0 <= i < |r.value| ==> IsSupportedRule(r.value[i])
    decreases |aces|
  {
    if aces == [] then Success([])
    else
      match ParsedRules(aces[..|aces| - 1], total)
      case Failure(e) => Failure(e)
      case Success(rules) =>
        match Classify(aces[|aces| - 1], total)
        case Failure(e) => Failure(e)
        case Success(Allowed(rule)) => Success(rules + [rule])
        case Success(_) => Success(rules)
  }

  /** Parsing raises exactly when some record carries a right code outside the table. */
  lemma {:induction false} ParsedRulesSucceeds(aces: seq<RawAce>, total: nat)
    ensures ParsedRules(aces, total).Success? <==>
            forall i :: 0 <= i < |aces| ==> IsKnownRight(aces[i].accessRight)
    decreases |aces|
  {
    if aces != [] {
      var init := aces[..|aces| - 1];
      ParsedRulesSucceeds(init, total);
      assert forall i :: 0 <= i < |init| ==> init[i] == aces[i];
    }
  }

  /**
   * Every rule parsed is a supported user rule that comes from an allow record with a
   * Full, Change or Read right (never from a deny or custom record), and there are no
   * more rules than records.
   */
  lemma {:induction false} ParsedRulesSound(aces: seq<RawAce>, total: nat)
    requires ParsedRules(aces, total).Success?
    ensures |ParsedRules(aces, total).value| <= |aces|
    ensures forall r :: r in ParsedRules(aces, total).value ==> IsSupportedRule(r)
    ensures forall r :: r in ParsedRules(aces, total).value ==>
              exists i :: 0 <= i < |aces| && Surfaces(aces[i]) && r == SurfacedRule(aces[i])
    decreases |aces|
  {
    if aces != [] {
      var init := aces[..|aces| - 1];
      ParsedRulesSound(init, total);
      assert forall i :: 0 <= i < |init| ==> init[i] == aces[i];
    }
  }

  /** Every allow record with a Full, Change or Read right appears as a rule. */
  lemma {:induction false} ParsedRulesComplete(aces: seq<RawAce>, total: nat)
    requires ParsedRules(aces, total).Success?
    ensures forall i :: 0 <= i < |aces| && Surfaces(aces[i]) ==>
              SurfacedRule(aces[i]) in ParsedRules(aces, total).value
    decreases |aces|
  {
    if aces != [] {
      var init := aces[..|aces| - 1];
      ParsedRulesComplete(init, total);
      assert forall i :: 0 <= i < |init| ==> init[i] == aces[i];
    }
  }

  /** Parsing works record by record: the rules of a concatenation are the concatenated rules. */
  lemma {:induction false} ParsedRulesAppend(a: seq<RawAce>, b: seq<RawAce>, total: nat)
    requires ParsedRules(a, total).Success? && ParsedRules(b, total).Success?
    ensures ParsedRules(a + b, total) ==
            Success(ParsedRules(a, total).value + ParsedRules(b, total).value)
    decreases |b|
  {
    if b == [] {
      assert a + b == a;
      assert ParsedRules(a, total).value + [] == ParsedRules(a, total).value;
    } else {
      var binit := b[..|b| - 1];
      assert (a + b)[..|a + b| - 1] == a + binit;
      assert (a + b)[|a + b| - 1] == b[|b| - 1];
      assert ParsedRules(binit, total).Success?;
      ParsedRulesAppend(a, binit, total);
      var ra, rb := ParsedRules(a, total).value, ParsedRules(binit, total).value;
      var k := Classify(b[|b| - 1], total);
      if k.Success? && k.value.Allowed? {
        assert ParsedRules(b, total).value == rb + [k.value.rule];
        assert ra + rb + [k.value.rule] == ra + (rb + [k.value.rule]);
      }
    }
  }

  /** A deny entry for Everyone that is the only entry means "no rules yet": nothing is parsed. */
  lemma SoleEveryoneDenyIsPlaceholder(ace: RawAce)
    requires IsKnownRight(ace.accessRight) && ace.accessControlType == AclDeny
    requires Lower(ace.accountName) == "everyone"
    ensures Classify(ace, 1) == Success(NoRulesYet)
    ensures ParsedRules([ace], 1) == Success([])
  {
    assert [ace][..0] == [];
  }

  // ---------------------------------------------------------------------------
  // Validation of requested rules

  /** The checks run on every rule in order: the type first, then the level. */
  function ValidateAccessRules(rules: seq<AccessRule>): (o: Outcome)
    ensures o.Pass? <==> forall i :: 0 <= i < |rules| ==> IsSupportedRule(rules[i])
    ensures o.Fail? ==>
              (exists i :: 0 <= i < |rules| && !IsSupportedRule(rules[i]) &&
                 (o.error == InvalidShareAccess(rules[i].accessType) ||
                  o.error == InvalidShareAccessLevel(rules[i].accessLevel)))
  {
    if rules == [] then Pass
    else if rules[0].accessType != TypeUser then Fail(InvalidShareAccess(rules[0].accessType))
    else if !IsSupportedLevel(rules[0].accessLevel) then Fail(InvalidShareAccessLevel(rules[0].accessLevel))
    else
      var rest := ValidateAccessRules(rules[1..]);
      assert forall i :: 1 <= i < |rules| ==> rules[i] == rules[1..][i - 1];
      rest
  }

  // ---------------------------------------------------------------------------
  // The add/delete delta

  /** The identity of a rule when diffing: the principal case-folded, level and type kept. */
  function NormalizeRule(r: AccessRule): AccessRule {
    AccessRule(Lower(r.accessTo), r.accessLevel, r.accessType)
  }

  function Normalized(rules: seq<AccessRule>): set<AccessRule> {
    set r | r in rules :: NormalizeRule(r)
  }

  /**
   * The normalised rules of `rules` that no rule of `subtracted` normalises to. Every
   * result is the identity of some rule of `rules`, with its principal case-folded.
   */
  function SubtractAccessRules(rules: seq<AccessRule>, subtracted: seq<AccessRule>): (r: set<AccessRule>)
    ensures forall i :: 0 <= i < |rules| ==>
              (NormalizeRule(rules[i]) in r <==>
                 forall j :: 0 <= j < |subtracted| ==> NormalizeRule(subtracted[j]) != NormalizeRule(rules[i]))
    ensures forall x :: x in r ==> exists i :: 0 <= i < |rules| && x == NormalizeRule(rules[i])
    ensures forall x :: x in r ==> Lower(x.accessTo) == x.accessTo
  {
    var d := Normalized(rules) - Normalized(subtracted);
    assert forall x :: x in d ==> Lower(x.accessTo) == x.accessTo by {
      forall x | x in d ensures Lower(x.accessTo) == x.accessTo {
        var y :| y in rules && x == NormalizeRule(y);
        LowerIdempotent(y.accessTo);
      }
    }
    d
  }

  /**
   * The rules to add and the rules to delete to go from `existing` to `requested`; both
   * are empty exactly when the two lists already stand for the same rules.
   */
  function RuleUpdates(existing: seq<AccessRule>, requested: seq<AccessRule>): (r: (set<AccessRule>, set<AccessRule>))
    ensures r.0 == {} && r.1 == {} <==> Normalized(existing) == Normalized(requested)
  {
    var added, deleted := SubtractAccessRules(requested, existing), SubtractAccessRules(existing, requested);
    assert added == Normalized(requested) - Normalized(existing);
    assert deleted == Normalized(existing) - Normalized(requested);
    (added, deleted)
  }

  /** Applying the delta to the existing rules gives exactly the requested rules. */
  lemma RuleUpdatesReconcile(existing: seq<AccessRule>, requested: seq<AccessRule>)
    ensures var (added, deleted) := RuleUpdates(existing, requested);
            (Normalized(existing) - deleted) + added == Normalized(requested)
  {
  }

  /**
   * The delta is minimal: nothing added is already there, nothing deleted is still
   * requested, and no rule is both added and deleted.
   */
  lemma RuleUpdatesMinimal(existing: seq<AccessRule>, requested: seq<AccessRule>)
    ensures var (added, deleted) := RuleUpdates(existing, requested);
            added <= Normalized(requested) && added * Normalized(existing) == {} &&
            deleted <= Normalized(existing) && deleted * Normalized(requested) == {} &&
            added * deleted == {}
  {
  }

  predicate SameUpToCase(a: AccessRule, b: AccessRule) {
    Lower(a.accessTo) == Lower(b.accessTo) && a.accessLevel == b.accessLevel && a.accessType == b.accessType
  }

  /** Rule lists that differ only in the letter case of principals have the same identities. */
  lemma {:induction false} NormalizedIgnoresCase(a: seq<AccessRule>, b: seq<AccessRule>)
    requires |a| == |b|
    requires forall i :: 0 <= i < |a| ==> SameUpToCase(a[i], b[i])
    ensures Normalized(a) == Normalized(b)
  {
    forall x | x in Normalized(a) ensures x in Normalized(b) {
      var r :| r in a && x == NormalizeRule(r);
      var i :| 0 <= i < |a| && a[i] == r;
      assert NormalizeRule(b[i]) == x;
    }
    forall x | x in Normalized(b) ensures x in Normalized(a) {
      var r :| r in b && x == NormalizeRule(r);
      var i :| 0 <= i < |b| && b[i] == r;
      assert NormalizeRule(a[i]) == x;
    }
  }

  /** Reconciling against a case variant of the same rules (or the rules themselves) changes nothing. */
  lemma RuleUpdatesOfCaseVariant(existing: seq<AccessRule>, requested: seq<AccessRule>)
    requires |existing| == |requested|
    requires forall i :: 0 <= i < |existing| ==> SameUpToCase(existing[i], requested[i])
    ensures RuleUpdates(existing, requested) == ({}, {})
  {
    NormalizedIgnoresCase(existing, requested);
    assert Normalized(existing) - Normalized(requested) == {};
    assert Normalized(requested) - Normalized(existing) == {};
  }

  /** Every rule in the delta is a supported rule when both inputs hold only supported rules. */
  lemma RuleUpdatesSupported(existing: seq<AccessRule>, requested: seq<AccessRule>)
    requires forall r :: r in existing ==> IsSupportedRule(r)
    requires forall r :: r in requested ==> IsSupportedRule(r)
    ensures forall r :: r in RuleUpdates(existing, requested).0 ==> IsSupportedRule(r)
    ensures forall r :: r in RuleUpdates(existing, requested).1 ==> IsSupportedRule(r)
  {
  }

  /** Desired {alice: rw}, existing {alice: rw, bob: ro}: nothing to add, bob's rule to delete. */
  lemma RuleUpdatesAliceBob()
    ensures RuleUpdates([AccessRule("alice", LevelRW, TypeUser), AccessRule("bob", LevelRO, TypeUser)],
                        [AccessRule("alice", LevelRW, TypeUser)])
            == ({}, {AccessRule("bob", LevelRO, TypeUser)})
  {
    var alice, bob := AccessRule("alice", LevelRW, TypeUser), AccessRule("bob", LevelRO, TypeUser);
    assert Lower("alice") == "alice";
    assert Lower("bob") == "bob";
    assert NormalizeRule(alice) == alice && NormalizeRule(bob) == bob;
    assert Normalized([alice, bob]) == {alice, bob};
    assert Normalized([alice]) == {alice};
    assert alice != bob;
    assert {alice} - {alice, bob} == {};
    assert {alice, bob} - {alice} == {bob};
  }
}
