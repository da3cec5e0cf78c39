/**
 * The SMB helper of the Windows share driver: creating and removing the SMB share that
 * exposes a mounted share directory, rebuilding its export location, reading its access
 * list, and bringing that list in line with the requested rules by granting and revoking
 * access on the remote host.
 */
module SmbHelper {
  import opened Common
  import opened AccessRules
  import opened Paths
  import opened Remote

  /** The share server the helper talks to; only its public address matters here. */
  datatype Server = Server(publicAddress: string)

  /** The share right table: read-write is Change, read-only is Read; None where it raises KeyError. */
  function ShareAccessRight(level: string): (right: Option<string>)
    ensures right.Some? <==> IsSupportedLevel(level)
    ensures right == Some("Change") <==> level == LevelRW
    ensures right == Some("Read") <==> level == LevelRO
  {
    if level == LevelRW then Some("Change")
    else if level == LevelRO then Some("Read")
    else None
  }

  predicate AllSupportedLevels(rules: seq<AccessRule>) {
    forall i :: 0 <= i < |rules| ==> IsSupportedLevel(rules[i].accessLevel)
  }

  /** `xs` lists the elements of `s`, each once, in some order. */
  ghost predicate Enumerates(xs: seq<AccessRule>, s: set<AccessRule>) {
    |xs| == |s| && forall x :: x in xs <==> x in s
  }

  // ---------------------------------------------------------------------------
  // Command sequences

  /** Granting each rule in turn: a grant with the rule's right, then an ACL refresh. */
  function GrantCommands(share: string, rules: seq<AccessRule>): seq<Command>
    requires AllSupportedLevels(rules)
    decreases |rules|
  {
    if rules == [] then []
    else
      var last := rules[|rules| - 1];
      GrantCommands(share, rules[..|rules| - 1]) +
      [GrantSmbShareAccess(share, ShareAccessRight(last.accessLevel).value, last.accessTo), SetSmbPathAcl(share)]
  }

  /** Command 2i grants rule i its right; command 2i + 1 refreshes the share's ACL. */
  lemma {:induction false} GrantCommandsAt(share: string, rules: seq<AccessRule>)
    requires AllSupportedLevels(rules)
    ensures var cs := GrantCommands(share, rules);
            |cs| == 2 * |rules| &&
            forall k :: 0 <= k < |cs| ==>
              cs[k] == if k % 2 == 0
                       then GrantSmbShareAccess(share, ShareAccessRight(rules[k / 2].accessLevel).value, rules[k / 2].accessTo)
                       else SetSmbPathAcl(share)
    decreases |rules|
  {
    if rules != [] {
      var init := rules[..|rules| - 1];
      var n, last := |init|, rules[|rules| - 1];
      GrantCommandsAt(share, init);
      var cs, prev := GrantCommands(share, rules), GrantCommands(share, init);
      assert cs == prev + [GrantSmbShareAccess(share, ShareAccessRight(last.accessLevel).value, last.accessTo), SetSmbPathAcl(share)];
      forall k | 0 <= k < |cs|
        ensures cs[k] == if k % 2 == 0
                         then GrantSmbShareAccess(share, ShareAccessRight(rules[k / 2].accessLevel).value, rules[k / 2].accessTo)
                         else SetSmbPathAcl(share)
      {
        if k < 2 * n {
          assert cs[k] == prev[k] && rules[k / 2] == init[k / 2];
        } else if k == 2 * n {
          assert k / 2 == n;
        } else {
          assert k % 2 == 1;
        }
      }
    }
  }

  lemma GrantCommandsStep(share: string, rules: seq<AccessRule>, i: nat)
    requires i < |rules| && AllSupportedLevels(rules)
    ensures AllSupportedLevels(rules[..i]) && AllSupportedLevels(rules[..i + 1])
    ensures GrantCommands(share, rules[..i + 1]) ==
            GrantCommands(share, rules[..i]) +
            [GrantSmbShareAccess(share, ShareAccessRight(rules[i].accessLevel).value, rules[i].accessTo),
             SetSmbPathAcl(share)]
  {
    assert rules[..i + 1][..i] == rules[..i];
  }

  /** Revoking each rule in turn: a revoke for the rule's principal, then an ACL refresh. */
  function RevokeCommands(share: string, rules: seq<AccessRule>): seq<Command>
    decreases |rules|
  {
    if rules == [] then []
    else
      RevokeCommands(share, rules[..|rules| - 1]) +
      [RevokeSmbShareAccess(share, rules[|rules| - 1].accessTo), SetSmbPathAcl(share)]
  }

  /** Command 2i revokes the principal of rule i; command 2i + 1 refreshes the share's ACL. */
  lemma {:induction false} RevokeCommandsAt(share: string, rules: seq<AccessRule>)
    ensures var cs := RevokeCommands(share, rules);
            |cs| == 2 * |rules| &&
            forall k :: 0 <= k < |cs| ==>
              cs[k] == if k % 2 == 0 then RevokeSmbShareAccess(share, rules[k / 2].accessTo)
                       else SetSmbPathAcl(share)
    decreases |rules|
  {
    if rules != [] {
      var init := rules[..|rules| - 1];
      var n := |init|;
      RevokeCommandsAt(share, init);
      var cs, prev := RevokeCommands(share, rules), RevokeCommands(share, init);
      assert cs == prev + [RevokeSmbShareAccess(share, rules[n].accessTo), SetSmbPathAcl(share)];
      forall k | 0 <= k < |cs|
        ensures cs[k] == if k % 2 == 0 then RevokeSmbShareAccess(share, rules[k / 2].accessTo)
                         else SetSmbPathAcl(share)
      {
        if k < 2 * n {
          assert cs[k] == prev[k] && rules[k / 2] == init[k / 2];
        } else if k == 2 * n {
          assert k / 2 == n;
        } else {
          assert k % 2 == 1;
        }
      }
    }
  }

  /** Applying a delta: all grants, then all revokes. */
  function DeltaCommands(share: string, adds: seq<AccessRule>, deletes: seq<AccessRule>): seq<Command>
    requires AllSupportedLevels(adds)
  {
    GrantCommands(share, adds) + RevokeCommands(share, deletes)
  }

  /** In a delta every grant comes before every revoke. */
  lemma DeltaCommandsOrder(share: string, adds: seq<AccessRule>, deletes: seq<AccessRule>)
    requires AllSupportedLevels(adds)
    ensures var cs := DeltaCommands(share, adds, deletes);
            forall i, j :: (0 <= i < |cs| && 0 <= j < |cs| &&
              cs[i].GrantSmbShareAccess? && cs[j].RevokeSmbShareAccess?) ==> i < j
  {
    var g, r := GrantCommands(share, adds), RevokeCommands(share, deletes);
    GrantCommandsAt(share, adds);
    RevokeCommandsAt(share, deletes);
    var cs := g + r;
    assert forall i :: 0 <= i < |g| ==> !cs[i].RevokeSmbShareAccess? by {
      forall i | 0 <= i < |g| ensures !cs[i].RevokeSmbShareAccess? {
        assert cs[i] == g[i];
      }
    }
    assert forall i :: |g| <= i < |cs| ==> !cs[i].GrantSmbShareAccess? by {
      forall i | |g| <= i < |cs| ensures !cs[i].GrantSmbShareAccess? {
        assert cs[i] == r[i - |g|];
      }
    }
  }

  /** In a grant sequence a command other than a refresh is followed at once by a refresh. */
  lemma GrantCommandsRefreshed(share: string, rules: seq<AccessRule>, i: nat)
    requires AllSupportedLevels(rules)
    requires i < |GrantCommands(share, rules)| && !GrantCommands(share, rules)[i].SetSmbPathAcl?
    ensures i + 1 < |GrantCommands(share, rules)| && GrantCommands(share, rules)[i + 1] == SetSmbPathAcl(share)
  {
    GrantCommandsAt(share, rules);
  }

  /** In a revoke sequence a command other than a refresh is followed at once by a refresh. */
  lemma RevokeCommandsRefreshed(share: string, rules: seq<AccessRule>, i: nat)
    requires i < |RevokeCommands(share, rules)| && !RevokeCommands(share, rules)[i].SetSmbPathAcl?
    ensures i + 1 < |RevokeCommands(share, rules)| && RevokeCommands(share, rules)[i + 1] == SetSmbPathAcl(share)
  {
    RevokeCommandsAt(share, rules);
  }

  /** In a delta every grant or revoke is followed at once by an ACL refresh of the same share. */
  lemma DeltaCommandsRefresh(share: string, adds: seq<AccessRule>, deletes: seq<AccessRule>)
    requires AllSupportedLevels(adds)
    ensures var cs := DeltaCommands(share, adds, deletes);
            forall i :: 0 <= i < |cs| && (cs[i].GrantSmbShareAccess? || cs[i].RevokeSmbShareAccess?) ==>
              i + 1 < |cs| && cs[i + 1] == SetSmbPathAcl(share)
  {
    var g, r := GrantCommands(share, adds), RevokeCommands(share, deletes);
    var cs := g + r;
    forall i | 0 <= i < |cs| && (cs[i].GrantSmbShareAccess? || cs[i].RevokeSmbShareAccess?)
      ensures i + 1 < |cs| && cs[i + 1] == SetSmbPathAcl(share)
    {
      if i < |g| {
        assert cs[i] == g[i];
        GrantCommandsRefreshed(share, adds, i);
        assert cs[i + 1] == g[i + 1];
      } else {
        var j := i - |g|;
        assert cs[i] == r[j];
        RevokeCommandsRefreshed(share, deletes, j);
        assert cs[i + 1] == r[j + 1];
      }
    }
  }

  /** Nothing in a delta is a query: every command of it acts on the host. */
  lemma DeltaCommandsActOnly(share: string, adds: seq<AccessRule>, deletes: seq<AccessRule>)
    requires AllSupportedLevels(adds)
    ensures var cs := DeltaCommands(share, adds, deletes);
            forall i :: 0 <= i < |cs| ==> !cs[i].IsQuery()
  {
    var g, r := GrantCommands(share, adds), RevokeCommands(share, deletes);
    var cs := g + r;
    forall i | 0 <= i < |cs|
      ensures !cs[i].IsQuery()
    {
      if i < |g| {
        GrantCommandsAt(share, adds);
        assert cs[i] == g[i];
      } else {
        RevokeCommandsAt(share, deletes);
        assert cs[i] == r[i - |g|];
      }
    }
  }

  // ---------------------------------------------------------------------------
  // Export locations

  /** The export location of a share, rebuilt from a recorded one for the server's current address. */
  function GetExportsForShare(server: Server, oldLocation: string): (r: seq<string>)
    ensures |r| == 1 && "\\\\" + server.publicAddress + "\\" <= r[0]
    ensures ShareName(r[0]) == ShareName(oldLocation)
  {
    ShareNameOfExportLocation(server.publicAddress, ShareName(oldLocation));
    [ExportLocation(server.publicAddress, ShareName(oldLocation))]
  }

  /** After the server's address changes, the old location yields the location at the new address. */
  lemma ExportsAfterAddressChange(server: Server, oldAddress: string, name: string)
    requires IsPlainName(name)
    ensures GetExportsForShare(server, ExportLocation(oldAddress, name)) ==
            [ExportLocation(server.publicAddress, name)]
  {
    ShareNameOfExportLocation(oldAddress, name);
  }

  /** A share's mount path yields the share's export location. */
  lemma ExportsForMountPath(server: Server, root: string, name: string)
    requires IsPlainName(name)
    ensures GetExportsForShare(server, MountPath(root, name)) == [ExportLocation(server.publicAddress, name)]
  {
    ShareNameOfMountPath(root, name);
  }

  // ---------------------------------------------------------------------------
  // Parsing the access list

  /** The loop over the access entries of a share, building the rule list. */
  method ParseAccessRules(aces: seq<RawAce>) returns (r: Result<seq<AccessRule>>)
    ensures r == ParsedRules(aces, |aces|)
  {
    var rules: seq<AccessRule> := [];
    var i := 0;
    while i < |aces|
      invariant 0 <= i <= |aces|
      invariant ParsedRules(aces[..i], |aces|) == Success(rules)
    {
      var ace := aces[i];
      assert aces[..i + 1][..i] == aces[..i] && aces[..i + 1][i] == ace;
      var level := WinAclLevel(ace.accessRight);
      if level.None? {
        ParsedRulesFailurePersists(aces, i + 1, |aces|);
        assert aces[..|aces|] == aces;
        return Failure(UnknownAccessRight(ace.accessRight));
      }
      if ace.accessControlType != AclAllow {
        // The sole Everyone entry is the "no rules yet" placeholder; any other deny
        // entry was not created by the driver. Both are skipped.
        i := i + 1;
        continue;
      }
      if level.value == LevelCustom {
        i := i + 1;
        continue;
      }
      rules := rules + [AccessRule(ace.accountName, level.value, TypeUser)];
      i := i + 1;
    }
    assert aces[..i] == aces;
    r := Success(rules);
  }

  /** Once a prefix of the records fails to parse, the whole list fails the same way. */
  lemma {:induction false} ParsedRulesFailurePersists(aces: seq<RawAce>, n: nat, total: nat)
    requires n <= |aces| && ParsedRules(aces[..n], total).Failure?
    ensures ParsedRules(aces, total) == ParsedRules(aces[..n], total)
    decreases |aces| - n
  {
    if n < |aces| {
      assert aces[..n + 1][..n] == aces[..n];
      ParsedRulesFailurePersists(aces, n + 1, total);
    } else {
      assert aces[..n] == aces;
    }
  }

  /** Lists the elements of a set in some order (the order a set is iterated in). */
  method EnumerateRules(s: set<AccessRule>) returns (xs: seq<AccessRule>)
    ensures |xs| == |s| && forall x :: x in xs <==> x in s
  {
    xs := [];
    var rest := s;
    while rest != {}
      invariant rest <= s
      invariant forall x :: x in xs <==> x in s - rest
      invariant |xs| + |rest| == |s|
      decreases |rest|
    {
      var x :| x in rest;
      xs := xs + [x];
      rest := rest - {x};
    }
  }

  /** A validation that passes on the three lists together passes on each of them. */
  lemma ValidationCoversEachList(accessRules: seq<AccessRule>, addRules: seq<AccessRule>, deleteRules: seq<AccessRule>)
    requires ValidateAccessRules(accessRules + addRules + deleteRules).Pass?
    ensures forall r :: r in accessRules ==> IsSupportedRule(r)
    ensures forall r :: r in addRules ==> IsSupportedRule(r)
    ensures forall r :: r in deleteRules ==> IsSupportedRule(r)
  {
    var all := accessRules + addRules + deleteRules;
    assert forall i :: 0 <= i < |accessRules| ==> all[i] == accessRules[i];
    assert forall i :: 0 <= i < |addRules| ==> all[|accessRules| + i] == addRules[i];
    assert forall i :: 0 <= i < |deleteRules| ==> all[|accessRules| + |addRules| + i] == deleteRules[i];
  }

  // ---------------------------------------------------------------------------
  // The helper object

  class WindowsSmbHelper {
    /** The configured root under which share directories are mounted. */
    const shareMountPath: string

    constructor (shareMountPath: string)
      ensures this.shareMountPath == shareMountPath
    {
      this.shareMountPath := shareMountPath;
    }

    /**
     * The path of a share. A missing share raises ShareNotFound unless the caller asks to
     * ignore it, in which case there is no path.
     */
    method GetSharePathByName(host: RemoteHost, shareName: string, ignoreMissing: bool)
      returns (r: Result<Option<string>>)
      requires host.Valid()
      modifies host
      ensures host.Valid() && host.state == old(host.state)
      ensures host.trace == old(host.trace) + [GetSmbSharePath(shareName)]
      ensures var out := SharePathOf(old(host.state), shareName);
              (out == "" && !ignoreMissing ==> r == Failure(ShareNotFound(shareName))) &&
              (out == "" && ignoreMissing ==> r == Success(None)) &&
              (out != "" ==> r == Success(Some(out)))
    {
      var out := host.QuerySharePath(shareName);
      if out == "" {
        if ignoreMissing {
          return Success(None);
        }
        return Failure(ShareNotFound(shareName));
      }
      r := Success(Some(out));
    }

    /**
     * The path of the share an export location names; a missing share raises. For the
     * location of a share with a plain name, the lookup is of that name.
     */
    method GetSharePathByExportLocation(host: RemoteHost, location: string) returns (r: Result<Option<string>>)
      requires host.Valid()
      modifies host
      ensures host.Valid() && host.state == old(host.state)
      ensures host.trace == old(host.trace) + [GetSmbSharePath(ShareName(location))]
      ensures var out := SharePathOf(old(host.state), ShareName(location));
              (out == "" ==> r == Failure(ShareNotFound(ShareName(location)))) &&
              (out != "" ==> r == Success(Some(out)))
    {
      r := GetSharePathByName(host, ShareName(location), false);
    }

    /** Whether the share exists: an empty or absent path means it does not. Never raises. */
    method ShareExists(host: RemoteHost, shareName: string) returns (exists_: bool)
      requires host.Valid()
      modifies host
      ensures host.Valid() && host.state == old(host.state)
      ensures host.trace == old(host.trace) + [GetSmbSharePath(shareName)]
      ensures exists_ <==> SharePathOf(old(host.state), shareName) != ""
    {
      var path := GetSharePathByName(host, shareName, true);
      exists_ := path.Success? && path.value.Some?;
    }

    /**
     * Exposes the share's mount directory as an SMB share unless a share of that name
     * already exists, and returns the export location in either case.
     */
    method CreateExport(host: RemoteHost, server: Server, shareName: string) returns (location: string)
      requires host.Valid()
      modifies host
      ensures host.Valid()
      ensures location == ExportLocation(server.publicAddress, shareName)
      ensures var before := old(host.state);
              var path := MountPath(shareMountPath, shareName);
              if SharePathOf(before, shareName) != "" then
                host.trace == old(host.trace) + [GetSmbSharePath(shareName)] && host.state == before
              else
                host.trace == old(host.trace) + [GetSmbSharePath(shareName), NewSmbShare(shareName, path)] &&
                host.state == before.(shares := before.shares[shareName := path])
    {
      var exists_ := ShareExists(host, shareName);
      if !exists_ {
        var path := MountPath(shareMountPath, shareName);
        TraceAppendTwo(old(host.trace), GetSmbSharePath(shareName), NewSmbShare(shareName, path));
        host.Run(NewSmbShare(shareName, path));
      }
      location := ExportLocation(server.publicAddress, shareName);
    }

    /** Removes the SMB share if it exists; issues nothing that changes the host otherwise. */
    method RemoveExport(host: RemoteHost, shareName: string)
      requires host.Valid()
      modifies host
      ensures host.Valid()
      ensures var before := old(host.state);
              if SharePathOf(before, shareName) != "" then
                host.trace == old(host.trace) + [GetSmbSharePath(shareName), RemoveSmbShare(shareName)] &&
                host.state == before.(shares := before.shares - {shareName})
              else
                host.trace == old(host.trace) + [GetSmbSharePath(shareName)] && host.state == before
    {
      var exists_ := ShareExists(host, shareName);
      if exists_ {
        host.Run(RemoveSmbShare(shareName));
      }
    }

    /** Re-applies the share's access list to the shared path. */
    method RefreshAcl(host: RemoteHost, shareName: string)
      requires host.Valid()
      modifies host
      ensures host.Valid() && host.state == old(host.state)
      ensures host.trace == old(host.trace) + [SetSmbPathAcl(shareName)]
    {
      host.Run(SetSmbPathAcl(shareName));
    }

    /** Grants the right of `accessLevel` to `accessTo`, then refreshes the share's ACL. */
    method GrantShareAccess(host: RemoteHost, shareName: string, accessLevel: string, accessTo: string)
      returns (res: Outcome)
      requires host.Valid()
      modifies host
      ensures host.Valid() && host.state == old(host.state)
      ensures !IsSupportedLevel(accessLevel) ==>
                res == Fail(UnknownAccessLevel(accessLevel)) && host.trace == old(host.trace)
      ensures IsSupportedLevel(accessLevel) ==>
                res == Pass &&
                host.trace == old(host.trace) + [GrantSmbShareAccess(shareName, ShareAccessRight(accessLevel).value, accessTo),
                                                 SetSmbPathAcl(shareName)]
    {
      var right := ShareAccessRight(accessLevel);
      if right.None? {
        return Fail(UnknownAccessLevel(accessLevel));
      }
      host.Run(GrantSmbShareAccess(shareName, right.value, accessTo));
      RefreshAcl(host, shareName);
      res := Pass;
    }

    /** Revokes all access of `accessTo`, then refreshes the share's ACL. */
    method RevokeShareAccess(host: RemoteHost, shareName: string, accessTo: string)
      requires host.Valid()
      modifies host
      ensures host.Valid() && host.state == old(host.state)
      ensures host.trace == old(host.trace) + [RevokeSmbShareAccess(shareName, accessTo), SetSmbPathAcl(shareName)]
    {
      host.Run(RevokeSmbShareAccess(shareName, accessTo));
      RefreshAcl(host, shareName);
    }

    /** Reads the share's access list and parses it into rules. */
    method GetAccessRules(host: RemoteHost, shareName: string) returns (r: Result<seq<AccessRule>>)
      requires host.Valid()
      modifies host
      ensures host.Valid() && host.state == old(host.state)
      ensures host.trace == old(host.trace) + [GetSmbShareAccess(shareName)]
      ensures var aces := AclOf(old(host.state), shareName); r == ParsedRules(aces, |aces|)
    {
      var aces := host.QueryShareAccess(shareName);
      r := ParseAccessRules(aces);
    }

    /** Grants every rule of `rules`, in order. */
    method GrantAll(host: RemoteHost, shareName: string, rules: seq<AccessRule>)
      requires host.Valid() && AllSupportedLevels(rules)
      modifies host
      ensures host.Valid() && host.state == old(host.state)
      ensures host.trace == old(host.trace) + GrantCommands(shareName, rules)
    {
      for i := 0 to |rules|
        invariant host.Valid() && host.state == old(host.state)
        invariant AllSupportedLevels(rules[..i])
        invariant host.trace == old(host.trace) + GrantCommands(shareName, rules[..i])
      {
        GrantCommandsStep(shareName, rules, i);
        var res := GrantShareAccess(host, shareName, rules[i].accessLevel, rules[i].accessTo);
      }
      assert rules[..|rules|] == rules;
    }

    /** Revokes the principal of every rule of `rules`, in order. */
    method RevokeAll(host: RemoteHost, shareName: string, rules: seq<AccessRule>)
      requires host.Valid()
      modifies host
      ensures host.Valid() && host.state == old(host.state)
      ensures host.trace == old(host.trace) + RevokeCommands(shareName, rules)
    {
      for i := 0 to |rules|
        invariant host.Valid() && host.state == old(host.state)
        invariant host.trace == old(host.trace) + RevokeCommands(shareName, rules[..i])
      {
        assert rules[..i + 1][..i] == rules[..i];
        assert RevokeCommands(shareName, rules[..i + 1]) ==
               RevokeCommands(shareName, rules[..i]) + [RevokeSmbShareAccess(shareName, rules[i].accessTo), SetSmbPathAcl(shareName)];
        RevokeShareAccess(host, shareName, rules[i].accessTo);
      }
      assert rules[..|rules|] == rules;
    }

    /** Grants every rule to add, then revokes every rule to delete. */
    method ApplyDelta(host: RemoteHost, shareName: string, adds: seq<AccessRule>, deletes: seq<AccessRule>)
      requires host.Valid() && AllSupportedLevels(adds)
      modifies host
      ensures host.Valid() && host.state == old(host.state)
      ensures host.trace == old(host.trace) + DeltaCommands(shareName, adds, deletes)
    {
      GrantAll(host, shareName, adds);
      RevokeAll(host, shareName, deletes);
    }

    /**
     * The delta between the share's current rules, read from the host, and the requested
     * rules, each side listed in some order.
     */
    method DeriveRuleUpdates(host: RemoteHost, shareName: string, accessRules: seq<AccessRule>)
      returns (r: Result<(seq<AccessRule>, seq<AccessRule>)>)
      requires host.Valid() && forall x :: x in accessRules ==> IsSupportedRule(x)
      modifies host
      ensures host.Valid() && host.state == old(host.state)
      ensures host.trace == old(host.trace) + [GetSmbShareAccess(shareName)]
      ensures var aces := AclOf(old(host.state), shareName);
              var existing := ParsedRules(aces, |aces|);
              (existing.Failure? ==> r == Failure(existing.error)) &&
              (existing.Success? ==>
                 r.Success? &&
                 Enumerates(r.value.0, RuleUpdates(existing.value, accessRules).0) &&
                 Enumerates(r.value.1, RuleUpdates(existing.value, accessRules).1) &&
                 AllSupportedLevels(r.value.0))
    {
      var existing := GetAccessRules(host, shareName);
      if existing.Failure? {
        return Failure(existing.error);
      }
      ghost var aces := AclOf(old(host.state), shareName);
      ParsedRulesSound(aces, |aces|);
      RuleUpdatesSupported(existing.value, accessRules);
      var (added, deleted) := RuleUpdates(existing.value, accessRules);
      var adds := EnumerateRules(added);
      var deletes := EnumerateRules(deleted);
      assert forall i :: 0 <= i < |adds| ==> adds[i] in added;
      r := Success((adds, deletes));
    }

    /**
     * Brings the share's access list in line with the requested rules. All three lists are
     * validated before anything is sent. With no explicit additions or deletions, the
     * delta is computed against the access list read from the host; otherwise the
     * explicit lists are applied as given. Grants come first, then revokes.
     */
    method UpdateAccess(host: RemoteHost, shareName: string, accessRules: seq<AccessRule>,
                        addRules: seq<AccessRule>, deleteRules: seq<AccessRule>)
      returns (res: Outcome, ghost granted: seq<AccessRule>, ghost revoked: seq<AccessRule>)
      requires host.Valid()
      modifies host
      ensures host.Valid() && host.state == old(host.state)
      ensures ValidateAccessRules(accessRules + addRules + deleteRules).Fail? ==>
                res == ValidateAccessRules(accessRules + addRules + deleteRules) &&
                host.trace == old(host.trace)
      ensures ValidateAccessRules(accessRules + addRules + deleteRules).Pass? &&
              (addRules != [] || deleteRules != []) ==>
                res == Pass && granted == addRules && revoked == deleteRules &&
                AllSupportedLevels(addRules) &&
                host.trace == old(host.trace) + DeltaCommands(shareName, addRules, deleteRules)
      ensures ValidateAccessRules(accessRules + addRules + deleteRules).Pass? &&
              addRules == [] && deleteRules == [] ==>
                var aces := AclOf(old(host.state), shareName);
                var existing := ParsedRules(aces, |aces|);
                (existing.Failure? ==>
                   res == Fail(existing.error) &&
                   host.trace == old(host.trace) + [GetSmbShareAccess(shareName)]) &&
                (existing.Success? ==>
                   res == Pass &&
                   Enumerates(granted, RuleUpdates(existing.value, accessRules).0) &&
                   Enumerates(revoked, RuleUpdates(existing.value, accessRules).1) &&
                   AllSupportedLevels(granted) &&
                   host.trace == old(host.trace) + [GetSmbShareAccess(shareName)] +
                                 DeltaCommands(shareName, granted, revoked))
    {
      granted, revoked := [], [];
      res := ValidateAccessRules(accessRules + addRules + deleteRules);
      if res.Fail? {
        return;
      }
      ValidationCoversEachList(accessRules, addRules, deleteRules);
      if addRules == [] && deleteRules == [] {
        var delta := DeriveRuleUpdates(host, shareName, accessRules);
        if delta.Failure? {
          res := Fail(delta.error);
          return;
        }
        ApplyDelta(host, shareName, delta.value.0, delta.value.1);
        granted, revoked := delta.value.0, delta.value.1;
      } else {
        assert forall i :: 0 <= i < |addRules| ==> addRules[i] in addRules;
        ApplyDelta(host, shareName, addRules, deleteRules);
        granted, revoked := addRules, deleteRules;
      }
    }
  }

  lemma CreatedShareHasPath(s: HostState, share: string, path: string)
    requires path != ""
    ensures SharePathOf(s.(shares := s.shares[share := path]), share) == path
  {
  }

  /** Creating the same export twice creates the share at most once and yields one location. */
  method CreateExportTwice(helper: WindowsSmbHelper, host: RemoteHost, server: Server, shareName: string)
    returns (first: string, second: string)
    requires host.Valid() && shareName != ""
    modifies host
    ensures host.Valid()
    ensures first == second == ExportLocation(server.publicAddress, shareName)
    ensures var created := [NewSmbShare(shareName, MountPath(helper.shareMountPath, shareName))];
            host.trace == old(host.trace) + [GetSmbSharePath(shareName)] +
                          (if SharePathOf(old(host.state), shareName) != "" then [] else created) +
                          [GetSmbSharePath(shareName)]
  {
    ghost var s0, t0 := host.state, host.trace;
    ghost var path := MountPath(helper.shareMountPath, shareName);
    ghost var lookup := GetSmbSharePath(shareName);
    first := helper.CreateExport(host, server, shareName);
    if SharePathOf(s0, shareName) == "" {
      CreatedShareHasPath(s0, shareName, path);
      TraceAppendTwo(t0, lookup, NewSmbShare(shareName, path));
    } else {
      assert t0 + [lookup] + [] == t0 + [lookup];
    }
    second := helper.CreateExport(host, server, shareName);
  }

  // ---------------------------------------------------------------------------
  // The code as written, where it departs from what it evidently means to do

  /**
   * The share-path lookup as written: it raises when the path is empty OR when the caller
   * asks to ignore a missing share, so asking to ignore always raises.
   */
  function GetSharePathAsWritten(shareName: string, out: string, ignoreMissing: bool): (r: Result<string>)
    ensures ignoreMissing ==> r == Failure(ShareNotFound(shareName))
    ensures !ignoreMissing ==> (r.Success? <==> out != "")
  {
    if out == "" || ignoreMissing then Failure(ShareNotFound(shareName)) else Success(out)
  }

  /** The existence probe as written: it asks to ignore a missing share, so it raises on every call. */
  function ShareExistsAsWritten(shareName: string, out: string): (r: Result<bool>)
    ensures r == Failure(ShareNotFound(shareName))
  {
    match GetSharePathAsWritten(shareName, out, true)
    case Failure(e) => Failure(e)
    case Success(path) => Success(path != "")
  }

  /**
   * The rule subtraction as written: it puts dictionaries into a set, which raises
   * TypeError as soon as either rule list is non-empty.
   */
  function SubtractAccessRulesAsWritten(rules: seq<AccessRule>, subtracted: seq<AccessRule>): (r: Result<set<AccessRule>>)
    ensures r.Success? <==> rules == [] && subtracted == []
    ensures r.Success? ==> r.value == SubtractAccessRules(rules, subtracted)
  {
    if rules != [] || subtracted != [] then Failure(TypeError("unhashable type: 'dict'"))
    else Success({})
  }

  function RuleUpdatesAsWritten(existing: seq<AccessRule>, requested: seq<AccessRule>)
    : (r: Result<(set<AccessRule>, set<AccessRule>)>)
    ensures r.Success? <==> existing == [] && requested == []
  {
    match SubtractAccessRulesAsWritten(requested, existing)
    case Failure(e) => Failure(e)
    case Success(added) =>
      match SubtractAccessRulesAsWritten(existing, requested)
      case Failure(e) => Failure(e)
      case Success(deleted) => Success((added, deleted))
  }

  /**
   * Applying a delta as written: each grant passes the rule's type as an extra argument,
   * which raises TypeError on the first rule to add, before any command is sent.
   */
  function ApplyDeltaAsWritten(share: string, adds: seq<AccessRule>, deletes: seq<AccessRule>)
    : (r: Result<seq<Command>>)
    ensures adds != [] ==> r.Failure?
    ensures adds == [] ==> r == Success(RevokeCommands(share, deletes))
  {
    if adds != [] then Failure(TypeError("_grant_share_access() takes 5 positional arguments but 6 were given"))
    else Success(RevokeCommands(share, deletes))
  }

  /** Requesting read-write for alice on a share with no rules: as written this raises twice over. */
  lemma GrantAliceCounterexample(share: string)
    ensures var alice := AccessRule("alice", LevelRW, TypeUser);
            RuleUpdatesAsWritten([], [alice]).Failure? &&
            ApplyDeltaAsWritten(share, [alice], []).Failure? &&
            RuleUpdates([], [alice]) == ({alice}, {}) &&
            DeltaCommands(share, [alice], []) == [GrantSmbShareAccess(share, "Change", "alice"), SetSmbPathAcl(share)]
  {
    var alice := AccessRule("alice", LevelRW, TypeUser);
    assert Lower("alice") == "alice";
    assert NormalizeRule(alice) == alice;
    assert Normalized([alice]) == {alice};
    assert Normalized([]) == {};
    assert SubtractAccessRules([alice], []) == {alice};
    assert SubtractAccessRules([], [alice]) == {};
    assert [alice][..0] == [];
    assert GrantCommands(share, [alice]) == [GrantSmbShareAccess(share, "Change", "alice"), SetSmbPathAcl(share)];
    assert RevokeCommands(share, []) == [];
  }

  /** Revoking alice issues the revoke and then the refresh. */
  lemma RevokeAliceScenario(share: string)
    ensures DeltaCommands(share, [], [AccessRule("alice", LevelRW, TypeUser)]) ==
            [RevokeSmbShareAccess(share, "alice"), SetSmbPathAcl(share)]
  {
    var alice := AccessRule("alice", LevelRW, TypeUser);
    assert [alice][..0] == [];
    assert GrantCommands(share, []) == [];
    assert RevokeCommands(share, [alice]) == [RevokeSmbShareAccess(share, "alice"), SetSmbPathAcl(share)];
  }
}
