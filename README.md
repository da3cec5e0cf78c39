# Windows SMB share driver: a Dafny model

This project models the core of manila's Windows SMB share driver. The driver keeps a
block-storage volume attached to a Windows share server. It formats the volume's disk,
mounts the disk's data partition under a per-share directory, and exposes that
directory as an SMB share. It then keeps the share's access list in line with the rules
manila requests. Every action is a PowerShell command sent to the server.

The model has six modules.

- `Common`: `Option`, `Result`, `Outcome` and the driver's error conditions.
- `AccessRules`: the pure rule algebra.
  - How one access-control entry read from the server is classified.
  - The rule list parsed from a share's access list (`ParsedRules`).
  - Validation of requested rules.
  - The add/delete delta, a set difference over rules whose principal is case-folded.
- `Paths`: the `/` to `\` path convention, the mount path of a share, the export
  location `\\address\name`, and the share name recovered from a location.
- `Remote`: the server as seen by the driver. `HostState` holds shares, access lists,
  directories, mount points, serial numbers, disk flags, partitions and their sizes. The
  class `RemoteHost` holds the current state and the append-only trace of every command
  sent, queries included. Its invariant `Valid()` says the state is the initial state
  with the trace replayed on it.
- `SmbHelper`: the class `WindowsSmbHelper`, modelling `WindowsSMBHelper`. It covers
  export creation and removal guarded by existence, reading access rules, grants and
  revokes each followed by an ACL refresh, and `update_access`. Each method states the
  exact commands it appends to the trace. The pure functions beside it give the grant,
  revoke and delta command sequences, and lemmas state their order.
- `Driver`: the class `WindowsSmbDriver`, modelling `WindowsSMBDriver`. It covers disk
  identification, the mount consistency check, and format, mount, unmount, resize and
  the online/writable re-assertion. Each method states the exact trace it appends, and
  that the new state is the old one with those commands replayed. Effect lemmas spell out
  what each command sequence does to the state.

Where the code and its evident intent differ, the model follows the intent, and
"## Findings" records both. The remaining divergences from the code as written are these:

- `_get_acls` calls `self._remote_cmd`, which the helper does not define. It is modelled
  as the helper's remote executor `_remote_exec`.
- `_get_acls` never applies `%` to its command string, so the command as written asks
  for the access list of a share literally named `%(share_name)s`. The model queries the
  access list of the share named by the caller.
- `_is_device_mounted` builds its error message with `_`, which `windows.py` does not
  import. It is modelled as raising the intended `ShareBackendException`, the
  `DiskMismatch` error.
- In `_mount_device` the online/writable re-assertion sits inside the "not mounted"
  branch. The model follows the code: a path that is already mounted gets no command that
  changes the host.
- `_unmount_device` always removes the junction at the mount path. It takes the disk
  offline only when the looked-up disk number is truthy, so neither a missing disk nor
  disk 0 is taken offline.
- `_ensure_disk_online_and_writable` refreshes the disk (`update_disk`) before setting it
  online and then writable. The model keeps that order.

## Model

Paths are relative to the repository root.

| member | source | states |
|---|---|---|
| AccessRules.WinAclLevel | manila/share/drivers/windows/windows_smb_helper.py:45-50 | Full and Change map to rw, Read to ro, Custom to custom; any other right code has no level (KeyError) |
| AccessRules.Classify | manila/share/drivers/windows/windows_smb_helper.py:103-122 | an entry raises iff its right is unknown, even on a deny; it yields a rule iff it is an allow with Full/Change/Read, and the rule keeps the account name's case with type user; it is the "no rules yet" placeholder iff it is a deny for Everyone (any case) and the only entry |
| AccessRules.ParsedRules | manila/share/drivers/windows/windows_smb_helper.py:99-128 | the rules a share's access list stands for: no more rules than entries, each a user rule with level rw or ro; its partner lemmas below prove when it fails, that it is sound and complete against the entries, and that it keeps entry order |
| AccessRules.ParsedRulesSucceeds | manila/share/drivers/windows/windows_smb_helper.py:103-105 | parsing a list raises exactly when some entry has a right code outside the table |
| AccessRules.ParsedRulesSound | manila/share/drivers/windows/windows_smb_helper.py:103-128 | no more rules than entries; every rule is a supported user rule and comes from an allow entry with Full, Change or Read, never from a deny or custom entry |
| AccessRules.ParsedRulesComplete | manila/share/drivers/windows/windows_smb_helper.py:118-127 | every allow entry with Full, Change or Read appears as a rule |
| AccessRules.ParsedRulesAppend | manila/share/drivers/windows/windows_smb_helper.py:101-128 | parsing keeps entry order: the rules of a concatenation are the concatenation of the rules |
| AccessRules.SoleEveryoneDenyIsPlaceholder | manila/share/drivers/windows/windows_smb_helper.py:108-111 | a list whose only entry is a deny for Everyone parses to no rules |
| AccessRules.ValidateAccessRules | manila/share/drivers/windows/windows_smb_helper.py:161-164 | validation passes iff every rule has type user and level rw or ro; a failure names an offending rule's type or level |
| AccessRules.SubtractAccessRules | manila/share/drivers/windows/windows_smb_helper.py:181-190 | a rule's case-folded identity is in the result iff no subtracted rule has the same identity; every result is the identity of some input rule, with its principal lower-cased |
| AccessRules.RuleUpdates | manila/share/drivers/windows/windows_smb_helper.py:192-197 | the delta is empty on both sides exactly when the existing and requested lists stand for the same rules; RuleUpdatesReconcile and RuleUpdatesMinimal below prove it reconciles and is minimal |
| AccessRules.RuleUpdatesReconcile | manila/share/drivers/windows/windows_smb_helper.py:181-197 | removing the rules to delete from the existing rules and adding the rules to add gives exactly the requested rules, up to principal case |
| AccessRules.RuleUpdatesMinimal | manila/share/drivers/windows/windows_smb_helper.py:181-197 | nothing added already exists, nothing deleted is still requested, and the added and deleted sets are disjoint |
| AccessRules.NormalizedIgnoresCase | manila/share/drivers/windows/windows_smb_helper.py:182-187 | rule lists that differ only in the letter case of principals have the same rule identities |
| AccessRules.RuleUpdatesOfCaseVariant | manila/share/drivers/windows/windows_smb_helper.py:182-197 | reconciling rules against themselves, or against a copy differing only in principal case, gives two empty sets |
| AccessRules.RuleUpdatesSupported | manila/share/drivers/windows/windows_smb_helper.py:161-170 | when both inputs are valid, every rule of the delta is a supported user rule |
| AccessRules.RuleUpdatesAliceBob | manila/share/drivers/windows/windows_smb_helper.py:192-197 | with alice rw requested and alice rw, bob ro existing: nothing to add, bob's rule to delete |
| Paths.NormalizePath | manila/share/drivers/windows/windows_smb_helper.py:199-201 | the normalised path has the same length, every '/' becomes '\', and every other character stays in place |
| Paths.JoinPath | manila/share/drivers/windows/windows.py:136-137 | an absolute second component replaces the first; otherwise the result is the first component, at most one '/', then the second |
| Paths.MountPath | manila/share/drivers/windows/windows.py:135-138 | the mount path has no '/' and ends in the normalised share name; MountPathShape and ShareNameOfMountPath below give its exact shape and the name it yields |
| Paths.LastSegment | manila/share/drivers/windows/windows_smb_helper.py:199-201 | the last segment is a suffix without '\', and is preceded by '\' whenever it is not the whole string |
| Paths.ShareName | manila/share/drivers/windows/windows_smb_helper.py:199-201 | the share name is the part of the location after its last '/' or '\', with neither character in it; ShareNameOfExportLocation below recovers the name of an export location |
| Paths.ShareNameOfExportLocation | manila/share/drivers/windows/windows_smb_helper.py:199-206 | the share name of `\\address\name` is `name`, whatever the address |
| Paths.MountPathShape | manila/share/drivers/windows/windows.py:135-138 | a share's mount path is the normalised root, one '\', then the share name |
| Paths.ShareNameOfMountPath | manila/share/drivers/windows/windows.py:135-138 | the share name of a share's mount path is the share's name, whatever the root |
| SmbHelper.ShareAccessRight | manila/share/drivers/windows/windows_smb_helper.py:31-33 | rw maps to Change, ro maps to Read, and no other level has a right |
| SmbHelper.GrantCommandsAt | manila/share/drivers/windows/windows_smb_helper.py:130-146 | granting n rules issues 2n commands: a grant of rule i with its right at 2i, a refresh of the share's ACL at 2i+1 |
| SmbHelper.RevokeCommandsAt | manila/share/drivers/windows/windows_smb_helper.py:144-157 | revoking n rules issues 2n commands: a revoke of rule i's principal at 2i, a refresh at 2i+1 |
| SmbHelper.GrantCommandsRefreshed | manila/share/drivers/windows/windows_smb_helper.py:141-142 | in a grant sequence every grant is followed at once by a refresh |
| SmbHelper.RevokeCommandsRefreshed | manila/share/drivers/windows/windows_smb_helper.py:156-157 | in a revoke sequence every revoke is followed at once by a refresh |
| SmbHelper.DeltaCommandsOrder | manila/share/drivers/windows/windows_smb_helper.py:171-179 | in a delta every grant precedes every revoke |
| SmbHelper.DeltaCommandsRefresh | manila/share/drivers/windows/windows_smb_helper.py:130-157 | in a delta every grant or revoke is followed at once by Set-SmbPathAcl for the same share |
| SmbHelper.DeltaCommandsActOnly | manila/share/drivers/windows/windows_smb_helper.py:171-179 | no command of a delta is a query |
| SmbHelper.GetExportsForShare | manila/share/drivers/windows/windows_smb_helper.py:203-206 | exactly one location, at the server's current address, naming the same share as the old location |
| SmbHelper.ExportsAfterAddressChange | manila/share/drivers/windows/windows_smb_helper.py:203-206 | an old export location gives exactly one location: the same share name at the server's current address |
| SmbHelper.ExportsForMountPath | manila/share/drivers/windows/windows_smb_helper.py:199-206 | the export rebuilt from a share's mount path is that share's location at the server's address |
| SmbHelper.ParseAccessRules | manila/share/drivers/windows/windows_smb_helper.py:99-128 | the loop over the entries yields exactly the parsed rules, or the KeyError of the first unknown right |
| SmbHelper.ParsedRulesFailurePersists | manila/share/drivers/windows/windows_smb_helper.py:103-105 | once a prefix of the entries fails to parse, the whole list fails with the same error |
| SmbHelper.EnumerateRules | manila/share/drivers/windows/windows_smb_helper.py:171 | iterating a set of rules lists each of its elements exactly once |
| SmbHelper.ValidationCoversEachList | manila/share/drivers/windows/windows_smb_helper.py:161-164 | a validation that passes on the three lists together passes on each list |
| SmbHelper.WindowsSmbHelper.constructor | manila/share/drivers/windows/windows_smb_helper.py:52-56 | the helper keeps the configured share mount root |
| SmbHelper.WindowsSmbHelper.GetSharePathByName | manila/share/drivers/windows/windows_smb_helper.py:208-218 | one path query; an empty answer raises ShareNotFound unless asked to ignore it, in which case there is no path; otherwise the path |
| SmbHelper.WindowsSmbHelper.GetSharePathByExportLocation | manila/share/drivers/windows/windows_smb_helper.py:220-222 | looks up the share named by the location's last segment; a missing share raises ShareNotFound |
| SmbHelper.WindowsSmbHelper.ShareExists | manila/share/drivers/windows/windows_smb_helper.py:224-227 | one path query and no change; true iff the share has a non-empty path |
| SmbHelper.WindowsSmbHelper.CreateExport | manila/share/drivers/windows/windows_smb_helper.py:61-73 | always returns `\\address\name`; issues New-SmbShare on the share's mount path only when the share does not exist, and then the share exists with that path |
| SmbHelper.WindowsSmbHelper.RemoveExport | manila/share/drivers/windows/windows_smb_helper.py:75-81 | issues Remove-SmbShare only when the share exists, and then the share is gone; otherwise nothing changes |
| SmbHelper.WindowsSmbHelper.RefreshAcl | manila/share/drivers/windows/windows_smb_helper.py:144-146 | appends exactly one Set-SmbPathAcl for the share |
| SmbHelper.WindowsSmbHelper.GrantShareAccess | manila/share/drivers/windows/windows_smb_helper.py:130-142 | an unsupported level raises before any command; otherwise a grant with the level's right and then a refresh |
| SmbHelper.WindowsSmbHelper.RevokeShareAccess | manila/share/drivers/windows/windows_smb_helper.py:148-157 | a revoke of the principal and then a refresh |
| SmbHelper.WindowsSmbHelper.GetAccessRules | manila/share/drivers/windows/windows_smb_helper.py:89-128 | one access query; the result is the parse of the share's access list |
| SmbHelper.WindowsSmbHelper.GrantAll | manila/share/drivers/windows/windows_smb_helper.py:171-175 | the loop over rules to add appends exactly the grant sequence of those rules |
| SmbHelper.WindowsSmbHelper.RevokeAll | manila/share/drivers/windows/windows_smb_helper.py:177-179 | the loop over rules to delete appends exactly the revoke sequence of those rules |
| SmbHelper.WindowsSmbHelper.ApplyDelta | manila/share/drivers/windows/windows_smb_helper.py:171-179 | all grants, then all revokes |
| SmbHelper.WindowsSmbHelper.DeriveRuleUpdates | manila/share/drivers/windows/windows_smb_helper.py:166-170 | reads the access list once; a parse failure propagates; otherwise the two lists enumerate the rules to add and to delete against the existing rules |
| SmbHelper.WindowsSmbHelper.UpdateAccess | manila/share/drivers/windows/windows_smb_helper.py:159-179 | a validation failure raises before any command; explicit additions or deletions are applied as given without reading the host; with neither, the access list is read once and the computed delta is applied |
| SmbHelper.CreateExportTwice | manila/share/drivers/windows/windows_smb_helper.py:61-73 | creating the same export twice gives the same location both times and creates the share at most once |
| SmbHelper.GetSharePathAsWritten | manila/share/drivers/windows/windows_smb_helper.py:208-218 | as written, asking to ignore a missing share always raises |
| SmbHelper.ShareExistsAsWritten | manila/share/drivers/windows/windows_smb_helper.py:224-227 | as written, the existence probe raises ShareNotFound on every call |
| SmbHelper.SubtractAccessRulesAsWritten | manila/share/drivers/windows/windows_smb_helper.py:181-190 | as written, the subtraction succeeds only when both lists are empty |
| SmbHelper.RuleUpdatesAsWritten | manila/share/drivers/windows/windows_smb_helper.py:192-197 | as written, computing the delta succeeds only when both lists are empty |
| SmbHelper.ApplyDeltaAsWritten | manila/share/drivers/windows/windows_smb_helper.py:171-175 | as written, any rule to add raises before a command is sent; with none, only the revokes run |
| SmbHelper.GrantAliceCounterexample | manila/share/drivers/windows/windows_smb_helper.py:166-175 | for alice rw on a share with no rules, the code as written raises, while the corrected model grants Change to alice and refreshes |
| SmbHelper.RevokeAliceScenario | manila/share/drivers/windows/windows_smb_helper.py:177-179 | deleting alice's rule issues her revoke and then a refresh |
| Driver.DiskNumberFor | manila/share/drivers/windows/windows.py:140-150 | the serial match wins whenever there is one; otherwise the fallback fails exactly on an empty mountpoint |
| Driver.FallbackIsLetterIndex | manila/share/drivers/windows/windows.py:147-149 | with no serial match, a mountpoint ending in the k-th letter names disk k |
| Driver.FallbackForDevHdb | manila/share/drivers/windows/windows.py:147-149 | with no serial match, /dev/hdb is disk 1 |
| Driver.OnlineWritableEffect | manila/share/drivers/windows/windows.py:123-128 | the re-assertion leaves the disk online and not read-only and changes nothing else |
| Driver.FormatEffect | manila/share/drivers/windows/windows.py:80-86 | formatting leaves the disk with two partitions, the last one being data partition 2, formatted, and changes nothing else |
| Driver.MountEffect | manila/share/drivers/windows/windows.py:92-98 | mounting creates the directory, binds it to the disk, and leaves the disk online and writable; nothing else changes |
| Driver.UnmountEffect | manila/share/drivers/windows/windows.py:105-109 | unmounting removes the junction and its directory, and takes the disk offline only when its number is truthy |
| Driver.RemountRestoresDisk | manila/share/drivers/windows/windows.py:88-109 | after an unmount that took a disk offline, mounting it again leaves it bound, online and writable |
| Driver.ResizeEffect | manila/share/drivers/windows/windows.py:111-121 | resizing leaves the disk online and writable and sets partition 2 to the given size |
| Driver.WindowsSmbDriver.constructor | manila/share/drivers/windows/windows.py:38-47 | the driver keeps the configured share mount root |
| Driver.WindowsSmbDriver.GetMountPath | manila/share/drivers/windows/windows.py:135-138 | the mount path has no '/' and, for a plain share name, ends in that name |
| Driver.WindowsSmbDriver.GetDiskNumber | manila/share/drivers/windows/windows.py:140-150 | one serial query and no change; the result is the serial match, else the mountpoint's letter index |
| Driver.WindowsSmbDriver.IsDeviceMounted | manila/share/drivers/windows/windows.py:152-171 | false iff no disk is bound at the path; with a volume whose serial-mapped disk differs from the bound one it raises DiskMismatch; otherwise true; it changes nothing |
| Driver.WindowsSmbDriver.EnsureDiskOnlineAndWritable | manila/share/drivers/windows/windows.py:123-128 | update_disk, online, then not read-only, in that order |
| Driver.WindowsSmbDriver.FormatDevice | manila/share/drivers/windows/windows.py:80-86 | initialise, create partition, format partition 2, all on the identified disk; a failed identification sends nothing |
| Driver.WindowsSmbDriver.MountDevice | manila/share/drivers/windows/windows.py:88-98 | an already bound path gets only the two lookups, and raises if another disk is bound there; otherwise directory, access path to partition 2, then the online/writable re-assertion |
| Driver.WindowsSmbDriver.BindAndBringOnline | manila/share/drivers/windows/windows.py:92-98 | the mutating commands of a fresh mount, in order |
| Driver.WindowsSmbDriver.UnmountDevice | manila/share/drivers/windows/windows.py:100-109 | always removes the junction at the share's mount path, then sets the bound disk offline only when its number is truthy |
| Driver.WindowsSmbDriver.ResizeFilesystem | manila/share/drivers/windows/windows.py:111-121 | online/writable first, then the maximum-size query, then partition 2 resized to exactly that size; a missing partition raises after the query |

## Left out

- The WinRM transport and the PowerShell command strings. A command is its kind and its
  arguments, and the host is an abstract state that answers lookups.
- Remote command failures other than the ones the code checks for. Every command in the
  model succeeds, except the partition-size query on a missing partition.
- JSON decoding of the access list. `_get_acls` yields the decoded records directly.
- `windows_utils` is not part of this model. `normalize_path` is modelled as replacing
  every '/' with '\'. `os.path.join` is modelled as the POSIX join. The `strip()` of the
  share-path output is not modelled: the host answers the exact path or the empty string.
- `validate_access_rules` in `helpers.py` is not part of this model. It is modelled as
  checking each rule in order, the type before the level.
- SmbHelper.WindowsSmbHelper.UpdateAccess: `update_access` passes `validate_access_rules`
  a list of the three rule lists. The model validates the rules of the three lists as one
  list, in order. This assumes the validator flattens its argument; if it walks the outer
  list instead, every call would fail, and the model does not capture that.
- AccessRules.Lower, AccessRules.NormalizeRule: account names are lower-cased for ASCII
  letters only, where Python's `lower()` also folds other letters. So
  AccessRules.RuleUpdatesReconcile, AccessRules.NormalizedIgnoresCase and
  AccessRules.RuleUpdatesOfCaseVariant treat two principals that differ only in a non-ASCII
  letter's case as different, and the delta then holds an add and a delete the code would
  not issue. AccessRules.Classify needs only the ASCII spelling of "everyone".
- The effect of grants, revokes and ACL refreshes on the server's access list. The access
  list is an input that these commands do not change, so what they do is stated by the
  commands they issue.
- SmbHelper.WindowsSmbHelper.UpdateAccess: a computed delta is a set, and the order in
  which it is granted or revoked is the set's iteration order, which is left unspecified.
- Logging, i18n, and the "already exists / does not exist" log messages.
- `init_helper` and `_get_volume_path_by_share_name`: thin remote calls with nothing to
  state beyond the call.
- `__init__` wiring, `_update_share_stats`, `_setup_service_instance_manager`,
  `_setup_helpers` and `_teardown_server` (domain unjoin and credentials).
- `_get_mounted_share_size`: its result is a float.
- The tests of `allow_access`, `_set_access`, `_block_access` and `_unblock_access` target
  methods the helper no longer has.

## Findings

| source | as written | input that shows it | evidently intended | confidence | as-written member | corrected member |
|---|---|---|---|---|---|---|
| manila/share/drivers/windows/windows_smb_helper.py:215-216 | the lookup raises when the path is empty or when the caller asks to ignore a missing share; `_share_exists` always asks, so it raises ShareNotFound on every call, and `create_export` / `remove_export` never complete | any share name, existing or not | an empty path means "not found", which the existence probe reports as false | not executed | SmbHelper.ShareExistsAsWritten | SmbHelper.WindowsSmbHelper.ShareExists |
| manila/share/drivers/windows/windows_smb_helper.py:183-187 | the rule identities are built as a set of dicts, and dicts are unhashable, so any non-empty rule list raises TypeError | existing rules [] and requested rules [alice rw user] | a set of (lower-cased principal, level, type) tuples | not executed | SmbHelper.SubtractAccessRulesAsWritten | AccessRules.RuleUpdatesReconcile |
| manila/share/drivers/windows/windows_smb_helper.py:171-175 | `_grant_share_access` takes a share name, a level and a principal, but `update_access` also passes the rule's type, so every grant raises TypeError | explicit add_rules [alice rw user] | grant the rule's level to its principal | not executed | SmbHelper.ApplyDeltaAsWritten | SmbHelper.WindowsSmbHelper.ApplyDelta |
