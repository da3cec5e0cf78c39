/**
 * The remote Windows host the driver talks to: the commands it can be sent, the part of
 * its state the driver observes or changes, and an executor object that keeps that state
 * together with the append-only trace of every command issued so far.
 */
module Remote {
  import opened Common
  import opened AccessRules

  /** A remote command: its kind and its arguments. */
  datatype Command =
    // queries: they return a value and change nothing
    | GetSmbShareAccess(share: string)
    | GetSmbSharePath(share: string)
    | GetDiskBySerial(serial: string)
    | GetDiskByMountPath(path: string)
    | GetPartitionMaxSize(disk: int, partition: int)
    // shares and share access
    | NewSmbShare(share: string, path: string)
    | RemoveSmbShare(share: string)
    | GrantSmbShareAccess(share: string, right: string, account: string)
    | RevokeSmbShareAccess(share: string, account: string)
    | SetSmbPathAcl(share: string)
    // disks, partitions and mount points
    | InitializeDisk(disk: int)
    | CreatePartition(disk: int)
    | FormatPartition(disk: int, partition: int)
    | EnsureDirectory(path: string)
    | AddAccessPath(path: string, disk: int, partition: int)
    | RemoveJunction(path: string)
    | UpdateDisk(disk: int)
    | SetDiskOnline(disk: int, online: bool)
    | SetDiskReadOnly(disk: int, readOnly: bool)
    | ResizePartition(disk: int, partition: int, size: nat)
  {
    predicate IsQuery() {
      GetSmbShareAccess? || GetSmbSharePath? || GetDiskBySerial? || GetDiskByMountPath? ||
      GetPartitionMaxSize?
    }
  }

  /**
   * What the driver sees of the host. `acls`, `serials` and `partitionMax` are only ever
   * read; the other fields are changed by the commands above.
   */
  datatype HostState = HostState(
    shares: map<string, string>,              // share name -> shared path
    acls: map<string, seq<RawAce>>,           // share name -> its access entries
    dirs: set<string>,                        // existing directories
    mounts: map<string, int>,                 // mount path -> disk bound there
    serials: map<string, int>,                // disk serial number -> disk number
    online: map<int, bool>,                   // disk -> online flag
    readOnly: map<int, bool>,                 // disk -> read-only flag
    partitions: map<int, nat>,                // disk -> number of partitions
    formatted: set<(int, int)>,               // formatted (disk, partition) pairs
    partitionSize: map<(int, int), nat>,      // (disk, partition) -> size in bytes
    partitionMax: map<(int, int), nat>)       // (disk, partition) -> largest size it can grow to

  // What each query returns.

  /** The path of a share, or the empty output when there is no such share. */
  function SharePathOf(s: HostState, share: string): string {
    if share in s.shares then s.shares[share] else ""
  }

  function AclOf(s: HostState, share: string): seq<RawAce> {
    if share in s.acls then s.acls[share] else []
  }

  function DiskBySerial(s: HostState, serial: string): Option<int> {
    if serial in s.serials then Some(s.serials[serial]) else None
  }

  function DiskAtMountPath(s: HostState, path: string): Option<int> {
    if path in s.mounts then Some(s.mounts[path]) else None
  }

  function PartitionMaxSize(s: HostState, disk: int, partition: int): Option<nat> {
    if (disk, partition) in s.partitionMax then Some(s.partitionMax[(disk, partition)]) else None
  }

  function PartitionCount(s: HostState, disk: int): nat {
    if disk in s.partitions then s.partitions[disk] else 0
  }

  /**
   * The effect of one command. Initialising a disk leaves it with the one partition the
   * operating system reserves; each partition created takes the next index.
   */
  function Apply(s: HostState, c: Command): HostState {
    match c
    case NewSmbShare(share, path) => s.(shares := s.shares[share := path])
    case RemoveSmbShare(share) => s.(shares := s.shares - {share})
    case InitializeDisk(disk) => s.(partitions := s.partitions[disk := 1])
    case CreatePartition(disk) => s.(partitions := s.partitions[disk := PartitionCount(s, disk) + 1])
    case FormatPartition(disk, partition) => s.(formatted := s.formatted + {(disk, partition)})
    case EnsureDirectory(path) => s.(dirs := s.dirs + {path})
    case AddAccessPath(path, disk, _) => s.(mounts := s.mounts[path := disk])
    case RemoveJunction(path) => s.(mounts := s.mounts - {path}, dirs := s.dirs - {path})
    case SetDiskOnline(disk, b) => s.(online := s.online[disk := b])
    case SetDiskReadOnly(disk, b) => s.(readOnly := s.readOnly[disk := b])
    case ResizePartition(disk, partition, size) =>
      s.(partitionSize := s.partitionSize[(disk, partition) := size])
    case _ => s
  }

  /** The state after a sequence of commands, in order. */
  function ApplyAll(s: HostState, cs: seq<Command>): HostState
    decreases |cs|
  {
    if cs == [] then s else ApplyAll(Apply(s, cs[0]), cs[1..])
  }

  /** Running two command sequences one after the other is running their concatenation. */
  lemma {:induction false} ApplyAllAppend(s: HostState, a: seq<Command>, b: seq<Command>)
    ensures ApplyAll(s, a + b) == ApplyAll(ApplyAll(s, a), b)
    decreases |a|
  {
    if a == [] {
      assert a + b == b;
    } else {
      assert (a + b)[0] == a[0] && (a + b)[1..] == a[1..] + b;
      ApplyAllAppend(Apply(s, a[0]), a[1..], b);
    }
  }

  /** Two commands sent one after the other extend the trace by both. */
  lemma TraceAppendTwo(t: seq<Command>, a: Command, b: Command)
    ensures t + [a] + [b] == t + [a, b]
  {
  }

  /**
   * The executor: the host's current state and every command sent to it so far. Its
   * state is always the initial state with the trace replayed on it.
   */
  class RemoteHost {
    ghost const initial: HostState
    var state: HostState
    var trace: seq<Command>

    ghost predicate Valid()
      reads this
    {
      state == ApplyAll(initial, trace)
    }

    constructor (s: HostState)
      ensures Valid() && state == s && trace == []
    {
      initial := s;
      state := s;
      trace := [];
    }

    /** Sends one command. */
    method Run(c: Command)
      requires Valid()
      modifies this
      ensures Valid()
      ensures trace == old(trace) + [c] && state == Apply(old(state), c)
    {
      ApplyAllAppend(initial, trace, [c]);
      assert ApplyAll(Apply(state, c), []) == Apply(state, c);
      trace := trace + [c];
      state := Apply(state, c);
    }

    method QuerySharePath(share: string) returns (out: string)
      requires Valid()
      modifies this
      ensures Valid()
      ensures trace == old(trace) + [GetSmbSharePath(share)] && state == old(state)
      ensures out == SharePathOf(state, share)
    {
      Run(GetSmbSharePath(share));
      out := SharePathOf(state, share);
    }

    method QueryShareAccess(share: string) returns (aces: seq<RawAce>)
      requires Valid()
      modifies this
      ensures Valid()
      ensures trace == old(trace) + [GetSmbShareAccess(share)] && state == old(state)
      ensures aces == AclOf(state, share)
    {
      Run(GetSmbShareAccess(share));
      aces := AclOf(state, share);
    }

    method QueryDiskBySerial(serial: string) returns (disk: Option<int>)
      requires Valid()
      modifies this
      ensures Valid()
      ensures trace == old(trace) + [GetDiskBySerial(serial)] && state == old(state)
      ensures disk == DiskBySerial(state, serial)
    {
      Run(GetDiskBySerial(serial));
      disk := DiskBySerial(state, serial);
    }

    method QueryDiskByMountPath(path: string) returns (disk: Option<int>)
      requires Valid()
      modifies this
      ensures Valid()
      ensures trace == old(trace) + [GetDiskByMountPath(path)] && state == old(state)
      ensures disk == DiskAtMountPath(state, path)
    {
      Run(GetDiskByMountPath(path));
      disk := DiskAtMountPath(state, path);
    }

    method QueryPartitionMaxSize(disk: int, partition: int) returns (size: Option<nat>)
      requires Valid()
      modifies this
      ensures Valid()
      ensures trace == old(trace) + [GetPartitionMaxSize(disk, partition)] && state == old(state)
      ensures size == PartitionMaxSize(state, disk, partition)
    {
      Run(GetPartitionMaxSize(disk, partition));
      size := PartitionMaxSize(state, disk, partition);
    }
  }
}
