/**
 * The disk lifecycle of the Windows share driver: finding the disk that backs a volume,
 * formatting it, mounting its data partition under the share's mount path, unmounting
 * it, growing it, and keeping it online and writable.
 */
module Driver {
  import opened Common
  import opened Paths
  import opened Remote

  /** The data partition of every share disk; partition 1 is reserved by the operating system. */
  const DefaultSharePartition: int := 2

  /** A block-storage volume attached to the share server. */
  datatype Volume = Volume(id: string, mountpoint: string)

  datatype Share = Share(name: string)

  // ---------------------------------------------------------------------------
  // Disk identification

  /**
   * The disk of a volume: the disk whose serial number is the volume id if there is one;
   * otherwise the last character of the mountpoint counted from 'a', so /dev/hdb is disk 1.
   * An empty mountpoint has no last character and raises.
   */
  function DiskNumberFor(serialMatch: Option<int>, mountpoint: string): (r: Result<int>)
    ensures serialMatch.Some? ==> r == Success(serialMatch.value)
    ensures serialMatch.None? ==> (r.Failure? <==> mountpoint == "")
  {
    match serialMatch
    case Some(disk) => Success(disk)
    case None =>
      if mountpoint == "" then Failure(EmptyMountpoint)
      else Success(mountpoint[|mountpoint| - 1] as int - 'a' as int)
  }

  /** Without a serial match, a mountpoint ending in the k-th letter names disk k. */
  lemma FallbackIsLetterIndex(prefix: string, k: nat)
    requires k < 26
    ensures DiskNumberFor(None, prefix + [('a' as int + k) as char]) == Success(k)
  {
  }

  lemma FallbackForDevHdb()
    ensures DiskNumberFor(None, "/dev/hdb") == Success(1)
  {
  }

  // ---------------------------------------------------------------------------
  // Command sequences and their effect on the host

  function OnlineWritableCommands(disk: int): seq<Command> {
    [UpdateDisk(disk), SetDiskOnline(disk, true), SetDiskReadOnly(disk, false)]
  }

  function FormatCommands(disk: int): seq<Command> {
    [InitializeDisk(disk), CreatePartition(disk), FormatPartition(disk, DefaultSharePartition)]
  }

  function MountCommands(path: string, disk: int): seq<Command> {
    [EnsureDirectory(path), AddAccessPath(path, disk, DefaultSharePartition)] + OnlineWritableCommands(disk)
  }

  /** The disk found at the mount path is taken offline only when its number is truthy (not 0). */
  function UnmountCommands(path: string, bound: Option<int>): seq<Command> {
    [RemoveJunction(path)] + (if bound.Some? && bound.value != 0 then [SetDiskOnline(bound.value, false)] else [])
  }

  function ResizeCommands(disk: int, size: nat): seq<Command> {
    OnlineWritableCommands(disk) +
    [GetPartitionMaxSize(disk, DefaultSharePartition), ResizePartition(disk, DefaultSharePartition, size)]
  }

  lemma ApplyAllOne(s: HostState, a: Command)
    ensures ApplyAll(s, [a]) == Apply(s, a)
  {
    assert [a][1..] == [];
    assert ApplyAll(s, [a]) == ApplyAll(Apply(s, a), []);
  }

  lemma ApplyAllTwo(s: HostState, a: Command, b: Command)
    ensures ApplyAll(s, [a, b]) == Apply(Apply(s, a), b)
  {
    assert [a, b][0] == a && [a, b][1..] == [b];
    assert ApplyAll(s, [a, b]) == ApplyAll(Apply(s, a), [b]);
    ApplyAllOne(Apply(s, a), b);
  }

  lemma ApplyAllThree(s: HostState, a: Command, b: Command, c: Command)
    ensures ApplyAll(s, [a, b, c]) == Apply(Apply(Apply(s, a), b), c)
  {
    assert [a, b, c][0] == a && [a, b, c][1..] == [b, c];
    assert ApplyAll(s, [a, b, c]) == ApplyAll(Apply(s, a), [b, c]);
    ApplyAllTwo(Apply(s, a), b, c);
  }

  // The effect of each command the driver sends, one lemma per command.

  lemma UpdateDiskStep(s: HostState, disk: int)
    ensures Apply(s, UpdateDisk(disk)) == s
  {
  }

  lemma SetDiskOnlineStep(s: HostState, disk: int, b: bool)
    ensures Apply(s, SetDiskOnline(disk, b)) == s.(online := s.online[disk := b])
  {
  }

  lemma SetDiskReadOnlyStep(s: HostState, disk: int, b: bool)
    ensures Apply(s, SetDiskReadOnly(disk, b)) == s.(readOnly := s.readOnly[disk := b])
  {
  }

  lemma InitializeDiskStep(s: HostState, disk: int)
    ensures Apply(s, InitializeDisk(disk)) == s.(partitions := s.partitions[disk := 1])
  {
  }

  lemma CreatePartitionStep(s: HostState, disk: int)
    ensures Apply(s, CreatePartition(disk)) == s.(partitions := s.partitions[disk := PartitionCount(s, disk) + 1])
  {
  }

  lemma FormatPartitionStep(s: HostState, disk: int, partition: int)
    ensures Apply(s, FormatPartition(disk, partition)) == s.(formatted := s.formatted + {(disk, partition)})
  {
  }

  lemma EnsureDirectoryStep(s: HostState, path: string)
    ensures Apply(s, EnsureDirectory(path)) == s.(dirs := s.dirs + {path})
  {
  }

  lemma AddAccessPathStep(s: HostState, path: string, disk: int, partition: int)
    ensures Apply(s, AddAccessPath(path, disk, partition)) == s.(mounts := s.mounts[path := disk])
  {
  }

  lemma RemoveJunctionStep(s: HostState, path: string)
    ensures Apply(s, RemoveJunction(path)) == s.(mounts := s.mounts - {path}, dirs := s.dirs - {path})
  {
  }

  lemma ResizePartitionStep(s: HostState, disk: int, partition: int, size: nat)
    ensures Apply(s, ResizePartition(disk, partition, size)) ==
            s.(partitionSize := s.partitionSize[(disk, partition) := size])
  {
  }

  /** Making a disk online and writable sets exactly its two flags. */
  lemma OnlineWritableEffect(s: HostState, disk: int)
    ensures ApplyAll(s, OnlineWritableCommands(disk)) ==
            s.(online := s.online[disk := true], readOnly := s.readOnly[disk := false])
  {
    ApplyAllThree(s, UpdateDisk(disk), SetDiskOnline(disk, true), SetDiskReadOnly(disk, false));
    UpdateDiskStep(s, disk);
    SetDiskOnlineStep(s, disk, true);
    SetDiskReadOnlyStep(s.(online := s.online[disk := true]), disk, false);
  }

  /**
   * Formatting leaves the disk with two partitions, the reserved one and the data
   * partition, and the data partition formatted.
   */
  lemma FormatEffect(s: HostState, disk: int)
    ensures var t := ApplyAll(s, FormatCommands(disk));
            t == s.(partitions := s.partitions[disk := 2],
                    formatted := s.formatted + {(disk, DefaultSharePartition)}) &&
            PartitionCount(t, disk) == DefaultSharePartition
  {
    var s1 := s.(partitions := s.partitions[disk := 1]);
    var s2 := s.(partitions := s.partitions[disk := 2]);
    var t := s2.(formatted := s.formatted + {(disk, DefaultSharePartition)});
    assert Apply(s, InitializeDisk(disk)) == s1 by {
      InitializeDiskStep(s, disk);
    }
    assert Apply(s1, CreatePartition(disk)) == s2 by {
      CreatePartitionStep(s1, disk);
      assert PartitionCount(s1, disk) == 1;
      assert s1.partitions[disk := 2] == s.partitions[disk := 2];
    }
    assert Apply(s2, FormatPartition(disk, DefaultSharePartition)) == t by {
      FormatPartitionStep(s2, disk, DefaultSharePartition);
    }
    ApplyAllThree(s, InitializeDisk(disk), CreatePartition(disk), FormatPartition(disk, DefaultSharePartition));
  }

  /** Mounting creates the directory, binds it to the disk, and leaves the disk online and writable. */
  lemma MountEffect(s: HostState, path: string, disk: int)
    ensures ApplyAll(s, MountCommands(path, disk)) ==
            s.(dirs := s.dirs + {path}, mounts := s.mounts[path := disk],
               online := s.online[disk := true], readOnly := s.readOnly[disk := false])
  {
    var first := [EnsureDirectory(path), AddAccessPath(path, disk, DefaultSharePartition)];
    ApplyAllAppend(s, first, OnlineWritableCommands(disk));
    ApplyAllTwo(s, first[0], first[1]);
    EnsureDirectoryStep(s, path);
    var s1 := s.(dirs := s.dirs + {path});
    AddAccessPathStep(s1, path, disk, DefaultSharePartition);
    var s2 := s.(dirs := s.dirs + {path}, mounts := s.mounts[path := disk]);
    assert s1.(mounts := s1.mounts[path := disk]) == s2;
    OnlineWritableEffect(s2, disk);
  }

  /** Unmounting unbinds and removes the mount path and takes a truthy-numbered disk offline. */
  lemma UnmountEffect(s: HostState, path: string, bound: Option<int>)
    ensures ApplyAll(s, UnmountCommands(path, bound)) ==
            s.(mounts := s.mounts - {path}, dirs := s.dirs - {path},
               online := if bound.Some? && bound.value != 0 then s.online[bound.value := false] else s.online)
  {
    RemoveJunctionStep(s, path);
    var s1 := s.(mounts := s.mounts - {path}, dirs := s.dirs - {path});
    if bound.Some? && bound.value != 0 {
      ApplyAllTwo(s, RemoveJunction(path), SetDiskOnline(bound.value, false));
      SetDiskOnlineStep(s1, bound.value, false);
    } else {
      assert UnmountCommands(path, bound) == [RemoveJunction(path)];
      ApplyAllOne(s, RemoveJunction(path));
    }
  }

  /**
   * A disk that an unmount took offline is online, writable and bound again after the
   * next mount: the reason every mount re-asserts both flags.
   */
  lemma RemountRestoresDisk(s: HostState, path: string, disk: int)
    ensures var t := ApplyAll(ApplyAll(s, UnmountCommands(path, Some(disk))), MountCommands(path, disk));
            path in t.mounts && t.mounts[path] == disk && path in t.dirs &&
            disk in t.online && t.online[disk] && disk in t.readOnly && !t.readOnly[disk]
  {
    UnmountEffect(s, path, Some(disk));
    MountEffect(ApplyAll(s, UnmountCommands(path, Some(disk))), path, disk);
  }

  /** Growing sets the data partition to the given size and leaves the disk online and writable. */
  lemma ResizeEffect(s: HostState, disk: int, size: nat)
    ensures ApplyAll(s, ResizeCommands(disk, size)) ==
            s.(online := s.online[disk := true], readOnly := s.readOnly[disk := false],
               partitionSize := s.partitionSize[(disk, DefaultSharePartition) := size])
  {
    var tail := [GetPartitionMaxSize(disk, DefaultSharePartition), ResizePartition(disk, DefaultSharePartition, size)];
    ApplyAllAppend(s, OnlineWritableCommands(disk), tail);
    OnlineWritableEffect(s, disk);
    var s1 := s.(online := s.online[disk := true], readOnly := s.readOnly[disk := false]);
    ApplyAllTwo(s1, tail[0], tail[1]);
    ResizePartitionStep(s1, disk, DefaultSharePartition, size);
  }

  // ---------------------------------------------------------------------------
  // The driver object

  class WindowsSmbDriver {
    /** The configured root under which share directories are mounted. */
    const shareMountPath: string

    constructor (shareMountPath: string)
      ensures this.shareMountPath == shareMountPath
    {
      this.shareMountPath := shareMountPath;
    }

    /** The mount path of a share, in the host's separator convention, ending in the share's name. */
    function GetMountPath(share: Share): (path: string)
      ensures '/' !in path
      ensures IsPlainName(share.name) ==> ShareName(path) == share.name
    {
      if IsPlainName(share.name) then
        ShareNameOfMountPath(shareMountPath, share.name);
        MountPath(shareMountPath, share.name)
      else
        MountPath(shareMountPath, share.name)
    }

    method GetDiskNumber(host: RemoteHost, volume: Volume) returns (r: Result<int>)
      requires host.Valid()
      modifies host
      ensures host.Valid() && host.state == old(host.state)
      ensures host.trace == old(host.trace) + [GetDiskBySerial(volume.id)]
      ensures r == DiskNumberFor(DiskBySerial(old(host.state), volume.id), volume.mountpoint)
    {
      var serialMatch := host.QueryDiskBySerial(volume.id);
      if serialMatch.Some? {
        return Success(serialMatch.value);
      }
      if volume.mountpoint == "" {
        return Failure(EmptyMountpoint);
      }
      r := Success(volume.mountpoint[|volume.mountpoint| - 1] as int - 'a' as int);
    }

    /**
     * Whether a disk is bound at the mount path. Given a volume, the bound disk must be the
     * disk whose serial number is the volume id; any other disk raises.
     */
    method IsDeviceMounted(host: RemoteHost, mountPath: string, volume: Option<Volume>) returns (r: Result<bool>)
      requires host.Valid()
      modifies host
      ensures host.Valid() && host.state == old(host.state)
      ensures var bound := DiskAtMountPath(old(host.state), mountPath);
              (bound.None? ==>
                 r == Success(false) && host.trace == old(host.trace) + [GetDiskByMountPath(mountPath)]) &&
              (bound.Some? && volume.None? ==>
                 r == Success(true) && host.trace == old(host.trace) + [GetDiskByMountPath(mountPath)]) &&
              (bound.Some? && volume.Some? ==>
                 var expected := DiskBySerial(old(host.state), volume.value.id);
                 host.trace == old(host.trace) + [GetDiskByMountPath(mountPath), GetDiskBySerial(volume.value.id)] &&
                 r == if expected == bound then Success(true)
                      else Failure(DiskMismatch(mountPath, expected, bound.value)))
    {
      var disk := host.QueryDiskByMountPath(mountPath);
      if disk.None? {
        return Success(false);
      }
      if volume.Some? {
        var expected := host.QueryDiskBySerial(volume.value.id);
        if disk != expected {
          return Failure(DiskMismatch(mountPath, expected, disk.value));
        }
      }
      r := Success(true);
    }

    /** Refreshes the disk, sets it online, then clears its read-only flag. */
    method EnsureDiskOnlineAndWritable(host: RemoteHost, disk: int)
      requires host.Valid()
      modifies host
      ensures host.Valid()
      ensures host.trace == old(host.trace) + OnlineWritableCommands(disk)
      ensures host.state == ApplyAll(old(host.state), OnlineWritableCommands(disk))
    {
      host.Run(UpdateDisk(disk));
      host.Run(SetDiskOnline(disk, true));
      host.Run(SetDiskReadOnly(disk, false));
      assert host.trace == old(host.trace) + OnlineWritableCommands(disk);
      ApplyAllAppend(host.initial, old(host.trace), OnlineWritableCommands(disk));
    }

    /** Initialises the volume's disk, creates its data partition and formats it. */
    method FormatDevice(host: RemoteHost, volume: Volume) returns (res: Outcome)
      requires host.Valid()
      modifies host
      ensures host.Valid()
      ensures var disk := DiskNumberFor(DiskBySerial(old(host.state), volume.id), volume.mountpoint);
              (disk.Failure? ==>
                 res == Fail(disk.error) && host.state == old(host.state) &&
                 host.trace == old(host.trace) + [GetDiskBySerial(volume.id)]) &&
              (disk.Success? ==>
                 res == Pass &&
                 host.trace == old(host.trace) + [GetDiskBySerial(volume.id)] + FormatCommands(disk.value) &&
                 host.state == ApplyAll(old(host.state), FormatCommands(disk.value)))
    {
      var disk := GetDiskNumber(host, volume);
      if disk.Failure? {
        return Fail(disk.error);
      }
      ghost var t0 := host.trace;
      host.Run(InitializeDisk(disk.value));
      host.Run(CreatePartition(disk.value));
      host.Run(FormatPartition(disk.value, DefaultSharePartition));
      assert host.trace == t0 + FormatCommands(disk.value);
      ApplyAllAppend(host.initial, t0, FormatCommands(disk.value));
      res := Pass;
    }

    /**
     * Mounts the volume's data partition at the share's mount path unless a disk is already
     * bound there; a fresh mount then brings the disk online and writable. An already
     * bound path gets no command that changes the host.
     */
    method MountDevice(host: RemoteHost, share: Share, volume: Volume) returns (res: Outcome)
      requires host.Valid()
      modifies host
      ensures host.Valid()
      ensures var path := GetMountPath(share);
              var bound := DiskAtMountPath(old(host.state), path);
              var serialMatch := DiskBySerial(old(host.state), volume.id);
              var lookups := [GetDiskByMountPath(path), GetDiskBySerial(volume.id)];
              (bound.Some? ==>
                 host.trace == old(host.trace) + lookups && host.state == old(host.state) &&
                 res == if serialMatch == bound then Pass else Fail(DiskMismatch(path, serialMatch, bound.value))) &&
              (bound.None? ==>
                 var disk := DiskNumberFor(serialMatch, volume.mountpoint);
                 (disk.Failure? ==>
                    res == Fail(disk.error) && host.trace == old(host.trace) + lookups &&
                    host.state == old(host.state)) &&
                 (disk.Success? ==>
                    res == Pass && host.trace == old(host.trace) + lookups + MountCommands(path, disk.value) &&
                    host.state == ApplyAll(old(host.state), MountCommands(path, disk.value))))
    {
      var path := GetMountPath(share);
      var mounted := IsDeviceMounted(host, path, Some(volume));
      if mounted.Failure? {
        return Fail(mounted.error);
      }
      if !mounted.value {
        ghost var s0 := host.state;
        var disk := GetDiskNumber(host, volume);
        assert host.trace == old(host.trace) + [GetDiskByMountPath(path), GetDiskBySerial(volume.id)];
        assert disk == DiskNumberFor(DiskBySerial(s0, volume.id), volume.mountpoint);
        if disk.Failure? {
          return Fail(disk.error);
        }
        BindAndBringOnline(host, path, disk.value);
      }
      res := Pass;
    }

    /** The commands of a fresh mount: the directory, the access path, then the disk flags. */
    method BindAndBringOnline(host: RemoteHost, path: string, disk: int)
      requires host.Valid()
      modifies host
      ensures host.Valid()
      ensures host.trace == old(host.trace) + MountCommands(path, disk)
      ensures host.state == ApplyAll(old(host.state), MountCommands(path, disk))
    {
      host.Run(EnsureDirectory(path));
      host.Run(AddAccessPath(path, disk, DefaultSharePartition));
      EnsureDiskOnlineAndWritable(host, disk);
      assert host.trace == old(host.trace) + MountCommands(path, disk);
      ApplyAllAppend(host.initial, old(host.trace), MountCommands(path, disk));
    }

    /**
     * Removes the junction at the share's mount path, then takes the disk that was bound
     * there offline when its number is truthy.
     */
    method UnmountDevice(host: RemoteHost, share: Share)
      requires host.Valid()
      modifies host
      ensures host.Valid()
      ensures var path := GetMountPath(share);
              var bound := DiskAtMountPath(old(host.state), path);
              host.trace == old(host.trace) + [GetDiskByMountPath(path)] + UnmountCommands(path, bound) &&
              host.state == ApplyAll(old(host.state), UnmountCommands(path, bound))
    {
      var path := GetMountPath(share);
      var disk := host.QueryDiskByMountPath(path);
      ghost var t0 := host.trace;
      host.Run(RemoveJunction(path));
      if disk.Some? && disk.value != 0 {
        host.Run(SetDiskOnline(disk.value, false));
      }
      assert host.trace == t0 + UnmountCommands(path, disk);
      ApplyAllAppend(host.initial, t0, UnmountCommands(path, disk));
    }

    /**
     * Brings the volume's disk online and writable, asks for the largest size its data
     * partition can take, and grows the partition to exactly that size.
     */
    method ResizeFilesystem(host: RemoteHost, volume: Volume) returns (res: Outcome)
      requires host.Valid()
      modifies host
      ensures host.Valid()
      ensures var disk := DiskNumberFor(DiskBySerial(old(host.state), volume.id), volume.mountpoint);
              (disk.Failure? ==>
                 res == Fail(disk.error) && host.state == old(host.state) &&
                 host.trace == old(host.trace) + [GetDiskBySerial(volume.id)]) &&
              (disk.Success? ==>
                 var maxSize := PartitionMaxSize(old(host.state), disk.value, DefaultSharePartition);
                 (maxSize.None? ==>
                    res == Fail(PartitionNotFound(disk.value, DefaultSharePartition)) &&
                    host.trace == old(host.trace) + [GetDiskBySerial(volume.id)] + OnlineWritableCommands(disk.value) +
                                  [GetPartitionMaxSize(disk.value, DefaultSharePartition)] &&
                    host.state == ApplyAll(old(host.state), OnlineWritableCommands(disk.value))) &&
                 (maxSize.Some? ==>
                    res == Pass &&
                    host.trace == old(host.trace) + [GetDiskBySerial(volume.id)] + ResizeCommands(disk.value, maxSize.value) &&
                    host.state == ApplyAll(old(host.state), ResizeCommands(disk.value, maxSize.value))))
    {
      var disk := GetDiskNumber(host, volume);
      if disk.Failure? {
        return Fail(disk.error);
      }
      ghost var before := host.state;
      ghost var t0 := host.trace;
      EnsureDiskOnlineAndWritable(host, disk.value);
      OnlineWritableEffect(before, disk.value);
      var maxSize := host.QueryPartitionMaxSize(disk.value, DefaultSharePartition);
      if maxSize.None? {
        return Fail(PartitionNotFound(disk.value, DefaultSharePartition));
      }
      host.Run(ResizePartition(disk.value, DefaultSharePartition, maxSize.value));
      assert host.trace == t0 + ResizeCommands(disk.value, maxSize.value);
      ApplyAllAppend(host.initial, t0, ResizeCommands(disk.value, maxSize.value));
      res := Pass;
    }
  }
}
