/** File descriptors, and the two implementations of a file cursor over the ramdisk: the read and
    seek system calls (src/syscall/mod.rs, src/syscall/fd.rs) and `RamdiskFileOps`
    (src/fs/vfs.rs). */
module Files {
  import opened Memory

  datatype RamdiskFile = RamdiskFile(dataOffset: nat, size: nat)

  datatype Ramdisk = Ramdisk(data: seq<byte>, files: seq<RamdiskFile>)

  datatype Whence = Set | Cur | End

  predicate InDisk(disk: Ramdisk, f: RamdiskFile)
  {
    f.dataOffset + f.size <= |disk.data|
  }

  ghost predicate DiskOk(disk: Ramdisk)
  {
    forall i :: 0 <= i < |disk.files| ==> InDisk(disk, disk.files[i])
  }

  function Content(disk: Ramdisk, f: RamdiskFile): (c: seq<byte>)
    requires InDisk(disk, f)
    ensures |c| == f.size && forall k :: 0 <= k < f.size ==> c[k] == disk.data[f.dataOffset + k]
  {
    disk.data[f.dataOffset..f.dataOffset + f.size]
  }

  lemma ContentSlice(disk: Ramdisk, f: RamdiskFile, from: nat, len: nat)
    requires InDisk(disk, f) && from + len <= f.size
    ensures Content(disk, f)[from..from + len] == disk.data[f.dataOffset + from..f.dataOffset + from + len]
  {
  }

  // What a cursor means

  datatype Request = Read(len: nat) | Seek(offset: int, whence: Whence)

  datatype Reply = Data(bytes: seq<byte>) | Position(offset: nat) | Refused

  /** Where a seek aims, before the checks. */
  function Target(size: nat, offset: nat, delta: int, whence: Whence): int
  {
    match whence
    case Set => delta
    case Cur => offset + delta
    case End => size + delta
  }

  /** A read delivers the next bytes of the file; a seek before the start is refused, one past
      the end stops at the end. */
  function Step(content: seq<byte>, offset: nat, q: Request): (r: (nat, Reply))
    requires offset <= |content|
    ensures r.0 <= |content|
  {
    match q
    case Read(len) =>
      var end := Min(offset + len, |content|);
      (end, Data(content[offset..end]))
    case Seek(delta, whence) =>
      var target := Target(|content|, offset, delta, whence);
      if target < 0 then (offset, Refused)
      else (Min(target, |content|), Position(Min(target, |content|)))
  }

  /** How much a read delivers, which bytes, and where it leaves the cursor. */
  lemma ReadExact(content: seq<byte>, offset: nat, len: nat)
    requires offset <= |content|
    ensures var (end, reply) := Step(content, offset, Read(len));
      && reply.Data? && end == offset + |reply.bytes|
      && |reply.bytes| == (if len <= |content| - offset then len else |content| - offset)
      && forall k :: 0 <= k < |reply.bytes| ==> reply.bytes[k] == content[offset + k]
  {
  }

  /** Where a seek goes: from the start, from the cursor or from the end; refused exactly before the
      start, and never past the end. */
  lemma SeekExact(content: seq<byte>, offset: nat, delta: int, from: int, whence: Whence)
    requires offset <= |content|
    requires from == if whence == Set then 0 else if whence == Cur then offset else |content|
    ensures var r := Step(content, offset, Seek(delta, whence));
      && (from + delta < 0 ==> r == (offset, Refused))
      && (0 <= from + delta <= |content| ==> r.0 == from + delta && r.1 == Position(r.0))
      && (from + delta > |content| ==> r == (|content|, Position(|content|)))
  {
  }

  function Run(content: seq<byte>, offset: nat, qs: seq<Request>): (r: (nat, seq<Reply>))
    requires offset <= |content|
    ensures r.0 <= |content| && |r.1| == |qs|
    decreases |qs|
  {
    if qs == [] then (offset, [])
    else
      var (o, reply) := Step(content, offset, qs[0]);
      var (end, replies) := Run(content, o, qs[1..]);
      (end, [reply] + replies)
  }

  lemma {:induction false} RunAppend(content: seq<byte>, offset: nat, qs: seq<Request>, q: Request)
    requires offset <= |content|
    ensures var (o, replies) := Run(content, offset, qs);
      var (o', reply) := Step(content, o, q);
      Run(content, offset, qs + [q]) == (o', replies + [reply])
    decreases |qs|
  {
    if qs == [] {
      assert qs + [q] == [q] && [q][1..] == [];
      var (o, reply) := Step(content, offset, q);
      assert Run(content, o, []) == (o, []);
      assert [reply] + [] == [] + [reply];
    } else {
      assert (qs + [q])[1..] == qs[1..] + [q];
      var (o, first) := Step(content, offset, qs[0]);
      RunAppend(content, o, qs[1..], q);
      var (end, rest) := Run(content, o, qs[1..]);
      var last := Step(content, end, q).1;
      assert ([first] + rest) + [last] == [first] + (rest + [last]);
    }
  }

  /** A seek by nothing tells the offset, and seeking to an offset told earlier undoes whatever
      happened since. */
  lemma SeekBack(content: seq<byte>, offset: nat, qs: seq<Request>)
    requires offset <= |content|
    ensures Step(content, offset, Seek(0, Cur)) == (offset, Position(offset))
    ensures Step(content, Run(content, offset, qs).0, Seek(offset, Set)) == (offset, Position(offset))
  {
  }

  // Reading a file to its end

  function Reads(lens: seq<nat>): (qs: seq<Request>)
    ensures |qs| == |lens|
  {
    seq(|lens|, i requires 0 <= i < |lens| => Read(lens[i]))
  }

  function Bytes(replies: seq<Reply>): seq<byte>
  {
    if replies == [] then []
    else (if replies[0].Data? then replies[0].bytes else []) + Bytes(replies[1..])
  }

  /** Reads of any lengths deliver the file from the offset on, without gap or repetition, and
      the cursor stands behind the last byte delivered. */
  lemma {:induction false} ReadsConcatenate(content: seq<byte>, offset: nat, lens: seq<nat>)
    requires offset <= |content|
    ensures var (end, replies) := Run(content, offset, Reads(lens));
      offset <= end && Bytes(replies) == content[offset..end]
    decreases |lens|
  {
    if lens != [] {
      var o := Step(content, offset, Read(lens[0])).0;
      assert Reads(lens)[1..] == Reads(lens[1..]);
      ReadsConcatenate(content, o, lens[1..]);
      var (end, replies) := Run(content, offset, Reads(lens));
      assert replies[1..] == Run(content, o, Reads(lens[1..])).1;
      assert content[offset..end] == content[offset..o] + content[o..end];
    }
  }

  /** Once a nonempty read comes back empty, the whole file has been delivered. */
  lemma ReadToEnd(content: seq<byte>, lens: seq<nat>, len: nat)
    requires len > 0 && Step(content, Run(content, 0, Reads(lens)).0, Read(len)).1 == Data([])
    ensures Bytes(Run(content, 0, Reads(lens)).1) == content
  {
    ReadsConcatenate(content, 0, lens);
    var end := Run(content, 0, Reads(lens)).0;
    assert |content[end..Min(end + len, |content|)]| == 0;
    assert end == |content|;
  }

  // RamdiskFileOps

  class RamdiskFileOps {
    var file: RamdiskFile
    var offset: nat
    var size: nat

    ghost predicate Valid()
      reads this
    {
      size == file.size && offset <= size
    }

    constructor (f: RamdiskFile)
      ensures Valid() && file == f && offset == 0
    {
      file := f;
      offset := 0;
      size := f.size;
    }

    method Read(disk: Option<Ramdisk>, len: nat) returns (r: Outcome<seq<byte>>)
      requires Valid() && (disk.Some? ==> InDisk(disk.value, file))
      modifies this`offset
      ensures Valid()
      ensures disk.None? ==> r.Err? && offset == old(offset)
      ensures disk.Some? ==>
        r.Ok? && (offset, Data(r.value)) == Step(Content(disk.value, file), old(offset), Request.Read(len))
    {
      if disk.None? {
        return Err("ENODEV");
      }
      var remaining := size - offset;
      if remaining == 0 {
        assert Content(disk.value, file)[offset..offset] == [];
        return Ok([]);
      }
      var toRead := Min(len, remaining);
      var dataOffset := file.dataOffset + offset;
      ContentSlice(disk.value, file, offset, toRead);
      r := Ok(disk.value.data[dataOffset..dataOffset + toRead]);
      offset := offset + toRead;
    }

    method Seek(delta: int, whence: Whence) returns (r: Outcome<nat>)
      requires Valid()
      modifies this`offset
      ensures Valid()
      ensures forall content: seq<byte> :: |content| == size ==>
        (offset, if r.Ok? then Position(r.value) else Refused)
          == Step(content, old(offset), Request.Seek(delta, whence))
      ensures r.Ok? || r == Err("EINVAL")
    {
      var newOffset: nat;
      match whence {
        case Set =>
          if delta < 0 {
            return Err("EINVAL");
          }
          newOffset := delta;
        case Cur =>
          var target := offset + delta;
          if target < 0 {
            return Err("EINVAL");
          }
          newOffset := target;
        case End =>
          var target := size + delta;
          if target < 0 {
            return Err("EINVAL");
          }
          newOffset := target;
      }
      if newOffset > size {
        newOffset := size;
      }
      offset := newOffset;
      r := Ok(newOffset);
    }
  }

  // The descriptor table and the system calls on it

  datatype FdKind = Stdin | Stdout | Stderr | File(inode: nat, offset: nat) | Pipe(readEnd: bool, pipeId: nat)

  datatype FileDescriptor = FileDescriptor(kind: FdKind, flags: nat)

  type Fds = s: seq<Option<FileDescriptor>> | |s| == 256 witness seq(256, _ => None)

  class FileDescriptorTable {
    var fds: Fds
    var nextFd: nat

    /** Nothing is open at or above the next descriptor; 0 means that all have been used. */
    ghost predicate Valid()
      reads this
    {
      && (nextFd == 0 || 3 <= nextFd < 256)
      && (nextFd != 0 ==> forall i :: nextFd <= i < 256 ==> fds[i].None?)
    }

    constructor ()
      ensures Valid() && nextFd == 3 && forall i :: 0 <= i < 256 ==> fds[i].None?
    {
      fds := seq(256, _ => None);
      nextFd := 3;
    }

    method Init()
      requires Valid()
      modifies this`fds
      ensures Valid() && forall i :: 3 <= i < 256 ==> fds[i] == old(fds)[i]
      ensures fds[0] == Some(FileDescriptor(Stdin, 0)) && fds[1] == Some(FileDescriptor(Stdout, 1))
      ensures fds[2] == Some(FileDescriptor(Stderr, 1))
    {
      fds := fds[0 := Some(FileDescriptor(Stdin, 0))];
      fds := fds[1 := Some(FileDescriptor(Stdout, 1))];
      fds := fds[2 := Some(FileDescriptor(Stderr, 1))];
    }

    /** Hands out descriptors in increasing order, never one that is open, and none ever again
        after 255. */
    method Alloc(kind: FdKind, flags: nat) returns (r: Option<nat>)
      requires Valid()
      modifies this
      ensures Valid()
      ensures old(nextFd) == 0 ==> r.None? && fds == old(fds) && nextFd == 0
      ensures old(nextFd) != 0 ==>
        && r == Some(old(nextFd)) && old(fds)[r.value].None? &&
           fds == old(fds)[r.value := Some(FileDescriptor(kind, flags))]
        && nextFd == if r.value == 255 then 0 else r.value + 1
    {
      if nextFd == 0 {
        return None;
      }
      var fd := nextFd;
      fds := fds[fd := Some(FileDescriptor(kind, flags))];
      nextFd := (nextFd + 1) % 256;
      r := Some(fd);
    }

    method Close(fd: nat) returns (r: Option<FileDescriptor>)
      requires Valid() && fd < 256
      modifies this`fds
      ensures Valid()
      ensures fd < 3 ==> r.None? && fds == old(fds)
      ensures fd >= 3 ==> r == old(fds)[fd] && fds == old(fds)[fd := None]
    {
      if fd < 3 {
        return None;
      }
      r := fds[fd];
      fds := fds[fd := None];
    }

    predicate IsFile(disk: Ramdisk, fd: nat)
      reads this
    {
      fd < 256 && fds[fd].Some? && fds[fd].value.kind.File? && fds[fd].value.kind.inode < |disk.files|
    }

    ghost function FileContent(disk: Ramdisk, fd: nat): seq<byte>
      requires DiskOk(disk) && IsFile(disk, fd)
      reads this
    {
      Content(disk, disk.files[fds[fd].value.kind.inode])
    }

    /** The table with the descriptor's offset moved. */
    function Moved(fd: nat, offset: nat): (r: Fds)
      requires fd < 256 && fds[fd].Some? && fds[fd].value.kind.File?
      reads this
      ensures r[fd] == Some(FileDescriptor(File(fds[fd].value.kind.inode, offset), fds[fd].value.flags))
      ensures forall i :: 0 <= i < 256 && i != fd ==> r[i] == fds[i]
    {
      fds[fd := Some(fds[fd].value.(kind := fds[fd].value.kind.(offset := offset)))]
    }

    lemma MovedNowhere(fd: nat)
      requires fd < 256 && fds[fd].Some? && fds[fd].value.kind.File?
      ensures Moved(fd, fds[fd].value.kind.offset) == fds
    {
      var d := fds[fd].value;
      assert d.(kind := d.kind.(offset := d.kind.offset)) == d;
    }

    /** `sys_read`; `key` is the character the keyboard delivers. */
    method SysRead(disk: Option<Ramdisk>, fd: nat, len: nat, key: byte) returns (r: Outcome<seq<byte>>)
      requires Valid() && fd < 256 && (disk.Some? ==> DiskOk(disk.value))
      modifies this`fds
      ensures Valid()
      ensures r.Err? ==> fds == old(fds)
      ensures
        disk.Some? && old(IsFile(disk.value, fd)) &&
        old(fds[fd].value.kind.offset <= |FileContent(disk.value, fd)|) ==>
        var (end, reply) := Step(old(FileContent(disk.value, fd)), old(fds[fd].value.kind.offset), Request.Read(len));
        r.Ok? && fds == old(Moved(fd, end)) && Data(r.value) == reply
      ensures
        disk.Some? && old(IsFile(disk.value, fd)) &&
        old(fds[fd].value.kind.offset > |FileContent(disk.value, fd)|) ==>
        r == Ok([]) && fds == old(fds)
      ensures r.Ok? ==> fds[fd].Some? && (fds[fd].value.kind.Stdin? || (disk.Some? && old(IsFile(disk.value, fd))))
      ensures old(fds)[fd].Some? && old(fds)[fd].value.kind.Stdin? ==>
        fds == old(fds) && r == Ok(if len == 0 then [] else [key])
    {
      if fds[fd].None? {
        return Err("ERR_INVALID_ARGS");
      }
      var kind := fds[fd].value.kind;
      if kind.Stdin? {
        return Ok(if len == 0 then [] else [key]);
      }
      if !kind.File? {
        return Err("ERR_INVALID_ARGS");
      }
      if disk.None? {
        return Err("ERR_NOT_FOUND");
      }
      if kind.inode >= |disk.value.files| {
        return Err("ERR_INVALID_ARGS");
      }
      var file := disk.value.files[kind.inode];
      var remaining := if kind.offset >= file.size then 0 else file.size - kind.offset;
      if remaining == 0 {
        MovedNowhere(fd);
        assert Content(disk.value, file)[file.size..file.size] == [];
        return Ok([]);
      }
      var toRead := Min(len, remaining);
      var dataOffset := file.dataOffset + kind.offset;
      ContentSlice(disk.value, file, kind.offset, toRead);
      r := Ok(disk.value.data[dataOffset..dataOffset + toRead]);
      fds := Moved(fd, kind.offset + toRead);
    }

    method SysLseek(disk: Option<Ramdisk>, fd: nat, delta: int, whence: nat) returns (r: Outcome<nat>)
      requires Valid() && fd < 256 && (disk.Some? ==> DiskOk(disk.value))
      modifies this`fds
      ensures Valid()
      ensures r.Err? ==> fds == old(fds)
      ensures r.Ok? ==> disk.Some? && old(IsFile(disk.value, fd)) && whence <= 2
      ensures
        disk.Some? && old(IsFile(disk.value, fd)) && whence <= 2 &&
        old(fds[fd].value.kind.offset <= |FileContent(disk.value, fd)|) ==>
        var (end, reply) := Step(old(FileContent(disk.value, fd)), old(fds[fd].value.kind.offset),
          Request.Seek(delta, [Set, Cur, End][whence]));
        fds == old(Moved(fd, end)) && reply == if r.Ok? then Position(r.value) else Refused
      ensures !r.Halt?
    {
      if whence > 2 {
        return Err("ERR_INVALID_ARGS");
      }
      if fds[fd].None? || !fds[fd].value.kind.File? {
        return Err("ERR_INVALID_ARGS");
      }
      var kind := fds[fd].value.kind;
      if disk.None? {
        return Err("ERR_NOT_FOUND");
      }
      if kind.inode >= |disk.value.files| {
        return Err("ERR_INVALID_ARGS");
      }
      var fileSize := disk.value.files[kind.inode].size;
      assert InDisk(disk.value, disk.value.files[kind.inode]);
      MovedNowhere(fd);
      var newOffset: int := 0;
      match whence {
        case 0 =>
          if delta < 0 {
            return Err("ERR_INVALID_ARGS");
          }
          newOffset := delta;
        case 1 =>
          newOffset := kind.offset + delta;
          if newOffset < 0 {
            return Err("ERR_INVALID_ARGS");
          }
        case 2 =>
          newOffset := fileSize + delta;
          if newOffset < 0 {
            return Err("ERR_INVALID_ARGS");
          }
        case _ =>
          assert false;
      }
      var clamped := if newOffset > fileSize then fileSize else newOffset;
      fds := Moved(fd, clamped);
      r := Ok(clamped);
    }
  }

  // The two cursors agree

  /** One request on each cursor. */
  method OneOnBoth(disk: Ramdisk, ops: RamdiskFileOps, table: FileDescriptorTable, fd: nat, q: Request)
      returns (vfs: Reply, sys: Reply)
    requires DiskOk(disk) && table.Valid() && ops.Valid() && table.IsFile(disk, fd)
    requires ops.file == disk.files[table.fds[fd].value.kind.inode] && ops.offset == table.fds[fd].value.kind.offset
    modifies ops`offset, table`fds
    ensures table.Valid() && ops.Valid() && table.IsFile(disk, fd)
    ensures ops.file == disk.files[table.fds[fd].value.kind.inode] && ops.offset == table.fds[fd].value.kind.offset
    ensures vfs == sys && (ops.offset, sys) == Step(Content(disk, ops.file), old(ops.offset), q)
  {
    match q
    case Read(len) =>
      var a := ops.Read(Some(disk), len);
      var b := table.SysRead(Some(disk), fd, len, 0);
      vfs, sys := Data(a.value), Data(b.value);
    case Seek(delta, whence) =>
      var a := ops.Seek(delta, whence);
      var raw := match whence case Set => 0 case Cur => 1 case End => 2;
      var b := table.SysLseek(Some(disk), fd, delta, raw);
      vfs := if a.Ok? then Position(a.value) else Refused;
      sys := if b.Ok? then Position(b.value) else Refused;
  }

  /** Opened on the same file and given the same requests, the two cursors give the same replies
      and end at the same offset, whatever the requests are. */
  method RunOnBoth(disk: Ramdisk, ops: RamdiskFileOps, table: FileDescriptorTable, fd: nat, qs: seq<Request>)
      returns (vfs: seq<Reply>, sys: seq<Reply>)
    requires DiskOk(disk) && table.Valid() && ops.Valid() && table.IsFile(disk, fd)
    requires ops.file == disk.files[table.fds[fd].value.kind.inode] && ops.offset == table.fds[fd].value.kind.offset
    modifies ops`offset, table`fds
    ensures table.IsFile(disk, fd) && ops.offset == table.fds[fd].value.kind.offset
    ensures vfs == sys && (ops.offset, sys) == Run(Content(disk, ops.file), old(ops.offset), qs)
  {
    vfs, sys := [], [];
    ghost var content := Content(disk, ops.file);
    for i := 0 to |qs|
      invariant table.Valid() && ops.Valid() && table.IsFile(disk, fd)
      invariant ops.file == disk.files[table.fds[fd].value.kind.inode] && ops.offset == table.fds[fd].value.kind.offset
      invariant vfs == sys && (ops.offset, sys) == Run(content, old(ops.offset), qs[..i])
    {
      var a, b := OneOnBoth(disk, ops, table, fd, qs[i]);
      RunAppend(content, old(ops.offset), qs[..i], qs[i]);
      assert qs[..i + 1] == qs[..i] + [qs[i]];
      vfs, sys := vfs + [a], sys + [b];
    }
    assert qs[..|qs|] == qs;
  }
}
