/** The mount table and the open-file table of fs/vfs.c. Each method is one region under vfs_table.sem,
    openfile_table.sem or both, of an operation that vfs_start_op has let in. */
module VfsTables {
  import opened Words
  import opened Libc

  const VFS_OK := 0
  const VFS_ERROR := -2
  const VFS_NOT_FOUND := -5
  const VFS_NO_SUCH_FS := -6
  const VFS_LIMIT := -7
  const VFS_IN_USE := -8
  const VFS_UNUSABLE := -9

  const VFS_NAME_LENGTH := 16

  /** The mountpoint field of a row. */
  type Field = f: Bytes | |f| == VFS_NAME_LENGTH witness seq(VFS_NAME_LENGTH, _ => 0)

  /** Filesystems are numbered from 1; 0 is NULL. An unmounted row keeps its name. */
  datatype Row = Row(mountpoint: Field, filesystem: nat)

  datatype OpenFile = OpenFile(filesystem: nat, fileid: int, seek: int)

  function Name(r: Row): Bytes { CStr(r.mountpoint) }

  /** No two rows share a name, unless it is empty. */
  ghost predicate NamesApart(rows: seq<Row>) {
    forall i, j :: 0 <= i < j < |rows| && Name(rows[i]) != [] ==> Name(rows[i]) != Name(rows[j])
  }

  ghost predicate RowsOk(rows: seq<Row>) {
    forall i :: 0 <= i < |rows| ==> 0 in rows[i].mountpoint && (rows[i].filesystem != 0 ==> Name(rows[i]) != [])
  }

  ghost predicate Mounted(rows: seq<Row>, fs: nat) {
    exists i :: 0 <= i < |rows| && rows[i].filesystem == fs
  }

  /** Every open file belongs to a mounted filesystem. */
  ghost predicate FilesMounted(rows: seq<Row>, files: seq<OpenFile>) {
    forall f :: 0 <= f < |files| && files[f].filesystem != 0 ==> Mounted(rows, files[f].filesystem)
  }

  /** The first row from `i` on with that name, or -1. */
  function FindName(rows: seq<Row>, name: Bytes, i: nat): (r: int)
    requires i <= |rows|
    ensures r == -1 || (i <= r < |rows| && Name(rows[r]) == name)
    ensures forall j :: i <= j < (if r < 0 then |rows| else r) ==> Name(rows[j]) != name
    decreases |rows| - i
  {
    if i == |rows| then -1 else if Name(rows[i]) == name then i else FindName(rows, name, i + 1)
  }

  function FreeRow(rows: seq<Row>, i: nat): (r: int)
    requires i <= |rows|
    ensures r == -1 || (i <= r < |rows| && rows[r].filesystem == 0)
    ensures forall j :: i <= j < (if r < 0 then |rows| else r) ==> rows[j].filesystem != 0
    decreases |rows| - i
  {
    if i == |rows| then -1 else if rows[i].filesystem == 0 then i else FreeRow(rows, i + 1)
  }

  function FreeFile(files: seq<OpenFile>, i: nat): (r: int)
    requires i <= |files|
    ensures r == -1 || (i <= r < |files| && files[r].filesystem == 0)
    ensures forall j :: i <= j < (if r < 0 then |files| else r) ==> files[j].filesystem != 0
    decreases |files| - i
  {
    if i == |files| then -1 else if files[i].filesystem == 0 then i else FreeFile(files, i + 1)
  }

  /** What a row holds after its name is stored: the first 15 characters. */
  function Cut(name: Bytes): Bytes { if |name| < VFS_NAME_LENGTH then name else name[..VFS_NAME_LENGTH - 1] }

  function WithName(r: Row, name: Bytes, fs: nat): Row
    requires 0 in name
  {
    Row(CopiedString(r.mountpoint, name), fs)
  }

  lemma StoredName(r: Row, name: Bytes, fs: nat)
    requires 0 in name
    ensures Name(WithName(r, name, fs)) == Cut(CStr(name)) && 0 in WithName(r, name, fs).mountpoint
  {
    hide CStr;
  }

  /** After a mount the names are still apart exactly when no other row already holds the stored form of the name. */
  lemma MountApartIff(rows: seq<Row>, row: nat, name: Bytes, fs: nat)
    requires row < |rows| && NamesApart(rows) && 0 in name && CStr(name) != []
    ensures NamesApart(rows[row := WithName(rows[row], name, fs)])
            <==> forall i :: 0 <= i < |rows| && i != row ==> Name(rows[i]) != Cut(CStr(name))
  {
    hide CStr, WithName, Name;
    StoredName(rows[row], name, fs);
    var after := rows[row := WithName(rows[row], name, fs)];
    if NamesApart(after) {
      forall i | 0 <= i < |rows| && i != row ensures Name(rows[i]) != Cut(CStr(name)) {
        assert |Cut(CStr(name))| > 0;
        assert Name(after[row]) == Cut(CStr(name)) && Name(after[i]) == Name(rows[i]);
      }
    }
  }

  /** The check of vfs_mount is enough for names of at most 15 characters. */
  lemma ShortNamesStayApart(rows: seq<Row>, row: nat, name: Bytes, fs: nat)
    requires row < |rows| && NamesApart(rows) && 0 in name && CStr(name) != []
    requires |CStr(name)| < VFS_NAME_LENGTH && FindName(rows, CStr(name), 0) < 0
    ensures NamesApart(rows[row := WithName(rows[row], name, fs)])
  {
    hide CStr, WithName, Name;
    MountApartIff(rows, row, name, fs);
  }

  function Letters(n: nat): Bytes { seq(n, _ => 97) }

  /** A row that was never used. */
  function Blank(): Row { Row(seq(VFS_NAME_LENGTH, _ => 0), 0) }

  lemma LettersName(n: nat)
    requires n <= VFS_NAME_LENGTH
    ensures 0 in Letters(n) + [0] && CStr(Letters(n) + [0]) == Letters(n)
  {
    CStrUnique(Letters(n) + [0], n);
    assert (Letters(n) + [0])[..n] == Letters(n);
    assert (Letters(n) + [0])[n] == 0;
  }

  lemma BlankName()
    ensures Name(Blank()) == []
  {
    CStrUnique(Blank().mountpoint, 0);
  }

  /** But not for longer ones: beside a mounted volume with a name of 15 letters, a name of 16 letters passes the check
      and is stored as the same name. */
  lemma LongNameCollides()
    ensures var short, long := Letters(15) + [0], Letters(16) + [0];
            && 0 in short && 0 in long
            && var rows := [WithName(Blank(), short, 1), Blank()];
               && NamesApart(rows) && FreeRow(rows, 0) == 1 && FindName(rows, CStr(long), 0) < 0
               && !NamesApart(rows[1 := WithName(rows[1], long, 2)])
  {
    hide CStr, WithName, Name;
    var short, long := Letters(15) + [0], Letters(16) + [0];
    LettersName(15);
    LettersName(16);
    BlankName();
    StoredName(Blank(), short, 1);
    var rows := [WithName(Blank(), short, 1), Blank()];
    WithNameMounted(Blank(), short, 1);
    assert |CStr(long)| == 16 && |Name(rows[0])| == 15 && |Name(rows[1])| == 0;
    assert Cut(CStr(long)) == Letters(15);
    MountApartIff(rows, 1, long, 2);
    assert Name(rows[0]) == Cut(CStr(long));
  }

  lemma WithNameMounted(r: Row, name: Bytes, fs: nat)
    requires 0 in name
    ensures WithName(r, name, fs).filesystem == fs
  {
  }

  class Vfs {
    const filesystems: array<Row>
    const files: array<OpenFile>
    var usable: bool
    var ops: nat

    ghost predicate Valid()
      reads this, filesystems, files
    {
      RowsOk(filesystems[..]) && (usable || ops > 0 ==> FilesMounted(filesystems[..], files[..]))
    }

    /** vfs_init */
    constructor (rows: nat, maxOpen: nat)
      ensures Valid() && usable && ops == 0 && filesystems.Length == rows && files.Length == maxOpen
      ensures NamesApart(filesystems[..]) && fresh(filesystems) && fresh(files)
    {
      filesystems := new Row[rows](_ => Row(seq(VFS_NAME_LENGTH, _ => 0), 0));
      files := new OpenFile[maxOpen](_ => OpenFile(0, 0, 0));
      usable := true;
      ops := 0;
      new;
      forall i | 0 <= i < rows ensures filesystems[i] == Row(seq(VFS_NAME_LENGTH, _ => 0), 0) && 0 in filesystems[i].mountpoint {
        assert filesystems[i].mountpoint[0] == 0;
      }
    }

    /** vfs_start_op: the only place where an operation is refused for good. */
    method StartOp() returns (r: int)
      requires Valid()
      modifies this`ops
      ensures Valid()
      ensures if usable then r == VFS_OK && ops == old(ops) + 1 else r == VFS_UNUSABLE && ops == old(ops)
    {
      r := VFS_OK;
      if usable { ops := ops + 1; } else { r := VFS_UNUSABLE; }
    }

    /** vfs_end_op: whether it wakes a pending shutdown. */
    method EndOp() returns (wakes: bool)
      requires Valid() && ops > 0
      modifies this`ops
      ensures Valid() && ops == old(ops) - 1 && (wakes <==> !usable && ops == 0)
    {
      ops := ops - 1;
      return !usable && ops == 0;
    }

    /** vfs_mount: succeeds exactly when a row is free and no row, mounted or not, carries the name. */
    method Mount(fs: nat, name: Bytes) returns (r: int)
      requires Valid() && ops > 0 && fs != 0 && 0 in name && CStr(name) != []
      modifies filesystems
      ensures Valid()
      ensures var rows := old(filesystems[..]); var row := FreeRow(rows, 0);
              if row < 0 then r == VFS_LIMIT && filesystems[..] == rows
              else if FindName(rows, CStr(name), 0) >= 0 then r == VFS_ERROR && filesystems[..] == rows
              else r == VFS_OK && filesystems[..] == rows[row := WithName(rows[row], name, fs)]
      ensures |CStr(name)| < VFS_NAME_LENGTH && NamesApart(old(filesystems[..])) ==> NamesApart(filesystems[..])
    {
      hide CStr, WithName, Name, NamesApart;
      ghost var rows := filesystems[..];
      var i := 0;
      while i < filesystems.Length
        invariant 0 <= i <= filesystems.Length && FreeRow(rows, 0) == FreeRow(rows, i)
        modifies {}
      {
        if filesystems[i].filesystem == 0 { break; }
        i := i + 1;
      }
      var row := i;
      if row >= filesystems.Length { return VFS_LIMIT; }
      i := 0;
      while i < filesystems.Length
        invariant 0 <= i <= filesystems.Length && FindName(rows, CStr(name), 0) == FindName(rows, CStr(name), i)
        modifies {}
      {
        NameIs(rows[i]);
        var c := StringCmp(filesystems[i].mountpoint, name);
        if c == 0 { return VFS_ERROR; }
        i := i + 1;
      }
      StoredName(filesystems[row], name, fs);
      filesystems[row] := WithName(filesystems[row], name, fs);
      MountKeeps(rows, row, name, fs, files[..]);
      if |CStr(name)| < VFS_NAME_LENGTH && NamesApart(rows) { ShortNamesStayApart(rows, row, name, fs); }
      assert filesystems[..] == rows[row := WithName(rows[row], name, fs)];
      return VFS_OK;
    }

    /** vfs_unmount: refuses while a file of that filesystem is open; the row keeps its name. */
    method Unmount(name: Bytes) returns (r: int)
      requires Valid() && ops > 0 && 0 in name
      modifies filesystems
      ensures Valid()
      ensures var rows := old(filesystems[..]); var row := FindName(rows, CStr(name), 0);
              if row < 0 || rows[row].filesystem == 0 then r == VFS_NOT_FOUND && filesystems[..] == rows
              else if exists f :: 0 <= f < files.Length && files[f].filesystem == rows[row].filesystem then
                r == VFS_IN_USE && filesystems[..] == rows
              else r == VFS_OK && filesystems[..] == rows[row := rows[row].(filesystem := 0)]
      ensures NamesApart(old(filesystems[..])) ==> NamesApart(filesystems[..])
    {
      hide CStr, Name, NamesApart;
      ghost var rows := filesystems[..];
      var fs := 0;
      var row := 0;
      while row < filesystems.Length
        invariant 0 <= row <= filesystems.Length && fs == 0
        invariant FindName(rows, CStr(name), 0) == FindName(rows, CStr(name), row)
        modifies {}
      {
        NameIs(rows[row]);
        var c := StringCmp(filesystems[row].mountpoint, name);
        if c == 0 {
          fs := filesystems[row].filesystem;
          break;
        }
        row := row + 1;
      }
      if fs == 0 { return VFS_NOT_FOUND; }
      var i := 0;
      while i < files.Length
        invariant 0 <= i <= files.Length
        invariant forall f :: 0 <= f < i ==> files[f].filesystem != fs
        modifies {}
      {
        if files[i].filesystem == fs { return VFS_IN_USE; }
        i := i + 1;
      }
      UnmountKeeps(rows, row, files[..]);
      filesystems[row] := filesystems[row].(filesystem := 0);
      assert filesystems[..] == rows[row := rows[row].(filesystem := 0)];
      return VFS_OK;
    }

    /** The region of vfs_open under both tables' locks: reserves a row of the open-file table for the volume. */
    method OpenReserve(volume: Bytes) returns (file: int)
      requires Valid() && ops > 0 && 0 in volume
      modifies files
      ensures Valid()
      ensures var rows := filesystems[..]; var open := old(files[..]);
              var row := FindName(rows, CStr(volume), 0); var free := FreeFile(open, 0);
              if free < 0 then file == VFS_LIMIT && files[..] == open
              else if row < 0 || rows[row].filesystem == 0 then file == VFS_NO_SUCH_FS && files[..] == open
              else file == free && files[..] == open[free := open[free].(filesystem := rows[row].filesystem)]
    {
      hide CStr, Name;
      ghost var rows, open := filesystems[..], files[..];
      file := 0;
      while file < files.Length
        invariant 0 <= file <= files.Length && FreeFile(open, 0) == FreeFile(open, file)
        modifies {}
      {
        if files[file].filesystem == 0 { break; }
        file := file + 1;
      }
      if file >= files.Length { return VFS_LIMIT; }
      var fs := GetFilesystem(volume);
      if fs == 0 { return VFS_NO_SUCH_FS; }
      files[file] := files[file].(filesystem := fs);
      assert Mounted(rows, fs);
      assert files[..] == open[file := open[file].(filesystem := fs)];
    }

    /** vfs_get_filesystem */
    method GetFilesystem(mountpoint: Bytes) returns (fs: nat)
      requires RowsOk(filesystems[..]) && 0 in mountpoint
      ensures var row := FindName(filesystems[..], CStr(mountpoint), 0);
              fs == if row < 0 then 0 else filesystems[row].filesystem
    {
      hide CStr, Name;
      ghost var rows := filesystems[..];
      var row := 0;
      while row < filesystems.Length
        invariant 0 <= row <= filesystems.Length
        invariant FindName(rows, CStr(mountpoint), 0) == FindName(rows, CStr(mountpoint), row)
      {
        NameIs(rows[row]);
        var c := StringCmp(filesystems[row].mountpoint, mountpoint);
        if c == 0 { return filesystems[row].filesystem; }
        row := row + 1;
      }
      return 0;
    }

    /** The end of vfs_open, once the filesystem has answered: fills the reserved row or gives it back. */
    method OpenFinish(file: nat, fileid: int) returns (r: int)
      requires Valid() && ops > 0 && file < files.Length
      modifies files
      ensures Valid()
      ensures var open := old(files[..]);
              if fileid < 0 then r == fileid && files[..] == open[file := open[file].(filesystem := 0)]
              else r == file && files[..] == open[file := OpenFile(open[file].filesystem, fileid, 0)]
    {
      if fileid < 0 {
        files[file] := files[file].(filesystem := 0);
        return fileid;
      }
      files[file] := files[file].(fileid := fileid);
      files[file] := files[file].(seek := 0);
      return file;
    }

    /** vfs_close of a file that is open. */
    method Close(file: nat) returns (r: int)
      requires Valid() && ops > 0 && file < files.Length && files[file].filesystem != 0
      modifies files
      ensures Valid()
      ensures r == VFS_OK && files[..] == old(files[..])[file := old(files[file]).(filesystem := 0)]
    {
      files[file] := files[file].(filesystem := 0);
      return VFS_OK;
    }

    /** The first region of vfs_deinit: the layer is unusable for good, but operations that have started go on.
        Whether it must wait for them. */
    method BeginDeinit() returns (waits: bool)
      requires Valid()
      modifies this`usable
      ensures Valid() && !usable && (waits <==> ops > 0)
    {
      usable := false;
      return ops > 0;
    }

    /** vfs_deinit's loop: every filesystem is unmounted, whatever is open. */
    method Deinit()
      requires Valid() && !usable && ops == 0
      modifies filesystems
      ensures Valid()
      ensures forall i :: 0 <= i < filesystems.Length ==>
                filesystems[i] == old(filesystems[i]).(filesystem := 0)
      ensures NamesApart(old(filesystems[..])) ==> NamesApart(filesystems[..])
    {
      ghost var rows := filesystems[..];
      var row := 0;
      while row < filesystems.Length
        invariant 0 <= row <= filesystems.Length && RowsOk(filesystems[..])
        invariant forall i :: 0 <= i < row ==> filesystems[i] == rows[i].(filesystem := 0)
        invariant forall i :: row <= i < filesystems.Length ==> filesystems[i] == rows[i]
        modifies filesystems
      {
        if filesystems[row].filesystem != 0 {
          filesystems[row] := filesystems[row].(filesystem := 0);
        }
        row := row + 1;
      }
      SameNames(rows, filesystems[..]);
    }
  }

  lemma SameNames(rows: seq<Row>, after: seq<Row>)
    requires |rows| == |after| && forall i :: 0 <= i < |rows| ==> after[i] == rows[i].(filesystem := 0)
    ensures NamesApart(rows) ==> NamesApart(after)
  {
    hide CStr;
    assert forall i :: 0 <= i < |rows| ==> Name(after[i]) == Name(rows[i]);
  }

  lemma UnmountKeeps(rows: seq<Row>, row: nat, files: seq<OpenFile>)
    requires row < |rows| && RowsOk(rows) && FilesMounted(rows, files)
    requires forall f :: 0 <= f < |files| ==> files[f].filesystem != rows[row].filesystem
    ensures var after := rows[row := rows[row].(filesystem := 0)]; RowsOk(after) && FilesMounted(after, files)
    ensures NamesApart(rows) ==> NamesApart(rows[row := rows[row].(filesystem := 0)])
  {
    hide CStr;
    var after := rows[row := rows[row].(filesystem := 0)];
    assert forall i :: 0 <= i < |rows| ==> Name(after[i]) == Name(rows[i]);
    forall f | 0 <= f < |files| && files[f].filesystem != 0 ensures Mounted(after, files[f].filesystem) {
      var i :| 0 <= i < |rows| && rows[i].filesystem == files[f].filesystem;
      assert after[i] == rows[i];
    }
  }

  lemma NameIs(r: Row)
    ensures Name(r) == CStr(r.mountpoint)
  {
  }

  lemma CutKeepsEmpty(name: Bytes)
    ensures Cut(name) == [] <==> name == []
  {
    assert |Cut(name)| == if |name| < VFS_NAME_LENGTH then |name| else VFS_NAME_LENGTH - 1;
  }

  lemma MountKeeps(rows: seq<Row>, row: nat, name: Bytes, fs: nat, files: seq<OpenFile>)
    requires row < |rows| && RowsOk(rows) && FilesMounted(rows, files) && rows[row].filesystem == 0
    requires 0 in name && CStr(name) != []
    ensures var after := rows[row := WithName(rows[row], name, fs)]; RowsOk(after) && FilesMounted(after, files)
  {
    hide CStr, Name, WithName, Cut;
    var after := rows[row := WithName(rows[row], name, fs)];
    StoredName(rows[row], name, fs);
    CutKeepsEmpty(CStr(name));
    forall f | 0 <= f < |files| && files[f].filesystem != 0 ensures Mounted(after, files[f].filesystem) {
      var i :| 0 <= i < |rows| && rows[i].filesystem == files[f].filesystem;
      assert after[i] == rows[i];
    }
  }
}
