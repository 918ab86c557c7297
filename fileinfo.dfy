// The two directions between a tar Header and an os.FileInfo: the read-only
// FileInfo view of a header (Header.FileInfo) and the header built from a
// FileInfo (FileInfoHeader), with the mapping between the USTAR mode bits and
// type flags on one side and os.FileMode on the other.
module TarFileInfo {
  import opened GoTypes
  import opened Wrappers
  import opened GoTime
  import opened GoOs
  import opened GoPath
  import opened TarHeader

  /** An os.FileInfo: what its methods Name, Size, Mode and ModTime return,
      and the header Sys returns when it returns a *Header. */
  datatype FileInfo = FileInfo(name: Bytes, size: Int64, mode: FileMode, modTime: Time, sys: Option<Header>)

  /** Bit b (a power of two) of the two's-complement value x, as x&b != 0
      tests it. */
  predicate HasBit(x: int, b: int)
    requires b > 0
  {
    (x / b) % 2 == 1
  }

  /** The setuid, setgid and sticky flags the mode's special bits set. */
  function SpecialFlags(mode: Int64): (f: set<ModeFlag>)
    ensures f <= ModeSpecial
    ensures ModeSetuid in f <==> HasBit(mode, ISUID)
    ensures ModeSetgid in f <==> HasBit(mode, ISGID)
    ensures ModeSticky in f <==> HasBit(mode, ISVTX)
  {
    (if HasBit(mode, ISUID) then {ModeSetuid} else {})
    + (if HasBit(mode, ISGID) then {ModeSetgid} else {})
    + (if HasBit(mode, ISVTX) then {ModeSticky} else {})
  }

  /** The kind flags of the file-type bits of the mode: os.FileMode(h.Mode)
      truncates to 32 bits, &^ 07777 clears the permission and special bits,
      and the rest is compared with the c_IS* constants. */
  function TypeBitsFlags(mode: Int64): set<ModeFlag>
  {
    var m32 := mode % 0x1_0000_0000;
    var m := m32 - m32 % 0x1000;
    if m == ISDIR then {ModeDir}
    else if m == ISFIFO then {ModeNamedPipe}
    else if m == ISLNK then {ModeSymlink}
    else if m == ISBLK then {ModeDevice}
    else if m == ISCHR then {ModeDevice, ModeCharDevice}
    else if m == ISSOCK then {ModeSocket}
    else {}
  }

  /** The kind flags the type flag sets. */
  function TypeflagFlags(t: uint8): set<ModeFlag>
  {
    if t == TypeSymlink then {ModeSymlink}
    else if t == TypeChar then {ModeDevice, ModeCharDevice}
    else if t == TypeBlock then {ModeDevice}
    else if t == TypeDir then {ModeDir}
    else if t == TypeFifo then {ModeNamedPipe}
    else {}
  }

  /** headerFileInfo.Mode: the permission bits, the special flags, and the
      kind flags of both the mode's type bits and the type flag. */
  function HeaderMode(h: Header): FileMode
  {
    FileMode(h.mode % 0x200, SpecialFlags(h.mode) + TypeBitsFlags(h.mode) + TypeflagFlags(h.typeflag))
  }

  /** headerFileInfo.Name: the base name, of the cleaned path for a
      directory. */
  function HeaderName(h: Header): Bytes
  {
    if IsDir(HeaderMode(h)) then Base(Clean(h.name)) else Base(h.name)
  }

  /** headerFileInfo.Size: the size field of the header, whatever the kind
      of file. */
  function HeaderSize(h: Header): Int64
  {
    h.size
  }

  /** Header.FileInfo: the FileInfo view of a header, whose Sys is the header
      itself. */
  function HeaderFileInfo(h: Header): FileInfo
  {
    FileInfo(HeaderName(h), HeaderSize(h), HeaderMode(h), h.modTime, Some(h))
  }

  datatype FileInfoError =
    | NilFileInfo                    // "archive/tar: FileInfo is nil"
    | SocketNotSupported             // "archive/tar: sockets not supported"
    | UnknownFileMode(mode: FileMode) // "archive/tar: unknown file mode %v"

  /** The FileInfo mode names a socket and no other kind of file. */
  predicate OnlySocket(fm: FileMode)
  {
    && ModeSocket in fm.flags
    && ModeDir !in fm.flags && ModeSymlink !in fm.flags
    && ModeDevice !in fm.flags && ModeNamedPipe !in fm.flags
  }

  /** The header of a FileInfo by file kind, before the special bits and the
      fields taken from a Sys header. A socket is refused; every other mode
      is regular or has a kind flag, so the last error cannot arise. */
  function KindHeader(fi: FileInfo, link: Bytes): (r: Result<Header, FileInfoError>)
    ensures r.Failure? <==> OnlySocket(fi.mode)
    ensures r.Failure? ==> r.error == SocketNotSupported
  {
    var fm := fi.mode;
    RegularIffNoKind(fm);
    var h := EmptyHeader.(name := fi.name, modTime := fi.modTime, mode := fm.perm);
    if IsRegular(fm) then Success(h.(typeflag := TypeReg, size := fi.size))
    else if IsDir(fm) then Success(h.(typeflag := TypeDir, name := fi.name + [Slash]))
    else if ModeSymlink in fm.flags then Success(h.(typeflag := TypeSymlink, linkname := link))
    else if ModeDevice in fm.flags then
      Success(h.(typeflag := if ModeCharDevice in fm.flags then TypeChar else TypeBlock))
    else if ModeNamedPipe in fm.flags then Success(h.(typeflag := TypeFifo))
    else if ModeSocket in fm.flags then Failure(SocketNotSupported)
    else assert false; Failure(UnknownFileMode(fm))
  }

  /** The mode with the special bits the FileMode's flags call for; h.Mode is
      the permission bits, below all three, so or-ing a bit adds it. */
  function SpecialBits(fm: FileMode): (bits: int)
    ensures 0 <= bits < 0x1000 && bits % 0x200 == fm.perm
  {
    fm.perm
    + (if ModeSetuid in fm.flags then ISUID else 0)
    + (if ModeSetgid in fm.flags then ISGID else 0)
    + (if ModeSticky in fm.flags then ISVTX else 0)
  }

  /** FileInfoHeader: a header for the FileInfo. A Sys header supplies the
      owner, the access and change times and the extended attributes, and
      makes a hard link of a regular file. */
  function FileInfoHeader(fi: Option<FileInfo>, link: Bytes): (r: Result<Header, FileInfoError>)
    ensures fi.None? ==> r == Failure(NilFileInfo)
    ensures fi.Some? ==> (r.Failure? <==> OnlySocket(fi.value.mode))
    ensures fi.Some? && r.Failure? ==> r.error == SocketNotSupported
  {
    if fi.None? then Failure(NilFileInfo)
    else
      match KindHeader(fi.value, link)
      case Failure(e) => Failure(e)
      case Success(h) =>
        var h1 := h.(mode := SpecialBits(fi.value.mode));
        match fi.value.sys
        case None => Success(h1)
        case Some(sys) =>
          var h2 := h1.(uid := sys.uid, gid := sys.gid, uname := sys.uname, gname := sys.gname,
                        accessTime := sys.accessTime, changeTime := sys.changeTime, xattrs := sys.xattrs);
          if sys.typeflag == TypeLink then Success(h2.(typeflag := TypeLink, size := 0, linkname := sys.linkname))
          else Success(h2)
  }

  /** A kind of file a header's type flag names; every other type flag is a
      regular file to the FileInfo view. */
  predicate IsSpecialTypeflag(t: uint8)
  {
    t == TypeSymlink || t == TypeChar || t == TypeBlock || t == TypeDir || t == TypeFifo
  }

  /** The type flag a header gets back through its FileInfo: the kinds and
      hard links keep theirs, the rest become TypeReg. */
  function RoundTripTypeflag(t: uint8): uint8
  {
    if IsSpecialTypeflag(t) || t == TypeLink then t else TypeReg
  }

  /** A mode below 010000 is its permission bits plus its special bits. */
  lemma ModeDecompose(m: int)
    requires 0 <= m < 0x1000
    ensures m % 0x200
      + (if HasBit(m, ISUID) then ISUID else 0)
      + (if HasBit(m, ISGID) then ISGID else 0)
      + (if HasBit(m, ISVTX) then ISVTX else 0) == m
  {
    var q := m / 0x200;
    assert m == 0x200 * q + m % 0x200;
    assert 0 <= q < 8;
    assert m / 0x400 == q / 2;
    assert m / 0x800 == q / 4;
  }

  /** A mode below 010000 has no file-type bits. */
  lemma NoTypeBits(mode: Int64)
    requires 0 <= mode < 0x1000
    ensures TypeBitsFlags(mode) == {}
  {
    assert mode % 0x1_0000_0000 == mode;
    assert mode % 0x1000 == mode;
  }

  /** For a mode without file-type bits, the FileInfo mode of a header is its
      permission bits, the special flags of its mode bits and the kind its
      type flag names (the table of fi.Mode() values per type flag). */
  lemma HeaderModeTable(h: Header)
    requires 0 <= h.mode < 0x1000
    ensures HeaderMode(h).perm == h.mode % 0x200
    ensures HeaderMode(h).flags * ModeSpecial == SpecialFlags(h.mode)
    ensures HeaderMode(h).flags - ModeSpecial == TypeflagFlags(h.typeflag)
    ensures h.typeflag == TypeSymlink ==> HeaderMode(h).flags - ModeSpecial == {ModeSymlink}
    ensures h.typeflag == TypeChar ==> HeaderMode(h).flags - ModeSpecial == {ModeDevice, ModeCharDevice}
    ensures h.typeflag == TypeBlock ==> HeaderMode(h).flags - ModeSpecial == {ModeDevice}
    ensures h.typeflag == TypeDir ==> HeaderMode(h).flags - ModeSpecial == {ModeDir}
    ensures h.typeflag == TypeFifo ==> HeaderMode(h).flags - ModeSpecial == {ModeNamedPipe}
    ensures !IsSpecialTypeflag(h.typeflag) ==> HeaderMode(h).flags <= ModeSpecial
    ensures IsDir(HeaderMode(h)) <==> h.typeflag == TypeDir
    ensures IsRegular(HeaderMode(h)) <==> !IsSpecialTypeflag(h.typeflag)
  {
    NoTypeBits(h.mode);
  }

  /** The FileInfo of a header names no directory: its name holds a slash only
      when it is "/" itself. */
  lemma FileInfoNameHasNoSlash(h: Header)
    ensures Slash in HeaderFileInfo(h).name ==> HeaderFileInfo(h).name == [Slash]
    ensures HeaderFileInfo(h).name != []
  {
    BaseShape(h.name);
    BaseShape(Clean(h.name));
  }

  /** The kind part of rebuilding a header from its FileInfo: the type flag,
      name, size and link target FileInfoHeader derives from the mode. */
  lemma KindRoundTrip(h: Header, link: Bytes)
    requires 0 <= h.mode < 0x1000
    ensures var k := KindHeader(HeaderFileInfo(h), link);
      && k.Success?
      && k.value.typeflag == (if IsSpecialTypeflag(h.typeflag) then h.typeflag else TypeReg)
      && k.value.name == (if h.typeflag == TypeDir then Base(Clean(h.name)) + [Slash] else Base(h.name))
      && k.value.size == (if IsSpecialTypeflag(h.typeflag) then 0 else h.size)
      && k.value.linkname == (if h.typeflag == TypeSymlink then link else [])
      && k.value.modTime == h.modTime
      && k.value.devmajor == 0 && k.value.devminor == 0
  {
    HeaderModeTable(h);
    var fm := HeaderMode(h);
    var t := h.typeflag;
    if !IsSpecialTypeflag(t) {
      assert IsRegular(fm);
    } else if t == TypeDir {
      assert IsDir(fm);
    } else {
      assert !IsRegular(fm) && !IsDir(fm);
      RegularIffNoKind(fm);
    }
  }

  /** A header read through its FileInfo and rebuilt by FileInfoHeader keeps
      its mode, owner, times and extended attributes; a regular file keeps its
      size, a hard link its target, and a directory gets its base name with a
      trailing slash. */
  lemma HeaderRoundTrip(h: Header, link: Bytes)
    requires 0 <= h.mode < 0x1000
    ensures var fi := HeaderFileInfo(h);
      && fi.sys == Some(h)
      && fi.modTime == h.modTime
      && FileInfoHeader(Some(fi), link).Success?
      && var h2 := FileInfoHeader(Some(fi), link).value;
      && h2.mode == h.mode
      && h2.typeflag == RoundTripTypeflag(h.typeflag)
      && h2.name == (if h.typeflag == TypeDir then Base(Clean(h.name)) + [Slash] else Base(h.name))
      && h2.size == (if IsSpecialTypeflag(h.typeflag) || h.typeflag == TypeLink then 0 else h.size)
      && h2.linkname == (if h.typeflag == TypeLink then h.linkname
                         else if h.typeflag == TypeSymlink then link else [])
      && h2.uid == h.uid && h2.gid == h.gid && h2.uname == h.uname && h2.gname == h.gname
      && h2.modTime == h.modTime && h2.accessTime == h.accessTime && h2.changeTime == h.changeTime
      && h2.xattrs == h.xattrs
      && h2.devmajor == 0 && h2.devminor == 0
  {
    KindRoundTrip(h, link);
    SpecialBitsRestore(h);
    var fi := HeaderFileInfo(h);
    var h1 := KindHeader(fi, link).value.(mode := h.mode);
    var h2 := h1.(uid := h.uid, gid := h.gid, uname := h.uname, gname := h.gname,
                  accessTime := h.accessTime, changeTime := h.changeTime, xattrs := h.xattrs);
    assert FileInfoHeader(Some(fi), link) == Success(
      if h.typeflag == TypeLink then h2.(typeflag := TypeLink, size := 0, linkname := h.linkname) else h2);
  }

  /** FileInfoHeader puts back the special bits the FileInfo view reported. */
  lemma SpecialBitsRestore(h: Header)
    requires 0 <= h.mode < 0x1000
    ensures SpecialBits(HeaderMode(h)) == h.mode
  {
    var fm := HeaderMode(h);
    HeaderModeTable(h);
    assert ModeSetuid in fm.flags <==> ModeSetuid in fm.flags * ModeSpecial;
    assert ModeSetgid in fm.flags <==> ModeSetgid in fm.flags * ModeSpecial;
    assert ModeSticky in fm.flags <==> ModeSticky in fm.flags * ModeSpecial;
    ModeDecompose(h.mode);
  }

  /** The kind flags of a FileInfo mode as FileInfoHeader can express them in
      a type flag: at most one kind, and ModeCharDevice only on a device. */
  predicate OneKind(fm: FileMode)
  {
    var k := fm.flags - ModeSpecial;
    k == {} || k == {ModeDir} || k == {ModeSymlink} || k == {ModeDevice}
    || k == {ModeDevice, ModeCharDevice} || k == {ModeNamedPipe} || k == {ModeSocket}
  }

  /** A FileInfo mode of one kind survives FileInfoHeader and the FileInfo
      view of the header it builds, unless a Sys hard link turns a special
      file into a link. Sockets are refused. */
  lemma ModeRoundTrip(fi: FileInfo, link: Bytes)
    requires OneKind(fi.mode)
    requires fi.sys.Some? && fi.sys.value.typeflag == TypeLink ==> IsRegular(fi.mode)
    ensures FileInfoHeader(Some(fi), link).Success? <==> ModeSocket !in fi.mode.flags
    ensures FileInfoHeader(Some(fi), link).Success? ==>
      HeaderMode(FileInfoHeader(Some(fi), link).value) == fi.mode
  {
    var r := FileInfoHeader(Some(fi), link);
    var k := fi.mode.flags - ModeSpecial;
    if k == {ModeSocket} {
      assert ModeDir !in k && ModeSymlink !in k && ModeDevice !in k && ModeNamedPipe !in k;
      assert OnlySocket(fi.mode);
    } else if k == {ModeNamedPipe} {
      assert ModeSocket !in k && ModeDir !in k && ModeSymlink !in k && ModeDevice !in k;
      ModeKindRoundTrip(fi, link, TypeFifo);
    } else if k == {} {
      assert ModeDir !in k && ModeSymlink !in k && ModeDevice !in k && ModeNamedPipe !in k && ModeSocket !in k;
      RegularIffNoKind(fi.mode);
      ModeKindRoundTrip(fi, link, r.value.typeflag);
    } else if k == {ModeDir} {
      assert ModeSocket !in k;
      ModeKindRoundTrip(fi, link, TypeDir);
    } else if k == {ModeSymlink} {
      assert ModeSocket !in k && ModeDir !in k;
      ModeKindRoundTrip(fi, link, TypeSymlink);
    } else if k == {ModeDevice} {
      assert ModeSocket !in k && ModeDir !in k && ModeSymlink !in k && ModeCharDevice !in k;
      ModeKindRoundTrip(fi, link, TypeBlock);
    } else {
      assert k == {ModeDevice, ModeCharDevice};
      assert ModeSocket !in k && ModeDir !in k && ModeSymlink !in k;
      ModeKindRoundTrip(fi, link, TypeChar);
    }
  }

  /** The mode part of ModeRoundTrip once the type flag t FileInfoHeader
      chose is known to name exactly the kind flags of the mode. */
  lemma ModeKindRoundTrip(fi: FileInfo, link: Bytes, t: uint8)
    requires FileInfoHeader(Some(fi), link).Success?
    requires FileInfoHeader(Some(fi), link).value.typeflag == t
    requires TypeflagFlags(t) == fi.mode.flags - ModeSpecial
    ensures HeaderMode(FileInfoHeader(Some(fi), link).value) == fi.mode
  {
    var h2 := FileInfoHeader(Some(fi), link).value;
    var bits := SpecialBits(fi.mode);
    assert h2.mode == bits;
    ModeDecompose(bits);
    NoTypeBits(h2.mode);
    assert SpecialFlags(h2.mode) == fi.mode.flags * ModeSpecial;
    assert HeaderMode(h2).flags == fi.mode.flags;
  }
}
