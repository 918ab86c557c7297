// The tar Header record and the names the format rules refer to: the type
// flags, the Unix mode bits, the field widths of the V7, USTAR and GNU header
// blocks, and the keywords of PAX extended header records.
module TarHeader {
  import opened GoTypes
  import opened GoTime
  import opened Wrappers

  // Type flags ('0' to '6', and the pre-POSIX NUL for regular files).
  const TypeReg: uint8 := 0x30
  const TypeRegA: uint8 := 0x00
  const TypeLink: uint8 := 0x31
  const TypeSymlink: uint8 := 0x32
  const TypeChar: uint8 := 0x33
  const TypeBlock: uint8 := 0x34
  const TypeDir: uint8 := 0x35
  const TypeFifo: uint8 := 0x36

  // Mode bits of the USTAR mode field (c_ISUID and friends): the three special
  // permission bits, and the file type in the bits above 07777.
  const ISUID: int := 0x800   // 04000
  const ISGID: int := 0x400   // 02000
  const ISVTX: int := 0x200   // 01000
  const ISDIR: int := 0x4000  // 040000
  const ISFIFO: int := 0x1000 // 010000
  const ISREG: int := 0x8000  // 0100000
  const ISLNK: int := 0xA000  // 0120000
  const ISBLK: int := 0x6000  // 060000
  const ISCHR: int := 0x2000  // 020000
  const ISSOCK: int := 0xC000 // 0140000

  /** A tar header as the package's callers see it. Uid and Gid are Go ints,
      64 bits wide here; an unset time is the zero Time; a nil Xattrs map and
      an empty one are the same value. */
  datatype Header = Header(
    name: Bytes,
    mode: Int64,
    uid: Int64,
    gid: Int64,
    size: Int64,
    modTime: Time,
    typeflag: uint8,
    linkname: Bytes,
    uname: Bytes,
    gname: Bytes,
    devmajor: Int64,
    devminor: Int64,
    accessTime: Time,
    changeTime: Time,
    xattrs: map<Bytes, Bytes>)

  /** &Header{}: every field at its zero value. */
  const EmptyHeader: Header :=
    Header([], 0, 0, 0, 0, None, TypeRegA, [], [], [], 0, 0, None, None, map[])

  // Field widths in bytes: name, linkname, mode, uid, gid, size and mtime of
  // the V7 block; uname, gname, devmajor and devminor of the USTAR block;
  // atime and ctime of the GNU block.
  const NameSize: nat := 100
  const LinknameSize: nat := 100
  const ModeSize: nat := 8
  const UidSize: nat := 8
  const GidSize: nat := 8
  const SizeSize: nat := 12
  const ModTimeSize: nat := 12
  const UnameSize: nat := 32
  const GnameSize: nat := 32
  const DevmajorSize: nat := 8
  const DevminorSize: nat := 8
  const AccessTimeSize: nat := 12
  const ChangeTimeSize: nat := 12

  // Keywords of PAX extended header records.
  const PaxPath: Bytes := Ascii("path")
  const PaxLinkpath: Bytes := Ascii("linkpath")
  const PaxSize: Bytes := Ascii("size")
  const PaxUid: Bytes := Ascii("uid")
  const PaxGid: Bytes := Ascii("gid")
  const PaxUname: Bytes := Ascii("uname")
  const PaxGname: Bytes := Ascii("gname")
  const PaxMtime: Bytes := Ascii("mtime")
  const PaxAtime: Bytes := Ascii("atime")
  const PaxCtime: Bytes := Ascii("ctime")
  /** The prefix of the records that carry extended attributes (a star
      extension). */
  const PaxXattr: Bytes := Ascii("SCHILY.xattr.")

  /** The keywords whose values are strings of the header record. */
  predicate IsStringKey(k: Bytes)
  {
    k == PaxPath || k == PaxLinkpath || k == PaxUname || k == PaxGname
  }

  /** The keywords the header fields map to. */
  predicate IsFieldKey(k: Bytes)
  {
    IsStringKey(k) || k == PaxSize || k == PaxUid || k == PaxGid
    || k == PaxMtime || k == PaxAtime || k == PaxCtime
  }

  /** None of the ten keywords holds '=' or NUL, and each is shorter than
      the extended-attribute prefix, which holds neither either. */
  lemma FieldKeyPlain(k: Bytes)
    requires IsFieldKey(k)
    ensures k != [] && |k| <= 8 && Equals !in k && NUL !in k
    ensures |PaxXattr| == 13 && Equals !in PaxXattr && NUL !in PaxXattr
  {
  }

  /** The ten keywords are pairwise different. */
  lemma PaxKeysDistinct()
    ensures PaxPath != PaxLinkpath && PaxPath != PaxSize && PaxPath != PaxUid
      && PaxPath != PaxGid && PaxPath != PaxUname && PaxPath != PaxGname
      && PaxPath != PaxMtime && PaxPath != PaxAtime && PaxPath != PaxCtime
    ensures PaxLinkpath != PaxSize && PaxLinkpath != PaxUid && PaxLinkpath != PaxGid
      && PaxLinkpath != PaxUname && PaxLinkpath != PaxGname && PaxLinkpath != PaxMtime
      && PaxLinkpath != PaxAtime && PaxLinkpath != PaxCtime
    ensures PaxSize != PaxUid && PaxSize != PaxGid && PaxSize != PaxUname
      && PaxSize != PaxGname && PaxSize != PaxMtime && PaxSize != PaxAtime
      && PaxSize != PaxCtime
    ensures PaxUid != PaxGid && PaxUid != PaxUname && PaxUid != PaxGname
      && PaxUid != PaxMtime && PaxUid != PaxAtime && PaxUid != PaxCtime
    ensures PaxGid != PaxUname && PaxGid != PaxGname && PaxGid != PaxMtime
      && PaxGid != PaxAtime && PaxGid != PaxCtime
    ensures PaxUname != PaxGname && PaxUname != PaxMtime && PaxUname != PaxAtime
      && PaxUname != PaxCtime
    ensures PaxGname != PaxMtime && PaxGname != PaxAtime && PaxGname != PaxCtime
    ensures PaxMtime != PaxAtime && PaxMtime != PaxCtime && PaxAtime != PaxCtime
  {
    assert PaxPath[0] as int == 'p' as int && PaxLinkpath[0] as int == 'l' as int;
    assert PaxSize[0] as int == 's' as int && PaxUid[0] as int == 'u' as int;
    assert PaxGid[0] as int == 'g' as int && PaxUname[0] as int == 'u' as int;
    assert PaxGname[0] as int == 'g' as int && PaxMtime[0] as int == 'm' as int;
    assert PaxAtime[0] as int == 'a' as int && PaxCtime[0] as int == 'c' as int;
  }

  /** validPAXRecord: a keyword is nonempty and has no '='; the values of the
      string keywords are C strings, and every other keyword is. */
  predicate ValidPAXRecord(k: Bytes, v: Bytes)
  {
    k != [] && Equals !in k && (if IsStringKey(k) then NUL !in v else NUL !in k)
  }
}
