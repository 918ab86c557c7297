// The part of Go's os package the tar FileInfo view speaks: os.FileMode, as
// nine permission bits plus the set of mode flags above them.
module GoOs {

  /** The named bits of os.FileMode above the permission bits. */
  datatype ModeFlag =
    | ModeDir | ModeAppend | ModeExclusive | ModeTemporary | ModeSymlink | ModeDevice
    | ModeNamedPipe | ModeSocket | ModeSetuid | ModeSetgid | ModeCharDevice | ModeSticky

  /** The Unix rwxrwxrwx bits, m.Perm(). */
  type Perm = p: int | 0 <= p < 0x200

  /** An os.FileMode; two modes are equal exactly when their bits are. */
  datatype FileMode = FileMode(perm: Perm, flags: set<ModeFlag>)

  /** os.ModeType: the flags that name a kind of file. */
  const ModeType: set<ModeFlag> := {ModeDir, ModeSymlink, ModeNamedPipe, ModeSocket, ModeDevice}

  /** The three special permission flags. */
  const ModeSpecial: set<ModeFlag> := {ModeSetuid, ModeSetgid, ModeSticky}

  /** m.IsDir(). */
  predicate IsDir(m: FileMode)
  {
    ModeDir in m.flags
  }

  /** m.IsRegular(): no kind flag is set. */
  predicate IsRegular(m: FileMode)
  {
    m.flags * ModeType == {}
  }

  /** A mode is regular exactly when none of the five kind flags is set. */
  lemma RegularIffNoKind(m: FileMode)
    ensures IsRegular(m) <==>
      ModeDir !in m.flags && ModeSymlink !in m.flags && ModeNamedPipe !in m.flags
      && ModeSocket !in m.flags && ModeDevice !in m.flags
  {
    if !IsRegular(m) {
      var x :| x in m.flags * ModeType;
      assert x == ModeDir || x == ModeSymlink || x == ModeNamedPipe || x == ModeSocket || x == ModeDevice;
    } else {
      forall x | x in ModeType ensures x !in m.flags {
        assert x !in m.flags * ModeType;
      }
    }
  }
}
