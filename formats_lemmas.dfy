// What allowedFormats gives when only one group of header fields is set, and
// for single fields over their whole ranges; and facts that hold for every
// header: a USTAR encoding needs no PAX record, and every PAX record reads
// back as the value of its field.
module TarFormatsLemmas {
  import opened GoTypes
  import opened Wrappers
  import opened GoTime
  import opened Strconv
  import opened TarStrconv
  import opened TarHeader
  import opened TarFormats

  predicate StringsEmpty(h: Header)
  {
    h.name == [] && h.linkname == [] && h.uname == [] && h.gname == []
  }

  predicate NumbersZero(h: Header)
  {
    h.mode == 0 && h.uid == 0 && h.gid == 0 && h.size == 0 && h.devmajor == 0 && h.devminor == 0
  }

  predicate TimesUnset(h: Header)
  {
    h.modTime.None? && h.accessTime.None? && h.changeTime.None?
  }

  /** The formats among the three that the flags select. */
  function Formats(u: bool, p: bool, g: bool): (s: set<Format>)
    ensures (USTAR in s <==> u) && (PAX in s <==> p) && (GNU in s <==> g)
  {
    (if u then {USTAR} else {}) + (if p then {PAX} else {}) + (if g then {GNU} else {})
  }

  /** A set of formats is determined by which of the three it holds. */
  lemma FormatSet(s: set<Format>, s': set<Format>)
    requires (USTAR in s <==> USTAR in s') && (PAX in s <==> PAX in s') && (GNU in s <==> GNU in s')
    ensures s == s'
  {
    forall f | f in s || f in s' ensures f in s && f in s' {
      match f
      case USTAR =>
      case PAX =>
      case GNU =>
    }
  }

  /** Two maps with the same keys and the same values are equal. */
  lemma MapOfKeys(m: map<Bytes, Bytes>, keys: set<Bytes>, m': map<Bytes, Bytes>)
    requires m.Keys == keys && m'.Keys == keys
    requires forall k :: k in keys ==> m[k] == m'[k]
    ensures m == m'
  {
  }

  lemma UnionWithEmpty(a: map<Bytes, Bytes>, b: map<Bytes, Bytes>, c: map<Bytes, Bytes>)
    requires a == map[] && c == map[]
    ensures a + b + c == b
  {
  }

  lemma UnionEmptyRight(a: map<Bytes, Bytes>, b: map<Bytes, Bytes>)
    requires b == map[]
    ensures a + b == a
  {
  }

  lemma UnionEmptyLeft(a: map<Bytes, Bytes>, b: map<Bytes, Bytes>)
    requires a == map[]
    ensures a + b == b
  {
  }

  lemma NoXattrRecords(x: map<Bytes, Bytes>)
    requires x == map[]
    ensures XattrRecords(x) == map[]
  {
    var m := XattrRecords(x);
    assert m.Keys == {};
  }

  lemma EmptyStrings(h: Header)
    requires StringsEmpty(h)
    ensures StringRecords(h) == map[] && StringsFitUSTAR(h) && StringsFitGNU(h)
  {
  }

  lemma ZeroNumbers(h: Header)
    requires NumbersZero(h)
    ensures NumericRecords(h) == map[] && NumbersFitUSTAR(h) && NumbersFitGNU(h) && FitsPAX(h)
  {
  }

  lemma UnsetTimes(h: Header)
    requires TimesUnset(h)
    ensures TimeRecords(h) == map[] && TimesFitUSTAR(h) && TimesFitGNU(h)
  {
  }

  /** Without extended attributes the records are those of the fields. */
  lemma WithoutXattrs(h: Header)
    requires h.xattrs == map[]
    ensures Overrides(h) == FieldRecords(h) && |h.xattrs| == 0
  {
    NoXattrRecords(h.xattrs);
    UnionEmptyRight(FieldRecords(h), XattrRecords(h.xattrs));
  }

  /** allowedFormats of an encodable header from the formats and records its
      fields call for. */
  lemma Classified(h: Header, formats: set<Format>, recs: map<Bytes, Bytes>)
    requires Encodable(h) && Overrides(h) == recs
    requires USTAR in formats <==> FitsUSTAR(h)
    requires GNU in formats <==> FitsGNU(h)
    requires PAX in formats <==> FitsPAX(h)
    ensures AllowedFormats(h) == Classification(formats, recs)
  {
    AllowedFormatsSpec(h);
    FormatSet(AllowedFormats(h).formats, formats);
  }

  /** Only string fields are set: a NUL leaves no format; otherwise PAX is
      always possible, USTAR and GNU as far as their fields hold the strings,
      and each string that USTAR cannot hold is a record. */
  lemma OnlyStrings(h: Header)
    requires NumbersZero(h) && TimesUnset(h) && h.xattrs == map[]
    ensures var r := AllowedFormats(h);
      && (HasNUL(h.name) || HasNUL(h.linkname) || HasNUL(h.uname) || HasNUL(h.gname) ==> r == Unknown)
      && (!HasNUL(h.name) && !HasNUL(h.linkname) && !HasNUL(h.uname) && !HasNUL(h.gname) ==>
            r == Classification(Formats(StringsFitUSTAR(h), true, StringsFitGNU(h)), StringRecords(h)))
  {
    if !HasNUL(h.name) && !HasNUL(h.linkname) && !HasNUL(h.uname) && !HasNUL(h.gname) {
      assert Encodable(h);
      ZeroNumbers(h);
      UnsetTimes(h);
      WithoutXattrs(h);
      UnionEmptyRight(StringRecords(h), NumericRecords(h));
      UnionEmptyRight(StringRecords(h), TimeRecords(h));
      Classified(h, Formats(StringsFitUSTAR(h), true, StringsFitGNU(h)), StringRecords(h));
    } else {
      assert !Encodable(h);
      AllowedFormatsSpec(h);
    }
  }

  /** Only numeric fields are set: a negative size leaves no format;
      otherwise USTAR, GNU and PAX are possible as far as the octal fields,
      the base-256 fields and the octal mode and device fields hold the
      numbers, and each number without an octal field wide enough is a
      record. */
  lemma OnlyNumbers(h: Header)
    requires StringsEmpty(h) && TimesUnset(h) && h.xattrs == map[]
    ensures var r := AllowedFormats(h);
      && (h.size < 0 ==> r == Unknown)
      && (h.size >= 0 ==> r == Classification(Formats(NumbersFitUSTAR(h), FitsPAX(h), NumbersFitGNU(h)), NumericRecords(h)))
  {
    if h.size >= 0 {
      EmptyStrings(h);
      UnsetTimes(h);
      WithoutXattrs(h);
      UnionWithEmpty(StringRecords(h), NumericRecords(h), TimeRecords(h));
      Classified(h, Formats(NumbersFitUSTAR(h), FitsPAX(h), NumbersFitGNU(h)), NumericRecords(h));
    } else {
      AllowedFormatsSpec(h);
    }
  }

  /** Only times are set: PAX is always possible, USTAR and GNU as far as
      their fields hold the times, and each time USTAR cannot hold is a
      record. */
  lemma OnlyTimes(h: Header)
    requires StringsEmpty(h) && NumbersZero(h) && h.xattrs == map[]
    ensures AllowedFormats(h) == Classification(Formats(TimesFitUSTAR(h), true, TimesFitGNU(h)), TimeRecords(h))
  {
    EmptyStrings(h);
    ZeroNumbers(h);
    WithoutXattrs(h);
    assert StringRecords(h) + NumericRecords(h) == map[];
    UnionEmptyLeft(StringRecords(h) + NumericRecords(h), TimeRecords(h));
    assert Encodable(h);
    Classified(h, Formats(TimesFitUSTAR(h), true, TimesFitGNU(h)), TimeRecords(h));
  }

  /** Only extended attributes are set: none at all suits every format; an
      attribute with '=' or NUL in its name or an empty value suits none;
      otherwise only PAX, with one record per attribute. */
  lemma OnlyXattrs(h: Header)
    requires StringsEmpty(h) && NumbersZero(h) && TimesUnset(h)
    ensures var r := AllowedFormats(h);
      && (h.xattrs == map[] ==> r == Classification(AllFormats, map[]))
      && (!RecordSourcesValid(h) ==> r == Unknown)
      && (h.xattrs != map[] && RecordSourcesValid(h) ==> r == Classification({PAX}, XattrRecords(h.xattrs)))
  {
    EmptyStrings(h);
    ZeroNumbers(h);
    UnsetTimes(h);
    if RecordSourcesValid(h) {
      assert FieldRecords(h) == map[];
      UnionEmptyLeft(FieldRecords(h), XattrRecords(h.xattrs));
      if h.xattrs == map[] {
        NoXattrRecords(h.xattrs);
        Classified(h, AllFormats, map[]);
      } else {
        assert |h.xattrs| > 0;
        Classified(h, {PAX}, XattrRecords(h.xattrs));
      }
    } else {
      AllowedFormatsSpec(h);
    }
  }

  // ---------------------------------------------------------------------
  // Single fields over their whole ranges; every other field is zero.

  const OctalMax7: int := 0x1F_FFFF        // 07777777, the largest 8-byte octal field
  const OctalMax11: int := 0x1_FFFF_FFFF   // 077777777777, the largest 12-byte octal field
  const Base256Bound7: int := 0x100_0000_0000_0000  // 1 << 56

  lemma OctalBounds(n: int)
    ensures FitsInOctal(8, n) <==> 0 <= n <= OctalMax7
    ensures FitsInOctal(12, n) <==> 0 <= n <= OctalMax11
    ensures FitsInBase256(8, n) <==> -Base256Bound7 <= n < Base256Bound7
    ensures FitsInBase256(12, n)
  {
    assert Pow(8, 7) == OctalMax7 + 1;
    assert Pow(8, 11) == OctalMax11 + 1;
    assert Pow(256, 7) == Base256Bound7;
  }

  /** The size alone: up to 077777777777 every format; above it PAX with a
      size record, or GNU; below zero no format. */
  lemma SizeOnly(h: Header)
    requires StringsEmpty(h) && TimesUnset(h) && h.xattrs == map[]
    requires h.mode == 0 && h.uid == 0 && h.gid == 0 && h.devmajor == 0 && h.devminor == 0
    ensures AllowedFormats(h) ==
      if h.size < 0 then Unknown
      else if h.size <= OctalMax11 then Classification(AllFormats, map[])
      else Classification({PAX, GNU}, map[PaxSize := FormatInt(h.size)])
  {
    OnlyNumbers(h);
    if 0 <= h.size {
      SizeFields(h);
    }
  }

  /** What the numeric checks make of a header whose only number is its size. */
  lemma SizeFields(h: Header)
    requires h.mode == 0 && h.uid == 0 && h.gid == 0 && h.devmajor == 0 && h.devminor == 0
    requires 0 <= h.size
    ensures Formats(NumbersFitUSTAR(h), FitsPAX(h), NumbersFitGNU(h))
      == if h.size <= OctalMax11 then AllFormats else {PAX, GNU}
    ensures NumericRecords(h)
      == if h.size <= OctalMax11 then map[] else map[PaxSize := FormatInt(h.size)]
  {
    OctalBounds(h.size);
    OctalBounds(0);
    assert NumericRecord(PaxUid, h.uid, UidSize) == map[];
    assert NumericRecord(PaxGid, h.gid, GidSize) == map[];
    if h.size <= OctalMax11 {
      FormatSet(Formats(true, true, true), AllFormats);
    } else {
      FormatSet(Formats(false, true, true), {PAX, GNU});
    }
  }

  /** The user ID alone (the group ID is alike): up to 07777777 every
      format; otherwise PAX with a uid record, and GNU within its base-256
      range. */
  lemma UidOnly(h: Header)
    requires StringsEmpty(h) && TimesUnset(h) && h.xattrs == map[]
    requires h.mode == 0 && h.gid == 0 && h.size == 0 && h.devmajor == 0 && h.devminor == 0
    ensures AllowedFormats(h) ==
      if 0 <= h.uid <= OctalMax7 then Classification(AllFormats, map[])
      else Classification(Formats(false, true, -Base256Bound7 <= h.uid < Base256Bound7), map[PaxUid := FormatInt(h.uid)])
  {
    OnlyNumbers(h);
    UidFields(h);
  }

  /** The numeric checks on a header whose only number is its user ID. */
  lemma UidFields(h: Header)
    requires h.mode == 0 && h.gid == 0 && h.size == 0 && h.devmajor == 0 && h.devminor == 0
    ensures Classification(Formats(NumbersFitUSTAR(h), FitsPAX(h), NumbersFitGNU(h)), NumericRecords(h)) ==
      if 0 <= h.uid <= OctalMax7 then Classification(AllFormats, map[])
      else Classification(Formats(false, true, -Base256Bound7 <= h.uid < Base256Bound7), map[PaxUid := FormatInt(h.uid)])
  {
    OctalBounds(h.uid);
    OctalBounds(0);
    assert NumericRecord(PaxGid, h.gid, GidSize) == map[];
    assert NumericRecord(PaxSize, h.size, SizeSize) == map[];
    if 0 <= h.uid <= OctalMax7 {
      FormatSet(Formats(true, true, true), AllFormats);
    }
  }

  /** The mode alone: up to 07777777 every format; otherwise, with no PAX
      keyword for it, only GNU within its base-256 range. */
  lemma ModeOnly(h: Header)
    requires StringsEmpty(h) && TimesUnset(h) && h.xattrs == map[]
    requires h.uid == 0 && h.gid == 0 && h.size == 0 && h.devmajor == 0 && h.devminor == 0
    ensures AllowedFormats(h) ==
      if 0 <= h.mode <= OctalMax7 then Classification(AllFormats, map[])
      else Classification(Formats(false, false, -Base256Bound7 <= h.mode < Base256Bound7), map[])
  {
    OnlyNumbers(h);
    OctalBounds(h.mode);
    OctalBounds(0);
    ZeroNumericRecords(h);
    if 0 <= h.mode <= OctalMax7 {
      FormatSet(Formats(true, true, true), AllFormats);
    }
  }

  /** The major device number alone (the minor one is alike): as the mode. */
  lemma DevmajorOnly(h: Header)
    requires StringsEmpty(h) && TimesUnset(h) && h.xattrs == map[]
    requires h.mode == 0 && h.uid == 0 && h.gid == 0 && h.size == 0 && h.devminor == 0
    ensures AllowedFormats(h) ==
      if 0 <= h.devmajor <= OctalMax7 then Classification(AllFormats, map[])
      else Classification(Formats(false, false, -Base256Bound7 <= h.devmajor < Base256Bound7), map[])
  {
    OnlyNumbers(h);
    OctalBounds(h.devmajor);
    OctalBounds(0);
    ZeroNumericRecords(h);
    if 0 <= h.devmajor <= OctalMax7 {
      FormatSet(Formats(true, true, true), AllFormats);
    }
  }

  lemma ZeroNumericRecords(h: Header)
    requires h.uid == 0 && h.gid == 0 && h.size == 0
    ensures NumericRecords(h) == map[]
  {
    assert NumericRecord(PaxUid, h.uid, UidSize) == map[];
    assert NumericRecord(PaxGid, h.gid, GidSize) == map[];
    assert NumericRecord(PaxSize, h.size, SizeSize) == map[];
  }

  /** The name alone: a C ASCII string of at most 100 bytes suits every
      format; a NUL suits none; any other name is a path record, and GNU
      stores it as a long name. */
  lemma NameOnly(h: Header)
    requires NumbersZero(h) && TimesUnset(h) && h.xattrs == map[]
    requires h.linkname == [] && h.uname == [] && h.gname == []
    ensures AllowedFormats(h) ==
      if HasNUL(h.name) then Unknown
      else if IsASCII(h.name) && |h.name| <= NameSize then Classification(AllFormats, map[])
      else Classification({PAX, GNU}, map[PaxPath := h.name])
  {
    OnlyStrings(h);
    NameFields(h);
    if !HasNUL(h.name) {
      if IsASCII(h.name) && |h.name| <= NameSize {
        FormatSet(Formats(true, true, true), AllFormats);
      } else {
        FormatSet(Formats(false, true, true), {PAX, GNU});
      }
    }
  }

  lemma NameFields(h: Header)
    requires h.linkname == [] && h.uname == [] && h.gname == []
    ensures StringsFitUSTAR(h) <==> IsASCII(h.name) && |h.name| <= NameSize
    ensures StringsFitGNU(h) <==> !HasNUL(h.name)
    ensures StringRecords(h) == StringRecord(PaxPath, h.name, NameSize)
  {
    assert StringRecord(PaxLinkpath, h.linkname, LinknameSize) == map[];
    assert StringRecord(PaxUname, h.uname, UnameSize) == map[];
    assert StringRecord(PaxGname, h.gname, GnameSize) == map[];
  }

  /** The link name alone: as the name, with a linkpath record. */
  lemma LinknameOnly(h: Header)
    requires NumbersZero(h) && TimesUnset(h) && h.xattrs == map[]
    requires h.name == [] && h.uname == [] && h.gname == []
    ensures AllowedFormats(h) ==
      if HasNUL(h.linkname) then Unknown
      else if IsASCII(h.linkname) && |h.linkname| <= LinknameSize then Classification(AllFormats, map[])
      else Classification({PAX, GNU}, map[PaxLinkpath := h.linkname])
  {
    OnlyStrings(h);
    LinknameFields(h);
    if !HasNUL(h.linkname) {
      if IsASCII(h.linkname) && |h.linkname| <= LinknameSize {
        FormatSet(Formats(true, true, true), AllFormats);
      } else {
        FormatSet(Formats(false, true, true), {PAX, GNU});
      }
    }
  }

  lemma LinknameFields(h: Header)
    requires h.name == [] && h.uname == [] && h.gname == []
    ensures StringsFitUSTAR(h) <==> IsASCII(h.linkname) && |h.linkname| <= LinknameSize
    ensures StringsFitGNU(h) <==> !HasNUL(h.linkname)
    ensures StringRecords(h) == StringRecord(PaxLinkpath, h.linkname, LinknameSize)
  {
    assert StringRecord(PaxPath, h.name, NameSize) == map[];
    assert StringRecord(PaxUname, h.uname, UnameSize) == map[];
    assert StringRecord(PaxGname, h.gname, GnameSize) == map[];
  }

  /** The user name alone (the group name is alike): a C ASCII string of at
      most 32 bytes suits every format; a NUL suits none; any other user name
      is a uname record, and GNU, which has no long user names, stores it only
      when it fits 32 bytes. */
  lemma UnameOnly(h: Header)
    requires NumbersZero(h) && TimesUnset(h) && h.xattrs == map[]
    requires h.name == [] && h.linkname == [] && h.gname == []
    ensures AllowedFormats(h) ==
      if HasNUL(h.uname) then Unknown
      else if IsASCII(h.uname) && |h.uname| <= UnameSize then Classification(AllFormats, map[])
      else Classification(Formats(false, true, |h.uname| <= UnameSize), map[PaxUname := h.uname])
  {
    OnlyStrings(h);
    UnameFields(h);
    if !HasNUL(h.uname) && IsASCII(h.uname) && |h.uname| <= UnameSize {
      FormatSet(Formats(true, true, true), AllFormats);
    }
  }

  lemma UnameFields(h: Header)
    requires h.name == [] && h.linkname == [] && h.gname == []
    ensures StringsFitUSTAR(h) <==> IsASCII(h.uname) && |h.uname| <= UnameSize
    ensures StringsFitGNU(h) <==> !HasNUL(h.uname) && |h.uname| <= UnameSize
    ensures StringRecords(h) == StringRecord(PaxUname, h.uname, UnameSize)
  {
    assert StringRecord(PaxPath, h.name, NameSize) == map[];
    assert StringRecord(PaxLinkpath, h.linkname, LinknameSize) == map[];
    assert StringRecord(PaxGname, h.gname, GnameSize) == map[];
  }

  /** The name and the major device number together: the formats both
      allow. A name USTAR cannot hold leaves PAX and GNU, a device number
      outside the octal field leaves GNU within its base-256 range. */
  lemma NameWithDevmajor(h: Header)
    requires TimesUnset(h) && h.xattrs == map[]
    requires h.linkname == [] && h.uname == [] && h.gname == []
    requires h.mode == 0 && h.uid == 0 && h.gid == 0 && h.size == 0 && h.devminor == 0
    ensures AllowedFormats(h).formats ==
      if HasNUL(h.name) then {}
      else Formats(IsASCII(h.name) && |h.name| <= NameSize && 0 <= h.devmajor <= OctalMax7,
                   0 <= h.devmajor <= OctalMax7,
                   -Base256Bound7 <= h.devmajor < Base256Bound7)
  {
    NameFields(h);
    OctalBounds(h.devmajor);
    OctalBounds(0);
    AllowedFormatsSpec(h);
    if !HasNUL(h.name) {
      assert Encodable(h);
      FormatSet(AllowedFormats(h).formats,
        Formats(IsASCII(h.name) && |h.name| <= NameSize && 0 <= h.devmajor <= OctalMax7,
                0 <= h.devmajor <= OctalMax7,
                -Base256Bound7 <= h.devmajor < Base256Bound7));
    } else {
      assert !Encodable(h);
    }
  }

  /** The modification time alone: unset, or whole seconds from 0 to
      077777777777, suits every format; other whole seconds are an mtime
      record, which GNU can do without; a sub-second part leaves only PAX. */
  lemma ModTimeOnly(h: Header)
    requires StringsEmpty(h) && NumbersZero(h) && h.xattrs == map[]
    requires h.accessTime.None? && h.changeTime.None?
    ensures AllowedFormats(h) ==
      if IsZero(h.modTime) then Classification(AllFormats, map[])
      else if h.modTime.value.nanos != 0 then Classification({PAX}, map[PaxMtime := FormatPAXTime(h.modTime.value)])
      else if 0 <= h.modTime.value.secs <= OctalMax11 then Classification(AllFormats, map[])
      else Classification({PAX, GNU}, map[PaxMtime := FormatInt(h.modTime.value.secs)])
  {
    OnlyTimes(h);
    ModTimeFields(h);
  }

  /** The time checks on a header whose only set time is the modification time. */
  lemma ModTimeFields(h: Header)
    requires h.accessTime.None? && h.changeTime.None?
    ensures Classification(Formats(TimesFitUSTAR(h), true, TimesFitGNU(h)), TimeRecords(h)) ==
      if IsZero(h.modTime) then Classification(AllFormats, map[])
      else if h.modTime.value.nanos != 0 then Classification({PAX}, map[PaxMtime := FormatPAXTime(h.modTime.value)])
      else if 0 <= h.modTime.value.secs <= OctalMax11 then Classification(AllFormats, map[])
      else Classification({PAX, GNU}, map[PaxMtime := FormatInt(h.modTime.value.secs)])
  {
    assert TimeRecord(PaxAtime, h.accessTime, AccessTimeSize, false) == map[];
    assert TimeRecord(PaxCtime, h.changeTime, ChangeTimeSize, false) == map[];
    if IsZero(h.modTime) {
      FormatSet(Formats(true, true, true), AllFormats);
    } else {
      var ts := h.modTime.value;
      OctalBounds(ts.secs);
      if ts.nanos != 0 {
        FormatSet(Formats(false, true, false), {PAX});
      } else if 0 <= ts.secs <= OctalMax11 {
        FormatSet(Formats(true, true, true), AllFormats);
      } else {
        FormatSet(Formats(false, true, true), {PAX, GNU});
      }
    }
  }

  /** The access time alone (the change time is alike): unset suits every
      format; USTAR has no field for it, so it is an atime record, which GNU
      can do without for whole seconds. */
  lemma AccessTimeOnly(h: Header)
    requires StringsEmpty(h) && NumbersZero(h) && h.xattrs == map[]
    requires h.modTime.None? && h.changeTime.None?
    ensures AllowedFormats(h) ==
      if IsZero(h.accessTime) then Classification(AllFormats, map[])
      else Classification(Formats(false, true, h.accessTime.value.nanos == 0),
                          map[PaxAtime := FormatPAXTime(h.accessTime.value)])
  {
    OnlyTimes(h);
    AccessTimeFields(h);
  }

  /** The time checks on a header whose only set time is the access time. */
  lemma AccessTimeFields(h: Header)
    requires h.modTime.None? && h.changeTime.None?
    ensures Classification(Formats(TimesFitUSTAR(h), true, TimesFitGNU(h)), TimeRecords(h)) ==
      if IsZero(h.accessTime) then Classification(AllFormats, map[])
      else Classification(Formats(false, true, h.accessTime.value.nanos == 0),
                          map[PaxAtime := FormatPAXTime(h.accessTime.value)])
  {
    assert TimeRecord(PaxMtime, h.modTime, ModTimeSize, true) == map[];
    assert TimeRecord(PaxCtime, h.changeTime, ChangeTimeSize, false) == map[];
    if IsZero(h.accessTime) {
      FormatSet(Formats(true, true, true), AllFormats);
    } else {
      OctalBounds(h.accessTime.value.secs);
    }
  }

  /** The change time alone: as the access time, with a ctime record. */
  lemma ChangeTimeOnly(h: Header)
    requires StringsEmpty(h) && NumbersZero(h) && h.xattrs == map[]
    requires h.modTime.None? && h.accessTime.None?
    ensures AllowedFormats(h) ==
      if IsZero(h.changeTime) then Classification(AllFormats, map[])
      else Classification(Formats(false, true, h.changeTime.value.nanos == 0),
                          map[PaxCtime := FormatPAXTime(h.changeTime.value)])
  {
    OnlyTimes(h);
    ChangeTimeFields(h);
  }

  /** The time checks on a header whose only set time is the change time. */
  lemma ChangeTimeFields(h: Header)
    requires h.modTime.None? && h.accessTime.None?
    ensures Classification(Formats(TimesFitUSTAR(h), true, TimesFitGNU(h)), TimeRecords(h)) ==
      if IsZero(h.changeTime) then Classification(AllFormats, map[])
      else Classification(Formats(false, true, h.changeTime.value.nanos == 0),
                          map[PaxCtime := FormatPAXTime(h.changeTime.value)])
  {
    assert TimeRecord(PaxMtime, h.modTime, ModTimeSize, true) == map[];
    assert TimeRecord(PaxAtime, h.accessTime, AccessTimeSize, false) == map[];
    if IsZero(h.changeTime) {
      FormatSet(Formats(true, true, true), AllFormats);
    } else {
      OctalBounds(h.changeTime.value.secs);
    }
  }

  // ---------------------------------------------------------------------
  // Facts about every header.

  /** A header USTAR can encode needs no PAX record at all. */
  lemma USTARNeedsNoRecords(h: Header)
    ensures USTAR in AllowedFormats(h).formats ==> AllowedFormats(h).paxHdrs == map[]
  {
    AllowedFormatsSpec(h);
    if USTAR in AllowedFormats(h).formats {
      assert StringRecords(h) == map[];
      assert NumericRecords(h) == map[];
      assert TimeRecords(h) == map[];
      assert h.xattrs == map[];
      NoXattrRecords(h.xattrs);
    }
  }

  /** An octal field holds fewer values than a base-256 field of the same
      width. */
  lemma OctalFitsBase256(n: nat, x: int)
    requires n >= 1 && FitsInOctal(n, x)
    ensures FitsInBase256(n, x)
  {
    if n < 9 {
      PowMonotone(8, 256, n - 1);
    }
  }

  lemma {:induction false} PowMonotone(a: nat, b: nat, e: nat)
    requires 0 < a <= b
    ensures Pow(a, e) <= Pow(b, e)
  {
    if e > 0 {
      PowMonotone(a, b, e - 1);
      MulMonotone(a, Pow(a, e - 1), b, Pow(b, e - 1));
    }
  }

  lemma MulMonotone(a: nat, x: nat, b: nat, y: nat)
    requires a <= b && x <= y
    ensures a * x <= b * y
  {
    assert a * x <= b * x;
    assert b * x <= b * y;
  }

  /** USTAR is the strictest format: whatever it can encode, PAX and GNU
      can encode too. */
  lemma USTARIsStrictest(h: Header)
    ensures USTAR in AllowedFormats(h).formats ==>
      PAX in AllowedFormats(h).formats && GNU in AllowedFormats(h).formats
  {
    AllowedFormatsSpec(h);
    if USTAR in AllowedFormats(h).formats {
      ASCIIHasNoNUL(h.name);
      ASCIIHasNoNUL(h.linkname);
      ASCIIHasNoNUL(h.uname);
      ASCIIHasNoNUL(h.gname);
      OctalFitsBase256(ModeSize, h.mode);
      OctalFitsBase256(UidSize, h.uid);
      OctalFitsBase256(GidSize, h.gid);
      OctalFitsBase256(SizeSize, h.size);
      OctalFitsBase256(DevmajorSize, h.devmajor);
      OctalFitsBase256(DevminorSize, h.devminor);
      if !IsZero(h.modTime) {
        OctalFitsBase256(ModTimeSize, h.modTime.value.secs);
      }
    }
  }

  /** The numeric records read back as the numbers. */
  lemma NumericRecordsRoundTrip(h: Header)
    requires Encodable(h)
    ensures var m := AllowedFormats(h).paxHdrs;
      && (PaxUid in m <==> !FitsInOctal(UidSize, h.uid))
      && (PaxGid in m <==> !FitsInOctal(GidSize, h.gid))
      && (PaxSize in m <==> !FitsInOctal(SizeSize, h.size))
      && (PaxUid in m ==> ParseInt(m[PaxUid]) == Some(h.uid))
      && (PaxGid in m ==> ParseInt(m[PaxGid]) == Some(h.gid))
      && (PaxSize in m ==> ParseInt(m[PaxSize]) == Some(h.size))
  {
    AllowedFormatsSpec(h);
    var n := NumericRecords(h);
    KeyGroupsDisjoint();
    ParseFormatInt(h.uid);
    ParseFormatInt(h.gid);
    ParseFormatInt(h.size);
    NumericKeysAreFieldKeys(h);
  }

  lemma NumericKeysAreFieldKeys(h: Header)
    ensures forall k :: k in NumericRecords(h) <==> k in Overrides(h) && k in {PaxUid, PaxGid, PaxSize}
    ensures forall k :: k in NumericRecords(h) ==> Overrides(h)[k] == NumericRecords(h)[k]
  {
    forall k | k in NumericRecords(h) ensures k in Overrides(h) && Overrides(h)[k] == NumericRecords(h)[k] {
      FieldRecordLookup(h, k);
    }
    forall k | k in Overrides(h) && k in {PaxUid, PaxGid, PaxSize} ensures k in NumericRecords(h) {
      KeyGroupsDisjoint();
      assert |k| <= 8;
    }
  }

  /** The time records read back as the very instants. */
  lemma TimeRecordsRoundTrip(h: Header)
    requires Encodable(h)
    ensures var m := AllowedFormats(h).paxHdrs;
      && (PaxMtime in m ==> h.modTime.Some? && ParsePAXTime(m[PaxMtime]) == Some(h.modTime.value))
      && (PaxAtime in m ==> h.accessTime.Some? && ParsePAXTime(m[PaxAtime]) == Some(h.accessTime.value))
      && (PaxCtime in m ==> h.changeTime.Some? && ParsePAXTime(m[PaxCtime]) == Some(h.changeTime.value))
  {
    AllowedFormatsSpec(h);
    TimeKeysAreFieldKeys(h);
    if h.modTime.Some? {
      ParseFormatPAXTime(h.modTime.value);
    }
    if h.accessTime.Some? {
      ParseFormatPAXTime(h.accessTime.value);
    }
    if h.changeTime.Some? {
      ParseFormatPAXTime(h.changeTime.value);
    }
  }

  lemma TimeKeysAreFieldKeys(h: Header)
    ensures forall k :: k in Overrides(h) && k in {PaxMtime, PaxAtime, PaxCtime} ==>
      k in TimeRecords(h) && Overrides(h)[k] == TimeRecords(h)[k]
  {
    forall k | k in Overrides(h) && k in {PaxMtime, PaxAtime, PaxCtime}
      ensures k in TimeRecords(h) && Overrides(h)[k] == TimeRecords(h)[k]
    {
      KeyGroupsDisjoint();
      assert |k| <= 8;
      FieldRecordLookup(h, k);
    }
  }

  /** The string records hold the strings verbatim. */
  lemma StringRecordsVerbatim(h: Header)
    requires Encodable(h)
    ensures var m := AllowedFormats(h).paxHdrs;
      && (PaxPath in m <==> !IsASCII(h.name) || |h.name| > NameSize)
      && (PaxLinkpath in m <==> !IsASCII(h.linkname) || |h.linkname| > LinknameSize)
      && (PaxUname in m <==> !IsASCII(h.uname) || |h.uname| > UnameSize)
      && (PaxGname in m <==> !IsASCII(h.gname) || |h.gname| > GnameSize)
      && (PaxPath in m ==> m[PaxPath] == h.name)
      && (PaxLinkpath in m ==> m[PaxLinkpath] == h.linkname)
      && (PaxUname in m ==> m[PaxUname] == h.uname)
      && (PaxGname in m ==> m[PaxGname] == h.gname)
  {
    AllowedFormatsSpec(h);
    forall k | k in Overrides(h) && k in {PaxPath, PaxLinkpath, PaxUname, PaxGname}
      ensures k in StringRecords(h) && Overrides(h)[k] == StringRecords(h)[k]
    {
      KeyGroupsDisjoint();
      assert |k| <= 8;
      FieldRecordLookup(h, k);
    }
    forall k | k in StringRecords(h) ensures k in Overrides(h) {
      FieldRecordLookup(h, k);
    }
  }

  /** Every extended attribute is a record holding its value verbatim. */
  lemma XattrRecordsVerbatim(h: Header)
    requires Encodable(h)
    ensures forall x :: x in h.xattrs ==>
      PaxXattr + x in AllowedFormats(h).paxHdrs && AllowedFormats(h).paxHdrs[PaxXattr + x] == h.xattrs[x]
  {
    AllowedFormatsSpec(h);
  }

  /** Every record is one of a field or one of an extended attribute. */
  lemma RecordKeys(h: Header)
    ensures forall k :: k in AllowedFormats(h).paxHdrs ==>
      IsFieldKey(k) || (|k| >= |PaxXattr| && k[..|PaxXattr|] == PaxXattr && k[|PaxXattr|..] in h.xattrs)
  {
    AllowedFormatsSpec(h);
    if Encodable(h) {
      forall k | k in Overrides(h)
        ensures IsFieldKey(k) || (|k| >= |PaxXattr| && k[..|PaxXattr|] == PaxXattr && k[|PaxXattr|..] in h.xattrs)
      {
        if k in FieldRecords(h) {
          FieldRecordKey(h, k);
        }
      }
    }
  }

  lemma FieldRecordKey(h: Header, k: Bytes)
    requires k in FieldRecords(h)
    ensures IsFieldKey(k)
  {
    if k in StringRecords(h) {
      assert k in {PaxPath, PaxLinkpath, PaxUname, PaxGname};
    } else if k in NumericRecords(h) {
      assert k in {PaxUid, PaxGid, PaxSize};
    } else {
      assert k in {PaxMtime, PaxAtime, PaxCtime};
    }
  }

  /** A single extended attribute is a single record under the prefixed
      name. */
  lemma XattrRecordsSingle(k: Bytes, v: Bytes)
    ensures XattrRecords(map[k := v]) == map[PaxXattr + k := v]
  {
    var m := XattrRecords(map[k := v]);
    assert m.Keys == {PaxXattr + k};
  }
}
