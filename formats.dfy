// Header.allowedFormats: which of the USTAR, PAX and GNU formats can encode a
// header, and which PAX records a PAX encoding has to add because a USTAR
// field cannot hold the value.
module TarFormats {
  import opened GoTypes
  import opened Wrappers
  import opened GoTime
  import opened Strconv
  import opened TarStrconv
  import opened TarHeader

  datatype Format = USTAR | PAX | GNU

  const AllFormats: set<Format> := {USTAR, PAX, GNU}

  /** The two results of allowedFormats: the bit set of formats (empty is
      formatUnknown) and the PAX records a PAX encoding needs. */
  datatype Classification = Classification(formats: set<Format>, paxHdrs: map<Bytes, Bytes>)

  /** (formatUnknown, nil). */
  const Unknown: Classification := Classification({}, map[])

  /** verifyString: a string longer than its field rules out GNU unless it is
      a path (GNU has long-name records for those), and a NUL rules GNU out
      always; a string that is too long or not a C ASCII string rules out
      USTAR and becomes a PAX record. */
  function VerifyString(c: Classification, s: Bytes, size: nat, key: Bytes): (r: Classification)
    ensures r.paxHdrs == c.paxHdrs + StringRecord(key, s, size)
    ensures USTAR in r.formats <==> USTAR in c.formats && IsASCII(s) && |s| <= size
    ensures GNU in r.formats <==>
      GNU in c.formats && !HasNUL(s) && (|s| <= size || key == PaxPath || key == PaxLinkpath)
    ensures PAX in r.formats <==> PAX in c.formats
  {
    var tooLong := |s| > size;
    var allowLongGNU := key == PaxPath || key == PaxLinkpath;
    var f := if HasNUL(s) || (tooLong && !allowLongGNU) then c.formats - {GNU} else c.formats;
    if !IsASCII(s) || tooLong then Classification(f - {USTAR}, c.paxHdrs[key := s])
    else Classification(f, c.paxHdrs)
  }

  /** verifyNumeric: a number outside the base-256 range rules out GNU; one
      that does not fit the octal field rules out USTAR and becomes a PAX
      record, or, for a field PAX has no keyword for (key None), rules out
      PAX as well. */
  function VerifyNumeric(c: Classification, n: Int64, size: nat, key: Option<Bytes>): (r: Classification)
    requires size >= 1
    ensures r.paxHdrs == if key.Some? then c.paxHdrs + NumericRecord(key.value, n, size) else c.paxHdrs
    ensures USTAR in r.formats <==> USTAR in c.formats && FitsInOctal(size, n)
    ensures GNU in r.formats <==> GNU in c.formats && FitsInBase256(size, n)
    ensures PAX in r.formats <==> PAX in c.formats && (key.Some? || FitsInOctal(size, n))
  {
    var f := if !FitsInBase256(size, n) then c.formats - {GNU} else c.formats;
    if !FitsInOctal(size, n) then
      if key.None? then Classification(f - {USTAR, PAX}, c.paxHdrs)
      else Classification(f - {USTAR}, c.paxHdrs[key.value := FormatInt(n)])
    else Classification(f, c.paxHdrs)
  }

  /** verifyTime: an unset time is always fine. A sub-second part rules out
      GNU; it, a whole-second count that does not fit the octal field, or any
      time but the modification time (USTAR has no atime or ctime field) rules
      out USTAR and becomes a PAX record. */
  function VerifyTime(c: Classification, t: Time, size: nat, key: Bytes): (r: Classification)
    requires size >= 1
    ensures r.paxHdrs == c.paxHdrs + TimeRecord(key, t, size, key == PaxMtime)
    ensures USTAR in r.formats <==>
      USTAR in c.formats && (IsZero(t) || (key == PaxMtime && FitsInOctal(size, t.value.secs) && t.value.nanos == 0))
    ensures GNU in r.formats <==> GNU in c.formats && FitsGNUTime(t, size)
    ensures PAX in r.formats <==> PAX in c.formats
  {
    if IsZero(t) then c
    else
      var ts := t.value;
      var f := if !FitsInBase256(size, ts.secs) || ts.nanos != 0 then c.formats - {GNU} else c.formats;
      if !FitsInOctal(size, ts.secs) || ts.nanos != 0 || key != PaxMtime then
        Classification(f - {USTAR}, c.paxHdrs[key := FormatPAXTime(ts)])
      else Classification(f, c.paxHdrs)
  }

  /** One "SCHILY.xattr." record per extended attribute, holding its value
      verbatim. */
  function XattrRecords(x: map<Bytes, Bytes>): (m: map<Bytes, Bytes>)
    ensures forall k :: k in x ==> PaxXattr + k in m && m[PaxXattr + k] == x[k]
    ensures forall k :: k in m ==>
      |k| >= |PaxXattr| && k[..|PaxXattr|] == PaxXattr && k[|PaxXattr|..] in x && m[k] == x[k[|PaxXattr|..]]
  {
    assert forall k :: k in x ==> (PaxXattr + k)[|PaxXattr|..] == k;
    map k | k in x :: PaxXattr + k := x[k]
  }

  /** Extended attributes leave PAX as the only candidate format and add
      their records. */
  function AddXattrs(c: Classification, x: map<Bytes, Bytes>): (r: Classification)
    ensures r.paxHdrs == c.paxHdrs + XattrRecords(x)
    ensures r.formats == if |x| > 0 then c.formats * {PAX} else c.formats
  {
    if |x| > 0 then Classification(c.formats * {PAX}, c.paxHdrs + XattrRecords(x))
    else
      assert x == map[];
      assert XattrRecords(x) == map[];
      c
  }

  /** Every record is valid and has a nonempty value (an empty value would
      delete a record). */
  predicate AllRecordsValid(m: map<Bytes, Bytes>)
  {
    forall k :: k in m ==> ValidPAXRecord(k, m[k]) && m[k] != []
  }

  /** The checks of the string fields. */
  function CheckStrings(c: Classification, h: Header): (r: Classification)
    ensures r.paxHdrs == c.paxHdrs + StringRecords(h)
    ensures USTAR in r.formats <==> USTAR in c.formats && StringsFitUSTAR(h)
    ensures GNU in r.formats <==> GNU in c.formats && StringsFitGNU(h)
    ensures PAX in r.formats <==> PAX in c.formats
  {
    var c1 := VerifyString(c, h.name, NameSize, PaxPath);
    var c2 := VerifyString(c1, h.linkname, LinknameSize, PaxLinkpath);
    var c3 := VerifyString(c2, h.uname, UnameSize, PaxUname);
    var c4 := VerifyString(c3, h.gname, GnameSize, PaxGname);
    assert PaxUname != PaxPath && PaxUname != PaxLinkpath && PaxGname != PaxPath && PaxGname != PaxLinkpath;
    UnionAssoc4(c.paxHdrs, StringRecord(PaxPath, h.name, NameSize),
      StringRecord(PaxLinkpath, h.linkname, LinknameSize), StringRecord(PaxUname, h.uname, UnameSize),
      StringRecord(PaxGname, h.gname, GnameSize));
    c4
  }

  /** The checks of the numeric fields. */
  function CheckNumbers(c: Classification, h: Header): (r: Classification)
    ensures r.paxHdrs == c.paxHdrs + NumericRecords(h)
    ensures USTAR in r.formats <==> USTAR in c.formats && NumbersFitUSTAR(h)
    ensures GNU in r.formats <==> GNU in c.formats && NumbersFitGNU(h)
    ensures PAX in r.formats <==> PAX in c.formats && FitsPAX(h)
  {
    var c1 := VerifyNumeric(c, h.mode, ModeSize, None);
    var c2 := VerifyNumeric(c1, h.uid, UidSize, Some(PaxUid));
    var c3 := VerifyNumeric(c2, h.gid, GidSize, Some(PaxGid));
    var c4 := VerifyNumeric(c3, h.size, SizeSize, Some(PaxSize));
    var c5 := VerifyNumeric(c4, h.devmajor, DevmajorSize, None);
    var c6 := VerifyNumeric(c5, h.devminor, DevminorSize, None);
    UnionAssoc(c.paxHdrs, NumericRecord(PaxUid, h.uid, UidSize),
      NumericRecord(PaxGid, h.gid, GidSize), NumericRecord(PaxSize, h.size, SizeSize));
    c6
  }

  /** The checks of the three times. */
  function CheckTimes(c: Classification, h: Header): (r: Classification)
    ensures r.paxHdrs == c.paxHdrs + TimeRecords(h)
    ensures USTAR in r.formats <==> USTAR in c.formats && TimesFitUSTAR(h)
    ensures GNU in r.formats <==> GNU in c.formats && TimesFitGNU(h)
    ensures PAX in r.formats <==> PAX in c.formats
  {
    var c1 := VerifyTime(c, h.modTime, ModTimeSize, PaxMtime);
    var c2 := VerifyTime(c1, h.accessTime, AccessTimeSize, PaxAtime);
    var c3 := VerifyTime(c2, h.changeTime, ChangeTimeSize, PaxCtime);
    assert PaxAtime != PaxMtime && PaxCtime != PaxMtime by {
      assert PaxAtime[0] != PaxMtime[0] && PaxCtime[0] != PaxMtime[0];
    }
    UnionAssoc(c.paxHdrs, TimeRecord(PaxMtime, h.modTime, ModTimeSize, true),
      TimeRecord(PaxAtime, h.accessTime, AccessTimeSize, false),
      TimeRecord(PaxCtime, h.changeTime, ChangeTimeSize, false));
    c3
  }

  /** The field-by-field checks, in the order the header fields are visited,
      starting from all three formats and no records. */
  function CheckFields(h: Header): (r: Classification)
    ensures r.paxHdrs == FieldRecords(h)
    ensures USTAR in r.formats <==> FieldsFitUSTAR(h)
    ensures GNU in r.formats <==> FieldsFitGNU(h)
    ensures PAX in r.formats <==> FitsPAX(h)
  {
    var c := Classification(AllFormats, map[]);
    assert c.paxHdrs + StringRecords(h) == StringRecords(h);
    CheckTimes(CheckNumbers(CheckStrings(c, h), h), h)
  }

  /** Header.allowedFormats. After the field checks, extended attributes
      leave PAX as the only candidate and add their records; an invalid
      record or a negative size leaves no format at all. */
  function AllowedFormats(h: Header): Classification
  {
    var c := AddXattrs(CheckFields(h), h.xattrs);
    if !AllRecordsValid(c.paxHdrs) then Unknown
    else if h.size < 0 then Unknown
    else c
  }

  // ---------------------------------------------------------------------
  // The same classification stated field by field.

  /** The string fields are C strings, and every extended attribute has a
      name without '=' or NUL and a nonempty value. */
  predicate RecordSourcesValid(h: Header)
  {
    !HasNUL(h.name) && !HasNUL(h.linkname) && !HasNUL(h.uname) && !HasNUL(h.gname)
    && forall k :: k in h.xattrs ==> Equals !in k && NUL !in k && h.xattrs[k] != []
  }

  /** Some format may encode the header: no PAX record it would need is
      invalid, and the size is not negative. */
  predicate Encodable(h: Header)
  {
    h.size >= 0 && RecordSourcesValid(h)
  }

  /** A USTAR header can hold every field and there are no extended
      attributes. */
  predicate FitsUSTAR(h: Header)
  {
    FieldsFitUSTAR(h) && |h.xattrs| == 0
  }

  /** A GNU header can hold every field and there are no extended
      attributes. */
  predicate FitsGNU(h: Header)
  {
    FieldsFitGNU(h) && |h.xattrs| == 0
  }

  /** The string fields fit their USTAR fields as C ASCII strings. */
  predicate StringsFitUSTAR(h: Header)
  {
    IsASCII(h.name) && |h.name| <= NameSize
    && IsASCII(h.linkname) && |h.linkname| <= LinknameSize
    && IsASCII(h.uname) && |h.uname| <= UnameSize
    && IsASCII(h.gname) && |h.gname| <= GnameSize
  }

  /** The numbers fit their octal fields. */
  predicate NumbersFitUSTAR(h: Header)
  {
    FitsInOctal(ModeSize, h.mode) && FitsInOctal(UidSize, h.uid)
    && FitsInOctal(GidSize, h.gid) && FitsInOctal(SizeSize, h.size)
    && FitsInOctal(DevmajorSize, h.devmajor) && FitsInOctal(DevminorSize, h.devminor)
  }

  /** The modification time, if set, is whole seconds fitting the octal
      field; the access and change times, which USTAR has no field for, are
      unset. */
  predicate TimesFitUSTAR(h: Header)
  {
    (IsZero(h.modTime) || (FitsInOctal(ModTimeSize, h.modTime.value.secs) && h.modTime.value.nanos == 0))
    && IsZero(h.accessTime) && IsZero(h.changeTime)
  }

  /** Every field fits a USTAR header as it is. */
  predicate FieldsFitUSTAR(h: Header)
  {
    StringsFitUSTAR(h) && NumbersFitUSTAR(h) && TimesFitUSTAR(h)
  }

  /** The strings are C strings and the user and group names fit their
      fields; GNU has long-name records for the name and the link name. */
  predicate StringsFitGNU(h: Header)
  {
    !HasNUL(h.name) && !HasNUL(h.linkname)
    && !HasNUL(h.uname) && |h.uname| <= UnameSize
    && !HasNUL(h.gname) && |h.gname| <= GnameSize
  }

  /** The numbers are in the base-256 range of their fields. */
  predicate NumbersFitGNU(h: Header)
  {
    FitsInBase256(ModeSize, h.mode) && FitsInBase256(UidSize, h.uid)
    && FitsInBase256(GidSize, h.gid) && FitsInBase256(SizeSize, h.size)
    && FitsInBase256(DevmajorSize, h.devmajor) && FitsInBase256(DevminorSize, h.devminor)
  }

  /** A time GNU can store: unset, or whole seconds in base-256 range. */
  predicate FitsGNUTime(t: Time, size: nat)
    requires size >= 1
  {
    IsZero(t) || (FitsInBase256(size, t.value.secs) && t.value.nanos == 0)
  }

  /** All three times can be stored in a GNU header. */
  predicate TimesFitGNU(h: Header)
  {
    FitsGNUTime(h.modTime, ModTimeSize)
    && FitsGNUTime(h.accessTime, AccessTimeSize) && FitsGNUTime(h.changeTime, ChangeTimeSize)
  }

  /** Every field fits a GNU header, long names and link names included. */
  predicate FieldsFitGNU(h: Header)
  {
    StringsFitGNU(h) && NumbersFitGNU(h) && TimesFitGNU(h)
  }

  /** PAX can carry every field as a record except the mode and the device
      numbers, which must fit their octal fields. */
  predicate FitsPAX(h: Header)
  {
    FitsInOctal(ModeSize, h.mode)
    && FitsInOctal(DevmajorSize, h.devmajor) && FitsInOctal(DevminorSize, h.devminor)
  }

  /** A string needs a PAX record when it does not fit its USTAR field. */
  function StringRecord(key: Bytes, s: Bytes, size: nat): (r: map<Bytes, Bytes>)
    ensures r.Keys <= {key} && (key in r ==> r[key] == s)
    ensures key in r <==> !IsASCII(s) || |s| > size
  {
    if !IsASCII(s) || |s| > size then map[key := s] else map[]
  }

  /** A number needs a PAX record when it does not fit its octal field. */
  function NumericRecord(key: Bytes, n: Int64, size: nat): (r: map<Bytes, Bytes>)
    requires size >= 1
    ensures r.Keys <= {key} && (key in r ==> r[key] == FormatInt(n))
    ensures key in r <==> !FitsInOctal(size, n)
  {
    if !FitsInOctal(size, n) then map[key := FormatInt(n)] else map[]
  }

  /** A set time needs a PAX record when it is not whole seconds fitting the
      octal field of a USTAR header, which has a field only for mtime. */
  function TimeRecord(key: Bytes, t: Time, size: nat, inUSTAR: bool): (r: map<Bytes, Bytes>)
    requires size >= 1
    ensures r.Keys <= {key} && (key in r ==> t.Some? && r[key] == FormatPAXTime(t.value))
    ensures key in r <==> !IsZero(t) && (!inUSTAR || !FitsInOctal(size, t.value.secs) || t.value.nanos != 0)
  {
    if !IsZero(t) && (!inUSTAR || !FitsInOctal(size, t.value.secs) || t.value.nanos != 0)
    then map[key := FormatPAXTime(t.value)]
    else map[]
  }

  /** The records of the string fields. */
  function StringRecords(h: Header): (m: map<Bytes, Bytes>)
    ensures m.Keys <= {PaxPath, PaxLinkpath, PaxUname, PaxGname}
    ensures PaxPath in m <==> !IsASCII(h.name) || |h.name| > NameSize
    ensures PaxLinkpath in m <==> !IsASCII(h.linkname) || |h.linkname| > LinknameSize
    ensures PaxUname in m <==> !IsASCII(h.uname) || |h.uname| > UnameSize
    ensures PaxGname in m <==> !IsASCII(h.gname) || |h.gname| > GnameSize
    ensures PaxPath in m ==> m[PaxPath] == h.name
    ensures PaxLinkpath in m ==> m[PaxLinkpath] == h.linkname
    ensures PaxUname in m ==> m[PaxUname] == h.uname
    ensures PaxGname in m ==> m[PaxGname] == h.gname
  {
    assert PaxUname[0] != PaxGname[0];
    StringRecord(PaxPath, h.name, NameSize)
    + StringRecord(PaxLinkpath, h.linkname, LinknameSize)
    + StringRecord(PaxUname, h.uname, UnameSize)
    + StringRecord(PaxGname, h.gname, GnameSize)
  }

  /** The records of the numeric fields. */
  function NumericRecords(h: Header): (m: map<Bytes, Bytes>)
    ensures m.Keys <= {PaxUid, PaxGid, PaxSize}
    ensures PaxUid in m <==> !FitsInOctal(UidSize, h.uid)
    ensures PaxGid in m <==> !FitsInOctal(GidSize, h.gid)
    ensures PaxSize in m <==> !FitsInOctal(SizeSize, h.size)
    ensures PaxUid in m ==> m[PaxUid] == FormatInt(h.uid)
    ensures PaxGid in m ==> m[PaxGid] == FormatInt(h.gid)
    ensures PaxSize in m ==> m[PaxSize] == FormatInt(h.size)
  {
    assert PaxUid[0] != PaxGid[0];
    NumericRecord(PaxUid, h.uid, UidSize)
    + NumericRecord(PaxGid, h.gid, GidSize)
    + NumericRecord(PaxSize, h.size, SizeSize)
  }

  /** The records of the times. */
  function TimeRecords(h: Header): (m: map<Bytes, Bytes>)
    ensures m.Keys <= {PaxMtime, PaxAtime, PaxCtime}
    ensures PaxMtime in m <==>
      !IsZero(h.modTime) && (!FitsInOctal(ModTimeSize, h.modTime.value.secs) || h.modTime.value.nanos != 0)
    ensures PaxAtime in m <==> !IsZero(h.accessTime)
    ensures PaxCtime in m <==> !IsZero(h.changeTime)
    ensures PaxMtime in m ==> m[PaxMtime] == FormatPAXTime(h.modTime.value)
    ensures PaxAtime in m ==> m[PaxAtime] == FormatPAXTime(h.accessTime.value)
    ensures PaxCtime in m ==> m[PaxCtime] == FormatPAXTime(h.changeTime.value)
  {
    assert PaxMtime[0] != PaxAtime[0] && PaxMtime[0] != PaxCtime[0] && PaxAtime[0] != PaxCtime[0];
    TimeRecord(PaxMtime, h.modTime, ModTimeSize, true)
    + TimeRecord(PaxAtime, h.accessTime, AccessTimeSize, false)
    + TimeRecord(PaxCtime, h.changeTime, ChangeTimeSize, false)
  }

  /** The PAX records the header fields need. */
  function FieldRecords(h: Header): map<Bytes, Bytes>
  {
    StringRecords(h) + NumericRecords(h) + TimeRecords(h)
  }

  /** The PAX records of a header: those of its fields and those of its
      extended attributes. */
  function Overrides(h: Header): map<Bytes, Bytes>
  {
    FieldRecords(h) + XattrRecords(h.xattrs)
  }

  lemma UnionAssoc4(a: map<Bytes, Bytes>, w: map<Bytes, Bytes>, x: map<Bytes, Bytes>,
                    y: map<Bytes, Bytes>, z: map<Bytes, Bytes>)
    ensures a + w + x + y + z == a + (w + x + y + z)
  {
  }

  lemma UnionAssoc(a: map<Bytes, Bytes>, x: map<Bytes, Bytes>, y: map<Bytes, Bytes>, z: map<Bytes, Bytes>)
    ensures a + x + y + z == a + (x + y + z)
  {
  }

  /** The keywords of different kinds of fields are different. */
  lemma KeyGroupsDisjoint()
    ensures {PaxPath, PaxLinkpath, PaxUname, PaxGname} !! {PaxUid, PaxGid, PaxSize}
    ensures {PaxPath, PaxLinkpath, PaxUname, PaxGname} !! {PaxMtime, PaxAtime, PaxCtime}
    ensures {PaxUid, PaxGid, PaxSize} !! {PaxMtime, PaxAtime, PaxCtime}
  {
    assert PaxPath[0] != PaxSize[0] && PaxLinkpath[0] != PaxSize[0];
    assert PaxUname[0] != PaxGid[0] && PaxUname[0] != PaxSize[0];
    assert PaxGname[0] != PaxUid[0] && PaxGname[0] != PaxSize[0];
    assert PaxPath[0] != PaxMtime[0] && PaxPath[0] != PaxAtime[0] && PaxPath[0] != PaxCtime[0];
    assert PaxUname[0] != PaxMtime[0] && PaxUname[0] != PaxAtime[0] && PaxUname[0] != PaxCtime[0];
    assert PaxGname[0] != PaxMtime[0] && PaxGname[0] != PaxAtime[0] && PaxGname[0] != PaxCtime[0];
  }

  /** A field record stays as it is among all the records of the header. */
  lemma FieldRecordLookup(h: Header, k: Bytes)
    requires k in FieldRecords(h)
    ensures k in Overrides(h) && Overrides(h)[k] == FieldRecords(h)[k]
    ensures k in StringRecords(h) ==> FieldRecords(h)[k] == StringRecords(h)[k]
    ensures k in NumericRecords(h) ==> FieldRecords(h)[k] == NumericRecords(h)[k]
    ensures k in TimeRecords(h) ==> FieldRecords(h)[k] == TimeRecords(h)[k]
  {
    KeyGroupsDisjoint();
    assert |k| <= 8;
  }

  /** The records are all valid exactly when the string fields are C strings
      and the extended attributes have plain names and nonempty values. */
  lemma OverridesValid(h: Header)
    ensures AllRecordsValid(Overrides(h)) <==> RecordSourcesValid(h)
  {
    if RecordSourcesValid(h) {
      var m := Overrides(h);
      forall k | k in m ensures ValidPAXRecord(k, m[k]) && m[k] != [] {
        RecordKeyValid(h, k);
      }
    } else {
      var k := InvalidRecord(h);
    }
  }

  /** A string field with a NUL is not ASCII, so its record is needed and it
      is invalid. */
  lemma StringNULInvalid(h: Header, key: Bytes, s: Bytes)
    requires key in {PaxPath, PaxLinkpath, PaxUname, PaxGname}
    requires key in StringRecords(h) && StringRecords(h)[key] == s && HasNUL(s)
    ensures key in Overrides(h) && !ValidPAXRecord(key, Overrides(h)[key])
  {
    FieldRecordLookup(h, key);
  }

  /** A header whose record sources are not valid has an invalid record. */
  lemma InvalidRecord(h: Header) returns (k: Bytes)
    requires !RecordSourcesValid(h)
    ensures k in Overrides(h) && !(ValidPAXRecord(k, Overrides(h)[k]) && Overrides(h)[k] != [])
  {
    if HasNUL(h.name) {
      k := PaxPath;
      StringNULInvalid(h, k, h.name);
    } else if HasNUL(h.linkname) {
      k := PaxLinkpath;
      StringNULInvalid(h, k, h.linkname);
    } else if HasNUL(h.uname) {
      k := PaxUname;
      StringNULInvalid(h, k, h.uname);
    } else if HasNUL(h.gname) {
      k := PaxGname;
      StringNULInvalid(h, k, h.gname);
    } else {
      var x :| x in h.xattrs && !(Equals !in x && NUL !in x && h.xattrs[x] != []);
      k := PaxXattr + x;
      XattrRecordInvalid(h, x);
    }
  }

  /** An extended attribute with '=' or NUL in its name or an empty value
      gives an invalid record. */
  lemma XattrRecordInvalid(h: Header, x: Bytes)
    requires x in h.xattrs && !(Equals !in x && NUL !in x && h.xattrs[x] != [])
    ensures PaxXattr + x in Overrides(h)
    ensures !(ValidPAXRecord(PaxXattr + x, Overrides(h)[PaxXattr + x]) && Overrides(h)[PaxXattr + x] != [])
  {
    var k := PaxXattr + x;
    var v := h.xattrs[x];
    assert XattrRecords(h.xattrs)[k] == v;
    assert Overrides(h)[k] == v;
    if v != [] {
      var i :| 0 <= i < |x| && (x[i] == Equals || x[i] == NUL);
      assert k[|PaxXattr| + i] == x[i];
      if IsStringKey(k) {
        FieldKeyPlain(k);
        assert false;
      }
    }
  }

  /** One record of a header whose record sources are valid is valid. */
  lemma RecordKeyValid(h: Header, k: Bytes)
    requires RecordSourcesValid(h) && k in Overrides(h)
    ensures ValidPAXRecord(k, Overrides(h)[k]) && Overrides(h)[k] != []
  {
    if k in FieldRecords(h) {
      FieldRecordLookup(h, k);
      if k in StringRecords(h) {
        StringRecordValid(h, k);
      } else if k in NumericRecords(h) {
        NumericRecordValid(h, k);
      } else {
        TimeRecordValid(h, k);
      }
    } else {
      XattrRecordValid(h, k);
    }
  }

  lemma StringRecordValid(h: Header, k: Bytes)
    requires RecordSourcesValid(h) && k in StringRecords(h)
    ensures ValidPAXRecord(k, StringRecords(h)[k]) && StringRecords(h)[k] != []
  {
    var m := StringRecords(h);
    assert IsStringKey(k);
    FieldKeyPlain(k);
    if k == PaxPath {
      assert m[k] == h.name;
    } else if k == PaxLinkpath {
      assert m[k] == h.linkname;
    } else if k == PaxUname {
      assert m[k] == h.uname;
    } else {
      assert m[k] == h.gname;
    }
  }

  lemma NumericRecordValid(h: Header, k: Bytes)
    requires k in NumericRecords(h)
    ensures ValidPAXRecord(k, NumericRecords(h)[k]) && NumericRecords(h)[k] != []
  {
    var m := NumericRecords(h);
    assert IsFieldKey(k);
    FieldKeyPlain(k);
    if k == PaxUid {
      FormatIntIsPlain(h.uid);
    } else if k == PaxGid {
      FormatIntIsPlain(h.gid);
    } else {
      FormatIntIsPlain(h.size);
    }
  }

  lemma TimeRecordValid(h: Header, k: Bytes)
    requires k in TimeRecords(h)
    ensures ValidPAXRecord(k, TimeRecords(h)[k]) && TimeRecords(h)[k] != []
  {
    assert IsFieldKey(k);
    FieldKeyPlain(k);
  }

  /** An extended-attribute record with a plain name and a nonempty value is
      valid. */
  lemma XattrRecordValid(h: Header, k: Bytes)
    requires RecordSourcesValid(h) && k in XattrRecords(h.xattrs)
    ensures ValidPAXRecord(k, XattrRecords(h.xattrs)[k]) && XattrRecords(h.xattrs)[k] != []
  {
    var x := k[|PaxXattr|..];
    assert k == PaxXattr + x;
    FieldKeyPlain(PaxPath);
    assert Equals !in k && NUL !in k;
    assert !IsStringKey(k);
  }

  /** allowedFormats, field by field: a header that is not encodable has no
      format and no records; otherwise USTAR, GNU and PAX are each allowed
      exactly when their headers can hold every field, and the records are
      those the fields and the extended attributes need. */
  lemma AllowedFormatsSpec(h: Header)
    ensures !Encodable(h) ==> AllowedFormats(h) == Unknown
    ensures Encodable(h) ==>
      var r := AllowedFormats(h);
      && (USTAR in r.formats <==> FitsUSTAR(h))
      && (GNU in r.formats <==> FitsGNU(h))
      && (PAX in r.formats <==> FitsPAX(h))
      && r.paxHdrs == Overrides(h)
  {
    AllowedFormatsCases(h);
    if Encodable(h) {
      FieldsThenXattrs(h);
    }
  }

  /** allowedFormats is formatUnknown for a header that is not encodable, and
      the field checks followed by the attribute step otherwise. */
  lemma AllowedFormatsCases(h: Header)
    ensures AllowedFormats(h) == if Encodable(h) then AddXattrs(CheckFields(h), h.xattrs) else Unknown
  {
    FieldsThenXattrs(h);
    OverridesValid(h);
  }

  /** The classification before the validity checks, field by field. */
  lemma FieldsThenXattrs(h: Header)
    ensures var c := AddXattrs(CheckFields(h), h.xattrs);
      && (USTAR in c.formats <==> FitsUSTAR(h))
      && (GNU in c.formats <==> FitsGNU(h))
      && (PAX in c.formats <==> FitsPAX(h))
      && c.paxHdrs == Overrides(h)
  {
    var f := CheckFields(h);
    if |h.xattrs| > 0 {
      assert AddXattrs(f, h.xattrs).formats == f.formats * {PAX};
    } else {
      assert AddXattrs(f, h.xattrs).formats == f.formats;
    }
  }
}
