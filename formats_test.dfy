// TestHeaderAllowedFormats: the table of headers with the formats that can
// encode each and the PAX records a PAX encoding needs, the loop that compares
// allowedFormats with the table, and a proof that every entry agrees.
module TarFormatsTest {
  import opened GoTypes
  import opened Wrappers
  import opened Strconv
  import opened GoTime
  import opened TarStrconv
  import opened TarHeader
  import opened TarFormats
  import opened TarFormatsLemmas
  import opened TarTestStrings
  import opened TarTestLoop

  /** One entry of the table: the header, the expected records and the
      expected formats ({} is formatUnknown). */
  datatype FormatsVector = FormatsVector(header: Header, paxHdrs: map<Bytes, Bytes>, formats: set<Format>)

  /** The loop's two comparisons: the formats must be those expected, and
      when PAX is among them the records must be too (a nil map and an empty
      one are the same value here). */
  predicate FormatsPass(v: FormatsVector)
  {
    Agrees(AllowedFormats(v.header), v)
  }

  /** The comparison of one result of allowedFormats with an entry. */
  predicate Agrees(r: Classification, v: FormatsVector)
  {
    r.formats == v.formats && (PAX in r.formats ==> r.paxHdrs == v.paxHdrs)
  }

  // The entries of the table, named after what each tests.

  const EmptyHeaderAllFormatsEntry: FormatsVector :=
    FormatsVector(EmptyHeader, map[], AllFormats)
  const SizeAtOctalLimitEntry: FormatsVector :=
    FormatsVector(EmptyHeader.(size := OctalMax11), map[], AllFormats)
  const SizeAboveOctalLimitEntry: FormatsVector :=
    FormatsVector(EmptyHeader.(size := OctalMax11 + 1), map[PaxSize := Text8589934592], {PAX, GNU})
  const ModeAtOctalLimitEntry: FormatsVector :=
    FormatsVector(EmptyHeader.(mode := OctalMax7), map[], AllFormats)
  const ModeAboveOctalLimitEntry: FormatsVector :=
    FormatsVector(EmptyHeader.(mode := OctalMax7 + 1), map[], {GNU})
  const DevmajorNegativeEntry: FormatsVector :=
    FormatsVector(EmptyHeader.(devmajor := -123), map[], {GNU})
  const DevmajorAtBase256LimitEntry: FormatsVector :=
    FormatsVector(EmptyHeader.(devmajor := Base256Bound7 - 1), map[], {GNU})
  const DevmajorAboveBase256LimitEntry: FormatsVector :=
    FormatsVector(EmptyHeader.(devmajor := Base256Bound7), map[], {})
  const DevmajorAtNegativeBase256LimitEntry: FormatsVector :=
    FormatsVector(EmptyHeader.(devmajor := -Base256Bound7), map[], {GNU})
  const DevmajorBelowNegativeBase256LimitEntry: FormatsVector :=
    FormatsVector(EmptyHeader.(devmajor := -Base256Bound7 - 1), map[], {})
  const HanNameWithNegativeDevmajorEntry: FormatsVector :=
    FormatsVector(EmptyHeader.(name := UserNameHan, devmajor := -Base256Bound7), map[], {GNU})
  const SizeMaxInt64Entry: FormatsVector :=
    FormatsVector(EmptyHeader.(size := MaxInt64), map[PaxSize := TextMaxInt64], {PAX, GNU})
  const SizeMinInt64Entry: FormatsVector :=
    FormatsVector(EmptyHeader.(size := MinInt64), map[PaxSize := TextMinInt64], {})
  const UnameAtLimitEntry: FormatsVector :=
    FormatsVector(EmptyHeader.(uname := Hex32), map[], AllFormats)
  const UnameAboveLimitEntry: FormatsVector :=
    FormatsVector(EmptyHeader.(uname := Hex33), map[PaxUname := Hex33], {PAX})
  const NameShortEntry: FormatsVector :=
    FormatsVector(EmptyHeader.(name := Foobar), map[], AllFormats)
  const NameAtLimitEntry: FormatsVector :=
    FormatsVector(EmptyHeader.(name := Repeat(Letter, NameSize)), map[], AllFormats)
  const NameAboveLimitEntry: FormatsVector :=
    FormatsVector(EmptyHeader.(name := Repeat(Letter, NameSize + 1)),
      map[PaxPath := Repeat(Letter, NameSize + 1)], {PAX, GNU})
  const LinknameHanEntry: FormatsVector :=
    FormatsVector(EmptyHeader.(linkname := UserNameHan),
      map[PaxLinkpath := UserNameHan], {PAX, GNU})
  const LinknameWithNULsEntry: FormatsVector :=
    FormatsVector(EmptyHeader.(linkname := Repeat(UserNameHan + [NUL], NameSize)),
      map[PaxLinkpath := Repeat(UserNameHan + [NUL], NameSize)], {})
  const LinknameLeadingNULEntry: FormatsVector :=
    FormatsVector(EmptyHeader.(linkname := NulHello), map[PaxLinkpath := NulHello], {})
  const UidAtOctalLimitEntry: FormatsVector :=
    FormatsVector(EmptyHeader.(uid := OctalMax7), map[], AllFormats)
  const UidAboveOctalLimitEntry: FormatsVector :=
    FormatsVector(EmptyHeader.(uid := OctalMax7 + 1), map[PaxUid := Text2097152], {PAX, GNU})
  const XattrsNilEntry: FormatsVector :=
    FormatsVector(EmptyHeader.(xattrs := map[]), map[], AllFormats)
  const XattrsPlainEntry: FormatsVector :=
    FormatsVector(EmptyHeader.(xattrs := map[Foo := Bar]), map[PaxXattr + Foo := Bar], {PAX})
  const XattrsHanWithNULValueEntry: FormatsVector :=
    FormatsVector(EmptyHeader.(xattrs := map[UserNameHan := NulHello]),
      map[PaxXattr + UserNameHan := NulHello], {PAX})
  const XattrsNameWithEqualsEntry: FormatsVector :=
    FormatsVector(EmptyHeader.(xattrs := map[FooEqualsBar := Baz]), map[], {})
  const XattrsEmptyValueEntry: FormatsVector :=
    FormatsVector(EmptyHeader.(xattrs := map[Foo := []]), map[], {})
  const ModTimeEpochEntry: FormatsVector :=
    FormatsVector(EmptyHeader.(modTime := Some(UnixTime(0, 0))), map[], AllFormats)
  const ModTimeAtOctalLimitEntry: FormatsVector :=
    FormatsVector(EmptyHeader.(modTime := Some(UnixTime(OctalMax11, 0))), map[], AllFormats)
  const ModTimeAboveOctalLimitEntry: FormatsVector :=
    FormatsVector(EmptyHeader.(modTime := Some(UnixTime(OctalMax11 + 1, 0))),
      map[PaxMtime := Text8589934592], {PAX, GNU})
  const ModTimeMaxInt64Entry: FormatsVector :=
    FormatsVector(EmptyHeader.(modTime := Some(UnixTime(MaxInt64, 0))),
      map[PaxMtime := TextMaxInt64], {PAX, GNU})
  const ModTimeMinusOneEntry: FormatsVector :=
    FormatsVector(EmptyHeader.(modTime := Some(UnixTime(-1, 0))),
      map[PaxMtime := TextMinus1], {PAX, GNU})
  const ModTimeNegativeFractionEntry: FormatsVector :=
    FormatsVector(EmptyHeader.(modTime := Some(UnixTime(-1, 500))),
      map[PaxMtime := TextNegFraction], {PAX})
  const AccessTimeEpochEntry: FormatsVector :=
    FormatsVector(EmptyHeader.(accessTime := Some(UnixTime(0, 0))),
      map[PaxAtime := Text0], {PAX, GNU})
  const AccessTimeNegativeEntry: FormatsVector :=
    FormatsVector(EmptyHeader.(accessTime := Some(UnixTime(-123, 0))),
      map[PaxAtime := TextMinus123], {PAX, GNU})
  const ChangeTimeFractionEntry: FormatsVector :=
    FormatsVector(EmptyHeader.(changeTime := Some(UnixTime(123, 456))),
      map[PaxCtime := TextPosFraction], {PAX})

  /** The table, in its order. */
  function FormatsVectors(): (vs: seq<FormatsVector>)
    ensures |vs| == 37
  {
    [ EmptyHeaderAllFormatsEntry,
      SizeAtOctalLimitEntry,
      SizeAboveOctalLimitEntry,
      ModeAtOctalLimitEntry,
      ModeAboveOctalLimitEntry,
      DevmajorNegativeEntry,
      DevmajorAtBase256LimitEntry,
      DevmajorAboveBase256LimitEntry,
      DevmajorAtNegativeBase256LimitEntry,
      DevmajorBelowNegativeBase256LimitEntry,
      HanNameWithNegativeDevmajorEntry,
      SizeMaxInt64Entry,
      SizeMinInt64Entry,
      UnameAtLimitEntry,
      UnameAboveLimitEntry,
      NameShortEntry,
      NameAtLimitEntry,
      NameAboveLimitEntry,
      LinknameHanEntry,
      LinknameWithNULsEntry,
      LinknameLeadingNULEntry,
      UidAtOctalLimitEntry,
      UidAboveOctalLimitEntry,
      XattrsNilEntry,
      XattrsPlainEntry,
      XattrsHanWithNULValueEntry,
      XattrsNameWithEqualsEntry,
      XattrsEmptyValueEntry,
      ModTimeEpochEntry,
      ModTimeAtOctalLimitEntry,
      ModTimeAboveOctalLimitEntry,
      ModTimeMaxInt64Entry,
      ModTimeMinusOneEntry,
      ModTimeNegativeFractionEntry,
      AccessTimeEpochEntry,
      AccessTimeNegativeEntry,
      ChangeTimeFractionEntry
    ]
  }

  /** The test loop: the indices of the entries allowedFormats disagrees
      with, in order. */
  method CheckFormatsVectors(vs: seq<FormatsVector>) returns (failures: seq<nat>)
    ensures failures == Failures(Passes(vs))
  {
    ghost var passes := Passes(vs);
    failures := [];
    var i := 0;
    while i < |vs|
      invariant 0 <= i <= |vs|
      invariant |passes| == |vs| && failures == Failures(passes[..i])
    {
      var r := AllowedFormats(vs[i].header);
      assert passes[i] == Agrees(r, vs[i]);
      FailuresTake(passes, i);
      if !Agrees(r, vs[i]) {
        failures := failures + [i];
      }
      i := i + 1;
    }
    TakeAll(passes);
  }

  /** Whether each entry of the table agrees with allowedFormats. */
  function Passes(vs: seq<FormatsVector>): (p: seq<bool>)
    ensures |p| == |vs| && forall j :: 0 <= j < |vs| ==> p[j] == FormatsPass(vs[j])
  {
    seq(|vs|, j requires 0 <= j < |vs| => FormatsPass(vs[j]))
  }

  /** TestHeaderAllowedFormats reports nothing. */
  method TestHeaderAllowedFormats() returns (failures: seq<nat>)
    ensures failures == []
  {
    var vs := FormatsVectors();
    failures := CheckFormatsVectors(vs);
    AllFormatsVectorsPass();
    AllPassNoFailures(vs);
  }

  /** The loop reports exactly the entries allowedFormats disagrees with. */
  lemma FormatsFailuresMeaning(vs: seq<FormatsVector>)
    ensures forall j :: j in Failures(Passes(vs)) <==> 0 <= j < |vs| && !FormatsPass(vs[j])
  {
    FailuresMembers(Passes(vs));
  }

  /** A table every entry of which agrees gives no failures. */
  lemma AllPassNoFailures(vs: seq<FormatsVector>)
    requires forall j :: 0 <= j < |vs| ==> FormatsPass(vs[j])
    ensures Failures(Passes(vs)) == []
  {
    NoFailures(Passes(vs));
  }


  /** Every entry of the table agrees with allowedFormats. */
  lemma AllFormatsVectorsPass()
    ensures forall j :: 0 <= j < |FormatsVectors()| ==> FormatsPass(FormatsVectors()[j])
  {
    forall j | 0 <= j < |FormatsVectors()| ensures FormatsPass(FormatsVectors()[j]) {
      FormatsVectorPasses(j);
    }
  }

  lemma FormatsVectorPasses(j: nat)
    requires j < |FormatsVectors()|
    ensures FormatsPass(FormatsVectors()[j])
  {
    match j
    case 0 => TableEntry0();
    case 1 => TableEntry1();
    case 2 => TableEntry2();
    case 3 => TableEntry3();
    case 4 => TableEntry4();
    case 5 => TableEntry5();
    case 6 => TableEntry6();
    case 7 => TableEntry7();
    case 8 => TableEntry8();
    case 9 => TableEntry9();
    case 10 => TableEntry10();
    case 11 => TableEntry11();
    case 12 => TableEntry12();
    case 13 => TableEntry13();
    case 14 => TableEntry14();
    case 15 => TableEntry15();
    case 16 => TableEntry16();
    case 17 => TableEntry17();
    case 18 => TableEntry18();
    case 19 => TableEntry19();
    case 20 => TableEntry20();
    case 21 => TableEntry21();
    case 22 => TableEntry22();
    case 23 => TableEntry23();
    case 24 => TableEntry24();
    case 25 => TableEntry25();
    case 26 => TableEntry26();
    case 27 => TableEntry27();
    case 28 => TableEntry28();
    case 29 => TableEntry29();
    case 30 => TableEntry30();
    case 31 => TableEntry31();
    case 32 => TableEntry32();
    case 33 => TableEntry33();
    case 34 => TableEntry34();
    case 35 => TableEntry35();
    case 36 => TableEntry36();
  }

  // Each position of the table holds the named entry, whose lemma below
  // shows it agrees; one lemma per position keeps each proof small.

  lemma TableEntry0()
    ensures FormatsPass(FormatsVectors()[0])
  {
    assert FormatsVectors()[0] == EmptyHeaderAllFormatsEntry;
    EmptyHeaderAllFormats();
  }

  lemma TableEntry1()
    ensures FormatsPass(FormatsVectors()[1])
  {
    assert FormatsVectors()[1] == SizeAtOctalLimitEntry;
    SizeAtOctalLimit();
  }

  lemma TableEntry2()
    ensures FormatsPass(FormatsVectors()[2])
  {
    assert FormatsVectors()[2] == SizeAboveOctalLimitEntry;
    SizeAboveOctalLimit();
  }

  lemma TableEntry3()
    ensures FormatsPass(FormatsVectors()[3])
  {
    assert FormatsVectors()[3] == ModeAtOctalLimitEntry;
    ModeAtOctalLimit();
  }

  lemma TableEntry4()
    ensures FormatsPass(FormatsVectors()[4])
  {
    assert FormatsVectors()[4] == ModeAboveOctalLimitEntry;
    ModeAboveOctalLimit();
  }

  lemma TableEntry5()
    ensures FormatsPass(FormatsVectors()[5])
  {
    assert FormatsVectors()[5] == DevmajorNegativeEntry;
    DevmajorNegative();
  }

  lemma TableEntry6()
    ensures FormatsPass(FormatsVectors()[6])
  {
    assert FormatsVectors()[6] == DevmajorAtBase256LimitEntry;
    DevmajorAtBase256Limit();
  }

  lemma TableEntry7()
    ensures FormatsPass(FormatsVectors()[7])
  {
    assert FormatsVectors()[7] == DevmajorAboveBase256LimitEntry;
    DevmajorAboveBase256Limit();
  }

  lemma TableEntry8()
    ensures FormatsPass(FormatsVectors()[8])
  {
    assert FormatsVectors()[8] == DevmajorAtNegativeBase256LimitEntry;
    DevmajorAtNegativeBase256Limit();
  }

  lemma TableEntry9()
    ensures FormatsPass(FormatsVectors()[9])
  {
    assert FormatsVectors()[9] == DevmajorBelowNegativeBase256LimitEntry;
    DevmajorBelowNegativeBase256Limit();
  }

  lemma TableEntry10()
    ensures FormatsPass(FormatsVectors()[10])
  {
    assert FormatsVectors()[10] == HanNameWithNegativeDevmajorEntry;
    HanNameWithNegativeDevmajor();
  }

  lemma TableEntry11()
    ensures FormatsPass(FormatsVectors()[11])
  {
    assert FormatsVectors()[11] == SizeMaxInt64Entry;
    SizeMaxInt64();
  }

  lemma TableEntry12()
    ensures FormatsPass(FormatsVectors()[12])
  {
    assert FormatsVectors()[12] == SizeMinInt64Entry;
    SizeMinInt64();
  }

  lemma TableEntry13()
    ensures FormatsPass(FormatsVectors()[13])
  {
    assert FormatsVectors()[13] == UnameAtLimitEntry;
    UnameAtLimit();
  }

  lemma TableEntry14()
    ensures FormatsPass(FormatsVectors()[14])
  {
    assert FormatsVectors()[14] == UnameAboveLimitEntry;
    UnameAboveLimit();
  }

  lemma TableEntry15()
    ensures FormatsPass(FormatsVectors()[15])
  {
    assert FormatsVectors()[15] == NameShortEntry;
    NameShort();
  }

  lemma TableEntry16()
    ensures FormatsPass(FormatsVectors()[16])
  {
    assert FormatsVectors()[16] == NameAtLimitEntry;
    NameAtLimit();
  }

  lemma TableEntry17()
    ensures FormatsPass(FormatsVectors()[17])
  {
    assert FormatsVectors()[17] == NameAboveLimitEntry;
    NameAboveLimit();
  }

  lemma TableEntry18()
    ensures FormatsPass(FormatsVectors()[18])
  {
    assert FormatsVectors()[18] == LinknameHanEntry;
    LinknameHan();
  }

  lemma TableEntry19()
    ensures FormatsPass(FormatsVectors()[19])
  {
    assert FormatsVectors()[19] == LinknameWithNULsEntry;
    LinknameWithNULs();
  }

  lemma TableEntry20()
    ensures FormatsPass(FormatsVectors()[20])
  {
    assert FormatsVectors()[20] == LinknameLeadingNULEntry;
    LinknameLeadingNUL();
  }

  lemma TableEntry21()
    ensures FormatsPass(FormatsVectors()[21])
  {
    assert FormatsVectors()[21] == UidAtOctalLimitEntry;
    UidAtOctalLimit();
  }

  lemma TableEntry22()
    ensures FormatsPass(FormatsVectors()[22])
  {
    assert FormatsVectors()[22] == UidAboveOctalLimitEntry;
    UidAboveOctalLimit();
  }

  lemma TableEntry23()
    ensures FormatsPass(FormatsVectors()[23])
  {
    assert FormatsVectors()[23] == XattrsNilEntry;
    XattrsNil();
  }

  lemma TableEntry24()
    ensures FormatsPass(FormatsVectors()[24])
  {
    assert FormatsVectors()[24] == XattrsPlainEntry;
    XattrsPlain();
  }

  lemma TableEntry25()
    ensures FormatsPass(FormatsVectors()[25])
  {
    assert FormatsVectors()[25] == XattrsHanWithNULValueEntry;
    XattrsHanWithNULValue();
  }

  lemma TableEntry26()
    ensures FormatsPass(FormatsVectors()[26])
  {
    assert FormatsVectors()[26] == XattrsNameWithEqualsEntry;
    XattrsNameWithEquals();
  }

  lemma TableEntry27()
    ensures FormatsPass(FormatsVectors()[27])
  {
    assert FormatsVectors()[27] == XattrsEmptyValueEntry;
    XattrsEmptyValue();
  }

  lemma TableEntry28()
    ensures FormatsPass(FormatsVectors()[28])
  {
    assert FormatsVectors()[28] == ModTimeEpochEntry;
    ModTimeEpoch();
  }

  lemma TableEntry29()
    ensures FormatsPass(FormatsVectors()[29])
  {
    assert FormatsVectors()[29] == ModTimeAtOctalLimitEntry;
    ModTimeAtOctalLimit();
  }

  lemma TableEntry30()
    ensures FormatsPass(FormatsVectors()[30])
  {
    assert FormatsVectors()[30] == ModTimeAboveOctalLimitEntry;
    ModTimeAboveOctalLimit();
  }

  lemma TableEntry31()
    ensures FormatsPass(FormatsVectors()[31])
  {
    assert FormatsVectors()[31] == ModTimeMaxInt64Entry;
    ModTimeMaxInt64();
  }

  lemma TableEntry32()
    ensures FormatsPass(FormatsVectors()[32])
  {
    assert FormatsVectors()[32] == ModTimeMinusOneEntry;
    ModTimeMinusOne();
  }

  lemma TableEntry33()
    ensures FormatsPass(FormatsVectors()[33])
  {
    assert FormatsVectors()[33] == ModTimeNegativeFractionEntry;
    ModTimeNegativeFraction();
  }

  lemma TableEntry34()
    ensures FormatsPass(FormatsVectors()[34])
  {
    assert FormatsVectors()[34] == AccessTimeEpochEntry;
    AccessTimeEpoch();
  }

  lemma TableEntry35()
    ensures FormatsPass(FormatsVectors()[35])
  {
    assert FormatsVectors()[35] == AccessTimeNegativeEntry;
    AccessTimeNegative();
  }

  lemma TableEntry36()
    ensures FormatsPass(FormatsVectors()[36])
  {
    assert FormatsVectors()[36] == ChangeTimeFractionEntry;
    ChangeTimeFraction();
  }

  // ---------------------------------------------------------------------
  // The entries one by one.

  lemma EmptyHeaderAllFormats()
    ensures FormatsPass(EmptyHeaderAllFormatsEntry)
  {
    SizeOnly(EmptyHeaderAllFormatsEntry.header);
  }

  lemma SizeAtOctalLimit()
    ensures FormatsPass(SizeAtOctalLimitEntry)
  {
    SizeOnly(SizeAtOctalLimitEntry.header);
  }

  lemma SizeAboveOctalLimit()
    ensures FormatsPass(SizeAboveOctalLimitEntry)
  {
    SizeOnly(SizeAboveOctalLimitEntry.header);
    Numeral8589934592();
  }

  lemma ModeAtOctalLimit()
    ensures FormatsPass(ModeAtOctalLimitEntry)
  {
    ModeOnly(ModeAtOctalLimitEntry.header);
  }

  lemma ModeAboveOctalLimit()
    ensures FormatsPass(ModeAboveOctalLimitEntry)
  {
    ModeOnly(ModeAboveOctalLimitEntry.header);
    FormatSet(Formats(false, false, true), {GNU});
  }

  lemma DevmajorNegative()
    ensures FormatsPass(DevmajorNegativeEntry)
  {
    DevmajorOnly(DevmajorNegativeEntry.header);
    FormatSet(Formats(false, false, true), {GNU});
  }

  lemma DevmajorAtBase256Limit()
    ensures FormatsPass(DevmajorAtBase256LimitEntry)
  {
    DevmajorOnly(DevmajorAtBase256LimitEntry.header);
    FormatSet(Formats(false, false, true), {GNU});
  }

  lemma DevmajorAboveBase256Limit()
    ensures FormatsPass(DevmajorAboveBase256LimitEntry)
  {
    DevmajorOnly(DevmajorAboveBase256LimitEntry.header);
    FormatSet(Formats(false, false, false), {});
  }

  lemma DevmajorAtNegativeBase256Limit()
    ensures FormatsPass(DevmajorAtNegativeBase256LimitEntry)
  {
    DevmajorOnly(DevmajorAtNegativeBase256LimitEntry.header);
    FormatSet(Formats(false, false, true), {GNU});
  }

  lemma DevmajorBelowNegativeBase256Limit()
    ensures FormatsPass(DevmajorBelowNegativeBase256LimitEntry)
  {
    DevmajorOnly(DevmajorBelowNegativeBase256LimitEntry.header);
    FormatSet(Formats(false, false, false), {});
  }

  lemma HanNameWithNegativeDevmajor()
    ensures FormatsPass(HanNameWithNegativeDevmajorEntry)
  {
    HanIsNotASCII();
    NameWithDevmajor(HanNameWithNegativeDevmajorEntry.header);
    FormatSet(Formats(false, false, true), {GNU});
  }

  lemma SizeMaxInt64()
    ensures FormatsPass(SizeMaxInt64Entry)
  {
    SizeOnly(SizeMaxInt64Entry.header);
    NumeralMaxInt64();
  }

  lemma SizeMinInt64()
    ensures FormatsPass(SizeMinInt64Entry)
  {
    SizeOnly(SizeMinInt64Entry.header);
  }

  lemma UnameAtLimit()
    ensures FormatsPass(UnameAtLimitEntry)
  {
    HexNames();
    UnameOnly(UnameAtLimitEntry.header);
  }

  lemma UnameAboveLimit()
    ensures FormatsPass(UnameAboveLimitEntry)
  {
    HexNames();
    UnameOnly(UnameAboveLimitEntry.header);
    FormatSet(Formats(false, true, false), {PAX});
  }

  lemma NameShort()
    ensures FormatsPass(NameShortEntry)
  {
    NameShortHeader(NameShortEntry.header);
  }

  lemma NameShortHeader(h: Header)
    requires NumbersZero(h) && TimesUnset(h) && h.xattrs == map[]
    requires h.linkname == [] && h.uname == [] && h.gname == [] && h.name == Foobar
    ensures FormatsPass(FormatsVector(h, map[], AllFormats))
  {
    FoobarIsASCII();
    NameOnly(h);
  }

  lemma NameAtLimit()
    ensures FormatsPass(NameAtLimitEntry)
  {
    RepeatedLetter(NameSize);
    NameOnly(NameAtLimitEntry.header);
  }

  lemma NameAboveLimit()
    ensures FormatsPass(NameAboveLimitEntry)
  {
    RepeatedLetter(NameSize + 1);
    NameOnly(NameAboveLimitEntry.header);
  }

  lemma LinknameHan()
    ensures FormatsPass(LinknameHanEntry)
  {
    HanIsNotASCII();
    LinknameOnly(LinknameHanEntry.header);
  }

  lemma LinknameWithNULs()
    ensures FormatsPass(LinknameWithNULsEntry)
  {
    LinknameWithNULsHeader(LinknameWithNULsEntry.header);
  }

  lemma LinknameWithNULsHeader(h: Header)
    requires NumbersZero(h) && TimesUnset(h) && h.xattrs == map[]
    requires h.name == [] && h.uname == [] && h.gname == []
    requires h.linkname == Repeat(UserNameHan + [NUL], NameSize)
    ensures FormatsPass(FormatsVector(h, map[PaxLinkpath := Repeat(UserNameHan + [NUL], NameSize)], {}))
  {
    RepeatedHanWithNUL();
    LinknameOnly(h);
  }

  lemma LinknameLeadingNUL()
    ensures FormatsPass(LinknameLeadingNULEntry)
  {
    assert NulHello[0] == NUL;
    LinknameOnly(LinknameLeadingNULEntry.header);
  }

  lemma UidAtOctalLimit()
    ensures FormatsPass(UidAtOctalLimitEntry)
  {
    UidOnly(UidAtOctalLimitEntry.header);
  }

  lemma UidAboveOctalLimit()
    ensures FormatsPass(UidAboveOctalLimitEntry)
  {
    UidOnly(UidAboveOctalLimitEntry.header);
    FormatSet(Formats(false, true, true), {PAX, GNU});
    Numeral2097152();
  }

  lemma XattrsNil()
    ensures FormatsPass(XattrsNilEntry)
  {
    OnlyXattrs(XattrsNilEntry.header);
  }

  lemma XattrsPlain()
    ensures FormatsPass(XattrsPlainEntry)
  {
    XattrsPlainHeader(XattrsPlainEntry.header);
  }

  lemma XattrsPlainHeader(h: Header)
    requires StringsEmpty(h) && NumbersZero(h) && TimesUnset(h)
    requires h.xattrs == map[Foo := Bar]
    ensures FormatsPass(FormatsVector(h, map[PaxXattr + Foo := Bar], {PAX}))
  {
    PlainAttributes();
    assert RecordSourcesValid(h);
    assert h.xattrs != map[] by { assert Foo in h.xattrs; }
    OnlyXattrs(h);
    assert AllowedFormats(h) == Classification({PAX}, XattrRecords(h.xattrs));
    XattrRecordsSingle(Foo, Bar);
    assert XattrRecords(h.xattrs) == map[PaxXattr + Foo := Bar];
  }

  lemma XattrsHanWithNULValue()
    ensures FormatsPass(XattrsHanWithNULValueEntry)
  {
    XattrsHanWithNULValueHeader(XattrsHanWithNULValueEntry.header);
  }

  lemma XattrsHanWithNULValueHeader(h: Header)
    requires StringsEmpty(h) && NumbersZero(h) && TimesUnset(h)
    requires h.xattrs == map[UserNameHan := NulHello]
    ensures FormatsPass(FormatsVector(h, map[PaxXattr + UserNameHan := NulHello], {PAX}))
  {
    PlainAttributes();
    assert RecordSourcesValid(h);
    assert h.xattrs != map[] by { assert UserNameHan in h.xattrs; }
    OnlyXattrs(h);
    assert AllowedFormats(h) == Classification({PAX}, XattrRecords(h.xattrs));
    XattrRecordsSingle(UserNameHan, NulHello);
    assert XattrRecords(h.xattrs) == map[PaxXattr + UserNameHan := NulHello];
  }

  lemma XattrsNameWithEquals()
    ensures FormatsPass(XattrsNameWithEqualsEntry)
  {
    PlainAttributes();
    OnlyXattrs(XattrsNameWithEqualsEntry.header);
  }

  lemma XattrsEmptyValue()
    ensures FormatsPass(XattrsEmptyValueEntry)
  {
    OnlyXattrs(XattrsEmptyValueEntry.header);
  }

  lemma ModTimeEpoch()
    ensures FormatsPass(ModTimeEpochEntry)
  {
    ModTimeOnly(ModTimeEpochEntry.header);
  }

  lemma ModTimeAtOctalLimit()
    ensures FormatsPass(ModTimeAtOctalLimitEntry)
  {
    ModTimeOnly(ModTimeAtOctalLimitEntry.header);
  }

  lemma ModTimeAboveOctalLimit()
    ensures FormatsPass(ModTimeAboveOctalLimitEntry)
  {
    ModTimeOnly(ModTimeAboveOctalLimitEntry.header);
    Numeral8589934592();
  }

  lemma ModTimeMaxInt64()
    ensures FormatsPass(ModTimeMaxInt64Entry)
  {
    ModTimeOnly(ModTimeMaxInt64Entry.header);
    NumeralMaxInt64();
  }

  lemma ModTimeMinusOne()
    ensures FormatsPass(ModTimeMinusOneEntry)
  {
    ModTimeMinusOneHeader(ModTimeMinusOneEntry.header);
  }

  lemma ModTimeMinusOneHeader(h: Header)
    requires StringsEmpty(h) && NumbersZero(h) && h.xattrs == map[]
    requires h.accessTime.None? && h.changeTime.None?
    requires h.modTime == Some(Instant(-1, 0))
    ensures FormatsPass(FormatsVector(h, map[PaxMtime := TextMinus1], {PAX, GNU}))
  {
    assert !IsZero(h.modTime) && h.modTime.value.nanos == 0 && h.modTime.value.secs == -1;
    ModTimeOnly(h);
    assert AllowedFormats(h) == Classification({PAX, GNU}, map[PaxMtime := FormatInt(-1)]);
    NumeralMinus1();
  }

  lemma ModTimeNegativeFraction()
    ensures FormatsPass(ModTimeNegativeFractionEntry)
  {
    ModTimeOnly(ModTimeNegativeFractionEntry.header);
    NegativeFractionText();
  }

  lemma AccessTimeEpoch()
    ensures FormatsPass(AccessTimeEpochEntry)
  {
    AccessTimeEpochHeader(AccessTimeEpochEntry.header);
  }

  lemma AccessTimeEpochHeader(h: Header)
    requires StringsEmpty(h) && NumbersZero(h) && h.xattrs == map[]
    requires h.modTime.None? && h.changeTime.None?
    requires h.accessTime == Some(Instant(0, 0))
    ensures FormatsPass(FormatsVector(h, map[PaxAtime := Text0], {PAX, GNU}))
  {
    assert !IsZero(h.accessTime) && h.accessTime.value.nanos == 0;
    AccessTimeOnly(h);
    FormatSet(Formats(false, true, true), {PAX, GNU});
    assert AllowedFormats(h) == Classification({PAX, GNU}, map[PaxAtime := FormatPAXTime(Instant(0, 0))]);
    NumeralZeroTime();
  }

  lemma AccessTimeNegative()
    ensures FormatsPass(AccessTimeNegativeEntry)
  {
    AccessTimeNegativeHeader(AccessTimeNegativeEntry.header);
  }

  lemma AccessTimeNegativeHeader(h: Header)
    requires StringsEmpty(h) && NumbersZero(h) && h.xattrs == map[]
    requires h.modTime.None? && h.changeTime.None?
    requires h.accessTime == Some(Instant(-123, 0))
    ensures FormatsPass(FormatsVector(h, map[PaxAtime := TextMinus123], {PAX, GNU}))
  {
    assert !IsZero(h.accessTime) && h.accessTime.value.nanos == 0;
    AccessTimeOnly(h);
    FormatSet(Formats(false, true, true), {PAX, GNU});
    assert AllowedFormats(h) == Classification({PAX, GNU}, map[PaxAtime := FormatPAXTime(Instant(-123, 0))]);
    NumeralMinus123Time();
  }

  lemma ChangeTimeFraction()
    ensures FormatsPass(ChangeTimeFractionEntry)
  {
    ChangeTimeOnly(ChangeTimeFractionEntry.header);
    FormatSet(Formats(false, true, false), {PAX});
    PositiveFractionText();
  }
}
