/** The column layout `reset_data` writes and the round trip of a rewritten line through
    the constructor. */
module PdbLayout {
  import opened Text
  import opened Results
  import opened PdbLib
  import PdbProperties

  // ---------------------------------------------------------------------------------------
  // Column layout of `reset_data`

  /** `%5d` and `%4d` of a number that fits: exactly the width, and trimming it gives the
      decimal digits back. */
  lemma IntFieldFits(n: nat, w: nat)
    requires 0 < w && n < Pow10(w)
    ensures |IntField(n, w)| == w
    ensures Strip(IntField(n, w)) == NatToString(n)
  {
    NatToStringLength(n, w);
    StripRjust(NatToString(n), w);
  }

  /** The serial number's field, `%5d`. */
  lemma SerialField(n: nat)
    requires n < 100000
    ensures |IntField(n, 5)| == 5 && Strip(IntField(n, 5)) == NatToString(n)
  {
    assert Pow10(5) == 100000;
    IntFieldFits(n, 5);
  }

  /** The residue number's field, `%4d`. */
  lemma ResidueSeqField(n: nat)
    requires n < 10000
    ensures |IntField(n, 4)| == 4 && Strip(IntField(n, 4)) == NatToString(n)
  {
    assert Pow10(4) == 10000;
    IntFieldFits(n, 4);
  }

  lemma SerialWidth(r: Record)
    requires WellFormed(r)
    ensures |SerialColumns(r)| == 12
  {
    SerialField(r.serial);
  }

  lemma ResidueWidth(r: Record)
    requires WellFormed(r)
    ensures |ResidueColumns(r)| == 10
  {
    ResidueSeqField(r.residueSeq);
  }

  lemma NumberWidths(r: Record, fmt: Formats)
    requires FitsColumns(fmt)
    ensures |CoordinateColumns(r, fmt)| == 24 && |FactorColumns(r, fmt)| == 12
  {
    assert |fmt.coord(r.x)| == 8 && |fmt.coord(r.y)| == 8 && |fmt.coord(r.z)| == 8;
    assert |fmt.twoPlaces(r.occupancy)| == 6 && |fmt.twoPlaces(r.tempFactor)| == 6;
  }

  /** For a well-formed record and formatters of the right widths every column group has
      its width. */
  lemma GroupWidths(r: Record, fmt: Formats)
    requires WellFormed(r) && FitsColumns(fmt)
    ensures |SerialColumns(r)| == 12 && |AtomNameFull(r)| == 4 && |ResidueColumns(r)| == 10
    ensures |InsertionColumnsAsWritten(r)| == 4 && |InsertionColumns(r)| == 4
    ensures |CoordinateColumns(r, fmt)| == 24 && |FactorColumns(r, fmt)| == 12
    ensures |TailColumns(r)| == 12 + |r.charge|
  {
    SerialWidth(r);
    ResidueWidth(r);
    NumberWidths(r, fmt);
  }

  /** Seven pieces laid end to end, each found at the sum of the widths before it. */
  lemma Layout7(a: string, b: string, c: string, d: string, e: string, f: string, g: string)
    requires |a| == 12 && |b| == 4 && |c| == 10 && |d| == 4 && |e| == 24 && |f| == 12
    ensures var s := a + b + c + d + e + f + g;
            && |s| == 66 + |g|
            && s[0..12] == a && s[12..16] == b && s[16..26] == c && s[26..30] == d
            && s[30..54] == e && s[54..66] == f && s[66..] == g
  {
    var p1 := a;
    var p2 := p1 + b;
    var p3 := p2 + c;
    var p4 := p3 + d;
    var p5 := p4 + e;
    var p6 := p5 + f;
    var s := p6 + g;
    assert s[..66] == p6 && s[66..] == g;
    assert p6[..54] == p5 && p6[54..] == f;
    assert p5[..30] == p4 && p5[30..] == e;
    assert p4[..26] == p3 && p4[26..] == d;
    assert p3[..16] == p2 && p3[16..] == c;
    assert p2[..12] == p1 && p2[12..] == b;
  }

  /** The line is the seven column groups laid end to end: columns 1-12, 13-16, 17-26,
      27-30, 31-54, 55-66 and 67 onwards. */
  lemma LineLayout(r: Record, fmt: Formats, ins: string)
    requires WellFormed(r) && FitsColumns(fmt) && |ins| == 4
    ensures var d := Line(r, fmt, ins);
            && |d| == 78 + |r.charge|
            && d[0..12] == SerialColumns(r)
            && d[12..16] == AtomNameFull(r)
            && d[16..26] == ResidueColumns(r)
            && d[26..30] == ins
            && d[30..54] == CoordinateColumns(r, fmt)
            && d[54..66] == FactorColumns(r, fmt)
            && d[66..] == TailColumns(r)
  {
    GroupWidths(r, fmt);
    Layout7(SerialColumns(r), AtomNameFull(r), ResidueColumns(r), ins,
            CoordinateColumns(r, fmt), FactorColumns(r, fmt), TailColumns(r));
  }

  lemma Cut3(a: string, b: string, c: string)
    ensures var s := a + b + c;
            s[..|a|] == a && s[|a|..|a| + |b|] == b && s[|a| + |b|..] == c
  {
    var s := a + b + c;
    assert s == (a + b) + c;
    assert s[..|a| + |b|] == a + b;
  }

  /** Three pieces laid at offset `i` of `d` are found again at their offsets. */
  lemma Slice3(d: string, a: string, b: string, c: string, i: nat)
    requires i + |a| + |b| + |c| <= |d| && d[i..i + |a| + |b| + |c|] == a + b + c
    ensures d[i..i + |a|] == a && d[i + |a|..i + |a| + |b|] == b
    ensures d[i + |a| + |b|..i + |a| + |b| + |c|] == c
  {
    var j := i + |a| + |b| + |c|;
    Cut3(a, b, c);
    SubSlice(d, i, j, 0, |a|);
    SubSlice(d, i, j, |a|, |a| + |b|);
    SubSlice(d, i, j, |a| + |b|, |a| + |b| + |c|);
  }

  /** A slice of a slice is a slice. */
  lemma SubSlice(d: string, i: nat, j: nat, k: nat, l: nat)
    requires i <= j <= |d| && k <= l <= j - i
    ensures d[i..j][k..l] == d[i + k..i + l]
  {
    forall t | 0 <= t < l - k
      ensures d[i..j][k..l][t] == d[i + k..i + l][t]
    {
      assert d[i..j][k..l][t] == d[i + k + t];
    }
  }

  /** Columns 1-12 built from a name piece of width 6 and a number piece of width 5 read
      back as what those pieces trim to. */
  lemma SerialText(d: string, a: string, b: string)
    requires |a| == 6 && |b| == 5 && |d| >= 12 && d[0..12] == a + b + " "
    ensures Strip(d[0..6]) == Strip(a) && Strip(d[6..11]) == Strip(b)
  {
    Slice3(d, a, b, " ", 0);
  }

  /** The constructor's reads of columns 1-12. */
  lemma ReadSerial(d: string, r: Record)
    requires WellFormed(r) && |d| >= 12 && d[0..12] == SerialColumns(r)
    ensures Strip(d[0..6]) == r.recordName && Strip(d[6..11]) == NatToString(r.serial)
  {
    SerialField(r.serial);
    StripLjust(r.recordName, 6);
    SerialText(d, Ljust(r.recordName, 6), IntField(r.serial, 5));
  }

  /** Columns 13-16 built from two pieces of width 2. */
  lemma AtomNameText(d: string, a: string, b: string)
    requires |a| == 2 && |b| == 2 && |d| >= 16 && d[12..16] == a + b
    ensures Strip(d[12..14]) == Strip(a) && Strip(d[14..16]) == Strip(b)
  {
    Slice3(d, a, b, [], 12);
  }

  /** The constructor's reads of columns 13-16. */
  lemma ReadAtomName(d: string, r: Record)
    requires WellFormed(r) && |d| >= 16 && d[12..16] == AtomNameFull(r)
    ensures Strip(d[12..14]) == r.atomName1 && Strip(d[14..16]) == r.atomName2
  {
    StripRjust(r.atomName1, 2);
    StripLjust(r.atomName2, 2);
    AtomNameText(d, Rjust(r.atomName1, 2), Ljust(r.atomName2, 2));
  }

  /** Columns 17-26 built from pieces of widths 1, 3, 1 and 4 around the blank column 21
      read back as what those pieces trim to. */
  lemma ResidueText(d: string, a: string, b: string, c: string, e: string,
                    altLoc: string, residueName: string, chainId: string, number: string)
    requires |a| == 1 && |b| == 3 && |c| == 1 && |e| == 4
    requires Strip(a) == altLoc && Strip(b) == residueName && Strip(c) == chainId && Strip(e) == number
    requires |d| >= 26 && d[16..26] == a + b + " " + c + e
    ensures Strip(d[16..17]) == altLoc && Strip(d[17..20]) == residueName
    ensures Strip(d[21..22]) == chainId && Strip(d[22..26]) == number
  {
    ResidueSlices(d, a, b, c, e);
  }

  lemma ResidueSlices(d: string, a: string, b: string, c: string, e: string)
    requires |a| == 1 && |b| == 3 && |c| == 1 && |e| == 4
    requires |d| >= 26 && d[16..26] == a + b + " " + c + e
    ensures d[16..17] == a && d[17..20] == b && d[21..22] == c && d[22..26] == e
  {
    Slice3(d, a + b + " ", c, e, 16);
    Slice3(d, a, b, " ", 16);
  }

  /** A trimmed name padded on the right to a width it fits has that width and trims back. */
  lemma LeftAligned(s: string, w: nat)
    requires Stripped(s) && |s| <= w
    ensures |Ljust(s, w)| == w && Strip(Ljust(s, w)) == s
  {
    StripLjust(s, w);
  }

  /** A trimmed name padded on the left to a width it fits has that width and trims back. */
  lemma RightAligned(s: string, w: nat)
    requires Stripped(s) && |s| <= w
    ensures |Rjust(s, w)| == w && Strip(Rjust(s, w)) == s
  {
    StripRjust(s, w);
  }

  /** The three padded names of columns 17-22. */
  lemma ResidueNames(r: Record)
    requires WellFormed(r)
    ensures |Ljust(r.altLoc, 1)| == 1 && Strip(Ljust(r.altLoc, 1)) == r.altLoc
    ensures |Rjust(r.residueName, 3)| == 3 && Strip(Rjust(r.residueName, 3)) == r.residueName
    ensures |Ljust(r.chainId, 1)| == 1 && Strip(Ljust(r.chainId, 1)) == r.chainId
  {
    LeftAligned(r.altLoc, 1);
    RightAligned(r.residueName, 3);
    LeftAligned(r.chainId, 1);
  }

  /** The constructor's reads of columns 17-26. */
  lemma ReadResidue(d: string, r: Record)
    requires WellFormed(r) && |d| >= 26 && d[16..26] == ResidueColumns(r)
    ensures Strip(d[16..17]) == r.altLoc && Strip(d[17..20]) == r.residueName
    ensures Strip(d[21..22]) == r.chainId && Strip(d[22..26]) == NatToString(r.residueSeq)
  {
    ResidueNames(r);
    ResidueSeqField(r.residueSeq);
    ResidueText(d, Ljust(r.altLoc, 1), Rjust(r.residueName, 3), Ljust(r.chainId, 1),
                IntField(r.residueSeq, 4), r.altLoc, r.residueName, r.chainId,
                NatToString(r.residueSeq));
  }

  /** The constructor's reads of columns 31-66. */
  lemma ReadNumbers(d: string, r: Record, fmt: Formats)
    requires FitsColumns(fmt) && |d| >= 66
    requires d[30..54] == CoordinateColumns(r, fmt) && d[54..66] == FactorColumns(r, fmt)
    ensures d[30..38] == fmt.coord(r.x) && d[38..46] == fmt.coord(r.y) && d[46..54] == fmt.coord(r.z)
    ensures d[54..60] == fmt.twoPlaces(r.occupancy) && d[60..66] == fmt.twoPlaces(r.tempFactor)
  {
    assert |fmt.coord(r.x)| == 8 && |fmt.coord(r.y)| == 8 && |fmt.coord(r.z)| == 8;
    assert |fmt.twoPlaces(r.occupancy)| == 6 && |fmt.twoPlaces(r.tempFactor)| == 6;
    Slice3(d, fmt.coord(r.x), fmt.coord(r.y), fmt.coord(r.z), 30);
    Slice3(d, fmt.twoPlaces(r.occupancy), fmt.twoPlaces(r.tempFactor), [], 54);
  }

  /** Columns 67 onwards built from six blanks, pieces of widths 4 and 2, and the charge. */
  lemma TailText(d: string, a: string, b: string, charge: string)
    requires |a| == 4 && |b| == 2 && |d| == 78 + |charge|
    requires d[66..] == Spaces(6) + a + b + charge
    ensures Strip(d[72..76]) == Strip(a) && Strip(d[76..78]) == Strip(b) && d[78..] == charge
  {
    assert d[66..|d|] == d[66..];
    Slice3(d, Spaces(6) + a, b, charge, 66);
    Slice3(d, Spaces(6), a, [], 66);
    assert d[78..] == d[78..|d|];
  }

  /** The constructor's reads of columns 67 onwards. */
  lemma ReadTail(d: string, r: Record)
    requires WellFormed(r) && |d| == 78 + |r.charge| && d[66..] == TailColumns(r)
    ensures Strip(d[72..76]) == r.segId && Strip(d[76..78]) == r.element && d[78..] == r.charge
  {
    StripLjust(r.segId, 4);
    StripRjust(r.element, 2);
    TailText(d, Ljust(r.segId, 4), Rjust(r.element, 2), r.charge);
  }

  // ---------------------------------------------------------------------------------------
  // Round trip through the constructor

  /** The decimal reader accepts whatever the two formatters produce. */
  ghost predicate ReadsFormatted(readFloat: FloatReader, fmt: Formats) {
    forall v :: readFloat(fmt.coord(v)).Some? && readFloat(fmt.twoPlaces(v)).Some?
  }

  /** Columns 1-6, 13-22 and 67 onwards read back as `r`'s names, and the line is as long
      as a rebuilt one. */
  predicate NamesBack(d: string, r: Record) {
    && |d| == 78 + |r.charge|
    && Strip(d[0..6]) == r.recordName
    && Strip(d[12..14]) == r.atomName1 && Strip(d[14..16]) == r.atomName2
    && Strip(d[16..17]) == r.altLoc && Strip(d[17..20]) == r.residueName
    && Strip(d[21..22]) == r.chainId
    && Strip(d[72..76]) == r.segId && Strip(d[76..78]) == r.element && d[78..] == r.charge
  }

  /** Columns 7-11 and 23-26 read back as `r`'s two numbers. */
  predicate NumbersBack(d: string, r: Record)
    requires |d| >= 26
  {
    Strip(d[6..11]) == NatToString(r.serial) && Strip(d[22..26]) == NatToString(r.residueSeq)
  }

  /** Columns 31-66 hold `r`'s five decimals as the formatters write them. */
  predicate DecimalsBack(d: string, r: Record, fmt: Formats)
    requires |d| >= 66
  {
    && d[30..38] == fmt.coord(r.x) && d[38..46] == fmt.coord(r.y) && d[46..54] == fmt.coord(r.z)
    && d[54..60] == fmt.twoPlaces(r.occupancy) && d[60..66] == fmt.twoPlaces(r.tempFactor)
  }

  /** Everything the constructor reads from a line agrees with `r`, the insertion code
      being `iCode` and the numbers being `r`'s formatted. */
  predicate ReadsBack(d: string, r: Record, fmt: Formats, iCode: string) {
    && NamesBack(d, r) && NumbersBack(d, r) && DecimalsBack(d, r, fmt)
    && Strip(d[26..27]) == iCode
  }

  lemma LineNamesBack(r: Record, fmt: Formats, ins: string)
    requires WellFormed(r) && FitsColumns(fmt) && |ins| == 4
    ensures NamesBack(Line(r, fmt, ins), r)
  {
    var d := Line(r, fmt, ins);
    LineLayout(r, fmt, ins);
    ReadSerial(d, r);
    ReadAtomName(d, r);
    ReadResidue(d, r);
    ReadTail(d, r);
  }

  lemma LineNumbersBack(r: Record, fmt: Formats, ins: string)
    requires WellFormed(r) && FitsColumns(fmt) && |ins| == 4
    ensures |Line(r, fmt, ins)| >= 26 && NumbersBack(Line(r, fmt, ins), r)
  {
    var d := Line(r, fmt, ins);
    LineLayout(r, fmt, ins);
    ReadSerial(d, r);
    ReadResidue(d, r);
  }

  lemma LineDecimalsBack(r: Record, fmt: Formats, ins: string)
    requires WellFormed(r) && FitsColumns(fmt) && |ins| == 4
    ensures |Line(r, fmt, ins)| >= 66 && DecimalsBack(Line(r, fmt, ins), r, fmt)
  {
    var d := Line(r, fmt, ins);
    LineLayout(r, fmt, ins);
    ReadNumbers(d, r, fmt);
  }

  lemma LineInsertionBack(r: Record, fmt: Formats, ins: string)
    requires WellFormed(r) && FitsColumns(fmt) && |ins| == 4
    ensures |Line(r, fmt, ins)| >= 30 && Line(r, fmt, ins)[26..27] == ins[0..1]
  {
    InsertionAt(r, fmt, ins);
    InnerSlice(Line(r, fmt, ins), ins, 26, 30, 0, 1);
  }

  lemma InsertionAt(r: Record, fmt: Formats, ins: string)
    requires WellFormed(r) && FitsColumns(fmt) && |ins| == 4
    ensures |Line(r, fmt, ins)| >= 30 && Line(r, fmt, ins)[26..30] == ins
  {
    LineLayout(r, fmt, ins);
  }

  lemma InnerSlice(d: string, s: string, i: nat, j: nat, k: nat, l: nat)
    requires i <= j <= |d| && d[i..j] == s && k <= l <= j - i
    ensures d[i + k..i + l] == s[k..l]
  {
    SubSlice(d, i, j, k, l);
  }

  /** A rebuilt line reads back as its record, the insertion code being whatever the first
      of columns 27-30 holds. */
  lemma LineReadsBack(r: Record, fmt: Formats, ins: string)
    requires WellFormed(r) && FitsColumns(fmt) && |ins| == 4
    ensures ReadsBack(Line(r, fmt, ins), r, fmt, Strip(ins[0..1]))
  {
    LineNamesBack(r, fmt, ins);
    LineNumbersBack(r, fmt, ins);
    LineDecimalsBack(r, fmt, ins);
    LineInsertionBack(r, fmt, ins);
  }

  /** The record the constructor makes of a rebuilt line: the same fields, with the
      insertion code read from column 27, the numbers as the reader reads their formatted
      text, and the rebuilt line as both lines. */
  function Reparsed(r: Record, fmt: Formats, readFloat: FloatReader, iCode: string, d: string): Record
    requires ReadsFormatted(readFloat, fmt)
  {
    r.(iCode := iCode,
       x := readFloat(fmt.coord(r.x)).value,
       y := readFloat(fmt.coord(r.y)).value,
       z := readFloat(fmt.coord(r.z)).value,
       occupancy := readFloat(fmt.twoPlaces(r.occupancy)).value,
       tempFactor := readFloat(fmt.twoPlaces(r.tempFactor)).value,
       data := d, orgData := d)
  }

  /** A line whose numbers read back passes the integer gate with `r`'s numbers. */
  lemma NumbersGate(d: string, r: Record)
    requires |d| >= MinLineLength && NumbersBack(d, r)
    ensures IntegerFieldsOk(d)
    ensures FieldValue(d[6..11]) == r.serial && FieldValue(d[22..26]) == r.residueSeq
  {
  }

  /** A line whose names read back as a well-formed record's passes the record-name gate. */
  lemma NameGate(d: string, r: Record)
    requires WellFormed(r) && NamesBack(d, r)
    ensures |d| >= MinLineLength && RecordNameOk(d)
  {
  }

  /** A line holding formatted decimals passes the decimal gate when the reader accepts
      what the formatters write. */
  lemma DecimalGate(d: string, r: Record, fmt: Formats, readFloat: FloatReader)
    requires ReadsFormatted(readFloat, fmt) && |d| >= MinLineLength && DecimalsBack(d, r, fmt)
    ensures DecimalFieldsOk(d, readFloat)
  {
    assert readFloat(fmt.coord(r.x)).Some? && readFloat(fmt.coord(r.y)).Some?;
    assert readFloat(fmt.coord(r.z)).Some?;
    assert readFloat(fmt.twoPlaces(r.occupancy)).Some? && readFloat(fmt.twoPlaces(r.tempFactor)).Some?;
  }

  /** Columns 79-80 of a line `78 + |charge|` long trim back to a trimmed charge. */
  lemma ChargeBack(d: string, charge: string)
    requires Stripped(charge) && |charge| <= 2 && |d| == 78 + |charge| && d[78..] == charge
    ensures (if |d| > 78 then Strip(d[78..if |d| < 80 then |d| else 80]) else "") == charge
  {
    if |d| > 78 {
      assert (if |d| < 80 then |d| else 80) == |d|;
      StripTail(d, charge);
    }
  }

  lemma StripTail(d: string, charge: string)
    requires Stripped(charge) && |d| >= 78 && d[78..] == charge
    ensures Strip(d[78..|d|]) == charge
  {
    assert d[78..|d|] == charge;
    StripOfStripped(charge);
  }

  /** A line that reads back as a well-formed record passes every gate and constructs that
      record. */
  lemma ReparseFields(d: string, r: Record, fmt: Formats, readFloat: FloatReader, iCode: string)
    requires WellFormed(r) && ReadsFormatted(readFloat, fmt) && ReadsBack(d, r, fmt, iCode)
    ensures Parse(d, readFloat) == Ok(Reparsed(r, fmt, readFloat, iCode, d))
  {
    NameGate(d, r);
    NumbersGate(d, r);
    DecimalGate(d, r, fmt, readFloat);
    ChargeBack(d, r.charge);
    BuildBack(d, r, fmt, readFloat, iCode);
  }

  lemma BuildBack(d: string, r: Record, fmt: Formats, readFloat: FloatReader, iCode: string)
    requires WellFormed(r) && ReadsFormatted(readFloat, fmt) && ReadsBack(d, r, fmt, iCode)
    requires |d| >= MinLineLength && IntegerFieldsOk(d) && RecordNameOk(d)
    requires DecimalFieldsOk(d, readFloat)
    requires FieldValue(d[6..11]) == r.serial && FieldValue(d[22..26]) == r.residueSeq
    requires (if |d| > 78 then Strip(d[78..if |d| < 80 then |d| else 80]) else "") == r.charge
    ensures Build(d, readFloat) == Reparsed(r, fmt, readFloat, iCode, d)
  {
  }

  /** A rebuilt line passes every gate, and the constructor reads back each string and
      integer field, taking the insertion code from column 27. */
  lemma ReparseLine(r: Record, fmt: Formats, readFloat: FloatReader, ins: string)
    requires WellFormed(r) && FitsColumns(fmt) && ReadsFormatted(readFloat, fmt) && |ins| == 4
    ensures Parse(Line(r, fmt, ins), readFloat)
            == Ok(Reparsed(r, fmt, readFloat, Strip(ins[0..1]), Line(r, fmt, ins)))
  {
    LineReadsBack(r, fmt, ins);
    ReparseFields(Line(r, fmt, ins), r, fmt, readFloat, Strip(ins[0..1]));
  }

  // ---------------------------------------------------------------------------------------
  // `reset_data` and the insertion code

  /** As written, column 27 is blank: the insertion code sits in column 30. */
  lemma InsertionAsWrittenBlank(r: Record)
    requires |r.iCode| <= 1
    ensures |InsertionColumnsAsWritten(r)| == 4 && Strip(InsertionColumnsAsWritten(r)[0..1]) == []
    ensures InsertionColumnsAsWritten(r)[..3] == "   "
    ensures InsertionColumnsAsWritten(r)[3..] == if r.iCode == [] then " " else r.iCode
  {
    var s := InsertionColumnsAsWritten(r);
    assert s[0..1] == [' '];
    assert AllSpace(s[0..1]);
    assert s[..3] == Spaces(3);
    assert s[3..] == Ljust(r.iCode, 1);
  }

  /** Columns 27-30 of a line split into their first three and their last. */
  lemma InsertionSlices(d: string, ins: string)
    requires |d| >= 30 && |ins| == 4 && d[26..30] == ins
    ensures d[26..29] == ins[..3] && d[29..30] == ins[3..]
  {
    assert d[26..29] == d[26..30][..3];
    assert d[29..30] == d[26..30][3..];
  }

  /** `reset_data` puts three spaces in columns 27-29 and the insertion code in column 30,
      one column to the right of where the constructor reads it. */
  lemma ResetDataInsertion(r: Record, fmt: Formats)
    requires WellFormed(r) && FitsColumns(fmt)
    ensures var d := ResetData(r, fmt);
            && |d| == 78 + |r.charge|
            && d[26..29] == "   "
            && d[29..30] == if r.iCode == [] then " " else r.iCode
  {
    var ins := InsertionColumnsAsWritten(r);
    InsertionAsWrittenBlank(r);
    LineLayout(r, fmt, ins);
    InsertionSlices(ResetData(r, fmt), ins);
  }

  /** In the corrected layout column 27 trims back to the insertion code. */
  lemma InsertionFixedReads(r: Record)
    requires Stripped(r.iCode) && |r.iCode| <= 1
    ensures |InsertionColumns(r)| == 4 && Strip(InsertionColumns(r)[0..1]) == r.iCode
  {
    var a := Ljust(r.iCode, 1);
    LeftAligned(r.iCode, 1);
    assert (a + Spaces(3))[0..1] == a;
  }

  /** `reset_data` as written rebuilds a line the constructor accepts, reading back every
      string and integer field except the insertion code, which comes back empty. */
  lemma ReparseResetData(r: Record, fmt: Formats, readFloat: FloatReader)
    requires WellFormed(r) && FitsColumns(fmt) && ReadsFormatted(readFloat, fmt)
    ensures Parse(ResetData(r, fmt), readFloat) == Ok(Reparsed(r, fmt, readFloat, [], ResetData(r, fmt)))
  {
    InsertionAsWrittenBlank(r);
    ReparseLine(r, fmt, readFloat, InsertionColumnsAsWritten(r));
  }

  /** The insertion code does not survive the round trip: a record with one, rewritten by
      `reset_data` and read again, has none. */
  lemma ICodeLostOnReparse(r: Record, fmt: Formats, readFloat: FloatReader)
    requires WellFormed(r) && FitsColumns(fmt) && ReadsFormatted(readFloat, fmt)
    requires r.iCode != []
    ensures Parse(ResetData(r, fmt), readFloat).Ok?
    ensures Parse(ResetData(r, fmt), readFloat).value.iCode == [] != r.iCode
  {
    ReparseResetData(r, fmt, readFloat);
  }

  /** With the insertion code in column 27 the round trip keeps it too: the record read
      back from the rebuilt line differs from `r` only in the decimals, which come back as
      the reader reads their formatted text, and in the two lines. */
  lemma ReparseFixed(r: Record, fmt: Formats, readFloat: FloatReader)
    requires WellFormed(r) && FitsColumns(fmt) && ReadsFormatted(readFloat, fmt)
    ensures Parse(ResetDataFixed(r, fmt), readFloat)
            == Ok(Reparsed(r, fmt, readFloat, r.iCode, ResetDataFixed(r, fmt)))
  {
    InsertionFixedReads(r);
    ReparseLine(r, fmt, readFloat, InsertionColumns(r));
  }

  /** Renaming with the corrected setter and reading the rebuilt line back gives the new
      atom name, for any name of up to four characters without blanks. */
  lemma RenameFixedRoundTrip(r: Record, name: string, fmt: Formats, readFloat: FloatReader)
    requires WellFormed(r) && FitsColumns(fmt) && ReadsFormatted(readFloat, fmt)
    requires PdbProperties.NoSpace(name) && |name| <= 4
    ensures var r' := SetAtomNameFixed(r, name, fmt);
            Parse(r'.data, readFloat).Ok? && AtomName(Parse(r'.data, readFloat).value) == name
  {
    var r' := SetAtomNameFixed(r, name, fmt);
    RenamedWellFormed(r, name, fmt);
    ReparseFixed(r', fmt, readFloat);
    PdbProperties.SetAtomNameFixedReadsBack(r, name, fmt);
    var back := Reparsed(r', fmt, readFloat, r'.iCode, ResetDataFixed(r', fmt));
    assert back.atomName1 == r'.atomName1 && back.atomName2 == r'.atomName2;
    assert AtomNameFull(back) == AtomNameFull(r');
  }

  /** The corrected setter keeps a record well formed. */
  lemma RenamedWellFormed(r: Record, name: string, fmt: Formats)
    requires WellFormed(r) && PdbProperties.NoSpace(name) && |name| <= 4
    ensures WellFormed(SetAtomNameFixed(r, name, fmt))
  {
    if |name| <= 2 {
      PdbProperties.NoSpacePieces(name, 0);
    } else {
      PdbProperties.NoSpacePieces(name, 2);
    }
  }
}
