/** Properties of the PDB record model: the constructor's gates, the classifiers and the
    atom-name accessors. */
module PdbProperties {
  import opened Text
  import opened Results
  import opened PdbLib

  // ---------------------------------------------------------------------------------------
  // Gates and classifiers

  /** A line long enough to pass the length gate, with a character in columns 7-11 that is
      neither a digit nor whitespace, fails on the number gate: the record-name gate is never
      reached, so a `HEADER` or `REMARK` line is refused as a number error. */
  lemma SerialLetterFailsOnNumbers(data: string, readFloat: FloatReader, i: nat)
    requires |data| >= MinLineLength && 6 <= i < 11
    requires !IsDigit(data[i]) && !IsSpace(data[i])
    ensures Parse(data, readFloat) == Err(NumberError)
  {
    var field := data[6..11];
    assert field[i - 6] == data[i];
    StripKeeps(field, i - 6);
    assert !AllDigits(Strip(field));
  }

  /** A constructed record holds the trimmed text of each column, the two integers the
      digit columns spell, and the charge of columns 79-80 only when the line is longer
      than 78 characters. */
  lemma ParseColumns(data: string, readFloat: FloatReader)
    requires Parse(data, readFloat).Ok?
    ensures var r := Parse(data, readFloat).value;
            && r.recordName == Strip(data[0..6])
            && r.serial == DigitsValue(Strip(data[6..11]))
            && r.atomName1 == Strip(data[12..14]) && r.atomName2 == Strip(data[14..16])
            && r.altLoc == Strip(data[16..17]) && r.residueName == Strip(data[17..20])
            && r.chainId == Strip(data[21..22])
            && r.residueSeq == DigitsValue(Strip(data[22..26]))
            && r.iCode == Strip(data[26..27])
            && r.segId == Strip(data[72..76]) && r.element == Strip(data[76..78])
            && r.charge == (if |data| > 78 then Strip(data[78..if |data| < 80 then |data| else 80]) else "")
  {
  }

  /** `is_remove_item` read off the line: the element of columns 77-78 is in the remove
      table, or the residue of columns 18-20 is water. */
  lemma RemoveItemColumns(data: string, readFloat: FloatReader)
    requires Parse(data, readFloat).Ok?
    ensures IsRemoveItem(Parse(data, readFloat).value)
            <==> Strip(data[76..78]) in ListElementRemove || Strip(data[17..20]) == "HOH"
  {
    ParseColumns(data, readFloat);
  }

  /** `is_ion_need_change_residue_name` read off the line: the element of columns 77-78 is
      in the ion table and differs from the residue of columns 18-20. */
  lemma IonRenameColumns(data: string, readFloat: FloatReader)
    requires Parse(data, readFloat).Ok?
    ensures IsIonNeedChangeResidueName(Parse(data, readFloat).value)
            <==> Strip(data[76..78]) in ListElementIon && Strip(data[17..20]) != Strip(data[76..78])
  {
    ParseColumns(data, readFloat);
  }

  /** Every constructed record is exactly one of ATOM and HETATM, and a cofactor exactly
      when it is a HETATM. */
  lemma AtomOrHetatm(data: string, readFloat: FloatReader)
    requires Parse(data, readFloat).Ok?
    ensures var r := Parse(data, readFloat).value;
            (IsAtom(r) <==> !IsHetatm(r)) && (IsCoFactor(r) <==> IsHetatm(r))
  {
  }

  /** An element the constructor stores is trimmed, so the table entry "IN " never matches:
      indium is never an ion, while sodium is. */
  lemma IonTable(r: Record)
    requires Stripped(r.element)
    ensures r.element == "IN" ==> !IsIon(r)
    ensures r.element == "NA" ==> IsIon(r)
    ensures IsIon(r) ==> r.element != "IN "
  {
    assert ListElementIon[24] == "NA";
  }

  // ---------------------------------------------------------------------------------------
  // Atom name

  /** Two trimmed texts joined stay trimmed. */
  lemma StrippedJoin(a: string, b: string)
    requires Stripped(a) && Stripped(b)
    ensures Stripped(a + b)
  {
    if a != [] && b != [] {
      assert (a + b)[0] == a[0] && (a + b)[|a + b| - 1] == b[|b| - 1];
    } else if a == [] {
      assert a + b == b;
    } else {
      assert a + b == a;
    }
  }

  /** The atom name is the two parts joined: part 1's padding is on its left and part 2's on
      its right, so trimming removes exactly the padding. */
  lemma AtomNameJoinsParts(r: Record)
    requires Stripped(r.atomName1) && |r.atomName1| <= 2
    requires Stripped(r.atomName2) && |r.atomName2| <= 2
    ensures AtomName(r) == r.atomName1 + r.atomName2
  {
    PaddedPair(r.atomName1, r.atomName2);
  }

  lemma PaddedPair(a: string, b: string)
    requires Stripped(a) && |a| <= 2 && Stripped(b) && |b| <= 2
    ensures Strip(Rjust(a, 2) + Ljust(b, 2)) == a + b
  {
    var left, right := Rjust(a, 2), Ljust(b, 2);
    var pad1, pad2 := left[..2 - |a|], right[|b|..];
    assert left == pad1 + a;
    assert right == b + pad2;
    assert left + right == pad1 + (a + b) + pad2;
    StrippedJoin(a, b);
    StripPadded(pad1, a + b, pad2);
  }

  /** As written, a short name replaces part 1 only: renaming an atom whose part 2 is set
      keeps that part, so the new name is not the one given. */
  lemma SetShortNameKeepsPart2(r: Record, name: string, fmt: Formats)
    requires Stripped(r.atomName2) && |r.atomName2| <= 2
    requires Stripped(name) && |name| <= 2
    ensures AtomName(SetAtomName(r, name, fmt)) == name + r.atomName2
  {
    AtomNameJoinsParts(SetAtomName(r, name, fmt));
  }

  /** The concrete case: renaming the atom HG21 to O gives O21. */
  lemma RenameHg21ToO(r: Record, fmt: Formats)
    requires r.atomName1 == "HG" && r.atomName2 == "21"
    ensures AtomName(SetAtomName(r, "O", fmt)) == "O21"
  {
    ShortNames();
    SetShortNameKeepsPart2(r, "O", fmt);
  }

  lemma ShortNames()
    ensures Stripped("21") && Stripped("O") && "O" + "21" == "O21"
  {
  }

  /** A text without whitespace is trimmed, and so are its pieces. */
  predicate NoSpace(s: string) {
    forall i :: 0 <= i < |s| ==> !IsSpace(s[i])
  }

  lemma NoSpacePieces(s: string, k: nat)
    requires NoSpace(s) && k <= |s|
    ensures Stripped(s) && Stripped(s[..k]) && Stripped(s[k..])
  {
  }

  /** With part 2 cleared, any name of up to four characters without blanks reads back. */
  lemma SetAtomNameFixedReadsBack(r: Record, name: string, fmt: Formats)
    requires NoSpace(name) && |name| <= 4
    ensures AtomName(SetAtomNameFixed(r, name, fmt)) == name
  {
    var r' := SetAtomNameFixed(r, name, fmt);
    if |name| <= 2 {
      NoSpacePieces(name, 0);
      assert name + [] == name;
    } else {
      NoSpacePieces(name, 2);
      assert name[..2] + name[2..] == name;
    }
    AtomNameJoinsParts(r');
  }

  // ---------------------------------------------------------------------------------------
  // Residue-name properties as written

  /** A water whose element is not in the remove table makes `is_remove_item` as written
      raise, although the intended answer is true. */
  lemma WaterRaisesAsWritten(r: Record)
    requires r.residueName == "HOH" && r.element == "O"
    ensures IsRemoveItem(r)
    ensures IsRemoveItemAsWritten(r) == Err(AttributeError("_PdbRecord__residue_name"))
  {
  }

  /** Any sodium record makes `is_ion_need_change_residue_name` as written raise; the
      intended answer is whether its residue name differs from "NA". */
  lemma SodiumRaisesAsWritten(r: Record)
    requires r.element == "NA"
    ensures IsIonNeedChangeResidueName(r) <==> r.residueName != "NA"
    ensures IsIonNeedChangeResidueNameAsWritten(r) == Err(AttributeError("_PdbRecord__residue_name"))
  {
    assert ListElementIon[24] == "NA";
  }

  // ---------------------------------------------------------------------------------------
  // File name

  /** The file name is the residue name, a dash, four digits whose value is the residue
      number, and ".pdb". */
  lemma FileNameParts(r: Record)
    requires r.residueSeq < 10000
    ensures var f, n := FileName(r), |r.residueName|;
            && |f| == n + 9
            && f[..n] == r.residueName && f[n] == '-'
            && AllDigits(f[n + 1..n + 5]) && DigitsValue(f[n + 1..n + 5]) == r.residueSeq
            && f[n + 5..] == ".pdb"
  {
    assert Pow10(4) == 10000;
    var z := ZeroFilled(r.residueSeq, 4);
    var n := |r.residueName|;
    var f := r.residueName + "-" + z + ".pdb";
    assert |z| == 4;
    assert f[n + 1..n + 5] == z;
    assert f[n + 5..] == ".pdb";
  }

  /** Two residues below 10000 share a file name only when they share both the residue name
      and the residue number. */
  lemma FileNameInjective(r1: Record, r2: Record)
    requires r1.residueSeq < 10000 && r2.residueSeq < 10000
    requires FileName(r1) == FileName(r2)
    ensures r1.residueName == r2.residueName && r1.residueSeq == r2.residueSeq
  {
    FileNameParts(r1);
    FileNameParts(r2);
  }
}
