/** `my_lib/pdb_lib.py`: one ATOM/HETATM line of a PDB coordinate file.

    The layout is the fixed-column one of the ATOM and HETATM records in the "Coordinate
    Section" of the wwPDB Atomic Coordinate Entry Format Description, version 3.3, plus the
    legacy segment identifier in columns 73-76. Column numbers in comments are 1-based and
    inclusive; Dafny slices are 0-based and half-open, as Python's are.

    Python's `float()` and the `8.3f`/`6.2f` formats are not modelled: the parser takes the
    decimal reader as a parameter and the serialiser takes the two formatters. */
module PdbLib {
  import opened Text
  import opened Results
  import FileLib

  /** `LIST_ELEMENT_ION`; note the entry "IN " with a trailing space. */
  const ListElementIon: seq<string> := [
    "AG", "AL", "BE", "CA", "CD", "CL", "CO", "CR", "CU", "FE", "GA", "HE", "IN ", "LI", "MG", "MN",
    "NE", "NI", "PB", "K", "RH", "RB", "SC", "SN", "NA", "SR", "TI", "V2", "V3", "Y3", "ZN", "SE",
    "BR", "P", "S", "MO"]

  /** `LIST_ELEMENT_REMOVE` */
  const ListElementRemove: seq<string> := [
    "AU", "BA", "BI", "CE", "CS", "DY", "ER", "EU", "GD", "HG", "HO", "LA",
    "LU", "ND", "PD", "PM", "PR", "PT", "PU", "RA", "SM", "TB", "TL", "TU", "U1", "U3", "YB"]

  /** The shortest line the constructor accepts: up to and including the element symbol. */
  const MinLineLength: nat := 78

  /** A constructed `PdbRecord`. `data` is the current line (rebuilt by the atom-name
      setter), `orgData` the line it was parsed from. */
  datatype Record = Record(
    recordName: string,   // columns 1-6
    serial: nat,          // columns 7-11
    atomName1: string,    // columns 13-14, right-justified
    atomName2: string,    // columns 15-16, left-justified
    altLoc: string,       // column 17
    residueName: string,  // columns 18-20
    chainId: string,      // column 22
    residueSeq: nat,      // columns 23-26
    iCode: string,        // column 27
    x: real,              // columns 31-38
    y: real,              // columns 39-46
    z: real,              // columns 47-54
    occupancy: real,      // columns 55-60
    tempFactor: real,     // columns 61-66
    segId: string,        // columns 73-76
    element: string,      // columns 77-78
    charge: string,       // columns 79-80
    data: string,
    orgData: string)

  /** Why the constructor raised `ValueError`, one case per gate in the order they run. */
  datatype ParseError =
    | LengthError(length: nat)  // shorter than 78 characters
    | NumberError               // serial or residue number not a digit string
    | RecordNameError           // neither ATOM nor HETATM
    | DecimalError              // a coordinate, occupancy or temperature factor `float()` rejects

  /** The text of the `ValueError`; the integer and the decimal gate share one message. */
  function ErrorMessage(e: ParseError): string {
    match e
    case LengthError(n) => "This record is not PDB record - length error=" + NatToString(n)
    case NumberError => "This record is not PDB record - number error."
    case DecimalError => "This record is not PDB record - number error."
    case RecordNameError => "This record is not PDB record - record name error."
  }

  /** A model of Python's `float(text)`: `None` where it raises. */
  type FloatReader = string -> Option<real>

  /** A model of the `8.3f` and `6.2f` formats. */
  datatype Formats = Formats(coord: real -> string, twoPlaces: real -> string)

  /** The widths the PDB columns leave for the formatted numbers. */
  ghost predicate FitsColumns(fmt: Formats) {
    (forall v :: |fmt.coord(v)| == 8) && (forall v :: |fmt.twoPlaces(v)| == 6)
  }

  // ---------------------------------------------------------------------------------------
  // The constructor's gates

  /** Columns 7-11 and 23-26, trimmed, are non-empty digit strings (no sign). */
  predicate IntegerFieldsOk(data: string)
    requires |data| >= MinLineLength
  {
    IsDigitString(Strip(data[6..11])) && IsDigitString(Strip(data[22..26]))
  }

  /** Columns 1-6, trimmed, are ATOM or HETATM. */
  predicate RecordNameOk(data: string)
    requires |data| >= MinLineLength
  {
    Strip(data[0..6]) == "ATOM" || Strip(data[0..6]) == "HETATM"
  }

  /** The five decimal fields are accepted by `float()`. */
  predicate DecimalFieldsOk(data: string, readFloat: FloatReader)
    requires |data| >= MinLineLength
  {
    && readFloat(data[30..38]).Some?
    && readFloat(data[38..46]).Some?
    && readFloat(data[46..54]).Some?
    && readFloat(data[54..60]).Some?
    && readFloat(data[60..66]).Some?
  }

  /** What every constructed record satisfies: a known record name, integers that fit their
      columns and string fields that are trimmed and no wider than their columns. */
  predicate WellFormed(r: Record) {
    && (r.recordName == "ATOM" || r.recordName == "HETATM")
    && r.serial < 100000 && r.residueSeq < 10000
    && Stripped(r.atomName1) && |r.atomName1| <= 2
    && Stripped(r.atomName2) && |r.atomName2| <= 2
    && Stripped(r.altLoc) && |r.altLoc| <= 1
    && Stripped(r.residueName) && |r.residueName| <= 3
    && Stripped(r.chainId) && |r.chainId| <= 1
    && Stripped(r.iCode) && |r.iCode| <= 1
    && Stripped(r.segId) && |r.segId| <= 4
    && Stripped(r.element) && |r.element| <= 2
    && Stripped(r.charge) && |r.charge| <= 2
  }

  /** `int(field)` for a field whose trimmed text is a digit string. */
  function FieldValue(field: string): (v: nat)
    requires IsDigitString(Strip(field))
    ensures v < Pow10(|field|)
  {
    var t := Strip(field);
    assert Pow10(|t|) <= Pow10(|field|) by { Pow10Monotone(|t|, |field|); }
    DigitsValue(t)
  }

  lemma {:induction false} Pow10Monotone(a: nat, b: nat)
    requires a <= b
    ensures Pow10(a) <= Pow10(b)
    decreases b
  {
    if a < b {
      Pow10Monotone(a, b - 1);
    }
  }

  /** `PdbRecord(data)`: the gates run in the order length, integer fields, record name,
      decimal fields, and the first that fails decides the error. On success the record
      holds the trimmed columns, is well formed, and both lines are the input. */
  function Parse(data: string, readFloat: FloatReader): (r: Result<Record, ParseError>)
    ensures |data| < MinLineLength ==> r == Err(LengthError(|data|))
    ensures |data| >= MinLineLength && !IntegerFieldsOk(data) ==> r == Err(NumberError)
    ensures (|data| >= MinLineLength && IntegerFieldsOk(data) && !RecordNameOk(data))
              ==> r == Err(RecordNameError)
    ensures (|data| >= MinLineLength && IntegerFieldsOk(data) && RecordNameOk(data)
             && !DecimalFieldsOk(data, readFloat)) ==> r == Err(DecimalError)
    ensures r.Ok? <==>
              |data| >= MinLineLength && IntegerFieldsOk(data) && RecordNameOk(data)
              && DecimalFieldsOk(data, readFloat)
    ensures r.Ok? ==> WellFormed(r.value) && r.value.data == data && r.value.orgData == data
  {
    if |data| < MinLineLength then Err(LengthError(|data|))
    else if !IntegerFieldsOk(data) then Err(NumberError)
    else if !RecordNameOk(data) then Err(RecordNameError)
    else if !DecimalFieldsOk(data, readFloat) then Err(DecimalError)
    else Ok(Build(data, readFloat))
  }

  /** The constructor's assignments, once every gate has passed. */
  function Build(data: string, readFloat: FloatReader): (r: Record)
    requires |data| >= MinLineLength && IntegerFieldsOk(data) && RecordNameOk(data)
    requires DecimalFieldsOk(data, readFloat)
    ensures WellFormed(r) && r.data == data && r.orgData == data
  {
    var charge := if |data| > 78 then Column(data[78..if |data| < 80 then |data| else 80], 2) else "";
    Record(
      recordName := Strip(data[0..6]),
      serial := FieldValue(data[6..11]),
      atomName1 := Column(data[12..14], 2),
      atomName2 := Column(data[14..16], 2),
      altLoc := Column(data[16..17], 1),
      residueName := Column(data[17..20], 3),
      chainId := Column(data[21..22], 1),
      residueSeq := FieldValue(data[22..26]),
      iCode := Column(data[26..27], 1),
      x := readFloat(data[30..38]).value,
      y := readFloat(data[38..46]).value,
      z := readFloat(data[46..54]).value,
      occupancy := readFloat(data[54..60]).value,
      tempFactor := readFloat(data[60..66]).value,
      segId := Column(data[72..76], 4),
      element := Column(data[76..78], 2),
      charge := charge,
      data := data,
      orgData := data)
  }

  /** A trimmed column at most `w` characters wide. */
  function Column(field: string, w: nat): (t: string)
    requires |field| <= w
    ensures Stripped(t) && |t| <= w
    ensures t == Strip(field)
  {
    Strip(field)
  }

  // ---------------------------------------------------------------------------------------
  // Classifiers

  predicate IsAtom(r: Record) {
    r.recordName == "ATOM"
  }

  predicate IsHetatm(r: Record) {
    r.recordName == "HETATM"
  }

  predicate IsCoFactor(r: Record) {
    IsHetatm(r)
  }

  predicate IsRemoveIon(r: Record) {
    r.element in ListElementRemove
  }

  predicate IsIon(r: Record) {
    r.element in ListElementIon
  }

  /** `is_remove_item`, reading the residue name the constructor stores. */
  predicate IsRemoveItem(r: Record) {
    IsRemoveIon(r) || r.residueName == "HOH"
  }

  /** `is_ion_need_change_residue_name`, reading the residue name the constructor stores. */
  predicate IsIonNeedChangeResidueName(r: Record) {
    IsIon(r) && r.residueName != r.element
  }

  /** What Python raises when a property reads an attribute that was never assigned. */
  datatype PyError = AttributeError(attribute: string)

  /** `is_remove_item` as written: it reads `self.__residue_name`, which name mangling turns
      into an attribute nothing assigns, so it raises unless the element test already
      short-circuits the `or`. */
  function IsRemoveItemAsWritten(r: Record): (res: Result<bool, PyError>)
    ensures res.Ok? <==> IsRemoveIon(r)
    ensures res.Ok? ==> res.value == IsRemoveItem(r)
  {
    if IsRemoveIon(r) then Ok(true) else Err(AttributeError("_PdbRecord__residue_name"))
  }

  /** `is_ion_need_change_residue_name` as written: the same missing attribute, reached
      whenever the element is an ion. */
  function IsIonNeedChangeResidueNameAsWritten(r: Record): (res: Result<bool, PyError>)
    ensures res.Ok? <==> !IsIon(r)
    ensures res.Ok? ==> res.value == IsIonNeedChangeResidueName(r)
  {
    if !IsIon(r) then Ok(false) else Err(AttributeError("_PdbRecord__residue_name"))
  }

  // ---------------------------------------------------------------------------------------
  // Atom name

  /** `atom_name_full`: part 1 right-justified to two columns, part 2 left-justified. */
  function AtomNameFull(r: Record): (s: string)
    ensures |r.atomName1| <= 2 && |r.atomName2| <= 2 ==> |s| == 4
  {
    Rjust(r.atomName1, 2) + Ljust(r.atomName2, 2)
  }

  /** `atom_name`: the trimmed full name. */
  function AtomName(r: Record): string {
    Strip(AtomNameFull(r))
  }

  /** The two name parts after the `atom_name` setter: a name of at most two characters
      replaces part 1 only; a longer one is cut after two characters, with no limit on
      part 2. */
  function RenamedParts(part2: string, name: string): (parts: (string, string))
    ensures |name| <= 2 ==> parts == (name, part2)
    ensures |name| > 2 ==> parts.0 + parts.1 == name && |parts.0| == 2
  {
    if |name| <= 2 then (name, part2) else (name[..2], name[2..])
  }

  /** The `atom_name` setter: the parts change as `RenamedParts` says and the line is
      rebuilt from the new fields; every other field, the original line included, is kept. */
  function SetAtomName(r: Record, name: string, fmt: Formats): (r': Record)
    ensures (r'.atomName1, r'.atomName2) == RenamedParts(r.atomName2, name)
    ensures r'.data == ResetData(r', fmt)
    ensures r' == r.(atomName1 := r'.atomName1, atomName2 := r'.atomName2, data := r'.data)
  {
    var parts := RenamedParts(r.atomName2, name);
    var r1 := r.(atomName1 := parts.0, atomName2 := parts.1);
    r1.(data := ResetData(r1, fmt))
  }

  // ---------------------------------------------------------------------------------------
  // Serialiser

  /** `f"{n:5d}"` and `f"{n:4d}"` for a non-negative `n`. */
  function IntField(n: nat, width: nat): string {
    Rjust(NatToString(n), width)
  }

  /** Columns 1-12: record name, serial number and the blank column 12. */
  function SerialColumns(r: Record): string {
    Ljust(r.recordName, 6) + IntField(r.serial, 5) + " "
  }

  /** Columns 17-26: alternate location, residue name, the blank column 21, chain and
      residue number. `reset_data` reads the residue number from the never-assigned
      `__residue_seq`; this reads the `residue_seq` the constructor stores. */
  function ResidueColumns(r: Record): string {
    Ljust(r.altLoc, 1) + Rjust(r.residueName, 3) + " " + Ljust(r.chainId, 1) + IntField(r.residueSeq, 4)
  }

  /** Columns 27-30 as `reset_data` writes them: three blanks, then the insertion code, which
      so lands in column 30. */
  function InsertionColumnsAsWritten(r: Record): string {
    Spaces(3) + Ljust(r.iCode, 1)
  }

  /** Columns 27-30 with the insertion code in column 27, where the constructor reads it. */
  function InsertionColumns(r: Record): string {
    Ljust(r.iCode, 1) + Spaces(3)
  }

  /** Columns 31-54: `x`, `y` and `z` in the `8.3f` format. */
  function CoordinateColumns(r: Record, fmt: Formats): string {
    fmt.coord(r.x) + fmt.coord(r.y) + fmt.coord(r.z)
  }

  /** Columns 55-66: occupancy and temperature factor in the `6.2f` format. */
  function FactorColumns(r: Record, fmt: Formats): string {
    fmt.twoPlaces(r.occupancy) + fmt.twoPlaces(r.tempFactor)
  }

  /** Columns 67-80: six blanks, segment, element and the charge when there is one. */
  function TailColumns(r: Record): string {
    Spaces(6) + Ljust(r.segId, 4) + Rjust(r.element, 2) + r.charge
  }

  /** The line `reset_data` assembles, with the given columns 27-30. */
  function Line(r: Record, fmt: Formats, insertion: string): string {
    SerialColumns(r) + AtomNameFull(r) + ResidueColumns(r) + insertion
    + CoordinateColumns(r, fmt) + FactorColumns(r, fmt) + TailColumns(r)
  }

  /** `reset_data`, reading `residue_seq` for the residue number. */
  function ResetData(r: Record, fmt: Formats): string {
    Line(r, fmt, InsertionColumnsAsWritten(r))
  }

  /** `reset_data` as written: evaluating `f"{self.__residue_seq:4d}"` raises before `data`
      is assigned, so every call fails. */
  function ResetDataAsWritten(r: Record, fmt: Formats): (res: Result<string, PyError>)
    ensures res.Err?
  {
    Err(AttributeError("_PdbRecord__residue_seq"))
  }

  /** The `atom_name` setter as written: it assigns the parts and then calls `reset_data`
      as written, which raises. The result is the record a caller that catches the error
      holds, paired with that error: the new name parts are already in place, while `data`
      still holds the old line. */
  function SetAtomNameAsWritten(r: Record, name: string, fmt: Formats): (res: (Record, PyError))
    ensures res.1 == ResetDataAsWritten(r, fmt).error
    ensures (res.0.atomName1, res.0.atomName2) == RenamedParts(r.atomName2, name)
    ensures res.0 == r.(atomName1 := res.0.atomName1, atomName2 := res.0.atomName2)
    ensures res.0.data == r.data
  {
    var parts := RenamedParts(r.atomName2, name);
    var r1 := r.(atomName1 := parts.0, atomName2 := parts.1);
    (r1, ResetDataAsWritten(r1, fmt).error)
  }

  /** `reset_data` with the insertion code in column 27 and the three blanks after it. */
  function ResetDataFixed(r: Record, fmt: Formats): string {
    Line(r, fmt, InsertionColumns(r))
  }

  /** The setter with part 2 cleared when a short name replaces part 1, and the line rebuilt
      with the insertion code where the constructor reads it. */
  function SetAtomNameFixed(r: Record, name: string, fmt: Formats): (r': Record)
    ensures (r'.atomName1, r'.atomName2) == RenamedParts([], name)
    ensures r'.data == ResetDataFixed(r', fmt)
    ensures r' == r.(atomName1 := r'.atomName1, atomName2 := r'.atomName2, data := r'.data)
  {
    var parts := RenamedParts([], name);
    var r1 := r.(atomName1 := parts.0, atomName2 := parts.1);
    r1.(data := ResetDataFixed(r1, fmt))
  }

  // ---------------------------------------------------------------------------------------
  // File name

  /** `f"{n:04d}"` for a non-negative `n`: zero-filled to `width`. */
  function ZeroFilled(n: nat, width: nat): (s: string)
    ensures AllDigits(s) && DigitsValue(s) == n
    ensures 0 < width && n < Pow10(width) ==> |s| == width
  {
    var d := NatToString(n);
    if |d| >= width then
      (if n < Pow10(width) then NatToStringLength(n, width); d else d)
    else
      var z := seq(width - |d|, _ => '0');
      ZerosValue(z, d);
      z + d
  }

  lemma {:induction false} ZerosValue(z: string, d: string)
    requires forall i :: 0 <= i < |z| ==> z[i] == '0'
    requires AllDigits(d)
    ensures AllDigits(z + d) && DigitsValue(z + d) == DigitsValue(d)
    decreases |d|
  {
    if |d| == 0 {
      ZerosOnly(z);
      assert z + d == z;
    } else {
      var n := |z + d|;
      assert (z + d)[..n - 1] == z + d[..|d| - 1];
      ZerosValue(z, d[..|d| - 1]);
    }
  }

  lemma {:induction false} ZerosOnly(z: string)
    requires forall i :: 0 <= i < |z| ==> z[i] == '0'
    ensures AllDigits(z) && DigitsValue(z) == 0
    decreases |z|
  {
    if |z| > 0 {
      ZerosOnly(z[..|z| - 1]);
    }
  }

  /** `file_name`, reading the residue name the constructor stores: residue name, a dash,
      the residue number in four zero-filled digits and `.pdb`. */
  function FileName(r: Record): string {
    r.residueName + "-" + ZeroFilled(r.residueSeq, 4) + ".pdb"
  }

  /** `file_name` as written: it reads `self.__residue_name` and always raises. */
  function FileNameAsWritten(r: Record): (res: Result<string, PyError>)
    ensures res.Err?
  {
    Err(AttributeError("_PdbRecord__residue_name"))
  }

  // ---------------------------------------------------------------------------------------
  // Batch filter

  /** The values of the successful results, in order: the `try`/`except ValueError: pass`
      loop of `load_pdb_file`, which appends as it goes. */
  function Oks<T, E>(rs: seq<Result<T, E>>): (xs: seq<T>)
    ensures |xs| <= |rs|
  {
    if |rs| == 0 then []
    else
      var last := rs[|rs| - 1];
      Oks(rs[..|rs| - 1]) + (if last.Ok? then [last.value] else [])
  }

  /** The positions of the successful results, in increasing order. */
  function OkPositions<T, E>(rs: seq<Result<T, E>>): (ps: seq<nat>)
    ensures |ps| <= |rs|
    ensures forall k :: 0 <= k < |ps| ==> ps[k] < |rs| && rs[ps[k]].Ok?
    ensures forall j, k :: 0 <= j < k < |ps| ==> ps[j] < ps[k]
    ensures forall i :: 0 <= i < |rs| && rs[i].Ok? ==> i in ps
  {
    if |rs| == 0 then []
    else
      var n := |rs| - 1;
      var front := rs[..n];
      assert forall i :: 0 <= i < n ==> rs[i] == front[i];
      OkPositions(front) + (if rs[n].Ok? then [n] else [])
  }

  /** Value `k` is the result at the `k`-th successful position: nothing is reordered,
      duplicated or dropped. */
  lemma {:induction false} OksAtOkPositions<T, E>(rs: seq<Result<T, E>>)
    ensures |Oks(rs)| == |OkPositions(rs)|
    ensures forall k :: 0 <= k < |Oks(rs)| ==> Oks(rs)[k] == rs[OkPositions(rs)[k]].value
    decreases |rs|
  {
    if |rs| > 0 {
      var n := |rs| - 1;
      var front := rs[..n];
      OksAtOkPositions(front);
      assert forall i :: 0 <= i < n ==> rs[i] == front[i];
    }
  }

  /** The constructor applied to every line. */
  function ParseEach(lines: seq<string>, readFloat: FloatReader): (rs: seq<Result<Record, ParseError>>)
    ensures |rs| == |lines|
    ensures forall k :: 0 <= k < |lines| ==> rs[k] == Parse(lines[k], readFloat)
  {
    seq(|lines|, k requires 0 <= k < |lines| => Parse(lines[k], readFloat))
  }

  /** The records of `lines` whose construction succeeds, in order. */
  function ParseAll(lines: seq<string>, readFloat: FloatReader): (recs: seq<Record>)
    ensures |recs| <= |lines|
  {
    Oks(ParseEach(lines, readFloat))
  }

  /** Record `k` is parsed from the `k`-th accepted line, and every accepted line yields
      one: the records are exactly those of the accepted lines, in line order. */
  lemma ParseAllInOrder(lines: seq<string>, readFloat: FloatReader)
    ensures var ps := OkPositions(ParseEach(lines, readFloat));
            && |ParseAll(lines, readFloat)| == |ps|
            && (forall k :: 0 <= k < |ps| ==>
                  ps[k] < |lines| && Parse(lines[ps[k]], readFloat) == Ok(ParseAll(lines, readFloat)[k]))
            && (forall i :: 0 <= i < |lines| && Parse(lines[i], readFloat).Ok? ==> i in ps)
  {
    OksAtOkPositions(ParseEach(lines, readFloat));
  }

  /** Every record comes from a line of the input, and re-parsing that line gives it back. */
  lemma ParseAllSound(lines: seq<string>, readFloat: FloatReader)
    ensures forall rec :: rec in ParseAll(lines, readFloat) ==>
              rec.orgData in lines && Parse(rec.orgData, readFloat) == Ok(rec)
  {
    ParseAllInOrder(lines, readFloat);
    var recs := ParseAll(lines, readFloat);
    var ps := OkPositions(ParseEach(lines, readFloat));
    forall rec | rec in recs
      ensures rec.orgData in lines && Parse(rec.orgData, readFloat) == Ok(rec)
    {
      var k :| 0 <= k < |recs| && recs[k] == rec;
      assert Parse(lines[ps[k]], readFloat) == Ok(rec);
    }
  }

  /** `load_pdb_file`: the file's lines as `load_file_to_list_str` returns them (trailing
      `\r`/`\n` removed, nothing dropped), filtered through the constructor; a `ValueError`
      drops the line and never escapes. */
  function LoadPdbFile(rawLines: seq<string>, readFloat: FloatReader): (recs: seq<Record>)
    ensures |recs| <= |rawLines|
    ensures forall rec :: rec in recs ==> WellFormed(rec) && rec.orgData == rec.data
    ensures forall rec :: rec in recs ==>
              rec.orgData in FileLib.LoadLines(rawLines, false) && Parse(rec.orgData, readFloat) == Ok(rec)
    ensures var lines := FileLib.LoadLines(rawLines, false);
            forall i :: 0 <= i < |lines| && Parse(lines[i], readFloat).Ok? ==>
              Parse(lines[i], readFloat).value in recs
  {
    var lines := FileLib.LoadLines(rawLines, false);
    ParseAllSound(lines, readFloat);
    ParseAllKeeps(lines, readFloat);
    ParseAll(lines, readFloat)
  }

  /** Every line the constructor accepts contributes its record. */
  lemma ParseAllKeeps(lines: seq<string>, readFloat: FloatReader)
    ensures forall i :: 0 <= i < |lines| && Parse(lines[i], readFloat).Ok? ==>
              Parse(lines[i], readFloat).value in ParseAll(lines, readFloat)
  {
    ParseAllInOrder(lines, readFloat);
    var ps := OkPositions(ParseEach(lines, readFloat));
    forall i | 0 <= i < |lines| && Parse(lines[i], readFloat).Ok?
      ensures Parse(lines[i], readFloat).value in ParseAll(lines, readFloat)
    {
      assert i in ps;
      var k :| 0 <= k < |ps| && ps[k] == i;
      assert Parse(lines[ps[k]], readFloat) == Ok(ParseAll(lines, readFloat)[k]);
    }
  }
}
