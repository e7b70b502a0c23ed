/**
 * The static harmonisation table of the major-key chord trainer
 * (`scalesData`): for each of the 15 major keys the triads on its seven
 * degrees and its key signature, together with the exact-match check of a
 * filled cell (`validateCell`) and the "scale-degree" keys under which the
 * answers are stored.
 */
module ChordTable {
  import opened JsStrings
  import opened Wrappers
  import opened Pitch

  /** One row of the table: the key, its seven triads from I to VII, and its signature ("0", "3#", "2b"...). */
  datatype Scale = Scale(name: string, chords: seq<string>, accidentals: string)

  /** The rows of `scalesData`, one per key, in table order. */
  const RowC: Scale := Scale("C", ["C", "Dm", "Em", "F", "G", "Am", "Bdim"], "0")
  const RowG: Scale := Scale("G", ["G", "Am", "Bm", "C", "D", "Em", "F#dim"], "1#")
  const RowD: Scale := Scale("D", ["D", "Em", "F#m", "G", "A", "Bm", "C#dim"], "2#")
  const RowA: Scale := Scale("A", ["A", "Bm", "C#m", "D", "E", "F#m", "G#dim"], "3#")
  const RowE: Scale := Scale("E", ["E", "F#m", "G#m", "A", "B", "C#m", "D#dim"], "4#")
  const RowB: Scale := Scale("B", ["B", "C#m", "D#m", "E", "F#", "G#m", "A#dim"], "5#")
  const RowFSharp: Scale := Scale("F#", ["F#", "G#m", "A#m", "B", "C#", "D#m", "E#dim"], "6#")
  const RowCSharp: Scale := Scale("C#", ["C#", "D#m", "E#m", "F#", "G#", "A#m", "B#dim"], "7#")
  const RowF: Scale := Scale("F", ["F", "Gm", "Am", "Bb", "C", "Dm", "Edim"], "1b")
  const RowBFlat: Scale := Scale("Bb", ["Bb", "Cm", "Dm", "Eb", "F", "Gm", "Adim"], "2b")
  const RowEFlat: Scale := Scale("Eb", ["Eb", "Fm", "Gm", "Ab", "Bb", "Cm", "Ddim"], "3b")
  const RowAFlat: Scale := Scale("Ab", ["Ab", "Bbm", "Cm", "Db", "Eb", "Fm", "Gdim"], "4b")
  const RowDFlat: Scale := Scale("Db", ["Db", "Ebm", "Fm", "Gb", "Ab", "Bbm", "Cdim"], "5b")
  const RowGFlat: Scale := Scale("Gb", ["Gb", "Abm", "Bbm", "Cb", "Db", "Ebm", "Fdim"], "6b")
  const RowCFlat: Scale := Scale("Cb", ["Cb", "Dbm", "Ebm", "Fb", "Gb", "Abm", "Bbdim"], "7b")

  /**
   * The C flat row as the page writes it: its leading-tone triad is
   * "Bdim", although the seventh degree of C flat major is B flat.
   */
  const RowCFlatAsWritten: Scale := Scale("Cb", ["Cb", "Dbm", "Ebm", "Fb", "Gb", "Abm", "Bdim"], "7b")

  /** `scalesData` with the C flat row corrected; the rest of the model uses this table. */
  const ScalesData: seq<Scale> := [
    RowC,
    RowG,
    RowD,
    RowA,
    RowE,
    RowB,
    RowFSharp,
    RowCSharp,
    RowF,
    RowBFlat,
    RowEFlat,
    RowAFlat,
    RowDFlat,
    RowGFlat,
    RowCFlat
  ]

  /** `scalesData` as the page writes it. */
  const ScalesDataAsWritten: seq<Scale> := ScalesData[14 := RowCFlatAsWritten]

  /** `Object.keys(scalesData)`: the keys in table order. */
  const ScaleNames: seq<string> :=
    ["C", "G", "D", "A", "E", "B", "F#", "C#", "F", "Bb", "Eb", "Ab", "Db", "Gb", "Cb"]

  // ----- the shape of a row -------------------------------------------------------

  datatype Quality = Major | Minor | Diminished

  /** The column headers: major on I, IV and V, minor on II, III and VI, diminished on VII. */
  const DegreeQuality: seq<Quality> := [Major, Minor, Minor, Major, Major, Minor, Diminished]

  /** The header row of steps T T S T T T: semitones from the key note to each degree. */
  const MajorSteps: seq<nat> := [0, 2, 4, 5, 7, 9, 11]

  /** The chord name ends in "dim". */
  predicate DimSuffix(chord: string) {
    |chord| >= 3 && chord[|chord| - 3] == 'd' && chord[|chord| - 2] == 'i' && chord[|chord| - 1] == 'm'
  }

  /** The chord name ends in "m" but not in "dim". */
  predicate MinorSuffix(chord: string) {
    !DimSuffix(chord) && |chord| >= 1 && chord[|chord| - 1] == 'm'
  }

  /** The quality a chord name's suffix spells: "dim", "m" or none. */
  function QualityOf(chord: string): Quality {
    if DimSuffix(chord) then Diminished else if MinorSuffix(chord) then Minor else Major
  }

  /** The length of the root: the name without its quality suffix. */
  function RootLength(chord: string): (n: nat)
    ensures n <= |chord|
  {
    if DimSuffix(chord) then |chord| - 3 else if MinorSuffix(chord) then |chord| - 1 else |chord|
  }

  /** The root of a chord name: the name without its quality suffix. */
  function Root(chord: string): (root: string)
    ensures |root| == RootLength(chord) && root == chord[..|root|]
  {
    chord[..RootLength(chord)]
  }

  /** The pitch class the root of a chord names, read letter by letter. */
  function RootPitch(chord: string): (p: nat)
    requires RootLength(chord) >= 1
    ensures p < 12
  {
    (LetterPitch(chord[0]) + if RootLength(chord) == 2 then Alteration([chord[1]]) else 0) % 12
  }

  /** Read letter by letter, the root's pitch is the pitch class of the root spelling. */
  lemma RootPitchIsPitchClass(chord: string)
    requires RootLength(chord) >= 1
    ensures RootPitch(chord) == PitchClass(Root(chord))
  {
    var root := Root(chord);
    assert root[0] == chord[0];
    if RootLength(chord) == 2 {
      assert root[1..] == [chord[1]];
    }
  }

  /** The position of a note letter in C D E F G A B. */
  function LetterIndex(c: char): int {
    match c
    case 'C' => 0
    case 'D' => 1
    case 'E' => 2
    case 'F' => 3
    case 'G' => 4
    case 'A' => 5
    case 'B' => 6
    case _ => -1
  }

  /**
   * The chord on degree d of a row starting with `tonic`: its root is the
   * d-th letter after the tonic's letter, sounds MajorSteps[d] semitones
   * above the tonic, and its suffix has the quality of that degree.
   */
  predicate DegreeFits(tonic: string, chord: string, d: nat)
    requires d < 7
  {
    && RootLength(tonic) >= 1 && RootLength(chord) >= 1
    && LetterIndex(chord[0]) == (LetterIndex(tonic[0]) + d) % 7
    && RootPitch(chord) == (RootPitch(tonic) + MajorSteps[d]) % 12
    && QualityOf(chord) == DegreeQuality[d]
  }

  /** Every degree from `from` to VII fits the row's tonic. */
  predicate DegreesFit(chords: seq<string>, from: nat)
    requires |chords| == 7
    decreases 7 - from
  {
    from >= 7 || (DegreeFits(chords[0], chords[from], from) && DegreesFit(chords, from + 1))
  }

  /** A row that spells its key correctly: seven chords starting on the key, each fitting its degree. */
  predicate RowFits(s: Scale) {
    |s.chords| == 7 && s.chords[0] == s.name && DegreesFit(s.chords, 0)
  }

  /** The table has 15 rows, named in key order. */
  lemma TableNames()
    ensures |ScalesData| == |ScaleNames| == 15
    ensures forall i :: 0 <= i < |ScalesData| ==> ScalesData[i].name == ScaleNames[i]
  {
  }

  /** Every row of the table spells its key correctly. */
  lemma TableFits()
    ensures forall i :: 0 <= i < |ScalesData| ==> RowFits(ScalesData[i])
  {
    SharpKeysFit();
    FlatKeysFit();
  }

  /** C and the sharp keys. */
  lemma SharpKeysFit()
    ensures forall i :: 0 <= i < 8 ==> RowFits(ScalesData[i])
  {
    RowCFits();
    RowGFits();
    RowDFits();
    RowAFits();
    RowEFits();
    RowBFits();
    RowFSharpFits();
    RowCSharpFits();
  }

  /** The flat keys. */
  lemma FlatKeysFit()
    ensures forall i :: 8 <= i < |ScalesData| ==> RowFits(ScalesData[i])
  {
    RowFFits();
    RowBFlatFits();
    RowEFlatFits();
    RowAFlatFits();
    RowDFlatFits();
    RowGFlatFits();
    RowCFlatFits();
  }

  lemma RowCFits() ensures RowFits(RowC) {}
  lemma RowGFits() ensures RowFits(RowG) {}
  lemma RowDFits() ensures RowFits(RowD) {}
  lemma RowAFits() ensures RowFits(RowA) {}
  lemma RowEFits() ensures RowFits(RowE) {}
  lemma RowBFits() ensures RowFits(RowB) {}
  lemma RowFSharpFits() ensures RowFits(RowFSharp) {}
  lemma RowCSharpFits() ensures RowFits(RowCSharp) {}
  lemma RowFFits() ensures RowFits(RowF) {}
  lemma RowBFlatFits() ensures RowFits(RowBFlat) {}
  lemma RowEFlatFits() ensures RowFits(RowEFlat) {}
  lemma RowAFlatFits() ensures RowFits(RowAFlat) {}
  lemma RowDFlatFits() ensures RowFits(RowDFlat) {}
  lemma RowGFlatFits() ensures RowFits(RowGFlat) {}
  lemma RowCFlatFits() ensures RowFits(RowCFlat) {}

  /** As written, the leading-tone triad of C flat major sits a semitone above the seventh degree. */
  lemma CFlatLeadingToneAsWritten()
    ensures ScalesDataAsWritten[14].name == "Cb" && ScalesDataAsWritten[14].chords[6] == "Bdim"
    ensures !DegreeFits("Cb", "Bdim", 6)
    ensures !RowFits(ScalesDataAsWritten[14])
    ensures forall i :: 0 <= i < 14 ==> ScalesDataAsWritten[i] == ScalesData[i]
  {
    assert RootPitch("Bdim") == 11 && RootPitch("Cb") == 11;
  }

  /** The recursive check of a row, spelled out degree by degree. */
  lemma {:induction false} DegreesFitAll(chords: seq<string>, from: nat)
    requires |chords| == 7 && DegreesFit(chords, from)
    ensures forall d :: from <= d < 7 ==> DegreeFits(chords[0], chords[d], d)
    decreases 7 - from
  {
    if from < 7 {
      DegreesFitAll(chords, from + 1);
    }
  }

  /**
   * The shape of the table: 15 keys in order, each with seven chords of
   * which the first is the key itself; every chord carries the suffix of
   * its column (none on I, IV and V, "m" on II, III and VI, "dim" on VII)
   * and its root is the matching note of the key's major scale.
   */
  lemma TableShape()
    ensures |ScalesData| == |ScaleNames| == 15
    ensures forall i :: 0 <= i < 15 ==>
      ScalesData[i].name == ScaleNames[i] && |ScalesData[i].chords| == 7 && ScalesData[i].chords[0] == ScaleNames[i]
    ensures forall i, d :: 0 <= i < 15 && 0 <= d < 7 ==>
      QualityOf(ScalesData[i].chords[d]) == DegreeQuality[d]
      && DegreeFits(ScalesData[i].chords[0], ScalesData[i].chords[d], d)
  {
    TableNames();
    TableFits();
    forall i | 0 <= i < 15 ensures forall d :: 0 <= d < 7 ==> DegreeFits(ScalesData[i].chords[0], ScalesData[i].chords[d], d) {
      DegreesFitAll(ScalesData[i].chords, 0);
    }
  }

  /** The keys are distinct and none contains a hyphen. */
  lemma ScaleNamesDistinct()
    ensures forall i, j :: 0 <= i < j < |ScaleNames| ==> ScaleNames[i] != ScaleNames[j]
    ensures forall i :: 0 <= i < |ScaleNames| ==> '-' !in ScaleNames[i]
  {
  }

  /** `scalesData[scale].chords`: the row of a key, which starts with the key itself. */
  function ChordsOf(scale: string): (chords: seq<string>)
    requires scale in ScaleNames
    ensures |chords| == 7 && chords[0] == scale
  {
    TableShape();
    ScalesData[FindIndex(ScaleNames, scale)].chords
  }

  /** `scalesData[scale].chords[degree]`. */
  function ChordAt(scale: string, degree: int): string
    requires scale in ScaleNames && 0 <= degree < 7
  {
    ChordsOf(scale)[degree]
  }

  /** Every chord of the table is spelt with a note letter first. */
  lemma ChordLetter(scale: string, degree: int)
    requires scale in ScaleNames && 0 <= degree < 7
    ensures |ChordAt(scale, degree)| >= 1 && LetterIndex(ChordAt(scale, degree)[0]) >= 0
  {
    TableNames();
    TableFits();
    var i := FindIndex(ScaleNames, scale);
    var chords := ScalesData[i].chords;
    assert RowFits(ScalesData[i]);
    DegreesFitAll(chords, 0);
    assert DegreeFits(chords[0], chords[degree], degree);
    assert ChordAt(scale, degree) == chords[degree];
  }

  // ----- validating a cell --------------------------------------------------------

  /** The marks a checked cell may carry after its chord. */
  const CorrectMark: string := " \U{2713}"
  const IncorrectMark: string := " \U{2717}"

  predicate OccursAt(s: string, pat: string, i: nat) {
    i + |pat| <= |s| && s[i..i + |pat|] == pat
  }

  /** The first position at or after `from` where `pat` occurs in `s`. */
  function IndexFrom(s: string, pat: string, from: nat): (r: Option<nat>)
    ensures r.Some? ==> from <= r.value && OccursAt(s, pat, r.value)
    ensures r.Some? ==> forall k :: from <= k < r.value ==> !OccursAt(s, pat, k)
    ensures r.None? ==> forall k :: from <= k ==> !OccursAt(s, pat, k)
    decreases |s| - from
  {
    if from + |pat| > |s| then None
    else if OccursAt(s, pat, from) then Some(from)
    else IndexFrom(s, pat, from + 1)
  }

  /** `s.replace(pat, '')` with a string pattern: removes the first occurrence only. */
  function RemoveFirst(s: string, pat: string): (r: string)
  {
    match IndexFrom(s, pat, 0)
    case Some(i) => s[..i] + s[i + |pat|..]
    case None => s
  }

  /** The chord text of a cell with a correct or incorrect mark removed. */
  function StripMarks(text: string): string {
    RemoveFirst(RemoveFirst(text, CorrectMark), IncorrectMark)
  }

  /** `validateCell`: whether the cell's chord, marks removed, is exactly the table's chord. */
  predicate ValidateCell(text: string, scale: string, degree: int)
    requires scale in ScaleNames && 0 <= degree < 7
  {
    StripMarks(text) == ChordAt(scale, degree)
  }

  /** A pattern starting with a space does not occur in a text without one. */
  lemma NoSpaceNoMark(text: string, pat: string)
    requires ' ' !in text && |pat| >= 1 && pat[0] == ' '
    ensures RemoveFirst(text, pat) == text
  {
    forall k: nat | k + |pat| <= |text| ensures !OccursAt(text, pat, k) {
      assert text[k] in text;
      assert text[k..k + |pat|][0] == text[k];
    }
  }

  /** A chord text without spaces is judged by plain string equality. */
  lemma ValidateCellExact(text: string, scale: string, degree: int)
    requires scale in ScaleNames && 0 <= degree < 7
    requires ' ' !in text
    ensures ValidateCell(text, scale, degree) <==> text == ChordAt(scale, degree)
  {
    NoSpaceNoMark(text, CorrectMark);
    NoSpaceNoMark(text, IncorrectMark);
  }

  /** A chord text followed by the correct mark is judged on the chord alone. */
  lemma ValidateMarkedCell(chord: string, scale: string, degree: int)
    requires scale in ScaleNames && 0 <= degree < 7
    requires ' ' !in chord
    ensures ValidateCell(chord + CorrectMark, scale, degree) <==> chord == ChordAt(scale, degree)
  {
    var text := chord + CorrectMark;
    assert OccursAt(text, CorrectMark, |chord|);
    forall k: nat | k < |chord| ensures !OccursAt(text, CorrectMark, k) {
      assert text[k] == chord[k] && chord[k] in chord;
      assert k + 2 <= |text| ==> text[k..k + 2][0] == text[k];
    }
    assert text[..|chord|] + text[|chord| + 2..] == chord;
    NoSpaceNoMark(chord, IncorrectMark);
  }

  /** Looking a key up by name finds its own row. */
  lemma ChordAtRow(i: nat, degree: int)
    requires i < |ScaleNames| && 0 <= degree < 7
    ensures ChordAt(ScaleNames[i], degree) == ScalesData[i].chords[degree]
  {
    ScaleNamesDistinct();
    var j := FindIndex(ScaleNames, ScaleNames[i]);
    assert ScaleNames[i] in ScaleNames[..j + 1];
  }

  /**
   * There is no enharmonic leniency: the leading-tone cell of B major
   * accepts "A#dim" and rejects every other spelling, "Bbdim" among them,
   * although B flat names the same pitch as A sharp.
   */
  lemma ExactSpellingExample()
    ensures ValidateCell("A#dim", "B", 6)
  {
    BLeadingTone();
    ValidateCellExact("A#dim", "B", 6);
  }

  lemma SameRootPitch()
    ensures RootPitch("A#dim") == RootPitch("Bbdim")
  {
  }

  lemma OtherSpellingRejected(text: string)
    requires ' ' !in text && text != "A#dim"
    ensures !ValidateCell(text, "B", 6)
  {
    BLeadingTone();
    ValidateCellExact(text, "B", 6);
  }

  lemma BLeadingTone()
    ensures ChordAt("B", 6) == "A#dim"
  {
    ChordAtRow(5, 6);
    assert ScalesData[5] == RowB;
  }

  // ----- answer keys --------------------------------------------------------------

  /** The key `scale + '-' + degree` under which a cell's answer is stored. */
  function CellKey(scale: string, degree: nat): string {
    scale + "-" + NatToString(degree)
  }

  /** A key splits at its hyphen into the scale and the degree's digits. */
  lemma CellKeySplits(scale: string, degree: nat)
    requires '-' !in scale
    ensures Split(CellKey(scale, degree), '-') == [scale, NatToString(degree)]
  {
    var digits := NatToString(degree);
    assert '-' !in digits by {
      forall k | 0 <= k < |digits| ensures digits[k] != '-' {
        assert IsDigit(digits[k]);
      }
    }
    SplitNoSep(digits, '-');
    SplitAppend(scale, '-', digits);
    assert CellKey(scale, degree) == scale + ['-'] + digits;
  }

  /** Distinct cells have distinct keys, for scale names without a hyphen. */
  lemma CellKeyInjective(scale1: string, degree1: nat, scale2: string, degree2: nat)
    requires '-' !in scale1 && '-' !in scale2
    ensures CellKey(scale1, degree1) == CellKey(scale2, degree2) <==> scale1 == scale2 && degree1 == degree2
  {
    if CellKey(scale1, degree1) == CellKey(scale2, degree2) {
      CellKeySplits(scale1, degree1);
      CellKeySplits(scale2, degree2);
      ParseNatToString(degree1);
      ParseNatToString(degree2);
    }
  }
}
