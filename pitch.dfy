/**
 * The pure helpers of the fretboard note trainer: the standard tuning, the
 * two 12-entry chromatic tables, the pitch under a fret, the enharmonic
 * answer comparator and the notation-dependent display of a note.
 */
module Pitch {
  import opened JsStrings
  import opened Wrappers

  /** Open strings from the 1st (high E) to the 6th (low E). */
  const StandardTuning: seq<string> := ["E", "B", "G", "D", "A", "E"]
  const ChromaticScale: seq<string> :=
    ["C", "C#", "D", "D#", "E", "F", "F#", "G", "G#", "A", "A#", "B"]
  const ChromaticScaleFlats: seq<string> :=
    ["C", "Db", "D", "Eb", "E", "F", "Gb", "G", "Ab", "A", "Bb", "B"]

  /** `table.findIndex(n => n === x)`: the first position of `x`, or -1. */
  function FindIndex(table: seq<string>, x: string): (i: int)
    ensures -1 <= i < |table|
    ensures i == -1 <==> x !in table
    ensures 0 <= i ==> table[i] == x && x !in table[..i]
  {
    FindFrom(table, x, 0)
  }

  function FindFrom(table: seq<string>, x: string, from: nat): (i: int)
    requires from <= |table|
    requires x !in table[..from]
    ensures -1 <= i < |table|
    ensures i == -1 <==> x !in table
    ensures 0 <= i ==> table[i] == x && x !in table[..i]
    decreases |table| - from
  {
    if from == |table| then (assert table[..from] == table; -1)
    else if table[from] == x then from
    else (assert table[..from + 1] == table[..from] + [table[from]]; FindFrom(table, x, from + 1))
  }

  /** JavaScript's `%`, whose result takes the sign of the dividend. */
  function JsRem(a: int, b: int): (r: int)
    requires b > 0
    ensures a >= 0 ==> r == a % b
    ensures -b < r < b
  {
    if a >= 0 then a % b else -((-a) % b)
  }

  /** `table[i]`, which is `undefined` outside the table. */
  function At(table: seq<string>, i: int): Option<string>
  {
    if 0 <= i < |table| then Some(table[i]) else None
  }

  /** `getNoteAtFret(startNote, fret)`. */
  function NoteAtFret(startNote: string, fret: int): (note: Option<string>)
  {
    At(ChromaticScale, JsRem(FindIndex(ChromaticScale, startNote) + fret, 12))
  }

  // ----- pitch classes --------------------------------------------------------

  /** A single spelling from either chromatic table. */
  predicate IsSpelling(x: string) {
    x in ChromaticScale || x in ChromaticScaleFlats
  }

  /** The pitch class of a natural note letter, C = 0; -1 for other characters. */
  function LetterPitch(c: char): int {
    match c
    case 'C' => 0
    case 'D' => 2
    case 'E' => 4
    case 'F' => 5
    case 'G' => 7
    case 'A' => 9
    case 'B' => 11
    case _ => -1
  }

  /** The semitone shift of an accidental suffix. */
  function Alteration(suffix: string): int {
    if suffix == "#" then 1 else if suffix == "b" then -1 else 0
  }

  /** The pitch class 0..11 a spelling names: its letter moved by its accidental. */
  function PitchClass(x: string): (p: nat)
    requires |x| >= 1
    ensures p < 12
  {
    (LetterPitch(x[0]) + Alteration(x[1..])) % 12
  }

  /** Both tables spell the twelve pitch classes in order, C = 0. */
  lemma PitchClassOfTables(p: nat)
    requires p < 12
    ensures PitchClass(ChromaticScale[p]) == p
    ensures PitchClass(ChromaticScaleFlats[p]) == p
  {
    SharpTableClass(p);
    FlatTableClass(p);
  }

  lemma SharpTableClass(p: nat)
    requires p < 12
    ensures PitchClass(ChromaticScale[p]) == p
  {
  }

  lemma FlatTableClass(p: nat)
    requires p < 12
    ensures PitchClass(ChromaticScaleFlats[p]) == p
  {
  }

  /** A table spelling is the sharp-table or flat-table entry of its pitch class. */
  lemma SpellingOfClass(x: string)
    requires IsSpelling(x)
    ensures |x| >= 1
    ensures x == ChromaticScale[PitchClass(x)] || x == ChromaticScaleFlats[PitchClass(x)]
  {
    if x in ChromaticScale {
      var i := FindIndex(ChromaticScale, x);
      PitchClassOfTables(i);
    } else {
      var i := FindIndex(ChromaticScaleFlats, x);
      PitchClassOfTables(i);
    }
  }

  /** Every open string of the standard tuning is in the sharp table. */
  lemma TuningInTable(i: nat)
    requires i < |StandardTuning|
    ensures StandardTuning[i] in ChromaticScale
  {
  }

  /**
   * For an open string spelled in the sharp table the lookup is modular
   * addition of frets to its pitch class, and always yields a sharp-table
   * spelling.
   */
  lemma NoteAtFretIsModular(startNote: string, fret: nat)
    requires startNote in ChromaticScale
    ensures NoteAtFret(startNote, fret).Some?
    ensures var n := NoteAtFret(startNote, fret).value;
      n in ChromaticScale && PitchClass(n) == (PitchClass(startNote) + fret) % 12
  {
    NoteAtFretOfTable(startNote, fret);
    var k := (PitchClass(startNote) + fret) % 12;
    SharpTableClass(k);
  }

  /** The lookup reads the sharp table at the open string's class plus the fret, modulo 12. */
  lemma NoteAtFretOfTable(startNote: string, fret: nat)
    requires startNote in ChromaticScale
    ensures |startNote| >= 1
    ensures NoteAtFret(startNote, fret) == Some(ChromaticScale[(PitchClass(startNote) + fret) % 12])
  {
    IndexIsPitchClass(startNote);
    var k := (PitchClass(startNote) + fret) % 12;
    assert JsRem(FindIndex(ChromaticScale, startNote) + fret, 12) == k;
  }

  /** A sharp-table spelling sits at the index of its pitch class. */
  lemma IndexIsPitchClass(x: string)
    requires x in ChromaticScale
    ensures |x| >= 1 && FindIndex(ChromaticScale, x) == PitchClass(x)
  {
    PitchClassOfTables(FindIndex(ChromaticScale, x));
  }

  /** The fretboard repeats every 12 frets. */
  lemma {:induction false} NoteAtFretPeriodic(startNote: string, fret: nat)
    requires startNote in ChromaticScale
    ensures NoteAtFret(startNote, fret + 12) == NoteAtFret(startNote, fret)
  {
    var i := FindIndex(ChromaticScale, startNote);
    assert (i + fret + 12) % 12 == (i + fret) % 12;
  }

  /**
   * An open string not spelled in the sharp table (a flat spelling, say)
   * is looked up as position -1: at fret 0 the result is `undefined`, and at
   * higher frets it is one semitone below the natural reading.
   */
  lemma UnknownOpenString(startNote: string, fret: int)
    requires startNote !in ChromaticScale && fret >= 0
    ensures fret == 0 ==> NoteAtFret(startNote, fret) == None
    ensures fret >= 1 ==> NoteAtFret(startNote, fret) == Some(ChromaticScale[(fret - 1) % 12])
  {
  }

  // ----- the enharmonic comparator ---------------------------------------------

  /** `extractNotes`: a combined token "C#/Db" becomes its parts. */
  function ExtractNotes(note: string): (notes: seq<string>)
    ensures |notes| >= 1 && Join(notes, '/') == note
    ensures forall i :: 0 <= i < |notes| ==> '/' !in notes[i]
  {
    if '/' in note then (JoinSplit(note, '/'); Split(note, '/')) else [note]
  }

  /** The ten-entry table of enharmonic pairs. */
  const EnharmonicMap: map<string, seq<string>> := map[
    "C#" := ["C#", "Db"], "Db" := ["C#", "Db"],
    "D#" := ["D#", "Eb"], "Eb" := ["D#", "Eb"],
    "F#" := ["F#", "Gb"], "Gb" := ["F#", "Gb"],
    "G#" := ["G#", "Ab"], "Ab" := ["G#", "Ab"],
    "A#" := ["A#", "Bb"], "Bb" := ["A#", "Bb"]
  ]

  /** `enharmonicMap[a] && enharmonicMap[a].includes(b)`. */
  predicate Listed(a: string, b: string) {
    a in EnharmonicMap && b in EnharmonicMap[a]
  }

  /** Two single tokens match when equal or listed as a pair either way. */
  predicate TokensMatch(u: string, c: string) {
    u == c || Listed(u, c) || Listed(c, u)
  }

  /** `isEnharmonicMatch(userAnswer, correctNote)`. */
  predicate IsEnharmonicMatch(userAnswer: string, correctNote: string) {
    var us := ExtractNotes(userAnswer);
    var cs := ExtractNotes(correctNote);
    (exists i, j :: 0 <= i < |us| && 0 <= j < |cs| && us[i] == cs[j])
    || (exists i, j :: 0 <= i < |us| && 0 <= j < |cs| && (Listed(us[i], cs[j]) || Listed(cs[j], us[i])))
  }

  /** The comparator holds iff some token of each side match. */
  lemma MatchByTokens(userAnswer: string, correctNote: string)
    ensures var us := ExtractNotes(userAnswer);
      var cs := ExtractNotes(correctNote);
      IsEnharmonicMatch(userAnswer, correctNote) <==>
      exists i, j :: 0 <= i < |us| && 0 <= j < |cs| && TokensMatch(us[i], cs[j])
  {
  }

  /** The comparator does not care which side is the answer. */
  lemma MatchSymmetric(a: string, b: string)
    ensures IsEnharmonicMatch(a, b) <==> IsEnharmonicMatch(b, a)
  {
    MatchByTokens(a, b);
    MatchByTokens(b, a);
  }

  /** A token without a slash is its own single part. */
  lemma SingleToken(x: string)
    requires '/' !in x
    ensures ExtractNotes(x) == [x]
  {
  }

  /** Table spellings never contain the combining slash. */
  lemma SpellingHasNoSlash(x: string)
    requires IsSpelling(x)
    ensures '/' !in x
  {
    forall i | 0 <= i < 12
      ensures '/' !in ChromaticScale[i] && '/' !in ChromaticScaleFlats[i]
    {
    }
  }

  /** Every key of the map is a table spelling. */
  lemma EnharmonicKeys(a: string)
    requires a in EnharmonicMap
    ensures IsSpelling(a) && |a| >= 1
  {
  }

  /**
   * Where the tables differ (the five accidentals) both spellings are keys
   * listing that pair; where they agree (the naturals) the spelling is no key.
   */
  lemma EnharmonicTable(p: nat)
    requires p < 12
    ensures ChromaticScale[p] != ChromaticScaleFlats[p] ==>
      && ChromaticScale[p] in EnharmonicMap && ChromaticScaleFlats[p] in EnharmonicMap
      && EnharmonicMap[ChromaticScale[p]] == [ChromaticScale[p], ChromaticScaleFlats[p]]
      && EnharmonicMap[ChromaticScaleFlats[p]] == [ChromaticScale[p], ChromaticScaleFlats[p]]
    ensures ChromaticScale[p] == ChromaticScaleFlats[p] ==> ChromaticScale[p] !in EnharmonicMap
  {
  }

  /**
   * Each key of the map is an accidental, and its entry lists that pitch
   * class's sharp-table and flat-table spellings, which differ.
   */
  lemma EnharmonicEntry(a: string)
    requires a in EnharmonicMap
    ensures IsSpelling(a) && |a| >= 1
    ensures var p := PitchClass(a);
      EnharmonicMap[a] == [ChromaticScale[p], ChromaticScaleFlats[p]]
      && ChromaticScale[p] != ChromaticScaleFlats[p]
  {
    EnharmonicKeys(a);
    SpellingOfClass(a);
    EnharmonicTable(PitchClass(a));
  }

  /** A spelling outside the map is a natural: both tables agree on its class. */
  lemma NaturalSpelling(a: string)
    requires IsSpelling(a) && a !in EnharmonicMap
    ensures |a| >= 1 && ChromaticScale[PitchClass(a)] == ChromaticScaleFlats[PitchClass(a)]
  {
    SpellingOfClass(a);
  }

  /** The map pairs exactly the two spellings of each of the five accidentals. */
  lemma ListedIsSamePitch(a: string, b: string)
    requires IsSpelling(a) && IsSpelling(b)
    ensures Listed(a, b) <==> a in EnharmonicMap && PitchClass(a) == PitchClass(b)
  {
    SpellingOfClass(b);
    PitchClassOfTables(PitchClass(b));
    if a in EnharmonicMap {
      EnharmonicEntry(a);
      PitchClassOfTables(PitchClass(a));
    }
  }

  /**
   * On single spellings from the two tables the comparator is exactly
   * equality of pitch class: it accepts the other spelling of an accidental
   * and nothing else.
   */
  lemma SingleSpellingsMatch(a: string, b: string)
    requires IsSpelling(a) && IsSpelling(b)
    ensures IsEnharmonicMatch(a, b) <==> PitchClass(a) == PitchClass(b)
  {
    SpellingHasNoSlash(a);
    SpellingHasNoSlash(b);
    SingleToken(a);
    SingleToken(b);
    MatchByTokens(a, b);
    SamePitchTokens(a, b);
  }

  /** Two table spellings are equal or listed as a pair exactly when they share a pitch class. */
  lemma SamePitchTokens(a: string, b: string)
    requires IsSpelling(a) && IsSpelling(b)
    ensures TokensMatch(a, b) <==> PitchClass(a) == PitchClass(b)
  {
    ListedIsSamePitch(a, b);
    ListedIsSamePitch(b, a);
    SpellingOfClass(a);
    SpellingOfClass(b);
    if PitchClass(a) == PitchClass(b) && a !in EnharmonicMap && b !in EnharmonicMap {
      NaturalSpelling(a);
    }
  }

  /**
   * A combined token "x/y" is a set of two legal answers: it matches
   * whatever x or y matches.
   */
  lemma CombinedToken(x: string, y: string, other: string)
    requires '/' !in x && '/' !in y
    ensures IsEnharmonicMatch(x + "/" + y, other) <==>
      IsEnharmonicMatch(x, other) || IsEnharmonicMatch(y, other)
  {
    var xy := x + "/" + y;
    assert Join([x, y], '/') == xy;
    SplitJoin([x, y], '/');
    assert '/' in xy by { assert xy[|x|] == '/'; }
    assert ExtractNotes(xy) == [x, y];
    SingleToken(x);
    SingleToken(y);
    MatchByTokens(xy, other);
    MatchByTokens(x, other);
    MatchByTokens(y, other);
  }

  // ----- display ---------------------------------------------------------------

  /** The user's notation preference; any value other than sharps or flats is "both". */
  datatype Notation = Sharps | Flats | Both

  const SharpMap: map<string, string> :=
    map["Db" := "C#", "Eb" := "D#", "Gb" := "F#", "Ab" := "G#", "Bb" := "A#"]
  const FlatMap: map<string, string> :=
    map["C#" := "Db", "D#" := "Eb", "F#" := "Gb", "G#" := "Ab", "A#" := "Bb"]
  const BothMap: map<string, string> := map[
    "C#" := "C#/Db", "Db" := "C#/Db",
    "D#" := "D#/Eb", "Eb" := "D#/Eb",
    "F#" := "F#/Gb", "Gb" := "F#/Gb",
    "G#" := "G#/Ab", "Ab" := "G#/Ab",
    "A#" := "A#/Bb", "Bb" := "A#/Bb"
  ]

  /** `formatNote(note)`: a note as shown under the chosen notation. */
  function FormatNote(note: string, notation: Notation): string {
    match notation
    case Sharps => if note in SharpMap then SharpMap[note] else note
    case Flats => if note in FlatMap then FlatMap[note] else note
    case Both => if note in BothMap then BothMap[note] else note
  }

  /** How the notation spells pitch class p. */
  function Spell(p: nat, notation: Notation): string
    requires p < 12
  {
    match notation
    case Sharps => ChromaticScale[p]
    case Flats => ChromaticScaleFlats[p]
    case Both =>
      if ChromaticScale[p] == ChromaticScaleFlats[p] then ChromaticScale[p]
      else ChromaticScale[p] + "/" + ChromaticScaleFlats[p]
  }

  /**
   * On the table spellings, formatting respells by pitch class: sharps mode
   * gives the sharp-table spelling, flats mode the flat-table one, and both
   * mode "X#/Yb" for the five accidentals.
   */
  lemma FormatRespells(note: string, notation: Notation)
    requires IsSpelling(note)
    ensures FormatNote(note, notation) == Spell(PitchClass(note), notation)
  {
    SpellingOfClass(note);
    var p := PitchClass(note);
    match notation
    case Sharps => SharpRespelling(p);
    case Flats => FlatRespelling(p);
    case Both => BothRespelling(p);
  }

  lemma SharpRespelling(p: nat)
    requires p < 12
    ensures FormatNote(ChromaticScale[p], Sharps) == ChromaticScale[p]
    ensures FormatNote(ChromaticScaleFlats[p], Sharps) == ChromaticScale[p]
  {
  }

  lemma FlatRespelling(p: nat)
    requires p < 12
    ensures FormatNote(ChromaticScale[p], Flats) == ChromaticScaleFlats[p]
    ensures FormatNote(ChromaticScaleFlats[p], Flats) == ChromaticScaleFlats[p]
  {
  }

  lemma BothRespelling(p: nat)
    requires p < 12
    ensures FormatNote(ChromaticScale[p], Both) == Spell(p, Both)
    ensures FormatNote(ChromaticScaleFlats[p], Both) == Spell(p, Both)
  {
  }

  /** Whatever the notation, the displayed note names the same pitch. */
  lemma FormatNamesSamePitch(note: string, notation: Notation)
    ensures IsEnharmonicMatch(FormatNote(note, notation), note)
  {
    var f := FormatNote(note, notation);
    if f == note {
      SelfMatch(note);
    } else {
      assert note in EnharmonicMap;
      EnharmonicEntry(note);
      FormatRespells(note, notation);
      var p := PitchClass(note);
      PitchClassOfTables(p);
      match notation
      case Sharps =>
        SingleSpellingsMatch(ChromaticScale[p], note);
      case Flats =>
        SingleSpellingsMatch(ChromaticScaleFlats[p], note);
      case Both =>
        SpellingHasNoSlash(ChromaticScale[p]);
        SpellingHasNoSlash(ChromaticScaleFlats[p]);
        CombinedToken(ChromaticScale[p], ChromaticScaleFlats[p], note);
        SingleSpellingsMatch(ChromaticScale[p], note);
    }
  }

  /** Any answer matches itself. */
  lemma SelfMatch(x: string)
    ensures IsEnharmonicMatch(x, x)
  {
    var us := ExtractNotes(x);
    assert us[0] == us[0];
  }

  // ----- the answer options ------------------------------------------------------

  /** The twelve options offered to the user, from A upwards. */
  function NoteList(notation: Notation): (options: seq<string>)
    ensures |options| == 12
  {
    match notation
    case Sharps => ["A", "A#", "B", "C", "C#", "D", "D#", "E", "F", "F#", "G", "G#"]
    case Flats => ["A", "Bb", "B", "C", "Db", "D", "Eb", "E", "F", "Gb", "G", "Ab"]
    case Both => ["A", "A#/Bb", "B", "C", "C#/Db", "D", "D#/Eb", "E", "F", "F#/Gb", "G", "G#/Ab"]
  }

  /** Option k names pitch class k + 9 (mod 12), in the notation's own spelling. */
  lemma NoteListSpells(notation: Notation, k: nat)
    requires k < 12
    ensures NoteList(notation)[k] == Spell((k + 9) % 12, notation)
  {
    var p := if k < 3 then k + 9 else k - 3;
    assert (k + 9) % 12 == p;
    match notation
    case Sharps =>
    case Flats =>
    case Both => BothOptions(k, p);
  }

  lemma BothOptions(k: nat, p: nat)
    requires k < 12 && p == if k < 3 then k + 9 else k - 3
    ensures NoteList(Both)[k] == Spell(p, Both)
  {
  }

  /**
   * Whatever the notation, an option picked for a question whose expected
   * note is a sharp-table spelling is judged correct exactly when it names
   * that pitch class.
   */
  lemma AnswerJudgedByPitch(notation: Notation, k: nat, expected: string)
    requires k < 12 && expected in ChromaticScale
    ensures IsEnharmonicMatch(NoteList(notation)[k], expected) <==> (k + 9) % 12 == PitchClass(expected)
  {
    NoteListSpells(notation, k);
    SpellJudgedByPitch((k + 9) % 12, notation, expected);
  }

  /** A spelling of pitch class p, in any notation, matches a table spelling exactly when it has class p. */
  lemma SpellJudgedByPitch(p: nat, notation: Notation, expected: string)
    requires p < 12 && IsSpelling(expected)
    ensures |expected| >= 1
    ensures IsEnharmonicMatch(Spell(p, notation), expected) <==> p == PitchClass(expected)
  {
    SpellingOfClass(expected);
    PitchClassOfTables(p);
    if notation == Both && ChromaticScale[p] != ChromaticScaleFlats[p] {
      SpellingHasNoSlash(ChromaticScale[p]);
      SpellingHasNoSlash(ChromaticScaleFlats[p]);
      CombinedToken(ChromaticScale[p], ChromaticScaleFlats[p], expected);
      SingleSpellingsMatch(ChromaticScale[p], expected);
      SingleSpellingsMatch(ChromaticScaleFlats[p], expected);
    } else if notation == Flats {
      SingleSpellingsMatch(ChromaticScaleFlats[p], expected);
    } else {
      SingleSpellingsMatch(ChromaticScale[p], expected);
    }
  }

  /** "Ab" is accepted for G#. */
  lemma FlatForSharpExample()
    ensures IsEnharmonicMatch("Ab", "G#")
  {
    assert "Ab" == ChromaticScaleFlats[8] && "G#" == ChromaticScale[8];
    SingleSpellingsMatch("Ab", "G#");
  }

  /** "C#" is accepted for Db. */
  lemma SharpForFlatExample()
    ensures IsEnharmonicMatch("C#", "Db")
  {
    assert "C#" == ChromaticScale[1] && "Db" == ChromaticScaleFlats[1];
    SingleSpellingsMatch("C#", "Db");
  }

  /** "C#" is not accepted for D. */
  lemma NeighbourRejectedExample()
    ensures !IsEnharmonicMatch("C#", "D")
  {
    assert "C#" == ChromaticScale[1] && "D" == ChromaticScale[2];
    SingleSpellingsMatch("C#", "D");
  }
}
