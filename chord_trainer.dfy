/**
 * The session of the major-key chord trainer (`MusicTheoryApp`): starting
 * from the start-screen choices, filling cells of the answer table by drop
 * or by menu, removing and clearing answers, checking them, the progress
 * line, the countdown, the quiz that asks for one random cell at a time,
 * and going back to the start screen.
 */
module ChordTrainer {
  import opened Wrappers
  import opened JsStrings
  import opened Clock
  import opened ChordTable
  import opened ChordBank
  import opened ChordCells

  /** Which chords the bank offers: those of every key, or of the selected keys only. */
  datatype Difficulty = AllChords | SelectedChords
  /** Whether a cell is judged as soon as it is filled, or only on "check". */
  datatype Validation = Instant | Manual
  datatype Practice = FreePractice | QuizPractice
  /** The scale radio buttons: every key, or the ticked checkboxes (one per key, in table order). */
  datatype ScaleMode = AllScales | CustomScales(checked: seq<bool>)
  datatype StartError = NoScaleSelected | InvalidMinutes

  /** The names whose checkbox is ticked, in order. */
  function Ticked(checked: seq<bool>, names: seq<string>): seq<string>
    requires |checked| == |names|
  {
    if names == [] then []
    else
      Ticked(checked[..|checked| - 1], names[..|names| - 1])
      + if checked[|checked| - 1] then [names[|names| - 1]] else []
  }

  /** Exactly the ticked names are collected, without repeats when the names have none. */
  lemma {:induction false} TickedSpec(checked: seq<bool>, names: seq<string>)
    requires |checked| == |names|
    ensures forall x :: x in Ticked(checked, names) ==> x in names
    ensures forall i :: 0 <= i < |names| && checked[i] ==> names[i] in Ticked(checked, names)
    ensures NoDuplicates(names) ==> NoDuplicates(Ticked(checked, names))
  {
    if names != [] {
      var n := |names| - 1;
      TickedSpec(checked[..n], names[..n]);
      assert names == names[..n] + [names[n]];
      forall i | 0 <= i < |names| && checked[i] ensures names[i] in Ticked(checked, names) {
        if i < n {
          assert checked[..n][i] && names[..n][i] == names[i];
        }
      }
      if NoDuplicates(names) {
        LastIsNew(names);
      }
    }
  }

  /** Nothing is collected exactly when no box is ticked. */
  lemma {:induction false} TickedEmpty(checked: seq<bool>, names: seq<string>)
    requires |checked| == |names|
    ensures Ticked(checked, names) == [] <==> forall i :: 0 <= i < |names| ==> !checked[i]
  {
    if names != [] {
      var n := |names| - 1;
      TickedEmpty(checked[..n], names[..n]);
      var init := Ticked(checked[..n], names[..n]);
      var all := Ticked(checked, names);
      assert all == init + if checked[n] then [names[n]] else [];
      if forall i :: 0 <= i < |names| ==> !checked[i] {
        forall i | 0 <= i < n ensures !checked[..n][i] {
          assert checked[..n][i] == checked[i];
        }
      } else {
        var j :| 0 <= j < |names| && checked[j];
        if j < n {
          assert checked[..n][j];
          assert |all| >= |init| > 0;
        }
      }
    }
  }

  /** The keys a start selects. */
  function ScalesChosen(mode: ScaleMode): seq<string>
    requires mode.CustomScales? ==> |mode.checked| == |ScaleNames|
  {
    match mode
    case AllScales => ScaleNames
    case CustomScales(checked) => Ticked(checked, ScaleNames)
  }

  /** The start checks in the order `startApp` makes them. */
  function StartCheck(mode: ScaleMode, timer: TimerChoice): Option<StartError>
    requires mode.CustomScales? ==> |mode.checked| == |ScaleNames|
  {
    if ScalesChosen(mode) == [] then Some(NoScaleSelected)
    else if !AcceptsTimer(timer) then Some(InvalidMinutes)
    else None
  }

  /**
   * A start fails on an empty custom selection, then on a timer outside
   * 1 to 120 minutes; the chosen keys are always table keys, distinct, and
   * with "all scales" every key.
   */
  lemma StartCheckSpec(mode: ScaleMode, timer: TimerChoice)
    requires mode.CustomScales? ==> |mode.checked| == |ScaleNames|
    ensures StartCheck(mode, timer) == Some(NoScaleSelected) <==>
      mode.CustomScales? && forall i :: 0 <= i < |ScaleNames| ==> !mode.checked[i]
    ensures StartCheck(mode, timer) == Some(InvalidMinutes) <==>
      ScalesChosen(mode) != [] && (timer.Timed? && (timer.minutes.None? || timer.minutes.value < 1 || timer.minutes.value > 120))
    ensures forall s :: s in ScalesChosen(mode) ==> s in ScaleNames
    ensures NoDuplicates(ScalesChosen(mode))
    ensures mode.AllScales? ==> ScalesChosen(mode) == ScaleNames
  {
    ScaleNamesDistinct();
    if mode.CustomScales? {
      TickedSpec(mode.checked, ScaleNames);
      TickedEmpty(mode.checked, ScaleNames);
    }
  }

  /** The minutes a timer choice that passed the check sets: 0 for no timer. */
  function MinutesOf(timer: TimerChoice): int
    requires AcceptsTimer(timer)
  {
    match timer
    case NoTimer => 0
    case Timed(minutes) => minutes.value
  }

  /** The progress figures of a table: its answered cells, all its cells, its cells marked correct. */
  function ProgressOf(scales: seq<string>, answers: map<Cell, string>, marks: map<Cell, bool>): Progress
  {
    var cells := TableCells(scales);
    Progress(CountIn(cells, answers.Keys), 7 * |scales|, CountIn(cells, RightCells(marks)))
  }

  /**
   * The figures `updateProgress` computes (the number of answers, seven
   * cells per key, the number of correct marks) are those of the table:
   * correct <= filled <= total, and the table is full exactly when every
   * cell has an answer.
   */
  lemma ProgressMeaning(scales: seq<string>, answers: map<Cell, string>, marks: map<Cell, bool>)
    requires NoDuplicates(scales)
    requires (forall c :: c in answers ==> InTable(scales, c)) && marks.Keys <= answers.Keys
    ensures ProgressOf(scales, answers, marks) == Progress(|answers|, 7 * |scales|, CorrectCount(marks))
    ensures CorrectCount(marks) <= |answers| <= 7 * |scales|
    ensures |answers| == 7 * |scales| <==> forall c :: InTable(scales, c) ==> c in answers
  {
    TableCounts(scales, answers, marks);
    TableSetMembers(scales);
    TableSetCount(scales);
    assert |answers.Keys| == |answers|;
    SubsetCount(answers.Keys, TableSet(scales));
    SubsetCount(RightCells(marks), answers.Keys);
    if forall c :: InTable(scales, c) ==> c in answers {
      assert answers.Keys == TableSet(scales);
    }
  }

  /**
   * The congratulations appear only when every cell of the table holds a
   * chord that its correct mark judged right, provided each mark judges
   * the chord its cell holds.
   */
  lemma CongratulationsMeaning(scales: seq<string>, answers: map<Cell, string>, marks: map<Cell, bool>)
    requires NoDuplicates(scales) && forall s :: s in scales ==> s in ScaleNames
    requires Judged(scales, answers, marks)
    requires ProgressOf(scales, answers, marks).Congratulates()
    ensures forall c :: InTable(scales, c) ==> c in answers && ValidateCell(answers[c], c.scale, c.degree)
  {
    ProgressMeaning(scales, answers, marks);
    TableSetMembers(scales);
    TableSetCount(scales);
    var right := RightCells(marks);
    assert right <= TableSet(scales);
    SubsetCount(right, TableSet(scales));
    forall c | InTable(scales, c) ensures c in answers && ValidateCell(answers[c], c.scale, c.degree) {
      assert c in TableSet(scales);
      assert c in right;
    }
  }

  /**
   * Answers only for cells of the table, and every mark on an answered cell
   * of a known key, judging the chord that cell holds now.
   */
  predicate Judged(scales: seq<string>, answers: map<Cell, string>, marks: map<Cell, bool>) {
    && (forall c :: c in answers ==> InTable(scales, c))
    && forall c :: c in marks ==>
         c in answers && c.scale in ScaleNames && c.degree < 7
         && marks[c] == ValidateCell(answers[c], c.scale, c.degree)
  }

  /** A chord placed in a cell of the table, with the cell's old mark removed, keeps the answers judged. */
  lemma JudgedPlace(scales: seq<string>, answers: map<Cell, string>, marks: map<Cell, bool>,
                    c: Cell, chord: string)
    requires Judged(scales, answers, marks) && InTable(scales, c)
    ensures Judged(scales, answers[c := chord], marks - {c})
  {
  }

  /**
   * Placing a chord keeps the answers judged, whether the cell's old mark is
   * only removed or the cell is judged at once (which marks it over the old mark).
   */
  lemma JudgedPlaceChord(scales: seq<string>, answers: map<Cell, string>, marks: map<Cell, bool>,
                         c: Cell, chord: string, instant: bool)
    requires Judged(scales, answers, marks) && InTable(scales, c) && c.scale in ScaleNames
    ensures Judged(scales, answers[c := chord],
                   if instant then marks[c := ValidateCell(chord, c.scale, c.degree)] else marks - {c})
  {
    JudgedPlace(scales, answers, marks, c, chord);
    if instant {
      JudgedMark(scales, answers[c := chord], marks - {c}, c);
      RemarkCell(marks, c, ValidateCell(chord, c.scale, c.degree));
    }
  }

  /** Marking an answered cell with the verdict on its chord keeps the answers judged. */
  lemma JudgedMark(scales: seq<string>, answers: map<Cell, string>, marks: map<Cell, bool>, c: Cell)
    requires Judged(scales, answers, marks) && c in answers && c.scale in ScaleNames && c.degree < 7
    ensures Judged(scales, answers, marks[c := ValidateCell(answers[c], c.scale, c.degree)])
  {
  }

  /**
   * Judging the asked-for cell keeps the answers judged, and taking it off
   * the quiz's list leaves only cells of the table on it.
   */
  lemma JudgedQuizCheck(scales: seq<string>, answers: map<Cell, string>, marks: map<Cell, bool>,
                        cells: seq<Cell>, c: Cell)
    requires Judged(scales, answers, marks) && InTable(scales, c) && c.scale in ScaleNames
    ensures c in answers ==> Judged(scales, answers, marks[c := ValidateCell(answers[c], c.scale, c.degree)])
    ensures (forall x :: x in cells ==> InTable(scales, x)) ==>
      forall x :: x in WithoutCell(cells, c) ==> InTable(scales, x)
  {
    if c in answers {
      JudgedMark(scales, answers, marks, c);
    }
    WithoutCellSpec(cells, c);
  }

  /** Marking every answered cell of the table leaves a mark on exactly the answered cells, still judged. */
  lemma JudgedMarkAll(scales: seq<string>, answers: map<Cell, string>, marks0: map<Cell, bool>, marks: map<Cell, bool>)
    requires forall s :: s in scales ==> s in ScaleNames
    requires Judged(scales, answers, marks0)
    requires MarkedCells(TableCells(scales), answers, marks0, marks)
    ensures Judged(scales, answers, marks) && marks.Keys == answers.Keys
  {
    TableCellsComplete(scales);
    forall c | c in answers ensures c in TableCells(scales) {
      assert InTable(scales, c);
    }
    assert marks.Keys == answers.Keys;
  }

  /** Cells losing their answers and marks together keep the answers judged. */
  lemma JudgedRemove(scales: seq<string>, answers: map<Cell, string>, marks: map<Cell, bool>, gone: set<Cell>)
    requires Judged(scales, answers, marks)
    ensures Judged(scales, answers - gone, marks - gone)
  {
  }

  /** A table without answers shows no cell filled and none correct. */
  lemma EmptyProgress(scales: seq<string>)
    ensures ProgressOf(scales, map[], map[]) == Progress(0, 7 * |scales|, 0)
  {
    var none: map<Cell, string> := map[];
    CountInNothing(TableCells(scales));
    assert none.Keys == {};
    assert RightCells(map[]) == {};
  }

  /** Removing a cell's mark and marking it again is marking it over the old mark. */
  lemma RemarkCell(marks: map<Cell, bool>, c: Cell, verdict: bool)
    ensures (marks - {c})[c := verdict] == marks[c := verdict]
    ensures marks[c := verdict][c := verdict] == marks[c := verdict]
  {
    assert ((marks - {c})[c := verdict]).Keys == marks[c := verdict].Keys;
  }

  /** The chords of the given keys' rows, one row after the other, repeats kept. */
  method ConcatRows(names: seq<string>) returns (chords: seq<string>)
    requires forall n :: n in names ==> n in ScaleNames
    ensures chords == Pool(names)
  {
    chords := [];
    for i := 0 to |names|
      invariant chords == Pool(names[..i])
    {
      assert names[..i + 1][..i] == names[..i];
      chords := chords + ChordsOf(names[i]);
    }
    assert names[..|names|] == names;
  }

  /** The keys whose chords the bank offers: every key, or the selected ones only. */
  function BankScales(difficulty: Difficulty, selected: seq<string>): seq<string>
  {
    if difficulty == AllChords then ScaleNames else selected
  }

  /**
   * `buildChordBank`: the chords of the bank's keys without repeats,
   * grouped by first letter, each group sorted.
   */
  method BuildChordBank(difficulty: Difficulty, selected: seq<string>) returns (bank: seq<seq<string>>)
    requires forall n :: n in selected ==> n in ScaleNames
    ensures bank == BankOf(BankScales(difficulty, selected))
  {
    var names := if difficulty == AllChords then ScaleNames else selected;
    var chords := ConcatRows(names);
    chords := Dedup(chords);
    var groups := GroupChordsByNote(chords);
    bank := seq(7, g requires 0 <= g < 7 => SortStrings(groups[g]));
    assert forall g :: 0 <= g < 7 ==> bank[g] == BankOf(names)[g];
  }

  /** The marks after judging every cell of `cells` that holds a chord: the verdict there, the old mark elsewhere. */
  predicate MarkedCells(cells: seq<Cell>, answers: map<Cell, string>, marks0: map<Cell, bool>, marks: map<Cell, bool>)
    requires forall c :: c in cells ==> c.scale in ScaleNames && c.degree < 7
  {
    && marks.Keys == marks0.Keys + (answers.Keys * set c | c in cells)
    && forall c :: c in marks ==>
         marks[c] == if c in answers && c in cells then ValidateCell(answers[c], c.scale, c.degree) else marks0[c]
  }

  /** Judging the zones `cells` in turn: each one holding a chord gets its verdict. */
  method MarkCells(cells: seq<Cell>, answers: map<Cell, string>, marks0: map<Cell, bool>)
    returns (marks: map<Cell, bool>)
    requires forall c :: c in cells ==> c.scale in ScaleNames && c.degree < 7
    ensures MarkedCells(cells, answers, marks0, marks)
  {
    marks := marks0;
    for i := 0 to |cells|
      invariant marks.Keys == marks0.Keys + (answers.Keys * set c | c in cells[..i])
      invariant forall c :: c in marks ==>
        marks[c] == if c in answers && c in cells[..i] then ValidateCell(answers[c], c.scale, c.degree) else marks0[c]
    {
      var c := cells[i];
      assert cells[..i + 1] == cells[..i] + [c];
      if c in answers {
        marks := marks[c := ValidateCell(answers[c], c.scale, c.degree)];
      }
    }
    assert cells[..|cells|] == cells;
  }

  /**
   * The loop of `checkAllAnswers` over the zones of the table: afterwards
   * every answered cell, and only those, carries the mark judging its chord.
   */
  method MarkTable(scales: seq<string>, answers: map<Cell, string>, marks0: map<Cell, bool>)
    returns (marks: map<Cell, bool>)
    requires forall s :: s in scales ==> s in ScaleNames
    requires Judged(scales, answers, marks0)
    ensures Judged(scales, answers, marks) && marks.Keys == answers.Keys
  {
    marks := MarkCells(TableCells(scales), answers, marks0);
    JudgedMarkAll(scales, answers, marks0, marks);
  }

  /** Clearing a row one degree further removes one more cell. */
  lemma RowStep<V>(m: map<Cell, V>, scale: string, d: nat)
    ensures (m - RowUpTo(scale, d)) - {Cell(scale, d)} == m - RowUpTo(scale, d + 1)
    ensures Cell(scale, d) !in m ==> m - RowUpTo(scale, d) == m - RowUpTo(scale, d + 1)
  {
    assert RowUpTo(scale, d + 1) == RowUpTo(scale, d) + {Cell(scale, d)};
  }

  /**
   * The loop of `clearScaleRow`: the seven zones of the row in turn, each
   * holding a chord losing it and its mark.
   */
  method ClearRow(scales: seq<string>, answers0: map<Cell, string>, marks0: map<Cell, bool>, scale: string)
    returns (answers: map<Cell, string>, marks: map<Cell, bool>)
    requires Judged(scales, answers0, marks0)
    ensures answers == answers0 - RowUpTo(scale, 7)
    ensures marks == marks0 - RowUpTo(scale, 7)
    ensures Judged(scales, answers, marks)
  {
    JudgedRemove(scales, answers0, marks0, RowUpTo(scale, 7));
    answers, marks := answers0, marks0;
    for d := 0 to 7
      invariant answers == answers0 - RowUpTo(scale, d)
      invariant marks == marks0 - RowUpTo(scale, d)
    {
      var c := Cell(scale, d);
      RowStep(answers0, scale, d);
      RowStep(marks0, scale, d);
      if c in answers {
        answers := answers - {c};
        marks := marks - {c};
      }
    }
  }

  /** The cells a quiz starts with: the seven degrees of each key, key after key. */
  method CollectCells(scales: seq<string>) returns (cells: seq<Cell>)
    ensures cells == TableCells(scales)
  {
    cells := [];
    for i := 0 to |scales|
      invariant cells == TableCells(scales[..i])
    {
      assert scales[..i + 1][..i] == scales[..i];
      var row := RowCells(scales[i]);
      for d := 0 to 7
        invariant cells == TableCells(scales[..i]) + row[..d]
      {
        assert row[..d + 1] == row[..d] + [Cell(scales[i], d)];
        cells := cells + [Cell(scales[i], d)];
      }
    }
    assert scales[..|scales|] == scales;
  }

  /** The first `n` cells of a row. */
  function RowUpTo(scale: string, n: nat): set<Cell> {
    set d: nat | d < n :: Cell(scale, d)
  }

  class MusicTheoryApp {
    var selectedScales: seq<string>
    var difficulty: Difficulty
    var validation: Validation
    var practiceMode: Practice
    /** `config.timer`: the minutes of a timed session, 0 without a timer. */
    var timerMinutes: int
    /** `userAnswers`: the chord held by each filled cell (the source keys it by `Key(cell)`). */
    var userAnswers: map<Cell, string>
    /** The correct (true) or incorrect (false) class a judged cell carries. */
    var marks: map<Cell, bool>
    /** How many times the table has been built; the drop zones on screen belong to the last build. */
    var table: nat
    var progress: Progress
    var timerSeconds: int
    /** Whether the countdown interval is running. */
    var timerRunning: bool
    var onMainScreen: bool
    var quiz: Quiz

    /** What holds on either screen. */
    predicate Base()
      reads this`selectedScales, this`timerMinutes
    {
      && (forall s :: s in selectedScales ==> s in ScaleNames)
      && NoDuplicates(selectedScales)
      && (timerMinutes == 0 || MinMinutes <= timerMinutes <= MaxMinutes)
    }

    predicate Valid()
      reads this`selectedScales, this`timerMinutes, this`marks, this`userAnswers, this`onMainScreen
      reads this`practiceMode, this`quiz, this`table, this`timerRunning
    {
      && Base()
      && (onMainScreen ==> selectedScales != [] && Judged(selectedScales, userAnswers, marks)
                           && QuizValid() && TimerValid())
    }

    /** A quiz only in quiz practice, over cells of the table, asking for a zone of the current table. */
    predicate QuizValid()
      reads this`selectedScales, this`practiceMode, this`quiz, this`table
    {
      && (practiceMode == FreePractice ==> !quiz.active)
      && (quiz.active ==>
            && (forall c :: c in quiz.availableCells ==> InTable(selectedScales, c))
            && quiz.current.Some? && quiz.current.value.table == table
            && InTable(selectedScales, quiz.current.value.cell))
    }

    /** No countdown in an untimed session. */
    predicate TimerValid()
      reads this`timerMinutes, this`timerRunning
    {
      timerMinutes == 0 ==> !timerRunning
    }

    /** The progress figures of the current answers and marks. */
    function CurrentProgress(): Progress
      reads this`userAnswers, this`selectedScales, this`marks
    {
      ProgressOf(selectedScales, userAnswers, marks)
    }

    /** A quiz just begun: every cell of the table to answer, asking for one on the current table. */
    predicate QuizStarted()
      reads this`quiz, this`selectedScales, this`table
    {
      && quiz.active
      && quiz.availableCells == TableCells(selectedScales)
      && quiz.current.Some? && quiz.current.value.table == table
      && quiz.current.value.cell in quiz.availableCells
    }

    /** The state `buildTable`, `updateProgress` and `initQuizMode` leave. */
    predicate Rebuilt()
      reads this`userAnswers, this`marks, this`selectedScales, this`progress, this`practiceMode
      reads this`quiz, this`table
    {
      && userAnswers == map[] && marks == map[]
      && progress == Progress(0, 7 * |selectedScales|, 0)
      && (practiceMode == QuizPractice ==> QuizStarted())
    }

    constructor()
      ensures Valid() && !onMainScreen
      ensures selectedScales == [] && difficulty == AllChords && validation == Instant
      ensures practiceMode == FreePractice && timerMinutes == 0
      ensures userAnswers == map[] && marks == map[] && timerSeconds == 0 && !timerRunning
      ensures quiz == IdleQuiz
    {
      selectedScales := [];
      difficulty := AllChords;
      validation := Instant;
      practiceMode := FreePractice;
      timerMinutes := 0;
      userAnswers := map[];
      marks := map[];
      table := 0;
      progress := Progress(0, 0, 0);
      timerSeconds := 0;
      timerRunning := false;
      onMainScreen := false;
      quiz := IdleQuiz;
    }

    // ----- starting ------------------------------------------------------------------

    /**
     * `startApp`: checks the choices, then shows a fresh session: the
     * countdown set when timed, an empty table, the bank of the chosen
     * keys, and in quiz practice a quiz over every cell.
     */
    method StartApp(mode: ScaleMode, difficulty': Difficulty, validation': Validation,
                    practice: Practice, timer: TimerChoice) returns (error: Option<StartError>)
      requires Valid() && !onMainScreen
      requires mode.CustomScales? ==> |mode.checked| == |ScaleNames|
      modifies this`selectedScales, this`difficulty, this`validation, this`practiceMode, this`timerMinutes
      modifies this`onMainScreen, this`timerSeconds, this`timerRunning, this`quiz
      modifies this`userAnswers, this`marks, this`table, this`progress
      ensures Valid()
      ensures error == StartCheck(mode, timer)
      ensures selectedScales == ScalesChosen(mode)
      ensures error != Some(NoScaleSelected) ==>
        difficulty == difficulty' && validation == validation' && practiceMode == practice
      ensures error == Some(NoScaleSelected) ==>
        difficulty == old(difficulty) && validation == old(validation) && practiceMode == old(practiceMode)
      ensures error.Some? ==>
        && !onMainScreen && userAnswers == old(userAnswers) && marks == old(marks) && quiz == old(quiz)
        && table == old(table) && progress == old(progress) && timerMinutes == old(timerMinutes)
        && timerRunning == old(timerRunning) && timerSeconds == old(timerSeconds)
      ensures error.None? ==> onMainScreen && timerMinutes == MinutesOf(timer) && Rebuilt() && table == old(table) + 1
      ensures error.None? && timerMinutes > 0 ==> timerRunning && timerSeconds == timerMinutes * 60
      ensures error.None? && timerMinutes == 0 ==> !timerRunning && timerSeconds == old(timerSeconds)
      ensures error.None? && practiceMode == FreePractice ==> !quiz.active
    {
      error := Configure(mode, difficulty', validation', practice, timer);
      if error.None? {
        Launch();
      }
    }

    /**
     * `startApp` as written: the same checks and launch, but a quiz left
     * running from the previous session and a countdown restarted by the
     * reset on the way back are both kept. After a quiz session, a
     * free-practice session then refuses a chord on every zone of its
     * table, and an untimed session can still count down to "time up".
     */
    method StartAppAsWritten(mode: ScaleMode, difficulty': Difficulty, validation': Validation,
                             practice: Practice, timer: TimerChoice) returns (error: Option<StartError>)
      requires Valid() && !onMainScreen
      requires mode.CustomScales? ==> |mode.checked| == |ScaleNames|
      modifies this`selectedScales, this`difficulty, this`validation, this`practiceMode, this`timerMinutes
      modifies this`onMainScreen, this`timerSeconds, this`timerRunning, this`quiz
      modifies this`userAnswers, this`marks, this`table, this`progress
      ensures Base()
      ensures error == StartCheck(mode, timer)
      ensures (error.None? && practice == FreePractice && old(quiz.active) && old(quiz.current).Some?
               && old(quiz.current.value.table) <= old(table)) ==>
        onMainScreen && quiz.active && forall z: Zone :: z.table == table ==> !DropAllowed(quiz, z)
      ensures error.None? && timerMinutes == 0 && old(timerRunning) ==> onMainScreen && timerRunning
    {
      error := Configure(mode, difficulty', validation', practice, timer);
      if error.None? {
        LaunchAsWritten();
      }
    }

    /** The checks and settings of `startApp`, up to the first failing check. */
    method Configure(mode: ScaleMode, difficulty': Difficulty, validation': Validation,
                     practice: Practice, timer: TimerChoice) returns (error: Option<StartError>)
      requires Valid() && !onMainScreen
      requires mode.CustomScales? ==> |mode.checked| == |ScaleNames|
      modifies this`selectedScales, this`difficulty, this`validation, this`practiceMode, this`timerMinutes
      ensures Valid()
      ensures error == StartCheck(mode, timer)
      ensures selectedScales == ScalesChosen(mode)
      ensures error != Some(NoScaleSelected) ==>
        difficulty == difficulty' && validation == validation' && practiceMode == practice
      ensures error == Some(NoScaleSelected) ==>
        difficulty == old(difficulty) && validation == old(validation) && practiceMode == old(practiceMode)
      ensures error.None? ==> timerMinutes == MinutesOf(timer) && selectedScales != []
      ensures error.Some? ==> timerMinutes == old(timerMinutes)
    {
      StartCheckSpec(mode, timer);
      selectedScales := ScalesChosen(mode);
      if selectedScales == [] {
        return Some(NoScaleSelected);
      }
      difficulty := difficulty';
      validation := validation';
      practiceMode := practice;
      if !AcceptsTimer(timer) {
        return Some(InvalidMinutes);
      }
      timerMinutes := MinutesOf(timer);
      error := None;
    }

    /** The launch after the checks, with no countdown left running untimed and no quiz left running in free practice. */
    method Launch()
      requires Valid() && !onMainScreen && selectedScales != []
      modifies this`onMainScreen, this`timerSeconds, this`timerRunning, this`quiz
      modifies this`userAnswers, this`marks, this`table, this`progress
      ensures Valid() && onMainScreen && Rebuilt() && table == old(table) + 1
      ensures timerMinutes > 0 ==> timerRunning && timerSeconds == timerMinutes * 60
      ensures timerMinutes == 0 ==> !timerRunning && timerSeconds == old(timerSeconds)
      ensures practiceMode == FreePractice ==> !quiz.active
    {
      if timerMinutes == 0 {
        StopTimer();
      }
      if practiceMode == FreePractice {
        quiz := IdleQuiz;
      }
      LaunchAsWritten();
    }

    /** The launch as `startApp` writes it: countdown when timed, main screen, table, bank, progress, quiz. */
    method LaunchAsWritten()
      requires Base() && !onMainScreen && selectedScales != []
      modifies this`onMainScreen, this`timerSeconds, this`timerRunning, this`quiz
      modifies this`userAnswers, this`marks, this`table, this`progress
      ensures Base() && onMainScreen && Rebuilt() && table == old(table) + 1
      ensures timerMinutes > 0 ==> timerRunning && timerSeconds == timerMinutes * 60
      ensures timerMinutes == 0 ==> timerRunning == old(timerRunning) && timerSeconds == old(timerSeconds)
      ensures practiceMode == FreePractice ==> quiz == old(quiz)
      ensures (timerMinutes == 0 ==> !timerRunning) && (practiceMode == FreePractice ==> !quiz.active)
        ==> Valid()
    {
      if timerMinutes > 0 {
        StartTimer(timerMinutes);
      }
      onMainScreen := true;
      Rebuild();
    }

    /**
     * The rebuild shared by `startApp` and `resetApp`: `buildTable` makes
     * new, empty drop zones, `updateProgress` then shows nothing filled
     * (a table is never empty, so the countdown goes on), and in quiz
     * practice `initQuizMode` starts a quiz over the new table.
     */
    method Rebuild()
      requires Base() && selectedScales != []
      modifies this`userAnswers, this`marks, this`table, this`progress, this`quiz
      ensures Rebuilt() && table == old(table) + 1
      ensures practiceMode == FreePractice ==> quiz == old(quiz)
      ensures onMainScreen && TimerValid() && (practiceMode == FreePractice ==> !quiz.active) ==> Valid()
    {
      table := table + 1;
      userAnswers := map[];
      marks := map[];
      progress := Progress(0, 7 * |selectedScales|, 0);
      if practiceMode == QuizPractice {
        InitQuizMode();
      }
    }

    // ----- progress and the countdown ---------------------------------------------------

    /**
     * `updateProgress`: the figures of the current answers (the number of
     * correct cells is counted whatever the validation mode), and the
     * countdown stops once every cell is filled.
     */
    method UpdateProgress()
      requires Base() && Judged(selectedScales, userAnswers, marks)
      modifies this`progress, this`timerRunning
      ensures progress == CurrentProgress()
      ensures timerRunning == (old(timerRunning) && progress.filled != progress.total)
      ensures old(Valid()) ==> Valid()
    {
      ProgressMeaning(selectedScales, userAnswers, marks);
      var total := |selectedScales| * 7;
      var filled := |userAnswers|;
      var counted := CorrectCount(marks);
      var correct := if validation == Instant || counted > 0 then counted else 0;
      progress := Progress(filled, total, correct);
      if filled == total {
        StopTimer();
      }
    }

    /** `startTimer`: the countdown starts from the given minutes. */
    method StartTimer(minutes: int)
      modifies this`timerSeconds, this`timerRunning
      ensures timerSeconds == minutes * 60 && timerRunning
    {
      timerSeconds := minutes * 60;
      timerRunning := true;
    }

    method StopTimer()
      modifies this`timerRunning
      ensures !timerRunning
    {
      timerRunning := false;
    }

    /** One second of the countdown: it stops when it reaches zero. */
    method Tick()
      requires timerRunning
      modifies this`timerSeconds, this`timerRunning
      ensures timerSeconds == old(timerSeconds) - 1
      ensures timerRunning <==> timerSeconds > 0
    {
      timerSeconds := timerSeconds - 1;
      if timerSeconds <= 0 {
        StopTimer();
      }
    }

    // ----- filling cells ---------------------------------------------------------------------

    /** `validateCell`: a cell holding a chord gets the mark that judges it. */
    method ValidateZone(c: Cell)
      requires Base() && Judged(selectedScales, userAnswers, marks) && InTable(selectedScales, c)
      modifies this`marks
      ensures Judged(selectedScales, userAnswers, marks)
      ensures old(Valid()) ==> Valid()
      ensures marks == if c in userAnswers
        then old(marks)[c := ValidateCell(userAnswers[c], c.scale, c.degree)]
        else old(marks)
    {
      if c in userAnswers {
        JudgedMark(selectedScales, userAnswers, marks, c);
        marks := marks[c := ValidateCell(userAnswers[c], c.scale, c.degree)];
      }
    }

    /** The chord goes into the cell, replacing any, and loses its old mark; instant validation judges it. */
    method PlaceChord(c: Cell, chord: string)
      requires Valid() && onMainScreen && InTable(selectedScales, c)
      modifies this`userAnswers, this`marks
      ensures Valid()
      ensures userAnswers == old(userAnswers)[c := chord]
      ensures marks == if validation == Instant
        then old(marks)[c := ValidateCell(chord, c.scale, c.degree)]
        else old(marks) - {c}
    {
      JudgedPlaceChord(selectedScales, userAnswers, marks, c, chord, validation == Instant);
      userAnswers := userAnswers[c := chord];
      marks := if validation == Instant then marks[c := ValidateCell(chord, c.scale, c.degree)] else marks - {c};
    }

    /** The part of `addChordToCell` before the quiz check: the chord is placed, then the progress line follows. */
    method FillCell(c: Cell, chord: string)
      requires Valid() && onMainScreen && InTable(selectedScales, c)
      modifies this`userAnswers, this`marks, this`progress, this`timerRunning
      ensures Valid()
      ensures userAnswers == old(userAnswers)[c := chord]
      ensures marks == if validation == Instant
        then old(marks)[c := ValidateCell(chord, c.scale, c.degree)]
        else old(marks) - {c}
      ensures progress == CurrentProgress()
      ensures timerRunning == (old(timerRunning) && progress.filled != progress.total)
    {
      PlaceChord(c, chord);
      UpdateProgress();
    }

    /** What filling a cell leaves, judged against the state before it. */
    predicate Placed(c: Cell, chord: string, answers0: map<Cell, string>, marks0: map<Cell, bool>,
                     quiz0: Quiz, running0: bool)
      reads this`selectedScales, this`userAnswers, this`marks, this`validation, this`progress
      reads this`timerRunning, this`quiz
      requires c.scale in ScaleNames && c.degree < 7
    {
      var verdict := ValidateCell(chord, c.scale, c.degree);
      && userAnswers == answers0[c := chord]
      && marks == (if validation == Instant || quiz0.active then marks0[c := verdict] else marks0 - {c})
      && progress == ProgressOf(selectedScales, userAnswers, if validation == Instant then marks else marks0 - {c})
      && timerRunning == (running0 && progress.filled != progress.total)
      && quiz == (if quiz0.active && chord == ChordAt(c.scale, c.degree)
                  then quiz0.(availableCells := WithoutCell(quiz0.availableCells, c))
                  else quiz0)
    }

    /**
     * `addChordToCell`: the chord chosen from a cell's menu fills it; the
     * progress line follows, and during a quiz the cell is judged and
     * leaves the quiz when its chord is right.
     */
    method AddChordToCell(zone: Zone, chord: string)
      requires Valid() && onMainScreen && zone.table == table && InTable(selectedScales, zone.cell)
      requires DropAllowed(quiz, zone)
      modifies this`userAnswers, this`marks, this`progress, this`timerRunning, this`quiz
      ensures Valid()
      ensures Placed(zone.cell, chord, old(userAnswers), old(marks), old(quiz), old(timerRunning))
    {
      FillCell(zone.cell, chord);
      if quiz.active {
        RemarkCell(old(marks), zone.cell, ValidateCell(chord, zone.cell.scale, zone.cell.degree));
        CheckQuizAnswer(zone.cell);
      }
    }

    /** `handleDrop`: like the menu, except that during a quiz only the asked-for zone takes the chord. */
    method HandleDrop(zone: Zone, chord: string)
      requires Valid() && onMainScreen && zone.table == table && InTable(selectedScales, zone.cell)
      modifies this`userAnswers, this`marks, this`progress, this`timerRunning, this`quiz
      ensures Valid()
      ensures !old(DropAllowed(quiz, zone)) ==>
        userAnswers == old(userAnswers) && marks == old(marks) && quiz == old(quiz)
        && progress == old(progress) && timerRunning == old(timerRunning)
      ensures old(DropAllowed(quiz, zone)) ==>
        Placed(zone.cell, chord, old(userAnswers), old(marks), old(quiz), old(timerRunning))
    {
      if DropAllowed(quiz, zone) {
        AddChordToCell(zone, chord);
      }
    }

    /**
     * A click on a zone followed by a pick from its chord menu. The menu
     * opens only on a zone without a chord (one not marked filled), and
     * during a quiz only on the asked-for zone; the pick then goes through
     * `addChordToCell`.
     */
    method PickFromMenu(zone: Zone, chord: string)
      requires Valid() && onMainScreen && zone.table == table && InTable(selectedScales, zone.cell)
      modifies this`userAnswers, this`marks, this`progress, this`timerRunning, this`quiz
      ensures Valid()
      ensures zone.cell in old(userAnswers) || !old(DropAllowed(quiz, zone)) ==>
        userAnswers == old(userAnswers) && marks == old(marks) && quiz == old(quiz)
        && progress == old(progress) && timerRunning == old(timerRunning)
      ensures zone.cell !in old(userAnswers) && old(DropAllowed(quiz, zone)) ==>
        Placed(zone.cell, chord, old(userAnswers), old(marks), old(quiz), old(timerRunning))
    {
      if zone.cell !in userAnswers && DropAllowed(quiz, zone) {
        AddChordToCell(zone, chord);
      }
    }

    /** `removeChordFromCell`: the cell loses its chord and its mark. */
    method RemoveChordFromCell(zone: Zone)
      requires Valid() && onMainScreen && zone.table == table && InTable(selectedScales, zone.cell)
      modifies this`userAnswers, this`marks, this`progress, this`timerRunning
      ensures Valid()
      ensures userAnswers == old(userAnswers) - {zone.cell}
      ensures marks == old(marks) - {zone.cell}
      ensures zone.cell in old(userAnswers) ==>
        progress == CurrentProgress() && timerRunning == (old(timerRunning) && progress.filled != progress.total)
      ensures zone.cell !in old(userAnswers) ==> progress == old(progress) && timerRunning == old(timerRunning)
    {
      if zone.cell in userAnswers {
        JudgedRemove(selectedScales, userAnswers, marks, {zone.cell});
        userAnswers := userAnswers - {zone.cell};
        marks := marks - {zone.cell};
        UpdateProgress();
      }
    }

    /** `clearScaleRow`: every cell of the row loses its chord and mark; other rows keep theirs. */
    method ClearScaleRow(scale: string)
      requires Valid() && onMainScreen && scale in selectedScales
      modifies this`userAnswers, this`marks, this`progress, this`timerRunning
      ensures Valid()
      ensures userAnswers == old(userAnswers) - RowUpTo(scale, 7)
      ensures marks == old(marks) - RowUpTo(scale, 7)
      ensures forall c: Cell :: c.scale != scale ==> (c in userAnswers <==> c in old(userAnswers))
      ensures progress == CurrentProgress()
      ensures timerRunning == (old(timerRunning) && progress.filled != progress.total)
    {
      userAnswers, marks := ClearRow(selectedScales, userAnswers, marks, scale);
      UpdateProgress();
    }

    /** `checkAllAnswers`: every filled cell of the table gets the mark that judges its chord. */
    method CheckAllAnswers()
      requires Valid() && onMainScreen
      modifies this`marks, this`progress, this`timerRunning
      ensures Valid()
      ensures marks.Keys == userAnswers.Keys
      ensures progress == CurrentProgress()
      ensures timerRunning == (old(timerRunning) && progress.filled != progress.total)
    {
      marks := MarkTable(selectedScales, userAnswers, marks);
      UpdateProgress();
    }

    // ----- the quiz ------------------------------------------------------------------------

    /**
     * `initQuizMode`: every cell of the table is to be answered, and one of
     * them is asked for. The table has at least one key, so the
     * `pickNextQuizCell` that follows always takes its picking branch.
     */
    method InitQuizMode()
      requires selectedScales != []
      modifies this`quiz
      ensures QuizStarted()
    {
      var cells := CollectCells(selectedScales);
      quiz := Quiz(true, quiz.current, cells);
      AskForCell();
    }

    /**
     * `pickNextQuizCell`: with no cell left the quiz ends and the progress
     * line is updated; otherwise a cell still to answer is asked for.
     */
    method PickNextQuizCell()
      requires Base() && Judged(selectedScales, userAnswers, marks)
      modifies this`quiz, this`progress, this`timerRunning
      ensures quiz.availableCells == old(quiz.availableCells)
      ensures old(quiz.availableCells) == [] ==>
        quiz == old(quiz).(active := false) && progress == CurrentProgress()
        && timerRunning == (old(timerRunning) && progress.filled != progress.total)
      ensures old(quiz.availableCells) != [] ==>
        quiz.active == old(quiz.active) && quiz.current.Some? && quiz.current.value.table == table
        && quiz.current.value.cell in quiz.availableCells
        && progress == old(progress) && timerRunning == old(timerRunning)
    {
      if quiz.availableCells == [] {
        quiz := quiz.(active := false);
        UpdateProgress();
      } else {
        AskForCell();
      }
    }

    /** The picking branch of `pickNextQuizCell`: a cell still to answer, chosen at random, on the current table. */
    method AskForCell()
      requires quiz.availableCells != []
      modifies this`quiz
      ensures quiz == old(quiz).(current := quiz.current)
      ensures quiz.current.Some? && quiz.current.value.table == table
      ensures quiz.current.value.cell in quiz.availableCells
    {
      var i :| 0 <= i < |quiz.availableCells|;
      quiz := quiz.(current := Some(Zone(quiz.availableCells[i], table)));
    }

    /** `checkQuizAnswer`: the cell is judged, and leaves the quiz when it holds exactly the table's chord. */
    method CheckQuizAnswer(c: Cell)
      requires Base() && Judged(selectedScales, userAnswers, marks) && InTable(selectedScales, c)
      modifies this`marks, this`quiz
      ensures old(Valid()) ==> Valid()
      ensures marks == if c in userAnswers
        then old(marks)[c := ValidateCell(userAnswers[c], c.scale, c.degree)]
        else old(marks)
      ensures quiz == if c in userAnswers && userAnswers[c] == ChordAt(c.scale, c.degree)
        then old(quiz).(availableCells := WithoutCell(old(quiz).availableCells, c))
        else old(quiz)
    {
      var answered := c in userAnswers;
      var right := answered && userAnswers[c] == ChordAt(c.scale, c.degree);
      JudgedQuizCheck(selectedScales, userAnswers, marks, quiz.availableCells, c);
      marks := if answered then marks[c := ValidateCell(userAnswers[c], c.scale, c.degree)] else marks;
      quiz := if right then quiz.(availableCells := WithoutCell(quiz.availableCells, c)) else quiz;
    }

    // ----- resetting and leaving ---------------------------------------------------------------

    /**
     * `resetApp`: in a timed session only after the user confirms, which
     * restarts the countdown; then the table, bank, progress and quiz are
     * built afresh.
     */
    method ResetApp(confirmed: bool)
      requires Valid() && selectedScales != []
      modifies this`userAnswers, this`marks, this`table, this`progress
      modifies this`timerSeconds, this`timerRunning, this`quiz
      ensures Valid()
      ensures timerMinutes > 0 && !confirmed ==>
        userAnswers == old(userAnswers) && marks == old(marks) && quiz == old(quiz)
        && timerRunning == old(timerRunning) && table == old(table)
        && progress == old(progress) && timerSeconds == old(timerSeconds)
      ensures timerMinutes == 0 || confirmed ==> Rebuilt() && table == old(table) + 1
      ensures timerMinutes > 0 && confirmed ==> timerRunning && timerSeconds == timerMinutes * 60
      ensures timerMinutes == 0 ==> timerRunning == old(timerRunning) && timerSeconds == old(timerSeconds)
      ensures practiceMode == FreePractice ==> quiz == old(quiz)
    {
      if timerMinutes == 0 || confirmed {
        if timerMinutes > 0 {
          StopTimer();
          StartTimer(timerMinutes);
        }
        Rebuild();
      }
    }

    /**
     * `showStartScreen`: the countdown stops, the quiz is cleared and the
     * start screen shows; the reset that follows can restart both.
     */
    method ShowStartScreen(confirmed: bool)
      requires Valid() && onMainScreen
      modifies this`onMainScreen, this`userAnswers, this`marks, this`table
      modifies this`progress, this`timerSeconds, this`timerRunning, this`quiz
      ensures Valid() && !onMainScreen
      ensures timerMinutes > 0 && confirmed ==> timerRunning
      ensures timerMinutes == 0 || !confirmed ==> !timerRunning
      ensures practiceMode == QuizPractice && (timerMinutes == 0 || confirmed) ==> QuizStarted()
      ensures practiceMode == FreePractice || (timerMinutes > 0 && !confirmed) ==> quiz == IdleQuiz
      ensures timerMinutes == 0 || confirmed ==> Rebuilt() && table == old(table) + 1
      ensures timerMinutes > 0 && confirmed ==> timerSeconds == timerMinutes * 60
      ensures timerMinutes == 0 ==> timerSeconds == old(timerSeconds)
      ensures timerMinutes > 0 && !confirmed ==>
        && userAnswers == old(userAnswers) && marks == old(marks) && table == old(table)
        && progress == old(progress) && timerSeconds == old(timerSeconds)
    {
      StopTimer();
      quiz := IdleQuiz;
      onMainScreen := false;
      ResetApp(confirmed);
    }
  }
}
