/**
 * The session state of the fretboard note trainer (`FretboardTrainer`):
 * the configuration chosen on the start screen, the current question, the
 * score, the list of mistakes collected while a timer runs, and the review
 * phase that replays those mistakes once the timer expires.
 */
module Fretboard {
  import opened Wrappers
  import opened Pitch
  import opened Clock

  /**
   * A position on the fretboard together with the note expected there.
   * Used for the current question and for the entries of the mistake lists.
   */
  datatype Question = Question(stringIndex: int, fret: int, note: string)

  /** The fret-range radio buttons: four presets, or a custom from/to pair (None when not a number). */
  datatype FretChoice = Frets12 | Frets15 | Frets22 | Frets24 | Custom(from: Option<int>, to: Option<int>)

  /** The three alerts that abort a start. */
  datatype StartError = InvalidFretRange | NoStringSelected | InvalidMinutes

  const MaxFret := 24

  // ----- start-screen validation ------------------------------------------------

  /** Whether the fret-range choice passes the start check. */
  predicate AcceptsFrets(frets: FretChoice) {
    match frets
    case Custom(from, to) =>
      from.Some? && to.Some? && !(from.value < 1 || to.value > MaxFret || from.value > to.value)
    case _ => true
  }

  /** The range an accepted choice configures. */
  function FretRange(frets: FretChoice): (range: (int, int))
    requires AcceptsFrets(frets)
    ensures 1 <= range.0 <= range.1 <= MaxFret
  {
    match frets
    case Frets12 => (1, 12)
    case Frets15 => (1, 15)
    case Frets22 => (1, 22)
    case Frets24 => (1, 24)
    case Custom(from, to) => (from.value, to.value)
  }



  /** The string numbers (1-based) of the ticked checkboxes, in checkbox order. */
  function Selected(checked: seq<bool>): (strings: seq<int>)
    ensures forall s :: s in strings ==> 1 <= s <= |checked|
  {
    if checked == [] then []
    else Selected(checked[..|checked| - 1]) + if checked[|checked| - 1] then [|checked|] else []
  }

  /** Exactly the ticked strings are selected, each once, in increasing order. */
  lemma {:induction false} SelectedSpec(checked: seq<bool>)
    ensures forall s :: s in Selected(checked) <==> 1 <= s <= |checked| && checked[s - 1]
    ensures forall i, j :: 0 <= i < j < |Selected(checked)| ==> Selected(checked)[i] < Selected(checked)[j]
  {
    if checked != [] {
      var init := checked[..|checked| - 1];
      SelectedSpec(init);
      var rest := Selected(init);
      forall i | 0 <= i < |rest| ensures rest[i] < |checked| {
        assert rest[i] in rest;
      }
      assert forall k :: 0 <= k < |init| ==> init[k] == checked[k];
    }
  }

  /** The outcome of the start checks, made in order: fret range, strings, minutes. */
  function StartCheck(frets: FretChoice, checked: seq<bool>, timer: TimerChoice): Option<StartError> {
    if !AcceptsFrets(frets) then Some(InvalidFretRange)
    else if Selected(checked) == [] then Some(NoStringSelected)
    else if !AcceptsTimer(timer) then Some(InvalidMinutes)
    else None
  }

  /**
   * Each alert is raised exactly when its check fails and the earlier ones
   * pass; a start goes ahead exactly when the range is valid, some string
   * is ticked and the minutes are valid.
   */
  lemma StartCheckSpec(frets: FretChoice, checked: seq<bool>, timer: TimerChoice)
    ensures StartCheck(frets, checked, timer) == Some(InvalidFretRange) <==> !AcceptsFrets(frets)
    ensures StartCheck(frets, checked, timer) == Some(NoStringSelected) <==>
      AcceptsFrets(frets) && forall k :: 0 <= k < |checked| ==> !checked[k]
    ensures StartCheck(frets, checked, timer) == Some(InvalidMinutes) <==>
      AcceptsFrets(frets) && (exists k :: 0 <= k < |checked| && checked[k]) && !AcceptsTimer(timer)
    ensures StartCheck(frets, checked, timer) == None <==>
      AcceptsFrets(frets) && (exists k :: 0 <= k < |checked| && checked[k]) && AcceptsTimer(timer)
  {
    SelectedEmptyIff(checked);
  }

  /** No string ticked means no selection, and any tick gives one. */
  lemma SelectedEmptyIff(checked: seq<bool>)
    ensures Selected(checked) == [] <==> forall k :: 0 <= k < |checked| ==> !checked[k]
  {
    SelectedSpec(checked);
    if Selected(checked) == [] {
      forall k | 0 <= k < |checked| ensures !checked[k] {
        assert k + 1 !in Selected(checked);
      }
    } else {
      assert Selected(checked)[0] in Selected(checked);
    }
  }

  // ----- questions ---------------------------------------------------------------

  /**
   * The note sounding on string `stringIndex` (0 = 1st string) at `fret`:
   * the sharp-table spelling `fret` semitones above the open string.
   */
  function FretNote(stringIndex: int, fret: nat): (note: string)
    requires 0 <= stringIndex < |StandardTuning|
    ensures note in ChromaticScale
  {
    ChromaticScale[(PitchClass(StandardTuning[stringIndex]) + fret) % 12]
  }

  /** The trainer's own lookup `getNoteAtFret` on an open string gives exactly FretNote. */
  lemma FretNoteIsLookup(stringIndex: int, fret: nat)
    requires 0 <= stringIndex < |StandardTuning|
    ensures NoteAtFret(StandardTuning[stringIndex], fret) == Some(FretNote(stringIndex, fret))
  {
    TuningInTable(stringIndex);
    NoteAtFretOfTable(StandardTuning[stringIndex], fret);
  }

  /** A question that names a real string and fret with the note sounding there. */
  predicate OnFretboard(q: Question) {
    0 <= q.stringIndex < |StandardTuning| && 1 <= q.fret <= MaxFret
    && q.note == FretNote(q.stringIndex, q.fret)
  }

  /** A question drawn in normal mode from the configured strings and fret range. */
  predicate Drawn(q: Question, strings: seq<int>, fretFrom: int, fretTo: int) {
    q.stringIndex + 1 in strings && 0 <= fretFrom <= q.fret <= fretTo
    && 0 <= q.stringIndex < |StandardTuning|
    && q.note == FretNote(q.stringIndex, q.fret)
  }

  /**
   * Every question drawn under a valid configuration is on the fretboard,
   * its note is what `getNoteAtFret` gives for it, and that note is a
   * sharp-table spelling lying the fret count above the open string (so
   * `AnswerJudgedByPitch` applies to it).
   */
  lemma DrawnIsAnswerable(q: Question, strings: seq<int>, fretFrom: int, fretTo: int)
    requires 1 <= fretFrom && fretTo <= MaxFret
    requires Drawn(q, strings, fretFrom, fretTo)
    ensures OnFretboard(q)
    ensures NoteAtFret(StandardTuning[q.stringIndex], q.fret) == Some(q.note)
    ensures q.note in ChromaticScale
    ensures PitchClass(q.note) == (PitchClass(StandardTuning[q.stringIndex]) + q.fret) % 12
  {
    FretNoteIsLookup(q.stringIndex, q.fret);
    SharpTableClass((PitchClass(StandardTuning[q.stringIndex]) + q.fret) % 12);
  }

  /** The worked example: the 1st string at fret 4 sounds G#. */
  lemma FirstStringFourthFret()
    ensures FretNote(0, 4) == "G#"
  {
    assert PitchClass(StandardTuning[0]) == 4;
  }

  // ----- the mistake lists -------------------------------------------------------

  /** A configuration the start screen can produce: a range within 1..24 and some of the six strings. */
  predicate ValidConfig(fretFrom: int, fretTo: int, strings: seq<int>) {
    1 <= fretFrom <= fretTo <= MaxFret
    && |strings| >= 1 && forall s :: s in strings ==> 1 <= s <= |StandardTuning|
  }

  /** A mistake list as the trainer keeps it: real positions, none twice. */
  predicate MistakeList(list: seq<Question>) {
    NoDuplicatePositions(list) && forall m :: m in list ==> OnFretboard(m)
  }

  /** Recording an answerable question keeps a mistake list well formed. */
  lemma RecordKeepsMistakeList(list: seq<Question>, q: Question)
    requires MistakeList(list) && OnFretboard(q)
    ensures MistakeList(RecordMistake(list, q))
  {
    RecordMistakeSpec(list, q);
  }

  /** Retiring a position keeps a mistake list well formed. */
  lemma RetireKeepsMistakeList(list: seq<Question>, q: Question)
    requires MistakeList(list)
    ensures MistakeList(RetirePosition(list, q))
  {
    RetireMembers(list, q);
    RetireNoDuplicates(list, q);
  }

  /** Same string and fret: the identity the trainer uses for mistakes. */
  predicate SamePosition(a: Question, b: Question) {
    a.stringIndex == b.stringIndex && a.fret == b.fret
  }

  /** `list.some(m => same position as q)`. */
  predicate HasPosition(list: seq<Question>, q: Question) {
    exists i :: 0 <= i < |list| && SamePosition(list[i], q)
  }

  /** No two entries share a position. */
  predicate NoDuplicatePositions(list: seq<Question>) {
    forall i, j :: 0 <= i < j < |list| ==> !SamePosition(list[i], list[j])
  }

  /** The mistake list after a wrong answer to q while the timer runs. */
  function RecordMistake(list: seq<Question>, q: Question): seq<Question> {
    if HasPosition(list, q) then list else list + [q]
  }

  /** `list.filter(m => !(same position as q))`. */
  function RetirePosition(list: seq<Question>, q: Question): seq<Question> {
    if list == [] then []
    else (if SamePosition(list[0], q) then [] else [list[0]]) + RetirePosition(list[1..], q)
  }

  /**
   * Recording keeps the list free of duplicates, always leaves q's position
   * listed, and appends q exactly when its position was new.
   */
  lemma RecordMistakeSpec(list: seq<Question>, q: Question)
    ensures HasPosition(RecordMistake(list, q), q)
    ensures NoDuplicatePositions(list) ==> NoDuplicatePositions(RecordMistake(list, q))
    ensures RecordMistake(list, q) == list + [q] <==> !HasPosition(list, q)
    ensures HasPosition(list, q) ==> RecordMistake(list, q) == list
  {
    var r := RecordMistake(list, q);
    if !HasPosition(list, q) {
      assert SamePosition(r[|list|], q);
    } else {
      assert r != list + [q] by { assert |r| == |list|; }
    }
  }

  /** Retiring keeps exactly the entries at other positions. */
  lemma {:induction false} RetireMembers(list: seq<Question>, q: Question)
    ensures forall x :: x in RetirePosition(list, q) <==> x in list && !SamePosition(x, q)
    ensures |RetirePosition(list, q)| <= |list|
    ensures !HasPosition(RetirePosition(list, q), q)
  {
    if list != [] {
      RetireMembers(list[1..], q);
      var r := RetirePosition(list, q);
      assert list == [list[0]] + list[1..];
    }
  }

  /** Retiring distributes over concatenation, so the kept entries stay in order. */
  lemma {:induction false} RetireAppend(a: seq<Question>, b: seq<Question>, q: Question)
    ensures RetirePosition(a + b, q) == RetirePosition(a, q) + RetirePosition(b, q)
  {
    if a != [] {
      assert (a + b)[1..] == a[1..] + b;
      RetireAppend(a[1..], b, q);
    } else {
      assert a + b == b;
    }
  }

  /** A list without q's position is left as it is. */
  lemma {:induction false} RetireAbsent(list: seq<Question>, q: Question)
    requires !HasPosition(list, q)
    ensures RetirePosition(list, q) == list
  {
    if list != [] {
      assert !SamePosition(list[0], q);
      assert !HasPosition(list[1..], q);
      RetireAbsent(list[1..], q);
    }
  }

  lemma TailNoDuplicates(list: seq<Question>)
    requires list != [] && NoDuplicatePositions(list)
    ensures NoDuplicatePositions(list[1..])
    ensures forall x :: x in list[1..] ==> !SamePosition(list[0], x)
  {
    var t := list[1..];
    forall i, j | 0 <= i < j < |t| ensures !SamePosition(t[i], t[j]) {
      assert t[i] == list[i + 1] && t[j] == list[j + 1];
    }
    forall x | x in t ensures !SamePosition(list[0], x) {
      var k :| 0 <= k < |t| && t[k] == x;
      assert list[k + 1] == x;
    }
  }

  lemma ConsNoDuplicates(a: Question, rest: seq<Question>)
    requires NoDuplicatePositions(rest)
    requires forall x :: x in rest ==> !SamePosition(a, x)
    ensures NoDuplicatePositions([a] + rest)
  {
    var r := [a] + rest;
    forall i, j | 0 <= i < j < |r| ensures !SamePosition(r[i], r[j]) {
      assert r[j] == rest[j - 1];
      if i > 0 {
        assert r[i] == rest[i - 1];
      }
    }
  }

  /** Retiring preserves freedom from duplicates. */
  lemma {:induction false} RetireNoDuplicates(list: seq<Question>, q: Question)
    requires NoDuplicatePositions(list)
    ensures NoDuplicatePositions(RetirePosition(list, q))
  {
    if list != [] {
      TailNoDuplicates(list);
      RetireNoDuplicates(list[1..], q);
      RetireMembers(list[1..], q);
      if !SamePosition(list[0], q) {
        ConsNoDuplicates(list[0], RetirePosition(list[1..], q));
      }
    }
  }

  /** In a duplicate-free list that holds q's position, retiring removes exactly one entry. */
  lemma {:induction false} RetireRemovesOne(list: seq<Question>, q: Question)
    requires NoDuplicatePositions(list) && HasPosition(list, q)
    ensures |RetirePosition(list, q)| == |list| - 1
  {
    var i :| 0 <= i < |list| && SamePosition(list[i], q);
    var before, after := list[..i], list[i + 1..];
    assert list == before + [list[i]] + after;
    forall k | 0 <= k < |before| ensures !SamePosition(before[k], q) {
      assert before[k] == list[k];
    }
    forall k | 0 <= k < |after| ensures !SamePosition(after[k], q) {
      assert after[k] == list[i + 1 + k];
    }
    RetireAbsent(before, q);
    RetireAbsent(after, q);
    RetireAppend(before + [list[i]], after, q);
    RetireAppend(before, [list[i]], q);
    assert RetirePosition([list[i]], q) == [];
  }

  // ----- the trainer -------------------------------------------------------------

  class FretboardTrainer {
    var fretFrom: int
    var fretTo: int
    var notation: Notation
    /** The 1-based numbers of the strings to practise. */
    var strings: seq<int>
    var currentQuestion: Option<Question>
    var selectedNote: Option<string>
    var correct: nat
    var total: nat
    var timerSeconds: int
    /** Whether the one-second countdown interval is installed. */
    var timerRunning: bool
    var timerMode: bool
    var mistakes: seq<Question>
    var reviewMode: bool
    var reviewMistakes: seq<Question>
    /** Whether the main screen (rather than the start screen) is shown. */
    var onMainScreen: bool

    predicate Valid()
      reads this
    {
      && ValidConfig(fretFrom, fretTo, strings)
      && correct <= total
      && MistakeList(mistakes) && MistakeList(reviewMistakes)
      && (currentQuestion.Some? ==> OnFretboard(currentQuestion.value))
      && (onMainScreen ==> currentQuestion.Some?)
      && (timerRunning ==> timerSeconds > 0 && timerMode && !reviewMode && onMainScreen)
      && (reviewMode ==> mistakes == [])
      && (!reviewMode ==> reviewMistakes == [])
    }

    /** The defaults: frets 1 to 12, both notations, all six strings, no timer. */
    constructor ()
      ensures Valid()
      ensures fretFrom == 1 && fretTo == 12 && notation == Both && strings == [1, 2, 3, 4, 5, 6]
      ensures currentQuestion == None && selectedNote == None && correct == 0 && total == 0
      ensures !timerRunning && !timerMode && mistakes == [] && !reviewMode && reviewMistakes == []
      ensures !onMainScreen
    {
      fretFrom, fretTo := 1, 12;
      notation := Both;
      strings := [1, 2, 3, 4, 5, 6];
      currentQuestion := None;
      selectedNote := None;
      correct, total := 0, 0;
      timerSeconds := 0;
      timerRunning := false;
      timerMode := false;
      mistakes := [];
      reviewMode := false;
      reviewMistakes := [];
      onMainScreen := false;
    }

    /** The numbers of the ticked string checkboxes, gathered one checkbox at a time. */
    static method CollectStrings(checked: seq<bool>) returns (selected: seq<int>)
      ensures selected == Selected(checked)
    {
      selected := [];
      var i := 0;
      while i < |checked|
        invariant 0 <= i <= |checked|
        invariant selected == Selected(checked[..i])
      {
        assert checked[..i + 1][..i] == checked[..i];
        if checked[i] {
          selected := selected + [i + 1];
        }
        i := i + 1;
      }
      assert checked[..i] == checked;
    }

    /**
     * The state right after a successful start: main screen, zero score,
     * empty mistake lists, the countdown running exactly when a timer was
     * chosen, and a fresh question drawn from the configuration.
     */
    predicate FreshSession(timer: TimerChoice)
      reads this
    {
      && onMainScreen && correct == 0 && total == 0
      && mistakes == [] && !reviewMode && reviewMistakes == []
      && timerMode == timer.Timed? && timerRunning == timer.Timed?
      && (timer.Timed? && timer.minutes.Some? ==> timerSeconds == timer.minutes.value * 60)
      && selectedNote == None
      && currentQuestion.Some? && Drawn(currentQuestion.value, strings, fretFrom, fretTo)
    }

    /**
     * The start button. The checks run in order and each failure leaves
     * the settings made before it in place: an invalid fret range changes
     * nothing, an empty string selection keeps the new range and notation,
     * and invalid minutes keep the new strings as well. A start that passes
     * resets the score and both mistake lists, starts the countdown when a
     * timer was chosen, shows the main screen and draws the first question.
     */
    method StartApp(frets: FretChoice, chosen: Notation, checked: seq<bool>, timer: TimerChoice)
      returns (error: Option<StartError>)
      requires Valid() && !onMainScreen && |checked| == |StandardTuning|
      modifies this`fretFrom, this`fretTo, this`notation, this`strings,
        this`correct, this`total, this`mistakes, this`reviewMode, this`reviewMistakes,
        this`currentQuestion, this`selectedNote, this`onMainScreen, this`timerMode, this`timerSeconds, this`timerRunning
      ensures Valid()
      ensures error == StartCheck(frets, checked, timer)
      ensures !AcceptsFrets(frets) ==> fretFrom == old(fretFrom) && fretTo == old(fretTo) && notation == old(notation)
      ensures AcceptsFrets(frets) ==> (fretFrom, fretTo) == FretRange(frets) && notation == chosen
      ensures strings == if AcceptsFrets(frets) && Selected(checked) != [] then Selected(checked) else old(strings)
      ensures error.Some? ==>
        && !onMainScreen && correct == old(correct) && total == old(total)
        && mistakes == old(mistakes) && reviewMode == old(reviewMode) && reviewMistakes == old(reviewMistakes)
        && timerMode == old(timerMode) && timerRunning == old(timerRunning)
        && timerSeconds == old(timerSeconds) && currentQuestion == old(currentQuestion)
        && selectedNote == old(selectedNote)
      ensures error.None? ==> FreshSession(timer)
      ensures error.None? && !timer.Timed? ==> timerSeconds == old(timerSeconds)
    {
      if !AcceptsFrets(frets) {
        return Some(InvalidFretRange);
      }
      var range := FretRange(frets);
      fretFrom, fretTo := range.0, range.1;
      notation := chosen;
      assert Valid();
      error := StartWithStrings(checked, timer);
    }

    /** The start checks after the fret range: the ticked strings, then the minutes. */
    method StartWithStrings(checked: seq<bool>, timer: TimerChoice) returns (error: Option<StartError>)
      requires Valid() && !onMainScreen && |checked| == |StandardTuning|
      modifies this`strings,
        this`correct, this`total, this`mistakes, this`reviewMode, this`reviewMistakes,
        this`currentQuestion, this`selectedNote, this`onMainScreen, this`timerMode, this`timerSeconds, this`timerRunning
      ensures Valid()
      ensures error == if Selected(checked) == [] then Some(NoStringSelected)
        else if !AcceptsTimer(timer) then Some(InvalidMinutes) else None
      ensures strings == if Selected(checked) != [] then Selected(checked) else old(strings)
      ensures error.Some? ==>
        && !onMainScreen && correct == old(correct) && total == old(total)
        && mistakes == old(mistakes) && reviewMode == old(reviewMode) && reviewMistakes == old(reviewMistakes)
        && timerMode == old(timerMode) && timerRunning == old(timerRunning)
        && timerSeconds == old(timerSeconds) && currentQuestion == old(currentQuestion)
        && selectedNote == old(selectedNote)
      ensures error.None? ==> FreshSession(timer)
      ensures error.None? && !timer.Timed? ==> timerSeconds == old(timerSeconds)
    {
      var selected := CollectStrings(checked);
      if |selected| == 0 {
        return Some(NoStringSelected);
      }
      strings := selected;
      assert Valid();
      if !AcceptsTimer(timer) {
        return Some(InvalidMinutes);
      }
      BeginSession(timer);
      error := None;
    }

    /** The part of a successful start after validation: timer, reset, first question. */
    method BeginSession(timer: TimerChoice)
      requires Valid() && !onMainScreen && AcceptsTimer(timer)
      modifies this`correct, this`total, this`mistakes, this`reviewMode, this`reviewMistakes,
        this`currentQuestion, this`selectedNote, this`onMainScreen, this`timerMode, this`timerSeconds, this`timerRunning
      ensures Valid()
      ensures FreshSession(timer)
      ensures !timer.Timed? ==> timerSeconds == old(timerSeconds)
    {
      SetTimerMode(timer);
      ResetAndDraw();
    }

    /** The timer choice of an accepted start: a chosen timer is installed, no timer leaves the countdown alone. */
    method SetTimerMode(timer: TimerChoice)
      requires AcceptsTimer(timer)
      modifies this`timerMode, this`timerSeconds, this`timerRunning
      ensures timerMode == timer.Timed?
      ensures timer.Timed? ==> timerRunning && timerSeconds == timer.minutes.value * 60
      ensures !timer.Timed? ==> timerRunning == old(timerRunning) && timerSeconds == old(timerSeconds)
    {
      if timer.Timed? {
        timerMode := true;
        StartTimer(timer.minutes.value);
      } else {
        timerMode := false;
      }
    }

    /** Zero score, no mistakes, out of review, main screen shown, and a fresh question. */
    method ResetAndDraw()
      requires ValidConfig(fretFrom, fretTo, strings)
      modifies this`correct, this`total, this`mistakes, this`reviewMode, this`reviewMistakes,
        this`onMainScreen, this`currentQuestion, this`selectedNote
      ensures correct == 0 && total == 0 && mistakes == [] && !reviewMode && reviewMistakes == []
      ensures onMainScreen && selectedNote == None
      ensures currentQuestion.Some? && Drawn(currentQuestion.value, strings, fretFrom, fretTo)
      ensures OnFretboard(currentQuestion.value)
    {
      correct, total := 0, 0;
      mistakes := [];
      reviewMode := false;
      reviewMistakes := [];
      onMainScreen := true;
      DrawQuestion();
    }

    /** Installs the countdown with the given number of minutes. */
    method StartTimer(minutes: int)
      modifies this`timerSeconds, this`timerRunning
      ensures timerSeconds == minutes * 60 && timerRunning
    {
      timerSeconds := minutes * 60;
      timerRunning := true;
    }

    /** Normal-mode draw: a configured string, a fret in range, and the note there. */
    method DrawQuestion()
      requires ValidConfig(fretFrom, fretTo, strings)
      modifies this`currentQuestion, this`selectedNote
      ensures selectedNote == None
      ensures currentQuestion.Some? && Drawn(currentQuestion.value, strings, fretFrom, fretTo)
      ensures OnFretboard(currentQuestion.value)
    {
      selectedNote := None;
      var k :| 0 <= k < |strings|;
      var stringIndex := strings[k] - 1;
      var fret :| fretFrom <= fret <= fretTo;
      assert strings[k] in strings;
      FretNoteIsLookup(stringIndex, fret);
      var note := NoteAtFret(StandardTuning[stringIndex], fret);
      var q := Question(stringIndex, fret, note.value);
      assert OnFretboard(q) && Drawn(q, strings, fretFrom, fretTo);
      currentQuestion := Some(q);
    }

    /** The menu button: stops the countdown and returns to the start screen. */
    method ShowStartScreen()
      requires Valid()
      modifies this`timerRunning, this`onMainScreen
      ensures Valid()
      ensures !timerRunning && !onMainScreen
    {
      timerRunning := false;
      onMainScreen := false;
    }

    /**
     * The next question: in review, one of the remaining mistakes (the
     * session ends when none remain); otherwise a fresh draw from the
     * configured strings and frets.
     */
    method NextQuestion()
      requires Valid()
      modifies this`selectedNote, this`currentQuestion, this`reviewMode, this`timerRunning, this`onMainScreen
      ensures Valid()
      ensures selectedNote == None
      ensures old(reviewMode) && old(reviewMistakes) != [] ==>
        reviewMode && currentQuestion.Some? && currentQuestion.value in reviewMistakes
        && onMainScreen == old(onMainScreen) && timerRunning == old(timerRunning)
      ensures old(reviewMode) && old(reviewMistakes) == [] ==>
        !reviewMode && !onMainScreen && !timerRunning && currentQuestion == old(currentQuestion)
      ensures !old(reviewMode) ==>
        !reviewMode && currentQuestion.Some? && Drawn(currentQuestion.value, strings, fretFrom, fretTo)
        && onMainScreen == old(onMainScreen) && timerRunning == old(timerRunning)
    {
      selectedNote := None;
      if reviewMode && |reviewMistakes| > 0 {
        var i :| 0 <= i < |reviewMistakes|;
        currentQuestion := Some(reviewMistakes[i]);
      } else if reviewMode {
        reviewMode := false;
        ShowStartScreen();
      } else {
        DrawQuestion();
      }
    }

    /** Picking an option from the note list: it becomes the selection and is judged at once. */
    method SelectNote(note: string)
      requires Valid() && onMainScreen
      modifies this`selectedNote, this`correct, this`total, this`mistakes, this`reviewMistakes
      ensures Valid()
      ensures Judged(note, old(correct), old(total), old(mistakes), old(reviewMistakes))
    {
      selectedNote := Some(note);
      CheckAnswer();
    }

    /**
     * The score and mistake lists after the selection `note` was judged,
     * given their values before. An empty selection is not judged.
     * Otherwise the total goes up by one and the correct count by one
     * exactly when the answer names the expected pitch. In review a
     * correct answer retires that position; outside review with a timer a
     * wrong answer records the position unless it is already recorded. A
     * wrong answer clears the selection.
     */
    predicate Judged(note: string, correct0: nat, total0: nat, mistakes0: seq<Question>, review0: seq<Question>)
      reads this
      requires currentQuestion.Some?
    {
      var q := currentQuestion.value;
      var right := IsEnharmonicMatch(note, q.note);
      if note == "" then
        selectedNote == Some(note) && correct == correct0 && total == total0
        && mistakes == mistakes0 && reviewMistakes == review0
      else
        && total == total0 + 1
        && correct == correct0 + (if right then 1 else 0)
        && selectedNote == (if right then Some(note) else None)
        && mistakes == (if !right && timerMode && !reviewMode then RecordMistake(mistakes0, q) else mistakes0)
        && reviewMistakes == (if right && reviewMode then RetirePosition(review0, q) else review0)
    }

    /** Judges the current selection, if there is a non-empty one, against the current question. */
    method CheckAnswer()
      requires Valid() && onMainScreen
      modifies this`selectedNote, this`correct, this`total, this`mistakes, this`reviewMistakes
      ensures Valid()
      ensures old(selectedNote).None? ==>
        selectedNote == None && correct == old(correct) && total == old(total)
        && mistakes == old(mistakes) && reviewMistakes == old(reviewMistakes)
      ensures old(selectedNote).Some? ==>
        Judged(old(selectedNote).value, old(correct), old(total), old(mistakes), old(reviewMistakes))
    {
      if selectedNote == None || selectedNote.value == "" {
        return;
      }
      var right := IsEnharmonicMatch(selectedNote.value, currentQuestion.value.note);
      Score(right);
    }

    /** Counts a judged answer and updates the mistake lists and the selection accordingly. */
    method Score(right: bool)
      requires Valid() && onMainScreen
      modifies this`selectedNote, this`correct, this`total, this`mistakes, this`reviewMistakes
      ensures Valid()
      ensures var q := currentQuestion.value;
        && total == old(total) + 1
        && correct == old(correct) + (if right then 1 else 0)
        && selectedNote == (if right then old(selectedNote) else None)
        && mistakes == (if !right && timerMode && !reviewMode then RecordMistake(old(mistakes), q) else old(mistakes))
        && reviewMistakes == (if right && reviewMode then RetirePosition(old(reviewMistakes), q) else old(reviewMistakes))
    {
      var q := currentQuestion.value;
      total := total + 1;
      if right {
        correct := correct + 1;
        if reviewMode {
          RetireKeepsMistakeList(reviewMistakes, q);
          reviewMistakes := RetirePosition(reviewMistakes, q);
        }
      } else {
        if !reviewMode && timerMode {
          RecordKeepsMistakeList(mistakes, q);
          if !HasPosition(mistakes, q) {
            mistakes := mistakes + [q];
          }
        }
        selectedNote := None;
      }
    }

    /**
     * The end of the countdown. Without mistakes the session ends on the
     * start screen; otherwise the mistakes become the review list, the
     * mistake list and score start over, and a review question is drawn.
     */
    method StartReviewMode()
      requires Valid() && !timerRunning
      modifies this`selectedNote, this`currentQuestion, this`reviewMode, this`timerRunning, this`onMainScreen
      modifies this`reviewMistakes, this`mistakes, this`correct, this`total
      ensures Valid()
      ensures !timerRunning
      ensures old(mistakes) == [] ==>
        && !onMainScreen && reviewMode == old(reviewMode) && reviewMistakes == old(reviewMistakes)
        && mistakes == old(mistakes) && correct == old(correct) && total == old(total)
        && currentQuestion == old(currentQuestion) && selectedNote == old(selectedNote)
      ensures old(mistakes) != [] ==>
        && reviewMode && reviewMistakes == old(mistakes) && mistakes == []
        && correct == 0 && total == 0 && onMainScreen == old(onMainScreen)
        && selectedNote == None && currentQuestion.Some? && currentQuestion.value in reviewMistakes
    {
      if |mistakes| == 0 {
        ShowStartScreen();
        return;
      }
      reviewMode := true;
      reviewMistakes := mistakes;
      mistakes := [];
      correct, total := 0, 0;
      NextQuestion();
    }

    /** One second of the countdown; at zero the interval stops and review begins. */
    method Tick()
      requires Valid() && timerRunning
      modifies this`timerSeconds, this`selectedNote, this`currentQuestion, this`reviewMode, this`timerRunning
      modifies this`onMainScreen, this`reviewMistakes, this`mistakes, this`correct, this`total
      ensures Valid()
      ensures old(timerSeconds) > 1 ==>
        && timerSeconds == old(timerSeconds) - 1 && timerRunning && onMainScreen == old(onMainScreen)
        && mistakes == old(mistakes) && correct == old(correct) && total == old(total)
        && currentQuestion == old(currentQuestion) && selectedNote == old(selectedNote)
        && reviewMode == old(reviewMode) && reviewMistakes == old(reviewMistakes)
      ensures old(timerSeconds) <= 1 ==> timerSeconds == 0 && !timerRunning
      ensures old(timerSeconds) <= 1 && old(mistakes) == [] ==>
        && !onMainScreen && reviewMode == old(reviewMode) && reviewMistakes == old(reviewMistakes)
        && mistakes == old(mistakes) && correct == old(correct) && total == old(total)
        && currentQuestion == old(currentQuestion) && selectedNote == old(selectedNote)
      ensures old(timerSeconds) <= 1 && old(mistakes) != [] ==>
        reviewMode && reviewMistakes == old(mistakes) && mistakes == [] && correct == 0 && total == 0
        && onMainScreen && selectedNote == None && currentQuestion.Some? && currentQuestion.value in reviewMistakes
    {
      timerSeconds := timerSeconds - 1;
      if timerSeconds <= 0 {
        timerRunning := false;
        StartReviewMode();
      }
    }
  }

  /**
   * A timed session, expressed on the values the methods above maintain:
   * recording wrong answers never creates duplicates, so the review list
   * handed over at expiry is duplicate-free, and each correct review answer
   * shortens it by exactly one until the session ends.
   */
  lemma {:induction false} ReviewShrinks(review: seq<Question>, q: Question)
    requires NoDuplicatePositions(review) && q in review
    ensures NoDuplicatePositions(RetirePosition(review, q))
    ensures |RetirePosition(review, q)| == |review| - 1
    ensures forall m :: m in review && !SamePosition(m, q) ==> m in RetirePosition(review, q)
  {
    var i :| 0 <= i < |review| && review[i] == q;
    assert SamePosition(review[i], q);
    RetireRemovesOne(review, q);
    RetireNoDuplicates(review, q);
    RetireMembers(review, q);
  }
}
