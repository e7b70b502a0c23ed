# paveu.github.io — a Dafny model of the site's scripts

This project models the logic of four scripts of a personal site:

- **The fretboard note trainer** (`fretboard.js`). A question shows a string and a fret. The user names the note that sounds there, and the answer is compared enharmonically: "Ab" counts for "G#". With a timer running, wrong answers are collected. When the countdown expires, those positions are asked again in a review phase.
- **The major-key chord trainer** (`majorScale.js`):
  - the harmonisation table `scalesData` (15 keys, seven triads each);
  - the chord bank, grouped by letter and sorted;
  - the answer table, filled by drag and drop or from a menu, and judged instantly or on request;
  - the progress line, the countdown, and a quiz that asks for one random cell at a time.
- **The router of the portfolio page** (`main.js`). It decides which hashes need the blog scripts (`needsBlogScripts`) and which page a hash shows (`processHashChange`).
- **The contact form** (`zacharzyce/script.js`). It covers the e-mail pattern `^[^\s@]+@[^\s@]+\.[^\s@]+$`, the ordered checks of the submit handler, and the check of a single field (`validateField`).

How the model is laid out:

- **Pure helpers are functions.** Their properties are lemmas, in `pitch`, `chord_table`, `chord_bank`, `chord_cells`, `clock`, `router`, `contact_form` and `js_strings`.
- **The two trainers are classes** (`Fretboard.FretboardTrainer` and `ChordTrainer.MusicTheoryApp`). Their fields are the state the scripts keep on `this`. Each handler is a method whose `modifies` names the fields it may change and whose `ensures` gives their new values, branch by branch (where the script draws at random, the set the value is drawn from). A `Valid()` invariant is preserved by all of them.
- **Loops stay loops.** The loops of the scripts are methods with loop invariants, proved against specification functions: the ticked checkboxes, `groupChordsByNote`, the cell collection of `initQuizMode`, the row loop of `clearScaleRow`, and the zone loop of `checkAllAnswers`.
- **Randomness is a choice.** `Math.random` is modelled as an arbitrary choice (`:|`) among the allowed values.
- **Timers are plain methods.** A countdown tick is a method the caller invokes while the interval is installed. The delayed callbacks of `setTimeout` are likewise methods the caller invokes.

## Model

| member | source | states |
|---|---|---|
| Pitch.FindIndex | fretboard.js:681 | the first position of the note in the table, and -1 exactly when the note is absent |
| Pitch.JsRem | fretboard.js:682 | JavaScript's `%`: for a non-negative dividend it is the mathematical remainder; it always lies strictly between -12 and 12 |
| Pitch.TuningInTable | fretboard.js:97-98 | every open string of the standard tuning is spelled in the sharp table |
| Pitch.PitchClassOfTables | fretboard.js:98-99 | both chromatic tables spell pitch classes 0..11 in order, starting from C |
| Pitch.NoteAtFretOfTable | fretboard.js:680-684 | for an open string in the sharp table, the note at a fret is the sharp-table entry at (open class + fret) mod 12 |
| Pitch.NoteAtFretIsModular | fretboard.js:680-684 | the note under a fret is always defined and always a sharp spelling; its pitch class is the open string's class plus the fret, mod 12 |
| Pitch.NoteAtFretPeriodic | fretboard.js:680-684 | the note repeats every 12 frets |
| Pitch.UnknownOpenString | fretboard.js:680-684 | an open note missing from the sharp table is looked up at index -1: `undefined` at fret 0, one semitone below the true note above it |
| Pitch.ExtractNotes | fretboard.js:752-757 | a note is split at '/'; the parts join back to it and none contains '/' |
| Pitch.MatchByTokens | fretboard.js:750-790 | the comparator holds iff some token of the answer and some token of the expected note are equal or listed as an enharmonic pair, in either direction |
| Pitch.MatchSymmetric | fretboard.js:750-790 | the comparator gives the same verdict with answer and expected note swapped |
| Pitch.SelfMatch | fretboard.js:762-766 | any answer matches itself |
| Pitch.CombinedToken | fretboard.js:752-767 | a combined answer "x/y" matches exactly what x or y matches |
| Pitch.EnharmonicTable | fretboard.js:770-776 | the two spellings of each of the five accidentals are keys listing that pair; the naturals are not keys |
| Pitch.EnharmonicEntry | fretboard.js:770-776 | each key is an accidental whose entry is [sharp spelling, flat spelling] of its pitch class |
| Pitch.ListedIsSamePitch | fretboard.js:770-776 | between table spellings, being listed means being a key with the same pitch class |
| Pitch.SamePitchTokens | fretboard.js:770-787 | two table spellings match as tokens iff they have the same pitch class |
| Pitch.SingleSpellingsMatch | fretboard.js:750-790 | between single table spellings, the comparator is exactly equality of pitch class |
| Pitch.SpellJudgedByPitch | fretboard.js:750-790 | a spelling of pitch class p, in any notation, matches a table spelling iff that spelling has class p |
| Pitch.FormatRespells | fretboard.js:792-810 | `formatNote` respells a table spelling by its pitch class in the chosen notation |
| Pitch.SharpRespelling | fretboard.js:793-795 | in sharps mode, both spellings of a class show as its sharp spelling |
| Pitch.FlatRespelling | fretboard.js:796-798 | in flats mode, both spellings of a class show as its flat spelling |
| Pitch.BothRespelling | fretboard.js:799-809 | in both-notations mode, both spellings show as the combined "X#/Yb" form |
| Pitch.FormatNamesSamePitch | fretboard.js:792-810 | whatever the notation, the displayed note matches the note itself |
| Pitch.NoteList | fretboard.js:452-460 | there are twelve options in every notation |
| Pitch.NoteListSpells | fretboard.js:452-460 | option k names pitch class (k + 9) mod 12, spelled in the notation |
| Pitch.AnswerJudgedByPitch | fretboard.js:686-700 | an option picked for a sharp-table question is judged correct iff it names the question's pitch class |
| Pitch.FlatForSharpExample | fretboard.js:750-790 | "Ab" is accepted for G# |
| Pitch.SharpForFlatExample | fretboard.js:750-790 | "C#" is accepted for Db |
| Pitch.NeighbourRejectedExample | fretboard.js:750-790 | "C#" is not accepted for D |
| Fretboard.FretRange | fretboard.js:202-216 | an accepted fret choice configures 1 <= from <= to <= 24 |
| Fretboard.SelectedSpec | fretboard.js:222-225 | the selected strings are exactly the ticked ones, each once, in increasing order |
| Fretboard.SelectedEmptyIff | fretboard.js:227-230 | the selection is empty iff no box is ticked |
| Fretboard.StartCheckSpec | fretboard.js:199-246 | each alert (fret range, then strings, then minutes) is raised iff its check fails and the earlier ones pass; a start goes ahead iff all three pass |
| Fretboard.FretNote | fretboard.js:631-635 | the note a question expects is a sharp-table spelling |
| Fretboard.FretNoteIsLookup | fretboard.js:680-684 | `getNoteAtFret` on an open string of the tuning yields exactly that note |
| Fretboard.DrawnIsAnswerable | fretboard.js:629-636 | a drawn question lies on the fretboard; its note is `getNoteAtFret`'s and sits fret-many semitones above the open string |
| Fretboard.FirstStringFourthFret | fretboard.js:97 | the 1st string at fret 4 sounds G# |
| Fretboard.RecordMistakeSpec | fretboard.js:726-736 | recording a wrong answer leaves its position listed; it appends exactly when the position was new and never creates duplicates |
| Fretboard.RecordKeepsMistakeList | fretboard.js:726-736 | recording keeps the list duplicate-free and made of real positions |
| Fretboard.RetireMembers | fretboard.js:708-710 | the review filter keeps exactly the entries at other positions and removes q's position entirely |
| Fretboard.RetireAppend | fretboard.js:708-710 | the filter keeps the order of the remaining entries |
| Fretboard.RetireAbsent | fretboard.js:708-710 | a list without q's position is left unchanged |
| Fretboard.RetireNoDuplicates | fretboard.js:708-710 | the filter preserves freedom from duplicates |
| Fretboard.RetireRemovesOne | fretboard.js:708-710 | in a duplicate-free list holding q's position, exactly one entry goes |
| Fretboard.RetireKeepsMistakeList | fretboard.js:708-710 | retiring keeps a mistake list well formed |
| Fretboard.ReviewShrinks | fretboard.js:308-322 | each correct review answer shortens the duplicate-free review list by exactly one and keeps all other positions |
| Fretboard.FretboardTrainer.constructor | fretboard.js:102-127 | the defaults: frets 1–12, both notations, all six strings, no question, zero score, no timer and no mistakes, start screen |
| Fretboard.FretboardTrainer.CollectStrings | fretboard.js:222-225 | the checkbox loop collects exactly the selection of the ticked strings |
| Fretboard.FretboardTrainer.StartApp | fretboard.js:199-258 | returns the first failing check; the settings made before it stay in place, and a failed start keeps the countdown, the question and the selection; a successful start is a fresh session, and an untimed one keeps the countdown value |
| Fretboard.FretboardTrainer.StartWithStrings | fretboard.js:222-258 | the string check and the minutes check, in that order; the new strings are kept once the strings check passes; a failed check keeps the countdown, the question and the selection |
| Fretboard.FretboardTrainer.BeginSession | fretboard.js:233-257 | a successful start: the timer mode and countdown (kept when untimed), a zero score, empty mistake lists, the main screen and a drawn question |
| Fretboard.FretboardTrainer.SetTimerMode | fretboard.js:233-245 | a chosen timer starts the countdown at minutes × 60; no timer leaves the countdown as it was |
| Fretboard.FretboardTrainer.ResetAndDraw | fretboard.js:247-257 | a zero score, no mistakes, not in review, the main screen, and a question drawn from the configuration |
| Fretboard.FretboardTrainer.StartTimer | fretboard.js:267-282 | the countdown is installed at minutes × 60 seconds |
| Fretboard.FretboardTrainer.DrawQuestion | fretboard.js:629-636 | a configured string, a fret in range, and the note sounding there |
| Fretboard.FretboardTrainer.ShowStartScreen | fretboard.js:260-265 | the countdown stops and the start screen shows |
| Fretboard.FretboardTrainer.NextQuestion | fretboard.js:596-678 | the selection is cleared; in review, one of the remaining mistakes is asked; an empty review ends on the start screen; otherwise a fresh draw; configuration, score and lists unchanged |
| Fretboard.FretboardTrainer.SelectNote | fretboard.js:582-594 | the picked note becomes the selection and is judged at once |
| Fretboard.FretboardTrainer.CheckAnswer | fretboard.js:686-748 | no selection judges nothing; otherwise the total rises by one, the correct count rises iff the answer names the pitch, and the mistake and review lists are updated |
| Fretboard.FretboardTrainer.Score | fretboard.js:695-745 | the score and lists after a verdict: a right review answer retires the position; a wrong timed answer outside review is recorded and clears the selection |
| Fretboard.FretboardTrainer.StartReviewMode | fretboard.js:308-322 | with no mistakes, back to the start screen with everything else kept; otherwise the mistakes become the review list, the score restarts and a review question is asked with no selection; the configuration is kept |
| Fretboard.FretboardTrainer.Tick | fretboard.js:274-281 | one second fewer with everything else kept; at zero the countdown stops and review begins, or the session ends when there were no mistakes |
| Clock.ClockRoundTrip | majorScale.js:496-500 | the "mm:ss" text has exactly two second digits after its only colon, and reads back to the same number of seconds |
| Clock.LevelMonotone | majorScale.js:503-510 | as time runs down the colour class never goes back: warning only at 180 s or less, danger at 60 s or less |
| JsStrings.TrimStart | zacharzyce/script.js:313 | trimming the start removes exactly a whitespace prefix |
| JsStrings.TrimEnd | zacharzyce/script.js:313 | trimming the end removes exactly a whitespace suffix |
| JsStrings.TrimEmptyIff | zacharzyce/script.js:313 | `trim()` leaves nothing iff the text is all whitespace |
| JsStrings.Split | fretboard.js:754 | `split('/')` gives at least one part and no part contains the separator |
| JsStrings.JoinSplit | fretboard.js:754 | joining the parts of a split gives back the text |
| JsStrings.SplitJoin | fretboard.js:754 | splitting joined separator-free parts gives back the parts |
| JsStrings.NatToString | majorScale.js:1271 | the degree prints as digits, without a leading zero |
| JsStrings.ParseNatToString | majorScale.js:1256 | `parseInt` of the printed degree gives the degree back |
| JsStrings.PadStart2 | majorScale.js:499 | `padStart(2, '0')` pads to two characters with zeros on the left |
| JsStrings.ParsePadded | majorScale.js:499 | padding with zeros does not change the number read back |
| ChordTable.TableShape | majorScale.js:148-164 | 15 keys with 7 triads each: the key chord on I, and the degree's quality (major, minor or diminished) with its root on the major-scale step |
| ChordTable.TableFits | majorScale.js:148-164 | every row fits the major-scale pattern |
| ChordTable.TableNames | majorScale.js:148-164 | the rows are keyed by the 15 key names, in table order |
| ChordTable.ScaleNamesDistinct | majorScale.js:148-164 | the key names are distinct and contain no hyphen, so the cell keys are unambiguous |
| ChordTable.CFlatLeadingToneAsWritten | majorScale.js:163 | as written, the C flat row's VII ("Bdim") does not fit the pattern; the other 14 rows are unchanged |
| ChordTable.RootPitchIsPitchClass | majorScale.js:148-164 | a chord's root pitch is the pitch class of its name without the quality suffix |
| ChordTable.ChordsOf | majorScale.js:1300 | `scalesData[scale].chords` has seven chords, headed by the key chord |
| ChordTable.ChordAtRow | majorScale.js:1300 | the expected chord of a cell is the table entry of its row and degree (in the corrected table, see Findings) |
| ChordTable.ChordLetter | majorScale.js:528-531 | every chord of the table starts with a letter A–G, so every chord has a bank group |
| ChordTable.IndexFrom | majorScale.js:1299 | the first occurrence of the pattern at or after a position, or none |
| ChordTable.NoSpaceNoMark | majorScale.js:1299 | a chord without a space is left alone by the mark removal |
| ChordTable.ValidateCellExact | majorScale.js:1293-1311 | a cell is judged correct iff its text is exactly the table's chord |
| ChordTable.ValidateMarkedCell | majorScale.js:1299-1302 | a trailing " ✓" is ignored when judging |
| ChordTable.ExactSpellingExample | majorScale.js:154 | "A#dim" is right for VII of B |
| ChordTable.SameRootPitch | majorScale.js:154 | "A#dim" and "Bbdim" name the same root pitch |
| ChordTable.OtherSpellingRejected | majorScale.js:1302 | any other text, including "Bbdim", is wrong for VII of B |
| ChordTable.BLeadingTone | majorScale.js:154 | VII of B is "A#dim" |
| ChordTable.CellKeySplits | majorScale.js:1271 | a key `scale-degree` splits at its hyphen into the key and the degree's digits |
| ChordTable.CellKeyInjective | majorScale.js:1271 | distinct cells have distinct keys |
| ChordBank.DedupSpec | majorScale.js:563 | `[...new Set(chords)]` holds exactly the input chords, each once |
| ChordBank.DedupKeeps | majorScale.js:563 | a repeat-free list is unchanged |
| ChordBank.DedupIdempotent | majorScale.js:563 | removing repeats twice changes nothing more |
| ChordBank.LexReflexive | majorScale.js:575 | the default sort order is reflexive |
| ChordBank.LexTotal | majorScale.js:575 | the default sort order is total |
| ChordBank.LexAntisymmetric | majorScale.js:575 | the default sort order is antisymmetric |
| ChordBank.LexTransitive | majorScale.js:575 | the default sort order is transitive |
| ChordBank.SortSpec | majorScale.js:575 | `sort()` gives a sorted permutation of the group |
| ChordBank.SortedUnique | majorScale.js:575 | the sorted permutation is unique, so any correct sort gives the same bank |
| ChordBank.SortKeepsNoDuplicates | majorScale.js:575 | sorting keeps a group free of repeats |
| ChordBank.GroupIndex | majorScale.js:525-531 | the group of a letter, and none exactly for characters outside A–G |
| ChordBank.GroupChordsByNote | majorScale.js:524-537 | the loop files each chord under its first letter, keeping input order |
| ChordBank.GroupOfSpec | majorScale.js:524-537 | a group holds exactly the chords starting with its letter, and is repeat-free when the input is |
| ChordCells.TableCells | majorScale.js:1362-1366 | seven cells per key, all of them cells of the table |
| ChordCells.TableCellsComplete | majorScale.js:1362-1366 | every degree of every selected key is a cell |
| ChordCells.TableCellsDistinct | majorScale.js:1362-1366 | with distinct keys, the cells are distinct |
| ChordCells.TableKeyCount | majorScale.js:1455 | the table has 7 × (number of keys) distinct answer keys |
| ChordCells.TableSetCount | majorScale.js:1455 | the table has 7 × (number of keys) cells |
| ChordCells.PoolSpec | majorScale.js:559-569 | the concatenated rows hold exactly the chords of the chosen keys |
| ChordCells.PoolLetters | majorScale.js:528-531 | every pooled chord has a bank group |
| ChordCells.BankOf | majorScale.js:554-599 | the bank has one group per letter A–G |
| ChordCells.BankSpec | majorScale.js:554-599 | each group is sorted and repeat-free, holding exactly the pooled chords of its letter; every pooled chord appears in its letter's group |
| ChordCells.CountInSize | majorScale.js:1453-1461 | counting the listed cells of a key set gives the size of their intersection |
| ChordCells.CountInTable | majorScale.js:1453-1461 | counting along the table finds every cell of a set of table cells exactly once |
| ChordCells.TableCounts | majorScale.js:1453-1461 | over the table, `filled` is the number of answers and `correct` the number of correct marks |
| ChordCells.WithoutCellSpec | majorScale.js:1436-1438 | the filter removes exactly the answered cell, and shortens a list holding it |
| ChordTrainer.TickedSpec | majorScale.js:401-402 | exactly the ticked keys are selected, without repeats |
| ChordTrainer.TickedEmpty | majorScale.js:401-407 | the selection is empty iff no key is ticked |
| ChordTrainer.StartCheckSpec | majorScale.js:395-428 | the alerts in order (no key ticked, then minutes outside 1–120); the chosen keys are distinct table keys, all of them with "all scales" |
| ChordTrainer.ProgressMeaning | majorScale.js:1453-1461 | the figures are the answers, seven cells per key and the correct marks; correct <= filled <= total, and filled == total iff every cell is answered |
| ChordTrainer.CongratulationsMeaning | majorScale.js:1469-1471 | the congratulations mean every cell holds the right chord |
| ChordTrainer.EmptyProgress | majorScale.js:1453-1466 | on a new table, `updateProgress` shows 0 filled of 7 per key, 0 correct |
| ChordTrainer.JudgedPlace | majorScale.js:1268-1272 | placing a chord and dropping the cell's old mark keeps every mark judging its current chord |
| ChordTrainer.JudgedPlaceChord | majorScale.js:1253-1276 | placing a chord, then judging it (instant validation) or only dropping its old mark, keeps every mark judging its current chord |
| ChordTrainer.JudgedMark | majorScale.js:1293-1311 | marking a cell with the verdict on its chord keeps the answers judged |
| ChordTrainer.JudgedMarkAll | majorScale.js:1314-1326 | after marking every answered cell, exactly the answered cells carry marks, all of them judging their chords |
| ChordTrainer.JudgedQuizCheck | majorScale.js:1422-1440 | judging the asked-for cell keeps every mark judging its chord, and the filtered quiz list holds only cells of the table |
| ChordTrainer.JudgedRemove | majorScale.js:887-932 | removing answers together with their marks keeps the answers judged |
| ChordTrainer.ConcatRows | majorScale.js:559-569 | the loop concatenating rows yields the chord pool of the keys |
| ChordTrainer.BuildChordBank | majorScale.js:554-599 | the bank is that of every key (all chords) or of the selected keys |
| ChordTrainer.MarkCells | majorScale.js:1316-1326 | the zone loop gives each filled zone its verdict and keeps the other marks |
| ChordTrainer.MarkTable | majorScale.js:1314-1326 | after `checkAllAnswers`'s loop, exactly the answered cells are marked, each judging its chord |
| ChordTrainer.ClearRow | majorScale.js:909-932 | the row loop removes exactly the row's answers and marks, keeping the answers judged |
| ChordTrainer.CollectCells | majorScale.js:1356-1367 | the nested loop collects the table's cells, key after key |
| ChordTrainer.MusicTheoryApp.constructor | majorScale.js:180-231 | no key selected, all chords, instant validation, free practice, no timer, empty answers, no quiz |
| ChordTrainer.MusicTheoryApp.StartApp | majorScale.js:395-461 | returns the first failing check; a failed start keeps the screen, answers, marks, quiz, table, progress and countdown, and a missing scale also keeps difficulty, validation and practice; on success a fresh table with the next counter, the countdown iff timed (the seconds kept when untimed), and a quiz only in quiz practice (corrected behaviour) |
| ChordTrainer.MusicTheoryApp.StartAppAsWritten | majorScale.js:395-461 | as written: after a quiz session, a free-practice start refuses a chord on every zone; an untimed start can keep a countdown running |
| ChordTrainer.MusicTheoryApp.Configure | majorScale.js:397-428 | the settings each check leaves, up to the first failing one |
| ChordTrainer.MusicTheoryApp.Launch | majorScale.js:436-456 | the launch: a fresh table with the next counter, no countdown left running untimed (its seconds kept) and no quiz left active in free practice |
| ChordTrainer.MusicTheoryApp.LaunchAsWritten | majorScale.js:436-456 | the launch as written: a fresh table with the next counter; an untimed start leaves the countdown running state and seconds as they were; a free-practice start leaves the quiz as it was |
| ChordTrainer.MusicTheoryApp.Rebuild | majorScale.js:449-456 | a new empty table, progress 0 of 7 per key, and in quiz practice a quiz over every cell |
| ChordTrainer.MusicTheoryApp.UpdateProgress | majorScale.js:1453-1478 | the progress figures of the current answers; the countdown stops once every cell is filled |
| ChordTrainer.MusicTheoryApp.StartTimer | majorScale.js:464-486 | the countdown starts at minutes × 60 |
| ChordTrainer.MusicTheoryApp.StopTimer | majorScale.js:488-494 | the countdown stops |
| ChordTrainer.MusicTheoryApp.Tick | majorScale.js:472-480 | one second fewer; running iff seconds remain |
| ChordTrainer.MusicTheoryApp.ValidateZone | majorScale.js:1293-1311 | a filled cell gets the mark judging its chord; an empty cell is left alone |
| ChordTrainer.MusicTheoryApp.PlaceChord | majorScale.js:1253-1273 | the chord replaces the cell's answer; with instant validation it is judged, otherwise its old mark goes |
| ChordTrainer.MusicTheoryApp.FillCell | majorScale.js:1253-1276 | placing the chord, then the progress figures of the new answers |
| ChordTrainer.MusicTheoryApp.AddChordToCell | majorScale.js:1253-1290 | for a zone its callers let through, the chord fills the cell and the progress follows; during a quiz the cell is judged and leaves the quiz when right |
| ChordTrainer.MusicTheoryApp.PickFromMenu | majorScale.js:761-770 | a click opens the menu only on an empty zone, and during a quiz only on the asked-for zone; otherwise nothing changes, and a pick does what `addChordToCell` does |
| ChordTrainer.MusicTheoryApp.HandleDrop | majorScale.js:835-884 | a drop refused in a quiz changes nothing; an accepted drop does what the menu does |
| ChordTrainer.MusicTheoryApp.RemoveChordFromCell | majorScale.js:887-906 | the cell loses its chord and mark; the progress follows when it had one, and the countdown stops iff the table is then full; an empty cell changes nothing |
| ChordTrainer.MusicTheoryApp.ClearScaleRow | majorScale.js:909-932 | the row's answers and marks go, other rows keep theirs, the progress follows, and the countdown stops iff the table is then full |
| ChordTrainer.MusicTheoryApp.CheckAllAnswers | majorScale.js:1314-1329 | every filled cell, and only those, carries the mark judging its chord; the progress follows, and the countdown stops iff the table is then full |
| ChordTrainer.MusicTheoryApp.InitQuizMode | majorScale.js:1356-1373 | the quiz becomes active over every cell of the table and asks for one of them |
| ChordTrainer.MusicTheoryApp.PickNextQuizCell | majorScale.js:1376-1419 | with no cell left the quiz ends and the progress follows; otherwise a remaining cell of the current table is asked for |
| ChordTrainer.MusicTheoryApp.AskForCell | majorScale.js:1393-1409 | a remaining cell, chosen at random, is asked for on the current table |
| ChordTrainer.MusicTheoryApp.CheckQuizAnswer | majorScale.js:1422-1450 | the cell is judged and leaves the quiz exactly when it holds the table's chord |
| ChordTrainer.MusicTheoryApp.ResetApp | majorScale.js:1332-1353 | timed and not confirmed: nothing changes; otherwise a rebuild (a new empty table), restarting the countdown when timed |
| ChordTrainer.MusicTheoryApp.ShowStartScreen | majorScale.js:513-521 | the countdown stops and the quiz is cleared, then the reset runs: a refused timed reset keeps answers, marks, table, progress and seconds; otherwise a new empty table, with the countdown restarted at minutes × 60 when timed and a new quiz in quiz practice; the start screen shows |
| Router.FindPost | main.js:233 | `find` returns a listed post with that id, or none when no post has it |
| Router.HandleHashChange | main.js:215-227 | the scripts load only for a non-empty hash, and always when the page shown belongs to the blog |
| Router.NeedsBlogScriptsIff | main.js:208-213 | no scripts for the empty hash; otherwise scripts iff the hash is "blog", starts with "blog/" or is a post id |
| Router.UnknownHashShowsAbout | main.js:229-249 | an empty or unknown hash shows the about section |
| Router.BlogPathRoute | main.js:231-238 | `blog/<id>` shows that post when it exists and the blog list otherwise |
| Router.SectionRoute | main.js:239-240 | "blog", "about" and "contact" show their own section |
| Router.BarePostIdRoute | main.js:241-242 | a bare post id shows that post |
| Router.RouteTargetsExist | main.js:229-249 | every hash ends on one of the three sections or on a listed post |
| Router.ScriptsExactlyForBlogPages | main.js:208-249 | the scripts load for every hash that ends on a blog page, and, when no post id is "about" or "contact", only for those |
| Router.PostHashRoundTrip | main.js:328 | the hash `loadPost` writes, `blog/<id>`, routes back to that post and loads the scripts |
| Router.SitePostsRoute | main.js:1-23 | each of the site's three posts is reached by its bare id and by `blog/<id>` |
| ContactForm.PlainPrefix | zacharzyce/script.js:166 | the greedy run of `[^\s@]` characters at the start of the text |
| ContactForm.ValidEmailMatches | zacharzyce/script.js:165-168 | an accepted address splits as run, '@', run, '.', run |
| ContactForm.PatternIsValidEmail | zacharzyce/script.js:165-168 | any such split is accepted |
| ContactForm.EmailMatcherIsPattern | zacharzyce/script.js:165-168 | the check accepts exactly the strings the pattern describes |
| ContactForm.EmailConditions | zacharzyce/script.js:165-168 | valid iff: no whitespace; exactly one '@'; something before it; a '.' after it that neither begins nor ends the domain |
| ContactForm.ValidEmailConditions | zacharzyce/script.js:166 | an accepted address has no whitespace and one '@', with a dot inside its domain |
| ContactForm.ConditionsValidEmail | zacharzyce/script.js:166 | the four conditions suffice for acceptance |
| ContactForm.ValidEmailShape | zacharzyce/script.js:166 | a valid address holds exactly one '@' and no whitespace |
| ContactForm.SubmitSentIff | zacharzyce/script.js:108-130 | a form is sent iff name, subject and message are non-empty, the address is valid and consent is given |
| ContactForm.SubmitOrder | zacharzyce/script.js:108-124 | the checks in order: missing fields first, then a bad address, then missing consent, each iff its check fails after the earlier ones pass |
| ContactForm.SubmitIgnoresOptional | zacharzyce/script.js:98-106 | the phone number and the newsletter box do not affect the outcome |
| ContactForm.ValidateFieldIff | zacharzyce/script.js:312-324 | a field passes iff it is optional or holds more than whitespace, and an e-mail field's trimmed non-blank value is a valid address; "required" is reported iff the field is required and blank |
| ContactForm.SubmittedEmailPassesField | zacharzyce/script.js:115 | an address the submit handler accepts also passes the e-mail field's own check |
| ContactForm.BlankNameDisagreement | zacharzyce/script.js:109 | a name of spaces passes the submit check (no trim there) but fails `validateField` (which trims) |

## Left out

- Everything the scripts do on the page is left out:
  - the DOM (element creation, classes, scrolling, the SVG fretboard, tooltips, modal placement);
  - translations and themes, `alert`/`confirm` texts, and `console` logging.
  - A `confirm` answer is a parameter (`ResetApp`, `ShowStartScreen`).
- `try`/`catch` wrappers are left out. The modelled operations do not throw on the note spellings, chord names, keys and hashes the pages pass them. The one exception is the inherited-name case in the next line.
- Pitch.EnharmonicMap, Pitch.IsEnharmonicMatch, Pitch.FormatNote, Pitch.MatchSymmetric, Pitch.FormatNamesSamePitch and Fretboard.FretboardTrainer.SelectNote model the note maps as lookups in their own keys only. On the page they are object literals, so a name inherited from `Object.prototype` (`toString`, `constructor`, `__proto__`, ...) is found too:
  - `isEnharmonicMatch("toString", "C")` throws a TypeError at `.includes` (fretboard.js:780), where the model returns false;
  - in sharps mode `formatNote("constructor")` returns the `Object` function (fretboard.js:795), where the model returns "constructor";
  - `selectNote` on such a name therefore throws before `score.total++` (fretboard.js:694-695), where the model records a wrong answer.
  - The page only ever passes spellings from the note list and the tables (fretboard.js:452-458, 718), none of which is an inherited name. The contracts of these members are stated for every string, and they agree with the page on those spellings.
- `parseInt` is modelled as its result. A number field is an `Option<int>`, with `None` for `NaN`, so partial parses of text like "12abc" are not modelled.
- Strings are sequences of Unicode scalar values, not UTF-16 code units. The e-mail pattern's classes only exclude BMP characters, so a surrogate pair matches `[^\s@]` either way.
- `\s` is the ECMAScript WhiteSpace and LineTerminator set as listed in `JsStrings.IsJsWhitespace`. Future Unicode space separators are not covered.
- The answers are keyed by `Cell` values rather than by the strings `scale-degree`. `ChordTable.CellKeyInjective` shows the two keyings agree.
- `isShowingError`/`isShowingCorrect` in the fretboard trainer are left out. They block input while a verdict is on screen, and only the timing between answers depends on them.
- `updateScore`'s percentage text is left out.
- Delayed callbacks are left out as timers:
  - The next question 1.5 s or 2 s after an answer is `NextQuestion`, called by the caller.
  - The next quiz cell 0.5 s after a right answer is `PickNextQuizCell`, called by the caller.
  - A countdown tick is `Tick`, called while the interval runs.
- `ChordTrainer.MusicTheoryApp.Rebuild` inlines `buildTable`, `updateProgress` and `initQuizMode`. `buildTable`'s DOM work is left out; the new drop zones are modelled by the table counter in `Zone`.
- The chord bank is page output only. The class keeps no copy, and the rebuild does not compute it. `ChordTrainer.BuildChordBank` models `buildChordBank` on its own, over `BankScales`.
- ChordTable.ChordAt, ChordTable.ValidateCell, ChordCells.BankOf and ChordTrainer.BuildChordBank read the corrected C flat row (see Findings), not the row as written. At cell (Cb, VII) the model therefore judges "Bbdim" right and "Bdim" wrong, and its bank for C flat offers "Bbdim"; the page as written does the reverse. The row as written is kept as `ChordTable.ScalesDataAsWritten`, equal to the corrected table in the other 14 rows.
- `updateScaleClearButtons`, drag start/end/over/leave highlighting and `showChordDropdown` are left out (presentation only).
- In `main.js`, the following are left out:
  - script loading (`loadBlogScripts`, a network operation);
  - post fetching and Markdown rendering (`loadPost`);
  - `renderBlogList`, `showSection`'s navigation highlighting, and the theme and year helpers.
  - The load's success or failure is not a parameter of `HandleHashChange`, because both paths route the same way.
- In `zacharzyce/script.js`, `showFormMessage`'s display and timeout, the form reset and the `localStorage` record are left out. `validateField`'s styling and error element are left out; its verdict and message text are modelled.
- ChordTrainer.MusicTheoryApp.HandleDrop: the drop target is taken to be the drop zone itself. The page redirects only a drop on the remove button (majorScale.js:840-844). A drop on a filled zone's chord-text span reads no `data-scale`/`data-degree`, so it stores the chord under the key "undefined-NaN" (majorScale.js:851-852, 867-868). That key then counts as a filled cell in `updateProgress` (majorScale.js:1456), and a miscount can stop the countdown early (majorScale.js:1472-1473). The model has no such key, because answers are keyed by `Cell`.
- ChordTrainer.MusicTheoryApp.PickFromMenu: a click and the pick from the menu it opens are one step. On the page the two are separate events, and `option.onclick` (majorScale.js:1043-1050) calls `addChordToCell` with no gate of its own. A pick made from a menu opened earlier, after that zone was filled by a drop or the quiz moved to another cell, fills the zone on the page; the model refuses it.
- Fretboard.FretboardTrainer.StartApp: requires six checkboxes, as the page has six string checkboxes.

## Findings

| source | as written | input that shows it | evidently intended | confidence | as-written member | corrected member |
|---|---|---|---|---|---|---|
| majorScale.js:163 | the C flat row's VII is "Bdim" | cell (Cb, VII): the correct B flat diminished triad "Bbdim" is judged wrong, and "Bdim", a semitone too high, is judged right | "Bbdim", the triad on the seventh degree (B flat) of C flat major | high, not executed | ChordTable.CFlatLeadingToneAsWritten | ChordTable.TableFits |
| majorScale.js:513-521 | `showStartScreen` clears the quiz, then `resetApp` re-initialises it in quiz practice; `startApp` never clears it for free practice | a quiz session, then the menu (no timer), then a free-practice start: the quiz stays active and `handleDrop` refuses a chord on every zone of the new table | a free-practice session has no active quiz | medium, not executed | ChordTrainer.MusicTheoryApp.StartAppAsWritten | ChordTrainer.MusicTheoryApp.StartApp |
| majorScale.js:436-443 | `startApp` starts the countdown when timed, but never stops a running one when untimed | a timed session, then the menu with the reset confirmed (the countdown restarts), then an untimed start: the countdown keeps running and announces "time up" | an untimed session has no countdown | medium, not executed | ChordTrainer.MusicTheoryApp.LaunchAsWritten | ChordTrainer.MusicTheoryApp.Launch |
