/**
 * The answer table of the major-key chord trainer as data: its cells and
 * drop zones, the answer keys `scale-degree`, the chord pool the bank is
 * built from, the progress figures and the quiz state.
 */
module ChordCells {
  import opened Wrappers
  import opened JsStrings
  import opened ChordTable
  import opened ChordBank

  /** A cell of the table: a key's row and a degree column, 0 for I up to 6 for VII. */
  datatype Cell = Cell(scale: string, degree: nat)

  /**
   * A drop-zone element: the cell it stands for in the table built by the
   * `table`-th call of `buildTable`. Rebuilding the table makes new
   * elements, so a zone of an older table is never the same object as one
   * of the current table.
   */
  datatype Zone = Zone(cell: Cell, table: nat)

  /** The key of a cell in `userAnswers`. */
  function Key(c: Cell): string {
    CellKey(c.scale, c.degree)
  }

  function RowCells(scale: string): seq<Cell> {
    [Cell(scale, 0), Cell(scale, 1), Cell(scale, 2), Cell(scale, 3), Cell(scale, 4), Cell(scale, 5), Cell(scale, 6)]
  }

  /** The cells of a table over `scales`, row by row and degree by degree. */
  function TableCells(scales: seq<string>): (cells: seq<Cell>)
    ensures |cells| == 7 * |scales|
    ensures forall c :: c in cells ==> c.scale in scales && c.degree < 7
  {
    if scales == [] then []
    else TableCells(scales[..|scales| - 1]) + RowCells(scales[|scales| - 1])
  }

  /** Every degree of every listed scale has its cell. */
  lemma {:induction false} TableCellsComplete(scales: seq<string>)
    ensures forall s, d: nat :: s in scales && d < 7 ==> Cell(s, d) in TableCells(scales)
  {
    if scales != [] {
      var init := scales[..|scales| - 1];
      var last := scales[|scales| - 1];
      TableCellsComplete(init);
      assert scales == init + [last];
      var cells := TableCells(scales);
      assert cells == TableCells(init) + RowCells(last);
      forall s, d: nat | s in scales && d < 7 ensures Cell(s, d) in cells {
        if s == last {
          assert RowCells(last)[d] == Cell(s, d);
        } else {
          assert s in init;
        }
      }
    }
  }

  /** Distinct scales give distinct cells. */
  lemma {:induction false} TableCellsDistinct(scales: seq<string>)
    requires NoDuplicates(scales)
    ensures NoDuplicates(TableCells(scales))
  {
    if scales != [] {
      var init := scales[..|scales| - 1];
      var last := scales[|scales| - 1];
      assert NoDuplicates(init);
      TableCellsDistinct(init);
      assert last !in init by {
        forall k | 0 <= k < |init| ensures init[k] != last {
          assert init[k] == scales[k];
        }
      }
      var front := TableCells(init);
      var row := RowCells(last);
      var cells := front + row;
      forall i, j | 0 <= i < j < |cells| ensures cells[i] != cells[j] {
        if j >= |front| && i < |front| {
          assert cells[i] in front && cells[j] == row[j - |front|];
        }
      }
    }
  }

  /**
   * The `scale-degree` keys of every cell of the table. No two cells share
   * a key, which is why the session's maps are keyed by the cell itself.
   */
  function TableKeys(scales: seq<string>): set<string> {
    set c | c in TableCells(scales) :: Key(c)
  }

  /** With distinct key names that hold no hyphen, the table has seven keys per scale. */
  lemma TableKeyCount(scales: seq<string>)
    requires NoDuplicates(scales)
    requires forall s :: s in scales ==> '-' !in s
    ensures |TableKeys(scales)| == 7 * |scales|
  {
    TableCellsDistinct(scales);
    KeyCount(TableCells(scales));
  }

  lemma {:induction false} KeyCount(cells: seq<Cell>)
    requires NoDuplicates(cells)
    requires forall c :: c in cells ==> '-' !in c.scale
    ensures |set c | c in cells :: Key(c)| == |cells|
  {
    if cells != [] {
      var init := cells[..|cells| - 1];
      var last := cells[|cells| - 1];
      assert cells == init + [last];
      LastIsNew(cells);
      KeyCount(init);
      var keys := set c | c in cells :: Key(c);
      var front := set c | c in init :: Key(c);
      assert keys == front + {Key(last)};
      assert Key(last) !in front by {
        forall c | c in init ensures Key(c) != Key(last) {
          CellKeyInjective(c.scale, c.degree, last.scale, last.degree);
        }
      }
    }
  }

  /** A subset as large as its superset is the whole of it. */
  lemma SubsetCount<T>(a: set<T>, b: set<T>)
    requires a <= b
    ensures |a| <= |b|
    ensures |a| == |b| ==> a == b
  {
    assert b == a + (b - a);
    assert a * (b - a) == {};
    if |a| == |b| {
      assert |b - a| == 0;
    }
  }

  /** A list without repeats has as many distinct elements as entries. */
  lemma {:induction false} DistinctCount<T>(s: seq<T>)
    requires NoDuplicates(s)
    ensures |set x | x in s| == |s|
  {
    if s != [] {
      var init := s[..|s| - 1];
      var last := s[|s| - 1];
      assert s == init + [last];
      LastIsNew(s);
      DistinctCount(init);
      assert (set x | x in s) == (set x | x in init) + {last};
    }
  }

  // ----- the table as a set of cells ------------------------------------------------

  /** Whether a cell belongs to the table over `scales`. */
  predicate InTable(scales: seq<string>, c: Cell) {
    c.scale in scales && c.degree < 7
  }

  /** The cells of the table, as a set. */
  function TableSet(scales: seq<string>): set<Cell> {
    set c | c in TableCells(scales)
  }

  lemma TableSetMembers(scales: seq<string>)
    ensures forall c :: c in TableSet(scales) <==> InTable(scales, c)
  {
    TableCellsComplete(scales);
  }

  /** Distinct scales give seven cells each. */
  lemma TableSetCount(scales: seq<string>)
    requires NoDuplicates(scales)
    ensures |TableSet(scales)| == 7 * |scales|
  {
    TableCellsDistinct(scales);
    DistinctCount(TableCells(scales));
  }

  // ----- the chord pool and the bank -----------------------------------------------

  /** The chords `buildChordBank` collects: the rows of `names`, one after another. */
  function Pool(names: seq<string>): seq<string>
    requires forall n :: n in names ==> n in ScaleNames
  {
    if names == [] then []
    else Pool(names[..|names| - 1]) + ChordsOf(names[|names| - 1])
  }

  /** The pool holds every chord of the listed rows and nothing else. */
  lemma {:induction false} PoolSpec(names: seq<string>)
    requires forall n :: n in names ==> n in ScaleNames
    ensures forall n, d :: n in names && 0 <= d < 7 ==> ChordAt(n, d) in Pool(names)
    ensures forall c :: c in Pool(names) ==> exists n, d :: n in names && 0 <= d < 7 && c == ChordAt(n, d)
  {
    if names != [] {
      var init := names[..|names| - 1];
      var last := names[|names| - 1];
      PoolSpec(init);
      assert names == init + [last];
      var row := ChordsOf(last);
      forall n, d | n in names && 0 <= d < 7 ensures ChordAt(n, d) in Pool(names) {
        if n == last {
          assert ChordAt(n, d) == row[d];
        } else {
          assert n in init;
        }
      }
      forall c | c in Pool(names) ensures exists n, d :: n in names && 0 <= d < 7 && c == ChordAt(n, d) {
        if c in row {
          var d :| 0 <= d < 7 && row[d] == c;
          assert c == ChordAt(last, d);
        } else {
          assert c in Pool(init);
          var n, d :| n in init && 0 <= d < 7 && c == ChordAt(n, d);
          assert n in names;
        }
      }
    }
  }

  /** Every pool chord starts with a note letter, so it has a group in the bank. */
  lemma PoolLetters(names: seq<string>)
    requires forall n :: n in names ==> n in ScaleNames
    ensures forall c :: c in Pool(names) ==> |c| >= 1 && GroupIndex(c[0]) >= 0
  {
    PoolSpec(names);
    forall c | c in Pool(names) ensures |c| >= 1 && GroupIndex(c[0]) >= 0 {
      var n, d :| n in names && 0 <= d < 7 && c == ChordAt(n, d);
      ChordLetter(n, d);
      LetterHasGroup(c[0]);
    }
  }

  lemma LetterHasGroup(ch: char)
    requires LetterIndex(ch) >= 0
    ensures GroupIndex(ch) >= 0
  {
  }

  /** One group of the bank: the chords of `unique` with that letter, sorted. */
  function BankGroup(unique: seq<string>, g: nat): seq<string>
    requires g < |NoteLetters|
  {
    SortStrings(GroupOf(unique, NoteLetters[g]))
  }

  /** The bank `buildChordBank` shows: the pool without repeats, grouped by letter, each group sorted. */
  function BankOf(names: seq<string>): (bank: seq<seq<string>>)
    requires forall n :: n in names ==> n in ScaleNames
    ensures |bank| == |NoteLetters|
  {
    var unique := Dedup(Pool(names));
    seq(7, g requires 0 <= g < 7 => BankGroup(unique, g))
  }

  /** A group is sorted, free of repeats, and holds exactly the chords of `unique` with its letter. */
  lemma BankGroupSpec(unique: seq<string>, g: nat)
    requires g < |NoteLetters| && NoDuplicates(unique)
    ensures Sorted(BankGroup(unique, g)) && NoDuplicates(BankGroup(unique, g))
    ensures forall c :: c in BankGroup(unique, g) <==> c in unique && |c| >= 1 && c[0] == NoteLetters[g]
  {
    var group := GroupOf(unique, NoteLetters[g]);
    GroupOfSpec(unique, NoteLetters[g]);
    SortSpec(group);
    SortKeepsNoDuplicates(group);
    forall c ensures c in SortStrings(group) <==> c in group {
      assert c in SortStrings(group) <==> c in multiset(SortStrings(group));
    }
  }

  /**
   * Each group of the bank is sorted and free of repeats and holds exactly
   * the pool chords with its letter; every pool chord sits in the group of
   * its first letter.
   */
  lemma BankSpec(names: seq<string>)
    requires forall n :: n in names ==> n in ScaleNames
    ensures forall g :: 0 <= g < |NoteLetters| ==> Sorted(BankOf(names)[g]) && NoDuplicates(BankOf(names)[g])
    ensures forall g, c :: 0 <= g < |NoteLetters| ==>
      (c in BankOf(names)[g] <==> c in Pool(names) && |c| >= 1 && c[0] == NoteLetters[g])
    ensures forall c :: c in Pool(names) ==> |c| >= 1 && 0 <= GroupIndex(c[0]) && c in BankOf(names)[GroupIndex(c[0])]
  {
    var bank := BankOf(names);
    var unique := Dedup(Pool(names));
    DedupSpec(Pool(names));
    PoolLetters(names);
    forall g | 0 <= g < |NoteLetters|
      ensures Sorted(bank[g]) && NoDuplicates(bank[g])
      ensures forall c :: c in bank[g] <==> c in Pool(names) && |c| >= 1 && c[0] == NoteLetters[g]
    {
      BankGroupSpec(unique, g);
    }
  }

  // ----- progress -------------------------------------------------------------------

  /** The figures of the progress line: filled cells out of all, and cells marked correct. */
  datatype Progress = Progress(filled: nat, total: nat, correct: nat)
  {
    /** The line adds "correct: c/filled" only when something is correct. */
    predicate ShowsCorrect() {
      correct > 0
    }

    /** The line adds the congratulations when the table is full and all of it correct. */
    predicate Congratulates() {
      filled == total && correct == total
    }
  }

  /** The cells carrying the correct mark. */
  function RightCells(marks: map<Cell, bool>): set<Cell> {
    set c | c in marks && marks[c]
  }

  /** The number of cells carrying the correct mark. */
  function CorrectCount(marks: map<Cell, bool>): nat {
    |RightCells(marks)|
  }

  /** How many entries of `cells` belong to `keys`, counted along the table. */
  function CountIn(cells: seq<Cell>, keys: set<Cell>): nat
  {
    if cells == [] then 0
    else CountIn(cells[..|cells| - 1], keys) + if cells[|cells| - 1] in keys then 1 else 0
  }

  lemma {:induction false} CountInNothing(cells: seq<Cell>)
    ensures CountIn(cells, {}) == 0
  {
    if cells != [] {
      CountInNothing(cells[..|cells| - 1]);
    }
  }

  /** Counted along a list without repeats, each member of `keys` on the list counts once. */
  lemma {:induction false} CountInSize(cells: seq<Cell>, keys: set<Cell>)
    requires NoDuplicates(cells)
    ensures CountIn(cells, keys) == |keys * set c | c in cells|
  {
    if cells != [] {
      var init := cells[..|cells| - 1];
      var last := cells[|cells| - 1];
      LastIsNew(cells);
      CountInSize(init, keys);
      assert cells == init + [last];
      var before := keys * set c | c in init;
      assert last !in before;
      if last in keys {
        assert (keys * set c | c in cells) == before + {last};
      } else {
        assert (keys * set c | c in cells) == before;
      }
    }
  }

  /** Counting along the table finds every cell of a set that lies inside the table. */
  lemma CountInTable(scales: seq<string>, keys: set<Cell>)
    requires NoDuplicates(scales)
    requires forall c :: c in keys ==> InTable(scales, c)
    ensures CountIn(TableCells(scales), keys) == |keys|
  {
    TableCellsDistinct(scales);
    TableSetMembers(scales);
    CountInSize(TableCells(scales), keys);
    assert keys * TableSet(scales) == keys;
  }

  /**
   * Counting along the table gives the number of answers and the number of
   * correct marks, as long as no answer lies outside the table.
   */
  lemma TableCounts(scales: seq<string>, answers: map<Cell, string>, marks: map<Cell, bool>)
    requires NoDuplicates(scales)
    requires (forall c :: c in answers ==> InTable(scales, c)) && marks.Keys <= answers.Keys
    ensures CountIn(TableCells(scales), answers.Keys) == |answers|
    ensures CountIn(TableCells(scales), RightCells(marks)) == CorrectCount(marks)
  {
    CountInTable(scales, answers.Keys);
    CountInTable(scales, RightCells(marks));
  }

  // ----- the quiz -------------------------------------------------------------------

  /** `quizMode`: whether a quiz runs, the zone it asks for, and the cells still to answer. */
  datatype Quiz = Quiz(active: bool, current: Option<Zone>, availableCells: seq<Cell>)

  const IdleQuiz: Quiz := Quiz(false, None, [])

  /** The gate of a drop or a click: during a quiz only the asked-for zone takes a chord. */
  predicate DropAllowed(quiz: Quiz, zone: Zone) {
    !(quiz.active && quiz.current != Some(zone))
  }

  /** `availableCells.filter(cell => !(cell.scale === scale && cell.degree === degree))`. */
  function WithoutCell(cells: seq<Cell>, c: Cell): seq<Cell>
  {
    if cells == [] then []
    else
      var last := cells[|cells| - 1];
      WithoutCell(cells[..|cells| - 1], c) + if last == c then [] else [last]
  }

  /** Filtering removes the answered cell, keeps every other one, and shortens a list that held it. */
  lemma {:induction false} WithoutCellSpec(cells: seq<Cell>, c: Cell)
    ensures forall x :: x in WithoutCell(cells, c) <==> x in cells && x != c
    ensures |WithoutCell(cells, c)| <= |cells|
    ensures c in cells ==> |WithoutCell(cells, c)| < |cells|
  {
    if cells != [] {
      var init := cells[..|cells| - 1];
      WithoutCellSpec(init, c);
      assert cells == init + [cells[|cells| - 1]];
    }
  }
}
