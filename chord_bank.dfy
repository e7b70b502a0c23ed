/**
 * The pure parts of the chord bank of the major-key chord trainer: removing
 * repeated chords (`[...new Set(chords)]`), the default string order of
 * `Array.prototype.sort`, and the grouping of chords by their first letter
 * (`groupChordsByNote`).
 */
module ChordBank {

  predicate NoDuplicates<T(==)>(s: seq<T>) {
    forall i, j :: 0 <= i < j < |s| ==> s[i] != s[j]
  }

  /** In a list without repeats, the last element is not among the others. */
  lemma LastIsNew<T>(s: seq<T>)
    requires s != [] && NoDuplicates(s)
    ensures s[|s| - 1] !in s[..|s| - 1]
    ensures NoDuplicates(s[..|s| - 1])
  {
    var init := s[..|s| - 1];
    forall k | 0 <= k < |init| ensures init[k] != s[|s| - 1] {
      assert init[k] == s[k];
    }
  }

  // ----- removing repeats ---------------------------------------------------------

  /** `[...new Set(chords)]`: every chord once, in the order of first appearance. */
  function Dedup(chords: seq<string>): seq<string>
  {
    if chords == [] then []
    else
      var unique := Dedup(chords[..|chords| - 1]);
      var last := chords[|chords| - 1];
      if last in unique then unique else unique + [last]
  }

  /** The result holds exactly the chords of the input, each once. */
  lemma {:induction false} DedupSpec(chords: seq<string>)
    ensures forall c :: c in Dedup(chords) <==> c in chords
    ensures NoDuplicates(Dedup(chords))
  {
    if chords != [] {
      var init := chords[..|chords| - 1];
      DedupSpec(init);
      assert chords == init + [chords[|chords| - 1]];
    }
  }

  /** A list without repeats is left as it is, so removing repeats twice changes nothing more. */
  lemma {:induction false} DedupKeeps(chords: seq<string>)
    requires NoDuplicates(chords)
    ensures Dedup(chords) == chords
  {
    if chords != [] {
      var init := chords[..|chords| - 1];
      var last := chords[|chords| - 1];
      assert NoDuplicates(init);
      DedupKeeps(init);
      DedupSpec(init);
      assert last !in init by {
        forall k | 0 <= k < |init| ensures init[k] != last {
          assert init[k] == chords[k];
        }
      }
      assert chords == init + [last];
    }
  }

  lemma DedupIdempotent(chords: seq<string>)
    ensures Dedup(Dedup(chords)) == Dedup(chords)
  {
    DedupSpec(chords);
    DedupKeeps(Dedup(chords));
  }

  // ----- the default sort order ---------------------------------------------------

  /** The default order of `sort()`: strings compared character by character, a prefix first. */
  predicate LexLe(a: string, b: string)
    decreases |a|
  {
    if a == [] then true
    else if b == [] then false
    else if a[0] != b[0] then a[0] < b[0]
    else LexLe(a[1..], b[1..])
  }

  lemma {:induction false} LexReflexive(a: string)
    ensures LexLe(a, a)
    decreases |a|
  {
    if a != [] {
      LexReflexive(a[1..]);
    }
  }

  lemma {:induction false} LexTotal(a: string, b: string)
    ensures LexLe(a, b) || LexLe(b, a)
    decreases |a|
  {
    if a != [] && b != [] && a[0] == b[0] {
      LexTotal(a[1..], b[1..]);
    }
  }

  lemma {:induction false} LexAntisymmetric(a: string, b: string)
    requires LexLe(a, b) && LexLe(b, a)
    ensures a == b
    decreases |a|
  {
    if a != [] {
      LexAntisymmetric(a[1..], b[1..]);
      assert a == [a[0]] + a[1..] && b == [b[0]] + b[1..];
    }
  }

  lemma {:induction false} LexTransitive(a: string, b: string, c: string)
    requires LexLe(a, b) && LexLe(b, c)
    ensures LexLe(a, c)
    decreases |a|
  {
    if a != [] && a[0] == b[0] && b[0] == c[0] {
      LexTransitive(a[1..], b[1..], c[1..]);
    }
  }

  predicate Sorted(s: seq<string>) {
    forall i, j :: 0 <= i < j < |s| ==> LexLe(s[i], s[j])
  }

  /** Puts x in front of the first element it does not follow. */
  function Insert(x: string, s: seq<string>): seq<string>
  {
    if s == [] then [x]
    else if LexLe(x, s[0]) then [x] + s
    else [s[0]] + Insert(x, s[1..])
  }

  /** `array.sort()` with the default order, as an insertion sort. */
  function SortStrings(s: seq<string>): seq<string>
  {
    if s == [] then [] else Insert(s[0], SortStrings(s[1..]))
  }

  lemma {:induction false} InsertMultiset(x: string, s: seq<string>)
    ensures multiset(Insert(x, s)) == multiset(s) + multiset{x}
  {
    if s != [] && !LexLe(x, s[0]) {
      InsertMultiset(x, s[1..]);
      assert s == [s[0]] + s[1..];
    }
  }

  /** Every element of `Insert(x, s)` is x or an element of s. */
  lemma InsertMembers(x: string, s: seq<string>, k: int)
    requires 0 <= k < |Insert(x, s)|
    ensures Insert(x, s)[k] == x || Insert(x, s)[k] in s
  {
    InsertMultiset(x, s);
    assert Insert(x, s)[k] in multiset(Insert(x, s));
  }

  lemma {:induction false} InsertSorted(x: string, s: seq<string>)
    requires Sorted(s)
    ensures Sorted(Insert(x, s))
  {
    if s == [] {
    } else if LexLe(x, s[0]) {
      var r := [x] + s;
      forall i, j | 0 <= i < j < |r| ensures LexLe(r[i], r[j]) {
        if i == 0 && j > 1 {
          LexTransitive(x, s[0], s[j - 1]);
        }
      }
    } else {
      LexTotal(x, s[0]);
      var tail := s[1..];
      InsertSorted(x, tail);
      var inserted := Insert(x, tail);
      forall k | 0 <= k < |inserted| ensures LexLe(s[0], inserted[k]) {
        InsertMembers(x, tail, k);
        if inserted[k] != x {
          var m :| 0 <= m < |tail| && tail[m] == inserted[k];
          assert s[m + 1] == tail[m];
        }
      }
      var r := [s[0]] + inserted;
      forall i, j | 0 <= i < j < |r| ensures LexLe(r[i], r[j]) {
        assert r[j] == inserted[j - 1];
        if i > 0 {
          assert r[i] == inserted[i - 1];
        }
      }
    }
  }

  /** Sorting gives a sorted rearrangement of the same strings. */
  lemma {:induction false} SortSpec(s: seq<string>)
    ensures multiset(SortStrings(s)) == multiset(s)
    ensures Sorted(SortStrings(s))
  {
    if s != [] {
      SortSpec(s[1..]);
      InsertMultiset(s[0], SortStrings(s[1..]));
      InsertSorted(s[0], SortStrings(s[1..]));
      assert s == [s[0]] + s[1..];
    }
  }

  /**
   * A sorted rearrangement is unique: any sort under this order, not only
   * an insertion sort, yields the same list.
   */
  lemma {:induction false} SortedUnique(a: seq<string>, b: seq<string>)
    requires Sorted(a) && Sorted(b) && multiset(a) == multiset(b)
    ensures a == b
    decreases |a|
  {
    if a != [] {
      SortedHeadIsLeast(b, a[0]);
      SortedHeadIsLeast(a, b[0]);
      LexAntisymmetric(a[0], b[0]);
      TailMultiset(a);
      TailMultiset(b);
      SortedUnique(a[1..], b[1..]);
    }
  }

  lemma TailMultiset(s: seq<string>)
    requires s != []
    ensures multiset(s[1..]) == multiset(s) - multiset{s[0]}
  {
    assert s == [s[0]] + s[1..];
  }

  /** The head of a sorted list comes no later than any of its elements. */
  lemma SortedHeadIsLeast(s: seq<string>, x: string)
    requires Sorted(s) && x in multiset(s)
    ensures |s| > 0 && LexLe(s[0], x)
  {
    var i :| 0 <= i < |s| && s[i] == x;
    if i == 0 {
      LexReflexive(x);
    }
  }

  // ----- grouping by letter -------------------------------------------------------

  /** The group labels of the bank, in display order. */
  const NoteLetters: string := "ABCDEFG"

  /** The chords filed under `letter`: those whose first character it is, in input order. */
  function GroupOf(chords: seq<string>, letter: char): seq<string>
  {
    if chords == [] then []
    else
      var last := chords[|chords| - 1];
      GroupOf(chords[..|chords| - 1], letter) + if |last| >= 1 && last[0] == letter then [last] else []
  }

  /** Where `groups[letter]` sits among the group labels, or -1 when the letter has no group. */
  function GroupIndex(c: char): (g: int)
    ensures -1 <= g < |NoteLetters|
    ensures g >= 0 ==> NoteLetters[g] == c
    ensures g == -1 <==> c !in NoteLetters
  {
    match c
    case 'A' => 0
    case 'B' => 1
    case 'C' => 2
    case 'D' => 3
    case 'E' => 4
    case 'F' => 5
    case 'G' => 6
    case _ => -1
  }

  /**
   * `groupChordsByNote`: files each chord under its first character when
   * that is one of A to G, keeping input order, and drops the others.
   */
  method GroupChordsByNote(chords: seq<string>) returns (groups: seq<seq<string>>)
    ensures |groups| == |NoteLetters|
    ensures forall g :: 0 <= g < |NoteLetters| ==> groups[g] == GroupOf(chords, NoteLetters[g])
  {
    groups := [[], [], [], [], [], [], []];
    for i := 0 to |chords|
      invariant |groups| == |NoteLetters|
      invariant forall g :: 0 <= g < |NoteLetters| ==> groups[g] == GroupOf(chords[..i], NoteLetters[g])
    {
      var chord := chords[i];
      assert chords[..i + 1][..i] == chords[..i];
      if |chord| >= 1 {
        var g := GroupIndex(chord[0]);
        if g >= 0 {
          groups := groups[g := groups[g] + [chord]];
        }
      }
    }
    assert chords[..|chords|] == chords;
  }

  /** A group holds exactly the chords with that first letter, each as often as in the input. */
  lemma {:induction false} GroupOfSpec(chords: seq<string>, letter: char)
    ensures forall c :: c in GroupOf(chords, letter) <==> c in chords && |c| >= 1 && c[0] == letter
    ensures NoDuplicates(chords) ==> NoDuplicates(GroupOf(chords, letter))
  {
    if chords != [] {
      var init := chords[..|chords| - 1];
      var last := chords[|chords| - 1];
      GroupOfSpec(init, letter);
      assert chords == init + [last];
      if NoDuplicates(chords) {
        assert NoDuplicates(init);
        assert last !in init by {
          forall k | 0 <= k < |init| ensures init[k] != last {
            assert init[k] == chords[k];
          }
        }
      }
    }
  }

  /** Sorting keeps a list free of repeats. */
  lemma SortKeepsNoDuplicates(s: seq<string>)
    requires NoDuplicates(s)
    ensures NoDuplicates(SortStrings(s))
  {
    SortSpec(s);
    var r := SortStrings(s);
    forall i, j | 0 <= i < j < |r| ensures r[i] != r[j] {
      if r[i] == r[j] {
        assert multiset(r)[r[i]] >= 2 by {
          assert r == r[..j] + [r[j]] + r[j + 1..];
          assert r[i] in r[..j];
        }
        MultiplicityOfDistinct(s, r[i]);
      }
    }
  }

  lemma {:induction false} MultiplicityOfDistinct(s: seq<string>, x: string)
    requires NoDuplicates(s)
    ensures multiset(s)[x] <= 1
  {
    if s != [] {
      var init := s[..|s| - 1];
      assert s == init + [s[|s| - 1]];
      assert NoDuplicates(init);
      MultiplicityOfDistinct(init, x);
      if x == s[|s| - 1] {
        assert x !in init by {
          forall k | 0 <= k < |init| ensures init[k] != x {
            assert init[k] == s[k];
          }
        }
      }
    }
  }
}
