/**
  * The revision session's view model: the words still to revise, the word on
  * screen, the revise screen's route, the answer status and the countdown text.
  * The Kotlin singleton keeps each of these in a state flow; here each is a
  * field of one object, and every setter reassigns exactly its own field.
  */
module ReviseModel {
  import opened Wrappers

  /** A dictionary word of the lyrics; only its surface text is read here. */
  datatype Word = Word(word: string)

  /** A word queued for revision; `rest` stands for its other fields, which nothing here reads. */
  datatype ReviseWord = ReviseWord(word: Word, rest: int)

  /** Whether the learner's last answer was right. */
  datatype Answer = NoAnswer | Correct | Wrong

  function Surface(w: ReviseWord): string {
    w.word.word
  }

  // ---------------------------------------------------------------------
  // The list operations nextWord is built from
  // ---------------------------------------------------------------------

  /** `filter { w -> w.word.word != surface }`: the entries with another surface text, in order. */
  function WithoutSurface(ws: seq<ReviseWord>, surface: string): (r: seq<ReviseWord>)
    ensures |r| <= |ws|
  {
    if ws == [] then []
    else (if Surface(ws[0]) != surface then [ws[0]] else []) + WithoutSurface(ws[1..], surface)
  }

  /** How many entries have the given surface text. */
  function CountSurface(ws: seq<ReviseWord>, surface: string): nat {
    if ws == [] then 0
    else (if Surface(ws[0]) == surface then 1 else 0) + CountSurface(ws[1..], surface)
  }

  /**
    * `ArrayList.add(index, element)`: the element is inserted before position
    * `index`; an index outside `0..size` throws IndexOutOfBoundsException,
    * modelled as `None`.
    */
  function ListAdd(ws: seq<ReviseWord>, index: int, w: ReviseWord): (r: Option<seq<ReviseWord>>)
    ensures r.Some? <==> 0 <= index <= |ws|
    ensures r.Some? ==> |r.value| == |ws| + 1 && r.value[index] == w
    ensures r.Some? ==> r.value[..index] == ws[..index] && r.value[index + 1..] == ws[index..]
  {
    if 0 <= index <= |ws| then Some(ws[..index] + [w] + ws[index..]) else None
  }

  /**
    * The list nextWord leaves behind: every entry with the current word's
    * surface text removed, then the current word inserted at the old last
    * index of the filtered list. `None` is the IndexOutOfBoundsException of
    * `add(-1, ...)` when nothing is left after filtering.
    */
  function NextWordList(ws: seq<ReviseWord>, current: ReviseWord): Option<seq<ReviseWord>> {
    var filtered := WithoutSurface(ws, Surface(current));
    ListAdd(filtered, |filtered| - 1, current)
  }

  // ---------------------------------------------------------------------
  // What filtering promises
  // ---------------------------------------------------------------------

  /** Filtering drops exactly the matching entries, so the survivors and the matches add up to the list. */
  lemma {:induction false} WithoutSurfaceLength(ws: seq<ReviseWord>, surface: string)
    ensures |WithoutSurface(ws, surface)| + CountSurface(ws, surface) == |ws|
  {
    if ws != [] {
      WithoutSurfaceLength(ws[1..], surface);
    }
  }

  /** No survivor of the filter has the surface text. */
  lemma {:induction false} WithoutSurfaceNoMatch(ws: seq<ReviseWord>, surface: string)
    ensures CountSurface(WithoutSurface(ws, surface), surface) == 0
  {
    if ws != [] {
      WithoutSurfaceNoMatch(ws[1..], surface);
      var head := if Surface(ws[0]) != surface then [ws[0]] else [];
      var tail := WithoutSurface(ws[1..], surface);
      assert WithoutSurface(ws, surface) == head + tail;
      if head != [] {
        assert (head + tail)[1..] == tail;
      } else {
        assert head + tail == tail;
      }
    }
  }

  /** Every entry with another surface text survives as often as it occurred; the others not at all. */
  lemma {:induction false} WithoutSurfaceMultiset(ws: seq<ReviseWord>, surface: string)
    ensures forall w :: multiset(WithoutSurface(ws, surface))[w] == (if Surface(w) == surface then 0 else multiset(ws)[w])
  {
    if ws != [] {
      WithoutSurfaceMultiset(ws[1..], surface);
      var head := if Surface(ws[0]) != surface then [ws[0]] else [];
      var tail := WithoutSurface(ws[1..], surface);
      assert ws == [ws[0]] + ws[1..];
      assert multiset(ws) == multiset{ws[0]} + multiset(ws[1..]);
      assert multiset(WithoutSurface(ws, surface)) == multiset(head) + multiset(tail);
    }
  }

  /** Counting distributes over concatenation. */
  lemma {:induction false} CountSurfaceAppend(a: seq<ReviseWord>, b: seq<ReviseWord>, surface: string)
    ensures CountSurface(a + b, surface) == CountSurface(a, surface) + CountSurface(b, surface)
  {
    if a != [] {
      assert (a + b)[1..] == a[1..] + b;
      CountSurfaceAppend(a[1..], b, surface);
    } else {
      assert a + b == b;
    }
  }

  /** Filtering distributes over concatenation, so it keeps the survivors in their original order. */
  lemma {:induction false} WithoutSurfaceAppend(a: seq<ReviseWord>, b: seq<ReviseWord>, surface: string)
    ensures WithoutSurface(a + b, surface) == WithoutSurface(a, surface) + WithoutSurface(b, surface)
  {
    if a != [] {
      assert (a + b)[1..] == a[1..] + b;
      WithoutSurfaceAppend(a[1..], b, surface);
    } else {
      assert a + b == b;
    }
  }

  /** Nothing survives the filter exactly when every entry has the surface text. */
  lemma {:induction false} WithoutSurfaceEmpty(ws: seq<ReviseWord>, surface: string)
    ensures WithoutSurface(ws, surface) == [] <==> forall i :: 0 <= i < |ws| ==> Surface(ws[i]) == surface
  {
    if ws != [] {
      WithoutSurfaceEmpty(ws[1..], surface);
      if Surface(ws[0]) == surface {
        forall i | 1 <= i < |ws| ensures ws[i] == ws[1..][i - 1] { }
      }
    }
  }

  /** Filtering twice by the same surface text changes nothing the second time. */
  lemma {:induction false} WithoutSurfaceIdempotent(ws: seq<ReviseWord>, surface: string)
    ensures WithoutSurface(WithoutSurface(ws, surface), surface) == WithoutSurface(ws, surface)
  {
    if ws != [] {
      var head := if Surface(ws[0]) != surface then [ws[0]] else [];
      WithoutSurfaceAppend(head, WithoutSurface(ws[1..], surface), surface);
      WithoutSurfaceIdempotent(ws[1..], surface);
      assert WithoutSurface(head, surface) == head by {
        if head != [] {
          assert head[1..] == [];
        }
      }
    }
  }

  // ---------------------------------------------------------------------
  // What nextWord promises
  // ---------------------------------------------------------------------

  /** nextWord throws exactly when no entry has a surface text other than the current word's. */
  lemma NextWordListFails(ws: seq<ReviseWord>, current: ReviseWord)
    ensures NextWordList(ws, current).None? <==>
      forall i :: 0 <= i < |ws| ==> Surface(ws[i]) == Surface(current)
  {
    WithoutSurfaceEmpty(ws, Surface(current));
  }

  /** Where nextWord puts the current word: just before the last surviving entry. */
  lemma NextWordListShape(ws: seq<ReviseWord>, current: ReviseWord)
    requires NextWordList(ws, current).Some?
    ensures var f := WithoutSurface(ws, Surface(current));
      var r := NextWordList(ws, current).value;
      |f| >= 1 && r == f[..|f| - 1] + [current] + [f[|f| - 1]] && current in r
  {
    var f := WithoutSurface(ws, Surface(current));
    assert f[..|f| - 1] + [f[|f| - 1]] == f;
  }

  /** Removing the current word again gives back the survivors, in their original order. */
  lemma NextWordListKeepsOthers(ws: seq<ReviseWord>, current: ReviseWord)
    requires NextWordList(ws, current).Some?
    ensures WithoutSurface(NextWordList(ws, current).value, Surface(current)) == WithoutSurface(ws, Surface(current))
  {
    var s := Surface(current);
    var f := WithoutSurface(ws, s);
    NextWordListShape(ws, current);
    var front, back := f[..|f| - 1], [f[|f| - 1]];
    assert f == front + back;
    WithoutSurfaceIdempotent(ws, s);
    WithoutSurfaceAppend(front, back, s);
    WithoutSurfaceAppend(front + [current], back, s);
    WithoutSurfaceAppend(front, [current], s);
    assert WithoutSurface([current], s) == [] by {
      assert [current][1..] == [];
    }
  }

  /**
    * After a successful nextWord exactly one entry has the current word's
    * surface text, the list is one longer than the survivors of the filter,
    * and it holds the survivors and the current word, nothing more.
    */
  lemma NextWordListCounts(ws: seq<ReviseWord>, current: ReviseWord)
    requires NextWordList(ws, current).Some?
    ensures var r := NextWordList(ws, current).value;
      && |r| == |ws| - CountSurface(ws, Surface(current)) + 1
      && CountSurface(r, Surface(current)) == 1
      && multiset(r) == multiset(WithoutSurface(ws, Surface(current))) + multiset{current}
  {
    var s := Surface(current);
    var f := WithoutSurface(ws, s);
    var r := NextWordList(ws, current).value;
    NextWordListShape(ws, current);
    WithoutSurfaceLength(ws, s);
    var front, back := f[..|f| - 1], [f[|f| - 1]];
    assert f == front + back;
    WithoutSurfaceNoMatch(ws, s);
    CountSurfaceAppend(front, back, s);
    CountSurfaceAppend(front + [current], back, s);
    CountSurfaceAppend(front, [current], s);
    assert CountSurface([current], s) == 1 by {
      assert [current][1..] == [];
    }
    assert multiset(r) == multiset(front) + multiset{current} + multiset(back);
  }

  // ---------------------------------------------------------------------
  // The view model
  // ---------------------------------------------------------------------

  class WordReviseViewModel {
    var currentWord: ReviseWord
    var screen: string
    var wordsToRevise: seq<ReviseWord>
    var answerStatus: Answer
    var formattedTime: string

    /** The initial state; `initialWord` is the default `ReviseWord()`, whose fields are not part of this model. */
    constructor (initialWord: ReviseWord)
      ensures currentWord == initialWord && screen == "" && wordsToRevise == []
      ensures answerStatus == NoAnswer && formattedTime == ""
    {
      currentWord := initialWord;
      screen := "";
      wordsToRevise := [];
      answerStatus := NoAnswer;
      formattedTime := "";
    }

    /**
      * Moves on to another word. The list loses every entry with the current
      * word's surface text and gets the current word back just before its
      * last entry; then any entry of the list becomes the current word (the
      * random pick). `thrown` is the IndexOutOfBoundsException raised when
      * filtering leaves nothing: the emptied list has then already been stored
      * and the current word is unchanged.
      */
    method NextWord() returns (thrown: bool)
      modifies this`wordsToRevise, this`currentWord
      ensures thrown <==> NextWordList(old(wordsToRevise), old(currentWord)).None?
      ensures thrown ==> wordsToRevise == [] && currentWord == old(currentWord)
      ensures !thrown ==> wordsToRevise == NextWordList(old(wordsToRevise), old(currentWord)).value
      ensures !thrown ==> currentWord in wordsToRevise
    {
      wordsToRevise := WithoutSurface(wordsToRevise, Surface(currentWord));
      var added := ListAdd(wordsToRevise, |wordsToRevise| - 1, currentWord);
      if added.None? {
        return true;
      }
      wordsToRevise := added.value;
      assert wordsToRevise[0] in wordsToRevise;
      var next :| next in wordsToRevise;
      SetWord(next);
      return false;
    }

    method SetWord(word: ReviseWord)
      modifies this`currentWord
      ensures currentWord == word
    {
      currentWord := word;
    }

    method SetScreen(screen: string)
      modifies this`screen
      ensures this.screen == screen
    {
      this.screen := screen;
    }

    method SetFormattedTime(time: string)
      modifies this`formattedTime
      ensures formattedTime == time
    {
      formattedTime := time;
    }

    method SetAnswer(answer: Answer)
      modifies this`answerStatus
      ensures answerStatus == answer
    {
      answerStatus := answer;
    }

    /** Queues one more word at the end, without looking for duplicates. */
    method AppendWord(word: ReviseWord)
      modifies this`wordsToRevise
      ensures wordsToRevise == old(wordsToRevise) + [word]
      ensures |wordsToRevise| == |old(wordsToRevise)| + 1
    {
      wordsToRevise := wordsToRevise + [word];
    }
  }
}
