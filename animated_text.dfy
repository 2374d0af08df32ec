/**
  The text logic of the animated-text components: how `AnimatedText` cuts its
  text into animated items (words or letters), and the state machine that the
  `Typewriter` runs on every timer tick (type a character, pause, delete a
  character, move on to the next word). Timing, springs and opacity are not
  modelled; one timer firing is one `Tick`.
*/
module AnimatedText {

  /** The no-break space rendered after every word but the last. */
  const NoBreakSpace: char := '\U{00A0}'

  /** The two ways of cutting the text into animated items. */
  datatype SplitMode = Word | Letter

  // ---------------------------------------------------------------------------
  // Splitting
  // ---------------------------------------------------------------------------

  /** `s.split(sep)` for a one-character separator: the runs between
      separators, empty runs included, so there is always at least one item. */
  function Split(s: string, sep: char): (items: seq<string>)
    ensures |items| >= 1
    ensures forall i :: 0 <= i < |items| ==> sep !in items[i]
    decreases |s|
  {
    if s == [] then [[]]
    else if s[0] == sep then [[]] + Split(s[1..], sep)
    else
      var rest := Split(s[1..], sep);
      [[s[0]] + rest[0]] + rest[1..]
  }

  /** `items.join(glue)` for a one-character glue. */
  function Join(items: seq<string>, glue: char): string
  {
    if items == [] then []
    else if |items| == 1 then items[0]
    else items[0] + [glue] + Join(items[1..], glue)
  }

  /** Every occurrence of `from` in `s` replaced by `to`. */
  function ReplaceChar(s: string, from: char, to: char): (r: string)
    ensures |r| == |s|
    ensures forall i :: 0 <= i < |s| ==> r[i] == if s[i] == from then to else s[i]
  {
    if s == [] then [] else [if s[0] == from then to else s[0]] + ReplaceChar(s[1..], from, to)
  }

  /** The concatenation of a list of strings. */
  function Concat(items: seq<string>): string
  {
    if items == [] then [] else items[0] + Concat(items[1..])
  }

  /** `s.split("")`: one single-character item per character. */
  function Letters(s: string): (items: seq<string>)
    ensures |items| == |s|
    ensures forall i :: 0 <= i < |s| ==> items[i] == [s[i]]
  {
    seq(|s|, i requires 0 <= i < |s| => [s[i]])
  }

  /** The items `AnimatedText` animates: `text.split(" ")` in word mode,
      `text.split("")` in letter mode. */
  function Items(text: string, mode: SplitMode): seq<string>
  {
    match mode
    case Word => Split(text, ' ')
    case Letter => Letters(text)
  }

  /** In word mode every item but the last is followed by a no-break space. */
  function WithSeparators(items: seq<string>): (shown: seq<string>)
    ensures |shown| == |items|
    ensures forall i :: 0 <= i < |items| ==>
      shown[i] == if i < |items| - 1 then items[i] + [NoBreakSpace] else items[i]
  {
    if |items| <= 1 then items
    else [items[0] + [NoBreakSpace]] + WithSeparators(items[1..])
  }

  /** What each animated span shows, in order. */
  function Spans(text: string, mode: SplitMode): seq<string>
  {
    match mode
    case Word => WithSeparators(Items(text, Word))
    case Letter => Items(text, Letter)
  }

  lemma JoinPrepend(x: string, items: seq<string>, glue: char)
    requires |items| >= 1
    ensures Join([x + items[0]] + items[1..], glue) == x + Join(items, glue)
  {
    var lhs := [x + items[0]] + items[1..];
    assert lhs[1..] == items[1..];
    if |items| > 1 {
      assert (x + items[0]) + [glue] + Join(items[1..], glue)
          == x + (items[0] + [glue] + Join(items[1..], glue));
    }
  }

  /** Joining the split items with `glue` puts `glue` exactly where the
      separators were. */
  lemma {:induction false} JoinSplitReplaces(s: string, sep: char, glue: char)
    ensures Join(Split(s, sep), glue) == ReplaceChar(s, sep, glue)
    decreases |s|
  {
    if s == [] {
    } else if s[0] == sep {
      var rest := Split(s[1..], sep);
      JoinSplitReplaces(s[1..], sep, glue);
      assert ([[]] + rest)[1..] == rest;
      assert Join([[]] + rest, glue) == [] + [glue] + Join(rest, glue);
    } else {
      var rest := Split(s[1..], sep);
      JoinSplitReplaces(s[1..], sep, glue);
      JoinPrepend([s[0]], rest, glue);
    }
  }

  lemma ReplaceCharSame(s: string, c: char)
    ensures ReplaceChar(s, c, c) == s
  {
  }

  /** Word mode round trip: joining the words with single spaces gives back
      the text. */
  lemma JoinSplitWords(text: string)
    ensures Join(Items(text, Word), ' ') == text
  {
    JoinSplitReplaces(text, ' ', ' ');
    ReplaceCharSame(text, ' ');
  }

  /** Splitting a text that has `sep` only after a separator-free head. */
  lemma {:induction false} SplitPrefix(a: string, t: string, sep: char)
    requires sep !in a
    ensures Split(a + t, sep) == [a + Split(t, sep)[0]] + Split(t, sep)[1..]
    decreases |a|
  {
    if a == [] {
      var r := Split(t, sep);
      assert a + t == t;
      assert a + r[0] == r[0];
      assert [r[0]] + r[1..] == r;
    } else {
      SplitPrefix(a[1..], t, sep);
      assert (a + t)[1..] == a[1..] + t;
      assert (a + t)[0] == a[0];
      assert [a[0]] + (a[1..] + Split(t, sep)[0]) == a + Split(t, sep)[0];
    }
  }

  /** The other direction: separator-free items joined by `sep` split back
      into the same items. */
  lemma {:induction false} SplitJoin(items: seq<string>, sep: char)
    requires |items| >= 1
    requires forall i :: 0 <= i < |items| ==> sep !in items[i]
    ensures Split(Join(items, sep), sep) == items
  {
    if |items| == 1 {
      SplitPrefix(items[0], [], sep);
      assert items[0] + [] == items[0];
    } else {
      var tail := Join(items[1..], sep);
      SplitJoin(items[1..], sep);
      var t := [sep] + tail;
      SplitPrefix(items[0], t, sep);
      assert Join(items, sep) == items[0] + t;
      assert t[0] == sep && t[1..] == tail;
      assert Split(t, sep) == [[]] + items[1..];
      assert Split(t, sep)[0] == [] && Split(t, sep)[1..] == items[1..];
      assert items[0] + [] == items[0];
      assert items == [items[0]] + items[1..];
    }
  }

  /** Word mode as displayed: the spans, read in order, show the text with
      every space turned into a no-break space. */
  lemma {:induction false} WordSpansShowText(text: string)
    ensures Concat(Spans(text, Word)) == ReplaceChar(text, ' ', NoBreakSpace)
  {
    ConcatWithSeparators(Split(text, ' '));
    JoinSplitReplaces(text, ' ', NoBreakSpace);
  }

  lemma {:induction false} ConcatWithSeparators(items: seq<string>)
    ensures Concat(WithSeparators(items)) == Join(items, NoBreakSpace)
  {
    if |items| == 0 {
    } else if |items| == 1 {
      assert Concat(items) == items[0] + Concat([]);
    } else {
      ConcatWithSeparators(items[1..]);
      var shown := WithSeparators(items);
      assert shown == [items[0] + [NoBreakSpace]] + WithSeparators(items[1..]);
      assert shown[1..] == WithSeparators(items[1..]);
    }
  }

  /** Letter mode: one item per character, and the items read in order give
      back the text. */
  lemma {:induction false} LetterSpansShowText(text: string)
    ensures |Spans(text, Letter)| == |text|
    ensures Concat(Spans(text, Letter)) == text
    decreases |text|
  {
    if text != [] {
      LetterSpansShowText(text[1..]);
      assert Letters(text)[1..] == Letters(text[1..]);
    }
  }

  // ---------------------------------------------------------------------------
  // Typewriter
  // ---------------------------------------------------------------------------

  /** The three pieces of state `TypewriterInner` keeps. */
  datatype TypewriterState = TypewriterState(wordIndex: nat, text: string, deleting: bool)

  /** The word index is in range and the text is a prefix of its word. */
  predicate InRange(words: seq<string>, s: TypewriterState)
  {
    s.wordIndex < |words| && s.text <= words[s.wordIndex]
  }

  /** The state on mount: first word, nothing typed, typing. */
  const Start: TypewriterState := TypewriterState(0, [], false)

  /** One timer firing. While typing, the next prefix of the word is shown;
      at the full word the (untimed) pause is over and deleting starts. While
      deleting, the last character goes; at the empty text typing resumes on
      the next word, cyclically. */
  function Next(words: seq<string>, s: TypewriterState): (r: TypewriterState)
    requires InRange(words, s)
    ensures InRange(words, r)
    ensures r.wordIndex != s.wordIndex ==>
      s.deleting && s.text == [] && r.wordIndex == (s.wordIndex + 1) % |words|
    ensures r.text != s.text ==> r.deleting == s.deleting && r.wordIndex == s.wordIndex
    ensures !s.deleting && |s.text| < |words[s.wordIndex]| ==>
      !r.deleting && r.text == s.text + [words[s.wordIndex][|s.text|]]
    ensures s.deleting && s.text != [] ==>
      r.deleting && r.text + [s.text[|s.text| - 1]] == s.text
    ensures !s.deleting && |s.text| == |words[s.wordIndex]| ==> r == s.(deleting := true)
    ensures s.deleting && s.text == [] ==> r == TypewriterState((s.wordIndex + 1) % |words|, [], false)
  {
    var word := words[s.wordIndex];
    if !s.deleting then
      if |s.text| < |word| then s.(text := word[..|s.text| + 1])
      else s.(deleting := true)
    else
      if |s.text| > 0 then s.(text := s.text[..|s.text| - 1])
      else TypewriterState((s.wordIndex + 1) % |words|, s.text, false)
  }

  /** `k` timer firings in a row. */
  function Ticks(words: seq<string>, s: TypewriterState, k: nat): (r: TypewriterState)
    requires InRange(words, s)
    ensures InRange(words, r)
    decreases k
  {
    if k == 0 then s else Ticks(words, Next(words, s), k - 1)
  }

  lemma {:induction false} TicksAdd(words: seq<string>, s: TypewriterState, a: nat, b: nat)
    requires InRange(words, s)
    ensures Ticks(words, s, a + b) == Ticks(words, Ticks(words, s, a), b)
    decreases a
  {
    if a > 0 {
      var n := Next(words, s);
      assert Ticks(words, s, a + b) == Ticks(words, n, a + b - 1);
      assert Ticks(words, s, a) == Ticks(words, n, a - 1);
      assert a + b - 1 == (a - 1) + b;
      TicksAdd(words, n, a - 1, b);
    }
  }

  /** Typing: from the first `j` characters, `k` more ticks show the first
      `j + k`, as long as the word is not yet complete. */
  lemma {:induction false} TypesPrefix(words: seq<string>, i: nat, j: nat, k: nat)
    requires i < |words| && j + k <= |words[i]|
    ensures Ticks(words, TypewriterState(i, words[i][..j], false), k)
         == TypewriterState(i, words[i][..j + k], false)
    decreases k
  {
    if k > 0 {
      var s := TypewriterState(i, words[i][..j], false);
      var n := TypewriterState(i, words[i][..j + 1], false);
      assert Next(words, s) == n;
      assert Ticks(words, s, k) == Ticks(words, n, k - 1);
      TypesPrefix(words, i, j + 1, k - 1);
      assert (j + 1) + (k - 1) == j + k;
    }
  }

  /** Deleting: from the first `m + k` characters, `k` ticks leave the
      first `m`. */
  lemma {:induction false} DeletesPrefix(words: seq<string>, i: nat, m: nat, k: nat)
    requires i < |words| && m + k <= |words[i]|
    ensures Ticks(words, TypewriterState(i, words[i][..m + k], true), k)
         == TypewriterState(i, words[i][..m], true)
    decreases k
  {
    if k > 0 {
      var s := TypewriterState(i, words[i][..m + k], true);
      var n := TypewriterState(i, words[i][..m + (k - 1)], true);
      assert words[i][..m + k][..m + (k - 1)] == words[i][..m + (k - 1)];
      assert Next(words, s) == n;
      assert Ticks(words, s, k) == Ticks(words, n, k - 1);
      DeletesPrefix(words, i, m, k - 1);
    }
  }

  /** Typing a whole word from nothing takes as many ticks as it has
      characters. */
  lemma TypesWord(words: seq<string>, i: nat)
    requires i < |words|
    ensures Ticks(words, TypewriterState(i, [], false), |words[i]|)
         == TypewriterState(i, words[i], false)
  {
    assert words[i][..0] == [] && words[i][..|words[i]|] == words[i];
    TypesPrefix(words, i, 0, |words[i]|);
  }

  /** Deleting a whole word takes as many ticks as it has characters. */
  lemma DeletesWord(words: seq<string>, i: nat)
    requires i < |words|
    ensures Ticks(words, TypewriterState(i, words[i], true), |words[i]|)
         == TypewriterState(i, [], true)
  {
    assert words[i][..0 + |words[i]|] == words[i] && words[i][..0] == [];
    DeletesPrefix(words, i, 0, |words[i]|);
  }

  /** Typing a word and the pause after it: one tick more than the word
      has characters, ending at the full word with deleting switched on. */
  lemma TypesWordThenPauses(words: seq<string>, i: nat)
    requires i < |words|
    ensures Ticks(words, TypewriterState(i, [], false), |words[i]| + 1)
         == TypewriterState(i, words[i], true)
  {
    var typed := TypewriterState(i, words[i], false);
    TicksAdd(words, TypewriterState(i, [], false), |words[i]|, 1);
    TypesWord(words, i);
    OneTick(words, typed);
  }

  /** Deleting a word and the tick after it, which moves on to the next
      word. */
  lemma DeletesWordThenAdvances(words: seq<string>, i: nat)
    requires i < |words|
    ensures Ticks(words, TypewriterState(i, words[i], true), |words[i]| + 1)
         == TypewriterState((i + 1) % |words|, [], false)
  {
    var empty := TypewriterState(i, [], true);
    TicksAdd(words, TypewriterState(i, words[i], true), |words[i]|, 1);
    DeletesWord(words, i);
    OneTick(words, empty);
  }

  /** A whole word cycle: `L` typing ticks, the pause, `L` deleting ticks and
      one more bring the typewriter to the next word with nothing typed. */
  lemma WordCycle(words: seq<string>, i: nat)
    requires i < |words|
    ensures Ticks(words, TypewriterState(i, [], false), 2 * |words[i]| + 2)
         == TypewriterState((i + 1) % |words|, [], false)
  {
    var half := |words[i]| + 1;
    assert 2 * |words[i]| + 2 == half + half;
    TicksAdd(words, TypewriterState(i, [], false), half, half);
    TypesWordThenPauses(words, i);
    DeletesWordThenAdvances(words, i);
  }

  lemma OneTick(words: seq<string>, s: TypewriterState)
    requires InRange(words, s)
    ensures Ticks(words, s, 1) == Next(words, s)
  {
    assert Ticks(words, Next(words, s), 0) == Next(words, s);
  }

  /** The typewriter's state, updated in place on every timer firing. */
  class Typewriter {
    const words: seq<string>
    var currentWordIndex: nat
    var currentText: string
    var isDeleting: bool

    function State(): TypewriterState
      reads this
    {
      TypewriterState(currentWordIndex, currentText, isDeleting)
    }

    ghost predicate Valid()
      reads this
    {
      InRange(words, State())
    }

    /** Mounting with a non-empty word list: first word, nothing typed. */
    constructor (words: seq<string>)
      requires |words| > 0
      ensures this.words == words
      ensures Valid() && State() == Start
    {
      this.words := words;
      currentWordIndex := 0;
      currentText := [];
      isDeleting := false;
    }

    /** The effect's timeout callback. */
    method Tick()
      requires Valid()
      modifies this
      ensures Valid()
      ensures State() == Next(words, old(State()))
    {
      var currentWord := words[currentWordIndex];
      if !isDeleting {
        if |currentText| < |currentWord| {
          currentText := currentWord[..|currentText| + 1];
        } else {
          isDeleting := true;
        }
      } else {
        if |currentText| > 0 {
          currentText := currentText[..|currentText| - 1];
        } else {
          isDeleting := false;
          currentWordIndex := (currentWordIndex + 1) % |words|;
        }
      }
    }
  }
}
