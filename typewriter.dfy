/** TypewriterText: the banner that types one of its texts character by character, pauses,
    deletes it again and moves on to the next text. Each run of the component's effect makes
    one transition; the timers that space the runs out are not modelled, so a run is a step. */
module Typewriter {
  import JsString

  datatype TypeState = TypeState(displayText: string, currentIndex: nat, isTyping: bool, isPaused: bool)

  /** The four `useState` initial values. */
  const Initial := TypeState("", 0, true, false)

  /** The banner's invariant: it shows a prefix of the current text, and while paused it is
      typing and shows the whole text. */
  predicate Inv(texts: seq<string>, s: TypeState)
  {
    && s.currentIndex < |texts|
    && s.displayText <= texts[s.currentIndex]
    && (s.isPaused ==> s.isTyping && s.displayText == texts[s.currentIndex])
  }

  /** One run of the effect. `texts[currentIndex]` must exist: on an empty `texts` the
      component reads `.length` of undefined. */
  function Next(texts: seq<string>, s: TypeState): (r: TypeState)
    requires s.currentIndex < |texts|
    ensures r.currentIndex < |texts|
  {
    var text := texts[s.currentIndex];
    if s.isPaused then s.(isPaused := false, isTyping := false)
    else if s.isTyping then
      if |s.displayText| < |text| then s.(displayText := JsString.Slice(text, 0, |s.displayText| + 1))
      else s.(isPaused := true)
    else if |s.displayText| > 0 then s.(displayText := JsString.Slice(s.displayText, 0, -1))
    else s.(isTyping := true, currentIndex := (s.currentIndex + 1) % |texts|)
  }

  /** Every step keeps the invariant. */
  lemma NextInv(texts: seq<string>, s: TypeState)
    requires Inv(texts, s)
    ensures Inv(texts, Next(texts, s))
  {
    var d, text := s.displayText, texts[s.currentIndex];
    if !s.isPaused && s.isTyping && |d| < |text| {
      assert JsString.Slice(text, 0, |d| + 1) == text[..|d| + 1];
    } else if !s.isPaused && !s.isTyping && |d| > 0 {
      assert JsString.Slice(d, 0, -1) == d[..|d| - 1];
    }
  }

  /** Typing adds exactly the next character of the current text. */
  lemma TypingGrows(texts: seq<string>, s: TypeState)
    requires Inv(texts, s) && !s.isPaused && s.isTyping
    requires |s.displayText| < |texts[s.currentIndex]|
    ensures Next(texts, s).displayText == s.displayText + [texts[s.currentIndex][|s.displayText|]]
    ensures Next(texts, s).currentIndex == s.currentIndex && Next(texts, s).isTyping
  {
    var d, text := s.displayText, texts[s.currentIndex];
    assert JsString.Slice(text, 0, |d| + 1) == text[..|d| + 1];
    assert text[..|d| + 1] == text[..|d|] + [text[|d|]];
  }

  /** Typing the whole text pauses; leaving the pause switches to deleting. */
  lemma FullPauses(texts: seq<string>, s: TypeState)
    requires Inv(texts, s) && !s.isPaused && s.isTyping
    requires |s.displayText| == |texts[s.currentIndex]|
    ensures var p := Next(texts, s);
            && p.isPaused && p.displayText == texts[s.currentIndex]
            && var q := Next(texts, p);
               !q.isPaused && !q.isTyping && q.displayText == p.displayText && q.currentIndex == s.currentIndex
  {
  }

  /** Deleting drops exactly the last character. */
  lemma DeletingShrinks(texts: seq<string>, s: TypeState)
    requires !s.isPaused && !s.isTyping && s.currentIndex < |texts| && |s.displayText| > 0
    ensures Next(texts, s).displayText + [s.displayText[|s.displayText| - 1]] == s.displayText
    ensures Next(texts, s).currentIndex == s.currentIndex && !Next(texts, s).isTyping
  {
    var d := s.displayText;
    assert JsString.Slice(d, 0, -1) == d[..|d| - 1];
  }

  /** With everything deleted, the next text comes up (wrapping round) and typing starts. */
  lemma EmptyAdvances(texts: seq<string>, s: TypeState)
    requires !s.isPaused && !s.isTyping && s.currentIndex < |texts| && s.displayText == ""
    ensures Next(texts, s) == TypeState("", (s.currentIndex + 1) % |texts|, true, false)
  {
  }

  /** k steps from s. */
  function Steps(texts: seq<string>, s: TypeState, k: nat): (r: TypeState)
    requires s.currentIndex < |texts|
    ensures r.currentIndex < |texts|
  {
    if k == 0 then s else Next(texts, Steps(texts, s, k - 1))
  }

  lemma {:induction false} StepsAdd(texts: seq<string>, s: TypeState, a: nat, b: nat)
    requires s.currentIndex < |texts|
    ensures Steps(texts, s, a + b) == Steps(texts, Steps(texts, s, a), b)
  {
    if b > 0 {
      StepsAdd(texts, s, a, b - 1);
    }
  }

  /** Typing from empty shows the first k characters after k steps. */
  lemma {:induction false} TypeUp(texts: seq<string>, i: nat, k: nat)
    requires i < |texts| && k <= |texts[i]|
    ensures Steps(texts, TypeState("", i, true, false), k) == TypeState(texts[i][..k], i, true, false)
  {
    if k > 0 {
      TypeUp(texts, i, k - 1);
      assert JsString.Slice(texts[i], 0, k) == texts[i][..k];
    }
  }

  /** Deleting from the whole text i leaves all but the last k characters after k steps. */
  lemma {:induction false} DeleteDown(texts: seq<string>, i: nat, k: nat)
    requires i < |texts| && k <= |texts[i]|
    ensures Steps(texts, TypeState(texts[i], i, false, false), k)
         == TypeState(texts[i][..|texts[i]| - k], i, false, false)
  {
    if k > 0 {
      DeleteDown(texts, i, k - 1);
      var d := texts[i][..|texts[i]| - (k - 1)];
      assert JsString.Slice(d, 0, -1) == d[..|d| - 1];
      assert d[..|d| - 1] == texts[i][..|texts[i]| - k];
    }
  }

  /** A full banner pauses, then turns to deleting, in two steps. */
  lemma PauseThenDelete(texts: seq<string>, i: nat)
    requires i < |texts|
    ensures Steps(texts, TypeState(texts[i], i, true, false), 2) == TypeState(texts[i], i, false, false)
  {
    var s := TypeState(texts[i], i, true, false);
    assert Steps(texts, s, 1) == TypeState(texts[i], i, true, true);
  }

  /** One full cycle: from the empty banner on text i, after typing, pausing and deleting,
      2|text| + 3 steps bring up the empty banner on the next text. */
  lemma Cycle(texts: seq<string>, i: nat)
    requires i < |texts|
    ensures Steps(texts, TypeState("", i, true, false), 2 * |texts[i]| + 3)
         == TypeState("", (i + 1) % |texts|, true, false)
  {
    var n := |texts[i]|;
    var s0 := TypeState("", i, true, false);
    var full := TypeState(texts[i], i, true, false);
    var deleting := TypeState(texts[i], i, false, false);
    var empty := TypeState("", i, false, false);
    TypeUp(texts, i, n);
    assert texts[i][..n] == texts[i];
    assert Steps(texts, s0, n) == full;
    PauseThenDelete(texts, i);
    StepsAdd(texts, s0, n, 2);
    assert Steps(texts, s0, n + 2) == deleting;
    DeleteDown(texts, i, n);
    assert texts[i][..0] == "";
    StepsAdd(texts, s0, n + 2, n);
    assert Steps(texts, s0, 2 * n + 2) == empty;
    assert Steps(texts, s0, 2 * n + 3) == Next(texts, empty);
  }

  /** The component's four state variables, updated by one effect run at a time. */
  class TypewriterText {
    const texts: seq<string>
    var displayText: string
    var currentIndex: nat
    var isTyping: bool
    var isPaused: bool

    function State(): TypeState
      reads this
    {
      TypeState(displayText, currentIndex, isTyping, isPaused)
    }

    constructor (texts: seq<string>)
      requires |texts| > 0
      ensures this.texts == texts && State() == Initial && Inv(texts, State())
    {
      this.texts := texts;
      displayText := "";
      currentIndex := 0;
      isTyping := true;
      isPaused := false;
    }

    /** One run of the effect. */
    method Step()
      requires Inv(texts, State())
      modifies this
      ensures State() == Next(texts, old(State()))
      ensures Inv(texts, State())
    {
      NextInv(texts, State());
      if isPaused {
        isPaused := false;
        isTyping := false;
      } else if isTyping {
        if |displayText| < |texts[currentIndex]| {
          displayText := JsString.Slice(texts[currentIndex], 0, |displayText| + 1);
        } else {
          isPaused := true;
        }
      } else {
        if |displayText| > 0 {
          displayText := JsString.Slice(displayText, 0, -1);
        } else {
          isTyping := true;
          currentIndex := (currentIndex + 1) % |texts|;
        }
      }
    }
  }
}
