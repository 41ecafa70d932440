/**
  Properties of the handlers that relate several calls or single out the
  edge cases of the input limit and the request format.
 */
module Properties {
  import opened JsString
  import opened Translator

  /** Swapping twice restores the original pair (and the whole state). */
  lemma SwapInvolution(s: State)
    ensures Swap(Swap(s)) == s
  {
  }

  /** Opening a selector and picking a name sets the language of that role
      and closes the overlay; the other language is untouched. */
  lemma OpenThenPick(s: State, role: Role, language: string)
    ensures var r := LanguageSelect(LanguageClick(s, role), language);
      && !r.showLanguages
      && (role == From ==> r.languageFrom == language && r.languageTo == s.languageTo)
      && (role == To ==> r.languageTo == language && r.languageFrom == s.languageFrom)
  {
  }

  /** Once the buffer is at the limit, a keystroke that appends one more
      character is rejected and leaves the whole state unchanged. */
  lemma {:induction false} KeystrokeAtLimitRejected(s: State, c: char)
    requires Inv(s) && s.characterCount == MaxCharacters
    ensures InputChange(s, s.inputText + [c]) == s
  {
    Utf16LengthAppend(s.inputText, [c]);
    assert Utf16Length([c]) >= 1;
  }

  /** An accepted edit is stored whole: a later edit back to the previous
      text restores the previous state. */
  lemma EditUndo(s: State, value: string)
    requires Inv(s)
    ensures InputChange(InputChange(s, value), s.inputText) == s
  {
  }

  /** The buffer never holds more than the limit in characters either,
      and for text within the Basic Multilingual Plane the counter is the
      number of characters. */
  lemma CounterCountsCharacters(s: State)
    requires Inv(s)
    ensures |s.inputText| <= MaxCharacters
    ensures (forall i | 0 <= i < |s.inputText| :: IsBmp(s.inputText[i])) ==>
      s.characterCount == |s.inputText|
  {
  }

  /** When neither source name contains a bar, the `langpair` parameter
      determines both names: distinct pairs give distinct parameters. */
  lemma LangpairInjective(f1: string, t1: string, f2: string, t2: string)
    requires forall i | 0 <= i < |f1| :: f1[i] != '|'
    requires forall i | 0 <= i < |f2| :: f2[i] != '|'
    requires Langpair(f1, t1) == Langpair(f2, t2)
    ensures f1 == f2 && t1 == t2
  {
  }

  /** Translate, swap, translate again: the second request carries the same
      text and the reversed language pair. */
  lemma SwapAfterRequest(s: State)
    requires !IsBlank(s.inputText)
    ensures var again := Translate(Swap(Translate(s).state)).request;
      && again.Some?
      && again.value.q == s.inputText
      && again.value.langpair == Langpair(s.languageTo, s.languageFrom)
  {
  }

  /** Translating "hello" from English to Turkish issues the request
      `q=hello`, `langpair=English|Turkish`; the response "merhaba" becomes
      the result. */
  lemma HelloScenario()
    ensures var s := InputChange(Init(), "hello");
      var step := Translate(s);
      && step.request == Some(Request("hello", "English|Turkish"))
      && ResponseReceived(step.state, "merhaba").translatedText == "merhaba"
  {
    var text := "hello";
    assert Utf16Length(text) == 5;
    assert !IsWhitespace(text[0]);
    var s := InputChange(Init(), text);
    assert s.inputText == text;
    assert Langpair("English", "Turkish") == "English|Turkish";
  }

  /** A whitespace-only input clears a previous result and issues nothing. */
  lemma BlankClearsResult(s: State)
    requires forall i | 0 <= i < |s.inputText| :: s.inputText[i] in " \t\n"
    ensures Translate(s) == Step(s.(translatedText := ""), None)
  {
    assert IsBlank(s.inputText);
  }
}
