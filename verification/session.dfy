/**
  A run of the panel as a sequence of user and network events. Because the
  browser runs one handler at a time, a run is the left fold of the handler
  transitions over its events; the requests a run issues are collected in
  order, each built from the state at the moment it was issued.
 */
module Session {
  import opened JsString
  import opened Translator

  datatype Event =
    | MouseDown(insideDropdown: bool)
    | LanguageBoxClick(role: Role)
    | LanguagePick(language: string)
    | SwapClick
    | Edit(value: string)
    | TranslateClick
    | KeyPress(key: string)
    | Response(translated: string)

  /** The final state of a run and the requests it issued, oldest first. */
  datatype Trace = Trace(final: State, requests: seq<Request>)

  /** What every issued request satisfies: its text is not blank and fits
      the input limit, and its language pair is built from two names. */
  predicate WellFormed(req: Request) {
    && !IsBlank(req.q)
    && Utf16Length(req.q) <= MaxCharacters
    && exists k | 0 <= k < |req.langpair| :: req.langpair[k] == '|'
  }

  /** One event dispatched to its handler. Only the translate button and the
      Enter key can issue a request, and every handler keeps the invariant. */
  function Apply(s: State, e: Event): (r: Step)
    ensures Inv(s) ==> Inv(r.state)
    ensures r.request.Some? ==> e.TranslateClick? || e == KeyPress("Enter")
    ensures Inv(s) && r.request.Some? ==> WellFormed(r.request.value)
    ensures !e.Response? ==>
      r.state.translatedText in {s.translatedText, ""}
  {
    match e
    case MouseDown(inside) => Step(ClickOutside(s, inside), None)
    case LanguageBoxClick(role) => Step(LanguageClick(s, role), None)
    case LanguagePick(language) => Step(LanguageSelect(s, language), None)
    case SwapClick => Step(Swap(s), None)
    case Edit(value) => Step(InputChange(s, value), None)
    case TranslateClick =>
      var r := Translate(s);
      assert r.request.Some? ==>
        r.request.value.langpair[|s.languageFrom|] == '|';
      r
    case KeyPress(key) =>
      var r := KeyDown(s, key).step;
      assert r.request.Some? ==>
        r.request.value.langpair[|s.languageFrom|] == '|';
      r
    case Response(translated) => Step(ResponseReceived(s, translated), None)
  }

  function RequestsOf(r: Step): seq<Request> {
    if r.request.Some? then [r.request.value] else []
  }

  /** Runs `events` from `s`. From a state that keeps the invariant, the run
      ends in one that keeps it, issues at most one request per event, and
      every request it issues is well formed. */
  function Run(s: State, events: seq<Event>): (t: Trace)
    ensures |t.requests| <= |events|
    ensures Inv(s) ==> Inv(t.final)
    ensures Inv(s) ==> forall k | 0 <= k < |t.requests| :: WellFormed(t.requests[k])
    decreases |events|
  {
    if events == [] then Trace(s, [])
    else
      var step := Apply(s, events[0]);
      var rest := Run(step.state, events[1..]);
      Trace(rest.final, RequestsOf(step) + rest.requests)
  }

  /** Every state the panel can reach from mount keeps the invariant. */
  lemma ReachableStatesKeepInv(events: seq<Event>)
    ensures Inv(Run(Init(), events).final)
    ensures forall k | 0 <= k < |Run(Init(), events).requests| ::
      WellFormed(Run(Init(), events).requests[k])
  {
  }

  /** Issuing a request never writes the result: in a run without responses
      the result either stays what it was or has been cleared by a blank
      translate. */
  lemma {:induction false} NoResponseKeepsResult(s: State, events: seq<Event>)
    requires forall i | 0 <= i < |events| :: !events[i].Response?
    ensures Run(s, events).final.translatedText in {s.translatedText, ""}
    decreases |events|
  {
    if events != [] {
      var step := Apply(s, events[0]);
      NoResponseKeepsResult(step.state, events[1..]);
    }
  }

  /** A run without edits keeps the input buffer. */
  lemma {:induction false} NoEditKeepsBuffer(s: State, events: seq<Event>)
    requires forall i | 0 <= i < |events| :: !events[i].Edit?
    ensures Run(s, events).final.inputText == s.inputText
    ensures Run(s, events).final.characterCount == s.characterCount
    decreases |events|
  {
    if events != [] {
      var step := Apply(s, events[0]);
      assert SameBuffer(step.state, s) by {
        match events[0]
        case TranslateClick =>
        case KeyPress(key) =>
        case _ =>
      }
      NoEditKeepsBuffer(step.state, events[1..]);
    }
  }

  /** Only a pick or a swap changes the languages: a run with neither keeps
      both names. */
  lemma {:induction false} NoPickKeepsLanguages(s: State, events: seq<Event>)
    requires forall i | 0 <= i < |events| ::
      !events[i].LanguagePick? && !events[i].SwapClick?
    ensures SameLanguages(Run(s, events).final, s)
    decreases |events|
  {
    if events != [] {
      var step := Apply(s, events[0]);
      assert SameLanguages(step.state, s) by {
        match events[0]
        case TranslateClick =>
        case KeyPress(key) =>
        case _ =>
      }
      NoPickKeepsLanguages(step.state, events[1..]);
    }
  }
}
