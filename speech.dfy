/**
 * The provider choice of `generateSpeech`: the preferred text-to-speech
 * provider is tried first and the other one only when it fails. Whether a
 * provider produces an audio URL (Kokoro's `fetch`, Google's URL building)
 * is an input here.
 */
module Speech {
  import opened Wrappers

  datatype Provider = Google | Kokoro

  function Other(p: Provider): Provider
  {
    match p
    case Google => Kokoro
    case Kokoro => Google
  }

  /** The provider tried first: Kokoro on iOS or when it is selected. */
  function FirstChoice(isIOS: bool, selected: Provider): (p: Provider)
    ensures p == Kokoro <==> isIOS || selected == Kokoro
  {
    if isIOS || selected == Kokoro then Kokoro else Google
  }

  /** Whether provider `p` answers with an audio URL. */
  predicate Answers(p: Provider, kokoroUp: bool, googleUp: bool)
  {
    if p == Kokoro then kokoroUp else googleUp
  }

  /** The provider whose audio `generateSpeech` returns, or `None` for its
      `null`. */
  function GenerateSpeech(isIOS: bool, selected: Provider, kokoroUp: bool, googleUp: bool): (r: Option<Provider>)
    ensures r.Some? ==> Answers(r.value, kokoroUp, googleUp)
    ensures r.None? <==> !kokoroUp && !googleUp
    ensures Answers(FirstChoice(isIOS, selected), kokoroUp, googleUp) ==> r == Some(FirstChoice(isIOS, selected))
  {
    var first := FirstChoice(isIOS, selected);
    if Answers(first, kokoroUp, googleUp) then Some(first)
    else if Answers(Other(first), kokoroUp, googleUp) then Some(Other(first))
    else None
  }

  /** On iOS the selected provider does not matter: Kokoro is preferred and
      Google is only the fallback. */
  lemma IOSIgnoresSelection(selected: Provider, kokoroUp: bool, googleUp: bool)
    ensures GenerateSpeech(true, selected, kokoroUp, googleUp) == GenerateSpeech(true, Kokoro, kokoroUp, googleUp)
    ensures googleUp && !kokoroUp ==> GenerateSpeech(true, selected, kokoroUp, googleUp) == Some(Google)
  {
  }

  /** The fallback is used only when the first choice fails. */
  lemma FallbackOnlyOnFailure(isIOS: bool, selected: Provider, kokoroUp: bool, googleUp: bool)
    requires GenerateSpeech(isIOS, selected, kokoroUp, googleUp) == Some(Other(FirstChoice(isIOS, selected)))
    ensures !Answers(FirstChoice(isIOS, selected), kokoroUp, googleUp)
  {
  }
}
