/** `isLikelyPgpMessage` and what it decides: the label of the action button and the action a
    click performs. */
module Armor {
  import opened Js

  const BEGIN_MARKER := "-----BEGIN PGP"
  const END_MARKER := "-----END PGP"

  /** The two things the action button can do. */
  datatype Action = Encrypt | Decrypt

  /** The text the button shows for each action. */
  function Label(a: Action): string {
    match a
    case Encrypt => "Encrypt"
    case Decrypt => "Decrypt"
  }

  /** `isLikelyPgpMessage(text)`: after leading whitespace the text starts with the BEGIN
      marker and contains the END marker. The empty-text test of the source is subsumed. */
  function IsLikelyPgpMessage(text: string): (likely: bool)
    ensures text == "" ==> !likely
    ensures likely ==> StartsWith(TrimStart(text), BEGIN_MARKER)
  {
    if text == "" then false
    else
      var trimmedStart := TrimStart(text);
      StartsWith(trimmedStart, BEGIN_MARKER) && Contains(trimmedStart, END_MARKER)
  }

  /** The action a click on the button dispatches for this text. */
  function ActionFor(text: string): (a: Action)
    ensures text == "" ==> a == Encrypt
    ensures a == Decrypt ==> StartsWith(TrimStart(text), BEGIN_MARKER)
  {
    if IsLikelyPgpMessage(text) then Decrypt else Encrypt
  }

  /** `updateActionButtonsBasedOnText`: the label the button gets for this text, which is
      always the label of the action a click would dispatch. */
  function ButtonLabel(text: string): (caption: string)
    ensures caption == Label(ActionFor(text))
    ensures caption == "Decrypt" <==> IsLikelyPgpMessage(text)
  {
    if IsLikelyPgpMessage(text) then "Decrypt" else "Encrypt"
  }

  /** No window of a BEGIN marker at the start of a text, nor one straddling its end, spells
      the END marker. */
  lemma NoEndMarkerInsideBegin(s: string, i: int)
    requires StartsWith(s, BEGIN_MARKER)
    requires 0 <= i < |BEGIN_MARKER| && i + |END_MARKER| <= |s|
    ensures s[i..i + |END_MARKER|] != END_MARKER
  {
    var window := s[i..i + |END_MARKER|];
    assert s[..|BEGIN_MARKER|] == BEGIN_MARKER;
    if i == 0 {
      assert window[5] == s[5] == BEGIN_MARKER[5] == 'B';
    } else if i < 5 {
      assert window[4] == s[i + 4] == BEGIN_MARKER[i + 4] != '-';
    } else {
      assert window[0] == s[i] == BEGIN_MARKER[i] != '-';
    }
  }

  /** The END marker cannot overlap a BEGIN marker at the start of the text: an occurrence
      of it begins at or after the end of the BEGIN marker. */
  lemma EndMarkerAfterBegin(s: string, i: int)
    requires StartsWith(s, BEGIN_MARKER) && OccursAt(s, END_MARKER, i)
    ensures i >= |BEGIN_MARKER|
  {
    if i < |BEGIN_MARKER| {
      NoEndMarkerInsideBegin(s, i);
    }
  }

  /** The heuristic exactly: after leading whitespace, the BEGIN marker, then anything that
      contains the END marker. */
  lemma LikelyIffMarkersInOrder(text: string)
    ensures IsLikelyPgpMessage(text) <==>
      var s := TrimStart(text);
      StartsWith(s, BEGIN_MARKER) && Contains(s[|BEGIN_MARKER|..], END_MARKER)
  {
    var s := TrimStart(text);
    var n := |BEGIN_MARKER|;
    if text == "" {
      assert s == "";
    }
    if StartsWith(s, BEGIN_MARKER) {
      if Contains(s, END_MARKER) {
        var i :| 0 <= i <= |s| && OccursAt(s, END_MARKER, i);
        EndMarkerAfterBegin(s, i);
        OccursAtShift(s, END_MARKER, n, i - n);
      }
      if Contains(s[n..], END_MARKER) {
        var i :| 0 <= i <= |s[n..]| && OccursAt(s[n..], END_MARKER, i);
        OccursAtShift(s, END_MARKER, n, i);
      }
    }
  }

  /** Whitespace in front of a text does not change how it is classified. */
  lemma LeadingWhitespaceIrrelevant(w: string, text: string)
    requires AllWhitespace(w)
    ensures IsLikelyPgpMessage(w + text) == IsLikelyPgpMessage(text)
  {
    TrimStartSkipsWhitespace(w, text);
    if text == "" {
      assert w + text == w;
      assert TrimStart("") == "";
    }
  }

  /** Any text that starts, after leading whitespace, with the BEGIN marker and contains the
      END marker is classified as a message. */
  lemma MarkersDetected(w: string, message: string, at: int)
    requires AllWhitespace(w) && StartsWith(message, BEGIN_MARKER)
    requires OccursAt(message, END_MARKER, at)
    ensures IsLikelyPgpMessage(w + message)
  {
    TrimStartSkipsWhitespace(w, message);
    assert TrimStart(message) == message;
    LeadingWhitespaceIrrelevant(w, message);
  }

  /** An armored message, with any leading whitespace, is classified as one: the button says
      "Decrypt" and a click decrypts. */
  lemma ArmoredMessageDetected(w: string, header: string, body: string, footer: string)
    requires AllWhitespace(w)
    requires header == BEGIN_MARKER + " MESSAGE-----\n"
    requires footer == "\n" + END_MARKER + " MESSAGE-----"
    ensures var text := w + header + body + footer;
      IsLikelyPgpMessage(text) && ActionFor(text) == Decrypt && ButtonLabel(text) == "Decrypt"
  {
    var message := header + body + footer;
    assert w + header + body + footer == w + message;
    assert message[..|BEGIN_MARKER|] == header[..|BEGIN_MARKER|] == BEGIN_MARKER;
    var at := |header| + |body| + 1;
    assert message[|header| + |body|..] == footer;
    assert message[at..at + |END_MARKER|] == footer[1..1 + |END_MARKER|] == END_MARKER;
    MarkersDetected(w, message, at);
  }

  /** A text that, after leading whitespace, does not start with the BEGIN marker is taken
      for plaintext: the button says "Encrypt" and a click encrypts. */
  lemma NoHeaderMeansEncrypt(text: string)
    requires !StartsWith(TrimStart(text), BEGIN_MARKER)
    ensures ActionFor(text) == Encrypt && ButtonLabel(text) == "Encrypt"
  {
  }

  /** The heuristic is only a heuristic: plaintext that happens to begin with the BEGIN marker
      and mention the END marker is taken for a message. */
  lemma PlaintextCanLookArmored(text: string)
    requires text == BEGIN_MARKER + " and " + END_MARKER + " are the markers"
    ensures ActionFor(text) == Decrypt
  {
    assert TrimStart(text) == text;
    assert text[..|BEGIN_MARKER|] == BEGIN_MARKER;
    var at := |BEGIN_MARKER| + 5;
    assert text[at..at + |END_MARKER|] == END_MARKER;
    assert OccursAt(text, END_MARKER, at);
  }
}
