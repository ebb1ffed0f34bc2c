/**
 * `isPRMerged`: the merged state is read off a snapshot of the page through
 * four independent signals, tried in order, the first that holds deciding.
 */
module MergeCheck {
  import opened Wrappers
  import opened Text

  /** A `span`, `div` or `button` element: its text content and its number of element children. */
  datatype StatusElement = StatusElement(text: string, childCount: nat)

  /** What `isPRMerged` reads of the document. */
  datatype Page = Page(
    badge: Option<string>,              // text of `[data-testid="pullrequest-state-badge"]`, if present
    hasMergeMessage: bool,              // `[data-qa="pr-merged-message"]` is present
    bodyText: string,                   // `document.body.innerText`
    statusElements: seq<StatusElement>) // `span, div, button`, in document order

  const MergedWord: string := "merged"
  const MergedStatus: string := "MERGED"
  const MergedPhrases: seq<string> :=
    ["this pull request is merged", "merged this pull request", "pull request merged"]

  /** Signal 1: the state badge's lower-cased text contains "merged". */
  predicate BadgeSignal(p: Page) {
    p.badge.Some? && Contains(ToLower(p.badge.value), MergedWord)
  }

  /** Signal 2: the merge message element exists. */
  predicate MessageSignal(p: Page) {
    p.hasMergeMessage
  }

  /** Signal 3: the lower-cased body text contains one of the merge phrases. */
  predicate BodySignal(p: Page) {
    var body := ToLower(p.bodyText);
    Contains(body, MergedPhrases[0]) || Contains(body, MergedPhrases[1]) || Contains(body, MergedPhrases[2])
  }

  /** An element with no element children whose trimmed, upper-cased text is exactly "MERGED". */
  predicate IsMergedStatus(e: StatusElement) {
    ToUpper(Trim(e.text)) == MergedStatus && e.childCount == 0
  }

  /** Signal 4: some status element is a merged status. */
  ghost predicate StatusSignal(p: Page) {
    exists k :: 0 <= k < |p.statusElements| && IsMergedStatus(p.statusElements[k])
  }

  /** The page shows the merged state by at least one signal. */
  ghost predicate Merged(p: Page) {
    BadgeSignal(p) || MessageSignal(p) || BodySignal(p) || StatusSignal(p)
  }

  /**
   * `isPRMerged`, with its short-circuit order and its first-match loop over
   * the status elements: true exactly when one of the four signals holds.
   */
  method IsPRMerged(p: Page) returns (merged: bool)
    ensures merged <==> Merged(p)
  {
    if p.badge.Some? {
      var text := ToLower(p.badge.value);
      if Contains(text, MergedWord) {
        return true;
      }
    }
    if p.hasMergeMessage {
      return true;
    }
    var bodyText := ToLower(p.bodyText);
    if Contains(bodyText, MergedPhrases[0]) || Contains(bodyText, MergedPhrases[1])
      || Contains(bodyText, MergedPhrases[2])
    {
      return true;
    }
    var k := 0;
    while k < |p.statusElements|
      invariant 0 <= k <= |p.statusElements|
      invariant forall j :: 0 <= j < k ==> !IsMergedStatus(p.statusElements[j])
    {
      var el := p.statusElements[k];
      var text := ToUpper(Trim(el.text));
      if text == MergedStatus && el.childCount == 0 {
        return true;
      }
      k := k + 1;
    }
    return false;
  }

  /** A status element is a merged status exactly when its trimmed text spells "merged" in any case and it has no children. */
  lemma MergedStatusIgnoresCase(e: StatusElement)
    ensures IsMergedStatus(e) <==> EqualIgnoringCase(Trim(e.text), MergedStatus) && e.childCount == 0
  {
    ToUpperEqualsWord(Trim(e.text), MergedStatus);
  }

  /** A badge reading "Merged", in any case and with any surrounding text, is a positive signal. */
  lemma BadgeMentioningMerged(p: Page, before: string, word: string, after: string)
    requires p.badge == Some(before + word + after)
    requires ToLower(word) == MergedWord
    ensures BadgeSignal(p) && Merged(p)
  {
    var text := before + word + after;
    assert text[|before|..|before| + |word|] == word;
    assert OccursAt(text, word, |before|);
    ContainsIff(text, word);
    ContainsToLower(text, word);
  }

  /** Each signal alone decides the check, and with none of them the page is not merged. */
  lemma SignalsDecide(p: Page)
    ensures BadgeSignal(p) ==> Merged(p)
    ensures MessageSignal(p) ==> Merged(p)
    ensures BodySignal(p) ==> Merged(p)
    ensures StatusSignal(p) ==> Merged(p)
    ensures !BadgeSignal(p) && !MessageSignal(p) && !BodySignal(p) && !StatusSignal(p) ==> !Merged(p)
  {
  }

  /** The manual trigger button's label, and its label just after a click. */
  const CelebrateLabel: string := "\U{1F389} Celebrate!"
  const WoohooLabel: string := "\U{1F389} Woohoo!"

  /**
   * Neither label is a merged status or mentions "merged", so the button, a
   * listed `button` element whose label is part of the body text, adds no
   * merge signal of its own.
   */
  lemma ButtonLabelsAreNoSignal(caption: string)
    requires caption == CelebrateLabel || caption == WoohooLabel
    ensures !IsMergedStatus(StatusElement(caption, 0))
    ensures !Contains(ToLower(caption), MergedWord)
  {
    assert forall i :: 0 <= i < |caption| ==> caption[i] != 'm' && caption[i] != 'M';
    NoEmNotMergedStatus(caption, 0);
    NoEmNoMergedWord(caption);
  }

  /** A text without the letter m, in either case, trims to no merged status. */
  lemma NoEmNotMergedStatus(text: string, childCount: nat)
    requires forall i :: 0 <= i < |text| ==> text[i] != 'm' && text[i] != 'M'
    ensures !IsMergedStatus(StatusElement(text, childCount))
  {
    var r := Trim(text);
    TrimIsCore(text);
    if r != [] {
      var i :| 0 <= i <= |text| - |r| && r == text[i..i + |r|]
        && AllWhitespace(text[..i]) && AllWhitespace(text[i + |r|..]);
      assert r[0] == text[i];
      assert ToUpper(r)[0] != MergedStatus[0];
    } else {
      assert |ToUpper(r)| != |MergedStatus|;
    }
    assert ToUpper(r) != MergedStatus;
  }

  /** A text without the letter m, in either case, does not mention "merged" in any case. */
  lemma NoEmNoMergedWord(text: string)
    requires forall i :: 0 <= i < |text| ==> text[i] != 'm' && text[i] != 'M'
    ensures !Contains(ToLower(text), MergedWord)
  {
    var lower := ToLower(text);
    forall j ensures !OccursAt(lower, MergedWord, j) {
      if 0 <= j && j + |MergedWord| <= |lower| {
        assert lower[j..j + |MergedWord|][0] == lower[j] != 'm';
      }
    }
    ContainsIff(lower, MergedWord);
  }

  /** The signals only accumulate: more status elements never take the merged state away. */
  lemma MergedKeptByMoreElements(p: Page, extra: seq<StatusElement>)
    requires Merged(p)
    ensures Merged(p.(statusElements := p.statusElements + extra))
  {
    var q := p.(statusElements := p.statusElements + extra);
    if StatusSignal(p) {
      var k :| 0 <= k < |p.statusElements| && IsMergedStatus(p.statusElements[k]);
      assert q.statusElements[k] == p.statusElements[k];
    }
  }
}
