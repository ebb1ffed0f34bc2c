/**
 * Page eligibility: the content script only runs on a single pull request,
 * recognised by the unanchored pattern `/\/pull-requests\/\d+/` on the page URL.
 */
module PageScope {

  const PullRequestsSegment: string := "/pull-requests/"

  /** `\d` without the `u` flag: an ASCII decimal digit. */
  predicate IsDigit(c: char) { '0' <= c <= '9' }

  /** At index `i` the URL holds `/pull-requests/` immediately followed by a digit. */
  predicate PRNumberAt(url: string, i: int) {
    0 <= i && i + |PullRequestsSegment| < |url|
    && url[i..i + |PullRequestsSegment|] == PullRequestsSegment
    && IsDigit(url[i + |PullRequestsSegment|])
  }

  /**
   * `isIndividualPRPage`: the pattern matches somewhere in the URL. One digit
   * after the segment is enough for `\d+`, and nothing anchors the match.
   */
  function IsIndividualPRPage(url: string): (r: bool)
    ensures r <==> exists i :: PRNumberAt(url, i)
  {
    var n := |PullRequestsSegment|;
    if |url| <= n then
      assert forall i :: !PRNumberAt(url, i);
      false
    else if url[..n] == PullRequestsSegment && IsDigit(url[n]) then
      assert PRNumberAt(url, 0);
      true
    else
      var b := IsIndividualPRPage(url[1..]);
      if b then
        var i :| PRNumberAt(url[1..], i);
        assert url[1..][i..i + n] == url[i + 1..i + 1 + n];
        assert PRNumberAt(url, i + 1);
        true
      else
        assert forall i :: PRNumberAt(url, i) ==> i > 0 && url[i..i + n] == url[1..][i - 1..i - 1 + n] && PRNumberAt(url[1..], i - 1);
        false
  }

  /** A URL with a pull request number stays eligible whatever surrounds it (the pattern is unanchored). */
  lemma EligibleUnderExtension(before: string, url: string, after: string)
    requires IsIndividualPRPage(url)
    ensures IsIndividualPRPage(before + url + after)
  {
    var i :| PRNumberAt(url, i);
    var whole := before + url + after;
    var n := |PullRequestsSegment|;
    assert whole[|before| + i..|before| + i + n] == url[i..i + n];
    assert whole[|before| + i + n] == url[i + n];
    assert PRNumberAt(whole, |before| + i);
  }

  /** `/pull-requests/123/overview` on any host is an individual pull request. */
  lemma PullRequestPageIsEligible(host: string, number: char, rest: string)
    requires IsDigit(number)
    ensures IsIndividualPRPage(host + PullRequestsSegment + [number] + rest)
  {
    var url := host + PullRequestsSegment + [number] + rest;
    var n := |PullRequestsSegment|;
    assert url[|host|..|host| + n] == PullRequestsSegment;
    assert url[|host| + n] == number;
    assert PRNumberAt(url, |host|);
  }

  /** The pull request list, `/pull-requests/?user_filter=...`, is not eligible. */
  lemma ListPageIsNotEligible()
    ensures !IsIndividualPRPage("/pull-requests/?user_filter=ALL")
  {
    var url := "/pull-requests/?user_filter=ALL";
    forall i | 0 <= i && i + |PullRequestsSegment| < |url|
      ensures !PRNumberAt(url, i)
    {
      if i == 0 {
        assert url[15] == '?';
      } else {
        assert url[i..i + |PullRequestsSegment|][0] == url[i];
        assert url[i..i + |PullRequestsSegment|][1] == url[i + 1];
      }
    }
  }
}
