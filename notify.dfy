/**
 * The notification rule: the summary email goes out for every new event
 * except those whose name mentions "Social Media", which carry no viewer
 * information.
 */
module Notify {

  /** `sub` occurs in `s` starting at position `i`. */
  predicate OccursAt(sub: string, s: string, i: nat) {
    i + |sub| <= |s| && s[i..i + |sub|] == sub
  }

  /** Python's `sub in s` on strings, scanning start positions from `i`. */
  function ContainsFrom(sub: string, s: string, i: nat): bool
    requires i <= |s|
    decreases |s| - i
  {
    if OccursAt(sub, s, i) then true
    else if i == |s| then false
    else ContainsFrom(sub, s, i + 1)
  }

  /** Python's `sub in s` on strings. */
  function Contains(sub: string, s: string): bool {
    ContainsFrom(sub, s, 0)
  }

  lemma {:induction false} ContainsFromSpec(sub: string, s: string, i: nat)
    requires i <= |s|
    ensures ContainsFrom(sub, s, i) <==> exists k :: i <= k <= |s| && OccursAt(sub, s, k)
    decreases |s| - i
  {
    if !OccursAt(sub, s, i) && i < |s| {
      ContainsFromSpec(sub, s, i + 1);
      if exists k :: i <= k <= |s| && OccursAt(sub, s, k) {
        var k :| i <= k <= |s| && OccursAt(sub, s, k);
        assert k != i;
      }
    }
  }

  /** `sub in s` holds exactly when `sub` occurs at some position of `s`. */
  lemma ContainsSpec(sub: string, s: string)
    ensures Contains(sub, s) <==> exists k :: OccursAt(sub, s, k)
  {
    ContainsFromSpec(sub, s, 0);
  }

  /** The words that suppress the notification. */
  const SocialMedia: string := "Social Media"

  /** `"Social Media" not in event["name"]`: whether the summary email is sent. */
  function ShouldEmail(name: string): bool {
    !Contains(SocialMedia, name)
  }

  /** The email is skipped exactly when "Social Media" appears somewhere in the name. */
  lemma ShouldEmailSpec(name: string)
    ensures !ShouldEmail(name) <==> exists k :: OccursAt(SocialMedia, name, k)
  {
    ContainsSpec(SocialMedia, name);
  }

  /** Any text around "Social Media" still suppresses the email. */
  lemma SocialMediaAnywhere(before: string, after: string)
    ensures !ShouldEmail(before + SocialMedia + after)
  {
    var name := before + SocialMedia + after;
    assert OccursAt(SocialMedia, name, |before|) by {
      assert name[|before|..|before| + |SocialMedia|] == SocialMedia;
    }
    ShouldEmailSpec(name);
  }

  /** A name shorter than the phrase always gets the email. */
  lemma ShortNameEmailed(name: string)
    requires |name| < |SocialMedia|
    ensures ShouldEmail(name)
  {
    ShouldEmailSpec(name);
  }

  /** The test is case-sensitive: a lower-case "social media" does not suppress the email. */
  lemma CaseSensitive()
    ensures ShouldEmail("social media")
  {
    ShouldEmailSpec("social media");
    var name := "social media";
    assert name[0..12][0] == 's' && SocialMedia[0] == 'S';
    assert !OccursAt(SocialMedia, name, 0);
  }
}
