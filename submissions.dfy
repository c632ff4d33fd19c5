/** What one watch pass knows about a fetched submission: the de-duplication
    key it is remembered under, the predicate that decides whether it is a
    match, and the text of the messages sent about it (bot.py:114-141). */
module Submissions {
  import opened Wrappers
  import opened Text

  /** The attributes of a praw submission the pass reads. */
  datatype Submission = Submission(id: string, title: string, score: int, url: string, permalink: string)

  /** One `RedditMonitor`'s configuration: the subreddit it watches, the
      keywords that must all occur in a title, and an optional minimum
      score (`min_upvotes=None` means no threshold). */
  datatype WatchSpec = WatchSpec(subreddit: string, keywords: seq<string>, minUpvotes: Option<int>)

  /** `f"{self.subreddit}-{submission.id}"`: the subreddit name, a hyphen,
      then the submission id. */
  function SubmissionKey(subreddit: string, id: string): (k: string)
    ensures |k| == |subreddit| + 1 + |id|
    ensures k[..|subreddit|] == subreddit && k[|subreddit|] == '-' && k[|subreddit| + 1..] == id
  {
    subreddit + "-" + id
  }

  /** The position of the first `c` in `s`, if any. */
  function IndexOf(s: string, c: char): (r: Option<nat>)
    ensures r.None? <==> c !in s
    ensures r.Some? ==> r.value < |s| && s[r.value] == c && c !in s[..r.value]
  {
    if s == [] then None
    else if s[0] == c then Some(0)
    else match IndexOf(s[1..], c)
      case None => None
      case Some(j) =>
        assert s[..j + 1] == [s[0]] + s[1..][..j];
        Some(j + 1)
  }

  /** Splits a key at its first hyphen: the inverse of `SubmissionKey` for
      subreddit names without a hyphen (Reddit allows only letters, digits
      and underscores in them). */
  function SplitKey(k: string): (r: Option<(string, string)>)
    ensures r.None? <==> '-' !in k
    ensures r.Some? ==> '-' !in r.value.0 && SubmissionKey(r.value.0, r.value.1) == k
  {
    match IndexOf(k, '-')
    case None => None
    case Some(i) =>
      assert k == k[..i] + "-" + k[i + 1..];
      Some((k[..i], k[i + 1..]))
  }

  lemma KeyRoundTrip(subreddit: string, id: string)
    requires '-' !in subreddit
    ensures SplitKey(SubmissionKey(subreddit, id)) == Some((subreddit, id))
  {
    var k := SubmissionKey(subreddit, id);
    assert k[..|subreddit|] == subreddit;
  }

  /** Keys of different submissions, or of different subreddits, never
      collide as long as subreddit names carry no hyphen. */
  lemma KeyInjective(sub1: string, id1: string, sub2: string, id2: string)
    requires '-' !in sub1 && '-' !in sub2
    requires SubmissionKey(sub1, id1) == SubmissionKey(sub2, id2)
    ensures sub1 == sub2 && id1 == id2
  {
    KeyRoundTrip(sub1, id1);
    KeyRoundTrip(sub2, id2);
  }

  /** A hyphen inside a subreddit name would let two distinct
      (subreddit, id) pairs share a key. */
  lemma KeyCollidesOnHyphen()
    ensures SubmissionKey("a-b", "c") == SubmissionKey("a", "b-c")
  {
  }

  /** `all(keyword in text for keyword in keywords)`. */
  function AllKeywordsIn(keywords: seq<string>, text: string): (r: bool)
    ensures r <==> forall k :: k in keywords ==> IsSubstring(k, text)
  {
    if keywords == [] then true
    else Contains(keywords[0], text) && AllKeywordsIn(keywords[1..], text)
  }

  /** The match test of bot.py:127-128: every keyword, exactly as
      configured, occurs in the lower-cased title, and the score reaches the
      threshold when there is one (the threshold itself matches). */
  function Matches(spec: WatchSpec, s: Submission): (r: bool)
    ensures r <==> && (forall k :: k in spec.keywords ==> IsSubstring(k, Lower(s.title)))
                   && (spec.minUpvotes.None? || s.score >= spec.minUpvotes.value)
  {
    AllKeywordsIn(spec.keywords, Lower(s.title)) && (spec.minUpvotes == None || s.score >= spec.minUpvotes.value)
  }

  /** Only the title is lower-cased, never the keywords: a keyword holding a
      capital letter can match no submission at all. */
  lemma UppercaseKeywordNeverMatches(spec: WatchSpec, s: Submission, k: string, c: char)
    requires k in spec.keywords && c in k && IsUpper(c)
    ensures !Matches(spec, s)
  {
    var t := Lower(s.title);
    assert c !in t;
    MissingCharNotSubstring(k, t, c);
  }

  lemma LowerOfLower(s: string)
    requires forall i :: 0 <= i < |s| ==> !IsUpper(s[i])
    ensures Lower(s) == s
  {
  }

  /** Keywords are combined with AND: a title with only one of two keywords
      does not match... */
  lemma OneOfTwoKeywordsIsNoMatch(spec: WatchSpec, s: Submission)
    requires spec.keywords == ["foo", "bar"] && s.title == "foo only"
    ensures !Matches(spec, s)
  {
    LacksBar(s.title);
    assert "bar" in spec.keywords;
  }

  lemma LacksBar(t: string)
    requires t == "foo only"
    ensures Lower(t) == t && !IsSubstring("bar", Lower(t))
  {
    LowerOfLower(t);
    MissingCharNotSubstring("bar", t, 'b');
  }

  /** ...and a title holding both does. */
  lemma BothKeywordsMatch(spec: WatchSpec, s: Submission)
    requires spec.keywords == ["foo", "bar"] && spec.minUpvotes == None
    requires s.title == "this has foo and bar in it"
    ensures Matches(spec, s)
  {
    LowerOfLower(s.title);
    HasFooAndBar(s.title);
  }

  lemma HasFooAndBar(t: string)
    requires t == "this has foo and bar in it"
    ensures IsSubstring("foo", t) && IsSubstring("bar", t)
  {
    assert OccursAt("foo", t, 9);
    assert OccursAt("bar", t, 17);
  }

  /** The minimum score is inclusive, and no threshold admits any score. */
  lemma ThresholdIsInclusive(s: Submission)
    ensures Matches(WatchSpec("r", [], Some(100)), s.(score := 100))
    ensures !Matches(WatchSpec("r", [], Some(100)), s.(score := 99))
    ensures Matches(WatchSpec("r", [], None), s)
  {
  }

  /** The message of bot.py:120-124 for a matching submission. */
  function MatchMessage(subreddit: string, s: Submission): string {
    Concat(MatchMessageParts(subreddit, s))
  }

  /** The pieces of the f-string of bot.py:120-124, in order. */
  function MatchMessageParts(subreddit: string, s: Submission): seq<string> {
    ["Match found in '", subreddit, "' subreddit:\nTitle: ", s.title, "\nURL: ", s.url,
     "\nUpvotes: ", IntToString(s.score), "\nPermalink: https://www.reddit.com", s.permalink, "\n"]
  }

  /** The match message names the subreddit and carries the title, link,
      score and permalink of the submission. */
  lemma MatchMessageCarriesFields(subreddit: string, s: Submission)
    ensures var m := MatchMessage(subreddit, s);
            && IsSubstring(subreddit, m) && IsSubstring(s.title, m) && IsSubstring(s.url, m)
            && IsSubstring(IntToString(s.score), m) && IsSubstring(s.permalink, m)
  {
    var parts := MatchMessageParts(subreddit, s);
    PartOfConcat(parts, 1);
    PartOfConcat(parts, 3);
    PartOfConcat(parts, 5);
    PartOfConcat(parts, 7);
    PartOfConcat(parts, 9);
  }

  /** The text built at bot.py:139 when a search raises `error`. */
  function SearchErrorText(subreddit: string, error: string): (m: string)
    ensures IsSubstring(subreddit, m) && IsSubstring(error, m)
  {
    var parts := ["Error during Reddit search for '", subreddit, "': ", error];
    PartOfConcat(parts, 1);
    PartOfConcat(parts, 3);
    ConcatOfFour(parts[0], subreddit, parts[2], error);
    "Error during Reddit search for '" + subreddit + "': " + error
  }
}
