/** One run of `RedditMonitor.search_reddit_for_keywords` (bot.py:108-141)
    as a function on the state it touches: the in-memory set of processed
    keys, the pickle file and the notifications sent. The imperative method
    in module Monitor is proved equal to `AfterPass`; the lemmas here say
    what a pass does. */
module Watch {
  import opened Wrappers
  import opened Text
  import opened Submissions
  import opened Persistence

  /** `subreddit(...).new(limit=10)`: at most this many submissions. */
  const FETCH_LIMIT: nat := 10

  /** What `send_error_notification` puts before every error text. */
  const ERROR_PREFIX: string := "Error in Reddit Scraper: "

  /** A message handed to Pushover: a match or an error report. */
  datatype Notification = Push(message: string) | ErrorPush(message: string)

  /** What iterating the listing produced: the submissions it yielded, in
      order, and the text of the exception it raised after them, if any (a
      failed fetch yields nothing and raises at once). */
  datatype Listing = Listing(submissions: seq<Submission>, failure: Option<string>)

  /** The state a pass reads and writes. */
  datatype World = World(processed: set<string>, file: FileState, sent: seq<Notification>)

  function Key(spec: WatchSpec, s: Submission): string {
    SubmissionKey(spec.subreddit, s.id)
  }

  /** The submission is notified when it is reached with these processed
      keys: its key is unseen and it matches. */
  predicate IsNew(spec: WatchSpec, processed: set<string>, s: Submission) {
    Key(spec, s) !in processed && Matches(spec, s)
  }

  /** The keys of the matching submissions of a batch. */
  ghost function MatchingKeys(spec: WatchSpec, subs: seq<Submission>): set<string> {
    set s | s in subs && Matches(spec, s) :: Key(spec, s)
  }

  ghost function KeysOf(spec: WatchSpec, subs: seq<Submission>): set<string> {
    set s | s in subs :: Key(spec, s)
  }

  /** The match notifications for a sequence of submissions, in order. */
  function Pushes(spec: WatchSpec, subs: seq<Submission>): seq<Notification> {
    if subs == [] then [] else [Push(MatchMessage(spec.subreddit, subs[0]))] + Pushes(spec, subs[1..])
  }

  /** The body of the loop of bot.py:114-135 for one submission. */
  function Step(spec: WatchSpec, sizeOf: set<string> -> nat, w: World, s: Submission): (r: World)
    // a key already processed is skipped: nothing is sent and nothing changes
    ensures Key(spec, s) in w.processed ==> r == w
    // a non-match is neither notified nor remembered
    ensures !Matches(spec, s) ==> r == w
    // an unseen match is notified exactly once, then recorded and saved
    ensures IsNew(spec, w.processed, s) ==> r.sent == w.sent + [Push(MatchMessage(spec.subreddit, s))]
    ensures IsNew(spec, w.processed, s) ==> Load(r.file) == Some(r.processed)
    ensures IsNew(spec, w.processed, s) ==> r.file == Written(r.processed, sizeOf)
    ensures IsNew(spec, w.processed, s) && !Oversized(w.file) ==> r.processed == w.processed + {Key(spec, s)}
    // ... unless the previous file was too large: then the set, key included, is emptied
    ensures IsNew(spec, w.processed, s) && Oversized(w.file) ==> r.processed == {}
  {
    if !IsNew(spec, w.processed, s) then w
    else
      var saved := SaveProcessed(w.processed + {Key(spec, s)}, w.file, sizeOf);
      World(saved.0, saved.1, w.sent + [Push(MatchMessage(spec.subreddit, s))])
  }

  /** The loop of bot.py:114-135 over a batch, in fetch order. */
  function Run(spec: WatchSpec, sizeOf: set<string> -> nat, w: World, subs: seq<Submission>): World
    decreases |subs|
  {
    if subs == [] then w else Run(spec, sizeOf, Step(spec, sizeOf, w, subs[0]), subs[1..])
  }

  /** Whatever resets happen, a pass only appends to what was sent, at most
      one message per submission, each one the match message of a matching
      submission of the batch, and it only ever records keys of matching
      submissions. */
  lemma {:induction false} RunNotifiesOnlyMatches(spec: WatchSpec, sizeOf: set<string> -> nat, w: World, subs: seq<Submission>)
    ensures var r := Run(spec, sizeOf, w, subs);
            && |w.sent| <= |r.sent| <= |w.sent| + |subs| && r.sent[..|w.sent|] == w.sent
            && (forall n :: n in r.sent[|w.sent|..] ==>
                  exists s :: s in subs && Matches(spec, s) && n == Push(MatchMessage(spec.subreddit, s)))
            && r.processed <= w.processed + MatchingKeys(spec, subs)
  {
    RunSentExtends(spec, sizeOf, w, subs);
    RunSendsOnlyMatches(spec, sizeOf, w, subs);
    RunRecordsOnlyMatching(spec, sizeOf, w, subs);
  }

  lemma {:induction false} RunSentExtends(spec: WatchSpec, sizeOf: set<string> -> nat, w: World, subs: seq<Submission>)
    ensures var r := Run(spec, sizeOf, w, subs);
            |w.sent| <= |r.sent| <= |w.sent| + |subs| && r.sent[..|w.sent|] == w.sent
    decreases |subs|
  {
    if subs != [] {
      RunSentExtends(spec, sizeOf, Step(spec, sizeOf, w, subs[0]), subs[1..]);
    }
  }

  lemma {:induction false} RunSendsOnlyMatches(spec: WatchSpec, sizeOf: set<string> -> nat, w: World, subs: seq<Submission>)
    requires |w.sent| <= |Run(spec, sizeOf, w, subs).sent|
    ensures var r := Run(spec, sizeOf, w, subs);
            forall n :: n in r.sent[|w.sent|..] ==>
              exists s :: s in subs && Matches(spec, s) && n == Push(MatchMessage(spec.subreddit, s))
    decreases |subs|
  {
    if subs != [] {
      var w1 := Step(spec, sizeOf, w, subs[0]);
      var r := Run(spec, sizeOf, w1, subs[1..]);
      RunSentExtends(spec, sizeOf, w1, subs[1..]);
      RunSendsOnlyMatches(spec, sizeOf, w1, subs[1..]);
      assert r.sent[|w.sent|..] == w1.sent[|w.sent|..] + r.sent[|w1.sent|..];
      forall n | n in r.sent[|w.sent|..]
        ensures exists s :: s in subs && Matches(spec, s) && n == Push(MatchMessage(spec.subreddit, s))
      {
        if n in r.sent[|w1.sent|..] {
          var s :| s in subs[1..] && Matches(spec, s) && n == Push(MatchMessage(spec.subreddit, s));
          assert s in subs;
        } else {
          assert n in w1.sent[|w.sent|..];
          assert subs[0] in subs;
        }
      }
    }
  }

  lemma {:induction false} RunRecordsOnlyMatching(spec: WatchSpec, sizeOf: set<string> -> nat, w: World, subs: seq<Submission>)
    ensures Run(spec, sizeOf, w, subs).processed <= w.processed + MatchingKeys(spec, subs)
    decreases |subs|
  {
    if subs != [] {
      var w1 := Step(spec, sizeOf, w, subs[0]);
      RunRecordsOnlyMatching(spec, sizeOf, w1, subs[1..]);
      assert MatchingKeys(spec, subs[1..]) <= MatchingKeys(spec, subs);
    }
  }

  /** The whole pass of bot.py:108-141: the loop, then, if iterating raised,
      exactly one error notification naming the subreddit and the error.
      Keys recorded before the exception stay recorded. */
  function AfterPass(spec: WatchSpec, sizeOf: set<string> -> nat, w: World, listing: Listing): (r: World)
    ensures var loop := Run(spec, sizeOf, w, listing.submissions);
            && r.processed == loop.processed && r.file == loop.file
            && (listing.failure.None? ==> r.sent == loop.sent)
            && (listing.failure.Some? ==>
                  r.sent == loop.sent + [ErrorPush(ERROR_PREFIX + SearchErrorText(spec.subreddit, listing.failure.value))])
  {
    var loop := Run(spec, sizeOf, w, listing.submissions);
    match listing.failure
    case None => loop
    case Some(e) => loop.(sent := loop.sent + [ErrorPush(ERROR_PREFIX + SearchErrorText(spec.subreddit, e))])
  }

  /** The pass performs no size reset: no notified submission finds the
      previous file over the limit. */
  predicate NoReset(spec: WatchSpec, sizeOf: set<string> -> nat, w: World, subs: seq<Submission>)
    decreases |subs|
  {
    subs == []
    || ((IsNew(spec, w.processed, subs[0]) ==> !Oversized(w.file))
        && NoReset(spec, sizeOf, Step(spec, sizeOf, w, subs[0]), subs[1..]))
  }

  /** Reference definition of the submissions a pass notifies when no reset
      happens: walking the batch in order, each matching submission whose
      key is neither in `seen` nor the key of an earlier notified one. */
  function Fresh(spec: WatchSpec, seen: set<string>, subs: seq<Submission>): seq<Submission>
    decreases |subs|
  {
    if subs == [] then []
    else if IsNew(spec, seen, subs[0]) then [subs[0]] + Fresh(spec, seen + {Key(spec, subs[0])}, subs[1..])
    else Fresh(spec, seen, subs[1..])
  }

  /** Every notified submission matches and was unseen. */
  lemma {:induction false} FreshMatchesUnseen(spec: WatchSpec, seen: set<string>, subs: seq<Submission>)
    ensures forall s :: s in Fresh(spec, seen, subs) ==> s in subs && Matches(spec, s) && Key(spec, s) !in seen
    decreases |subs|
  {
    if subs != [] {
      var s0 := subs[0];
      if IsNew(spec, seen, s0) {
        FreshMatchesUnseen(spec, seen + {Key(spec, s0)}, subs[1..]);
      } else {
        FreshMatchesUnseen(spec, seen, subs[1..]);
      }
    }
  }

  /** No two submissions of `f` share a key. */
  predicate DistinctKeys(spec: WatchSpec, f: seq<Submission>) {
    forall i, j :: 0 <= i < j < |f| ==> Key(spec, f[i]) != Key(spec, f[j])
  }

  /** A key that occurs several times in one batch occurs once among the
      `Fresh` submissions, which are what a pass without a size reset
      notifies (`PassWithoutReset`). */
  lemma {:induction false} FreshKeysDistinct(spec: WatchSpec, seen: set<string>, subs: seq<Submission>)
    ensures DistinctKeys(spec, Fresh(spec, seen, subs))
    decreases |subs|
  {
    if subs != [] {
      var s0 := subs[0];
      if IsNew(spec, seen, s0) {
        var seen' := seen + {Key(spec, s0)};
        FreshKeysDistinct(spec, seen', subs[1..]);
        FreshMatchesUnseen(spec, seen', subs[1..]);
        var rest := Fresh(spec, seen', subs[1..]);
        var f := [s0] + rest;
        assert Fresh(spec, seen, subs) == f;
        forall i, j | 0 <= i < j < |f| ensures Key(spec, f[i]) != Key(spec, f[j]) {
          if i == 0 {
            assert f[j] == rest[j - 1] && f[j] in rest;
            assert Key(spec, f[j]) !in seen';
          } else {
            assert f[i] == rest[i - 1] && f[j] == rest[j - 1];
            assert Key(spec, rest[i - 1]) != Key(spec, rest[j - 1]);
          }
        }
      } else {
        assert Fresh(spec, seen, subs) == Fresh(spec, seen, subs[1..]);
        FreshKeysDistinct(spec, seen, subs[1..]);
      }
    }
  }

  /** Notifications follow fetch order: the notified submissions are the
      batch's elements at strictly increasing positions. */
  lemma {:induction false} FreshInFetchOrder(spec: WatchSpec, seen: set<string>, subs: seq<Submission>)
    returns (idx: seq<nat>)
    ensures var f := Fresh(spec, seen, subs);
            && |idx| == |f|
            && (forall k :: 0 <= k < |idx| ==> idx[k] < |subs| && f[k] == subs[idx[k]])
            && (forall k, l :: 0 <= k < l < |idx| ==> idx[k] < idx[l])
    decreases |subs|
  {
    if subs == [] {
      idx := [];
    } else {
      var s0 := subs[0];
      var seen' := if IsNew(spec, seen, s0) then seen + {Key(spec, s0)} else seen;
      var tail := FreshInFetchOrder(spec, seen', subs[1..]);
      var shifted := seq(|tail|, k requires 0 <= k < |tail| => tail[k] + 1);
      idx := if IsNew(spec, seen, s0) then [0] + shifted else shifted;
    }
  }

  /** What the notified keys add to `seen` is exactly the keys of all
      matching submissions of the batch. */
  lemma {:induction false} FreshCoversMatches(spec: WatchSpec, seen: set<string>, subs: seq<Submission>)
    ensures seen + KeysOf(spec, Fresh(spec, seen, subs)) == seen + MatchingKeys(spec, subs)
    decreases |subs|
  {
    if subs != [] {
      var s0 := subs[0];
      var rest := subs[1..];
      assert subs == [s0] + rest;
      assert MatchingKeys(spec, subs) == MatchingKeys(spec, [s0]) + MatchingKeys(spec, rest);
      if IsNew(spec, seen, s0) {
        var seen' := seen + {Key(spec, s0)};
        FreshCoversMatches(spec, seen', rest);
        var f := Fresh(spec, seen', rest);
        assert KeysOf(spec, [s0] + f) == {Key(spec, s0)} + KeysOf(spec, f);
      } else {
        FreshCoversMatches(spec, seen, rest);
      }
    }
  }

  /** Whatever resets happen, a pass that sends nothing changes nothing, and
      a pass that sends something leaves the file holding exactly the
      in-memory set. */
  lemma {:induction false} RunKeepsFileInSync(spec: WatchSpec, sizeOf: set<string> -> nat, w: World, subs: seq<Submission>)
    ensures var r := Run(spec, sizeOf, w, subs);
            && (|r.sent| == |w.sent| ==> r == w)
            && (|r.sent| != |w.sent| ==> Load(r.file) == Some(r.processed) && r.file.Present? && r.file.size == sizeOf(r.processed))
    decreases |subs|
  {
    if subs != [] {
      var w1 := Step(spec, sizeOf, w, subs[0]);
      RunKeepsFileInSync(spec, sizeOf, w1, subs[1..]);
      RunNotifiesOnlyMatches(spec, sizeOf, w1, subs[1..]);
    }
  }

  lemma KeysOfCons(spec: WatchSpec, s: Submission, f: seq<Submission>)
    ensures KeysOf(spec, [s] + f) == {Key(spec, s)} + KeysOf(spec, f)
  {
    assert forall t :: t in [s] + f <==> t == s || t in f;
  }

  /** Without a size reset, a pass sends one match notification per
      submission of `Fresh`, in order, and adds exactly their keys to the
      processed set. */
  lemma PassWithoutReset(spec: WatchSpec, sizeOf: set<string> -> nat, w: World, subs: seq<Submission>)
    requires NoReset(spec, sizeOf, w, subs)
    ensures var f := Fresh(spec, w.processed, subs);
            var r := Run(spec, sizeOf, w, subs);
            && r.processed == w.processed + KeysOf(spec, f)
            && r.sent == w.sent + Pushes(spec, f)
  {
    PassRecordsFresh(spec, sizeOf, w, subs);
    PassSendsFresh(spec, sizeOf, w, subs);
  }

  lemma {:induction false} PassRecordsFresh(spec: WatchSpec, sizeOf: set<string> -> nat, w: World, subs: seq<Submission>)
    requires NoReset(spec, sizeOf, w, subs)
    ensures Run(spec, sizeOf, w, subs).processed == w.processed + KeysOf(spec, Fresh(spec, w.processed, subs))
    decreases |subs|
  {
    if subs != [] {
      var s0, rest := subs[0], subs[1..];
      var w1 := Step(spec, sizeOf, w, s0);
      PassRecordsFresh(spec, sizeOf, w1, rest);
      if IsNew(spec, w.processed, s0) {
        assert w1.processed == w.processed + {Key(spec, s0)};
        KeysOfCons(spec, s0, Fresh(spec, w1.processed, rest));
      }
    }
  }

  lemma {:induction false} PassSendsFresh(spec: WatchSpec, sizeOf: set<string> -> nat, w: World, subs: seq<Submission>)
    requires NoReset(spec, sizeOf, w, subs)
    ensures Run(spec, sizeOf, w, subs).sent == w.sent + Pushes(spec, Fresh(spec, w.processed, subs))
    decreases |subs|
  {
    if subs != [] {
      var w1 := Step(spec, sizeOf, w, subs[0]);
      PassSendsFresh(spec, sizeOf, w1, subs[1..]);
      SendsFreshStep(spec, sizeOf, w, subs);
    }
  }

  /** One step of `PassSendsFresh`: what the first submission sends, followed
      by what `Fresh` gives for the rest, is what `Fresh` gives for the batch. */
  lemma SendsFreshStep(spec: WatchSpec, sizeOf: set<string> -> nat, w: World, subs: seq<Submission>)
    requires subs != [] && (IsNew(spec, w.processed, subs[0]) ==> !Oversized(w.file))
    ensures var w1 := Step(spec, sizeOf, w, subs[0]);
            w1.sent + Pushes(spec, Fresh(spec, w1.processed, subs[1..]))
            == w.sent + Pushes(spec, Fresh(spec, w.processed, subs))
  {
    var s0, rest := subs[0], subs[1..];
    var w1 := Step(spec, sizeOf, w, s0);
    if IsNew(spec, w.processed, s0) {
      var f1 := Fresh(spec, w1.processed, rest);
      var push := Push(MatchMessage(spec.subreddit, s0));
      calc {
        w1.sent + Pushes(spec, f1);
        { assert w1.sent == w.sent + [push]; }
        w.sent + ([push] + Pushes(spec, f1));
        { PushesCons(spec, s0, f1); }
        w.sent + Pushes(spec, [s0] + f1);
        { assert w1.processed == w.processed + {Key(spec, s0)}; }
        w.sent + Pushes(spec, Fresh(spec, w.processed, subs));
      }
    } else {
      assert w1 == w;
    }
  }

  lemma PushesCons(spec: WatchSpec, s: Submission, f: seq<Submission>)
    ensures Pushes(spec, [s] + f) == [Push(MatchMessage(spec.subreddit, s))] + Pushes(spec, f)
  {
    assert ([s] + f)[0] == s && ([s] + f)[1..] == f;
  }

  /** Without a size reset nothing is removed from the processed set, and
      afterwards it holds the old keys plus the key of every matching
      submission of the batch. */
  lemma NoResetRecordsAllMatches(spec: WatchSpec, sizeOf: set<string> -> nat, w: World, subs: seq<Submission>)
    requires NoReset(spec, sizeOf, w, subs)
    ensures Run(spec, sizeOf, w, subs).processed == w.processed + MatchingKeys(spec, subs)
  {
    PassWithoutReset(spec, sizeOf, w, subs);
    FreshCoversMatches(spec, w.processed, subs);
  }

  /** A batch all of whose matching keys are already processed changes
      nothing. */
  lemma {:induction false} RunOverSeenIsIdle(spec: WatchSpec, sizeOf: set<string> -> nat, w: World, subs: seq<Submission>)
    requires MatchingKeys(spec, subs) <= w.processed
    ensures Run(spec, sizeOf, w, subs) == w
    decreases |subs|
  {
    if subs != [] {
      assert MatchingKeys(spec, subs[1..]) <= MatchingKeys(spec, subs);
      RunOverSeenIsIdle(spec, sizeOf, w, subs[1..]);
    }
  }

  /** Without a size reset, running the same batch again sends nothing and
      changes nothing: each match is notified at most once. */
  lemma SecondPassIsIdle(spec: WatchSpec, sizeOf: set<string> -> nat, w: World, subs: seq<Submission>)
    requires NoReset(spec, sizeOf, w, subs)
    ensures var r := Run(spec, sizeOf, w, subs); Run(spec, sizeOf, r, subs) == r
  {
    NoResetRecordsAllMatches(spec, sizeOf, w, subs);
    RunOverSeenIsIdle(spec, sizeOf, Run(spec, sizeOf, w, subs), subs);
  }

  /** The notifications of several passes in a row, none of them resetting:
      each pass notifies its `Fresh` submissions, and the next pass starts
      from the keys seen so far plus theirs. */
  ghost function FreshAcross(spec: WatchSpec, seen: set<string>, batches: seq<seq<Submission>>): seq<Submission>
    decreases |batches|
  {
    if batches == [] then []
    else
      var f := Fresh(spec, seen, batches[0]);
      f + FreshAcross(spec, seen + KeysOf(spec, f), batches[1..])
  }

  /** Consecutive passes of one monitor, keeping its in-memory set. */
  function Passes(spec: WatchSpec, sizeOf: set<string> -> nat, w: World, batches: seq<seq<Submission>>): World
    decreases |batches|
  {
    if batches == [] then w else Passes(spec, sizeOf, Run(spec, sizeOf, w, batches[0]), batches[1..])
  }

  /** No pass of the sequence performs a size reset. */
  predicate NoResets(spec: WatchSpec, sizeOf: set<string> -> nat, w: World, batches: seq<seq<Submission>>)
    decreases |batches|
  {
    batches == []
    || (NoReset(spec, sizeOf, w, batches[0])
        && NoResets(spec, sizeOf, Run(spec, sizeOf, w, batches[0]), batches[1..]))
  }

  lemma {:induction false} PushesAppend(spec: WatchSpec, f: seq<Submission>, g: seq<Submission>)
    ensures Pushes(spec, f + g) == Pushes(spec, f) + Pushes(spec, g)
    decreases |f|
  {
    if f == [] {
      assert f + g == g;
    } else {
      assert (f + g)[0] == f[0] && (f + g)[1..] == f[1..] + g;
      PushesAppend(spec, f[1..], g);
    }
  }

  /** Two key-distinct sequences stay key-distinct when joined, provided no
      key of the second is a key of the first. */
  lemma DistinctKeysAppend(spec: WatchSpec, f: seq<Submission>, g: seq<Submission>)
    requires DistinctKeys(spec, f) && DistinctKeys(spec, g)
    requires forall s :: s in g ==> Key(spec, s) !in KeysOf(spec, f)
    ensures DistinctKeys(spec, f + g)
  {
    var h := f + g;
    forall i, j | 0 <= i < j < |h| ensures Key(spec, h[i]) != Key(spec, h[j]) {
      if j < |f| {
        assert h[i] == f[i] && h[j] == f[j];
      } else if i >= |f| {
        assert h[i] == g[i - |f|] && h[j] == g[j - |f|];
      } else {
        assert h[i] == f[i] && f[i] in f;
        assert h[j] == g[j - |f|] && g[j - |f|] in g;
        assert Key(spec, h[i]) in KeysOf(spec, f);
      }
    }
  }

  lemma KeysOfAppend(spec: WatchSpec, f: seq<Submission>, g: seq<Submission>)
    ensures KeysOf(spec, f + g) == KeysOf(spec, f) + KeysOf(spec, g)
  {
    assert forall t :: t in f + g <==> t in f || t in g;
  }

  /** At-most-once notification over any number of passes without a size
      reset: all passes together send one match notification per
      submission of `FreshAcross`, in order; no two of those share a key,
      none of their keys was processed before the first pass, and the
      processed set gains exactly their keys. */
  lemma NotifiedOnceAcrossPasses(spec: WatchSpec, sizeOf: set<string> -> nat, w: World,
                                 batches: seq<seq<Submission>>)
    requires NoResets(spec, sizeOf, w, batches)
    ensures var f := FreshAcross(spec, w.processed, batches);
            var r := Passes(spec, sizeOf, w, batches);
            && r.sent == w.sent + Pushes(spec, f)
            && r.processed == w.processed + KeysOf(spec, f)
            && DistinctKeys(spec, f)
            && (forall s :: s in f ==> Key(spec, s) !in w.processed)
  {
    PassesWithoutReset(spec, sizeOf, w, batches);
    FreshAcrossUnseen(spec, sizeOf, w, batches);
  }

  lemma {:induction false} PassesWithoutReset(spec: WatchSpec, sizeOf: set<string> -> nat, w: World,
                                              batches: seq<seq<Submission>>)
    requires NoResets(spec, sizeOf, w, batches)
    ensures var f := FreshAcross(spec, w.processed, batches);
            var r := Passes(spec, sizeOf, w, batches);
            r.sent == w.sent + Pushes(spec, f) && r.processed == w.processed + KeysOf(spec, f)
    decreases |batches|
  {
    if batches != [] {
      var f1 := Fresh(spec, w.processed, batches[0]);
      var w1 := Run(spec, sizeOf, w, batches[0]);
      PassWithoutReset(spec, sizeOf, w, batches[0]);
      PassesWithoutReset(spec, sizeOf, w1, batches[1..]);
      var g := FreshAcross(spec, w1.processed, batches[1..]);
      assert FreshAcross(spec, w.processed, batches) == f1 + g;
      PushesAppend(spec, f1, g);
      KeysOfAppend(spec, f1, g);
    }
  }

  lemma {:induction false} FreshAcrossUnseen(spec: WatchSpec, sizeOf: set<string> -> nat, w: World,
                                             batches: seq<seq<Submission>>)
    requires NoResets(spec, sizeOf, w, batches)
    ensures var f := FreshAcross(spec, w.processed, batches);
            DistinctKeys(spec, f) && forall s :: s in f ==> Key(spec, s) !in w.processed
    decreases |batches|
  {
    if batches != [] {
      var f1 := Fresh(spec, w.processed, batches[0]);
      var w1 := Run(spec, sizeOf, w, batches[0]);
      PassWithoutReset(spec, sizeOf, w, batches[0]);
      FreshKeysDistinct(spec, w.processed, batches[0]);
      FreshMatchesUnseen(spec, w.processed, batches[0]);
      FreshAcrossUnseen(spec, sizeOf, w1, batches[1..]);
      var g := FreshAcross(spec, w1.processed, batches[1..]);
      assert FreshAcross(spec, w.processed, batches) == f1 + g;
      DistinctKeysAppend(spec, f1, g);
      assert forall s :: s in f1 + g <==> s in f1 || s in g;
    }
  }

  /** `main` builds a new monitor every cycle (bot.py:158-160), which reloads
      the set from the file: a pass that starts with the file holding the
      in-memory set ends that way too, so the reloaded set is the one the
      previous monitor kept. */
  lemma ReloadAfterPassAgrees(spec: WatchSpec, sizeOf: set<string> -> nat, w: World, listing: Listing)
    requires Load(w.file) == Some(w.processed)
    ensures var r := AfterPass(spec, sizeOf, w, listing); Load(r.file) == Some(r.processed)
  {
    RunKeepsFileInSync(spec, sizeOf, w, listing.submissions);
  }

  /** A submission that does not match is never recorded, however many
      resets happen: it stays eligible until it matches. */
  lemma UnmatchedStaysUnrecorded(spec: WatchSpec, sizeOf: set<string> -> nat, w: World,
                                 subs: seq<Submission>, s: Submission)
    requires Key(spec, s) !in w.processed
    requires forall t :: t in subs && Key(spec, t) == Key(spec, s) ==> !Matches(spec, t)
    ensures Key(spec, s) !in Run(spec, sizeOf, w, subs).processed
  {
    RunNotifiesOnlyMatches(spec, sizeOf, w, subs);
  }

  /** A submission whose keywords all occur but whose score is under the
      threshold is not recorded; fetched again with a score reaching the
      threshold, it is notified and recorded. */
  lemma BelowThresholdThenMatches(spec: WatchSpec, sizeOf: set<string> -> nat, w: World, s: Submission, low: int, high: int)
    requires spec.minUpvotes.Some? && low < spec.minUpvotes.value <= high
    requires forall k :: k in spec.keywords ==> IsSubstring(k, Lower(s.title))
    requires Key(spec, s) !in w.processed && !Oversized(w.file)
    ensures var w1 := Step(spec, sizeOf, w, s.(score := low));
            var w2 := Step(spec, sizeOf, w1, s.(score := high));
            && w1 == w
            && w2.sent == w.sent + [Push(MatchMessage(spec.subreddit, s.(score := high)))]
            && Key(spec, s) in w2.processed
  {
  }

  lemma OneStepRun(spec: WatchSpec, sizeOf: set<string> -> nat, w: World, s: Submission)
    ensures Run(spec, sizeOf, w, [s]) == Step(spec, sizeOf, w, s)
  {
    assert [s][1..] == [];
  }

  /** The size reset empties the set including the key just recorded, so
      the same submission, fetched again later in the same batch or by the
      next pass, is notified a second time: at-most-once notification does
      not survive a reset. */
  lemma ResetRenotifies(spec: WatchSpec, sizeOf: set<string> -> nat, w: World, s: Submission)
    requires IsNew(spec, w.processed, s) && Oversized(w.file)
    requires sizeOf({}) <= MAX_FILE_SIZE
    ensures var w1 := Run(spec, sizeOf, w, [s]);
            var w2 := Run(spec, sizeOf, w1, [s]);
            && w1.processed == {}
            && w2.sent == w.sent + [Push(MatchMessage(spec.subreddit, s)), Push(MatchMessage(spec.subreddit, s))]
            && Run(spec, sizeOf, w, [s, s]) == w2
  {
    var w1 := Step(spec, sizeOf, w, s);
    OneStepRun(spec, sizeOf, w, s);
    OneStepRun(spec, sizeOf, w1, s);
    assert [s, s][1..] == [s];
  }
}
