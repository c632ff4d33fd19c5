# RedditBot watch pass, modelled in Dafny

RedditBot polls a list of subreddits. For each subreddit a `RedditMonitor`
fetches the ten newest submissions. It skips those whose key
(`<subreddit>-<id>`) is already in its set of processed submissions. It sends
a Pushover notification for each remaining submission whose lower-cased title
contains every keyword and whose score reaches the optional minimum. It then
records the key and saves the set to a pickle file. If the previous file is
over 5 MiB, the file is deleted and the set is emptied before writing. An
exception while fetching or iterating ends the pass with one error
notification.

This project models that pass:

- `Text`: ASCII lower-casing, the substring test behind Python's `in`, and
  decimal rendering of the score.
- `Submissions`: the submission and configuration records, the de-duplication
  key and its inverse, the match predicate, and the message texts.
- `Persistence`: the pickle file as an abstract state (missing, a pickled set,
  or unreadable bytes, plus a byte size), loading, and the size-bounded save
  rule.
- `Watch`: one pass as a function (`Step`, `Run`, `AfterPass`) and the lemmas
  about it. These cover de-duplication, non-matches, fetch order, repeated
  keys, the no-reset case and the reset case.
- `Monitor`: the classes `PickleFile`, `Pushover` and `RedditMonitor`. The
  monitor's `Save` and `SearchPass` update the set in place. They are proved
  equal to `Persistence.SaveProcessed` and `Watch.AfterPass`.

Behaviour worth noting:

- On an oversized file the code empties the set, including the key it has
  just added (bot.py:84-90). The next pass, or a later duplicate in the
  same batch, then notifies that submission again (`Watch.ResetRenotifies`).
  At-most-once notification is therefore proved only for passes without a
  size reset.
- Only `FileNotFoundError` is caught when loading (bot.py:80). An unreadable
  file makes the constructor raise; it does not degrade to an empty set.
  `Monitor.RedditMonitor.Open` returns `None` in that case.
- Only the title is lower-cased, never the keywords (bot.py:127). A keyword
  holding a capital letter can never match
  (`Submissions.UppercaseKeywordNeverMatches`).
- A failing write in `save_processed_submissions` is not caught there. It
  reaches the pass's handler (bot.py:138-141); see "Left out".
- `main` builds a new monitor for every cycle (bot.py:158-160), and that
  monitor reloads the set from the file. The reloaded set equals the set
  the previous monitor kept (`Watch.ReloadAfterPassAgrees`). So, for one
  configured subreddit, consecutive cycles behave like consecutive passes
  of one monitor. `Watch.Passes` models them by folding `Run` over one
  batch per cycle.

Collaborators are modelled by what the core observes of them:

- The fetch is a `Listing`: the submissions the iteration yielded, then
  optionally the text of the exception it raised.
- Pushover is a log of attempted messages, because delivery failures are
  swallowed.
- The pickle byte size is a function `sizeOf` fixed per file.

## Model

| member | source | states |
|---|---|---|
| `Text.Lower` | bot.py:127 | `title.lower()`: same length, each character mapped by the ASCII case map, no capital letters left |
| `Text.Contains` | bot.py:127 | `keyword in title` is true exactly when the keyword occurs at some position of the title |
| `Text.IntToString` | bot.py:123 | the score's decimal text starts with `-` exactly for negative scores |
| `Text.IntRoundTrip` | bot.py:123 | the score's decimal text reads back as the score |
| `Text.PartOfConcat` | bot.py:120-124 | every piece of an f-string occurs in the resulting message |
| `Submissions.SubmissionKey` | bot.py:115 | the key is the subreddit, then `-`, then the submission id, at those exact positions |
| `Submissions.SplitKey` | bot.py:115 | splitting at the first hyphen gives back a subreddit without hyphen and an id that recompose the key |
| `Submissions.KeyRoundTrip` | bot.py:115 | for a subreddit name without a hyphen, splitting the key gives back the subreddit and the id |
| `Submissions.KeyInjective` | bot.py:115 | keys from different subreddits or different ids never collide when subreddit names have no hyphen |
| `Submissions.KeyCollidesOnHyphen` | bot.py:115 | with a hyphen in the subreddit name two different pairs share a key |
| `Submissions.AllKeywordsIn` | bot.py:127 | `all(...)` is true exactly when every keyword is a substring of the text; vacuously true for no keywords |
| `Submissions.Matches` | bot.py:127-128 | a submission matches iff every keyword occurs in the lower-cased title and there is no minimum or the score is at least the minimum |
| `Submissions.UppercaseKeywordNeverMatches` | bot.py:127 | keywords are not lower-cased, so a keyword with a capital letter matches nothing |
| `Submissions.OneOfTwoKeywordsIsNoMatch` | bot.py:127 | keywords are AND-ed: a title with `foo` but not `bar` does not match `["foo", "bar"]` |
| `Submissions.BothKeywordsMatch` | bot.py:127 | a title containing both `foo` and `bar` matches `["foo", "bar"]` |
| `Submissions.ThresholdIsInclusive` | bot.py:128 | a score equal to the minimum matches, one below does not, and no minimum admits any score |
| `Submissions.MatchMessage` | bot.py:120-125 | the notification text: `Match found in '<sub>' subreddit:\nTitle: <title>\nURL: <url>\nUpvotes: <score>\nPermalink: https://www.reddit.com<permalink>\n`, glued from `MatchMessageParts` |
| `Submissions.MatchMessageCarriesFields` | bot.py:120-124 | the match message contains the subreddit, title, URL, rendered score and permalink |
| `Submissions.SearchErrorText` | bot.py:139 | the error text names the subreddit and contains the exception text |
| `Persistence.Oversized` | bot.py:84 | the file exists and its size is strictly greater than 5 MiB |
| `Persistence.Load` | bot.py:76-81 | a missing file loads as the empty set, a pickled set loads as that set, and loading fails exactly when the file exists and does not unpickle |
| `Persistence.Written` | bot.py:89-90 | a dumped set loads back unchanged; the file is over the limit exactly when the set's pickled size is |
| `Persistence.SaveProcessed` | bot.py:83-90 | after a save the file holds exactly the in-memory set; an oversized previous file empties the set, otherwise the set is unchanged |
| `Persistence.ResaveIsStable` | bot.py:83-90 | saving again after a save that stayed within the limit changes nothing |
| `Watch.Step` | bot.py:115-135 | a processed key is skipped and a non-match is ignored, both changing nothing; an unseen match is notified once, recorded and saved, the file then holding the new set at its pickled size; an oversized file empties the set, dropping the new key |
| `Watch.Run` | bot.py:114-135 | the loop: `Step` applied to each fetched submission in fetch order; its properties are the lemmas below |
| `Watch.RunNotifiesOnlyMatches` | bot.py:114-135 | whatever resets occur, a pass only appends, at most one message per submission, each the match message of a matching submission of the batch, and records only keys of matching submissions |
| `Watch.RunKeepsFileInSync` | bot.py:129-134 | a pass that sends nothing changes nothing; a pass that sends something leaves the file holding exactly the in-memory set |
| `Watch.AfterPass` | bot.py:108-141 | keys recorded before an exception stay recorded; an exception adds exactly one error notification `Error in Reddit Scraper: Error during Reddit search for '<sub>': <e>` |
| `Watch.FreshMatchesUnseen` | bot.py:116-135 | every submission notified in a pass without reset matches and had an unseen key |
| `Watch.FreshKeysDistinct` | bot.py:116-133 | in a pass without a size reset, a key occurring several times in one batch is notified once |
| `Watch.FreshInFetchOrder` | bot.py:114 | in a pass without a size reset, notifications are in fetch order: the notified submissions sit at strictly increasing positions of the batch |
| `Watch.FreshCoversMatches` | bot.py:114-135 | the keys a pass without reset adds, together with the old ones, are the old keys plus the keys of all matching submissions |
| `Watch.PassWithoutReset` | bot.py:114-135 | without a reset, the messages sent are one match message per newly notified submission, in order, and the set gains exactly their keys |
| `Watch.NoResetRecordsAllMatches` | bot.py:114-135 | without a reset nothing is removed and the set becomes the old set plus the keys of all matching submissions |
| `Watch.RunOverSeenIsIdle` | bot.py:116-118 | a batch whose matching keys are all processed sends nothing and changes nothing |
| `Watch.SecondPassIsIdle` | bot.py:114-135 | without a reset, running the same batch again sends nothing and changes nothing |
| `Watch.Passes` | bot.py:158-160 | consecutive cycles of one monitor: `Run` folded over one batch per cycle, each pass starting from the state the previous one left |
| `Watch.NotifiedOnceAcrossPasses` | bot.py:114-135 | over any number of consecutive passes of one monitor, none with a size reset, the messages sent are one match message per submission of `FreshAcross`, in order; no two of them share a key, none was processed before, and the set gains exactly their keys |
| `Watch.ReloadAfterPassAgrees` | bot.py:76-90 | a pass that starts with the file holding the in-memory set ends with the file holding the in-memory set, so a monitor built for the next cycle loads the same set |
| `Watch.UnmatchedStaysUnrecorded` | bot.py:127-133 | a key whose submissions never match is never recorded, even across resets |
| `Watch.BelowThresholdThenMatches` | bot.py:127-133 | for any configuration with a minimum: a submission whose keywords all occur but whose score is under the minimum is not recorded; fetched again with a score reaching it, it is notified and recorded |
| `Watch.ResetRenotifies` | bot.py:84-90 | a reset empties the set, key just added included, so the same submission is notified a second time, by the next pass or by a duplicate later in the same batch |
| `Monitor.PickleFile.IsOversized` | bot.py:84 | the file exists and is strictly larger than 5 MiB |
| `Monitor.PickleFile.Remove` | bot.py:86 | the file no longer exists |
| `Monitor.PickleFile.Dump` | bot.py:89-90 | the file holds the pickled set and has its pickled size |
| `Monitor.Pushover.SendPush` | bot.py:60-74 | exactly one match message is appended, whether or not delivery succeeds |
| `Monitor.Pushover.SendError` | bot.py:92-106 | exactly one error message is appended, prefixed with `Error in Reddit Scraper: ` |
| `Monitor.RedditMonitor.Open` | bot.py:53-58 | construction fails exactly when the file does not unpickle; otherwise the monitor holds its configuration and the loaded set |
| `Monitor.RedditMonitor.Save` | bot.py:83-90 | the new set and file are those of `SaveProcessed`: the file holds the set, emptied when the previous file was oversized |
| `Monitor.RedditMonitor.SearchPass` | bot.py:108-141 | the new set, file and sent messages are exactly `AfterPass` of the old ones |

## Left out

- Logging and `ColoredFormatter` (bot.py:13-37) and every `logging` call: output only.
- The start-up check of environment variables and `exit(1)` (bot.py:39-47), and config_loader.py: configuration loading before the core runs.
- `authenticate_reddit` and praw (bot.py:143-149, 111, 114): the fetch is an input `Listing`.
- `main` (bot.py:151-174) is not part of this model: its thread pool, the endless loop and `time.sleep`. Concurrent monitors all rewrite the same pickle file, so the last writer wins; that race is not modelled. Its handler at bot.py:168 calls `RedditMonitor(reddit)` without the required arguments; this is not modelled either.
- The HTTP requests to Pushover (bot.py:62-72, 94-104): each send is an append to `Pushover.sent`.
- The pickle byte format: a file is a pickled set or unreadable bytes, with a size given by `sizeOf`.
- I/O errors while writing the file in `save_processed_submissions`: in the source they propagate to the pass's handler.
- `Text.Lower`: maps only ASCII capitals. Python's `str.lower` also maps other Unicode capitals, sometimes to more than one character.
- The `notifications_count` counter (bot.py:112, 135): it is never read.
- `Watch.PassWithoutReset`, `Watch.FreshKeysDistinct`, `Watch.FreshInFetchOrder` and `Watch.NotifiedOnceAcrossPasses`: give exact messages, distinct keys and order only for passes without a size reset, because a reset makes the code notify again. With a reset, `Watch.RunNotifiesOnlyMatches`, `Watch.RunKeepsFileInSync` and `Watch.ResetRenotifies` give bounds and the consequence.
- `Watch.NotifiedOnceAcrossPasses`: folds `Run`, not `AfterPass`, so the error notification of a cycle whose fetch raises is not in its sent log. The processed set is still covered, by taking that cycle's batch to be the yielded prefix. It also covers only consecutive passes of one monitor over one subreddit. Several subreddits share one file, and each cycle's monitors overwrite it concurrently; that is not modelled.
