/** `RedditMonitor` (bot.py:49-141) as an object: its configuration, the
    set of processed keys it updates in place, the pickle file it rewrites
    and the Pushover channel it sends to. `Save` and `SearchPass` are proved
    against `Persistence.SaveProcessed` and `Watch.AfterPass`. */
module Monitor {
  import opened Wrappers
  import opened Submissions
  import opened Persistence
  import opened Watch

  /** The file `processed_submissions.pkl`, shared by every monitor.
      `sizeOf` is the byte size `pickle.dump` produces for a set. */
  class PickleFile {
    const sizeOf: set<string> -> nat
    var state: FileState

    constructor (sizeOf: set<string> -> nat, state: FileState)
      ensures this.sizeOf == sizeOf && this.state == state
    {
      this.sizeOf := sizeOf;
      this.state := state;
    }

    /** `os.path.exists(...) and os.path.getsize(...) > max_file_size`. */
    function IsOversized(): (r: bool)
      reads this
      ensures r <==> state.Present? && state.size > MAX_FILE_SIZE
    {
      Oversized(state)
    }

    /** `os.remove(...)`. */
    method Remove()
      modifies this
      ensures state == Missing
    {
      state := Missing;
    }

    /** `pickle.dump(keys, file)` on a file opened for writing. */
    method Dump(keys: set<string>)
      modifies this
      ensures state == Written(keys, sizeOf)
    {
      state := Present(Pickle(keys), sizeOf(keys));
    }
  }

  /** The Pushover channel: every message the monitor tried to deliver, in
      order. Delivery failures are caught and only logged (bot.py:73-74,
      105-106), so an attempt is all a caller can observe. */
  class Pushover {
    var sent: seq<Notification>

    constructor ()
      ensures sent == []
    {
      sent := [];
    }

    /** `send_push_notification`. */
    method SendPush(message: string)
      modifies this
      ensures sent == old(sent) + [Push(message)]
    {
      sent := sent + [Push(message)];
    }

    /** `send_error_notification`: the message gets a fixed prefix. */
    method SendError(errorMessage: string)
      modifies this
      ensures sent == old(sent) + [ErrorPush(ERROR_PREFIX + errorMessage)]
    {
      sent := sent + [ErrorPush(ERROR_PREFIX + errorMessage)];
    }
  }

  class RedditMonitor {
    const subreddit: string
    const keywords: seq<string>
    const minUpvotes: Option<int>
    const file: PickleFile
    const pushover: Pushover
    /** `self.processed_submissions`. */
    var processed: set<string>

    function Spec(): WatchSpec {
      WatchSpec(subreddit, keywords, minUpvotes)
    }

    ghost function State(): World
      reads this, file, pushover
    {
      World(processed, file.state, pushover.sent)
    }

    constructor (spec: WatchSpec, file: PickleFile, pushover: Pushover, processed: set<string>)
      ensures Spec() == spec && this.file == file && this.pushover == pushover
      ensures this.processed == processed
    {
      subreddit, keywords, minUpvotes := spec.subreddit, spec.keywords, spec.minUpvotes;
      this.file, this.pushover := file, pushover;
      this.processed := processed;
    }

    /** `RedditMonitor(reddit, subreddit, keywords, min_upvotes)`: the
        constructor loads the processed keys; it raises (here: `None`) when
        the file exists but does not unpickle. */
    static method Open(spec: WatchSpec, file: PickleFile, pushover: Pushover) returns (r: Option<RedditMonitor>)
      ensures r.None? <==> Load(file.state).None?
      ensures r.Some? ==> && fresh(r.value) && r.value.Spec() == spec
                          && r.value.file == file && r.value.pushover == pushover
                          && Some(r.value.processed) == Load(file.state)
    {
      var loaded := Load(file.state);
      if loaded.None? {
        return None;
      }
      var m := new RedditMonitor(spec, file, pushover, loaded.value);
      return Some(m);
    }

    /** `save_processed_submissions` (bot.py:83-90): when the previous file
        is over 5 MiB it is removed and the in-memory set is emptied; the
        in-memory set is then written. */
    method Save()
      modifies this, file
      ensures (processed, file.state) == SaveProcessed(old(processed), old(file.state), file.sizeOf)
      ensures Load(file.state) == Some(processed)
      ensures processed == if old(file.IsOversized()) then {} else old(processed)
    {
      if file.IsOversized() {
        file.Remove();
        processed := {};
      }
      file.Dump(processed);
    }

    /** `search_reddit_for_keywords` (bot.py:108-141) over what iterating
        `subreddit(...).new(limit=10)` produced. */
    method SearchPass(listing: Listing)
      requires |listing.submissions| <= FETCH_LIMIT
      modifies this, file, pushover
      ensures State() == AfterPass(Spec(), file.sizeOf, old(State()), listing)
    {
      var subs := listing.submissions;
      var i := 0;
      while i < |subs|
        invariant 0 <= i <= |subs|
        invariant Run(Spec(), file.sizeOf, State(), subs[i..]) == Run(Spec(), file.sizeOf, old(State()), subs)
      {
        var s := subs[i];
        var key := SubmissionKey(subreddit, s.id);
        if key !in processed {
          var message := MatchMessage(subreddit, s);
          if Matches(Spec(), s) {
            pushover.SendPush(message);
            processed := processed + {key};
            Save();
          }
        }
        assert subs[i..][0] == s && subs[i..][1..] == subs[i + 1..];
        i := i + 1;
      }
      if listing.failure.Some? {
        pushover.SendError(SearchErrorText(subreddit, listing.failure.value));
      }
    }
  }
}
