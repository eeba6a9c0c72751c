/**
 * The running bot: its own account id and reply template, fixed at start-up,
 * and the cursor file, which every poll cycle reads and overwrites mention by
 * mention. `posted` records every reply call the bot has made.
 */
module BotLoop {
  import opened Wrappers
  import opened Numerals
  import opened CursorStore
  import opened Mentions
  import opened Dispatch

  class Bot {
    const botId: string
    const template: string
    var cursorFile: Option<string>
    ghost var posted: seq<Attempt>

    /** The bot once its own id is known; `cursorFile` is whatever the file held at start-up. */
    constructor (botId: string, template: string, cursorFile: Option<string>)
      ensures this.botId == botId && this.template == template
      ensures this.cursorFile == cursorFile && posted == []
    {
      this.botId := botId;
      this.template := template;
      this.cursorFile := cursorFile;
      posted := [];
    }

    /** `saveLastMentionId`: overwrites the file with the id's decimal form. */
    method SaveLastMentionId(id: nat)
      modifies this`cursorFile
      ensures Loaded(cursorFile) == Saved(id)
    {
      cursorFile := Some(SavedForm(id));
      SavedIsRead(id);
    }

    /**
     * `pollMentions`: one cycle over what the fetch returned, with `post`
     * standing for the platform's reply call. The new cursor file and the
     * trace are those of `Cycle`, and every reply call made is logged in
     * `posted`.
     */
    method PollMentions(fetch: FetchResult, post: Reply -> ReplyOutcome) returns (trace: seq<Handled>)
      modifies this
      ensures cursorFile == Cycle(botId, template, old(cursorFile), fetch, post).store.file
      ensures trace == Cycle(botId, template, old(cursorFile), fetch, post).trace
      ensures posted == old(posted) + Attempts(trace)
    {
      trace := [];
      if fetch.FetchFailed? {
        return;
      }
      if |fetch.mentions| == 0 {
        return;
      }
      var userMap := BuildUserMap(fetch.users);
      var tweets := Reversed(fetch.mentions);
      trace := ProcessBatch(userMap, tweets, post);
    }

    /**
     * The batch loop of `pollMentions` over the oldest-first mentions; it
     * ends early when a mention stops the cycle.
     */
    method ProcessBatch(userMap: map<string, string>, tweets: seq<Mention>, post: Reply -> ReplyOutcome)
      returns (trace: seq<Handled>)
      modifies this
      ensures Loaded(cursorFile) == Run(botId, template, userMap, Loaded(old(cursorFile)), tweets, post).store
      ensures trace == Run(botId, template, userMap, Loaded(old(cursorFile)), tweets, post).trace
      ensures posted == old(posted) + Attempts(trace)
    {
      trace := [];
      ghost var whole := Run(botId, template, userMap, Loaded(cursorFile), tweets, post);
      ghost var posted0 := posted;
      var i := 0;
      assert tweets[i..] == tweets;
      while i < |tweets|
        invariant 0 <= i <= |tweets|
        invariant whole.store == Run(botId, template, userMap, Loaded(cursorFile), tweets[i..], post).store
        invariant whole.trace == trace + Run(botId, template, userMap, Loaded(cursorFile), tweets[i..], post).trace
        invariant posted == posted0 + Attempts(trace)
      {
        var stop;
        trace, stop := HandleNext(userMap, tweets, i, trace, post, whole, posted0);
        if stop {
          return;
        }
        i := i + 1;
      }
    }

    /**
     * One turn of the batch loop: handles `tweets[i]` and adds its line to
     * the trace. If the whole batch was `trace` followed by running from `i`,
     * it is now the longer trace followed, unless the mention stopped the
     * cycle, by running from `i + 1`.
     */
    method HandleNext(userMap: map<string, string>, tweets: seq<Mention>, i: nat, trace: seq<Handled>,
                      post: Reply -> ReplyOutcome, ghost whole: Outcome, ghost posted0: seq<Attempt>)
      returns (trace': seq<Handled>, stop: bool)
      requires i < |tweets|
      requires whole.store == Run(botId, template, userMap, Loaded(cursorFile), tweets[i..], post).store
      requires whole.trace == trace + Run(botId, template, userMap, Loaded(cursorFile), tweets[i..], post).trace
      requires posted == posted0 + Attempts(trace)
      modifies this
      ensures posted == posted0 + Attempts(trace')
      ensures stop ==> whole == Outcome(Loaded(cursorFile), trace')
      ensures !stop ==>
        && whole.store == Run(botId, template, userMap, Loaded(cursorFile), tweets[i + 1..], post).store
        && whole.trace == trace' + Run(botId, template, userMap, Loaded(cursorFile), tweets[i + 1..], post).trace
    {
      ghost var before := Loaded(cursorFile);
      var handled := HandleMention(userMap, tweets[i], post);
      RunAdvances(botId, template, userMap, tweets, post, i, before, Loaded(cursorFile), handled, trace, whole);
      trace' := AppendHandled(trace, handled);
      stop := Stops(handled.verdict);
    }

    /**
     * The body of the batch loop for one mention: skip a self-authored one
     * (saving its id), skip one not above the stored cursor, otherwise post
     * the reply. Exactly `Step` on the current cursor file.
     */
    method HandleMention(userMap: map<string, string>, tweet: Mention, post: Reply -> ReplyOutcome)
      returns (handled: Handled)
      modifies this
      ensures Step(botId, template, userMap, Loaded(old(cursorFile)), tweet, post) == Outcome(Loaded(cursorFile), [handled])
      ensures posted == old(posted) + (if handled.attempt.Some? then [handled.attempt.value] else [])
    {
      var authorUsername := Handle(userMap, tweet.authorId);
      if tweet.authorId == botId {
        SelfStep(botId, template, userMap, Loaded(cursorFile), tweet, post);
        SaveLastMentionId(tweet.id);
        return Handled(tweet.id, SkippedSelf, None);
      }
      handled := HandleOther(userMap, tweet, authorUsername, post);
    }

    /** A mention from someone else: the duplicate guard on the stored cursor, then the reply. */
    method HandleOther(userMap: map<string, string>, tweet: Mention, authorUsername: string, post: Reply -> ReplyOutcome)
      returns (handled: Handled)
      requires tweet.authorId != botId && authorUsername == Handle(userMap, tweet.authorId)
      modifies this
      ensures Step(botId, template, userMap, Loaded(old(cursorFile)), tweet, post) == Outcome(Loaded(cursorFile), [handled])
      ensures posted == old(posted) + (if handled.attempt.Some? then [handled.attempt.value] else [])
    {
      var lastId := ReadCursor(cursorFile);
      if lastId.Unparsable? || (lastId.Cursor? && tweet.id <= lastId.id) {
        GuardStep(botId, template, userMap, Loaded(cursorFile), tweet, post);
        return Handled(tweet.id, if lastId.Unparsable? then AbortedBadCursor else SkippedSeen, None);
      }
      handled := ReplyTo(userMap, tweet, authorUsername, post);
    }

    /**
     * Posting the reply to a mention that passed the guard: the cycle stops on
     * 429 with the cursor kept; any other answer saves the mention's id.
     */
    method ReplyTo(userMap: map<string, string>, tweet: Mention, authorUsername: string, post: Reply -> ReplyOutcome)
      returns (handled: Handled)
      requires tweet.authorId != botId && authorUsername == Handle(userMap, tweet.authorId)
      requires ReadCursor(cursorFile).NoCursor? || (ReadCursor(cursorFile).Cursor? && tweet.id > ReadCursor(cursorFile).id)
      modifies this
      ensures Step(botId, template, userMap, Loaded(old(cursorFile)), tweet, post) == Outcome(Loaded(cursorFile), [handled])
      ensures posted == old(posted) + (if handled.attempt.Some? then [handled.attempt.value] else [])
    {
      var replyText := ReplyText(template, authorUsername);
      var reply := Reply(tweet.id, replyText);
      var outcome := post(reply);
      ReplyStep(botId, template, userMap, Loaded(cursorFile), tweet, post);
      posted := posted + [Attempt(reply, outcome)];
      if outcome.Failed? && outcome.code == Some(RateLimitedCode) {
        return Handled(tweet.id, AbortedRateLimited, Some(Attempt(reply, outcome)));
      }
      var verdict :=
        if outcome.Posted? then Replied
        else if outcome.code == Some(ForbiddenCode) then SkippedForbidden
        else SkippedFailed;
      SaveLastMentionId(tweet.id);
      handled := Handled(tweet.id, verdict, Some(Attempt(reply, outcome)));
    }
  }

  /** Adds one line to a trace; the reply calls it records grow by that line's call, if any. */
  function AppendHandled(trace: seq<Handled>, h: Handled): (r: seq<Handled>)
    ensures r == trace + [h]
    ensures Attempts(r) == Attempts(trace) + (if h.attempt.Some? then [h.attempt.value] else [])
  {
    assert (trace + [h])[..|trace|] == trace;
    trace + [h]
  }
}
