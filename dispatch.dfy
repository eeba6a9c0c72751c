/**
 * The reply dispatcher of one poll cycle, as a specification over values:
 * what happens to each mention (`Step`), to an oldest-first batch (`Run`)
 * and to a whole cycle given what the fetch returned (`Cycle`). The class
 * `BotLoop.Bot` runs the same cycle imperatively and is proved equal to `Cycle`.
 */
module Dispatch {
  import opened Wrappers
  import opened Numerals
  import opened CursorStore
  import opened Mentions

  /** The error code the platform uses for throttling; it aborts the batch. */
  const RateLimitedCode := 429
  /** The error code of a forbidden reply (blocked, duplicate, protected account). */
  const ForbiddenCode := 403

  /** A reply request: the text, posted in reply to a mention id. */
  datatype Reply = Reply(inReplyTo: nat, text: string)

  /** What posting a reply came to; a failure may carry a numeric code. */
  datatype ReplyOutcome = Posted | Failed(code: Option<int>)

  /** A reply call that was made, and its outcome. */
  datatype Attempt = Attempt(reply: Reply, outcome: ReplyOutcome)

  /** How one mention was dealt with. */
  datatype Verdict =
    | SkippedSelf         // authored by the bot: cursor set, no reply
    | SkippedSeen         // id not above the stored cursor: nothing happens
    | Replied             // reply posted, cursor advanced
    | SkippedForbidden    // reply refused with 403, cursor advanced anyway
    | SkippedFailed       // reply failed otherwise, cursor advanced anyway
    | AbortedRateLimited  // reply refused with 429: the cycle ends, cursor kept
    | AbortedBadCursor    // the stored cursor is not a BigInt literal: the cycle ends

  /** One line of the cycle's trace: the mention, its verdict and the reply call made for it, if any. */
  datatype Handled = Handled(id: nat, verdict: Verdict, attempt: Option<Attempt>)

  /** What the mentions fetch produced: a batch (newest first) with its author records, or an error. */
  datatype FetchResult =
    | Fetched(mentions: seq<Mention>, users: seq<User>)
    | FetchFailed(code: Option<int>)

  /**
   * The cursor store as the dispatcher sees it: the file contents and what
   * reading them gives. The reading is taken once when a cycle starts and
   * then follows the saves (`Saved`), which `SavedIsRead` shows is what
   * re-reading the file gives.
   */
  datatype Store = Store(file: Option<string>, cursor: CursorRead)

  /** The store as read from the file. */
  function Loaded(file: Option<string>): Store {
    Store(file, ReadCursor(file))
  }

  /** The store once `saveLastMentionId(id)` has run. */
  function Saved(id: nat): Store {
    Store(Some(SavedForm(id)), Cursor(id))
  }

  /** After a save, reading the file gives the saved id: `Saved(id)` is what the file holds. */
  lemma SavedIsRead(id: nat)
    ensures Loaded(Saved(id).file) == Saved(id)
  {
    ReadSavedCursor(id);
  }

  /** The store after a step or run, and the trace it produced. */
  datatype Outcome = Outcome(store: Store, trace: seq<Handled>)

  predicate Stops(v: Verdict) {
    v == AbortedRateLimited || v == AbortedBadCursor
  }

  /** The verdict of a reply call, from its outcome. */
  function Classify(outcome: ReplyOutcome): (v: Verdict)
    ensures Stops(v) <==> outcome == Failed(Some(RateLimitedCode))
    ensures v == Replied <==> outcome == Posted
    ensures v == SkippedForbidden <==> outcome == Failed(Some(ForbiddenCode))
    ensures v in {Replied, SkippedForbidden, SkippedFailed, AbortedRateLimited}
  {
    match outcome
    case Posted => Replied
    case Failed(code) =>
      if code == Some(RateLimitedCode) then AbortedRateLimited
      else if code == Some(ForbiddenCode) then SkippedForbidden
      else SkippedFailed
  }

  /** The reply the bot would send to a mention. */
  function ReplyFor(template: string, userMap: map<string, string>, m: Mention): Reply {
    Reply(m.id, ReplyText(template, Handle(userMap, m.authorId)))
  }

  /** The handling of one mention, given the store as it is when the mention is reached. */
  function Step(botId: string, template: string, userMap: map<string, string>,
                store: Store, m: Mention, post: Reply -> ReplyOutcome): Outcome
  {
    if m.authorId == botId then
      Outcome(Saved(m.id), [Handled(m.id, SkippedSelf, None)])
    else if store.cursor.Unparsable? then
      Outcome(store, [Handled(m.id, AbortedBadCursor, None)])
    else if store.cursor.Cursor? && m.id <= store.cursor.id then
      Outcome(store, [Handled(m.id, SkippedSeen, None)])
    else
      var reply := ReplyFor(template, userMap, m);
      var outcome := post(reply);
      var v := Classify(outcome);
      Outcome(if Stops(v) then store else Saved(m.id), [Handled(m.id, v, Some(Attempt(reply, outcome)))])
  }

  /** `Step` on a self-authored mention; one unfolding, used by `BotLoop.Bot.HandleMention`. */
  lemma SelfStep(botId: string, template: string, userMap: map<string, string>,
                 store: Store, m: Mention, post: Reply -> ReplyOutcome)
    requires m.authorId == botId
    ensures Step(botId, template, userMap, store, m, post) == Outcome(Saved(m.id), [Handled(m.id, SkippedSelf, None)])
  {
  }

  /**
   * `Step` on a mention from someone else that the cursor guard turns away;
   * one unfolding, used by `BotLoop.Bot.HandleOther` and `CycleOverlap`.
   */
  lemma GuardStep(botId: string, template: string, userMap: map<string, string>,
                  store: Store, m: Mention, post: Reply -> ReplyOutcome)
    requires m.authorId != botId
    requires store.cursor.Unparsable? || (store.cursor.Cursor? && m.id <= store.cursor.id)
    ensures Step(botId, template, userMap, store, m, post)
      == Outcome(store, [Handled(m.id, if store.cursor.Unparsable? then AbortedBadCursor else SkippedSeen, None)])
  {
  }

  /**
   * `Step` on a mention from someone else that passes the cursor guard; one
   * unfolding, used by `BotLoop.Bot.ReplyTo`, `EveryReplyPosted` and `CycleOverlap`.
   */
  lemma ReplyStep(botId: string, template: string, userMap: map<string, string>,
                  store: Store, m: Mention, post: Reply -> ReplyOutcome)
    requires m.authorId != botId
    requires store.cursor.NoCursor? || (store.cursor.Cursor? && m.id > store.cursor.id)
    ensures var reply := ReplyFor(template, userMap, m);
      var v := Classify(post(reply));
      Step(botId, template, userMap, store, m, post)
        == Outcome(if Stops(v) then store else Saved(m.id), [Handled(m.id, v, Some(Attempt(reply, post(reply))))])
  {
  }

  /**
   * Everything a step can do: it adds one trace line, for its own mention;
   * it leaves the store alone or saves the mention's id, and leaves it alone
   * when it stops; a self-authored mention is saved without a reply; a reply
   * call is made only for a mention from someone else above the cursor, is
   * addressed to it, and stops the cycle exactly when it is answered with 429.
   */
  lemma StepShape(botId: string, template: string, userMap: map<string, string>,
                  store: Store, m: Mention, post: Reply -> ReplyOutcome)
    ensures var s := Step(botId, template, userMap, store, m, post);
      var h := s.trace[0];
      && s.trace == [h] && h.id == m.id
      && (s.store == store || s.store == Saved(m.id))
      && (Stops(h.verdict) ==> s.store == store)
      && (m.authorId == botId ==> s.store == Saved(m.id) && h.verdict == SkippedSelf && h.attempt.None?)
      && (m.authorId != botId && s.store != store ==> h.attempt.Some?)
      && (h.attempt.Some? ==>
            && m.authorId != botId
            && (store.cursor.NoCursor? || (store.cursor.Cursor? && m.id > store.cursor.id))
            && h.attempt.value.reply.inReplyTo == m.id
            && (Stops(h.verdict) <==> h.attempt.value.outcome == Failed(Some(RateLimitedCode))))
      && Attempts(s.trace) == (if h.attempt.Some? then [h.attempt.value] else [])
  {
    var s := Step(botId, template, userMap, store, m, post);
    assert s.trace[..0] == [];
  }

  /** The oldest-first loop over a batch: each mention in turn, until a step stops the cycle. */
  function Run(botId: string, template: string, userMap: map<string, string>,
               store: Store, tweets: seq<Mention>, post: Reply -> ReplyOutcome): Outcome
    decreases |tweets|
  {
    if tweets == [] then Outcome(store, [])
    else
      var step := Step(botId, template, userMap, store, tweets[0], post);
      if Stops(step.trace[0].verdict) then step
      else
        var rest := Run(botId, template, userMap, step.store, tweets[1..], post);
        Outcome(rest.store, step.trace + rest.trace)
  }

  /**
   * A batch whose first step does not stop is that step followed by the rest
   * of the batch; one unfolding of `Run`, used by the inductions over batches.
   */
  lemma RunCons(botId: string, template: string, userMap: map<string, string>,
                store: Store, tweets: seq<Mention>, post: Reply -> ReplyOutcome)
    requires tweets != [] && !Stops(Step(botId, template, userMap, store, tweets[0], post).trace[0].verdict)
    ensures var step := Step(botId, template, userMap, store, tweets[0], post);
      var rest := Run(botId, template, userMap, step.store, tweets[1..], post);
      Run(botId, template, userMap, store, tweets, post) == Outcome(rest.store, step.trace + rest.trace)
  {
  }

  /**
   * Running from position `i` is one step on `tweets[i]` followed, unless that
   * step stops, by running from `i + 1`; one unfolding of `Run`, used by
   * `RunAdvances` and `RateLimitStopsBatch`.
   */
  lemma RunFrom(botId: string, template: string, userMap: map<string, string>,
                store: Store, tweets: seq<Mention>, post: Reply -> ReplyOutcome, i: nat)
    requires i < |tweets|
    ensures var step := Step(botId, template, userMap, store, tweets[i], post);
      var rest := Run(botId, template, userMap, step.store, tweets[i + 1..], post);
      Run(botId, template, userMap, store, tweets[i..], post)
        == if Stops(step.trace[0].verdict) then step else Outcome(rest.store, step.trace + rest.trace)
  {
    assert tweets[i..][0] == tweets[i] && tweets[i..][1..] == tweets[i + 1..];
  }

  /**
   * One more mention of a batch loop: if the whole batch is `trace` so far
   * followed by running from position `i`, and the step on `tweets[i]` gives
   * `handled`, then the whole batch is `trace + [handled]`, followed (unless
   * the step stops) by running from `i + 1`. `RunFrom` restated as the loop
   * invariant of `BotLoop.Bot.HandleNext`, which uses it.
   */
  lemma RunAdvances(botId: string, template: string, userMap: map<string, string>,
                    tweets: seq<Mention>, post: Reply -> ReplyOutcome, i: nat,
                    before: Store, after: Store, handled: Handled, trace: seq<Handled>, whole: Outcome)
    requires i < |tweets|
    requires Step(botId, template, userMap, before, tweets[i], post) == Outcome(after, [handled])
    requires whole.store == Run(botId, template, userMap, before, tweets[i..], post).store
    requires whole.trace == trace + Run(botId, template, userMap, before, tweets[i..], post).trace
    ensures Stops(handled.verdict) ==> whole == Outcome(after, trace + [handled])
    ensures !Stops(handled.verdict) ==>
      && whole.store == Run(botId, template, userMap, after, tweets[i + 1..], post).store
      && whole.trace == (trace + [handled]) + Run(botId, template, userMap, after, tweets[i + 1..], post).trace
  {
    RunFrom(botId, template, userMap, before, tweets, post, i);
  }

  /**
   * One poll cycle: a failed fetch or an empty batch changes nothing;
   * otherwise the batch is processed oldest first with its author map.
   */
  function Cycle(botId: string, template: string, file: Option<string>,
                 fetch: FetchResult, post: Reply -> ReplyOutcome): Outcome
  {
    if fetch.FetchFailed? || fetch.mentions == [] then Outcome(Loaded(file), [])
    else Run(botId, template, UserMapOf(fetch.users), Loaded(file), Reversed(fetch.mentions), post)
  }

  /** The reply calls a trace records, in order. */
  function Attempts(trace: seq<Handled>): seq<Attempt>
    decreases |trace|
  {
    if trace == [] then []
    else
      var last := trace[|trace| - 1];
      Attempts(trace[..|trace| - 1]) + (if last.attempt.Some? then [last.attempt.value] else [])
  }
}
