/**
 * What the dispatcher guarantees, stated over `Step`, `Run` and `Cycle`:
 * per-mention decisions, processing order, the rate-limit abort, cursor
 * monotonicity, and that no mention is ever replied to after it has been
 * resolved.
 */
module DispatchProperties {
  import opened Wrappers
  import opened CursorStore
  import opened Mentions
  import opened Dispatch

  // ---------------------------------------------------------------------------
  // One mention

  /** A self-authored mention gets no reply, and the cursor becomes its id whatever the cursor was. */
  lemma SelfMentionSetsCursor(botId: string, template: string, userMap: map<string, string>,
                              store: Store, m: Mention, post: Reply -> ReplyOutcome)
    requires m.authorId == botId
    ensures var step := Step(botId, template, userMap, store, m, post);
      && step.trace == [Handled(m.id, SkippedSelf, None)]
      && step.store.cursor == Cursor(m.id)
  {
  }

  /**
   * The duplicate guard: a mention from someone else is skipped, with nothing
   * written, exactly when the stored cursor is a value at or above its id; an
   * absent cursor never causes the skip.
   */
  lemma GuardSkipsSeen(botId: string, template: string, userMap: map<string, string>,
                       store: Store, m: Mention, post: Reply -> ReplyOutcome)
    requires m.authorId != botId && !store.cursor.Unparsable?
    ensures var step := Step(botId, template, userMap, store, m, post);
      && (step.trace[0].verdict == SkippedSeen <==> store.cursor.Cursor? && m.id <= store.cursor.id)
      && (step.trace[0].verdict == SkippedSeen ==> step.store == store && step.trace[0].attempt.None?)
      && (store.cursor == NoCursor ==> step.trace[0].attempt.Some?)
  {
  }

  /**
   * A mention from someone else that passes the guard gets exactly one reply
   * call, addressed to it with the template filled in with its author's
   * handle. A 429 answer stops the cycle and keeps the cursor; any other
   * answer (success, 403 or another failure) resolves the mention: the
   * cursor becomes its id, strictly above the previous cursor.
   */
  lemma ReplyResolvesOrStops(botId: string, template: string, userMap: map<string, string>,
                             store: Store, m: Mention, post: Reply -> ReplyOutcome)
    requires m.authorId != botId
    requires store.cursor == NoCursor || (store.cursor.Cursor? && m.id > store.cursor.id)
    ensures var step := Step(botId, template, userMap, store, m, post);
      var reply := Reply(m.id, ReplyText(template, Handle(userMap, m.authorId)));
      && step.trace == [Handled(m.id, Classify(post(reply)), Some(Attempt(reply, post(reply))))]
      && (post(reply) == Failed(Some(RateLimitedCode)) ==> Stops(step.trace[0].verdict) && step.store == store)
      && (post(reply) != Failed(Some(RateLimitedCode)) ==>
            && !Stops(step.trace[0].verdict)
            && step.store.cursor == Cursor(m.id)
            && (store.cursor.Cursor? ==> step.store.cursor.id > store.cursor.id))
  {
  }

  /** A stored cursor that `BigInt` rejects ends the cycle at the first mention from someone else, writing nothing. */
  lemma UnparsableCursorStops(botId: string, template: string, userMap: map<string, string>,
                              store: Store, m: Mention, post: Reply -> ReplyOutcome)
    requires m.authorId != botId && store.cursor.Unparsable?
    ensures Step(botId, template, userMap, store, m, post) == Outcome(store, [Handled(m.id, AbortedBadCursor, None)])
  {
  }

  // ---------------------------------------------------------------------------
  // A batch

  /** The reply calls of two traces one after the other are those of each, in order. */
  lemma {:induction false} AttemptsAppend(a: seq<Handled>, b: seq<Handled>)
    ensures Attempts(a + b) == Attempts(a) + Attempts(b)
    decreases |b|
  {
    if b != [] {
      var b' := b[..|b| - 1];
      AttemptsAppend(a, b');
      assert (a + b)[..|a + b| - 1] == a + b';
    } else {
      assert a + b == a;
    }
  }

  /**
   * The batch is handled in the order given (oldest first), one trace line
   * per mention reached; every reply call is addressed to the mention of its
   * own line; a self-authored mention never gets a reply.
   */
  lemma {:induction false} RunFollowsBatch(botId: string, template: string, userMap: map<string, string>,
                                           store: Store, tweets: seq<Mention>, post: Reply -> ReplyOutcome)
    ensures var r := Run(botId, template, userMap, store, tweets, post);
      && |r.trace| <= |tweets|
      && forall i :: 0 <= i < |r.trace| ==>
           && r.trace[i].id == tweets[i].id
           && (r.trace[i].attempt.Some? ==> r.trace[i].attempt.value.reply.inReplyTo == r.trace[i].id)
           && (tweets[i].authorId == botId ==> r.trace[i].verdict == SkippedSelf && r.trace[i].attempt.None?)
    decreases |tweets|
  {
    if tweets != [] {
      var step := Step(botId, template, userMap, store, tweets[0], post);
      StepShape(botId, template, userMap, store, tweets[0], post);
      if !Stops(step.trace[0].verdict) {
        RunFollowsBatch(botId, template, userMap, step.store, tweets[1..], post);
        RunCons(botId, template, userMap, store, tweets, post);
        var rest := Run(botId, template, userMap, step.store, tweets[1..], post);
        FollowsCons(botId, tweets, step.trace[0], rest.trace);
      }
    }
  }

  /** A first line that follows the first mention, then lines that follow the rest, follow the whole batch. */
  lemma FollowsCons(botId: string, tweets: seq<Mention>, h: Handled, tail: seq<Handled>)
    requires tweets != []
    requires h.id == tweets[0].id
    requires h.attempt.Some? ==> h.attempt.value.reply.inReplyTo == h.id
    requires tweets[0].authorId == botId ==> h.verdict == SkippedSelf && h.attempt.None?
    requires |tail| <= |tweets[1..]|
    requires forall i :: 0 <= i < |tail| ==>
      && tail[i].id == tweets[1..][i].id
      && (tail[i].attempt.Some? ==> tail[i].attempt.value.reply.inReplyTo == tail[i].id)
      && (tweets[1..][i].authorId == botId ==> tail[i].verdict == SkippedSelf && tail[i].attempt.None?)
    ensures var t := [h] + tail;
      && |t| <= |tweets|
      && forall i :: 0 <= i < |t| ==>
           && t[i].id == tweets[i].id
           && (t[i].attempt.Some? ==> t[i].attempt.value.reply.inReplyTo == t[i].id)
           && (tweets[i].authorId == botId ==> t[i].verdict == SkippedSelf && t[i].attempt.None?)
  {
    var t := [h] + tail;
    forall i | 1 <= i < |t| ensures t[i] == tail[i - 1] && tweets[i] == tweets[1..][i - 1] {
    }
  }

  /** Only the last line of a trace can stop the batch. */
  lemma {:induction false} RunStopsOnlyAtEnd(botId: string, template: string, userMap: map<string, string>,
                                             store: Store, tweets: seq<Mention>, post: Reply -> ReplyOutcome)
    ensures var r := Run(botId, template, userMap, store, tweets, post);
      forall i :: 0 <= i < |r.trace| - 1 ==> !Stops(r.trace[i].verdict)
    decreases |tweets|
  {
    if tweets != [] {
      var step := Step(botId, template, userMap, store, tweets[0], post);
      StepShape(botId, template, userMap, store, tweets[0], post);
      if !Stops(step.trace[0].verdict) {
        RunStopsOnlyAtEnd(botId, template, userMap, step.store, tweets[1..], post);
        RunCons(botId, template, userMap, store, tweets, post);
        var rest := Run(botId, template, userMap, step.store, tweets[1..], post);
        StopsOnlyAtEndCons(step.trace[0], rest.trace);
      }
    }
  }

  /** A first line that does not stop, then lines of which only the last can stop: still only the last can stop. */
  lemma StopsOnlyAtEndCons(h: Handled, tail: seq<Handled>)
    requires !Stops(h.verdict)
    requires forall i :: 0 <= i < |tail| - 1 ==> !Stops(tail[i].verdict)
    ensures var t := [h] + tail;
      forall i :: 0 <= i < |t| - 1 ==> !Stops(t[i].verdict)
  {
    var t := [h] + tail;
    forall i | 1 <= i < |t| ensures t[i] == tail[i - 1] {
    }
  }

  /** A batch cut short, with mentions never reached, ends with a line that stops it. */
  lemma {:induction false} RunCutShortStops(botId: string, template: string, userMap: map<string, string>,
                                            store: Store, tweets: seq<Mention>, post: Reply -> ReplyOutcome)
    ensures var r := Run(botId, template, userMap, store, tweets, post);
      |r.trace| < |tweets| ==> r.trace != [] && Stops(r.trace[|r.trace| - 1].verdict)
    decreases |tweets|
  {
    if tweets != [] {
      var step := Step(botId, template, userMap, store, tweets[0], post);
      StepShape(botId, template, userMap, store, tweets[0], post);
      if !Stops(step.trace[0].verdict) {
        RunCutShortStops(botId, template, userMap, step.store, tweets[1..], post);
        RunCons(botId, template, userMap, store, tweets, post);
      }
    }
  }

  /** The first `k` mentions of a batch are all reached and none of them stops it. */
  predicate PrefixRunsThrough(botId: string, template: string, userMap: map<string, string>,
                              store: Store, tweets: seq<Mention>, post: Reply -> ReplyOutcome, k: nat)
    requires k <= |tweets|
  {
    var pre := Run(botId, template, userMap, store, tweets[..k], post);
    |pre.trace| == k && forall i :: 0 <= i < k ==> !Stops(pre.trace[i].verdict)
  }

  /** A prefix that runs through starts with a step that does not stop, after which the rest of it runs through. */
  lemma PrefixRunsThroughTail(botId: string, template: string, userMap: map<string, string>,
                              store: Store, tweets: seq<Mention>, post: Reply -> ReplyOutcome, k: nat)
    requires 0 < k <= |tweets|
    requires PrefixRunsThrough(botId, template, userMap, store, tweets, post, k)
    ensures var step := Step(botId, template, userMap, store, tweets[0], post);
      var pre := Run(botId, template, userMap, store, tweets[..k], post);
      var pre' := Run(botId, template, userMap, step.store, tweets[1..][..k - 1], post);
      && !Stops(step.trace[0].verdict)
      && pre == Outcome(pre'.store, step.trace + pre'.trace)
      && PrefixRunsThrough(botId, template, userMap, step.store, tweets[1..], post, k - 1)
  {
    var step := Step(botId, template, userMap, store, tweets[0], post);
    StepShape(botId, template, userMap, store, tweets[0], post);
    assert tweets[..k][0] == tweets[0] && tweets[..k][1..] == tweets[1..][..k - 1];
    var pre := Run(botId, template, userMap, store, tweets[..k], post);
    assert pre.trace[0] == step.trace[0];
    RunCons(botId, template, userMap, store, tweets[..k], post);
    var pre' := Run(botId, template, userMap, step.store, tweets[1..][..k - 1], post);
    TailRunsThrough(step.trace, pre'.trace, k);
  }

  /** Dropping the first line of a trace with no stopping line leaves a trace with no stopping line. */
  lemma TailRunsThrough(first: seq<Handled>, tail: seq<Handled>, k: nat)
    requires |first| == 1 && |first + tail| == k
    requires forall i :: 0 <= i < k ==> !Stops((first + tail)[i].verdict)
    ensures |tail| == k - 1 && forall i :: 0 <= i < k - 1 ==> !Stops(tail[i].verdict)
  {
    forall i | 0 <= i < k - 1 ensures !Stops(tail[i].verdict) {
      assert tail[i] == (first + tail)[i + 1];
    }
  }

  /** Traces compose: a step, then a prefix, then the rest is the step and prefix, then the rest. */
  lemma OutcomesCompose(whole: Outcome, step: Outcome, pre: Outcome, pre': Outcome, tail: Outcome, rest: Outcome)
    requires whole == Outcome(tail.store, step.trace + tail.trace)
    requires tail == Outcome(rest.store, pre'.trace + rest.trace)
    requires pre == Outcome(pre'.store, step.trace + pre'.trace)
    ensures whole == Outcome(rest.store, pre.trace + rest.trace)
  {
    assert step.trace + (pre'.trace + rest.trace) == (step.trace + pre'.trace) + rest.trace;
  }

  /** Running a batch is running a prefix that does not stop and then the rest from where it left the cursor. */
  lemma {:induction false} RunSplit(botId: string, template: string, userMap: map<string, string>,
                                    store: Store, tweets: seq<Mention>, post: Reply -> ReplyOutcome, k: nat)
    requires k <= |tweets|
    requires PrefixRunsThrough(botId, template, userMap, store, tweets, post, k)
    ensures var pre := Run(botId, template, userMap, store, tweets[..k], post);
      var rest := Run(botId, template, userMap, pre.store, tweets[k..], post);
      Run(botId, template, userMap, store, tweets, post) == Outcome(rest.store, pre.trace + rest.trace)
    decreases k
  {
    if k == 0 {
      assert tweets[k..] == tweets;
    } else {
      var step := Step(botId, template, userMap, store, tweets[0], post);
      PrefixRunsThroughTail(botId, template, userMap, store, tweets, post, k);
      var pre' := Run(botId, template, userMap, step.store, tweets[1..][..k - 1], post);
      RunSplit(botId, template, userMap, step.store, tweets[1..], post, k - 1);
      assert tweets[1..][k - 1..] == tweets[k..];
      RunCons(botId, template, userMap, store, tweets, post);
      OutcomesCompose(Run(botId, template, userMap, store, tweets, post), step,
                      Run(botId, template, userMap, store, tweets[..k], post), pre',
                      Run(botId, template, userMap, step.store, tweets[1..], post),
                      Run(botId, template, userMap, pre'.store, tweets[k..], post));
    }
  }

  /**
   * The rate-limit abort: when the mentions before position `k` are handled
   * without stopping and the reply to mention `k` is answered with 429, the
   * cycle ends right there. The cursor keeps the value it had before mention
   * `k`, the trace ends with that mention, and no later mention is reached.
   */
  lemma RateLimitStopsBatch(botId: string, template: string, userMap: map<string, string>,
                            store: Store, tweets: seq<Mention>, post: Reply -> ReplyOutcome, k: nat)
    requires k < |tweets|
    requires PrefixRunsThrough(botId, template, userMap, store, tweets, post, k)
    requires var pre := Run(botId, template, userMap, store, tweets[..k], post);
      Step(botId, template, userMap, pre.store, tweets[k], post).trace[0].verdict == AbortedRateLimited
    ensures var pre := Run(botId, template, userMap, store, tweets[..k], post);
      var r := Run(botId, template, userMap, store, tweets, post);
      && r.store == pre.store
      && |r.trace| == k + 1
      && r.trace == pre.trace + [Handled(tweets[k].id, AbortedRateLimited, r.trace[k].attempt)]
      && r.trace[k].attempt.Some?
  {
    RunSplit(botId, template, userMap, store, tweets, post, k);
    var pre := Run(botId, template, userMap, store, tweets[..k], post);
    var step := Step(botId, template, userMap, pre.store, tweets[k], post);
    StepShape(botId, template, userMap, pre.store, tweets[k], post);
    RunFrom(botId, template, userMap, pre.store, tweets, post, k);
    assert Run(botId, template, userMap, pre.store, tweets[k..], post) == step;
    assert step.trace == [Handled(tweets[k].id, AbortedRateLimited, step.trace[0].attempt)];
  }

  /** The cursor as a number never moves back: `now` is at or above `before` whenever `before` holds a number. */
  predicate NotBehind(now: CursorRead, before: CursorRead) {
    before.Cursor? ==> now.Cursor? && now.id >= before.id
  }

  /** An id lies above the cursor (vacuously so when there is no numeric cursor). */
  predicate Above(id: int, cursor: CursorRead) {
    cursor.Cursor? ==> id > cursor.id
  }

  /** Every self-authored mention the batch reaches has an id above the cursor in force at that point. */
  predicate SelfMentionsAdvance(botId: string, template: string, userMap: map<string, string>,
                                store: Store, tweets: seq<Mention>, post: Reply -> ReplyOutcome)
    decreases |tweets|
  {
    tweets == [] ||
    var step := Step(botId, template, userMap, store, tweets[0], post);
    && (tweets[0].authorId == botId ==> Above(tweets[0].id, store.cursor))
    && (Stops(step.trace[0].verdict) || SelfMentionsAdvance(botId, template, userMap, step.store, tweets[1..], post))
  }

  /**
   * Monotonicity of a batch: provided self-authored mentions do not move the
   * cursor back, the cursor after the batch is not behind the one before it,
   * and every reply call is for a mention above the cursor the batch began with.
   */
  lemma {:induction false} RunNeverGoesBack(botId: string, template: string, userMap: map<string, string>,
                                            store: Store, tweets: seq<Mention>, post: Reply -> ReplyOutcome)
    requires SelfMentionsAdvance(botId, template, userMap, store, tweets, post)
    ensures var r := Run(botId, template, userMap, store, tweets, post);
      && NotBehind(r.store.cursor, store.cursor)
      && forall a :: a in Attempts(r.trace) ==> Above(a.reply.inReplyTo, store.cursor)
    decreases |tweets|
  {
    if tweets != [] {
      var step := Step(botId, template, userMap, store, tweets[0], post);
      StepShape(botId, template, userMap, store, tweets[0], post);
      if !Stops(step.trace[0].verdict) {
        RunNeverGoesBack(botId, template, userMap, step.store, tweets[1..], post);
        var rest := Run(botId, template, userMap, step.store, tweets[1..], post);
        AttemptsAppend(step.trace, rest.trace);
      }
    }
  }

  /**
   * The order the platform delivers a batch in is enough: when the fetched
   * mentions are newest first with strictly decreasing ids, and the bot's own
   * mentions among them lie above the stored cursor, no self-authored mention
   * moves the cursor back. Mentions from others may lie at or below the
   * cursor; the guard skips those.
   */
  lemma {:induction false} AscendingBatchAdvances(botId: string, template: string, userMap: map<string, string>,
                                                  store: Store, tweets: seq<Mention>, post: Reply -> ReplyOutcome)
    requires forall i, j :: 0 <= i < j < |tweets| ==> tweets[i].id < tweets[j].id
    requires forall i :: 0 <= i < |tweets| && tweets[i].authorId == botId ==> Above(tweets[i].id, store.cursor)
    ensures SelfMentionsAdvance(botId, template, userMap, store, tweets, post)
    decreases |tweets|
  {
    if tweets != [] {
      var m := tweets[0];
      var step := Step(botId, template, userMap, store, m, post);
      if !Stops(step.trace[0].verdict) {
        assert step.store == store || step.store.cursor == Cursor(m.id);
        AscendingBatchAdvances(botId, template, userMap, step.store, tweets[1..], post);
      }
    }
  }

  /** The trace of a batch in which every mention is answered, in order. */
  function AllAnswered(template: string, userMap: map<string, string>, tweets: seq<Mention>): (r: seq<Handled>)
    ensures |r| == |tweets|
    ensures forall i :: 0 <= i < |r| ==> r[i].id == tweets[i].id && r[i].verdict == Replied
    decreases |tweets|
  {
    if tweets == [] then []
    else [Handled(tweets[0].id, Replied, Some(Attempt(ReplyFor(template, userMap, tweets[0]), Posted)))]
         + AllAnswered(template, userMap, tweets[1..])
  }

  /**
   * When the batch holds mentions from others, oldest first with increasing
   * ids above the cursor, and every reply goes through, each mention is
   * answered in turn and the cursor ends at the newest one.
   */
  lemma {:induction false} EveryReplyPosted(botId: string, template: string, userMap: map<string, string>,
                                            store: Store, tweets: seq<Mention>, post: Reply -> ReplyOutcome)
    requires store.cursor == NoCursor || store.cursor.Cursor?
    requires forall i :: 0 <= i < |tweets| ==> tweets[i].authorId != botId && Above(tweets[i].id, store.cursor)
    requires forall i, j :: 0 <= i < j < |tweets| ==> tweets[i].id < tweets[j].id
    requires forall i :: 0 <= i < |tweets| ==> post(ReplyFor(template, userMap, tweets[i])) == Posted
    ensures Run(botId, template, userMap, store, tweets, post)
      == Outcome(if tweets == [] then store else Saved(tweets[|tweets| - 1].id), AllAnswered(template, userMap, tweets))
    decreases |tweets|
  {
    if tweets != [] {
      ReplyStep(botId, template, userMap, store, tweets[0], post);
      AnsweredTail(botId, template, userMap, store, tweets, post);
      EveryReplyPosted(botId, template, userMap, Saved(tweets[0].id), tweets[1..], post);
      RunCons(botId, template, userMap, store, tweets, post);
    }
  }

  /** Once the first mention is answered, the rest of such a batch is again such a batch, above the saved cursor. */
  lemma AnsweredTail(botId: string, template: string, userMap: map<string, string>,
                     store: Store, tweets: seq<Mention>, post: Reply -> ReplyOutcome)
    requires tweets != []
    requires forall i :: 0 <= i < |tweets| ==> tweets[i].authorId != botId && Above(tweets[i].id, store.cursor)
    requires forall i, j :: 0 <= i < j < |tweets| ==> tweets[i].id < tweets[j].id
    requires forall i :: 0 <= i < |tweets| ==> post(ReplyFor(template, userMap, tweets[i])) == Posted
    ensures var cursor := Saved(tweets[0].id).cursor;
      var rest := tweets[1..];
      && (forall i :: 0 <= i < |rest| ==> rest[i].authorId != botId && Above(rest[i].id, cursor))
      && (forall i, j :: 0 <= i < j < |rest| ==> rest[i].id < rest[j].id)
      && (forall i :: 0 <= i < |rest| ==> post(ReplyFor(template, userMap, rest[i])) == Posted)
  {
    var rest := tweets[1..];
    forall i | 0 <= i < |rest| ensures rest[i] == tweets[i + 1] && tweets[0].id < rest[i].id {
    }
  }

  // ---------------------------------------------------------------------------
  // Across cycles

  /** A reply call that settles its mention: any answer but 429. */
  predicate Resolved(a: Attempt) {
    a.outcome != Failed(Some(RateLimitedCode))
  }

  /** The mention ids of the resolved reply calls in a log, in order. */
  function ResolvedIds(log: seq<Attempt>): seq<nat>
    decreases |log|
  {
    if log == [] then []
    else
      var last := log[|log| - 1];
      ResolvedIds(log[..|log| - 1]) + (if Resolved(last) then [last.reply.inReplyTo] else [])
  }

  lemma {:induction false} ResolvedIdsAppend(a: seq<Attempt>, b: seq<Attempt>)
    ensures ResolvedIds(a + b) == ResolvedIds(a) + ResolvedIds(b)
    decreases |b|
  {
    if b != [] {
      var b' := b[..|b| - 1];
      ResolvedIdsAppend(a, b');
      assert (a + b)[..|a + b| - 1] == a + b';
    } else {
      assert a + b == a;
    }
  }

  /**
   * The de-duplication invariant between the cursor and the log of all
   * reply calls ever made: the resolved mentions were resolved in strictly
   * increasing id order (so none twice), and the cursor is a number at or
   * above every one of them.
   */
  ghost predicate RepliedAtMostOnce(cursor: CursorRead, log: seq<Attempt>) {
    var ids := ResolvedIds(log);
    && (forall i, j :: 0 <= i < j < |ids| ==> ids[i] < ids[j])
    && (ids != [] ==> cursor.Cursor?)
    && (forall k :: 0 <= k < |ids| ==> ids[k] <= cursor.id)
  }

  /** Moving the cursor up keeps the invariant. */
  lemma CursorAdvanceKeeps(cursor: CursorRead, cursor': CursorRead, log: seq<Attempt>)
    requires RepliedAtMostOnce(cursor, log) && NotBehind(cursor', cursor)
    ensures RepliedAtMostOnce(cursor', log)
  {
  }

  /**
   * Logging one reply call for a mention above the cursor keeps the
   * invariant, with the cursor moved to that mention when the call resolved
   * it, and the mention lies above every mention resolved before.
   */
  lemma LogReplyKeeps(cursor: CursorRead, log: seq<Attempt>, a: Attempt)
    requires RepliedAtMostOnce(cursor, log)
    requires cursor.NoCursor? || (cursor.Cursor? && a.reply.inReplyTo > cursor.id)
    ensures RepliedAtMostOnce(if Resolved(a) then Cursor(a.reply.inReplyTo) else cursor, log + [a])
    ensures forall x :: x in ResolvedIds(log) ==> x < a.reply.inReplyTo
  {
    var ids := ResolvedIds(log);
    forall x | x in ids ensures cursor.Cursor? && x <= cursor.id {
      var k :| 0 <= k < |ids| && ids[k] == x;
    }
    assert (log + [a])[..|log|] == log;
    var ids' := ResolvedIds(log + [a]);
    assert ids' == ids + (if Resolved(a) then [a.reply.inReplyTo] else []);
    if Resolved(a) {
      assert ids'[|ids|] == a.reply.inReplyTo;
      forall i | 0 <= i < |ids| ensures ids'[i] < a.reply.inReplyTo {
        assert ids'[i] == ids[i] && ids[i] in ids;
      }
    }
  }

  /** One mention keeps the invariant, and its reply call, if any, is above every mention resolved before. */
  lemma StepKeepsRepliedAtMostOnce(botId: string, template: string, userMap: map<string, string>,
                                   store: Store, m: Mention, post: Reply -> ReplyOutcome, log: seq<Attempt>)
    requires RepliedAtMostOnce(store.cursor, log)
    requires m.authorId == botId ==> Above(m.id, store.cursor)
    ensures var step := Step(botId, template, userMap, store, m, post);
      && RepliedAtMostOnce(step.store.cursor, log + Attempts(step.trace))
      && forall a, x :: a in Attempts(step.trace) && x in ResolvedIds(log) ==> x < a.reply.inReplyTo
  {
    var step := Step(botId, template, userMap, store, m, post);
    StepShape(botId, template, userMap, store, m, post);
    var h := step.trace[0];
    if h.attempt.Some? {
      LogReplyKeeps(store.cursor, log, h.attempt.value);
    } else {
      assert log + Attempts(step.trace) == log;
      CursorAdvanceKeeps(store.cursor, step.store.cursor, log);
    }
  }

  /** The invariant and the freshness of reply calls carry over two log extensions in a row. */
  lemma LogChainKeeps(cursor: CursorRead, log: seq<Attempt>, first: seq<Attempt>, second: seq<Attempt>)
    requires RepliedAtMostOnce(cursor, (log + first) + second)
    requires forall a, x :: a in first && x in ResolvedIds(log) ==> x < a.reply.inReplyTo
    requires forall a, x :: a in second && x in ResolvedIds(log + first) ==> x < a.reply.inReplyTo
    ensures RepliedAtMostOnce(cursor, log + (first + second))
    ensures forall a, x :: a in first + second && x in ResolvedIds(log) ==> x < a.reply.inReplyTo
  {
    assert (log + first) + second == log + (first + second);
    ResolvedIdsAppend(log, first);
    forall a, x | a in first + second && x in ResolvedIds(log) ensures x < a.reply.inReplyTo {
      if a !in first {
        assert a in second && x in ResolvedIds(log + first);
      }
    }
  }

  /**
   * A batch keeps the invariant, and never calls reply for a mention that was
   * already resolved, provided self-authored mentions do not move the cursor back.
   */
  lemma {:induction false} RunKeepsRepliedAtMostOnce(botId: string, template: string, userMap: map<string, string>,
                                                     store: Store, tweets: seq<Mention>,
                                                     post: Reply -> ReplyOutcome, log: seq<Attempt>)
    requires RepliedAtMostOnce(store.cursor, log)
    requires SelfMentionsAdvance(botId, template, userMap, store, tweets, post)
    ensures var r := Run(botId, template, userMap, store, tweets, post);
      && RepliedAtMostOnce(r.store.cursor, log + Attempts(r.trace))
      && forall a, x :: a in Attempts(r.trace) && x in ResolvedIds(log) ==> x < a.reply.inReplyTo
    decreases |tweets|
  {
    if tweets != [] {
      var step := Step(botId, template, userMap, store, tweets[0], post);
      StepKeepsRepliedAtMostOnce(botId, template, userMap, store, tweets[0], post, log);
      if !Stops(step.trace[0].verdict) {
        var log' := log + Attempts(step.trace);
        RunKeepsRepliedAtMostOnce(botId, template, userMap, step.store, tweets[1..], post, log');
        var rest := Run(botId, template, userMap, step.store, tweets[1..], post);
        AttemptsAppend(step.trace, rest.trace);
        LogChainKeeps(rest.store.cursor, log, Attempts(step.trace), Attempts(rest.trace));
      }
    } else {
      assert log + Attempts([]) == log;
    }
  }

  /**
   * The cursor a batch tracks is what re-reading the file gives, all the way
   * through: it starts as the file's reading and every save keeps it so.
   */
  lemma {:induction false} RunKeepsStoreRead(botId: string, template: string, userMap: map<string, string>,
                                             store: Store, tweets: seq<Mention>, post: Reply -> ReplyOutcome)
    requires Loaded(store.file) == store
    ensures var r := Run(botId, template, userMap, store, tweets, post);
      Loaded(r.store.file) == r.store
    decreases |tweets|
  {
    if tweets != [] {
      var step := Step(botId, template, userMap, store, tweets[0], post);
      StepShape(botId, template, userMap, store, tweets[0], post);
      SavedIsRead(tweets[0].id);
      assert Loaded(step.store.file) == step.store;
      if !Stops(step.trace[0].verdict) {
        RunCons(botId, template, userMap, store, tweets, post);
        RunKeepsStoreRead(botId, template, userMap, step.store, tweets[1..], post);
      }
    }
  }

  /**
   * The fetched batch is newest first with strictly decreasing ids, and the
   * bot's own mentions in it lie above the stored cursor. Mentions from others
   * may repeat ones already handled: the duplicate guard is what skips them.
   */
  predicate NewestFirstSelfAbove(botId: string, mentions: seq<Mention>, cursor: CursorRead) {
    && (forall i, j :: 0 <= i < j < |mentions| ==> mentions[i].id > mentions[j].id)
    && (forall i :: 0 <= i < |mentions| && mentions[i].authorId == botId ==> Above(mentions[i].id, cursor))
  }

  /**
   * At most once across cycles and restarts: a cycle over a batch in
   * newest-first order, old mentions from others included, keeps the
   * invariant between the cursor read from the file and the log of reply
   * calls, and calls reply for no mention already resolved. A mention is resolved by at most one call (a call
   * refused with 429 does not resolve it and is retried; a 403 or other
   * failure resolves it with no reply posted). Cycles are taken one after
   * another, each starting from the file the previous one left.
   */
  lemma CycleKeepsRepliedAtMostOnce(botId: string, template: string, file: Option<string>,
                                    fetch: FetchResult, post: Reply -> ReplyOutcome, log: seq<Attempt>)
    requires RepliedAtMostOnce(ReadCursor(file), log)
    requires fetch.Fetched? ==> NewestFirstSelfAbove(botId, fetch.mentions, ReadCursor(file))
    ensures var c := Cycle(botId, template, file, fetch, post);
      && RepliedAtMostOnce(ReadCursor(c.store.file), log + Attempts(c.trace))
      && forall a, x :: a in Attempts(c.trace) && x in ResolvedIds(log) ==> x < a.reply.inReplyTo
  {
    if fetch.Fetched? && fetch.mentions != [] {
      var userMap, tweets := UserMapOf(fetch.users), Reversed(fetch.mentions);
      AscendingBatchAdvances(botId, template, userMap, Loaded(file), tweets, post);
      RunKeepsRepliedAtMostOnce(botId, template, userMap, Loaded(file), tweets, post, log);
      RunKeepsStoreRead(botId, template, userMap, Loaded(file), tweets, post);
    } else {
      assert log + [] == log;
    }
  }

  /** A failed fetch or an empty batch leaves the file as it was and makes no reply call. */
  lemma CycleWithoutMentions(botId: string, template: string, file: Option<string>,
                             fetch: FetchResult, post: Reply -> ReplyOutcome)
    requires fetch.FetchFailed? || fetch.mentions == []
    ensures var c := Cycle(botId, template, file, fetch, post);
      c.store == Loaded(file) && c.trace == [] && Attempts(c.trace) == []
  {
  }

  /**
   * Processing order of a cycle: the trace follows the fetched batch from
   * its LAST (oldest) element backwards, and each reply call answers the
   * mention of its own line.
   */
  lemma CycleOrder(botId: string, template: string, file: Option<string>,
                   fetch: FetchResult, post: Reply -> ReplyOutcome)
    requires fetch.Fetched? && fetch.mentions != []
    ensures var c := Cycle(botId, template, file, fetch, post);
      && |c.trace| <= |fetch.mentions|
      && forall i :: 0 <= i < |c.trace| ==>
           && c.trace[i].id == fetch.mentions[|fetch.mentions| - 1 - i].id
           && (c.trace[i].attempt.Some? ==> c.trace[i].attempt.value.reply.inReplyTo == c.trace[i].id)
  {
    ReversedRunOrder(botId, template, UserMapOf(fetch.users), Loaded(file), fetch.mentions, post);
  }

  /** `RunFollowsBatch` for a batch given newest first and run in reverse. */
  lemma ReversedRunOrder(botId: string, template: string, userMap: map<string, string>,
                         store: Store, mentions: seq<Mention>, post: Reply -> ReplyOutcome)
    ensures var r := Run(botId, template, userMap, store, Reversed(mentions), post);
      && |r.trace| <= |mentions|
      && forall i :: 0 <= i < |r.trace| ==>
           && r.trace[i].id == mentions[|mentions| - 1 - i].id
           && (r.trace[i].attempt.Some? ==> r.trace[i].attempt.value.reply.inReplyTo == r.trace[i].id)
  {
    var tweets := Reversed(mentions);
    RunFollowsBatch(botId, template, userMap, store, tweets, post);
  }
}
